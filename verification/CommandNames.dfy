/** Suggesting command names: all matching names of all sources are ranked, and then offered in
    that order until the result budget is spent. */
module CommandNames {
  import opened Sequences
  import opened Deduplication
  import opened Lexicographic
  import opened CompletionTracker

  /** A name from the source with this number; sources come in order of precedence. */
  datatype Candidate = Candidate(name: string, source: nat, sortKey: string, preferred: bool)

  predicate Ranks(a: Candidate, b: Candidate) {
    if a.preferred != b.preferred then a.preferred
    else if |a.name| != |b.name| then |a.name| < |b.name|
    else if a.sortKey == b.sortKey then Less(a.name, b.name)
    else Less(a.sortKey, b.sortKey)
  }

  lemma RanksTransitive(a: Candidate, b: Candidate, c: Candidate)
    ensures !Ranks(a, a)
    ensures Ranks(a, b) && Ranks(b, c) ==> Ranks(a, c)
    ensures !Ranks(a, b) && !Ranks(b, c) ==> !Ranks(a, c)
  {
    LessIsTotal();
  }

  lemma RanksIsWeakOrder()
    ensures StrictWeakOrder(Ranks)
  {
    forall a, b, c
      ensures !Ranks(a, a)
      ensures Ranks(a, b) && Ranks(b, c) ==> Ranks(a, c)
      ensures !Ranks(a, b) && !Ranks(b, c) ==> !Ranks(a, c)
    {
      RanksTransitive(a, b, c);
    }
  }

  // ---------------------------------------------------------------- the candidates

  /** The surroundings of one request: the prefix test, the comparison form of a name, and the
      filter of each source. */
  datatype Lookup = Lookup(matches: string -> bool, normalize: string -> string, accepts: (nat, string) -> bool)

  function CandidateOf(look: Lookup, t: Tracked, d: int, source: nat): string -> Candidate {
    (name: string) => Candidate(name, source, look.normalize(name), Key(t.prefix, name, d) in t.preferred)
  }

  function FromGroups(look: Lookup, t: Tracked, d: int, groups: seq<seq<string>>, source: nat): seq<Candidate>
    decreases |groups| - source
  {
    if source >= |groups| then []
    else
      Map(CandidateOf(look, t, d, source), Filter(look.matches, groups[source]))
      + FromGroups(look, t, d, groups, source + 1)
  }

  /** All candidates, best first; equally ranked ones by source. */
  function Ranked(look: Lookup, t: Tracked, d: int, groups: seq<seq<string>>): seq<Candidate> {
    Sort(Ranks, FromGroups(look, t, d, groups, 0))
  }

  /** The text that is inserted: the name and a space. */
  function TextOf(name: string): string {
    if name == "" || name[|name| - 1] != ' ' then name + " " else name
  }

  function KeyOf(t: Tracked, d: int): Candidate -> string {
    (c: Candidate) => Key(t.prefix, TextOf(c.name), d)
  }

  function Accepts(look: Lookup): Candidate -> bool {
    (c: Candidate) => look.accepts(c.source, c.name)
  }

  /** The space that is inserted does not change what counts as the same result, so the names
      recorded as preferred are those of the results. */
  lemma SpaceIgnored(prefix: string, name: string, d: int)
    ensures Key(prefix, TextOf(name), d) == Key(prefix, name, d)
  {
    if name == "" || name[|name| - 1] != ' ' {
      var s := FinalResult(prefix, name, d);
      var kept := if 0 < d <= |prefix| then prefix[..|prefix| - d] else prefix;
      Assoc(kept, name, " ");
      assert (s + " ")[..|s|] == s;
    }
  }

  // ---------------------------------------------------------------- offering

  /** The editor's answers at each candidate: whether it wants to stop before it, and whether
      it wants more after it. */
  datatype Editor = Editor(stops: nat -> bool, more: nat -> bool)

  ghost predicate Patient(e: Editor) {
    forall k :: !e.stops(k) && e.more(k)
  }

  /** What is delivered of the candidates from `i` on, and the session afterwards. */
  function Offer(look: Lookup, e: Editor, limit: nat, d: int, cs: seq<Candidate>, i: nat,
      t: Tracked): (seq<Candidate>, Tracked)
    decreases |cs| - i
  {
    if i >= |cs| || Full(t, limit) || e.stops(i) then ([], t)
    else if !Accepts(look)(cs[i]) then Offer(look, e, limit, d, cs, i + 1, t)
    else if !Takes(t, limit, TextOf(cs[i].name), d) then Offer(look, e, limit, d, cs, i + 1, t)
    else
      var t' := Add(t, limit, TextOf(cs[i].name), d);
      if !e.more(i) then ([cs[i]], t')
      else
        var rest := Offer(look, e, limit, d, cs, i + 1, t');
        ([cs[i]] + rest.0, rest.1)
  }

  method CollectCandidates(look: Lookup, tracker: CompletionTracker, d: int, groups: seq<seq<string>>)
      returns (cs: seq<Candidate>)
    ensures cs == FromGroups(look, tracker.State(), d, groups, 0)
  {
    cs := [];
    ghost var t := tracker.State();
    ghost var all := FromGroups(look, t, d, groups, 0);
    NoneBefore(all);
    for source := 0 to |groups|
      invariant all == cs + FromGroups(look, t, d, groups, source)
    {
      var names := groups[source];
      ghost var before := cs;
      ghost var f := CandidateOf(look, t, d, source);
      ghost var group := Map(f, Filter(look.matches, names));
      NoneBefore(before);
      for k := 0 to |names|
        invariant cs == before + Map(f, Filter(look.matches, names[..k]))
      {
        MatchNext(look, f, names, k);
        if look.matches(names[k]) {
          var preferred := tracker.IsPreferred(names[k], d);
          var c := Candidate(names[k], source, look.normalize(names[k]), preferred);
          Assoc(before, Map(f, Filter(look.matches, names[..k])), [c]);
          cs := cs + [c];
        }
      }
      assert names[..|names|] == names;
      Assoc(before, group, FromGroups(look, t, d, groups, source + 1));
    }
    NoneBefore(cs);
  }

  lemma MatchNext(look: Lookup, f: string -> Candidate, names: seq<string>, k: nat)
    requires k < |names|
    ensures Map(f, Filter(look.matches, names[..k + 1]))
         == Map(f, Filter(look.matches, names[..k])) + (if look.matches(names[k]) then [f(names[k])] else [])
  {
    assert names[..k + 1] == names[..k] + [names[k]];
    FilterAppend(look.matches, names[..k], [names[k]]);
    assert [names[k]][1..] == [];
    MapAppend(f, Filter(look.matches, names[..k]), Filter(look.matches, [names[k]]));
  }

  /** `add_command_name_completions`, without the spelling corrections. */
  method AddCommandNames(look: Lookup, e: Editor, limit: nat, d: int, groups: seq<seq<string>>,
      tracker: CompletionTracker)
    returns (delivered: seq<Candidate>)
    modifies tracker
    ensures (delivered, tracker.State())
        == Offer(look, e, limit, d, Ranked(look, old(tracker.State()), d, groups), 0, old(tracker.State()))
  {
    delivered := [];
    var cs := CollectCandidates(look, tracker, d, groups);
    cs := Sort(Ranks, cs);
    ghost var goal := Offer(look, e, limit, d, cs, 0, tracker.State());
    NoneBefore(goal.0);
    for i := 0 to |cs|
      invariant goal.0 == delivered + Offer(look, e, limit, d, cs, i, tracker.State()).0
      invariant goal.1 == Offer(look, e, limit, d, cs, i, tracker.State()).1
    {
      NoneBefore(delivered);
      if tracker.total >= Limit(limit) || e.stops(i) { return; }
      if !look.accepts(cs[i].source, cs[i].name) { continue; }
      ghost var before := delivered;
      var goOn, taken := tracker.AddIfUnique(TextOf(cs[i].name), d, limit, e.more(i));
      if taken { delivered := delivered + [cs[i]]; }
      if !goOn { return; }
      Assoc(before, [cs[i]], Offer(look, e, limit, d, cs, i + 1, tracker.State()).0);
    }
    NoneBefore(delivered);
  }

  // ---------------------------------------------------------------- what is delivered

  /** All that could be delivered: the accepted candidates in ranked order, the first of each
      result, without those that the session had before. */
  function Deliverable(look: Lookup, d: int, cs: seq<Candidate>, t: Tracked): seq<Candidate> {
    DedupeBy(KeyOf(t, d), t.added, Filter(Accepts(look), cs))
  }

  lemma DeliverableNext(look: Lookup, d: int, cs: seq<Candidate>, i: nat, t: Tracked)
    requires i < |cs|
    ensures var here, rest := Deliverable(look, d, cs[i..], t), cs[i + 1..];
      var c, key := cs[i], KeyOf(t, d)(cs[i]);
      here == if !Accepts(look)(c) || key in t.added then Deliverable(look, d, rest, t)
              else [c] + DedupeBy(KeyOf(t, d), t.added + {key}, Filter(Accepts(look), rest))
  {
    assert cs[i..][0] == cs[i] && cs[i..][1..] == cs[i + 1..];
    if Accepts(look)(cs[i]) {
      var kept := Filter(Accepts(look), cs[i + 1..]);
      assert ([cs[i]] + kept)[1..] == kept;
    }
  }

  lemma TakeNext(c: Candidate, xs: seq<Candidate>, n: nat)
    requires n > 0
    ensures Take([c] + xs, n) == [c] + Take(xs, n - 1)
  {
  }

  function Room(limit: nat, t: Tracked): nat {
    if t.total >= Limit(limit) then 0 else Limit(limit) - t.total
  }

  lemma SameKeys(t: Tracked, t': Tracked, d: int, xs: seq<Candidate>, seen: set<string>)
    requires t.prefix == t'.prefix
    ensures DedupeBy(KeyOf(t, d), seen, xs) == DedupeBy(KeyOf(t', d), seen, xs)
  {
    DedupeCongruent(KeyOf(t, d), KeyOf(t', d), seen, xs);
  }

  /** One more candidate taken. */
  lemma TakenDeliverable(look: Lookup, limit: nat, d: int, cs: seq<Candidate>, i: nat, t: Tracked)
    requires i < |cs| && Accepts(look)(cs[i]) && Takes(t, limit, TextOf(cs[i].name), d)
    ensures var t' := Add(t, limit, TextOf(cs[i].name), d);
      Take(Deliverable(look, d, cs[i..], t), Room(limit, t))
          == [cs[i]] + Take(Deliverable(look, d, cs[i + 1..], t'), Room(limit, t'))
  {
    var t' := Add(t, limit, TextOf(cs[i].name), d);
    DeliverableNext(look, d, cs, i, t);
    SameKeys(t, t', d, Filter(Accepts(look), cs[i + 1..]), t'.added);
    TakeNext(cs[i], Deliverable(look, d, cs[i + 1..], t'), Room(limit, t));
  }

  /** A patient editor gets exactly the first deliverable candidates, as many as there is room
      for. */
  lemma {:induction false} OfferIsTake(look: Lookup, e: Editor, limit: nat, d: int, cs: seq<Candidate>, i: nat,
      t: Tracked)
    requires Patient(e) && Counted(t) && limit <= SIZE_MAX && i <= |cs|
    ensures Offer(look, e, limit, d, cs, i, t).0 == Take(Deliverable(look, d, cs[i..], t), Room(limit, t))
    decreases |cs| - i
  {
    if i < |cs| && !Full(t, limit) {
      var text := TextOf(cs[i].name);
      CapUnreachable(t, limit, text, d);
      if !Accepts(look)(cs[i]) || !Takes(t, limit, text, d) {
        DeliverableNext(look, d, cs, i, t);
        OfferIsTake(look, e, limit, d, cs, i + 1, t);
      } else {
        AddKeepsCount(t, limit, text, d);
        OfferIsTake(look, e, limit, d, cs, i + 1, Add(t, limit, text, d));
        TakenDeliverable(look, limit, d, cs, i, t);
      }
    }
  }

  predicate IsPrefix(a: seq<Candidate>, b: seq<Candidate>) {
    |a| <= |b| && a == b[..|a|]
  }

  /** Whatever the editor answers, it gets a prefix of what a patient one gets. */
  lemma {:induction false} ImpatientGetsPrefix(look: Lookup, e: Editor, p: Editor, limit: nat, d: int,
      cs: seq<Candidate>, i: nat, t: Tracked)
    requires Patient(p) && i <= |cs|
    ensures IsPrefix(Offer(look, e, limit, d, cs, i, t).0, Offer(look, p, limit, d, cs, i, t).0)
    decreases |cs| - i
  {
    if i < |cs| && !Full(t, limit) && !e.stops(i) {
      if !Accepts(look)(cs[i]) || !Takes(t, limit, TextOf(cs[i].name), d) {
        ImpatientGetsPrefix(look, e, p, limit, d, cs, i + 1, t);
      } else {
        ImpatientGetsPrefix(look, e, p, limit, d, cs, i + 1, Add(t, limit, TextOf(cs[i].name), d));
      }
    }
  }

  lemma OfferTaken(look: Lookup, e: Editor, limit: nat, d: int, cs: seq<Candidate>, i: nat, t: Tracked)
    requires i < |cs| && !e.stops(i) && Accepts(look)(cs[i]) && Takes(t, limit, TextOf(cs[i].name), d)
    ensures var t' := Add(t, limit, TextOf(cs[i].name), d);
      Offer(look, e, limit, d, cs, i, t).0
      == [cs[i]] + if e.more(i) then Offer(look, e, limit, d, cs, i + 1, t').0 else []
  {
  }

  lemma SameAdd(k: nat, k': nat, t: Tracked, text: string, d: int)
    requires Counted(t) && k <= k' <= SIZE_MAX && !Full(t, k)
    ensures Takes(t, k, text, d) == Takes(t, k', text, d) && Add(t, k, text, d) == Add(t, k', text, d)
    ensures Takes(t, k, text, d) ==> Room(k, Add(t, k, text, d)) == Room(k, t) - 1 && Counted(Add(t, k, text, d))
  {
    CapUnreachable(t, k, text, d);
    CapUnreachable(t, k', text, d);
  }

  lemma {:induction false} OfferCut(look: Lookup, e: Editor, k: nat, k': nat, d: int, cs: seq<Candidate>, i: nat,
      t: Tracked)
    requires Counted(t) && k <= k' <= SIZE_MAX && i <= |cs|
    ensures Offer(look, e, k, d, cs, i, t).0 == Take(Offer(look, e, k', d, cs, i, t).0, Room(k, t))
    decreases |cs| - i
  {
    if i < |cs| && !Full(t, k) && !e.stops(i) {
      var text := TextOf(cs[i].name);
      SameAdd(k, k', t, text, d);
      if !Accepts(look)(cs[i]) || !Takes(t, k, text, d) {
        OfferCut(look, e, k, k', d, cs, i + 1, t);
      } else {
        var t' := Add(t, k, text, d);
        OfferTaken(look, e, k, d, cs, i, t);
        OfferTaken(look, e, k', d, cs, i, t);
        OfferCut(look, e, k, k', d, cs, i + 1, t');
        TakeNext(cs[i], if e.more(i) then Offer(look, e, k', d, cs, i + 1, t').0 else [], Room(k, t));
      }
    }
  }

  /** The budget only cuts the list, whatever the editor answers: under a smaller limit exactly
      the first suggestions of the larger one are delivered. */
  lemma BudgetOnlyCuts(look: Lookup, e: Editor, k: nat, k': nat, d: int, cs: seq<Candidate>, t: Tracked)
    requires Counted(t) && k <= k' <= SIZE_MAX
    ensures Offer(look, e, k, d, cs, 0, t).0 == Take(Offer(look, e, k', d, cs, 0, t).0, Room(k, t))
  {
    OfferCut(look, e, k, k', d, cs, 0, t);
  }

  /** Whatever the editor answers, what it gets is a prefix of the deliverable candidates, no
      longer than there is room for. */
  lemma OfferIsPrefix(look: Lookup, e: Editor, limit: nat, d: int, cs: seq<Candidate>, t: Tracked)
    requires Counted(t) && limit <= SIZE_MAX
    ensures var out := Offer(look, e, limit, d, cs, 0, t).0;
      IsPrefix(out, Deliverable(look, d, cs, t)) && |out| <= Room(limit, t)
  {
    var patient := Editor(k => false, k => true);
    ImpatientGetsPrefix(look, e, patient, limit, d, cs, 0, t);
    OfferIsTake(look, patient, limit, d, cs, 0, t);
    assert cs[0..] == cs;
  }

  /** No two delivered results are the same after right-trimming, and none was there before. */
  lemma DeliveredDistinct(look: Lookup, e: Editor, limit: nat, d: int, cs: seq<Candidate>, t: Tracked)
    requires Counted(t) && limit <= SIZE_MAX
    ensures var out := Offer(look, e, limit, d, cs, 0, t).0;
      DistinctKeys(KeyOf(t, d), out) && forall k :: 0 <= k < |out| ==> KeyOf(t, d)(out[k]) !in t.added
  {
    OfferIsPrefix(look, e, limit, d, cs, t);
    DedupeDistinct(KeyOf(t, d), t.added, Filter(Accepts(look), cs));
  }

  // ---------------------------------------------------------------- precedence of sources

  function Named(name: string): Candidate -> bool {
    (c: Candidate) => c.name == name
  }

  /** Candidates with one name differ in their source only. */
  ghost predicate NameDecides(cs: seq<Candidate>) {
    forall i, j :: 0 <= i < |cs| && 0 <= j < |cs| && cs[i].name == cs[j].name ==>
      cs[i].sortKey == cs[j].sortKey && cs[i].preferred == cs[j].preferred
  }

  ghost predicate SourcesAscend(cs: seq<Candidate>) {
    forall i, j :: 0 <= i <= j < |cs| ==> cs[i].source <= cs[j].source
  }

  ghost predicate FromSources(look: Lookup, t: Tracked, d: int, cs: seq<Candidate>, source: nat) {
    forall k :: 0 <= k < |cs| ==> cs[k] == CandidateOf(look, t, d, cs[k].source)(cs[k].name) && cs[k].source >= source
  }

  lemma {:induction false} GroupsAscend(look: Lookup, t: Tracked, d: int, groups: seq<seq<string>>, source: nat)
    ensures var cs := FromGroups(look, t, d, groups, source); SourcesAscend(cs) && FromSources(look, t, d, cs, source)
    decreases |groups| - source
  {
    if source < |groups| { GroupsAscend(look, t, d, groups, source + 1); }
  }

  /** The rank order keeps candidates with one name in the order of their sources. */
  lemma SameNameKeepsOrder(cs: seq<Candidate>, name: string)
    requires NameDecides(cs)
    ensures Filter(Named(name), Sort(Ranks, cs)) == Filter(Named(name), cs)
  {
    RanksIsWeakOrder();
    SortFilter(Ranks, Named(name), cs);
    var same := Filter(Named(name), cs);
    FilterMembers(Named(name), cs);
    if same != [] {
      var c := same[0];
      assert c in same && c in cs;
      forall x | x in same ensures Equivalent(Ranks, c)(x) {
        assert x in cs && x.name == c.name;
        LessIsTotal();
      }
      SortTied(Ranks, c, same);
    }
  }

  lemma FilterSwap(p: Candidate -> bool, q: Candidate -> bool, xs: seq<Candidate>)
    ensures Filter(p, Filter(q, xs)) == Filter(q, Filter(p, xs))
  {
    FilterFilter(p, q, xs);
    FilterFilter(q, p, xs);
    FilterCongruent((x: Candidate) => q(x) && p(x), (x: Candidate) => p(x) && q(x), xs);
  }

  lemma {:induction false} HeadHasLeastSource(cs: seq<Candidate>, p: Candidate -> bool)
    requires SourcesAscend(cs)
    ensures forall x :: x in Filter(p, cs) ==> Filter(p, cs)[0].source <= x.source
  {
    if cs != [] {
      if p(cs[0]) {
        FilterMembers(p, cs);
      } else {
        HeadHasLeastSource(cs[1..], p);
      }
    }
  }

  /** A delivered name comes from the first source that has it and whose filter accepts it. */
  lemma EarliestSourceWins(look: Lookup, e: Editor, limit: nat, d: int, groups: seq<seq<string>>, t: Tracked,
      c: Candidate, x: Candidate)
    requires Counted(t) && limit <= SIZE_MAX
    requires c in Offer(look, e, limit, d, Ranked(look, t, d, groups), 0, t).0
    requires x in FromGroups(look, t, d, groups, 0) && x.name == c.name && Accepts(look)(x)
    ensures c.source <= x.source
  {
    var cs := FromGroups(look, t, d, groups, 0);
    var ranked, accepts, named := Ranked(look, t, d, groups), Accepts(look), Named(c.name);
    GroupsAscend(look, t, d, groups, 0);
    OfferIsPrefix(look, e, limit, d, ranked, t);
    assert c in Deliverable(look, d, ranked, t);
    KeptIsFirst(KeyOf(t, d), t.added, Filter(accepts, ranked), named, c);
    FilterSwap(named, accepts, ranked);
    SameNameKeepsOrder(cs, c.name);
    FilterSwap(accepts, named, cs);
    NamedSources(cs, accepts, named, c, x);
  }

  lemma NamedSources(cs: seq<Candidate>, accepts: Candidate -> bool, named: Candidate -> bool, c: Candidate,
      x: Candidate)
    requires SourcesAscend(cs) && x in cs && accepts(x) && named(x)
    requires var kept := Filter(accepts, Filter(named, cs)); kept != [] && kept[0] == c
    ensures c.source <= x.source
  {
    FilterFilter(accepts, named, cs);
    FilterMembers((y: Candidate) => named(y) && accepts(y), cs);
    HeadHasLeastSource(cs, (y: Candidate) => named(y) && accepts(y));
  }
}

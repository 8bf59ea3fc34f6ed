/** What a request for command names gives the editor, said of the names themselves: which are
    suggested, in which order, and which of them the budget cuts off. */
module Suggestions {
  import opened Text
  import opened Sequences
  import opened Deduplication
  import opened Lexicographic
  import opened CompletionTracker
  import opened CommandNames

  /** The name is one of its source's, begins with what was typed, and has been recorded as
      preferred or not. */
  predicate Offered(look: Lookup, t: Tracked, d: int, groups: seq<seq<string>>, c: Candidate) {
    && c.source < |groups| && c.name in groups[c.source] && look.matches(c.name)
    && c.sortKey == look.normalize(c.name)
    && (c.preferred <==> Result(t, d, c) in t.preferred)
  }

  /** The line after the name is accepted, without the white space at its end. */
  function Result(t: Tracked, d: int, c: Candidate): string {
    TrimRight(FinalResult(t.prefix, c.name, d))
  }

  lemma {:induction false} CandidatesOffered(look: Lookup, t: Tracked, d: int, groups: seq<seq<string>>, source: nat,
      c: Candidate)
    requires source <= |groups|
    ensures c in FromGroups(look, t, d, groups, source) <==> Offered(look, t, d, groups, c) && c.source >= source
    decreases |groups| - source
  {
    if source < |groups| {
      CandidatesOffered(look, t, d, groups, source + 1, c);
      var f, names := CandidateOf(look, t, d, source), Filter(look.matches, groups[source]);
      FilterMembers(look.matches, groups[source]);
      if c in Map(f, names) {
        var k :| 0 <= k < |names| && Map(f, names)[k] == c;
        assert names[k] in names;
      }
      if c.source == source && Offered(look, t, d, groups, c) {
        var k :| 0 <= k < |names| && names[k] == c.name;
        assert Map(f, names)[k] == c;
      }
    }
  }

  /** Preferred names first, then shorter ones, then those with the smaller comparison form, and
      names with the same one by themselves. */
  predicate GoesFirst(a: Candidate, b: Candidate) {
    || (a.preferred && !b.preferred)
    || (a.preferred == b.preferred && |a.name| < |b.name|)
    || (a.preferred == b.preferred && |a.name| == |b.name| && Less(a.sortKey, b.sortKey))
    || (a.preferred == b.preferred && |a.name| == |b.name| && a.sortKey == b.sortKey
        && (a.name == b.name || Less(a.name, b.name)))
  }

  lemma GoesFirstMeans(a: Candidate, b: Candidate)
    ensures GoesFirst(a, b) <==> !Ranks(b, a)
  {
    LessIsTotal();
  }

  /** The name may be suggested: its source's filter accepts it, and the session has not had the
      line it leads to. */
  predicate Suggestible(look: Lookup, t: Tracked, d: int, groups: seq<seq<string>>, c: Candidate) {
    Offered(look, t, d, groups, c) && look.accepts(c.source, c.name) && Result(t, d, c) !in t.added
  }

  /** A suggestion leads to the same line and does not go behind it. */
  ghost predicate Stands(t: Tracked, d: int, out: seq<Candidate>, c: Candidate) {
    exists y :: y in out && Result(t, d, y) == Result(t, d, c) && GoesFirst(y, c)
  }

  /** The suggestions of one request, judged by the names alone: a name that may be suggested is
      not, only if a better one leads to the same line, or if the limit, which is at least one,
      was spent on names that are not behind it. */
  ghost predicate Suggests(look: Lookup, limit: nat, d: int, groups: seq<seq<string>>, t: Tracked,
      out: seq<Candidate>)
  {
    && (forall x :: x in out ==> Suggestible(look, t, d, groups, x))
    && (forall j, k :: 0 <= j < k < |out| ==>
          GoesFirst(out[j], out[k]) && Result(t, d, out[j]) != Result(t, d, out[k]))
    && (out != [] ==> t.total + |out| <= if limit == 0 then 1 else limit)
    && forall c :: Suggestible(look, t, d, groups, c) ==>
          || Stands(t, d, out, c)
          || (t.total + |out| >= (if limit == 0 then 1 else limit) && forall x :: x in out ==> GoesFirst(x, c))
  }

  lemma KeyIsResult(t: Tracked, d: int, c: Candidate)
    ensures KeyOf(t, d)(c) == Result(t, d, c)
  {
    SpaceIgnored(t.prefix, c.name, d);
  }

  lemma AcceptedIs(look: Lookup, t: Tracked, d: int, groups: seq<seq<string>>, c: Candidate)
    ensures c in Filter(Accepts(look), Ranked(look, t, d, groups))
      <==> Offered(look, t, d, groups, c) && look.accepts(c.source, c.name)
  {
    var cs := FromGroups(look, t, d, groups, 0);
    SortMembers(Ranks, cs);
    FilterMembers(Accepts(look), Sort(Ranks, cs));
    CandidatesOffered(look, t, d, groups, 0, c);
  }

  lemma AcceptedSorted(look: Lookup, t: Tracked, d: int, groups: seq<seq<string>>)
    ensures Sorted(Ranks, Filter(Accepts(look), Ranked(look, t, d, groups)))
  {
    var cs := FromGroups(look, t, d, groups, 0);
    RanksIsWeakOrder();
    SortSorted(Ranks, cs);
    FilterSorted(Ranks, Accepts(look), Sort(Ranks, cs));
  }

  /** The candidates that could be delivered, in order. */
  lemma DeliverableOrder(look: Lookup, d: int, groups: seq<seq<string>>, t: Tracked, ds: seq<Candidate>)
    requires ds == Deliverable(look, d, Ranked(look, t, d, groups), t)
    ensures Sorted(Ranks, ds) && forall x :: x in ds ==> Suggestible(look, t, d, groups, x)
    ensures forall j, k :: 0 <= j < k < |ds| ==> GoesFirst(ds[j], ds[k]) && Result(t, d, ds[j]) != Result(t, d, ds[k])
  {
    var xs := Filter(Accepts(look), Ranked(look, t, d, groups));
    AcceptedSorted(look, t, d, groups);
    DedupeSorted(Ranks, KeyOf(t, d), t.added, xs);
    DedupeDistinct(KeyOf(t, d), t.added, xs);
    forall x | x in ds ensures Suggestible(look, t, d, groups, x) {
      AcceptedIs(look, t, d, groups, x);
      KeyIsResult(t, d, x);
    }
    forall j, k | 0 <= j < k < |ds|
      ensures GoesFirst(ds[j], ds[k]) && Result(t, d, ds[j]) != Result(t, d, ds[k])
    {
      GoesFirstMeans(ds[j], ds[k]);
      KeyIsResult(t, d, ds[j]);
      KeyIsResult(t, d, ds[k]);
    }
  }

  lemma DeliverableStands(look: Lookup, d: int, groups: seq<seq<string>>, t: Tracked, c: Candidate)
      returns (y: Candidate)
    requires Suggestible(look, t, d, groups, c)
    ensures y in Deliverable(look, d, Ranked(look, t, d, groups), t)
    ensures Result(t, d, y) == Result(t, d, c) && !Ranks(c, y)
  {
    var xs := Filter(Accepts(look), Ranked(look, t, d, groups));
    AcceptedSorted(look, t, d, groups);
    AcceptedIs(look, t, d, groups, c);
    KeyIsResult(t, d, c);
    RanksTransitive(c, c, c);
    DedupeCovers(Ranks, KeyOf(t, d), t.added, xs, c);
    y :| y in DedupeBy(KeyOf(t, d), t.added, xs) && KeyOf(t, d)(y) == KeyOf(t, d)(c) && !Ranks(c, y);
    KeyIsResult(t, d, y);
  }

  lemma CutOff(t: Tracked, d: int, ds: seq<Candidate>, room: nat, c: Candidate, y: Candidate)
    requires Sorted(Ranks, ds) && y in ds && Result(t, d, y) == Result(t, d, c) && !Ranks(c, y)
    ensures Stands(t, d, Take(ds, room), c)
        || (|Take(ds, room)| == room && forall x :: x in Take(ds, room) ==> GoesFirst(x, c))
  {
    var out := Take(ds, room);
    var m :| 0 <= m < |ds| && ds[m] == y;
    GoesFirstMeans(y, c);
    if m < |out| {
      assert out[m] == y && y in out;
    } else {
      forall x | x in out ensures GoesFirst(x, c) {
        var k :| 0 <= k < |out| && out[k] == x;
        assert !Ranks(ds[m], ds[k]);
        RanksTransitive(c, y, x);
        GoesFirstMeans(x, c);
      }
    }
  }

  /** A patient editor is given exactly that, for any sources, limit and session. */
  lemma SuggestsBest(look: Lookup, e: Editor, limit: nat, d: int, groups: seq<seq<string>>, t: Tracked)
    requires Patient(e) && Counted(t) && limit <= SIZE_MAX
    ensures Suggests(look, limit, d, groups, t, Offer(look, e, limit, d, Ranked(look, t, d, groups), 0, t).0)
  {
    var cs := Ranked(look, t, d, groups);
    var ds, room := Deliverable(look, d, cs, t), Room(limit, t);
    OfferIsTake(look, e, limit, d, cs, 0, t);
    assert cs[0..] == cs;
    TakenSuggest(look, limit, d, groups, t, ds, room);
  }

  lemma TakenSuggest(look: Lookup, limit: nat, d: int, groups: seq<seq<string>>, t: Tracked, ds: seq<Candidate>,
      room: nat)
    requires ds == Deliverable(look, d, Ranked(look, t, d, groups), t) && room == Room(limit, t)
    ensures Suggests(look, limit, d, groups, t, Take(ds, room))
  {
    DeliverableOrder(look, d, groups, t, ds);
    var out := Take(ds, room);
    forall x | x in out ensures Suggestible(look, t, d, groups, x) { assert x in ds; }
    forall c | Suggestible(look, t, d, groups, c)
      ensures Stands(t, d, out, c)
          || (t.total + |out| >= (if limit == 0 then 1 else limit) && forall x :: x in out ==> GoesFirst(x, c))
    {
      var y := DeliverableStands(look, d, groups, t, c);
      CutOff(t, d, ds, room, c, y);
    }
  }

  /** What the session records: every line that was suggested, and how many. */
  function Recorded(t: Tracked, d: int, out: seq<Candidate>): Tracked {
    if out == [] then t
    else
      var before := Recorded(t, d, out[..|out| - 1]);
      before.(added := before.added + {Result(t, d, out[|out| - 1])}, total := before.total + 1)
  }

  lemma {:induction false} RecordedCons(t: Tracked, d: int, c: Candidate, rest: seq<Candidate>, t': Tracked)
    requires t' == t.(added := t.added + {Result(t, d, c)}, total := t.total + 1)
    ensures Recorded(t, d, [c] + rest) == Recorded(t', d, rest)
    decreases |rest|
  {
    var all, n := [c] + rest, |rest|;
    if n == 0 {
      assert all[..0] == [];
    } else {
      RecordedCons(t, d, c, rest[..n - 1], t');
      assert all[..n] == [c] + rest[..n - 1];
    }
  }

  /** Whatever the editor answers, the session has recorded exactly what it was given. */
  lemma {:induction false} SessionRecords(look: Lookup, e: Editor, limit: nat, d: int, cs: seq<Candidate>, i: nat,
      t: Tracked)
    requires i <= |cs|
    ensures var offer := Offer(look, e, limit, d, cs, i, t); offer.1 == Recorded(t, d, offer.0)
    decreases |cs| - i
  {
    if i < |cs| && !Full(t, limit) && !e.stops(i) {
      var text := TextOf(cs[i].name);
      if !Accepts(look)(cs[i]) || !Takes(t, limit, text, d) {
        SessionRecords(look, e, limit, d, cs, i + 1, t);
      } else {
        var t' := Add(t, limit, text, d);
        SpaceIgnored(t.prefix, cs[i].name, d);
        if e.more(i) {
          var rest := Offer(look, e, limit, d, cs, i + 1, t');
          SessionRecords(look, e, limit, d, cs, i + 1, t');
          RecordedCons(t, d, cs[i], rest.0, t');
        } else {
          RecordedCons(t, d, cs[i], [], t');
          NoneBefore([cs[i]]);
        }
      }
    }
  }

  /** Names that may go before each other are one name. */
  lemma OrderDecides(a: Candidate, b: Candidate)
    requires GoesFirst(a, b) && GoesFirst(b, a) && a.sortKey == b.sortKey
    ensures a.name == b.name && a.preferred == b.preferred
  {
    LessIsTotal();
  }
}

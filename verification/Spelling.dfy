/** Spelling corrections: recognising two swapped characters, collecting the matches of the
    candidates, and ordering them. */
module Spelling {
  import opened Text
  import opened Sequences
  import opened Lexicographic
  import opened Optional
  import opened EditDistance

  // ---------------------------------------------------------------- swapped characters

  /** `b` is `a` with the two different characters at `i` and `i + 1` exchanged. */
  predicate SwappedAt(a: string, b: string, i: nat) {
    i + 1 < |a| && a[i] != a[i + 1] && b == a[..i] + [a[i + 1], a[i]] + a[i + 2..]
  }

  ghost predicate Swapped(a: string, b: string) {
    exists i :: SwappedAt(a, b, i)
  }

  /** The same, character by character. */
  lemma SwappedAtMeans(a: string, b: string, i: nat)
    ensures SwappedAt(a, b, i) <==>
      && |a| == |b| && i + 1 < |a| && a[i] != b[i] && a[i] == b[i + 1] && a[i + 1] == b[i]
      && forall k :: 0 <= k < |a| && k != i && k != i + 1 ==> a[k] == b[k]
  {
    if i + 1 < |a| && |a| == |b| && a[i] == b[i + 1] && a[i + 1] == b[i]
        && (forall k :: 0 <= k < |a| && k != i && k != i + 1 ==> a[k] == b[k]) {
      assert b == a[..i] + [a[i + 1], a[i]] + a[i + 2..];
    }
  }

  /** Two strings that differ first at `i` are swapped there or not at all. */
  lemma SwappedOnlyAtFirst(a: string, b: string, i: nat)
    requires |a| == |b| && i < |a| && a[i] != b[i] && forall k :: 0 <= k < i ==> a[k] == b[k]
    ensures Swapped(a, b) <==> SwappedAt(a, b, i)
  {
    if Swapped(a, b) {
      var j :| SwappedAt(a, b, j);
      SwappedAtMeans(a, b, j);
      assert j == i;
    }
  }

  /** Swapping back. */
  lemma SwappedSymmetric(a: string, b: string)
    ensures Swapped(a, b) <==> Swapped(b, a)
  {
    if Swapped(a, b) {
      var i :| SwappedAt(a, b, i);
      SwappedAtMeans(a, b, i);
      SwappedAtMeans(b, a, i);
    }
    if Swapped(b, a) {
      var i :| SwappedAt(b, a, i);
      SwappedAtMeans(b, a, i);
      SwappedAtMeans(a, b, i);
    }
  }

  ghost predicate SameBetween(a: string, b: string, from: nat, to: nat) {
    |a| == |b| && forall k :: from <= k < to && k < |a| ==> a[k] == b[k]
  }

  /** Without a difference, or with the next character equal after the first one, nothing was
      swapped. */
  lemma NothingSwapped(a: string, b: string, first: int, i: nat)
    requires |a| == |b| && i <= |a| && first < i
    requires if first == NPOS then SameBetween(a, b, 0, i) && i == |a|
             else
               && 0 <= first && a[first] != b[first] && SameBetween(a, b, 0, first)
               && SameBetween(a, b, first + 1, i) && (i > first + 1 || i == |a|)
    ensures !Swapped(a, b)
  {
    if first != NPOS {
      SwappedOnlyAtFirst(a, b, first);
      SwappedAtMeans(a, b, first);
    } else {
      forall j: nat ensures !SwappedAt(a, b, j) { SwappedAtMeans(a, b, j); }
    }
  }

  lemma LengthsDiffer(a: string, b: string)
    requires |a| != |b| || |a| < 2
    ensures !Swapped(a, b)
  {
    forall j: nat ensures !SwappedAt(a, b, j) { SwappedAtMeans(a, b, j); }
  }

  /** `is_adjacent_transposition`. */
  method IsAdjacentTransposition(a: string, b: string) returns (r: bool)
    ensures r == Swapped(a, b)
  {
    if |a| != |b| || |a| < 2 {
      LengthsDiffer(a, b);
      return false;
    }
    var firstDiff := NPOS;
    for i := 0 to |a|
      invariant NPOS <= firstDiff < i
      invariant firstDiff == NPOS ==> SameBetween(a, b, 0, i)
      invariant firstDiff != NPOS ==>
          a[firstDiff] != b[firstDiff] && SameBetween(a, b, 0, firstDiff) && SameBetween(a, b, firstDiff + 1, i)
    {
      if a[i] != b[i] {
        if firstDiff == NPOS {
          firstDiff := i;
        } else {
          SwappedOnlyAtFirst(a, b, firstDiff);
          SwappedAtMeans(a, b, firstDiff);
          if i == firstDiff + 1 && a[firstDiff] == b[i] && a[i] == b[firstDiff] {
            for k := i + 1 to |a|
              invariant SameBetween(a, b, i + 1, k)
            {
              if a[k] != b[k] { return false; }
            }
            return true;
          }
          return false;
        }
      }
    }
    NothingSwapped(a, b, firstDiff, |a|);
    return false;
  }

  // ---------------------------------------------------------------- one candidate

  datatype Match = Match(candidate: string, distance: int, transposition: bool, shared: nat)

  /** What the request takes from elsewhere: the comparison form of a name. */
  datatype Comparison = Comparison(normalize: string -> string)

  /** The request: the normalised prefix, and whether only transpositions count. */
  datatype Request = Request(prefix: string, transpositionsOnly: bool)

  /** The length of the common prefix. */
  function Shared(a: string, b: string): (r: nat)
    ensures r <= |a| && r <= |b|
  {
    if a != "" && b != "" && a[0] == b[0] then 1 + Shared(a[1..], b[1..]) else 0
  }

  function MaxDistance(a: string, b: string): int {
    if |a| >= 6 || |b| >= 6 then 3 else 2
  }

  /** The match a candidate stands for, whatever source it comes from. */
  ghost function Judge(cmp: Comparison, q: Request, candidate: string): Option<Match> {
    var n := cmp.normalize(candidate);
    var transposed := Swapped(n, q.prefix);
    var distance := if transposed then 1 else Distance(n, q.prefix);
    if n == q.prefix || (q.transpositionsOnly && !transposed)
        || (!transposed && distance > MaxDistance(n, q.prefix)) then None
    else Some(Match(candidate, distance, transposed, Shared(n, q.prefix)))
  }

  /** A candidate is accepted when it stands for a match and its source's filter lets it
      through. */
  ghost predicate Accepted(cmp: Comparison, q: Request, filter: string -> bool, candidate: string) {
    Judge(cmp, q, candidate).Some? && filter(candidate)
  }

  // ---------------------------------------------------------------- the best-match map

  /** All entries were made for this request. */
  ghost predicate Consistent(cmp: Comparison, q: Request, matches: map<string, Match>) {
    forall c :: c in matches ==> Judge(cmp, q, c) == Some(matches[c])
  }

  lemma SharedNext(a: string, b: string, k: nat)
    requires k < |a| && k < |b|
    ensures Shared(a[k..], b[k..]) == if a[k] == b[k] then 1 + Shared(a[k + 1..], b[k + 1..]) else 0
  {
    assert a[k..][1..] == a[k + 1..] && b[k..][1..] == b[k + 1..];
  }

  method SharedPrefix(a: string, b: string) returns (n: nat)
    ensures n == Shared(a, b)
  {
    n := 0;
    var limit := if |a| < |b| then |a| else |b|;
    assert a[0..] == a && b[0..] == b;
    while n < limit && a[n] == b[n]
      invariant n <= limit && Shared(a, b) == n + Shared(a[n..], b[n..])
    {
      SharedNext(a, b, n);
      n := n + 1;
    }
    if n < limit { SharedNext(a, b, n); }
  }

  /** Whether a match replaces the one recorded before. */
  predicate Improves(m: Match, old_: Match) {
    m.distance < old_.distance ||
    (m.distance == old_.distance &&
      ((m.transposition && !old_.transposition) || (m.transposition == old_.transposition && m.shared > old_.shared)))
  }

  ghost function WithAccepted(cmp: Comparison, q: Request, filter: string -> bool, matches: map<string, Match>,
      c: string): map<string, Match> {
    if Accepted(cmp, q, filter, c) then matches[c := Judge(cmp, q, c).value] else matches
  }

  /** One pass of the loop. */
  method Consider(cmp: Comparison, q: Request, filter: string -> bool, matches: map<string, Match>,
      candidate: string) returns (matches': map<string, Match>)
    requires Consistent(cmp, q, matches)
    ensures matches' == WithAccepted(cmp, q, filter, matches, candidate)
  {
    matches' := matches;
    var n := cmp.normalize(candidate);
    if n == q.prefix { return; }
    var maxDistance := if (if |n| < |q.prefix| then |q.prefix| else |n|) >= 6 then 3 else 2;
    var transposed := IsAdjacentTransposition(n, q.prefix);
    if q.transpositionsOnly && !transposed { return; }
    var distance := 1;
    if !transposed { distance := DistanceWithLimit(n, q.prefix, maxDistance); }
    if !transposed && distance > maxDistance { return; }
    if !filter(candidate) { return; }
    var shared := SharedPrefix(n, q.prefix);
    var match_ := Match(candidate, distance, transposed, shared);
    if candidate !in matches || Improves(match_, matches[candidate]) {
      matches' := matches[candidate := match_];
    }
  }

  ghost predicate AcceptedIn(cmp: Comparison, q: Request, filter: string -> bool, names: seq<string>, c: string) {
    c in names && Accepted(cmp, q, filter, c)
  }

  /** `collect_spell_correction_candidates`: the map gains exactly the accepted candidates,
      each with the match it stands for. */
  method CollectCandidates(cmp: Comparison, q: Request, filter: string -> bool, names: seq<string>,
      matches: map<string, Match>)
    returns (matches': map<string, Match>)
    requires Consistent(cmp, q, matches)
    ensures Consistent(cmp, q, matches')
    ensures forall c :: c in matches' <==> c in matches || AcceptedIn(cmp, q, filter, names, c)
  {
    matches' := matches;
    for k := 0 to |names|
      invariant Consistent(cmp, q, matches')
      invariant forall c :: c in matches' <==> c in matches || AcceptedIn(cmp, q, filter, names[..k], c)
    {
      assert names[..k + 1] == names[..k] + [names[k]];
      matches' := Consider(cmp, q, filter, matches', names[k]);
    }
    assert names[..|names|] == names;
  }

  /** Names and the filter of their source. */
  datatype Source = Source(names: seq<string>, filter: string -> bool)

  ghost predicate AcceptedSomewhere(cmp: Comparison, q: Request, sources: seq<Source>, c: string) {
    exists k :: 0 <= k < |sources| && AcceptedIn(cmp, q, sources[k].filter, sources[k].names, c)
  }

  /** The map of a request: every candidate that some source accepts, and no other. */
  ghost predicate IsMatchMap(cmp: Comparison, q: Request, sources: seq<Source>, matches: map<string, Match>) {
    Consistent(cmp, q, matches) && forall c :: c in matches <==> AcceptedSomewhere(cmp, q, sources, c)
  }

  method CollectAll(cmp: Comparison, q: Request, sources: seq<Source>) returns (matches: map<string, Match>)
    ensures IsMatchMap(cmp, q, sources, matches)
  {
    matches := map[];
    for k := 0 to |sources|
      invariant IsMatchMap(cmp, q, sources[..k], matches)
    {
      ghost var before := matches;
      matches := CollectCandidates(cmp, q, sources[k].filter, sources[k].names, matches);
      forall c ensures c in matches <==> AcceptedSomewhere(cmp, q, sources[..k + 1], c) {
        OneMoreSource(cmp, q, sources, k, c);
      }
    }
    assert sources[..|sources|] == sources;
  }

  lemma OneMoreSource(cmp: Comparison, q: Request, sources: seq<Source>, k: nat, c: string)
    requires k < |sources|
    ensures AcceptedSomewhere(cmp, q, sources[..k + 1], c) <==>
      AcceptedSomewhere(cmp, q, sources[..k], c) || AcceptedIn(cmp, q, sources[k].filter, sources[k].names, c)
  {
    var more, fewer := sources[..k + 1], sources[..k];
    if AcceptedSomewhere(cmp, q, fewer, c) {
      var j :| 0 <= j < |fewer| && AcceptedIn(cmp, q, fewer[j].filter, fewer[j].names, c);
      assert more[j] == fewer[j];
    }
    if AcceptedIn(cmp, q, sources[k].filter, sources[k].names, c) { assert more[k] == sources[k]; }
    if AcceptedSomewhere(cmp, q, more, c) {
      var j :| 0 <= j < |more| && AcceptedIn(cmp, q, more[j].filter, more[j].names, c);
      if j < k { assert more[j] == fewer[j]; }
    }
  }

  /** The map depends on the set of accepted candidates alone: not on the order or number of
      the sources, nor on the order or repetition of the names in them. */
  lemma MatchMapUnique(cmp: Comparison, q: Request, sources: seq<Source>, others: seq<Source>,
      matches: map<string, Match>, matches': map<string, Match>)
    requires IsMatchMap(cmp, q, sources, matches) && IsMatchMap(cmp, q, others, matches')
    requires forall c :: AcceptedSomewhere(cmp, q, sources, c) <==> AcceptedSomewhere(cmp, q, others, c)
    ensures matches == matches'
  {
    forall c ensures c in matches <==> c in matches' {
      assert AcceptedSomewhere(cmp, q, sources, c) <==> AcceptedSomewhere(cmp, q, others, c);
    }
    forall c | c in matches ensures matches[c] == matches'[c] {
      assert Judge(cmp, q, c) == Some(matches[c]) && Judge(cmp, q, c) == Some(matches'[c]);
    }
  }

  // ---------------------------------------------------------------- the order

  predicate Closer(a: Match, b: Match) {
    if a.distance != b.distance then a.distance < b.distance
    else if a.transposition != b.transposition then a.transposition && !b.transposition
    else if a.shared != b.shared then a.shared > b.shared
    else Less(a.candidate, b.candidate)
  }

  lemma CloserIsWeakOrder()
    ensures StrictWeakOrder(Closer)
  {
    LessIsTotal();
  }

  predicate IsEntry(matches: map<string, Match>, m: Match) {
    m.candidate in matches && matches[m.candidate] == m
  }

  /** The entries whose candidates are not among `left`, each once. */
  ghost predicate ListsBut(matches: map<string, Match>, left: set<string>, ms: seq<Match>) {
    forall m :: multiset(ms)[m] == if IsEntry(matches, m) && m.candidate !in left then 1 else 0
  }

  /** The entries of a map, each once, in order. Any sort may be used to get there. */
  ghost predicate IsOrdering(matches: map<string, Match>, ms: seq<Match>) {
    Sorted(Closer, ms) && ListsBut(matches, {}, ms)
  }

  lemma ListsOneMore(cmp: Comparison, q: Request, matches: map<string, Match>, left: set<string>, ms: seq<Match>,
      c: string)
    requires Consistent(cmp, q, matches) && ListsBut(matches, left, ms) && c in left && c in matches
    ensures ListsBut(matches, left - {c}, ms + [matches[c]])
  {
    assert Judge(cmp, q, c) == Some(matches[c]);
    assert matches[c].candidate == c;
  }

  /** The entries of a map, as an iteration over it may yield them. */
  method ListMatches(cmp: Comparison, q: Request, matches: map<string, Match>) returns (ms: seq<Match>)
    requires Consistent(cmp, q, matches)
    ensures ListsBut(matches, {}, ms)
  {
    ms := [];
    var left := matches.Keys;
    while left != {}
      invariant left <= matches.Keys && ListsBut(matches, left, ms)
      decreases left
    {
      var c :| c in left;
      ListsOneMore(cmp, q, matches, left, ms, c);
      ms := ms + [matches[c]];
      left := left - {c};
    }
  }

  /** `order_spell_correction_matches`. */
  method OrderMatches(cmp: Comparison, q: Request, matches: map<string, Match>) returns (ms: seq<Match>)
    requires Consistent(cmp, q, matches)
    ensures IsOrdering(matches, ms)
  {
    ms := ListMatches(cmp, q, matches);
    CloserIsWeakOrder();
    SortSorted(Closer, ms);
    ms := Sort(Closer, ms);
  }

  lemma HeadIsLeast(xs: seq<Match>, m: Match)
    requires Sorted(Closer, xs) && m in multiset(xs)
    ensures xs != [] && !Closer(m, xs[0])
  {
    LessIsTotal();
    var k :| 0 <= k < |xs| && xs[k] == m;
    if k > 0 { assert !Closer(xs[k], xs[0]); }
  }

  lemma CloserTotal(a: Match, b: Match)
    requires !Closer(a, b) && !Closer(b, a)
    ensures a == b
  {
    LessIsTotal();
  }

  lemma TailMembers(xs: seq<Match>)
    requires xs != []
    ensures multiset(xs) == multiset{xs[0]} + multiset(xs[1..])
  {
    Uncons(xs);
  }

  lemma Cancel(m: Match, a: multiset<Match>, b: multiset<Match>)
    requires multiset{m} + a == multiset{m} + b
    ensures a == b
  {
    forall x ensures a[x] == b[x] { assert (multiset{m} + a)[x] == (multiset{m} + b)[x]; }
  }

  lemma HeadMember(xs: seq<Match>)
    requires xs != []
    ensures xs[0] in multiset(xs)
  {
  }

  lemma {:induction false} SortedUnique(xs: seq<Match>, ys: seq<Match>)
    requires Sorted(Closer, xs) && Sorted(Closer, ys) && multiset(xs) == multiset(ys)
    ensures xs == ys
  {
    assert |xs| == |multiset(xs)| && |ys| == |multiset(ys)|;
    if xs != [] {
      HeadMember(xs);
      HeadMember(ys);
      HeadIsLeast(ys, xs[0]);
      HeadIsLeast(xs, ys[0]);
      CloserTotal(xs[0], ys[0]);
      TailMembers(xs);
      TailMembers(ys);
      Cancel(xs[0], multiset(xs[1..]), multiset(ys[1..]));
      SortedUnique(xs[1..], ys[1..]);
      Uncons(xs);
      Uncons(ys);
    }
  }

  /** The ordered list is determined by the map, so by the set of accepted candidates. */
  lemma OrderingUnique(matches: map<string, Match>, xs: seq<Match>, ys: seq<Match>)
    requires IsOrdering(matches, xs) && IsOrdering(matches, ys)
    ensures xs == ys
  {
    assert multiset(xs) == multiset(ys) by {
      forall m ensures multiset(xs)[m] == multiset(ys)[m] { }
    }
    SortedUnique(xs, ys);
  }
}

/** The spelling corrections of a request, said of the names themselves: which names are
    corrections, how far away they are, and in which order they come. */
module Corrections {
  import opened Lexicographic
  import opened Optional
  import opened EditDistance
  import opened Spelling

  /** What is typed and the name agree up to here and no further. */
  predicate AgreeUpTo(name: string, typed: string, n: nat) {
    n <= |name| && n <= |typed| && name[..n] == typed[..n]
    && (n == |name| || n == |typed| || name[n] != typed[n])
  }

  /** The name is what was typed with two neighbours swapped, which counts as one mistake; or it is
      within two edits of it, three if either has six characters or more. */
  ghost predicate Mistyped(q: Request, name: string, m: Match) {
    && name != q.prefix
    && (m.transposition <==> Swapped(name, q.prefix))
    && (if m.transposition then m.distance == 1
        else
          && !q.transpositionsOnly && m.distance == Distance(name, q.prefix)
          && m.distance <= if |name| >= 6 || |q.prefix| >= 6 then 3 else 2)
  }

  /** Some source has the name and lets it through, and it is a correction like this. */
  ghost predicate Corrects(cmp: Comparison, q: Request, sources: seq<Source>, m: Match) {
    && (exists k :: 0 <= k < |sources| && m.candidate in sources[k].names && sources[k].filter(m.candidate))
    && Mistyped(q, cmp.normalize(m.candidate), m)
    && AgreeUpTo(cmp.normalize(m.candidate), q.prefix, m.shared)
  }

  /** Fewer mistakes first, then swapped neighbours, then the longer beginning in common, and then
      by name. */
  predicate ComesFirst(a: Match, b: Match) {
    || a.distance < b.distance
    || (a.distance == b.distance && a.transposition && !b.transposition)
    || (a.distance == b.distance && a.transposition == b.transposition && a.shared > b.shared)
    || (a.distance == b.distance && a.transposition == b.transposition && a.shared == b.shared
        && Less(a.candidate, b.candidate))
  }

  lemma {:induction false} SharedAgrees(a: string, b: string)
    ensures AgreeUpTo(a, b, Shared(a, b))
  {
    if a != "" && b != "" && a[0] == b[0] {
      var n := Shared(a[1..], b[1..]);
      SharedAgrees(a[1..], b[1..]);
      assert a[..n + 1] == [a[0]] + a[1..][..n] == b[..n + 1];
    }
  }

  lemma AgreeOnce(a: string, b: string, n: nat, m: nat)
    requires AgreeUpTo(a, b, n) && AgreeUpTo(a, b, m)
    ensures n == m
  {
    forall k | 0 <= k < n ensures a[k] == b[k] { assert a[..n][k] == b[..n][k]; }
    forall k | 0 <= k < m ensures a[k] == b[k] { assert a[..m][k] == b[..m][k]; }
  }

  lemma JudgedMeans(cmp: Comparison, q: Request, c: string, m: Match)
    ensures Judge(cmp, q, c) == Some(m)
      <==> m.candidate == c && Mistyped(q, cmp.normalize(c), m) && AgreeUpTo(cmp.normalize(c), q.prefix, m.shared)
  {
    var name := cmp.normalize(c);
    SharedAgrees(name, q.prefix);
    if AgreeUpTo(name, q.prefix, m.shared) { AgreeOnce(name, q.prefix, m.shared, Shared(name, q.prefix)); }
  }

  lemma EntryCorrects(cmp: Comparison, q: Request, sources: seq<Source>, matches: map<string, Match>, m: Match)
    requires IsMatchMap(cmp, q, sources, matches)
    ensures IsEntry(matches, m) <==> Corrects(cmp, q, sources, m)
  {
    JudgedMeans(cmp, q, m.candidate, m);
    if IsEntry(matches, m) {
      assert AcceptedSomewhere(cmp, q, sources, m.candidate);
      var k :| 0 <= k < |sources| && AcceptedIn(cmp, q, sources[k].filter, sources[k].names, m.candidate);
    }
    if Corrects(cmp, q, sources, m) {
      var k :| 0 <= k < |sources| && m.candidate in sources[k].names && sources[k].filter(m.candidate);
      assert AcceptedIn(cmp, q, sources[k].filter, sources[k].names, m.candidate);
    }
  }

  lemma NotCloser(a: Match, b: Match)
    ensures Closer(a, b) || ComesFirst(b, a) || a == b
  {
    LessIsTotal();
  }

  lemma CountedTwice(ms: seq<Match>, j: nat, k: nat)
    requires j < k < |ms| && ms[j] == ms[k]
    ensures multiset(ms)[ms[j]] >= 2
  {
    var front, back := ms[..k], ms[k..];
    assert ms == front + back && front[j] == ms[j] && back[0] == ms[k];
    assert multiset(ms) == multiset(front) + multiset(back);
    assert ms[j] in multiset(front) && ms[k] in multiset(back);
  }

  lemma ListedOnce(matches: map<string, Match>, ms: seq<Match>, j: nat, k: nat)
    requires IsOrdering(matches, ms) && j < k < |ms|
    ensures ms[j] != ms[k]
  {
    var m := ms[j];
    assert multiset(ms)[m] <= 1;
    if m == ms[k] { CountedTwice(ms, j, k); }
  }

  lemma ListedIsEntry(matches: map<string, Match>, ms: seq<Match>, m: Match)
    requires IsOrdering(matches, ms)
    ensures m in ms <==> IsEntry(matches, m)
  {
    assert m in ms <==> m in multiset(ms);
  }

  /** The ordered list holds exactly the corrections, one for each name, in that order. */
  lemma CorrectionsListed(cmp: Comparison, q: Request, sources: seq<Source>, matches: map<string, Match>,
      ms: seq<Match>)
    requires IsMatchMap(cmp, q, sources, matches) && IsOrdering(matches, ms)
    ensures forall m :: m in ms <==> Corrects(cmp, q, sources, m)
    ensures forall j, k :: 0 <= j < k < |ms| ==> ComesFirst(ms[j], ms[k]) && ms[j].candidate != ms[k].candidate
  {
    forall m ensures m in ms <==> Corrects(cmp, q, sources, m) {
      ListedIsEntry(matches, ms, m);
      EntryCorrects(cmp, q, sources, matches, m);
    }
    forall j, k | 0 <= j < k < |ms| ensures ComesFirst(ms[j], ms[k]) && ms[j].candidate != ms[k].candidate {
      ListedOnce(matches, ms, j, k);
      ListedIsEntry(matches, ms, ms[j]);
      ListedIsEntry(matches, ms, ms[k]);
      assert ms[j] in ms && ms[k] in ms;
      NotCloser(ms[k], ms[j]);
    }
  }
}

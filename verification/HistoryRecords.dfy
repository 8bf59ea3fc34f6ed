/** History records, their ranking, and the query over them: the parts that the cached and
    the streaming implementation share. */
module HistoryRecords {
  import opened Text
  import opened Sequences
  import opened Deduplication

  datatype Match = Match(command: string, hasExitCode: bool, exitCode: int, timestamp: int, frequency: int)

  datatype Record = Record(entry: Match, directory: string)

  const HIDDEN_EXIT_CODE := 127
  const UNRANKED_LIMIT: nat := 50

  /** What the query takes from the rest of the shell: decoding of a stored line (a line that
      does not decode stands for itself), the metadata fields of a header line, the completion
      prefix test, the directory scope and the path heuristic. */
  datatype Shell = Shell(
    decode: string -> string,
    metadata: string -> Record,
    matchesPrefix: (string, string) -> bool,
    inDirectory: string -> bool,
    looksLikePath: string -> bool)

  datatype Query = Query(prefix: string, ranked: bool, includeFiles: bool, directoryAware: bool, maxResults: nat)

  /** `parse_history_record`: the fields of the header with the command's text. */
  function ParseRecord(sh: Shell, text: string, header: string): Record {
    var r := sh.metadata(header);
    r.(entry := r.entry.(command := text))
  }

  /** The records of the lines of a history file, oldest first; a header line belongs to the
      next command line only. */
  function Records(sh: Shell, lines: seq<string>, header: string): seq<Record>
    decreases |lines|
  {
    if lines == [] then []
    else if lines[0] == "" then Records(sh, lines[1..], header)
    else if lines[0][0] == '#' then Records(sh, lines[1..], lines[0])
    else [ParseRecord(sh, sh.decode(lines[0]), header)] + Records(sh, lines[1..], "")
  }

  /** Whether a record may be suggested for a query. */
  predicate Eligible(sh: Shell, q: Query, r: Record) {
    && r.entry.command != q.prefix
    && (q.prefix == "" || sh.matchesPrefix(r.entry.command, q.prefix))
    && !(q.directoryAware && !sh.inDirectory(r.directory))
    && !(r.entry.hasExitCode && r.entry.exitCode == HIDDEN_EXIT_CODE)
    && !(!q.ranked && !q.includeFiles && sh.looksLikePath(r.entry.command))
    && TrimRight(r.entry.command) != ""
  }

  function Keeps(sh: Shell, q: Query): Record -> bool {
    (r: Record) => Eligible(sh, q, r)
  }

  function MatchOf(r: Record): Match {
    r.entry
  }

  /** The comparison of the usage ranking. */
  predicate Better(a: Match, b: Match) {
    if a.timestamp != b.timestamp then a.timestamp > b.timestamp else a.frequency > b.frequency
  }

  predicate BetterRecord(a: Record, b: Record) {
    Better(a.entry, b.entry)
  }

  lemma BetterIsWeakOrder()
    ensures StrictWeakOrder(Better) && StrictWeakOrder(BetterRecord)
  {
  }

  /** The right-trimmed command. */
  function KeyOf(m: Match): string {
    TrimRight(m.command)
  }

  function Dedupe(ms: seq<Match>): seq<Match> {
    DedupeBy(KeyOf, {}, ms)
  }

  /** Every eligible match, in file order. */
  function Candidates(sh: Shell, q: Query, records: seq<Record>): seq<Match> {
    Map(MatchOf, Filter(Keeps(sh, q), records))
  }

  /** The full ranked answer: newest first, stable sort, first of each command. */
  function Ranked(ms: seq<Match>): seq<Match> {
    Dedupe(Sort(Better, Reverse(ms)))
  }

  /** The unranked answer: the first fifty. */
  function Unranked(ms: seq<Match>): seq<Match> {
    Take(ms, UNRANKED_LIMIT)
  }

  /** Ranking the whole file and filtering afterwards gives the ranking of the candidates. */
  lemma RankThenFilter(sh: Shell, q: Query, records: seq<Record>)
    ensures Map(MatchOf, Filter(Keeps(sh, q), Sort(BetterRecord, Reverse(records))))
         == Sort(Better, Reverse(Candidates(sh, q, records)))
  {
    BetterIsWeakOrder();
    var keep := Keeps(sh, q);
    SortFilter(BetterRecord, keep, Reverse(records));
    FilterReverse(keep, records);
    var kept := Filter(keep, records);
    SortMap(BetterRecord, Better, MatchOf, Reverse(kept));
    MapReverse(MatchOf, kept);
  }

  // ---------------------------------------------------------------- what the ranked answer is

  /** Candidate `i` goes before candidate `j`: better, or equally good and later in the file. */
  predicate Before(ms: seq<Match>, i: nat, j: nat)
    requires i < |ms| && j < |ms|
  {
    Better(ms[i], ms[j]) || (!Better(ms[j], ms[i]) && i > j)
  }

  function Positions(n: nat): (r: seq<nat>)
    ensures |r| == n && forall k :: 0 <= k < n ==> r[k] == n - 1 - k
  {
    seq(n, k requires 0 <= k < n => n - 1 - k)
  }

  function At(ms: seq<Match>): nat -> Match {
    (i: nat) => if i < |ms| then ms[i] else Match("", false, 0, 0, 0)
  }

  function BetterAt(ms: seq<Match>): (nat, nat) -> bool {
    (i: nat, j: nat) => Better(At(ms)(i), At(ms)(j))
  }

  /** The positions of the candidates in ranked order. */
  function Order(ms: seq<Match>): (r: seq<nat>)
    ensures |r| == |ms|
  {
    Sort(BetterAt(ms), Positions(|ms|))
  }

  lemma {:induction false} PositionAt(ms: seq<Match>, k: nat)
    requires k < |ms|
    ensures At(ms)(Positions(|ms|)[k]) == Reverse(ms)[k]
  {
    ReverseAt(ms, k);
    assert Positions(|ms|)[k] == |ms| - 1 - k;
  }

  lemma ReverseByPosition(ms: seq<Match>)
    ensures Map(At(ms), Positions(|ms|)) == Reverse(ms)
  {
    var a := Map(At(ms), Positions(|ms|));
    forall k | 0 <= k < |ms| ensures a[k] == Reverse(ms)[k] {
      PositionAt(ms, k);
    }
  }

  lemma BetterAtIs(ms: seq<Match>, i: nat, j: nat)
    requires i < |ms| && j < |ms|
    ensures BetterAt(ms)(i, j) == Better(ms[i], ms[j])
  {
    assert At(ms)(i) == ms[i] && At(ms)(j) == ms[j];
  }

  lemma OrderRanks(ms: seq<Match>)
    ensures Map(At(ms), Order(ms)) == Sort(Better, Reverse(ms))
  {
    ReverseByPosition(ms);
    SortMap(BetterAt(ms), Better, At(ms), Positions(|ms|));
  }

  ghost predicate InOrder(ms: seq<Match>, ps: seq<nat>) {
    && (forall k :: 0 <= k < |ps| ==> ps[k] < |ms|)
    && (forall k, l :: 0 <= k < l < |ps| ==> Before(ms, ps[k], ps[l]))
  }

  lemma BeforeTransitive(ms: seq<Match>, i: nat, j: nat, k: nat)
    requires i < |ms| && j < |ms| && k < |ms| && Before(ms, i, j) && Before(ms, j, k)
    ensures Before(ms, i, k)
  {
  }

  lemma ConsInOrder(ms: seq<Match>, x: nat, ps: seq<nat>)
    requires x < |ms| && InOrder(ms, ps) && forall k :: 0 <= k < |ps| ==> Before(ms, x, ps[k])
    ensures InOrder(ms, [x] + ps)
  {
  }

  lemma {:induction false} InsertInOrder(ms: seq<Match>, x: nat, ps: seq<nat>)
    requires x < |ms| && InOrder(ms, ps) && forall k :: 0 <= k < |ps| ==> ps[k] < x
    ensures InOrder(ms, Insert(BetterAt(ms), x, ps))
  {
    if ps == [] || !BetterAt(ms)(ps[0], x) {
      forall k | 0 <= k < |ps| ensures Before(ms, x, ps[k]) {
        BetterAtIs(ms, ps[0], x);
        assert Before(ms, x, ps[0]);
        if k > 0 { BeforeTransitive(ms, x, ps[0], ps[k]); }
      }
      ConsInOrder(ms, x, ps);
    } else {
      var rest := ps[1..];
      assert InOrder(ms, rest);
      InsertInOrder(ms, x, rest);
      InsertMembers(BetterAt(ms), x, rest);
      var r := Insert(BetterAt(ms), x, rest);
      BetterAtIs(ms, ps[0], x);
      assert Before(ms, ps[0], x);
      forall k | 0 <= k < |r| ensures Before(ms, ps[0], r[k]) {
        assert r[k] in multiset(r);
        if r[k] != x {
          assert r[k] in multiset(rest);
          var m :| 0 <= m < |rest| && rest[m] == r[k];
          assert Before(ms, ps[0], ps[m + 1]);
        }
      }
      ConsInOrder(ms, ps[0], r);
    }
  }

  lemma {:induction false} SortInOrder(ms: seq<Match>, ps: seq<nat>)
    requires forall k :: 0 <= k < |ps| ==> ps[k] < |ms|
    requires forall k, l :: 0 <= k < l < |ps| ==> ps[k] > ps[l]
    ensures InOrder(ms, Sort(BetterAt(ms), ps))
  {
    if ps != [] {
      SortInOrder(ms, ps[1..]);
      var rest := Sort(BetterAt(ms), ps[1..]);
      SortMembers(BetterAt(ms), ps[1..]);
      forall k | 0 <= k < |rest| ensures rest[k] < ps[0] {
        assert rest[k] in multiset(rest);
        assert rest[k] in multiset(ps[1..]);
      }
      InsertInOrder(ms, ps[0], rest);
    }
  }

  // ---------------------------------------------------------------- deduplication

  lemma {:induction false} DedupeMap<A, B>(keyA: A -> string, keyB: B -> string, f: A -> B, seen: set<string>,
      xs: seq<A>)
    requires forall k :: 0 <= k < |xs| ==> keyB(f(xs[k])) == keyA(xs[k])
    ensures DedupeBy(keyB, seen, Map(f, xs)) == Map(f, DedupeBy(keyA, seen, xs))
    decreases |xs|
  {
    if xs != [] {
      var key := keyA(xs[0]);
      var ys := Map(f, xs);
      MapTail(f, xs);
      assert ys[1..] == Map(f, xs[1..]) && ys[0] == f(xs[0]);
      if key in seen {
        DedupeMap(keyA, keyB, f, seen, xs[1..]);
      } else {
        DedupeMap(keyA, keyB, f, seen + {key}, xs[1..]);
        var rest := DedupeBy(keyA, seen + {key}, xs[1..]);
        MapTail(f, [xs[0]] + rest);
        assert ([xs[0]] + rest)[1..] == rest;
      }
    }
  }

  /** Element `m` of `xs` is represented by an equal-keyed element no later than it. */
  ghost predicate Represented<T>(key: T -> string, xs: seq<T>, chosen: seq<T>, m: nat)
    requires m < |xs|
  {
    exists k, p :: 0 <= k < |chosen| && 0 <= p <= m && chosen[k] == xs[p] && key(xs[p]) == key(xs[m])
  }

  lemma RepresentedLater<T>(key: T -> string, xs: seq<T>, chosen: seq<T>, all: seq<T>, m: nat)
    requires 0 < m < |xs| && Represented(key, xs[1..], chosen, m - 1)
    requires |chosen| <= |all| && all[|all| - |chosen|..] == chosen
    ensures Represented(key, xs, all, m)
  {
    var rest := xs[1..];
    var k, p :| 0 <= k < |chosen| && 0 <= p <= m - 1 && chosen[k] == rest[p] && key(rest[p]) == key(rest[m - 1]);
    assert all[|all| - |chosen| + k] == xs[p + 1] && key(xs[p + 1]) == key(xs[m]);
  }

  lemma {:induction false} DedupeRepresents<T>(key: T -> string, seen: set<string>, xs: seq<T>, m: nat)
    requires m < |xs| && key(xs[m]) !in seen
    ensures Represented(key, xs, DedupeBy(key, seen, xs), m)
    decreases |xs|
  {
    if key(xs[0]) in seen {
      DedupeRepresents(key, seen, xs[1..], m - 1);
      RepresentedLater(key, xs, DedupeBy(key, seen, xs[1..]), DedupeBy(key, seen, xs), m);
    } else {
      var rest := DedupeBy(key, seen + {key(xs[0])}, xs[1..]);
      var all := [xs[0]] + rest;
      if key(xs[m]) == key(xs[0]) {
        assert all[0] == xs[0];
      } else {
        DedupeRepresents(key, seen + {key(xs[0])}, xs[1..], m - 1);
        assert all[|all| - |rest|..] == rest;
        RepresentedLater(key, xs, rest, all, m);
      }
    }
  }

  lemma {:induction false} DedupeInOrder(ms: seq<Match>, key: nat -> string, seen: set<string>, ps: seq<nat>)
    requires InOrder(ms, ps)
    ensures InOrder(ms, DedupeBy(key, seen, ps))
    ensures forall k :: 0 <= k < |DedupeBy(key, seen, ps)| ==>
        exists m :: 0 <= m < |ps| && ps[m] == DedupeBy(key, seen, ps)[k]
    decreases |ps|
  {
    if ps != [] {
      var rest := DedupeBy(key, if key(ps[0]) in seen then seen else seen + {key(ps[0])}, ps[1..]);
      DedupeInOrder(ms, key, if key(ps[0]) in seen then seen else seen + {key(ps[0])}, ps[1..]);
      forall k | 0 <= k < |rest| ensures Before(ms, ps[0], rest[k]) && exists m :: 0 <= m < |ps| && ps[m] == rest[k] {
        var m :| 0 <= m < |ps[1..]| && ps[1..][m] == rest[k];
        assert ps[m + 1] == rest[k];
        assert Before(ms, ps[0], ps[m + 1]);
      }
      if key(ps[0]) !in seen { ConsInOrder(ms, ps[0], rest); }
    }
  }

  // ---------------------------------------------------------------- the canonical answer

  function KeyAt(ms: seq<Match>): nat -> string {
    (i: nat) => KeyOf(At(ms)(i))
  }

  /** The positions the ranked answer keeps. */
  function Chosen(ms: seq<Match>): seq<nat> {
    DedupeBy(KeyAt(ms), {}, Order(ms))
  }

  /** Position `m` has a chosen position of the same command that is `m` or goes before it. */
  ghost predicate Led(ms: seq<Match>, chosen: seq<nat>, m: nat)
    requires m < |ms| && InOrder(ms, chosen)
  {
    exists k :: 0 <= k < |chosen| && KeyOf(ms[chosen[k]]) == KeyOf(ms[m])
        && (chosen[k] == m || Before(ms, chosen[k], m))
  }

  /** A selection of candidate positions that is the canonical answer: best first, one per
      right-trimmed command, each the best of its command, none missing. */
  ghost predicate Canonical(ms: seq<Match>, chosen: seq<nat>) {
    && InOrder(ms, chosen)
    && (forall k, l :: 0 <= k < l < |chosen| ==> KeyOf(ms[chosen[k]]) != KeyOf(ms[chosen[l]]))
    && (forall m :: 0 <= m < |ms| ==> Led(ms, chosen, m))
  }

  lemma OrderLists(ms: seq<Match>, m: nat)
    requires m < |ms|
    ensures exists p :: 0 <= p < |ms| && Order(ms)[p] == m
  {
    var ps := Order(ms);
    SortMembers(BetterAt(ms), Positions(|ms|));
    assert Positions(|ms|)[|ms| - 1 - m] == m;
    assert m in multiset(Positions(|ms|));
    assert m in multiset(ps);
  }

  lemma ChosenLeads(ms: seq<Match>, m: nat)
    requires m < |ms| && InOrder(ms, Order(ms)) && InOrder(ms, Chosen(ms))
    ensures Led(ms, Chosen(ms), m)
  {
    var ps, chosen := Order(ms), Chosen(ms);
    OrderLists(ms, m);
    var p :| 0 <= p < |ps| && ps[p] == m;
    DedupeRepresents(KeyAt(ms), {}, ps, p);
    var k, r :| 0 <= k < |chosen| && 0 <= r <= p && chosen[k] == ps[r] && KeyAt(ms)(ps[r]) == KeyAt(ms)(ps[p]);
    assert r == p || Before(ms, ps[r], ps[p]);
    assert At(ms)(ps[r]) == ms[ps[r]] && At(ms)(m) == ms[m];
    assert KeyOf(ms[chosen[k]]) == KeyOf(ms[m]);
  }

  /** The ranked answer is the canonical selection, for every list of candidates. */
  lemma RankedIsCanonical(ms: seq<Match>)
    ensures Canonical(ms, Chosen(ms))
    ensures Ranked(ms) == Map(At(ms), Chosen(ms))
  {
    SortInOrder(ms, Positions(|ms|));
    DedupeInOrder(ms, KeyAt(ms), {}, Order(ms));
    DedupeDistinct(KeyAt(ms), {}, Order(ms));
    OrderRanks(ms);
    DedupeMap(KeyAt(ms), KeyOf, At(ms), {}, Order(ms));
    var chosen := Chosen(ms);
    forall k, l | 0 <= k < l < |chosen| ensures KeyOf(ms[chosen[k]]) != KeyOf(ms[chosen[l]]) {
      assert KeyAt(ms)(chosen[k]) != KeyAt(ms)(chosen[l]);
    }
    forall m | 0 <= m < |ms| ensures Led(ms, chosen, m) { ChosenLeads(ms, m); }
  }

  /** There is only one canonical selection. */
  lemma CanonicalIsUnique(ms: seq<Match>, a: seq<nat>, b: seq<nat>)
    requires Canonical(ms, a) && Canonical(ms, b)
    ensures a == b
  {
    forall k | 0 <= k < |a| ensures a[k] in b { CanonicalMember(ms, a, b, k); }
    forall k | 0 <= k < |b| ensures b[k] in a { CanonicalMember(ms, b, a, k); }
    SameOrder(ms, a, b);
  }

  lemma CanonicalMember(ms: seq<Match>, a: seq<nat>, b: seq<nat>, k: nat)
    requires Canonical(ms, a) && Canonical(ms, b) && k < |a|
    ensures a[k] in b
  {
    assert Led(ms, b, a[k]);
    var l :| 0 <= l < |b| && KeyOf(ms[b[l]]) == KeyOf(ms[a[k]]) && (b[l] == a[k] || Before(ms, b[l], a[k]));
    assert Led(ms, a, b[l]);
    var j :| 0 <= j < |a| && KeyOf(ms[a[j]]) == KeyOf(ms[b[l]]) && (a[j] == b[l] || Before(ms, a[j], b[l]));
    assert j == k;
  }

  lemma {:induction false} SameOrder(ms: seq<Match>, a: seq<nat>, b: seq<nat>)
    requires InOrder(ms, a) && InOrder(ms, b)
    requires forall k :: 0 <= k < |a| ==> a[k] in b
    requires forall k :: 0 <= k < |b| ==> b[k] in a
    ensures a == b
    decreases |a|
  {
    if b != [] { assert b[0] in a; }
    if a != [] {
      assert a[0] in b;
      HeadFirst(ms, a, b);
      HeadFirst(ms, b, a);
      assert a[0] == b[0];
      forall k | 0 <= k < |a[1..]| ensures a[1..][k] in b[1..] { TailMember(ms, a, b, k + 1); }
      forall k | 0 <= k < |b[1..]| ensures b[1..][k] in a[1..] { TailMember(ms, b, a, k + 1); }
      SameOrder(ms, a[1..], b[1..]);
      Uncons(a);
      Uncons(b);
    }
  }

  lemma TailMember(ms: seq<Match>, a: seq<nat>, b: seq<nat>, k: nat)
    requires InOrder(ms, a) && a != [] && b != [] && a[0] == b[0] && 0 < k < |a| && a[k] in b
    ensures a[k] in b[1..]
  {
    assert Before(ms, a[0], a[k]);
    var m :| 0 <= m < |b| && b[m] == a[k];
    if m > 0 { assert b[1..][m - 1] == a[k]; }
  }

  lemma HeadFirst(ms: seq<Match>, a: seq<nat>, b: seq<nat>)
    requires InOrder(ms, a) && InOrder(ms, b) && a != [] && b != [] && a[0] in b
    ensures a[0] == b[0] || Before(ms, b[0], a[0])
  {
    var m :| 0 <= m < |b| && b[m] == a[0];
    if m > 0 { assert Before(ms, b[0], b[m]); }
  }
}

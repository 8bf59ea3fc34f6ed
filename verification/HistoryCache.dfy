/** The static history cache, and its coherence over runs in which other processes write
    the history file. */
module HistoryCache {
  import opened Sequences
  import opened HistoryRecords
  import opened HistoryQuery

  const MAX_BYTES: nat := 8 * 1024 * 1024
  const MAX_RECORDS: nat := 10000

  // ---------------------------------------------------------------- file snapshots

  const NANO := 1_000_000_000

  /** The compared fields of `struct stat`; times are whole seconds and nanoseconds. */
  datatype Stat = Stat(dev: int, ino: int, size: int, mode: nat, mtime: int, mtimeNano: int, ctime: int, ctimeNano: int)

  /** `observedAt` is the clock before the `stat` call, in nanoseconds. */
  datatype Snapshot = Snapshot(error: int, info: Stat, observedAt: int)

  /** `operator==`. */
  predicate Same(a: Snapshot, b: Snapshot) {
    if a.error != 0 || b.error != 0 then a.error == b.error else a.info == b.info
  }

  /** `can_reuse_cached_data`: nothing compared has changed, and both timestamps were more than
      two seconds old when the data was read. */
  predicate CanReuse(stored: Snapshot, current: Snapshot) {
    && Same(stored, current)
    && (stored.error != 0 ||
        (stored.info.mtime * NANO < stored.observedAt - 2 * NANO
            && stored.info.ctime * NANO < stored.observedAt - 2 * NANO))
  }

  predicate IsRegular(mode: nat) {
    mode / 4096 % 16 == 8
  }

  // ---------------------------------------------------------------- one call

  /** What the environment shows to one call: the snapshot taken first, whether the file could
      be opened, the lines that were read before the end of file or an I/O error, and the
      snapshot taken after reading. */
  datatype Call = Call(path: string, snapshot: Snapshot, isOpen: bool, lines: seq<string>, bad: bool,
      after: Snapshot, ranked: bool)

  datatype Cache = Cache(path: string, snapshot: Snapshot, observed: bool, usable: bool, records: seq<Record>,
      rankedIndices: seq<nat>)

  const EMPTY := Cache("", Snapshot(0, Stat(0, 0, 0, 0, 0, 0, 0, 0), 0), false, false, [], [])

  predicate Reloads(cache: Cache, call: Call) {
    !cache.observed || cache.path != call.path || !CanReuse(cache.snapshot, call.snapshot)
  }

  /** The file is small enough to be cached: neither the bytes nor the records run over
      before its last line. */
  predicate Fits(lines: seq<string>, bytes: nat, count: nat)
    decreases |lines|
  {
    lines != [] ==>
      && bytes + |lines[0]| + 1 <= MAX_BYTES
      && count < MAX_RECORDS
      && var command := lines[0] != "" && lines[0][0] != '#';
      Fits(lines[1..], bytes + |lines[0]| + 1, if command then count + 1 else count)
  }

  predicate MayRead(snapshot: Snapshot) {
    snapshot.error == 0 && IsRegular(snapshot.info.mode) && 0 <= snapshot.info.size <= MAX_BYTES
  }

  function Loaded(sh: Shell, call: Call): Cache {
    var blank := Cache(call.path, call.snapshot, true, false, [], []);
    if !MayRead(call.snapshot) || !call.isOpen then blank
    else
      var usable := Fits(call.lines, 0, 0) && !call.bad;
      blank.(observed := Same(call.after, call.snapshot), usable := usable,
          records := if usable then Records(sh, call.lines, "") else [])
  }

  /** `cached_history_records`. */
  function Lookup(sh: Shell, cache: Cache, call: Call): Cache {
    var current := if Reloads(cache, call) then Loaded(sh, call) else cache;
    if current.usable && call.ranked && current.rankedIndices == []
    then current.(rankedIndices := RankedIndices(current.records))
    else current
  }

  function LookupAll(sh: Shell, cache: Cache, calls: seq<Call>): Cache
    decreases |calls|
  {
    if calls == [] then cache else Lookup(sh, LookupAll(sh, cache, calls[..|calls| - 1]), calls[|calls| - 1])
  }

  /** The ranking a cache holds is that of its records, or not computed yet. */
  predicate RankingKept(cache: Cache) {
    cache.rankedIndices == [] || cache.rankedIndices == RankedIndices(cache.records)
  }

  lemma LookupRanks(sh: Shell, cache: Cache, call: Call)
    requires RankingKept(cache)
    ensures RankingKept(Lookup(sh, cache, call))
    ensures Lookup(sh, cache, call).usable && call.ranked ==>
      Lookup(sh, cache, call).rankedIndices == RankedIndices(Lookup(sh, cache, call).records)
  {
    var current := if Reloads(cache, call) then Loaded(sh, call) else cache;
    if current.rankedIndices == [] { IndicesRank(current.records); }
  }

  // ---------------------------------------------------------------- the loading loop

  lemma {:induction false} FitsNext(lines: seq<string>, k: nat, bytes: nat, count: nat)
    requires k < |lines|
    ensures Fits(lines[k..], bytes, count) <==>
      (bytes + |lines[k]| + 1 <= MAX_BYTES && count < MAX_RECORDS &&
       Fits(lines[k + 1..], bytes + |lines[k]| + 1, if lines[k] != "" && lines[k][0] != '#' then count + 1 else count))
  {
    assert lines[k..][1..] == lines[k + 1..] && lines[k..][0] == lines[k];
  }

  lemma {:induction false} RecordsAppend(sh: Shell, lines: seq<string>, k: nat, header: string)
    requires k < |lines|
    ensures Records(sh, lines[k..], header) ==
      if lines[k] == "" then Records(sh, lines[k + 1..], header)
      else if lines[k][0] == '#' then Records(sh, lines[k + 1..], lines[k])
      else [ParseRecord(sh, sh.decode(lines[k]), header)] + Records(sh, lines[k + 1..], "")
  {
    assert lines[k..][1..] == lines[k + 1..] && lines[k..][0] == lines[k];
  }

  class HistoryCache {
    var path: string
    var snapshot: Snapshot
    var observed: bool
    var usable: bool
    var records: seq<Record>
    var rankedIndices: seq<nat>

    function State(): Cache
      reads this
    {
      Cache(path, snapshot, observed, usable, records, rankedIndices)
    }

    constructor ()
      ensures State() == EMPTY
    {
      path, snapshot, observed, usable, records, rankedIndices := EMPTY.path, EMPTY.snapshot, false, false, [], [];
    }

    method ReadRecords(sh: Shell, lines: seq<string>) returns (withinLimit: bool)
      requires records == []
      modifies this`records
      ensures withinLimit == Fits(lines, 0, 0)
      ensures withinLimit ==> records == Records(sh, lines, "")
    {
      var bytes := 0;
      var header := "";
      withinLimit := true;
      assert lines[0..] == lines;
      NoneBefore(Records(sh, lines, ""));
      ghost var all := Records(sh, lines, "");
      ghost var fits := Fits(lines, 0, 0);
      for k := 0 to |lines|
        invariant bytes >= 0
        invariant fits == Fits(lines[k..], bytes, |records|)
        invariant all == records + Records(sh, lines[k..], header)
      {
        var line := lines[k];
        FitsNext(lines, k, bytes, |records|);
        RecordsAppend(sh, lines, k, header);
        bytes := bytes + |line| + 1;
        if bytes > MAX_BYTES || |records| >= MAX_RECORDS {
          return false;
        }
        if line == "" { continue; }
        if line[0] == '#' {
          header := line;
          continue;
        }
        var record := ParseRecord(sh, sh.decode(line), header);
        Assoc(records, [record], Records(sh, lines[k + 1..], ""));
        records := records + [record];
        header := "";
      }
      assert lines[|lines|..] == [] && records + [] == records;
    }

    method CachedHistoryRecords(sh: Shell, call: Call) returns (available: bool)
      modifies this
      ensures State() == Lookup(sh, old(State()), call)
      ensures available == usable
    {
      if !observed || path != call.path || !CanReuse(snapshot, call.snapshot) {
        path := call.path;
        snapshot := call.snapshot;
        observed := true;
        usable := false;
        records := [];
        rankedIndices := [];
        if snapshot.error == 0 && IsRegular(snapshot.info.mode) && snapshot.info.size >= 0
            && snapshot.info.size <= MAX_BYTES {
          if call.isOpen {
            var withinLimit := ReadRecords(sh, call.lines);
            usable := withinLimit && !call.bad;
            observed := Same(call.after, snapshot);
            if !usable { records := []; }
          }
        }
      }
      if usable && call.ranked && rankedIndices == [] {
        rankedIndices := RankIndices(records);
      }
      return usable;
    }

    /** The whole query: from the cache when it can hold the file, streaming otherwise. */
    method CollectHistoryMatches(sh: Shell, q: Query, call: Call, streamed: seq<string>) returns (matches: seq<Match>)
      requires q.maxResults >= 1 && call.ranked == q.ranked && RankingKept(State())
      modifies this
      ensures State() == Lookup(sh, old(State()), call) && RankingKept(State())
      ensures matches == if usable then CachedAnswer(sh, q, records) else StreamedAnswer(sh, q, streamed)
    {
      LookupRanks(sh, State(), call);
      var available := CachedHistoryRecords(sh, call);
      if available {
        matches := CachedMatches(sh, q, records, rankedIndices);
      } else {
        matches := StreamedMatches(sh, q, streamed);
      }
    }
  }

  // ---------------------------------------------------------------- coherence over runs

  /** At each moment: the content of each file, the result of `stat` with its error, and the
      clock. */
  datatype World = World(content: (string, nat) -> seq<string>, stat: (string, nat) -> Stat,
      error: (string, nat) -> int, clock: nat -> int)

  /** A call with the moments of its two `stat` calls, before and after reading. */
  datatype Timed = Timed(call: Call, start: nat, end: nat)

  ghost predicate Unchanged(w: World, path: string, from: nat, to: nat) {
    forall t :: from <= t <= to ==> w.content(path, t) == w.content(path, from)
  }

  /** The content was written at moment `t`. */
  ghost predicate Written(w: World, path: string, t: nat) {
    t > 0 && w.content(path, t) != w.content(path, t - 1)
  }

  /** What is assumed of clocks and file systems: the clock does not run backwards, and the
      change time of a file is never more than two seconds behind any write before it, in whole
      seconds. How coarse the timestamps are below that, and whether two writes can leave equal
      ones, is open. */
  ghost predicate Stamped(w: World) {
    && (forall s: nat, t: nat :: s <= t ==> w.clock(s) <= w.clock(t))
    && (forall path, s: nat, t: nat :: Written(w, path, s) && s <= t && w.error(path, t) == 0 ==>
         w.stat(path, t).ctime * NANO >= w.clock(s) - 2 * NANO)
  }

  /** A snapshot taken at a moment; its clock was read no later. */
  ghost predicate TakenAt(w: World, path: string, snapshot: Snapshot, t: nat) {
    && snapshot.error == w.error(path, t)
    && (snapshot.error == 0 ==> snapshot.info == w.stat(path, t))
    && snapshot.observedAt <= w.clock(t)
  }

  lemma {:induction false} NoWrite(w: World, path: string, from: nat, until: nat)
    requires from <= until && forall s :: from < s <= until ==> !Written(w, path, s)
    ensures Unchanged(w, path, from, until)
    decreases until
  {
    if from < until {
      NoWrite(w, path, from, until - 1);
      assert !Written(w, path, until);
    }
  }

  /** Reusing a snapshot is sound: if the file was there, it did not change between the moments
      of the two snapshots, although equal timestamps alone would not show that. */
  lemma ReusableMeansUnchanged(w: World, path: string, stored: Snapshot, current: Snapshot, from: nat, to: nat)
    requires Stamped(w) && from <= to && TakenAt(w, path, stored, from) && TakenAt(w, path, current, to)
    requires stored.error == 0 && CanReuse(stored, current)
    ensures Unchanged(w, path, from, to)
  {
    forall s | from < s <= to ensures !Written(w, path, s) {
      assert w.clock(from) <= w.clock(s);
    }
    NoWrite(w, path, from, to);
  }

  /** Why equal snapshots are not enough: two writes in one tick of the clock leave the same
      timestamps. Such a snapshot is equal to its successor, but may not be reused. */
  lemma SameTickWrite()
    ensures exists w: World, path, a: Snapshot, b: Snapshot ::
      && Stamped(w) && TakenAt(w, path, a, 0) && TakenAt(w, path, b, 1)
      && a.error == 0 && Same(a, b) && !Unchanged(w, path, 0, 1) && !CanReuse(a, b)
  {
    var info := Stat(1, 1, 1, 8 * 4096, 100, 0, 100, 0);
    var w := World((path, t) => if t == 0 then ["a"] else ["b"], (path, t) => info, (path, t) => 0, t => 100 * NANO);
    var a := Snapshot(0, info, 100 * NANO);
    assert w.content("", 1) != w.content("", 0);
    assert TakenAt(w, "", a, 0) && TakenAt(w, "", a, 1) && !Unchanged(w, "", 0, 1) && !CanReuse(a, a) && Same(a, a);
    assert Stamped(w);
  }

  /** A call sees the world: its snapshots are those of its moments, and what it reads of a
      file that does not change meanwhile is that file. */
  ghost predicate Observes(w: World, c: Timed) {
    && c.start <= c.end
    && TakenAt(w, c.call.path, c.call.snapshot, c.start)
    && TakenAt(w, c.call.path, c.call.after, c.end)
    && (c.call.isOpen && !c.call.bad && Unchanged(w, c.call.path, c.start, c.end) ==>
        c.call.lines == w.content(c.call.path, c.start))
  }

  /** The calls follow each other in time. */
  ghost predicate History(w: World, calls: seq<Timed>) {
    && (forall k :: 0 <= k < |calls| ==> Observes(w, calls[k]))
    && (forall j, k :: 0 <= j < k < |calls| ==> calls[j].end <= calls[k].start)
  }

  function Calls(calls: seq<Timed>): (r: seq<Call>)
    ensures |r| == |calls|
    ensures forall k :: 0 <= k < |r| ==> r[k] == calls[k].call
  {
    seq(|calls|, k requires 0 <= k < |calls| => calls[k].call)
  }

  /** The cache after `k` calls. */
  function After(sh: Shell, calls: seq<Timed>, k: nat): Cache
    requires k <= |calls|
  {
    LookupAll(sh, EMPTY, Calls(calls)[..k])
  }

  lemma AfterNext(sh: Shell, calls: seq<Timed>, k: nat)
    requires k < |calls|
    ensures After(sh, calls, k + 1) == Lookup(sh, After(sh, calls, k), calls[k].call)
  {
    var cs := Calls(calls);
    assert cs[..k + 1][..k] == cs[..k];
  }

  lemma NothingAtFirst(sh: Shell, calls: seq<Timed>)
    ensures After(sh, calls, 0) == EMPTY
  {
  }

  /** The cache holds what `call` loaded; its ranking may have been added since. */
  predicate Holds(sh: Shell, cache: Cache, call: Call) {
    cache.(rankedIndices := []) == Loaded(sh, call)
  }

  lemma LookupHolds(sh: Shell, cache: Cache, call: Call)
    ensures Reloads(cache, call) ==> Holds(sh, Lookup(sh, cache, call), call)
    ensures !Reloads(cache, call) ==> Lookup(sh, cache, call).(rankedIndices := []) == cache.(rankedIndices := [])
  {
  }

  /** No call from `from` up to `to` reads the file. */
  predicate Reused(sh: Shell, calls: seq<Timed>, from: nat, to: nat)
    requires to <= |calls|
  {
    forall j :: from <= j < to ==> !Reloads(After(sh, calls, j), calls[j].call)
  }

  /** Call `l` was the one that loaded what the cache holds after `k` calls. */
  ghost predicate LoadedBy(sh: Shell, calls: seq<Timed>, k: nat, l: nat)
    requires l < k <= |calls|
  {
    && Holds(sh, After(sh, calls, k), calls[l].call)
    && Reused(sh, calls, l + 1, k)
  }

  lemma LoadedNow(sh: Shell, calls: seq<Timed>, k: nat)
    requires k < |calls| && Reloads(After(sh, calls, k), calls[k].call)
    ensures LoadedBy(sh, calls, k + 1, k)
  {
    AfterNext(sh, calls, k);
    LookupHolds(sh, After(sh, calls, k), calls[k].call);
  }

  lemma LoadedBefore(sh: Shell, calls: seq<Timed>, k: nat, l: nat)
    requires l < k < |calls| && LoadedBy(sh, calls, k, l)
    requires !Reloads(After(sh, calls, k), calls[k].call)
    ensures LoadedBy(sh, calls, k + 1, l)
  {
    AfterNext(sh, calls, k);
    LookupHolds(sh, After(sh, calls, k), calls[k].call);
  }

  lemma {:induction false} SomeLoad(sh: Shell, calls: seq<Timed>, k: nat) returns (l: nat)
    requires 0 < k <= |calls|
    ensures l < k
    ensures LoadedBy(sh, calls, k, l)
    ensures Reloads(After(sh, calls, l), calls[l].call)
    decreases k
  {
    if Reloads(After(sh, calls, k - 1), calls[k - 1].call) {
      l := k - 1;
      LoadedNow(sh, calls, l);
    } else {
      NothingAtFirst(sh, calls);
      l := SomeLoad(sh, calls, k - 1);
      LoadedBefore(sh, calls, k - 1, l);
    }
  }

  /** Whenever records are served without reading the file again, they are those of the file
      as it is at that moment, and the file did not change since the call that read it began. */
  lemma ServedRecordsAreCurrent(sh: Shell, w: World, calls: seq<Timed>, k: nat)
    requires Stamped(w) && History(w, calls) && k < |calls|
    requires !Reloads(After(sh, calls, k), calls[k].call) && After(sh, calls, k + 1).usable
    ensures After(sh, calls, k + 1).records == Records(sh, w.content(calls[k].call.path, calls[k].start), "")
    ensures exists l ::
      && 0 <= l < k && Reloads(After(sh, calls, l), calls[l].call) && calls[l].call.path == calls[k].call.path
      && Unchanged(w, calls[k].call.path, calls[l].start, calls[k].start)
  {
    AfterNext(sh, calls, k);
    NothingAtFirst(sh, calls);
    var l := SomeLoad(sh, calls, k);
    var c := calls[l];
    assert Observes(w, c) && Observes(w, calls[k]);
    assert c.end <= calls[k].start;
    assert MayRead(c.call.snapshot) && c.call.isOpen && !c.call.bad;
    ReusableMeansUnchanged(w, c.call.path, c.call.snapshot, calls[k].call.snapshot, c.start, calls[k].start);
    assert Unchanged(w, c.call.path, c.start, c.end);
  }

  /** Every write during the reading of call `c` shows in what the two snapshots around it
      compare. Nothing is said about any other moment. */
  ghost predicate ShowsWhileReading(w: World, c: Timed) {
    c.call.snapshot.error == 0 && Same(c.call.after, c.call.snapshot) ==> Unchanged(w, c.call.path, c.start, c.end)
  }

  /** A read that overlapped a write is never reused: no later call is served from what it
      loaded, whatever the snapshots of later calls look like and whatever the clock does. */
  lemma OverlappedReadNeverReused(sh: Shell, w: World, calls: seq<Timed>, l: nat, k: nat)
    requires History(w, calls) && l < k < |calls| && ShowsWhileReading(w, calls[l])
    requires !Unchanged(w, calls[l].call.path, calls[l].start, calls[l].end)
    requires LoadedBy(sh, calls, k, l) && After(sh, calls, k).usable
    ensures Reloads(After(sh, calls, k), calls[k].call)
  {
    assert Observes(w, calls[l]);
    assert MayRead(calls[l].call.snapshot);
  }

  /** The answer given from a reused cache is the answer a fresh streaming query would give,
      up to the result limit. */
  lemma ReusedAnswerIsFresh(sh: Shell, w: World, calls: seq<Timed>, k: nat, q: Query)
    requires Stamped(w) && History(w, calls) && k < |calls|
    requires !Reloads(After(sh, calls, k), calls[k].call) && After(sh, calls, k + 1).usable
    ensures CachedAnswer(sh, q, After(sh, calls, k + 1).records)
         == Take(StreamedAnswer(sh, q, w.content(calls[k].call.path, calls[k].start)), Limit(q))
  {
    ServedRecordsAreCurrent(sh, w, calls, k);
    CachedEqualsStreamed(sh, q, w.content(calls[k].call.path, calls[k].start));
  }

  // ---------------------------------------------------------------- when the cache serves

  /** The size of a file with these lines, each with its line end. */
  function SizeOf(lines: seq<string>): nat {
    if lines == [] then 0 else |lines[0]| + 1 + SizeOf(lines[1..])
  }

  function CommandCount(lines: seq<string>): nat {
    if lines == [] then 0 else (if lines[0] != "" && lines[0][0] != '#' then 1 else 0) + CommandCount(lines[1..])
  }

  lemma {:induction false} FitsFrom(lines: seq<string>, bytes: nat, count: nat)
    requires lines != []
    ensures Fits(lines, bytes, count) <==>
      bytes + SizeOf(lines) <= 8_388_608 && count + CommandCount(lines[..|lines| - 1]) < 10_000
    decreases |lines|
  {
    var rest := lines[1..];
    if rest == [] {
      assert lines[..0] == [];
    } else {
      var command := lines[0] != "" && lines[0][0] != '#';
      FitsFrom(rest, bytes + |lines[0]| + 1, if command then count + 1 else count);
      assert lines[..|lines| - 1][1..] == rest[..|rest| - 1];
    }
  }

  /** What a file must be to be cached: regular, not larger than eight megabytes, readable to its
      end, and with at most ten thousand commands; one command more is too many only if it is not
      the last line. */
  lemma CachedWhen(sh: Shell, call: Call)
    ensures Loaded(sh, call).usable <==>
      && call.snapshot.error == 0 && call.snapshot.info.mode / 4096 % 16 == 8
      && 0 <= call.snapshot.info.size <= 8_388_608 && call.isOpen && !call.bad
      && (call.lines == [] ||
          (SizeOf(call.lines) <= 8_388_608 && CommandCount(call.lines[..|call.lines| - 1]) < 10_000))
  {
    if call.lines != [] { FitsFrom(call.lines, 0, 0); }
  }

  /** Nothing changed for more than two seconds before the file was read, nor since. */
  predicate Settled(first: Call, later: Call) {
    && later.path == first.path && first.snapshot.error == 0
    && later.snapshot.error == 0 && later.snapshot.info == first.snapshot.info
    && first.after.error == 0 && first.after.info == first.snapshot.info
    && first.snapshot.observedAt - first.snapshot.info.mtime * 1_000_000_000 > 2_000_000_000
    && first.snapshot.observedAt - first.snapshot.info.ctime * 1_000_000_000 > 2_000_000_000
  }

  /** A file that settled is read once: the next call is served from the cache. */
  lemma SettledFileIsServed(sh: Shell, cache: Cache, first: Call, later: Call)
    requires Reloads(cache, first) && Loaded(sh, first).usable && Settled(first, later)
    ensures var held := Lookup(sh, cache, first);
      && !Reloads(held, later)
      && Lookup(sh, held, later).usable && Lookup(sh, held, later).records == Records(sh, first.lines, "")
  {
  }

  /** The file is the same one and has the same length, mode and times. */
  predicate SameFields(a: Stat, b: Stat) {
    && a.dev == b.dev && a.ino == b.ino && a.size == b.size && a.mode == b.mode
    && a.mtime == b.mtime && a.mtimeNano == b.mtimeNano && a.ctime == b.ctime && a.ctimeNano == b.ctimeNano
  }

  /** What was read, if anything was, was not written to meanwhile. */
  predicate ReadUndisturbed(first: Call) {
    var file := first.snapshot;
    file.error == 0 && file.info.mode / 4096 % 16 == 8 && 0 <= file.info.size <= 8_388_608 && first.isOpen ==>
      first.after.error == 0 && SameFields(first.after.info, file.info)
  }

  /** After a call that read the file, the next one reads it again exactly unless the path is the
      same, the first read was undisturbed, and either both calls got the same error, or the file
      has the same fields and both its times were more than two seconds old at the first call. */
  lemma ReadAgainUnless(sh: Shell, cache: Cache, first: Call, later: Call)
    requires Reloads(cache, first)
    ensures !Reloads(Lookup(sh, cache, first), later) <==>
      && later.path == first.path && ReadUndisturbed(first)
      && (if first.snapshot.error != 0 then later.snapshot.error == first.snapshot.error
          else
            && later.snapshot.error == 0 && SameFields(later.snapshot.info, first.snapshot.info)
            && first.snapshot.info.mtime * 1_000_000_000 + 2_000_000_000 < first.snapshot.observedAt
            && first.snapshot.info.ctime * 1_000_000_000 + 2_000_000_000 < first.snapshot.observedAt)
  {
    var held, file := Lookup(sh, cache, first), first.snapshot;
    assert held.snapshot == file && held.path == first.path;
    assert held.observed <==> ReadUndisturbed(first);
  }
}

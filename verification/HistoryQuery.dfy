/** The two implementations of the history query, and that they agree. */
module HistoryQuery {
  import opened Text
  import opened Sequences
  import opened Deduplication
  import opened HistoryRecords

  // ---------------------------------------------------------------- the cached form

  /** The records in the order in which the cached query visits them. */
  function Visited(q: Query, records: seq<Record>): seq<Record> {
    if q.ranked then Sort(BetterRecord, Reverse(records)) else records
  }

  function Limit(q: Query): nat {
    if q.ranked then q.maxResults else UNRANKED_LIMIT
  }

  /** The cached loop without its cap. */
  function Scan(sh: Shell, q: Query, seen: set<string>, rs: seq<Record>): (r: seq<Match>)
    decreases |rs|
  {
    if rs == [] then []
    else if !Eligible(sh, q, rs[0]) || (q.ranked && KeyOf(rs[0].entry) in seen) then Scan(sh, q, seen, rs[1..])
    else [rs[0].entry] + Scan(sh, q, seen + {KeyOf(rs[0].entry)}, rs[1..])
  }

  function CachedAnswer(sh: Shell, q: Query, records: seq<Record>): seq<Match> {
    Take(Scan(sh, q, {}, Visited(q, records)), Limit(q))
  }

  // ---------------------------------------------------------------- the streaming form

  function StreamedAnswer(sh: Shell, q: Query, lines: seq<string>): seq<Match> {
    var ms := Candidates(sh, q, Records(sh, lines, ""));
    if q.ranked then Ranked(ms) else Unranked(ms)
  }

  // ---------------------------------------------------------------- agreement

  lemma {:induction false} ScanFilters(sh: Shell, q: Query, seen: set<string>, rs: seq<Record>)
    ensures Scan(sh, q, seen, rs)
         == if q.ranked then DedupeBy(KeyOf, seen, Candidates(sh, q, rs)) else Candidates(sh, q, rs)
    decreases |rs|
  {
    if rs != [] {
      var r := rs[0];
      ScanFilters(sh, q, seen, rs[1..]);
      ScanFilters(sh, q, seen + {KeyOf(r.entry)}, rs[1..]);
      CandidatesCons(sh, q, rs);
      var rest := Candidates(sh, q, rs[1..]);
      assert ([r.entry] + rest)[1..] == rest;
    }
  }

  lemma CandidatesCons(sh: Shell, q: Query, rs: seq<Record>)
    requires rs != []
    ensures Candidates(sh, q, rs)
         == (if Eligible(sh, q, rs[0]) then [rs[0].entry] else []) + Candidates(sh, q, rs[1..])
  {
    if Eligible(sh, q, rs[0]) {
      MapTail(MatchOf, [rs[0]] + Filter(Keeps(sh, q), rs[1..]));
    }
  }

  /** For one file content, the cached query gives exactly the first results of the streaming
      query: all of the unranked batch, and the ranked batch up to the result limit. */
  lemma CachedEqualsStreamed(sh: Shell, q: Query, lines: seq<string>)
    ensures CachedAnswer(sh, q, Records(sh, lines, "")) == Take(StreamedAnswer(sh, q, lines), Limit(q))
    ensures !q.ranked ==> CachedAnswer(sh, q, Records(sh, lines, "")) == StreamedAnswer(sh, q, lines)
  {
    var records := Records(sh, lines, "");
    ScanFilters(sh, q, {}, Visited(q, records));
    if q.ranked { RankThenFilter(sh, q, records); }
  }

  // ---------------------------------------------------------------- the loops

  function BetterIndex(records: seq<Record>): (nat, nat) -> bool {
    (i: nat, j: nat) => i < |records| && j < |records| && BetterRecord(records[i], records[j])
  }

  /** `ranked_indices`: positions from last to first, stably sorted. */
  function RankedIndices(records: seq<Record>): seq<nat> {
    Sort(BetterIndex(records), Positions(|records|))
  }

  function RecordAt(records: seq<Record>): nat -> Record {
    (i: nat) => if i < |records| then records[i] else Record(Match("", false, 0, 0, 0), "")
  }

  lemma {:induction false} IndicesRank(records: seq<Record>)
    ensures Map(RecordAt(records), RankedIndices(records)) == Sort(BetterRecord, Reverse(records))
    ensures forall k :: 0 <= k < |RankedIndices(records)| ==> RankedIndices(records)[k] < |records|
    ensures |RankedIndices(records)| == |records|
  {
    var less := BetterIndex(records);
    var ps := Positions(|records|);
    var a := Map(RecordAt(records), ps);
    forall k | 0 <= k < |records| ensures a[k] == Reverse(records)[k] { ReverseAt(records, k); }
    assert a == Reverse(records);
    SortMap(less, BetterRecord, RecordAt(records), ps);
    SortMembers(less, ps);
    forall k | 0 <= k < |RankedIndices(records)| ensures RankedIndices(records)[k] < |records| {
      assert RankedIndices(records)[k] in multiset(RankedIndices(records));
      assert RankedIndices(records)[k] in multiset(ps);
      assert RankedIndices(records)[k] in ps;
    }
  }

  method RankIndices(records: seq<Record>) returns (ranked: seq<nat>)
    ensures ranked == RankedIndices(records)
  {
    ranked := [];
    var i := |records|;
    while i > 0
      invariant 0 <= i <= |records|
      invariant ranked == Positions(|records|)[..|records| - i]
    {
      ranked := ranked + [i - 1];
      i := i - 1;
    }
    assert ranked == Positions(|records|);
    ranked := Sort(BetterIndex(records), ranked);
  }

  lemma TakeDone<T>(all: seq<T>, done: seq<T>, rest: seq<T>, limit: nat)
    requires all == done + rest && (|done| == limit || (rest == [] && |done| <= limit))
    ensures Take(all, limit) == done
  {
  }

  lemma VisitedAt(q: Query, records: seq<Record>, ranked: seq<nat>, i: nat)
    requires q.ranked ==> ranked == RankedIndices(records)
    requires i < |records|
    ensures |Visited(q, records)| == |records|
    ensures q.ranked ==> |ranked| == |records| && ranked[i] < |records|
    ensures Visited(q, records)[i] == records[if q.ranked then ranked[i] else i]
  {
    if q.ranked { IndicesRank(records); }
  }

  method CachedMatches(sh: Shell, q: Query, records: seq<Record>, ranked: seq<nat>) returns (matches: seq<Match>)
    requires q.maxResults >= 1
    requires q.ranked ==> ranked == RankedIndices(records)
    ensures matches == CachedAnswer(sh, q, records)
  {
    matches := [];
    var limit := if q.ranked then q.maxResults else UNRANKED_LIMIT;
    var seen: set<string> := {};
    ghost var vs := Visited(q, records);
    ghost var all := Scan(sh, q, {}, vs);
    if q.ranked { IndicesRank(records); }
    for i := 0 to |records|
      invariant |vs| == |records|
      invariant |matches| < limit
      invariant all == matches + Scan(sh, q, seen, vs[i..])
    {
      VisitedAt(q, records, ranked, i);
      var record := records[if q.ranked then ranked[i] else i];
      var match_ := record.entry;
      assert vs[i..][1..] == vs[i + 1..] && vs[i..][0] == record;
      if match_.command == q.prefix
         || (q.prefix != "" && !sh.matchesPrefix(match_.command, q.prefix))
         || (q.directoryAware && !sh.inDirectory(record.directory))
         || (match_.hasExitCode && match_.exitCode == HIDDEN_EXIT_CODE)
         || (!q.ranked && !q.includeFiles && sh.looksLikePath(match_.command))
         || TrimRight(match_.command) == "" {
        continue;
      }
      var key := TrimRight(match_.command);
      if q.ranked && key in seen {
        continue;
      }
      ghost var rest := Scan(sh, q, seen + {key}, vs[i + 1..]);
      if !q.ranked { ScanSeen(sh, q, seen, seen + {key}, vs[i + 1..]); }
      Assoc(matches, [match_], rest);
      if q.ranked { seen := seen + {key}; }
      matches := matches + [match_];
      if |matches| >= limit {
        TakeDone(all, matches, rest, limit);
        return;
      }
    }
    assert vs[|records|..] == [];
    TakeDone(all, matches, [], limit);
  }

  /** The seen set only matters for the ranked query. */
  lemma {:induction false} ScanSeen(sh: Shell, q: Query, a: set<string>, b: set<string>, rs: seq<Record>)
    requires !q.ranked
    ensures Scan(sh, q, a, rs) == Scan(sh, q, b, rs)
    decreases |rs|
  {
    if rs != [] {
      ScanSeen(sh, q, a, b, rs[1..]);
      ScanSeen(sh, q, a + {KeyOf(rs[0].entry)}, b + {KeyOf(rs[0].entry)}, rs[1..]);
    }
  }

  method StreamedMatches(sh: Shell, q: Query, lines: seq<string>) returns (matches: seq<Match>)
    ensures matches == StreamedAnswer(sh, q, lines)
  {
    matches := [];
    var header := "";
    ghost var all := Candidates(sh, q, Records(sh, lines, ""));
    var next := 0;
    NoneBefore(all);
    assert lines[0..] == lines;
    while next < |lines| && (q.ranked || |matches| < UNRANKED_LIMIT)
      invariant next <= |lines|
      invariant all == matches + Candidates(sh, q, Records(sh, lines[next..], header))
      invariant !q.ranked ==> |matches| <= UNRANKED_LIMIT
    {
      var line := lines[next];
      RecordsNext(sh, q, lines, next, header);
      next := next + 1;
      if line == "" { continue; }
      if line[0] == '#' {
        header := line;
        continue;
      }
      var entryText := sh.decode(line);
      var shouldMatch := entryText != q.prefix && (q.prefix == "" || sh.matchesPrefix(entryText, q.prefix));
      if !shouldMatch {
        header := "";
        continue;
      }
      var record := ParseRecord(sh, entryText, header);
      header := "";
      if (q.directoryAware && !sh.inDirectory(record.directory))
         || (record.entry.hasExitCode && record.entry.exitCode == HIDDEN_EXIT_CODE)
         || (!q.ranked && !q.includeFiles && sh.looksLikePath(entryText))
         || TrimRight(entryText) == "" {
        continue;
      }
      Assoc(matches, [record.entry], Candidates(sh, q, Records(sh, lines[next..], "")));
      matches := matches + [record.entry];
    }
    if q.ranked {
      assert lines[next..] == [] && matches + [] == matches;
      var sorted := Sort(Better, Reverse(matches));
      matches := DropRepeats(sorted);
    } else {
      ghost var rest := Candidates(sh, q, Records(sh, lines[next..], header));
      if next == |lines| { assert lines[next..] == []; }
      TakeDone(all, matches, rest, UNRANKED_LIMIT);
    }
  }

  /** What the next line adds to the candidates. */
  lemma RecordsNext(sh: Shell, q: Query, lines: seq<string>, next: nat, header: string)
    requires next < |lines|
    ensures var line := lines[next]; var rest := lines[next + 1..];
      Candidates(sh, q, Records(sh, lines[next..], header)) ==
        if line == "" then Candidates(sh, q, Records(sh, rest, header))
        else if line[0] == '#' then Candidates(sh, q, Records(sh, rest, line))
        else
          var r := ParseRecord(sh, sh.decode(line), header);
          (if Eligible(sh, q, r) then [r.entry] else []) + Candidates(sh, q, Records(sh, rest, ""))
  {
    var tail := lines[next..];
    assert tail[1..] == lines[next + 1..] && tail[0] == lines[next];
    var line := lines[next];
    if line != "" && line[0] != '#' {
      var rs := Records(sh, tail, header);
      var r := ParseRecord(sh, sh.decode(line), header);
      assert rs == [r] + Records(sh, tail[1..], "");
      assert rs[1..] == Records(sh, tail[1..], "");
      CandidatesCons(sh, q, rs);
    }
  }

  /** The `remove_if` with a seen set. */
  method DropRepeats(ms: seq<Match>) returns (kept: seq<Match>)
    ensures kept == Dedupe(ms)
  {
    kept := [];
    var seen: set<string> := {};
    NoneBefore(Dedupe(ms));
    assert ms[0..] == ms;
    for i := 0 to |ms|
      invariant Dedupe(ms) == kept + DedupeBy(KeyOf, seen, ms[i..])
    {
      assert ms[i..][1..] == ms[i + 1..];
      var key := TrimRight(ms[i].command);
      if key !in seen {
        Assoc(kept, [ms[i]], DedupeBy(KeyOf, seen + {key}, ms[i + 1..]));
        kept := kept + [ms[i]];
        seen := seen + {key};
      }
    }
    assert ms[|ms|..] == [] && kept + [] == kept;
  }
}

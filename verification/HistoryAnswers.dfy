/** What the history query answers, on the fields of the records and the lines of the file. */
module HistoryAnswers {
  import opened Text
  import opened Sequences
  import opened HistoryRecords
  import opened HistoryQuery

  // ---------------------------------------------------------------- the lines of a file

  /** A line that is not a command: empty, or a header. */
  predicate IsNote(line: string) {
    line == "" || line[0] == '#'
  }

  /** A command line with the notes in front of it. */
  datatype Entry = Entry(notes: seq<string>, line: string)

  predicate AllNotes(notes: seq<string>) {
    forall k :: 0 <= k < |notes| ==> IsNote(notes[k])
  }

  function FileOf(entries: seq<Entry>, end: seq<string>): seq<string> {
    if entries == [] then end else entries[0].notes + ([entries[0].line] + FileOf(entries[1..], end))
  }

  /** The header that counts: the last one. */
  function HeaderIn(notes: seq<string>): string {
    if notes == [] then ""
    else if notes[|notes| - 1] != "" then notes[|notes| - 1]
    else HeaderIn(notes[..|notes| - 1])
  }

  /** A header line holds the metadata of the command behind it. */
  function RecordOf(sh: Shell, e: Entry): Record {
    var r := sh.metadata(HeaderIn(e.notes));
    Record(r.entry.(command := sh.decode(e.line)), r.directory)
  }

  function HeaderAfter(notes: seq<string>, header: string): string {
    if HeaderIn(notes) == "" then header else HeaderIn(notes)
  }

  lemma {:induction false} NotesSkipped(sh: Shell, notes: seq<string>, lines: seq<string>, header: string)
    requires AllNotes(notes)
    ensures Records(sh, notes + lines, header) == Records(sh, lines, HeaderAfter(notes, header))
    decreases |notes|
  {
    if notes == [] {
      NoneBefore(lines);
    } else {
      var first, rest := notes[0], notes[1..];
      assert notes + lines == [first] + (rest + lines);
      assert ([first] + (rest + lines))[1..] == rest + lines;
      NotesSkipped(sh, rest, lines, if first == "" then header else first);
      HeaderCons(first, rest);
      Uncons(notes);
    }
  }

  lemma {:induction false} HeaderCons(first: string, rest: seq<string>)
    ensures HeaderIn([first] + rest) == if HeaderIn(rest) == "" then first else HeaderIn(rest)
    decreases |rest|
  {
    var all := [first] + rest;
    if rest != [] {
      assert all[|all| - 1] == rest[|rest| - 1] && all[..|all| - 1] == [first] + rest[..|rest| - 1];
      HeaderCons(first, rest[..|rest| - 1]);
    }
  }

  predicate IsFile(entries: seq<Entry>, end: seq<string>) {
    AllNotes(end) && forall k :: 0 <= k < |entries| ==> AllNotes(entries[k].notes) && !IsNote(entries[k].line)
  }

  /** The records of a file: one for each command line, in order, with the metadata of the last
      header since the command before it. */
  lemma {:induction false} RecordsOfFile(sh: Shell, entries: seq<Entry>, end: seq<string>)
    requires IsFile(entries, end)
    ensures |Records(sh, FileOf(entries, end), "")| == |entries|
    ensures forall k :: 0 <= k < |entries| ==> Records(sh, FileOf(entries, end), "")[k] == RecordOf(sh, entries[k])
    decreases |entries|
  {
    if entries == [] {
      NoneBefore(end);
      NotesSkipped(sh, end, [], "");
    } else {
      var e, rest := entries[0], FileOf(entries[1..], end);
      NotesSkipped(sh, e.notes, [e.line] + rest, "");
      assert ([e.line] + rest)[1..] == rest;
      RecordsOfFile(sh, entries[1..], end);
    }
  }

  // ---------------------------------------------------------------- which records count

  /** What a suggestion must be: not what is typed already, a continuation of it, from a directory
      in scope, not known to be missing (exit code 127), no path unless paths are wanted, and not
      only whitespace. */
  predicate MayBeSuggested(sh: Shell, q: Query, r: Record) {
    && r.entry.command != q.prefix
    && (q.prefix != "" ==> sh.matchesPrefix(r.entry.command, q.prefix))
    && (q.directoryAware ==> sh.inDirectory(r.directory))
    && (r.entry.hasExitCode ==> r.entry.exitCode != 127)
    && (!q.ranked && !q.includeFiles ==> !sh.looksLikePath(r.entry.command))
    && exists k :: 0 <= k < |r.entry.command| && r.entry.command[k] !in " \t\n\r"
  }

  lemma {:induction false} TrimmedAway(s: string)
    ensures TrimRight(s) != "" <==> exists k :: 0 <= k < |s| && s[k] !in " \t\n\r"
    decreases |s|
  {
    if s != "" {
      var front := s[..|s| - 1];
      TrimmedAway(front);
      if IsTrimmed(s[|s| - 1]) {
        if k :| 0 <= k < |front| && front[k] !in " \t\n\r" { assert s[k] !in " \t\n\r"; }
        if k :| 0 <= k < |s| && s[k] !in " \t\n\r" { assert front[k] !in " \t\n\r"; }
      } else {
        assert s[|s| - 1] !in " \t\n\r";
      }
    }
  }

  lemma EligibleMeans(sh: Shell, q: Query, r: Record)
    ensures Eligible(sh, q, r) <==> MayBeSuggested(sh, q, r)
  {
    TrimmedAway(r.entry.command);
  }

  /** `ps` are the positions, in order, of exactly the records that count. */
  ghost predicate Picks(counts: Record -> bool, records: seq<Record>, ps: seq<nat>) {
    && (forall k, l :: 0 <= k < l < |ps| ==> ps[k] < ps[l])
    && (forall k :: 0 <= k < |ps| ==> ps[k] < |records| && counts(records[ps[k]]))
    && (forall p :: 0 <= p < |records| && counts(records[p]) ==> p in ps)
  }

  function Suggestible(sh: Shell, q: Query): Record -> bool {
    (r: Record) => MayBeSuggested(sh, q, r)
  }

  function Moved(ps: seq<nat>): (r: seq<nat>)
    ensures |r| == |ps| && forall k :: 0 <= k < |ps| ==> r[k] == ps[k] + 1
  {
    seq(|ps|, k requires 0 <= k < |ps| => ps[k] + 1)
  }

  lemma PickedCounts(counts: Record -> bool, records: seq<Record>, later: seq<nat>, first: seq<nat>, k: nat)
    requires records != [] && Picks(counts, records[1..], later)
    requires first == if counts(records[0]) then [0] else []
    requires k < |first + Moved(later)|
    ensures var p := (first + Moved(later))[k]; p < |records| && counts(records[p])
  {
    if k >= |first| {
      var j := k - |first|;
      assert later[j] < |records[1..]| && counts(records[1..][later[j]]);
      assert records[1..][later[j]] == records[later[j] + 1];
    }
  }

  lemma CountedPicked(counts: Record -> bool, records: seq<Record>, later: seq<nat>, first: seq<nat>, p: nat)
    requires records != [] && Picks(counts, records[1..], later) && p < |records| && counts(records[p])
    requires first == if counts(records[0]) then [0] else []
    ensures p in first + Moved(later)
  {
    if p > 0 {
      assert records[1..][p - 1] == records[p];
      assert p - 1 in later;
      var k :| 0 <= k < |later| && later[k] == p - 1;
      assert Moved(later)[k] == p;
    }
  }

  lemma PicksCons(counts: Record -> bool, records: seq<Record>, later: seq<nat>, first: seq<nat>)
    requires records != [] && Picks(counts, records[1..], later)
    requires first == if counts(records[0]) then [0] else []
    ensures Picks(counts, records, first + Moved(later))
  {
    var ps := first + Moved(later);
    forall k | 0 <= k < |ps| ensures ps[k] < |records| && counts(records[ps[k]]) {
      PickedCounts(counts, records, later, first, k);
    }
    forall p | 0 <= p < |records| && counts(records[p]) ensures p in ps {
      CountedPicked(counts, records, later, first, p);
    }
  }

  predicate ListsRecords(records: seq<Record>, ps: seq<nat>, ms: seq<Match>) {
    |ms| == |ps| && forall k :: 0 <= k < |ps| ==> ps[k] < |records| && ms[k] == records[ps[k]].entry
  }

  lemma ListsCons(records: seq<Record>, later: seq<nat>, rest: seq<Match>, first: seq<nat>)
    requires records != [] && ListsRecords(records[1..], later, rest) && (first == [] || first == [0])
    ensures ListsRecords(records, first + Moved(later), (if first == [] then [] else [records[0].entry]) + rest)
  {
    forall k | 0 <= k < |later| ensures rest[k] == records[later[k] + 1].entry {
      assert records[1..][later[k]] == records[later[k] + 1];
    }
  }

  lemma {:induction false} CandidatePositions(sh: Shell, q: Query, records: seq<Record>) returns (ps: seq<nat>)
    ensures Picks(Suggestible(sh, q), records, ps) && ListsRecords(records, ps, Candidates(sh, q, records))
    decreases |records|
  {
    ps := [];
    if records != [] {
      var later := CandidatePositions(sh, q, records[1..]);
      var first: seq<nat> := if MayBeSuggested(sh, q, records[0]) then [0] else [];
      EligibleMeans(sh, q, records[0]);
      CandidatesCons(sh, q, records);
      PicksCons(Suggestible(sh, q), records, later, first);
      ListsCons(records, later, Candidates(sh, q, records[1..]), first);
      ps := first + Moved(later);
    }
  }

  // ---------------------------------------------------------------- the ranked answer

  /** Match `a` goes before match `b` of a list: newer, or of the same time and more frequent, or
      equal in both and later in the file. */
  predicate GoesFirst(ms: seq<Match>, a: nat, b: nat)
    requires a < |ms| && b < |ms|
  {
    || ms[a].timestamp > ms[b].timestamp
    || (ms[a].timestamp == ms[b].timestamp && ms[a].frequency > ms[b].frequency)
    || (ms[a].timestamp == ms[b].timestamp && ms[a].frequency == ms[b].frequency && a > b)
  }

  /** One match of each command, up to whitespace at its end: the first, and the first ones first. */
  ghost predicate IsRanking(ms: seq<Match>, chosen: seq<nat>) {
    && (forall k :: 0 <= k < |chosen| ==> chosen[k] < |ms|)
    && (forall k, l :: 0 <= k < l < |chosen| ==> GoesFirst(ms, chosen[k], chosen[l]))
    && (forall k, l :: 0 <= k < l < |chosen| ==>
         TrimRight(ms[chosen[k]].command) != TrimRight(ms[chosen[l]].command))
    && (forall m :: 0 <= m < |ms| ==> HasFirst(ms, chosen, m))
  }

  /** Match `m` is chosen, or one of the same command that goes before it. */
  ghost predicate HasFirst(ms: seq<Match>, chosen: seq<nat>, m: nat)
    requires m < |ms| && forall k :: 0 <= k < |chosen| ==> chosen[k] < |ms|
  {
    exists k :: 0 <= k < |chosen| && TrimRight(ms[chosen[k]].command) == TrimRight(ms[m].command)
      && (chosen[k] == m || GoesFirst(ms, chosen[k], m))
  }

  ghost predicate Lists(ms: seq<Match>, chosen: seq<nat>, answer: seq<Match>) {
    |answer| == |chosen| && forall k :: 0 <= k < |chosen| ==> chosen[k] < |ms| && answer[k] == ms[chosen[k]]
  }

  lemma BeforeOnFields(ms: seq<Match>, a: nat, b: nat)
    requires a < |ms| && b < |ms|
    ensures Before(ms, a, b) <==> GoesFirst(ms, a, b)
  {
  }

  lemma RankingOnFields(ms: seq<Match>)
    ensures IsRanking(ms, Chosen(ms)) && Lists(ms, Chosen(ms), Ranked(ms))
  {
    var chosen := Chosen(ms);
    RankedIsCanonical(ms);
    forall k, l | 0 <= k < l < |chosen| ensures GoesFirst(ms, chosen[k], chosen[l]) {
      BeforeOnFields(ms, chosen[k], chosen[l]);
    }
    forall m | 0 <= m < |ms| ensures HasFirst(ms, chosen, m) {
      assert Led(ms, chosen, m);
      var k :| (0 <= k < |chosen| && KeyOf(ms[chosen[k]]) == KeyOf(ms[m])
        && (chosen[k] == m || Before(ms, chosen[k], m)));
      BeforeOnFields(ms, chosen[k], m);
    }
    forall k | 0 <= k < |chosen| ensures Ranked(ms)[k] == ms[chosen[k]] { assert At(ms)(chosen[k]) == ms[chosen[k]]; }
  }

  /** The ranked query lists, newest first, one match of each command that counts; the cached query
      lists the first of them, up to the result limit. */
  lemma RankedAnswer(sh: Shell, q: Query, lines: seq<string>)
    requires q.ranked
    ensures var ms := Candidates(sh, q, Records(sh, lines, ""));
      exists chosen :: IsRanking(ms, chosen) && Lists(ms, chosen, StreamedAnswer(sh, q, lines))
    ensures CachedAnswer(sh, q, Records(sh, lines, "")) == Take(StreamedAnswer(sh, q, lines), q.maxResults)
  {
    RankingOnFields(Candidates(sh, q, Records(sh, lines, "")));
    CachedEqualsStreamed(sh, q, lines);
  }

  /** The unranked query lists the first fifty that count, in file order. */
  lemma UnrankedAnswer(sh: Shell, q: Query, lines: seq<string>)
    requires !q.ranked
    ensures var records := Records(sh, lines, "");
      exists ps :: Picks(Suggestible(sh, q), records, ps)
        && |StreamedAnswer(sh, q, lines)| == (if |ps| < 50 then |ps| else 50)
        && forall k :: 0 <= k < |StreamedAnswer(sh, q, lines)| ==>
             StreamedAnswer(sh, q, lines)[k] == records[ps[k]].entry
    ensures CachedAnswer(sh, q, Records(sh, lines, "")) == StreamedAnswer(sh, q, lines)
  {
    var ps := CandidatePositions(sh, q, Records(sh, lines, ""));
    CachedEqualsStreamed(sh, q, lines);
  }
}

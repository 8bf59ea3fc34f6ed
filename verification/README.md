# Verification of cjsh completion and builtins

A Dafny model of the parts of cjsh (CJ's Shell) whose correctness depends on several
functions working together:

* the worker pool of `generate-completions`: a queue, a condition variable, a counter of busy
  workers and a cancel flag that is set without the mutex, with workers that find more work
  while they run;
* the completion-spec file format: a nested document written as tab-separated, percent-encoded
  lines and rebuilt by a stable sort and a path lookup;
* history completion: a cached, ranked-in-advance query and a streaming one, and the cache itself
  under concurrent writers;
* suggestions of command names: ranking, the completion tracker and its budget, spelling
  corrections;
* the completion tokenizer with its wrapper peeling, and the two shell quoters that it reads back;
* `read` in POSIX mode: the buffered reader that seeks back, and field splitting;
* `getopts`: a machine that keeps its place in shell variables, and the parse of the whole list;
* `printf`: the operand cursor, the directives, and the reuse of the format.

Check everything with `dafny verify dfyconfig.toml`.

## How the model is built

Code that changes state step by step is a method or a class with fields, proved against a
specification function; what the program promises is then proved about that function.
Concurrency is a step relation (`WorkerPool.Next`) over all workers, with explicit sleepers, an
explicit `notify_all`, spurious wake-ups and the unlocked cancel flag; the critical sections of the
worker loop are methods of a class (`WorkQueue`) proved to do what the relation says.

Where a result is independent of how it is found, there is a second, declarative description and
both directions are proved: `IsSplit` for field splitting, `Canonical` for the ranked history,
`IsStableSort` for stable sorting, `Representable` for documents that survive the file,
`Batch` for option parsing, `Covers` and `IsOneWord` for tokens, `Deliverable` for suggestions.

What a specification function computes is also said without it, on the texts, fields and numbers
themselves, so that its names, letters, limits and branches are fixed: `GetoptsLines`,
`SpecText` and `SpecLines`, `HistoryAnswers`, `Suggestions`, `Corrections`, `CommandLines`,
`WrapperLaws`, `FieldWords`, `PrintfText`, `PrintfParts` and `PrintfOutput`.

Strings are sequences of characters that stand for bytes; the character tests are those of the "C"
locale. What the program takes from elsewhere is a parameter: the regeneration of one completion
target (`Oracle`), file contents, `stat` and the clock (`HistoryCache.World`), decoding of history
lines, header metadata, prefix matching, directory scope and the path heuristic
(`HistoryRecords.Shell`), name normalisation and the filters of sources (`CommandNames.Lookup`,
`Spelling.Comparison`), the editor's answers (`CommandNames.Editor`), and the number parsers of
`printf` (`PrintfReuse.Numerals`).

### Results worth knowing

* A sleeping worker can miss the `notify_all` of a cancellation (`PoolSafety.MissedCancellation` gives
  the run), yet nobody sleeps for ever: another worker still owes its own `notify_all`.
* The spec file returns a document exactly when the command holds no newline and the document is
  `Representable`. It is not for a subcommand whose name is taken by an earlier sibling or its
  alias, nor for a nameless top-level subcommand with children (`ShadowedParentLost`,
  `NamelessParentLost`).
* `getopts` reports an unknown option with exit status 1, like the end of the options, unless the
  option string starts with a colon (`Getopts.StatusTellsEnd`, `Getopts.UnknownLooksLikeEnd`); the
  getopts utility of POSIX.1 XCU returns 0 whenever an option is found, known or not.
* Setting OPTIND to 1 does not start afresh while GETOPTS_POS points inside an argument
  (`Getopts.RestartIsFresh`).
* A cached history is served only if it is current, assuming that the clock does not run backwards
  and that timestamps lag by at most two seconds; equal timestamps alone would not do
  (`HistoryCache.ReusableMeansUnchanged`, `HistoryCache.SameTickWrite`).
* A `printf` directive that names its operand by position is handed to the C library with the
  position as its width (`PrintfRebuild.PositionBecomesWidth`).
* The version number of a spec file is cut to 32 bits, so `format: 4294967298` is taken for version
  2 (`SpecLines.FormatAccepted`).
* Successive reads return every byte but the delimiters they drop, buffered or not.

## Model

| member | source | states |
|---|---|---|
| PoolSafety.NoLostWakeup | cjsh-core/src/builtin/generate_completions_command.cpp:629-689 | in every reachable state a sleeper has a worker that still owes its notify_all, and while anyone is unfinished someone can step without being woken |
| PoolSafety.RunnableMeansEnabled | cjsh-core/src/builtin/generate_completions_command.cpp:629-689 | being able to step is having an enabled step other than a spurious wake-up, both directions |
| PoolSafety.RunSynchronized | cjsh-core/src/builtin/generate_completions_command.cpp:640-676 | every run keeps: active_workers counts the items in flight, work_complete iff the queue is empty and nobody works (uncancelled), at most one worker inside the wait decision |
| PoolSafety.ActiveNeverUnderflows | cjsh-core/src/builtin/generate_completions_command.cpp:649-673 | the counter is positive whenever it is decremented |
| PoolSafety.MissedCancellation | cjsh-core/src/builtin/generate_completions_command.cpp:633-643 | a concrete run in which a cancellation is notified before a worker falls asleep |
| PoolResults.RunFlowing | cjsh-core/src/builtin/generate_completions_command.cpp:640-695 | every step keeps: enqueued = taken + pending, taken = in flight + reported, successes and failures those of the reported roots, all four display counters those of the logs |
| PoolResults.ClampNeverBites | cjsh-core/src/builtin/generate_completions_command.cpp:184-211 | completed is below total whenever a result is reported |
| PoolResults.ExploresLeastClosure | cjsh-core/src/builtin/generate_completions_command.cpp:614-676 | an uncancelled run explores exactly the least set of lower-cased names holding the roots and closed under discovery |
| PoolResults.ExplorationIsDeterministic | cjsh-core/src/builtin/generate_completions_command.cpp:596-708 | the explored set is independent of interleaving and job count |
| PoolResults.EachOnce | cjsh-core/src/builtin/generate_completions_command.cpp:614-670 | every enqueued item is reported once; discovered names are unique after lower-casing and differ from the roots |
| PoolResults.ResultsAddUp | cjsh-core/src/builtin/generate_completions_command.cpp:678-742 | successes and failures add up to the roots, the failures are the roots not generated, status 0 iff there is none |
| PoolTermination.RunsEnd | cjsh-core/src/builtin/generate_completions_command.cpp:632-689 | with finitely many names the number of steps of any run, cancelled or not, is bounded up to spurious wake-ups |
| PoolProgress.EveryRunCanFinish | cjsh-core/src/builtin/generate_completions_command.cpp:629-708 | from every state of every run some continuation without spurious wake-ups ends all workers, within the same bound and without new cancellation |
| PoolProgress.CompletionExists | cjsh-core/src/builtin/generate_completions_command.cpp:596-708 | an uncancelled run to the end exists for any number of jobs, so the results about completed runs are about something |
| PoolCancellation.CancelledBySignal | cjsh-core/src/builtin/generate_completions_command.cpp:551-594 | a run is cancelled iff one of its workers finds a signal |
| PoolCancellation.CancellationStops | cjsh-core/src/builtin/generate_completions_command.cpp:639-670 | after a worker found a signal the queue and the known names stay as they are; each busy worker can report the one item in its hands, and nothing else is reported |
| PoolCancellation.SignalledExit | cjsh-core/src/builtin/generate_completions_command.cpp:705-742 | the command returns 130 iff a signal was found, by a worker or after them |
| WorkQueue.CompletionQueue.constructor | cjsh-core/src/builtin/generate_completions_command.cpp:614-625 | the queue and key set at the start |
| WorkQueue.CompletionQueue.CheckForInterrupt | cjsh-core/src/builtin/generate_completions_command.cpp:551-594 | cancellation is sticky and reported at once |
| WorkQueue.CompletionQueue.TryTake | cjsh-core/src/builtin/generate_completions_command.cpp:639-650 | the first critical section does what the step relation says |
| WorkQueue.CompletionQueue.Schedule | cjsh-core/src/builtin/generate_completions_command.cpp:660-667 | exactly the discovered names not known before are appended, each lower-cased name once |
| WorkQueue.CompletionQueue.FinishWork | cjsh-core/src/builtin/generate_completions_command.cpp:656-676 | the second critical section does what the step relation says |
| Progress.BarFits | cjsh-core/src/builtin/generate_completions_command.cpp:237-254 | the bar never overflows its width; full iff done, empty iff nothing is done |
| Progress.BarGrows | cjsh-core/src/builtin/generate_completions_command.cpp:237-254 | one more result never shortens the bar |
| Progress.BarIsShare | cjsh-core/src/builtin/generate_completions_command.cpp:237-254 | in between, the filled cells are the share that is done, rounded down, but at least one |
| Progress.GenerateCompletionsProgressDisplay.AddTargets | cjsh-core/src/builtin/generate_completions_command.cpp:170-182 | new totals, unless disabled or finished |
| Progress.GenerateCompletionsProgressDisplay.ReportResult | cjsh-core/src/builtin/generate_completions_command.cpp:184-211 | new counters and last target, unless disabled or finished |
| Progress.GenerateCompletionsProgressDisplay.Finish | cjsh-core/src/builtin/generate_completions_command.cpp:213-226 | finishing is sticky |
| Progress.GenerateCompletionsProgressDisplay.BuildBar | cjsh-core/src/builtin/generate_completions_command.cpp:237-254 | the bar has exactly the filled cells, without underflow |
| SpecCodec.FieldRoundTrip | cjsh-core/src/completion/completion_spec.cpp:74-120 | decoding an encoded field gives it back, for every string |
| SpecCodec.FieldHasNoSeparator | cjsh-core/src/completion/completion_spec.cpp:74-85 | no comma, tab or line end in an encoded field; empty only for the empty field |
| SpecCodec.WriteField | cjsh-core/src/completion/completion_spec.cpp:74-85 | the loop of encode_field |
| SpecCodec.ReadField | cjsh-core/src/completion/completion_spec.cpp:100-120 | the loop of decode_field, with its failures |
| SpecCodec.ListRoundTrip | cjsh-core/src/completion/completion_spec.cpp:122-155 | decoding an encoded list gives it back, except that a list of one empty string becomes empty |
| SpecCodec.ListFaithful | cjsh-core/src/completion/completion_spec.cpp:122-155 | the list codec is faithful iff the list is not one empty string |
| SpecCodec.WriteList | cjsh-core/src/completion/completion_spec.cpp:122-131 | the loop of encode_list |
| SpecCodec.ReadList | cjsh-core/src/completion/completion_spec.cpp:133-155 | the loop of decode_list, with its failures |
| SpecCodec.SplitJoin | cjsh-core/src/completion/completion_spec.cpp:157-170 | splitting undoes joining |
| SpecCodec.SplitAt | cjsh-core/src/completion/completion_spec.cpp:157-170 | the loop of split_tabs |
| SpecCodec.LinesUnlines | cjsh-core/src/completion/completion_spec.cpp:437-464 | reading lines undoes writing them |
| SpecCodec.LinesUnended | cjsh-core/src/completion/completion_spec.cpp:450-464 | a last line without a newline is read too |
| SpecCodec.IndexRoundTrip | cjsh-core/src/completion/completion_spec.cpp:246-260 | a 64-bit index written in decimal is read back |
| SpecRebuild.SortAndAttach | cjsh-core/src/completion/completion_spec.cpp:546-564 | stable sort by depth and attaching by path build the forest described by recursive grouping, for every list of pending entries |
| SpecPreorder.ForestRoundTrip | cjsh-core/src/completion/completion_spec.cpp:269-290 | flatten, sort and attach is the identity iff every parent is a subcommand found first under its own name |
| SpecFile.Writer.WriteEntry | cjsh-core/src/completion/completion_spec.cpp:271-282 | one entry's line |
| SpecFile.Writer.WriteEntries | cjsh-core/src/completion/completion_spec.cpp:269-290 | the recursive writer emits the preorder lines and restores the scope |
| SpecFile.Writer.WriteDoc | cjsh-core/src/completion/completion_spec.cpp:437-446 | the whole file |
| SpecFile.ParseCommandDoc | cjsh-core/src/completion/completion_spec.cpp:448-568 | the parser loop, its failures, sort and attachment |
| SpecRoundTrip.SerializedParsed | cjsh-core/src/completion/completion_spec.cpp:437-568 | a written file always parses for a newline-free command; which forest comes back, for every document |
| SpecRoundTrip.NewlineUnreadable | cjsh-core/src/completion/completion_spec.cpp:437-454 | a newline in the command makes the file unreadable |
| SpecRoundTrip.SpecFileRoundTrip | cjsh-core/src/completion/completion_spec.cpp:437-568 | the document comes back iff the command is newline-free and the document is representable |
| SpecRoundTrip.ShadowedParentLost | cjsh-core/src/completion/completion_spec.cpp:262-267 | a document that is not returned: a parent shadowed by a sibling's alias |
| SpecRoundTrip.NamelessParentLost | cjsh-core/src/completion/completion_spec.cpp:133-137 | a document that is not returned: a nameless top-level parent |
| SpecText.FieldSpelt | cjsh-core/src/completion/completion_spec.cpp:74-85 | the five characters that are escaped and what each is written as |
| SpecText.FieldRead | cjsh-core/src/completion/completion_spec.cpp:87-120 | a field of characters and two-digit codes, in either case of hexadecimal digits, is read as what they mean; with a percent sign that no two digits follow it is refused |
| SpecText.EveryField | cjsh-core/src/completion/completion_spec.cpp:100-120 | there is no other field |
| SpecText.ListRead | cjsh-core/src/completion/completion_spec.cpp:133-155 | a list is read part by part, and refused iff a part is |
| SpecText.NumberWritten | cjsh-core/src/completion/completion_spec.cpp:280-281 | a number is written in decimal, without a leading zero |
| SpecText.IndexRead | cjsh-core/src/completion/completion_spec.cpp:246-260 | white space, a sign and digits: the number, 0 beyond 64 bits, and with a minus sign its complement |
| SpecText.IndexRefused | cjsh-core/src/completion/completion_spec.cpp:246-260 | any other text is read as 0 |
| SpecLines.FileWritten | cjsh-core/src/completion/completion_spec.cpp:269-446 | the whole file of any document, with every name and column spelled out, each subcommand followed by its children |
| SpecLines.LineRead | cjsh-core/src/completion/completion_spec.cpp:462-544 | what any line does: headers with their failures, 18 columns, three columns of the first version, and lines passed over |
| SpecLines.FileRead | cjsh-core/src/completion/completion_spec.cpp:448-568 | a file is refused iff its first line is not the header or a later one is refused; otherwise its entries are those of its rows |
| SpecLines.FormatAccepted | cjsh-core/src/completion/completion_spec.cpp:466-473 | a format number is accepted iff it fits in 64 bits and is 1 or 2 modulo 2 to the 32 |
| SpecLines.OldFileRead | cjsh-core/src/completion/completion_spec.cpp:474-560 | a file of the first version comes back whole, without decoding |
| HistoryQuery.CachedEqualsStreamed | cjsh-core/src/completion/cjsh_completions.cpp:1469-1582 | for one file content the cached answer is the first results of the streaming one; unranked they are equal |
| HistoryQuery.RankIndices | cjsh-core/src/completion/cjsh_completions.cpp:1442-1455 | the positions last to first, stably sorted |
| HistoryQuery.CachedMatches | cjsh-core/src/completion/cjsh_completions.cpp:1469-1499 | the cached loop with its early exit |
| HistoryQuery.StreamedMatches | cjsh-core/src/completion/cjsh_completions.cpp:1501-1582 | the streaming loop, reversal, stable sort and deduplication |
| HistoryQuery.DropRepeats | cjsh-core/src/completion/cjsh_completions.cpp:1571-1579 | the first match of each right-trimmed command is kept |
| HistoryRecords.RankedIsCanonical | cjsh-core/src/completion/cjsh_completions.cpp:1559-1580 | the ranked answer is ordered by time, frequency and later position, holds no trimmed command twice, and each one's best match |
| HistoryRecords.CanonicalIsUnique | cjsh-core/src/completion/cjsh_completions.cpp:1559-1580 | there is only one such answer |
| HistoryRecords.RankThenFilter | cjsh-core/src/completion/cjsh_completions.cpp:1442-1499 | ranking everything in advance and filtering later gives the ranking of the eligible records |
| HistoryAnswers.RecordsOfFile | cjsh-core/src/completion/cjsh_completions.cpp:1411-1432 | one record for each command line, with the metadata of the last header since the command before it |
| HistoryAnswers.EligibleMeans | cjsh-core/src/completion/cjsh_completions.cpp:1474-1494 | when a record may be suggested, spelled out |
| HistoryAnswers.CandidatePositions | cjsh-core/src/completion/cjsh_completions.cpp:1501-1557 | the candidates are exactly the records that may be suggested, in file order |
| HistoryAnswers.RankedAnswer | cjsh-core/src/completion/cjsh_completions.cpp:1442-1582 | newest first, then most frequent, then last in the file; one match for each right-trimmed command, and the best one; the cached answer is its beginning, up to the limit |
| HistoryAnswers.UnrankedAnswer | cjsh-core/src/completion/cjsh_completions.cpp:1469-1582 | the first fifty that may be suggested, in file order, cached or not |
| HistoryCache.HistoryCache.ReadRecords | cjsh-core/src/completion/cjsh_completions.cpp:1411-1432 | the loading loop: all records, or the byte or record limit was passed |
| HistoryCache.HistoryCache.CachedHistoryRecords | cjsh-core/src/completion/cjsh_completions.cpp:1394-1458 | the new state of the static cache |
| HistoryCache.HistoryCache.CollectHistoryMatches | cjsh-core/src/completion/cjsh_completions.cpp:1460-1583 | the whole query: cached when possible, streaming otherwise |
| HistoryCache.ReusableMeansUnchanged | cjsh-core/src/utils/file_snapshot.h:82-96 | if the change time of a file is at most two seconds behind each write and the clock does not run backwards, a reusable snapshot means that the content did not change |
| HistoryCache.SameTickWrite | cjsh-core/src/utils/file_snapshot.h:56-96 | equal snapshots alone do not mean that: two writes in one tick |
| HistoryCache.ServedRecordsAreCurrent | cjsh-core/src/completion/cjsh_completions.cpp:1394-1437 | records served without reading are those of the file at that moment, under the same assumption on clock and timestamps |
| HistoryCache.OverlappedReadNeverReused | cjsh-core/src/completion/cjsh_completions.cpp:1433-1435 | if the write shows in what is compared around the read, no later call is served from that read, whatever later snapshots and the clock look like |
| HistoryCache.ReusedAnswerIsFresh | cjsh-core/src/completion/cjsh_completions.cpp:1394-1582 | the answer from a reused cache is that of a fresh streaming query, up to the limit |
| HistoryCache.CachedWhen | cjsh-core/src/completion/cjsh_completions.cpp:1405-1437 | a file is cached iff it is regular, could be read to its end, and has at most eight megabytes and ten thousand commands |
| HistoryCache.SettledFileIsServed | cjsh-core/src/completion/cjsh_completions.cpp:1394-1437 | a file that did not change for two seconds before it was read, nor since, is read once |
| HistoryCache.ReadAgainUnless | cjsh-core/src/completion/cjsh_completions.cpp:1394-1437 | after a read the next call reads again unless path, error or all compared fields are the same, the read was undisturbed, and both times were more than two seconds old |
| CompletionTracker.CapUnreachable | cjsh-core/src/completion/completion_tracker.cpp:52-68 | below the limit the entry cap cannot be met, also when doubling would overflow; a completion is refused only as a duplicate or for the limit |
| CompletionTracker.CapBeyondLimit | cjsh-core/src/completion/completion_tracker.cpp:60-68 | a session within its limit is below the entry cap, even at the limit, so duplicates are decided by membership |
| CompletionTracker.AddKeepsCount | cjsh-core/src/completion/completion_tracker.cpp:107-127 | the counter is the size of the set, and does not pass the limit |
| CompletionTracker.CompletionTracker.AddIfUnique | cjsh-core/src/completion/completion_tracker.cpp:107-127 | the new state, whether the result is delivered, and whether to go on |
| CompletionTracker.CompletionTracker.WouldCreateDuplicate | cjsh-core/src/completion/completion_tracker.cpp:97-105 | below the entry cap, exactly whether the right-trimmed result was added before; at the cap, yes |
| CompletionTracker.ReplacesWord | cjsh-core/src/completion/completion_tracker.cpp:85-95 | deleting as many characters as the completed word has leaves what stood before it, followed by the new text |
| CompletionTracker.CompletionTracker.Prioritize | cjsh-core/src/completion/completion_tracker.cpp:145-151 | one more preferred result |
| CompletionTracker.CompletionTracker.IsPreferred | cjsh-core/src/completion/completion_tracker.cpp:153-161 | membership among the preferred results |
| CommandNames.RanksIsWeakOrder | cjsh-core/src/completion/cjsh_completions.cpp:684-694 | the comparison is a strict weak order, as the sort needs |
| CommandNames.SpaceIgnored | cjsh-core/src/completion/cjsh_completions.cpp:201-210 | the inserted space does not change what counts as the same result |
| CommandNames.CollectCandidates | cjsh-core/src/completion/cjsh_completions.cpp:670-680 | all matching names of all sources in order of precedence |
| CommandNames.AddCommandNames | cjsh-core/src/completion/cjsh_completions.cpp:670-711 | what is delivered and the session afterwards, for any answers of the editor |
| CommandNames.OfferIsTake | cjsh-core/src/completion/cjsh_completions.cpp:695-711 | a patient editor gets the first deliverable candidates, as many as there is room for |
| CommandNames.BudgetOnlyCuts | cjsh-core/src/completion/cjsh_completions.cpp:681-711 | under a smaller limit exactly the first suggestions of the larger one are delivered, whatever the editor answers |
| CommandNames.ImpatientGetsPrefix | cjsh-core/src/completion/cjsh_completions.cpp:695-711 | any editor gets a prefix of what a patient one gets |
| CommandNames.OfferIsPrefix | cjsh-core/src/completion/cjsh_completions.cpp:695-711 | any editor gets a prefix of the deliverable candidates, no longer than there is room for |
| CommandNames.DeliveredDistinct | cjsh-core/src/completion/cjsh_completions.cpp:695-711 | for any editor, delivered results are pairwise distinct after right-trimming, and new |
| CommandNames.SameNameKeepsOrder | cjsh-core/src/completion/cjsh_completions.cpp:681-694 | the ranking keeps candidates of one name in source order |
| CommandNames.EarliestSourceWins | cjsh-core/src/completion/cjsh_completions.cpp:681-711 | for any editor, a delivered name comes from the first source that has and accepts it |
| Suggestions.SuggestsBest | cjsh-core/src/completion/cjsh_completions.cpp:664-711 | preferred names first, then shorter ones, then by comparison form and name; a name that may be suggested is left out only for a better one with the same result, or when the limit, at least one, was spent on names before it |
| Suggestions.SessionRecords | cjsh-core/src/completion/cjsh_completions.cpp:695-711 | for any editor the session has recorded exactly what was delivered |
| Suggestions.OrderDecides | cjsh-core/src/completion/cjsh_completions.cpp:684-694 | names that may go before each other are one name |
| Spelling.IsAdjacentTransposition | cjsh-core/src/completion/completion_spell.cpp:43-69 | true iff the second string is the first with two unequal adjacent characters swapped |
| Spelling.SwappedSymmetric | cjsh-core/src/completion/completion_spell.cpp:43-69 | being a transposition is symmetric |
| EditDistance.DistanceIsLeast | cjsh-core/src/utils/edit_distance_utils.h:41-81 | the distance is the least number of insertions, deletions and replacements that turns one string into the other |
| EditDistance.DistanceSymmetric | cjsh-core/src/utils/edit_distance_utils.h:41-81 | symmetric, and 0 for equal strings only |
| EditDistance.FillRow | cjsh-core/src/utils/edit_distance_utils.h:62-71 | one row from the row before, and its least entry |
| EditDistance.RowsStayAbove | cjsh-core/src/utils/edit_distance_utils.h:73-75 | once a row lies above the limit, so does the distance: the early cut is sound |
| EditDistance.DistanceWithLimit | cjsh-core/src/utils/edit_distance_utils.h:41-81 | the distance when it is within the limit, otherwise a number above the limit |
| Spelling.SharedPrefix | cjsh-core/src/completion/completion_spell.h:88-93 | the length of the common prefix |
| Spelling.Consider | cjsh-core/src/completion/completion_spell.h:62-116 | one candidate: recorded with the match it stands for iff accepted |
| Spelling.CollectCandidates | cjsh-core/src/completion/completion_spell.h:56-117 | the map gains exactly the accepted candidates of a source |
| Spelling.CollectAll | cjsh-core/src/completion/cjsh_completions.cpp:576-603 | the map over all sources |
| Spelling.MatchMapUnique | cjsh-core/src/completion/completion_spell.h:56-117 | the map depends on the set of accepted candidates only |
| Spelling.OrderMatches | cjsh-core/src/completion/completion_spell.cpp:80-104 | every entry once, in order |
| Spelling.OrderingUnique | cjsh-core/src/completion/completion_spell.cpp:80-104 | the order is determined by the map, whatever the sort and the iteration order |
| Corrections.CorrectionsListed | cjsh-core/src/completion/completion_spell.h:56-117 | the list holds exactly the names of the sources that are two neighbours swapped, or within two edits, three from six characters on; fewer mistakes first, then swapped neighbours, the longer common beginning, the name |
| Tokenizer.CheckAssignment | cjsh-core/src/completion/completion_context.cpp:50-66 | an assignment is a variable name followed by an equals sign |
| Tokenizer.FinishWord | cjsh-core/src/completion/completion_context.cpp:72-81 | the finished word is appended |
| Tokenizer.TakeCharacter | cjsh-core/src/completion/completion_context.cpp:121-146 | one character of a word, with the one it escapes |
| Tokenizer.TokenizeActiveSegment | cjsh-core/src/completion/completion_context.cpp:83-157 | the loop with two-character lookahead is the reading of one character at a time |
| TokenizerSpans.Lossless | cjsh-core/src/completion/completion_context.cpp:83-157 | between segment start and cursor: whitespace, word, whitespace, word and so on, each raw text its slice |
| TokenizerSpans.CoversOrders | cjsh-core/src/completion/completion_context.cpp:83-157 | spans increase, are disjoint, lie in the segment, and hold every other character than whitespace |
| TokenizerSpans.WordsStandAlone | cjsh-core/src/completion/completion_context.cpp:83-157 | each raw text alone is that one word; all but the last are closed, so gaps are unquoted |
| TokenizerSpans.SegmentFollowsOperator | cjsh-core/src/completion/completion_context.cpp:101-114 | a segment starts at 0 or after an unquoted operator |
| TokenizerSpans.Restartable | cjsh-core/src/completion/completion_context.cpp:83-157 | the segment alone gives start 0, the same flag and the same words, moved |
| Wrappers.RequiredOptionValue | cjsh-core/src/completion/completion_context.cpp:202-244 | when the value of a wrapper's option is the next word |
| Wrappers.LeadAt | cjsh-core/src/completion/completion_context.cpp:252-292 | what one word after a wrapper does |
| Wrappers.ConsumeWrapper | cjsh-core/src/completion/completion_context.cpp:246-298 | the loop over a wrapper's options |
| Wrappers.FindCommand | cjsh-core/src/completion/completion_context.cpp:304-344 | the loop over wrappers and assignments; it always advances |
| Wrappers.ResolveEffectiveCommand | cjsh-core/src/completion/completion_context.cpp:304-353 | effective tokens and flags |
| Wrappers.EffectiveIsSuffix | cjsh-core/src/completion/completion_context.cpp:304-353 | the effective tokens are a suffix whose head is no assignment, and a wrapper only as the last, unfinished word |
| Wrappers.ResolveIdempotent | cjsh-core/src/completion/completion_context.cpp:304-353 | peeling twice is peeling once |
| Wrappers.WrapperTransparent | cjsh-core/src/completion/completion_context.cpp:246-353 | a wrapper before a command without leading option changes nothing |
| Wrappers.FlagsForetellNextWord | cjsh-core/src/completion/completion_context.cpp:246-353 | at a boundary the flags say exactly what the next plain word will be |
| WrapperLaws.PlainCommand | cjsh-core/src/completion/completion_context.cpp:304-353 | a command that is neither an assignment nor a wrapper keeps all its words |
| WrapperLaws.NoCommand | cjsh-core/src/completion/completion_context.cpp:304-314 | nothing typed, and a single assignment |
| WrapperLaws.WrapperAlone | cjsh-core/src/completion/completion_context.cpp:316-336 | a wrapper alone is the command only while it is being typed |
| WrapperLaws.OptionWithValue | cjsh-core/src/completion/completion_context.cpp:274-287 | an option whose value is the next word is passed over with it |
| WrapperLaws.OptionAlone | cjsh-core/src/completion/completion_context.cpp:266-290 | any other option is passed over alone |
| WrapperLaws.EnvAssignment | cjsh-core/src/completion/completion_context.cpp:255-258 | env passes over assignments |
| WrapperLaws.DoubleDash | cjsh-core/src/completion/completion_context.cpp:260-264 | after -- the command is that of the words behind it |
| WrapperLaws.LeadingAssignment | cjsh-core/src/completion/completion_context.cpp:304-309 | assignments in front do not belong to the command |
| WrapperLaws.Describes | cjsh-core/src/completion/completion_context.cpp:266-272 | command with v or V in its option completes nothing |
| WrapperLaws.WaitsForValue | cjsh-core/src/completion/completion_context.cpp:274-284 | an option waits for its value until that is complete |
| WrapperLaws.Clusters | cjsh-core/src/completion/completion_context.cpp:190-244 | which clusters of letters take the next word, letter by letter |
| WrapperLaws.LongOptionsTake | cjsh-core/src/completion/completion_context.cpp:190-244 | which long options do, written out |
| WrapperLaws.NoNextWord | cjsh-core/src/completion/completion_context.cpp:202-244 | a value behind an equals sign is not the next word; command has no such options |
| AssignmentLhs.CursorIsInAssignmentLhs | cjsh-core/src/completion/completion_context.cpp:159-189 | the scan from the cursor to the next equals sign |
| AssignmentLhs.InLhsIff | cjsh-core/src/completion/completion_context.cpp:159-189 | the flag is set iff the text around the cursor, from the beginning of its word to the next equals sign, is the left side of an assignment |
| AssignmentLhs.CheckLhs | cjsh-core/src/parser/parser_utils.cpp:987-1022 | a variable, an element or an index, and perhaps a plus sign |
| AssignmentLhs.ElementForm | cjsh-core/src/parser/parser_utils.cpp:1004-1021 | an element is a variable name and a non-empty index in brackets |
| AssignmentLhs.LhsForm | cjsh-core/src/parser/parser_utils.cpp:987-1022 | the left sides are exactly a name, an element or an index, perhaps with a plus sign |
| AssignmentLhs.AssignmentForm | cjsh-core/src/completion/completion_context.cpp:50-66 | a word is an assignment iff it is a shell name, an equals sign and any value |
| Wrappers.Parse | cjsh-core/src/completion/completion_context.cpp:357-368 | the whole context, with all its flags |
| Wrappers.ParseRestartable | cjsh-core/src/completion/completion_context.cpp:357-368 | parsing the segment prefix alone gives the same context, moved |
| Wrappers.ContextMeans | cjsh-core/src/completion/completion_context.cpp:357-368 | every field of the context in terms of the line and its words; a cursor out of range stands at the end |
| Quoting.ShellEscape | cjsh-core/src/builtin/printf_command.cpp:274-300 | the quoter of printf %q |
| Quoting.SingleQuoteValue | cjsh-core/src/builtin/declare_command.cpp:225-238 | the quoter of declare -p |
| Quoting.QuotingUndone | cjsh-core/src/completion/completion_context.cpp:83-157 | words quoted one by one and joined by spaces are read back exactly |
| Quoting.ShellEscapeRoundTrip | cjsh-core/src/builtin/printf_command.cpp:274-300 | any list of strings survives shell_escape and the tokenizer |
| Quoting.SingleQuoteRoundTrip | cjsh-core/src/builtin/declare_command.cpp:225-238 | any list of strings survives single_quote_value and the tokenizer |
| Quoting.EscapedListInjective | cjsh-core/src/builtin/printf_command.cpp:274-300 | different lists are quoted differently |
| Quoting.QuotedParts | cjsh-core/src/builtin/printf_command.cpp:274-300 | the quoted form, spelled out: which strings are left alone, and how the quotes of the others are written |
| CommandLines.TypedWordRead | cjsh-core/src/completion/completion_context.cpp:121-146 | a word put together from plain, backslashed, single- and double-quoted fragments is read as its text |
| CommandLines.TypedWordQuotes | cjsh-core/src/completion/completion_context.cpp:121-146 | so every such way of quoting counts for the round trips of lists |
| CommandLines.LineTokens | cjsh-core/src/completion/completion_context.cpp:83-157 | a line of such words and blanks: every word with its text, raw text, place and flags |
| CommandLines.SegmentTokens | cjsh-core/src/completion/completion_context.cpp:101-157 | the same behind an operator |
| CommandLines.LineCloses | cjsh-core/src/completion/completion_context.cpp:149-156 | the cursor is at a word boundary iff blanks, or nothing, stand before it |
| CommandLines.OpenQuoteTokens | cjsh-core/src/completion/completion_context.cpp:121-156 | while a quote is open, everything behind it is one quoted word |
| CommandLines.LastBackslashTokens | cjsh-core/src/completion/completion_context.cpp:116-156 | a backslash at the cursor stands for itself |
| ReadInput.Reader.ReadChar | cjsh-core/src/builtin/read_command.cpp:245-269 | the next byte at the logical position, or the end, whatever is buffered |
| ReadInput.ReadCount | cjsh-core/src/builtin/read_command.cpp:274-278 | the -n loop |
| ReadInput.ReadToDelimiter | cjsh-core/src/builtin/read_command.cpp:279-288 | the delimiter loop with its escapes |
| ReadInput.CollectInput | cjsh-core/src/builtin/read_command.cpp:226-311 | buffered or not, for any short reads: the string, status and file offset of one-byte reading |
| ReadInput.CollectsToDelimiter | cjsh-core/src/builtin/read_command.cpp:279-311 | the input is everything before the first unescaped delimiter, which is consumed; otherwise the rest of the file, and the status |
| ReadInput.CollectsCount | cjsh-core/src/builtin/read_command.cpp:274-311 | that many characters or the rest of the file, and the status |
| ReadInput.EscapedIsOdd | cjsh-core/src/builtin/read_command.cpp:280-287 | escaped iff an odd number of backslashes stands before |
| ReadInput.SuccessiveReadsCover | cjsh-core/src/builtin/read_command.cpp:271-297 | the strings that successive reads return, with the at most one unescaped delimiter each of them drops, are the rest of the file |
| ReadInput.CountedReadsReturnAll | cjsh-core/src/builtin/read_command.cpp:274-297 | with -n the returned strings alone are the rest of the file |
| FieldSplitting.RemoveBackslashes | cjsh-core/src/builtin/read_command.cpp:495-507 | the unescaping loop |
| FieldSplitting.CutFields | cjsh-core/src/builtin/read_command.cpp:515-544 | the cutting loop |
| FieldSplitting.SplitIsUnique | cjsh-core/src/builtin/read_command.cpp:515-544 | a list of intervals is the split of section 2.6.5 of POSIX.1-2017 XCU iff it is the one the loop cuts |
| FieldSplitting.FieldsPartition | cjsh-core/src/builtin/read_command.cpp:508-544 | a position lies in a field iff it is not an unescaped IFS character; fields are ordered and apart |
| FieldSplitting.LastValueEnds | cjsh-core/src/builtin/read_command.cpp:545-554 | a value never ends before it starts; the last one reaches the trimmed end and holds all fields left over |
| FieldSplitting.AssignPosixFields | cjsh-core/src/builtin/read_command.cpp:493-554 | the values of the variables |
| FieldSplitting.ProtectedValue | cjsh-core/src/builtin/read_command.cpp:493-554 | a backslash before every character protects any string, but for its newlines |
| FieldWords.ValuesAreFields | cjsh-core/src/builtin/read_command.cpp:545-554 | for any split: each variable gets its field, the last one all that is left without the white space at its end, and those without a field nothing |
| FieldWords.LinesAreTyped | cjsh-core/src/builtin/read_command.cpp:493-544 | a line of words, some characters escaped, and gaps of IFS characters is split into those words, empty ones included |
| FieldWords.WordsComeBack | cjsh-core/src/builtin/read_command.cpp:493-554 | and the words come back as the variables |
| ReadCommand.ReadPosix | cjsh-core/src/builtin/read_command.cpp:585-600 | variables, file offset and exit status, also at the end of the file |
| ReadCommand.Variables.AssignFields | cjsh-core/src/builtin/read_command.cpp:464-491 | for any number of fields: the names up to the first readonly one are assigned, the last one gets what is left; it succeeds iff none is readonly |
| ReadCommand.JoinRemaining | cjsh-core/src/builtin/read_command.cpp:453-462 | the fields left over, with spaces between |
| ReadCommand.AssignedAt | cjsh-core/src/builtin/read_command.cpp:464-491 | different names each get their own field |
| ReadCommand.NamesGet | cjsh-core/src/builtin/read_command.cpp:453-491 | different names up to the first readonly one each get their field, the last one the rest with spaces between; no other variable changes |
| ReadCommand.ProtectedReadBack | cjsh-core/src/builtin/read_command.cpp:271-311 | a protected string in a file is read back whole and the offset stands after its delimiter |
| Getopts.Shell.GetoptsCommand | cjsh-core/src/builtin/getopts_command.cpp:62-229 | one call: the variables and the status |
| Getopts.StepParses | cjsh-core/src/builtin/getopts_command.cpp:94-228 | a call reports the first pending option and leaves the rest pending, or ends at the operands |
| Getopts.StepsAreBatch | cjsh-core/src/builtin/getopts_command.cpp:94-229 | repeated calls give exactly the options, values and errors of one left-to-right parse, and OPTIND at the first operand |
| Getopts.StepAdvances | cjsh-core/src/builtin/getopts_command.cpp:94-228 | OPTIND stays in range and never decreases; option characters left strictly decrease |
| Getopts.NeverRenormalises | cjsh-core/src/builtin/getopts_command.cpp:146-152 | after any number of calls on one list from a fresh start, the recursive call is not reached |
| Getopts.StatusTellsEnd | cjsh-core/src/builtin/getopts_command.cpp:120-179 | a call ends iff no option is left; the exit status says so iff the next letter is known or errors are silenced |
| Getopts.UnknownLooksLikeEnd | cjsh-core/src/builtin/getopts_command.cpp:157-179 | an input where it does not: an unknown option is reported with status 1 although options follow |
| Getopts.RestartIsFresh | cjsh-core/src/builtin/getopts_command.cpp:94-152 | after setting OPTIND to 1 the next call behaves as on a fresh start, for every list, iff no place inside an argument was left over |
| Getopts.RestartedRun | cjsh-core/src/builtin/getopts_command.cpp:94-229 | then repeated calls give the left-to-right parse again |
| GetoptsLines.LetterMeans | cjsh-core/src/builtin/getopts_command.cpp:154-185 | a letter is unknown iff the option string does not hold it; it takes an argument iff a colon follows its first place |
| GetoptsLines.DeclaredMeans | cjsh-core/src/builtin/getopts_command.cpp:154-185 | so an option string says what was declared, also behind a leading colon |
| GetoptsLines.TypedListReported | cjsh-core/src/builtin/getopts_command.cpp:94-229 | options as they are typed are reported in order, each with its argument; an unknown letter as a question mark, a missing argument as that or a colon, with their status; OPTIND is left at the operands |
| GetoptsLines.EveryListTyped | cjsh-core/src/builtin/getopts_command.cpp:94-229 | every argument list is typed like that |
| PrintfFormat.ScanNumber | cjsh-core/src/builtin/printf_command.cpp:450-465 | overflow iff the number written exceeds the cap, however long it is; the same loop reads widths and precisions |
| PrintfFormat.PrintEsc | cjsh-core/src/builtin/printf_command.cpp:201-262 | every escape: its length and bytes, whether it stops the output, and whether it is malformed |
| Utf8.RoundTrip | cjsh-core/src/builtin/printf_command.cpp:183-199 | the bytes written for a character are read back as that character, whatever follows |
| Utf8.Examples | cjsh-core/src/builtin/printf_command.cpp:183-199 | characters of one to four bytes, written out |
| PrintfFormat.PrintEscString | cjsh-core/src/builtin/printf_command.cpp:264-272 | the escapes of a %b operand |
| PrintfText.EscapeMeans | cjsh-core/src/builtin/printf_command.cpp:148-262 | each named, octal and hexadecimal escape is read as the byte it means |
| PrintfText.OperandMeans | cjsh-core/src/builtin/printf_command.cpp:264-272 | a %b operand is printed as the bytes that its spelling means |
| PrintfText.OtherEscapes | cjsh-core/src/builtin/printf_command.cpp:201-262 | the escape that stops the output, those without a meaning, a backslash at the end, and the missing digit |
| PrintfText.TwoOctal | cjsh-core/src/builtin/printf_command.cpp:221-227 | fewer digits than three |
| PrintfText.UnicodeMeans | cjsh-core/src/builtin/printf_command.cpp:230-254 | four digits are the bytes of that character, or an error for half of a surrogate pair |
| PrintfText.LongCharacter | cjsh-core/src/builtin/printf_command.cpp:230-254 | the same for eight digits |
| PrintfText.ShortCharacter | cjsh-core/src/builtin/printf_command.cpp:230-247 | with fewer digits, an error that stops the output |
| PrintfParts.DirectiveScanned | cjsh-core/src/builtin/printf_command.cpp:554-668 | a directive put together from flags, sizes, length modifiers and a letter is read as those, or refused when the letter does not fit or a size is above a million |
| PrintfParts.FormatScanned | cjsh-core/src/builtin/printf_command.cpp:498-691 | a format put together from parts is read as those parts |
| PrintfParts.PlaceReads | cjsh-core/src/builtin/printf_command.cpp:443-496 | n$ names operand n, from 1 to 1024 |
| PrintfParts.PositionPrints | cjsh-core/src/builtin/printf_command.cpp:443-496 | a directive with a position prints the operand it names and takes no other |
| PrintfParts.PositionSizes | cjsh-core/src/builtin/printf_command.cpp:575-681 | a width with a position is the number it names; the value is the next operand in sequence |
| PrintfFormat.EscapeInside | cjsh-core/src/builtin/printf_command.cpp:201-262 | an escape advances and stays within the string |
| PrintfFormat.ItemInside | cjsh-core/src/builtin/printf_command.cpp:510-688 | the format cursor always advances and never passes the terminator |
| PrintfReuse.GetCurrArg | cjsh-core/src/builtin/printf_command.cpp:443-496 | the operand cursor |
| PrintfReuse.PassReadsSlots | cjsh-core/src/builtin/printf_command.cpp:498-691 | without positions a pass reads operands 0, 1, 2 and so on, one for each slot of the format |
| PrintfReuse.FormatReused | cjsh-core/src/builtin/printf_command.cpp:751-764 | max(1, ceil(n/k)) passes, pass p on the operands from p times k on |
| PrintfReuse.EveryOperandOnce | cjsh-core/src/builtin/printf_command.cpp:751-764 | operand j is read by pass j/k at slot j mod k and nowhere else |
| PrintfReuse.UsesUpToLast | cjsh-core/src/builtin/printf_command.cpp:443-496 | with or without positions a pass uses up the operands up to the last one it took |
| PrintfOutput.PassOnItsOperands | cjsh-core/src/builtin/printf_command.cpp:751-764 | pass p prints the items of the format on the operands from p times k on |
| PrintfOutput.OutputBySlots | cjsh-core/src/builtin/printf_command.cpp:498-768 | the whole output and the exit status: each value slot prints operands[j] with j written out, each star takes its number from operands[j], missing operands count as absent |
| Arithmetic.ArithmeticDivision | cjsh-core/src/builtin/printf_command.cpp:751-764 | the quotient and remainder used for passes and slots are the arithmetic ones |
| Arithmetic.GroupsRoundUp | cjsh-core/src/builtin/printf_command.cpp:751-764 | the number of passes is n/k rounded up, and one without operands |
| PrintfCommand.ReadSize | cjsh-core/src/builtin/printf_command.cpp:575-658 | a width from an operand or the format, or its failure |
| PrintfCommand.PrintConversion | cjsh-core/src/builtin/printf_command.cpp:554-681 | flags, width, precision, length, letter and value of a directive |
| PrintfRebuild.RebuildFormat | cjsh-core/src/builtin/printf_command.cpp:319-369 | the second scan of a directive, with the width and precision from operands put in |
| PrintfRebuild.RebuiltKeeps | cjsh-core/src/builtin/printf_command.cpp:319-369 | it hands over the directive's own flags, width and precision iff no position is in the way, with the exact condition for those that are |
| PrintfRebuild.PlainDirectiveKept | cjsh-core/src/builtin/printf_command.cpp:319-369 | a directive without positions is kept |
| PrintfRebuild.PositionBecomesWidth | cjsh-core/src/builtin/printf_command.cpp:319-345 | a directive that is not: %2$s is handed over as %2s |
| PrintfRebuild.NaturalReads | cjsh-core/src/builtin/printf_command.cpp:319-369 | a width put in is decimal, without a leading zero |
| PrintfParts.RebuiltIs | cjsh-core/src/builtin/printf_command.cpp:319-369 | what is handed over: flags, width and precision, with ll for integers and L for floating point |
| PrintfCommand.PrintDirec | cjsh-core/src/builtin/printf_command.cpp:319-431 | the format handed over and whether the operand is a bad number |
| PrintfCommand.PrintFormatted | cjsh-core/src/builtin/printf_command.cpp:498-691 | one pass: output, also before a failure, operands used, stop, error or failure |
| PrintfCommand.PrintfCommand | cjsh-core/src/builtin/printf_command.cpp:748-768 | the reuse loop writes the passes one after the other; status 1 iff a format was unusable, an escape malformed or an operand a bad number |
| PrintfParts.FormatWrites | cjsh-core/src/builtin/printf_command.cpp:498-768 | what printf writes for a format put together from parts, with the operands written out |
| Sequences.StableSortIsUnique | cjsh-core/src/completion/completion_spec.cpp:546-549 | a stable sort has only one result, so the model's sort is the library's |
| Sequences.SortFilter | cjsh-core/src/completion/cjsh_completions.cpp:1442-1499 | filtering before or after a stable sort is the same |

## Left out

- Worker pool: the sorting of the targets and the removal of equal ones at lines 541-543 come before the model, which starts from any list of roots. Exceptions inside a worker, thread creation and job-count resolution are not modelled; the number of jobs is any number.
- Progress: terminal queries, rendering and the overflow of `completed * width` in machine words.
- Spec file: the attachment walks pointers into the document; the model updates the forest as a value. Version 1 lines are read as the parser reads them but no round trip is claimed for them. Provider registries are left out.
- History: the parsing of header metadata, the decoding of lines and the directory scope are parameters. Completion prefixes and the early return at the completion limit are not modelled. Nothing is claimed about a clock that runs backwards, except by `OverlappedReadNeverReused`.
- Command names: descriptions and documentation lookups of candidates, and the order of the spelling passes around the loop.
- Spelling: the cap of ten added corrections is left out; lengths and distances are unbounded numbers.
- `read`: timeouts, interruptions and a failing `lseek`; the splitting used outside POSIX mode and its escapes; option parsing.
- `getopts`: a negative GETOPTS_POS set by hand, which indexes outside the argument; the messages printed for errors; numbers too large for an int.
- `printf`: the rendering by the C library; the warning about extra characters in a character constant, and multibyte constants, inside the number parsers. The format is the text before its first NUL.
- Job-control builtins, `cd`, `pushd`, aliases, hooks and other plumbing, which would add only easy members.

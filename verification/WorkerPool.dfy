/** The worker pool of `generate-completions` as a step relation.

    Each worker has a program point. `work_mutex` is held over several steps at one place
    only: between the evaluation of the wait predicate (`Deciding`) and the blocking on the
    condition variable, where an unlocked store of `cancel_requested` and its unlocked
    `notify_all` can slip in. Every other critical section is one step, taken while nobody
    is `Deciding`. */
module WorkerPool {
  import opened Text
  import Progress

  datatype Item = Item(target: string, isRoot: bool)

  datatype Result = Result(generated: bool, discovered: seq<string>)

  datatype Phase =
    | Top                                                      // loop head
    | CancelSeen                                               // owes the notify_all before its break
    | Enter                                                    // waits for work_mutex, or was woken up
    | Deciding                                                 // holds work_mutex, found nothing to do
    | Asleep                                                   // blocked on work_available
    | Working(item: Item)                                      // popped an item
    | Checked(item: Item, result: Result, interrupted: bool)   // generated it, polled for an interrupt
    | Released(item: Item, generated: bool)                    // left the second critical section
    | Owes                                                     // accounted for the item, owes notify_all
    | Leaving                                                  // broke out of the loop
    | Done

  datatype Worker = Worker(phase: Phase, failures: seq<string>)

  datatype Report = Report(item: Item, generated: bool)

  /** The shared variables, the workers, and three logs: every item enqueued, every item
      popped and every result reported, each in order. */
  datatype State = State(
    workers: seq<Worker>,
    pending: seq<Item>,
    scheduled: set<string>,
    active: int,
    complete: bool,
    cancel: bool,
    success: nat,
    failures: seq<string>,
    display: Progress.Counters,
    enqueued: seq<Item>,
    taken: seq<Item>,
    reported: seq<Report>)

  datatype Event =
    | Poll(signal: bool)
    | NotifyCancel
    | Take
    | Block
    | SpuriousWake
    | Regenerate(result: Result, signal: bool)
    | Finish
    | Account
    | Notify
    | Merge

  datatype Step = Step(who: nat, event: Event)

  function Roots(targets: seq<string>): (r: seq<Item>)
    ensures |r| == |targets|
    ensures forall k :: 0 <= k < |r| ==> r[k] == Item(targets[k], true)
  {
    seq(|targets|, k requires 0 <= k < |targets| => Item(targets[k], true))
  }

  function Keys(items: seq<Item>): (r: set<string>)
    ensures forall k :: 0 <= k < |items| ==> Lower(items[k].target) in r
  {
    set it | it in items :: Lower(it.target)
  }

  function Init(targets: seq<string>, jobs: nat): State {
    State(seq(jobs, i => Worker(Top, [])), Roots(targets), Keys(Roots(targets)), 0, false, false, 0, [],
          Progress.Counters(|targets|, 0, 0, 0), Roots(targets), [], [])
  }

  predicate MutexFree(s: State) {
    forall i :: 0 <= i < |s.workers| ==> s.workers[i].phase != Deciding
  }

  predicate Enabled(s: State, step: Step) {
    step.who < |s.workers| &&
    var phase := s.workers[step.who].phase;
    match step.event
    case Poll(_) => phase == Top
    case NotifyCancel => phase == CancelSeen
    case Take => phase == Enter && MutexFree(s)
    case Block => phase == Deciding
    case SpuriousWake => phase == Asleep
    case Regenerate(_, _) => phase.Working?
    case Finish => phase.Checked? && MutexFree(s)
    case Account => phase.Released?
    case Notify => phase == Owes
    case Merge => phase == Leaving
  }

  function Woken(w: Worker): Worker {
    if w.phase == Asleep then w.(phase := Enter) else w
  }

  /** `notify_all`: every blocked worker goes on to re-acquire the mutex. */
  function WakeAll(ws: seq<Worker>): (r: seq<Worker>)
    ensures |r| == |ws|
    ensures forall i :: 0 <= i < |ws| ==> r[i] == Woken(ws[i])
  {
    seq(|ws|, i requires 0 <= i < |ws| => Woken(ws[i]))
  }

  /** The discovered targets that are not scheduled yet, each lower-cased name once. */
  function Fresh(scheduled: set<string>, discovered: seq<string>): seq<string>
    decreases discovered
  {
    if discovered == [] then []
    else if Lower(discovered[0]) in scheduled then Fresh(scheduled, discovered[1..])
    else [discovered[0]] + Fresh(scheduled + {Lower(discovered[0])}, discovered[1..])
  }

  function Branches(targets: seq<string>): (r: seq<Item>)
    ensures |r| == |targets|
    ensures forall k :: 0 <= k < |r| ==> r[k] == Item(targets[k], false)
  {
    seq(|targets|, k requires 0 <= k < |targets| => Item(targets[k], false))
  }

  function Move(s: State, i: nat, phase: Phase): State
    requires i < |s.workers|
  {
    s.(workers := s.workers[i := s.workers[i].(phase := phase)])
  }

  /** The first critical section: wait predicate, then leave or pop. */
  function TakeItem(s: State, i: nat): State
    requires i < |s.workers|
  {
    if s.cancel || s.complete then Move(s, i, Leaving)
    else if s.pending == [] then Move(s, i, Deciding)
    else Move(s, i, Working(s.pending[0])).(pending := s.pending[1..], active := s.active + 1,
           taken := s.taken + [s.pending[0]])
  }

  /** What the second critical section of worker `i` appends to the queue. */
  function Added(s: State, i: nat): seq<Item>
    requires i < |s.workers| && s.workers[i].phase.Checked?
  {
    var phase := s.workers[i].phase;
    if !phase.interrupted && !s.cancel then Branches(Fresh(s.scheduled, phase.result.discovered)) else []
  }

  /** The second critical section. */
  function FinishItem(s: State, i: nat): State
    requires i < |s.workers| && s.workers[i].phase.Checked?
  {
    var phase := s.workers[i].phase;
    var added := Added(s, i);
    Move(s, i, Released(phase.item, phase.result.generated)).(
      pending := s.pending + added,
      scheduled := s.scheduled + Keys(added),
      active := s.active - 1,
      complete := s.complete || (s.pending + added == [] && s.active - 1 == 0),
      display := s.display.Add(|added|),
      enqueued := s.enqueued + added)
  }

  /** Success counter, local failures and progress report. */
  function AccountItem(s: State, i: nat): State
    requires i < |s.workers| && s.workers[i].phase.Released?
  {
    var Released(item, generated) := s.workers[i].phase;
    var failed := item.isRoot && !generated;
    var local := s.workers[i].failures + if failed then [item.target] else [];
    s.(workers := s.workers[i := Worker(Owes, local)],
       success := if item.isRoot && generated then s.success + 1 else s.success,
       display := s.display.Report(generated, item.isRoot),
       reported := s.reported + [Report(item, generated)])
  }

  function Next(s: State, step: Step): State
    requires Enabled(s, step)
  {
    var i := step.who;
    match step.event
    case Poll(signal) => Move(s, i, if s.cancel || signal then CancelSeen else Enter).(cancel := s.cancel || signal)
    case NotifyCancel => var t := Move(s, i, Leaving); t.(workers := WakeAll(t.workers))
    case Take => TakeItem(s, i)
    case Block => Move(s, i, Asleep)
    case SpuriousWake => Move(s, i, Enter)
    case Regenerate(result, signal) =>
      Move(s, i, Checked(s.workers[i].phase.item, result, s.cancel || signal)).(cancel := s.cancel || signal)
    case Finish => FinishItem(s, i)
    case Account => AccountItem(s, i)
    case Notify => var t := Move(s, i, Top); t.(workers := WakeAll(t.workers))
    case Merge =>
      s.(workers := s.workers[i := Worker(Done, [])], failures := s.failures + s.workers[i].failures)
  }

  /** `steps` leads from `s` to `t`. */
  ghost predicate Run(s: State, steps: seq<Step>, t: State)
    decreases steps
  {
    if steps == [] then s == t
    else Enabled(s, steps[0]) && Run(Next(s, steps[0]), steps[1..], t)
  }

  predicate AllDone(s: State) {
    forall i :: 0 <= i < |s.workers| ==> s.workers[i].phase == Done
  }

  /** The value returned by the command after the workers were joined. */
  function ExitStatus(s: State, signal: bool): int {
    if s.cancel || signal then 130 else if s.failures != [] then 1 else 0
  }

  // ---------------------------------------------------------------- sums over the workers

  function Total<T>(f: Worker -> multiset<T>, ws: seq<Worker>): multiset<T> {
    if ws == [] then multiset{} else f(ws[0]) + Total(f, ws[1..])
  }

  function Sum(f: Worker -> nat, ws: seq<Worker>): nat {
    if ws == [] then 0 else f(ws[0]) + Sum(f, ws[1..])
  }

  lemma {:induction false} TotalUpdate<T>(f: Worker -> multiset<T>, ws: seq<Worker>, i: nat, w: Worker)
    requires i < |ws|
    ensures f(ws[i]) <= Total(f, ws)
    ensures Total(f, ws[i := w]) == Total(f, ws) - f(ws[i]) + f(w)
  {
    if i == 0 {
      assert ws[0 := w][1..] == ws[1..];
    } else {
      TotalUpdate(f, ws[1..], i - 1, w);
      assert ws[i := w][1..] == ws[1..][i - 1 := w];
    }
  }

  lemma {:induction false} TotalSame<T>(f: Worker -> multiset<T>, ws: seq<Worker>, vs: seq<Worker>)
    requires |ws| == |vs| && forall k :: 0 <= k < |ws| ==> f(ws[k]) == f(vs[k])
    ensures Total(f, ws) == Total(f, vs)
  {
    if ws != [] { TotalSame(f, ws[1..], vs[1..]); }
  }

  lemma {:induction false} TotalNone<T>(f: Worker -> multiset<T>, ws: seq<Worker>)
    requires forall k :: 0 <= k < |ws| ==> f(ws[k]) == multiset{}
    ensures Total(f, ws) == multiset{}
  {
    if ws != [] { TotalNone(f, ws[1..]); }
  }

  lemma {:induction false} SumUpdate(f: Worker -> nat, ws: seq<Worker>, i: nat, w: Worker)
    requires i < |ws|
    ensures f(ws[i]) <= Sum(f, ws)
    ensures Sum(f, ws[i := w]) == Sum(f, ws) - f(ws[i]) + f(w)
  {
    if i == 0 {
      assert ws[0 := w][1..] == ws[1..];
    } else {
      SumUpdate(f, ws[1..], i - 1, w);
      assert ws[i := w][1..] == ws[1..][i - 1 := w];
    }
  }

  lemma {:induction false} SumSame(f: Worker -> nat, ws: seq<Worker>, vs: seq<Worker>)
    requires |ws| == |vs| && forall k :: 0 <= k < |ws| ==> f(ws[k]) == f(vs[k])
    ensures Sum(f, ws) == Sum(f, vs)
  {
    if ws != [] { SumSame(f, ws[1..], vs[1..]); }
  }

  lemma {:induction false} SumNone(f: Worker -> nat, ws: seq<Worker>)
    ensures Sum(f, ws) == 0 <==> forall k :: 0 <= k < |ws| ==> f(ws[k]) == 0
  {
    if ws != [] {
      SumNone(f, ws[1..]);
      if forall k :: 0 <= k < |ws| ==> f(ws[k]) == 0 {
        forall k | 0 <= k < |ws[1..]| ensures f(ws[1..][k]) == 0 { assert ws[1..][k] == ws[k + 1]; }
      } else {
        var k :| 0 <= k < |ws| && f(ws[k]) != 0;
        if k > 0 { assert ws[1..][k - 1] == ws[k]; }
      }
    }
  }

  lemma {:induction false} SumBound(f: Worker -> nat, ws: seq<Worker>, bound: nat)
    requires forall k :: 0 <= k < |ws| ==> f(ws[k]) <= bound
    ensures Sum(f, ws) <= bound * |ws|
  {
    if ws != [] { SumBound(f, ws[1..], bound); }
  }
}

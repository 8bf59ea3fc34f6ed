/** What every reachable state of the worker pool keeps, and why nobody sleeps for ever. */
module PoolSafety {
  import opened WorkerPool

  function InFlight(w: Worker): nat {
    if w.phase.Working? || w.phase.Checked? then 1 else 0
  }

  /** This worker is going to call `notify_all` for the item it holds. */
  predicate WillNotify(w: Worker) {
    w.phase.Working? || w.phase.Checked? || w.phase.Released? || w.phase == Owes
  }

  ghost predicate SleepersGuarded(ws: seq<Worker>) {
    (exists i :: 0 <= i < |ws| && ws[i].phase == Asleep) ==> exists j :: 0 <= j < |ws| && WillNotify(ws[j])
  }

  ghost predicate Counted(s: State) {
    s.active == Sum(InFlight, s.workers)
  }

  /** `work_complete` says exactly that nothing is queued or in flight. */
  ghost predicate CompleteExact(s: State) {
    s.complete <==> s.pending == [] && s.active == 0
  }

  /** A worker about to block found the queue empty and is alone in the mutex. */
  ghost predicate DecidersIdle(s: State) {
    && (forall i :: 0 <= i < |s.workers| && s.workers[i].phase == Deciding ==> s.pending == [] && !s.complete)
    && (forall i, j :: 0 <= i < j < |s.workers| ==> s.workers[i].phase != Deciding || s.workers[j].phase != Deciding)
  }

  predicate Left(w: Worker) {
    w.phase == Leaving || w.phase == Done
  }

  predicate SawCancel(w: Worker) {
    w.phase == CancelSeen || (w.phase.Checked? && w.phase.interrupted)
  }

  /** Nobody leaves, or acts on a cancellation, without a reason. */
  ghost predicate ExitsJustified(s: State) {
    && (forall i :: 0 <= i < |s.workers| && Left(s.workers[i]) ==> s.cancel || s.complete)
    && (forall i :: 0 <= i < |s.workers| && SawCancel(s.workers[i]) ==> s.cancel)
  }

  ghost predicate Synchronized(s: State) {
    Counted(s) && CompleteExact(s) && DecidersIdle(s) && ExitsJustified(s) && SleepersGuarded(s.workers)
  }

  lemma InitSynchronized(targets: seq<string>, jobs: nat)
    requires targets != []
    ensures Synchronized(Init(targets, jobs))
  {
    SumNone(InFlight, Init(targets, jobs).workers);
  }

  lemma NextSynchronized(s: State, step: Step)
    requires Synchronized(s) && Enabled(s, step)
    ensures Synchronized(Next(s, step))
  {
    ActiveCount(s, step);
    NextComplete(s, step);
    NextDeciders(s, step);
    NextExits(s, step);
    NextGuarded(s, step);
  }

  lemma OthersKeepPhase(s: State, step: Step, k: nat)
    requires Enabled(s, step) && k < |s.workers| && k != step.who
    ensures |Next(s, step).workers| == |s.workers|
    ensures Next(s, step).workers[k] == s.workers[k]
        || (s.workers[k].phase == Asleep && Next(s, step).workers[k].phase == Enter)
  {
  }

  lemma NextComplete(s: State, step: Step)
    requires Counted(s) && CompleteExact(s) && DecidersIdle(s) && Enabled(s, step)
    ensures CompleteExact(Next(s, step))
  {
    if step.event.Finish? {
      SumUpdate(InFlight, s.workers, step.who, s.workers[step.who]);
    }
  }

  /** Who stops at the wait predicate was there before, with the queue untouched since, or has
      just found it empty. */
  lemma DeciderFrom(s: State, step: Step, k: nat)
    requires Enabled(s, step) && k < |Next(s, step).workers| && Next(s, step).workers[k].phase == Deciding
    ensures |Next(s, step).workers| == |s.workers|
    ensures k == step.who ==> step.event.Take? && MutexFree(s) && s.pending == [] && !s.complete
    ensures k != step.who ==> s.workers[k].phase == Deciding
  {
    if k != step.who { OthersKeepPhase(s, step, k); }
  }

  lemma DeciderKeepsQueue(s: State, step: Step, k: nat)
    requires Enabled(s, step) && k < |s.workers| && s.workers[k].phase == Deciding
    ensures Next(s, step).pending == s.pending && Next(s, step).complete == s.complete
  {
  }

  lemma TakeKeepsQueue(s: State, step: Step)
    requires Enabled(s, step) && step.event.Take? && s.pending == []
    ensures Next(s, step).pending == [] && Next(s, step).complete == s.complete
  {
  }

  lemma NextDeciders(s: State, step: Step)
    requires Counted(s) && CompleteExact(s) && DecidersIdle(s) && Enabled(s, step)
    ensures DecidersIdle(Next(s, step))
  {
    var t := Next(s, step);
    forall k | 0 <= k < |t.workers| && t.workers[k].phase == Deciding ensures t.pending == [] && !t.complete {
      DeciderFrom(s, step, k);
      if k == step.who { TakeKeepsQueue(s, step); } else { DeciderKeepsQueue(s, step, k); }
    }
    forall j, k | 0 <= j < k < |t.workers| ensures t.workers[j].phase != Deciding || t.workers[k].phase != Deciding {
      if t.workers[j].phase == Deciding && t.workers[k].phase == Deciding {
        DeciderFrom(s, step, j);
        DeciderFrom(s, step, k);
      }
    }
  }

  lemma NextExits(s: State, step: Step)
    requires ExitsJustified(s) && Enabled(s, step)
    ensures ExitsJustified(Next(s, step))
  {
    var t := Next(s, step);
    assert s.cancel ==> t.cancel;
    assert s.complete ==> t.complete;
    forall k | 0 <= k < |t.workers|
      ensures Left(t.workers[k]) ==> t.cancel || t.complete
      ensures SawCancel(t.workers[k]) ==> t.cancel
    {
      if k != step.who {
        OthersKeepPhase(s, step, k);
        assert Left(t.workers[k]) ==> Left(s.workers[k]);
        assert SawCancel(t.workers[k]) ==> SawCancel(s.workers[k]);
      } else {
        assert Left(s.workers[k]) ==> s.cancel || s.complete;
        assert SawCancel(s.workers[k]) ==> s.cancel;
      }
    }
  }

  lemma NextGuarded(s: State, step: Step)
    requires Synchronized(s) && Enabled(s, step)
    ensures SleepersGuarded(Next(s, step).workers)
  {
    var t := Next(s, step);
    if step.event.NotifyCancel? || step.event.Notify? {
      assert forall k :: 0 <= k < |t.workers| ==> t.workers[k].phase != Asleep;
    } else if step.event.Block? {
      SomeInFlight(s);
      var j :| 0 <= j < |s.workers| && InFlight(s.workers[j]) != 0;
      assert WillNotify(t.workers[j]);
    } else {
      GuardKept(s, t, step.who);
    }
  }

  lemma GuardKept(s: State, t: State, i: nat)
    requires SleepersGuarded(s.workers) && i < |s.workers| == |t.workers|
    requires forall k :: 0 <= k < |s.workers| && k != i ==> t.workers[k] == s.workers[k]
    requires t.workers[i].phase != Asleep
    requires WillNotify(s.workers[i]) ==> WillNotify(t.workers[i])
    ensures SleepersGuarded(t.workers)
  {
    if k :| 0 <= k < |t.workers| && t.workers[k].phase == Asleep {
      assert s.workers[k].phase == Asleep;
      var j :| 0 <= j < |s.workers| && WillNotify(s.workers[j]);
      assert WillNotify(t.workers[j]);
    }
  }

  lemma SomeInFlight(s: State)
    requires Synchronized(s) && exists i :: 0 <= i < |s.workers| && s.workers[i].phase == Deciding
    ensures exists j :: 0 <= j < |s.workers| && InFlight(s.workers[j]) != 0
  {
    SumNone(InFlight, s.workers);
  }

  lemma WorkerMoves(s: State, step: Step)
    requires Enabled(s, step) && step.event != NotifyCancel && step.event != Notify
    ensures step.who < |Next(s, step).workers|
    ensures Next(s, step).workers == s.workers[step.who := Next(s, step).workers[step.who]]
  {
  }

  /** The counter moves with the worker. */
  lemma ActiveMoves(s: State, step: Step)
    requires Enabled(s, step) && step.event != NotifyCancel && step.event != Notify
    ensures step.who < |Next(s, step).workers|
    ensures Next(s, step).active - s.active == InFlight(Next(s, step).workers[step.who]) - InFlight(s.workers[step.who])
  {
  }

  lemma WokenCount(s: State, step: Step)
    requires Enabled(s, step) && (step.event == NotifyCancel || step.event == Notify)
    ensures Next(s, step).active == s.active
    ensures Sum(InFlight, Next(s, step).workers) == Sum(InFlight, s.workers)
  {
    var phase := if step.event == Notify then Top else Leaving;
    var moved := Move(s, step.who, phase).workers;
    SumUpdate(InFlight, s.workers, step.who, moved[step.who]);
    SumSame(InFlight, moved, WakeAll(moved));
  }

  lemma ActiveCount(s: State, step: Step)
    requires Enabled(s, step) && Counted(s)
    ensures Counted(Next(s, step))
  {
    if step.event == NotifyCancel || step.event == Notify {
      WokenCount(s, step);
    } else {
      WorkerMoves(s, step);
      ActiveMoves(s, step);
      SumUpdate(InFlight, s.workers, step.who, Next(s, step).workers[step.who]);
    }
  }

  /** Every state of every run, any number of workers, any interleaving. */
  lemma {:induction false} RunSynchronized(s: State, steps: seq<Step>, t: State)
    requires Synchronized(s) && Run(s, steps, t)
    ensures Synchronized(t)
    ensures |t.workers| == |s.workers|
    decreases steps
  {
    if steps != [] {
      NextSynchronized(s, steps[0]);
      RunSynchronized(Next(s, steps[0]), steps[1..], t);
    }
  }

  /** `--active_workers` never wraps around: the worker that does it is counted. */
  lemma CheckedIsCounted(s: State, i: nat)
    requires Synchronized(s) && i < |s.workers| && s.workers[i].phase.Checked?
    ensures s.active >= 1
  {
    SumUpdate(InFlight, s.workers, i, s.workers[i]);
  }

  /** In no run is the counter of busy workers decremented below zero. */
  lemma ActiveNeverUnderflows(targets: seq<string>, jobs: nat, steps: seq<Step>, s: State, i: nat)
    requires targets != [] && Run(Init(targets, jobs), steps, s)
    requires Enabled(s, Step(i, Finish))
    ensures s.active >= 1 && Next(s, Step(i, Finish)).active >= 0
  {
    InitSynchronized(targets, jobs);
    RunSynchronized(Init(targets, jobs), steps, s);
    CheckedIsCounted(s, i);
  }

  // ---------------------------------------------------------------- no lost wake-up

  /** Worker `i` can take its next step now, without being woken up. */
  predicate Runnable(s: State, i: nat)
    requires i < |s.workers|
  {
    var phase := s.workers[i].phase;
    phase != Asleep && phase != Done && (phase == Enter || phase.Checked? ==> MutexFree(s))
  }

  lemma RunnableMeansEnabled(s: State, i: nat)
    requires i < |s.workers|
    ensures Runnable(s, i) <==> exists e: Event :: e != SpuriousWake && Enabled(s, Step(i, e))
  {
    if Runnable(s, i) {
      var phase := s.workers[i].phase;
      var e := match phase
        case Top => Poll(false)
        case CancelSeen => NotifyCancel
        case Enter => Take
        case Deciding => Block
        case Working(_) => Regenerate(Result(false, []), false)
        case Checked(_, _, _) => Finish
        case Released(_, _) => Account
        case Owes => Notify
        case _ => Merge;
      assert e != SpuriousWake && Enabled(s, Step(i, e));
    }
  }

  /** While a worker is unfinished, some worker can step: a sleeper is never left alone,
      although cancellation is stored and notified without the mutex. */
  lemma NoLostWakeup(targets: seq<string>, jobs: nat, steps: seq<Step>, s: State)
    requires targets != [] && Run(Init(targets, jobs), steps, s)
    ensures |s.workers| == jobs
    ensures (exists i :: 0 <= i < jobs && s.workers[i].phase == Asleep)
        ==> exists j :: 0 <= j < jobs && WillNotify(s.workers[j])
    ensures !AllDone(s) ==> exists i :: 0 <= i < jobs && Runnable(s, i)
  {
    InitSynchronized(targets, jobs);
    RunSynchronized(Init(targets, jobs), steps, s);
    if !AllDone(s) {
      SomebodyRuns(s);
    }
  }

  lemma SomebodyRuns(s: State)
    requires Synchronized(s) && !AllDone(s)
    ensures exists i :: 0 <= i < |s.workers| && Runnable(s, i)
  {
    if i :| 0 <= i < |s.workers| && s.workers[i].phase == Deciding {
      assert Runnable(s, i);
    } else {
      assert MutexFree(s);
      var k :| 0 <= k < |s.workers| && s.workers[k].phase != Done;
      if s.workers[k].phase == Asleep {
        var j :| 0 <= j < |s.workers| && WillNotify(s.workers[j]);
        assert Runnable(s, j);
      } else {
        assert Runnable(s, k);
      }
    }
  }

  /** Runs can be extended at the end. */
  lemma {:induction false} RunExtend(s: State, steps: seq<Step>, t: State, step: Step)
    requires Run(s, steps, t) && Enabled(t, step)
    ensures Run(s, steps + [step], Next(t, step))
    decreases steps
  {
    if steps == [] {
      assert Run(Next(t, step), [], Next(t, step));
    } else {
      RunExtend(Next(s, steps[0]), steps[1..], t, step);
      assert (steps + [step])[1..] == steps[1..] + [step];
    }
  }

  /** A state of three workers on the one root `a`, which worker 0 is processing. */
  function Busy(cancel: bool, second: Phase, third: Phase): State {
    var phase := Working(Item("a", true));
    Init(["a"], 3).(workers := [Worker(phase, []), Worker(second, []), Worker(third, [])],
                    pending := [], active := 1, cancel := cancel, taken := [Item("a", true)])
  }

  lemma BusyReached()
    ensures exists steps :: Run(Init(["a"], 3), steps, Busy(false, Top, Top))
  {
    var s0 := Init(["a"], 3);
    assert Run(s0, [], s0);
    var p := Step(0, Poll(false));
    RunExtend(s0, [], s0, p);
    var s1 := Next(s0, p);
    assert s1.workers == [Worker(Enter, []), Worker(Top, []), Worker(Top, [])];
    RunExtend(s0, [] + [p], s1, Step(0, Take));
    var s2 := Next(s1, Step(0, Take));
    assert s2.workers == Busy(false, Top, Top).workers;
    assert s2 == Busy(false, Top, Top);
  }

  lemma BusyStep(step: Step, c: bool, a: Phase, b: Phase, c': bool, a': Phase, b': Phase)
    requires exists steps :: Run(Init(["a"], 3), steps, Busy(c, a, b))
    requires Enabled(Busy(c, a, b), step) && Next(Busy(c, a, b), step) == Busy(c', a', b')
    ensures exists steps :: Run(Init(["a"], 3), steps, Busy(c', a', b'))
  {
    var steps :| Run(Init(["a"], 3), steps, Busy(c, a, b));
    RunExtend(Init(["a"], 3), steps, Busy(c, a, b), step);
  }

  lemma BusyDeciding()
    ensures exists steps :: Run(Init(["a"], 3), steps, Busy(false, Deciding, Top))
  {
    BusyReached();
    BusyStep(Step(1, Poll(false)), false, Top, Top, false, Enter, Top);
    BusyStep(Step(1, Take), false, Enter, Top, false, Deciding, Top);
  }

  lemma BusyCancelled()
    ensures exists steps :: Run(Init(["a"], 3), steps, Busy(true, Deciding, CancelSeen))
  {
    BusyDeciding();
    BusyStep(Step(2, Poll(true)), false, Deciding, Top, true, Deciding, CancelSeen);
  }

  lemma BusyNotified()
    ensures exists steps :: Run(Init(["a"], 3), steps, Busy(true, Deciding, Leaving))
  {
    BusyCancelled();
    BusyStep(Step(2, NotifyCancel), true, Deciding, CancelSeen, true, Deciding, Leaving);
  }

  /** The danger is real: a cancellation can be stored and notified between a worker's look
      at the wait predicate and its blocking, so that it sleeps although the predicate it
      waits for holds and the notification is past. */
  lemma MissedCancellation()
    ensures exists steps :: Run(Init(["a"], 3), steps, Busy(true, Asleep, Leaving))
  {
    BusyNotified();
    BusyStep(Step(1, Block), true, Deciding, Leaving, true, Asleep, Leaving);
  }
}

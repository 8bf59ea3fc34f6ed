/** What a cancellation does to a run, whatever the interleaving. */
module PoolCancellation {
  import opened WorkerPool
  import opened PoolResults

  /** A step in which a worker finds a signal. */
  predicate Signals(step: Step) {
    match step.event
    case Poll(signal) => signal
    case Regenerate(_, signal) => signal
    case _ => false
  }

  ghost predicate Signalled(steps: seq<Step>) {
    exists k :: 0 <= k < |steps| && Signals(steps[k])
  }

  lemma SignalledCons(steps: seq<Step>)
    requires steps != []
    ensures Signalled(steps) <==> Signals(steps[0]) || Signalled(steps[1..])
  {
    if Signalled(steps[1..]) {
      var k :| 0 <= k < |steps[1..]| && Signals(steps[1..][k]);
      assert Signals(steps[k + 1]);
    }
    if k :| 0 <= k < |steps| && Signals(steps[k]) {
      if k > 0 { assert Signals(steps[1..][k - 1]); }
    }
  }

  /** A run is cancelled exactly when one of its workers finds a signal. */
  lemma {:induction false} CancelledBySignal(s: State, steps: seq<Step>, t: State)
    requires Run(s, steps, t)
    ensures t.cancel <==> s.cancel || Signalled(steps)
    decreases steps
  {
    if steps != [] {
      SignalledCons(steps);
      CancelledBySignal(Next(s, steps[0]), steps[1..], t);
    }
  }

  /** Nothing more is taken, discovered or queued. */
  predicate Stopped(s: State, t: State) {
    && t.cancel && t.taken == s.taken && t.enqueued == s.enqueued && t.pending == s.pending
    && t.scheduled == s.scheduled && t.display.total == s.display.total
    && |s.reported| <= |t.reported| && s.reported == t.reported[..|s.reported|]
  }

  lemma StopsStep(s: State, step: Step)
    requires s.cancel && Enabled(s, step)
    ensures Stopped(s, Next(s, step))
  {
    if step.event.Finish? {
      assert Added(s, step.who) == [];
      assert s.scheduled + Keys([]) == s.scheduled;
    }
  }

  lemma {:induction false} RunStops(s: State, steps: seq<Step>, t: State)
    requires s.cancel && Run(s, steps, t)
    ensures Stopped(s, t)
    decreases steps
  {
    if steps != [] {
      var next := Next(s, steps[0]);
      StopsStep(s, steps[0]);
      RunStops(next, steps[1..], t);
      assert t.reported[..|next.reported|][..|s.reported|] == t.reported[..|s.reported|];
    }
  }

  function Busy(w: Worker): nat {
    if w.phase.Working? || w.phase.Checked? || w.phase.Released? then 1 else 0
  }

  lemma {:induction false} HeldIsBusy(ws: seq<Worker>)
    ensures |Total(Held, ws)| == Sum(Busy, ws)
  {
    if ws != [] { HeldIsBusy(ws[1..]); }
  }

  /** Once a worker has found a signal, whatever the interleaving: the queue and the names known
      stay as they are, and besides what was reported before, each busy worker can report the
      one item it has in hand, and no other is reported. */
  lemma CancellationStops(targets: seq<string>, jobs: nat, before: seq<Step>, s: State, after: seq<Step>, t: State)
    requires Run(Init(targets, jobs), before, s) && Signalled(before) && Run(s, after, t)
    ensures Stopped(s, t)
    ensures multiset(t.reported) >= multiset(s.reported)
    ensures |t.reported| + Sum(Busy, t.workers) == |s.reported| + Sum(Busy, s.workers)
  {
    var s0 := Init(targets, jobs);
    CancelledBySignal(s0, before, s);
    RunStops(s, after, t);
    InitFlowing(targets, jobs);
    RunFlowing(s0, before, s);
    RunFlowing(s, after, t);
    HandsAddUp(s);
    HandsAddUp(t);
    var n := |s.reported|;
    assert t.reported == s.reported + t.reported[n..];
  }

  lemma HandsAddUp(s: State)
    requires Conserved(s)
    ensures |s.taken| == Sum(Busy, s.workers) + |s.reported|
  {
    HeldIsBusy(s.workers);
    ItemsCardinality(s.reported);
    assert |multiset(s.taken)| == |s.taken|;
  }

  /** The command returns 130 exactly when a signal was found, by a worker or after them. */
  lemma SignalledExit(targets: seq<string>, jobs: nat, steps: seq<Step>, s: State, signal: bool)
    requires Run(Init(targets, jobs), steps, s) && AllDone(s)
    ensures ExitStatus(s, signal) == 130 <==> signal || Signalled(steps)
  {
    CancelledBySignal(Init(targets, jobs), steps, s);
  }
}

/** Every run ends: with finitely many names to discover, the number of steps is bounded by
    the start state and the number of spurious wake-ups. */
module PoolTermination {
  import opened Text
  import opened WorkerPool
  import opened PoolSafety
  import opened PoolResults

  /** What a worker still owes to the items, and to the end of its loop. */
  function ItemWeight(w: Worker): nat {
    match w.phase
    case Working(_) => 5
    case Checked(_, _, _) => 4
    case Released(_, _) => 3
    case Owes => 2
    case Leaving => 0
    case Done => 0
    case _ => 1
  }

  /** How far a worker is from blocking or ending. */
  function LoopWeight(w: Worker): nat {
    match w.phase
    case Top => 4
    case Enter => 3
    case CancelSeen => 3
    case Deciding => 2
    case Asleep => 1
    case Leaving => 1
    case _ => 0
  }

  /** Work left: five for each name in `keys` not scheduled yet, five for each queued item,
      and what the workers hold. */
  function ItemMeasure(s: State, keys: set<string>): nat {
    5 * |keys - s.scheduled| + 5 * |s.pending| + Sum(ItemWeight, s.workers)
  }

  function Measure(s: State, keys: set<string>): nat {
    ItemMeasure(s, keys) * (4 * |s.workers| + 1) + Sum(LoopWeight, s.workers)
  }

  lemma LoopBound(s: State)
    ensures Sum(LoopWeight, s.workers) <= 4 * |s.workers|
  {
    SumBound(LoopWeight, s.workers, 4);
  }

  lemma WorkersWeights(s: State, step: Step)
    requires Enabled(s, step)
    ensures step.who < |Next(s, step).workers| == |s.workers|
    ensures Sum(ItemWeight, Next(s, step).workers)
         == Sum(ItemWeight, s.workers) - ItemWeight(s.workers[step.who]) + ItemWeight(Next(s, step).workers[step.who])
  {
    var ws := Next(s, step).workers;
    var moved := s.workers[step.who := ws[step.who]];
    SumUpdate(ItemWeight, s.workers, step.who, ws[step.who]);
    forall k | 0 <= k < |ws| ensures ItemWeight(moved[k]) == ItemWeight(ws[k]) {
      if k != step.who { OthersKeepPhase(s, step, k); }
    }
    SumSame(ItemWeight, moved, ws);
  }

  lemma LoopWeights(s: State, step: Step)
    requires Enabled(s, step) && step.event != NotifyCancel && step.event != Notify
    ensures step.who < |Next(s, step).workers| == |s.workers|
    ensures Sum(LoopWeight, Next(s, step).workers)
         == Sum(LoopWeight, s.workers) - LoopWeight(s.workers[step.who]) + LoopWeight(Next(s, step).workers[step.who])
  {
    var ws := Next(s, step).workers;
    SumUpdate(LoopWeight, s.workers, step.who, ws[step.who]);
    assert ws == s.workers[step.who := ws[step.who]];
  }

  /** Scheduling a discovered name only moves it from the undiscovered names to the queue. */
  lemma AddedCount(s: State, i: nat, keys: set<string>)
    requires i < |s.workers| && s.workers[i].phase.Checked?
    requires s.scheduled + Keys(Added(s, i)) <= keys
    ensures |keys - (s.scheduled + Keys(Added(s, i)))| + |Added(s, i)| == |keys - s.scheduled|
  {
    var added := Added(s, i);
    if added != [] {
      var discovered := s.workers[i].phase.result.discovered;
      var news := Fresh(s.scheduled, discovered);
      FreshKeys(s.scheduled, discovered);
      BranchKeys(news);
      DistinctCount(news);
      SplitCount(keys, s.scheduled, KeysOf(news));
    } else {
      assert Keys(added) == {};
      assert s.scheduled + Keys(added) == s.scheduled;
    }
  }

  lemma SplitCount(keys: set<string>, known: set<string>, news: set<string>)
    requires known + news <= keys && known !! news
    ensures |keys - (known + news)| + |news| == |keys - known|
  {
    assert keys - known == (keys - (known + news)) + news;
  }

  lemma {:induction false} DistinctCount(targets: seq<string>)
    requires forall j, k :: 0 <= j < k < |targets| ==> Lower(targets[j]) != Lower(targets[k])
    ensures |KeysOf(targets)| == |targets|
  {
    if targets != [] {
      DistinctCount(targets[1..]);
      assert targets == [targets[0]] + targets[1..];
      KeysOfCons(targets[0], targets[1..]);
      assert Lower(targets[0]) !in KeysOf(targets[1..]);
    }
  }

  lemma FinishMeasured(s: State, step: Step, keys: set<string>)
    requires Enabled(s, step) && step.event.Finish? && Next(s, step).scheduled <= keys
    ensures ItemMeasure(Next(s, step), keys) < ItemMeasure(s, keys)
  {
    WorkersWeights(s, step);
    AddedCount(s, step.who, keys);
  }

  lemma TakeMeasured(s: State, step: Step, keys: set<string>)
    requires Enabled(s, step) && step.event.Take?
    ensures Next(s, step).scheduled == s.scheduled
    ensures ItemMeasure(Next(s, step), keys) < ItemMeasure(s, keys)
         || (ItemMeasure(Next(s, step), keys) == ItemMeasure(s, keys)
             && Next(s, step).workers[step.who].phase == Deciding)
  {
    WorkersWeights(s, step);
  }

  lemma ScheduleKept(s: State, step: Step)
    requires Enabled(s, step) && !step.event.Finish?
    ensures Next(s, step).scheduled == s.scheduled
  {
  }

  lemma WeightsOrdered(s: State, step: Step)
    requires Enabled(s, step) && !step.event.Take?
    ensures step.who < |Next(s, step).workers|
    ensures var w, w' := s.workers[step.who], Next(s, step).workers[step.who];
      && (step.event.Account? || step.event.Notify? || step.event.NotifyCancel? || step.event.Regenerate? ==>
          ItemWeight(w') < ItemWeight(w))
      && (step.event.Poll? || step.event.Block? || step.event.SpuriousWake? || step.event.Merge? ==>
          ItemWeight(w') == ItemWeight(w))
      && (step.event.Poll? || step.event.Block? || step.event.Merge? ==> LoopWeight(w') < LoopWeight(w))
      && (step.event.SpuriousWake? ==> LoopWeight(w') == LoopWeight(w) + 2)
  {
  }

  lemma ItemsMeasured(s: State, step: Step, keys: set<string>)
    requires Enabled(s, step) && Next(s, step).scheduled <= keys
    ensures ItemMeasure(Next(s, step), keys) <= ItemMeasure(s, keys)
    ensures step.event.Finish? || step.event.Account? || step.event.Notify? || step.event.NotifyCancel?
        || step.event.Regenerate?
        ==> ItemMeasure(Next(s, step), keys) < ItemMeasure(s, keys)
    ensures step.event.SpuriousWake? ==> ItemMeasure(Next(s, step), keys) == ItemMeasure(s, keys)
  {
    if step.event.Finish? { FinishMeasured(s, step, keys); }
    else if step.event.Take? { TakeMeasured(s, step, keys); }
    else {
      QueueKept(s, step);
      ScheduleKept(s, step);
      WeightsOrdered(s, step);
      WorkersWeights(s, step);
    }
  }

  /** Without item progress, the worker that moved came nearer to blocking or ending. */
  lemma LoopsMeasured(s: State, step: Step, keys: set<string>)
    requires Enabled(s, step) && Next(s, step).scheduled <= keys
    requires ItemMeasure(Next(s, step), keys) == ItemMeasure(s, keys)
    ensures step.event != SpuriousWake ==> Sum(LoopWeight, Next(s, step).workers) < Sum(LoopWeight, s.workers)
    ensures step.event == SpuriousWake ==> Sum(LoopWeight, Next(s, step).workers) == Sum(LoopWeight, s.workers) + 2
  {
    ItemsMeasured(s, step, keys);
    LoopWeights(s, step);
    if step.event.Take? { TakeMeasured(s, step, keys); } else { WeightsOrdered(s, step); }
  }

  lemma Lexicographic(a: nat, b: nat, a': nat, b': nat, n: nat)
    requires b' <= n
    requires a' < a || (a' == a && b' < b)
    ensures a' * (n + 1) + b' < a * (n + 1) + b
  {
    if a' < a {
      Scaled(a' + 1, a, n + 1);
      assert (a' + 1) * (n + 1) == a' * (n + 1) + (n + 1);
    }
  }

  lemma StepMeasured(s: State, step: Step, keys: set<string>)
    requires Enabled(s, step) && Next(s, step).scheduled <= keys
    ensures |Next(s, step).workers| == |s.workers|
    ensures step.event != SpuriousWake ==> Measure(Next(s, step), keys) < Measure(s, keys)
    ensures step.event == SpuriousWake ==> Measure(Next(s, step), keys) == Measure(s, keys) + 2
  {
    var t := Next(s, step);
    WorkersWeights(s, step);
    LoopBound(t);
    ItemsMeasured(s, step, keys);
    var a, b, a', b' := ItemMeasure(s, keys), Sum(LoopWeight, s.workers), ItemMeasure(t, keys),
        Sum(LoopWeight, t.workers);
    if a' == a { LoopsMeasured(s, step, keys); }
    if step.event != SpuriousWake {
      Lexicographic(a, b, a', b', 4 * |s.workers|);
    }
  }

  function Spurious(steps: seq<Step>): nat {
    if steps == [] then 0 else (if steps[0].event == SpuriousWake then 1 else 0) + Spurious(steps[1..])
  }

  lemma {:induction false} RunMeasured(find: Oracle, s: State, steps: seq<Step>, t: State, targets: seq<string>,
      keys: set<string>)
    requires Tracked(find, s, |targets|) && Run(s, steps, t) && Obeys(find, s, steps)
    requires Closed(find, targets, keys) && s.scheduled <= keys
    ensures |steps| <= Measure(s, keys) + 3 * Spurious(steps)
    decreases steps
  {
    if steps != [] {
      NextTracked(find, s, steps[0], |targets|);
      HeldFromLog(s, |targets|);
      NextWithin(find, s, steps[0], targets, keys);
      StepMeasured(s, steps[0], keys);
      RunMeasured(find, Next(s, steps[0]), steps[1..], t, targets, keys);
    }
  }

  lemma StartMeasured(find: Oracle, targets: seq<string>, jobs: nat, steps: seq<Step>, s: State, keys: set<string>)
    requires targets != [] && Run(Init(targets, jobs), steps, s) && Obeys(find, Init(targets, jobs), steps)
    requires Closed(find, targets, keys)
    ensures |steps| <= Measure(Init(targets, jobs), keys) + 3 * Spurious(steps)
  {
    InitTracked(find, targets, jobs);
    RootsWithin(find, targets, jobs, keys);
    RunMeasured(find, Init(targets, jobs), steps, s, targets, keys);
  }

  function Bound(items: nat, jobs: nat): nat {
    items * (4 * jobs + 1) + 4 * jobs
  }

  lemma InitBound(targets: seq<string>, jobs: nat, keys: set<string>)
    ensures Measure(Init(targets, jobs), keys) <= Bound(5 * |keys| + 5 * |targets| + jobs, jobs)
  {
    InitMeasured(targets, jobs, keys);
    Scaled(ItemMeasure(Init(targets, jobs), keys), 5 * |keys| + 5 * |targets| + jobs, 4 * jobs + 1);
  }

  /** When the names reachable from the roots are finitely many (they lie in `keys`), a run,
      cancelled or not, has a number of steps bounded by the sizes of the problem and three
      for each spurious wake-up. */
  lemma RunsEnd(find: Oracle, targets: seq<string>, jobs: nat, steps: seq<Step>, s: State, keys: set<string>)
    requires targets != [] && Run(Init(targets, jobs), steps, s) && Obeys(find, Init(targets, jobs), steps)
    requires Closed(find, targets, keys)
    ensures |steps| <= Bound(5 * |keys| + 5 * |targets| + jobs, jobs) + 3 * Spurious(steps)
  {
    StartMeasured(find, targets, jobs, steps, s, keys);
    InitBound(targets, jobs, keys);
  }

  lemma RootsWithin(find: Oracle, targets: seq<string>, jobs: nat, keys: set<string>)
    requires Closed(find, targets, keys)
    ensures Init(targets, jobs).scheduled <= keys
  {
    forall key | key in Keys(Roots(targets)) ensures key in keys {
      var it :| it in Roots(targets) && Lower(it.target) == key;
      var k :| 0 <= k < |targets| && Roots(targets)[k] == it;
    }
  }

  lemma InitMeasured(targets: seq<string>, jobs: nat, keys: set<string>)
    ensures |Init(targets, jobs).workers| == jobs
    ensures ItemMeasure(Init(targets, jobs), keys) <= 5 * |keys| + 5 * |targets| + jobs
    ensures Sum(LoopWeight, Init(targets, jobs).workers) <= 4 * jobs
  {
    var s0 := Init(targets, jobs);
    LoopBound(s0);
    SumBound(ItemWeight, s0.workers, 1);
    SubsetCount(keys, s0.scheduled);
  }

  lemma SubsetCount(keys: set<string>, some: set<string>)
    ensures |keys - some| <= |keys|
  {
    assert keys == (keys - some) + (keys * some);
  }

  lemma Scaled(a: nat, b: nat, c: nat)
    requires a <= b
    ensures a * c <= b * c
  {
    assert b * c == a * c + (b - a) * c;
  }
}

/** From every state the pool can reach, it can still come to its end, and without waking
    anyone for no reason. */
module PoolProgress {
  import opened Text
  import opened WorkerPool
  import opened PoolSafety
  import opened PoolResults
  import opened PoolTermination

  /** What is discovered is reported in lower case. */
  ghost predicate LowerCased(find: Oracle, keys: set<string>) {
    forall k, x :: k in keys && x in find(k) ==> Lower(x) == x
  }

  /** A set of lower-cased names, as a generation may list them. */
  lemma {:induction false} Listed(names: set<string>) returns (list: seq<string>)
    requires forall x :: x in names ==> Lower(x) == x
    ensures KeysOf(list) == names
  {
    if names == {} {
      list := [];
    } else {
      var x :| x in names;
      var rest := Listed(names - {x});
      list := [x] + rest;
      KeysOfCons(x, rest);
    }
  }

  /** A step that a worker can take now, which adds no signal and discovers what it must. */
  lemma StepOf(find: Oracle, s: State, i: nat, roots: nat, keys: set<string>) returns (step: Step)
    requires Tracked(find, s, roots) && HeldScheduled(s) && s.scheduled <= keys && LowerCased(find, keys)
    requires i < |s.workers| && Runnable(s, i)
    ensures Enabled(s, step) && ObeysStep(find, s, step) && step.event != SpuriousWake
    ensures Next(s, step).cancel == s.cancel
  {
    match s.workers[i].phase
    case Top => step := Step(i, Poll(false));
    case CancelSeen => step := Step(i, NotifyCancel);
    case Enter => step := Step(i, Take);
    case Deciding => step := Step(i, Block);
    case Working(item) =>
      var list := Listed(find(Lower(item.target)));
      step := Step(i, Regenerate(Result(true, list), false));
    case Checked(_, _, _) => step := Step(i, Finish);
    case Released(_, _) => step := Step(i, Account);
    case Owes => step := Step(i, Notify);
    case Leaving => step := Step(i, Merge);
  }

  /** A continuation of `s` to `t` in which every worker is done: obeying the discoveries,
      without spurious wake-ups, and cancelled only if `s` was. */
  ghost predicate Finishes(find: Oracle, s: State, more: seq<Step>, t: State) {
    && Run(s, more, t) && Obeys(find, s, more) && Spurious(more) == 0
    && AllDone(t) && t.cancel == s.cancel
  }

  lemma FinishesCons(find: Oracle, s: State, step: Step, more: seq<Step>, t: State)
    requires Enabled(s, step) && ObeysStep(find, s, step) && step.event != SpuriousWake
    requires Next(s, step).cancel == s.cancel && Finishes(find, Next(s, step), more, t)
    ensures Finishes(find, s, [step] + more, t)
  {
    assert ([step] + more)[1..] == more && ([step] + more)[0] == step;
  }

  lemma {:induction false} CanFinish(find: Oracle, s: State, targets: seq<string>, keys: set<string>)
      returns (more: seq<Step>, t: State)
    requires Tracked(find, s, |targets|) && Closed(find, targets, keys) && s.scheduled <= keys && LowerCased(find, keys)
    ensures Finishes(find, s, more, t) && |more| <= Measure(s, keys)
    decreases Measure(s, keys)
  {
    if AllDone(s) {
      more, t := [], s;
    } else {
      SomebodyRuns(s);
      var i :| 0 <= i < |s.workers| && Runnable(s, i);
      HeldFromLog(s, |targets|);
      var step := StepOf(find, s, i, |targets|, keys);
      NextTracked(find, s, step, |targets|);
      NextWithin(find, s, step, targets, keys);
      StepMeasured(s, step, keys);
      more, t := CanFinish(find, Next(s, step), targets, keys);
      FinishesCons(find, s, step, more, t);
      more := [step] + more;
    }
  }

  /** From every state of every run, cancelled or not, some continuation leads to the end of all
      workers. It needs no spurious wake-up, adds no cancellation, and with what went before it
      keeps within the bound of any run. */
  lemma EveryRunCanFinish(find: Oracle, targets: seq<string>, jobs: nat, steps: seq<Step>, s: State, keys: set<string>)
    requires targets != [] && Run(Init(targets, jobs), steps, s) && Obeys(find, Init(targets, jobs), steps)
    requires Closed(find, targets, keys) && LowerCased(find, keys)
    ensures exists more, t ::
      && Finishes(find, s, more, t)
      && |steps| + |more| <= Bound(5 * |keys| + 5 * |targets| + jobs, jobs) + 3 * Spurious(steps)
  {
    var s0 := Init(targets, jobs);
    InitTracked(find, targets, jobs);
    RootsWithin(find, targets, jobs, keys);
    RunTracked(find, s0, steps, s, |targets|);
    RunWithin(find, s0, steps, s, targets, keys);
    RunSpends(find, s0, steps, s, targets, keys);
    InitBound(targets, jobs, keys);
    var more, t := CanFinish(find, s, targets, keys);
  }

  /** What a run leaves to be done. */
  lemma {:induction false} RunSpends(find: Oracle, s: State, steps: seq<Step>, t: State, targets: seq<string>,
      keys: set<string>)
    requires Tracked(find, s, |targets|) && Run(s, steps, t) && Obeys(find, s, steps)
    requires Closed(find, targets, keys) && s.scheduled <= keys
    ensures Measure(t, keys) + |steps| <= Measure(s, keys) + 3 * Spurious(steps)
    decreases steps
  {
    if steps != [] {
      NextTracked(find, s, steps[0], |targets|);
      HeldFromLog(s, |targets|);
      NextWithin(find, s, steps[0], targets, keys);
      StepMeasured(s, steps[0], keys);
      RunSpends(find, Next(s, steps[0]), steps[1..], t, targets, keys);
    }
  }

  /** An uncancelled run to the end exists, for any number of jobs. */
  lemma CompletionExists(find: Oracle, targets: seq<string>, jobs: nat, keys: set<string>)
    requires targets != [] && jobs > 0 && Closed(find, targets, keys) && LowerCased(find, keys)
    ensures exists steps, s :: Completed(find, targets, jobs, steps, s)
  {
    var s0 := Init(targets, jobs);
    assert Run(s0, [], s0) && Obeys(find, s0, []);
    EveryRunCanFinish(find, targets, jobs, [], s0, keys);
    var more, t :| Finishes(find, s0, more, t);
    assert Completed(find, targets, jobs, more, t);
  }
}

/** The shared variables of the worker pool as an object, with the critical sections of the
    worker loop as methods. Each is proved to do what the step relation says. */
module WorkQueue {
  import opened Text
  import opened WorkerPool
  import opened PoolResults

  /** What the first critical section decides. */
  datatype Outcome = Leave | Wait | Got(item: Item)

  class CompletionQueue {
    var pending: seq<Item>
    var scheduled: set<string>
    var active: int
    var complete: bool
    var cancel: bool

    /** The object holds the shared variables of `s`. */
    ghost predicate Shows(s: State)
      reads this
    {
      s.pending == pending && s.scheduled == scheduled && s.active == active && s.complete == complete
          && s.cancel == cancel
    }

    constructor (targets: seq<string>)
      ensures forall jobs: nat :: Shows(Init(targets, jobs))
    {
      pending, scheduled, active, complete, cancel := [], {}, 0, false, false;
      new;
      for k := 0 to |targets|
        invariant pending == Roots(targets[..k]) && scheduled == KeysOf(targets[..k])
        invariant active == 0 && !complete && !cancel
      {
        var target := targets[k];
        pending := pending + [Item(target, true)];
        scheduled := scheduled + {Lower(target)};
        assert targets[..k + 1] == targets[..k] + [target];
        KeysOfSnoc(targets[..k], target);
      }
      assert targets[..|targets|] == targets;
      RootKeys(targets);
    }

    /** `check_for_interrupt`, with what the environment has to say about signals. */
    method CheckForInterrupt(signal: bool) returns (interrupted: bool)
      modifies this`cancel
      ensures interrupted == cancel == (old(cancel) || signal)
    {
      if cancel { return true; }
      if signal {
        cancel := true;
        return true;
      }
      return cancel;
    }

    /** Wait predicate and pop. */
    method TryTake(ghost s: State, ghost i: nat) returns (outcome: Outcome)
      requires Shows(s) && i < |s.workers|
      modifies this
      ensures Shows(TakeItem(s, i))
      ensures outcome == match TakeItem(s, i).workers[i].phase
                         case Leaving => Leave
                         case Working(item) => Got(item)
                         case _ => Wait
    {
      if !(cancel || complete || pending != []) { return Wait; }
      if cancel || complete { return Leave; }
      outcome := Got(pending[0]);
      pending := pending[1..];
      active := active + 1;
    }

    /** The discovered targets that are not scheduled yet join the queue. */
    method Schedule(discovered: seq<string>) returns (added: nat)
      modifies this`pending, this`scheduled
      ensures pending == old(pending) + Branches(Fresh(old(scheduled), discovered))
      ensures scheduled == old(scheduled) + Keys(Branches(Fresh(old(scheduled), discovered)))
      ensures added == |Fresh(old(scheduled), discovered)|
    {
      added := 0;
      ghost var before, known := pending, scheduled;
      for k := 0 to |discovered|
        invariant pending == before + Branches(Fresh(known, discovered[..k]))
        invariant scheduled == known + KeysOf(Fresh(known, discovered[..k]))
        invariant added == |Fresh(known, discovered[..k])|
      {
        var target := discovered[k];
        assert discovered[..k + 1] == discovered[..k] + [target];
        FreshSnoc(known, discovered[..k], target);
        var key := Lower(target);
        if key !in scheduled {
          KeysOfSnoc(Fresh(known, discovered[..k]), target);
          scheduled := scheduled + {key};
          pending := pending + [Item(target, false)];
          added := added + 1;
        }
      }
      assert discovered[..|discovered|] == discovered;
      BranchKeys(Fresh(known, discovered));
    }

    /** Schedule what was discovered, give the item back, notice completion. */
    method FinishWork(result: Result, interrupted: bool, ghost s: State, ghost i: nat) returns (added: nat)
      requires Shows(s) && i < |s.workers| && s.workers[i].phase.Checked?
      requires s.workers[i].phase.result == result && s.workers[i].phase.interrupted == interrupted
      modifies this
      ensures Shows(FinishItem(s, i))
      ensures added == |Added(s, i)|
    {
      added := 0;
      if !interrupted && !cancel {
        added := Schedule(result.discovered);
      }
      active := active - 1;
      if pending == [] && active == 0 { complete := true; }
    }
  }

  lemma KeysOfSnoc(targets: seq<string>, target: string)
    ensures KeysOf(targets + [target]) == KeysOf(targets) + {Lower(target)}
  {
    forall x ensures x in KeysOf(targets + [target]) <==> x in KeysOf(targets) + {Lower(target)} {
      if x == Lower(target) { assert target in targets + [target]; }
      if x in KeysOf(targets) {
        var t :| t in targets && Lower(t) == x;
        assert t in targets + [target];
      }
    }
  }

  lemma RootKeys(targets: seq<string>)
    ensures Keys(Roots(targets)) == KeysOf(targets)
  {
    var items := Roots(targets);
    forall x | x in KeysOf(targets) ensures x in Keys(items) {
      var t :| t in targets && Lower(t) == x;
      var k :| 0 <= k < |targets| && targets[k] == t;
      assert items[k] in items;
    }
  }

  /** A name met twice in one discovery, or already scheduled, is skipped. */
  lemma {:induction false} FreshSnoc(known: set<string>, discovered: seq<string>, target: string)
    ensures Fresh(known, discovered + [target])
         == Fresh(known, discovered)
          + if Lower(target) in known + KeysOf(Fresh(known, discovered)) then [] else [target]
    decreases discovered
  {
    if discovered == [] {
      assert [] + [target] == [target];
    } else {
      var d := discovered[0];
      var rest := discovered[1..];
      assert (discovered + [target])[1..] == rest + [target];
      if Lower(d) in known {
        FreshSnoc(known, rest, target);
      } else {
        FreshSnoc(known + {Lower(d)}, rest, target);
        KeysOfCons(d, Fresh(known + {Lower(d)}, rest));
      }
    }
  }
}

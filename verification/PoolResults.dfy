/** What an uncancelled run computes, whatever the interleaving. */
module PoolResults {
  import opened Text
  import opened WorkerPool
  import opened PoolSafety

  // ---------------------------------------------------------------- conservation

  /** The item a worker has taken and not yet accounted for. */
  function Held(w: Worker): multiset<Item> {
    if HoldsItem(w) then multiset{w.phase.item} else multiset{}
  }

  function LocalFailures(w: Worker): multiset<string> {
    multiset(w.failures)
  }

  function ItemsOf(reports: seq<Report>): (r: multiset<Item>) {
    if reports == [] then multiset{} else ItemsOf(reports[..|reports| - 1]) + multiset{reports[|reports| - 1].item}
  }

  /** Roots reported as generated. */
  function Successes(reports: seq<Report>): nat {
    if reports == [] then 0
    else
      var last := reports[|reports| - 1];
      Successes(reports[..|reports| - 1]) + if last.item.isRoot && last.generated then 1 else 0
  }

  /** Roots reported as not generated. */
  function Missing(reports: seq<Report>): multiset<string> {
    if reports == [] then multiset{}
    else
      var last := reports[|reports| - 1];
      Missing(reports[..|reports| - 1])
      + if last.item.isRoot && !last.generated then multiset{last.item.target} else multiset{}
  }

  /** The queue is what is left of the log of enqueued items; what was popped is in some
      worker's hands or reported, each item exactly once. */
  ghost predicate Conserved(s: State) {
    && s.enqueued == s.taken + s.pending
    && multiset(s.taken) == Total(Held, s.workers) + ItemsOf(s.reported)
  }

  ghost predicate Accounted(s: State) {
    && s.success == Successes(s.reported)
    && multiset(s.failures) + Total(LocalFailures, s.workers) == Missing(s.reported)
  }

  /** The reported items without a generated completion, roots and others alike. */
  function Ungenerated(reports: seq<Report>): nat {
    if reports == [] then 0
    else Ungenerated(reports[..|reports| - 1]) + if reports[|reports| - 1].generated then 0 else 1
  }

  /** The reported items that were discovered. */
  function Discovered(reports: seq<Report>): nat {
    if reports == [] then 0
    else Discovered(reports[..|reports| - 1]) + if reports[|reports| - 1].item.isRoot then 0 else 1
  }

  lemma CountsSnoc(reports: seq<Report>, r: Report)
    ensures Ungenerated(reports + [r]) == Ungenerated(reports) + if r.generated then 0 else 1
    ensures Discovered(reports + [r]) == Discovered(reports) + if r.item.isRoot then 0 else 1
  {
    assert (reports + [r])[..|reports|] == reports;
  }

  /** The four counters of the display are those of the logs, so its clamp never bites. */
  ghost predicate Displayed(s: State) {
    && s.display.total == |s.enqueued|
    && s.display.completed == |s.reported|
    && s.display.missing == Ungenerated(s.reported)
    && s.display.subcommands == Discovered(s.reported)
  }

  ghost predicate Flowing(s: State) {
    Conserved(s) && Accounted(s) && Displayed(s)
  }

  lemma InitFlowing(targets: seq<string>, jobs: nat)
    ensures Flowing(Init(targets, jobs))
  {
    var s := Init(targets, jobs);
    TotalNone(Held, s.workers);
    TotalNone(LocalFailures, s.workers);
    assert s.enqueued == [] + s.pending;
  }

  lemma ItemsSnoc(reports: seq<Report>, r: Report)
    ensures ItemsOf(reports + [r]) == ItemsOf(reports) + multiset{r.item}
    ensures Successes(reports + [r]) == Successes(reports) + if r.item.isRoot && r.generated then 1 else 0
    ensures Missing(reports + [r])
         == Missing(reports) + if r.item.isRoot && !r.generated then multiset{r.item.target} else multiset{}
  {
    assert (reports + [r])[..|reports|] == reports;
  }

  lemma {:induction false} ItemsCardinality(reports: seq<Report>)
    ensures |ItemsOf(reports)| == |reports|
  {
    if reports != [] { ItemsCardinality(reports[..|reports| - 1]); }
  }

  /** How a sum over the workers moves; `f` must not tell a sleeper from one just woken. */
  lemma WorkersMove<T>(f: Worker -> multiset<T>, s: State, step: Step)
    requires Enabled(s, step)
    requires forall w: Worker :: f(Woken(w)) == f(w)
    ensures step.who < |Next(s, step).workers|
    ensures f(s.workers[step.who]) <= Total(f, s.workers)
    ensures Total(f, Next(s, step).workers)
         == Total(f, s.workers) - f(s.workers[step.who]) + f(Next(s, step).workers[step.who])
  {
    var i := step.who;
    var ws := Next(s, step).workers;
    var moved := s.workers[i := ws[i]];
    TotalUpdate(f, s.workers, i, ws[i]);
    forall k | 0 <= k < |ws| ensures f(moved[k]) == f(ws[k]) {
      if k != i {
        OthersKeepPhase(s, step, k);
        assert ws[k] == s.workers[k] || ws[k] == Woken(s.workers[k]);
      }
    }
    TotalSame(f, moved, ws);
  }

  lemma SameTotal<T>(f: Worker -> multiset<T>, s: State, step: Step)
    requires Enabled(s, step)
    requires forall w: Worker :: f(Woken(w)) == f(w)
    requires step.who < |Next(s, step).workers| && f(Next(s, step).workers[step.who]) == f(s.workers[step.who])
    ensures Total(f, Next(s, step).workers) == Total(f, s.workers)
  {
    WorkersMove(f, s, step);
    Restored(Total(f, s.workers), f(s.workers[step.who]));
  }

  lemma HeldMoves(s: State, step: Step)
    requires Enabled(s, step)
    ensures step.who < |Next(s, step).workers|
    ensures Held(s.workers[step.who]) <= Total(Held, s.workers)
    ensures Total(Held, Next(s, step).workers)
         == Total(Held, s.workers) - Held(s.workers[step.who]) + Held(Next(s, step).workers[step.who])
  {
    WorkersMove(Held, s, step);
  }

  lemma FailuresMove(s: State, step: Step)
    requires Enabled(s, step)
    ensures step.who < |Next(s, step).workers|
    ensures LocalFailures(s.workers[step.who]) <= Total(LocalFailures, s.workers)
    ensures Total(LocalFailures, Next(s, step).workers)
         == Total(LocalFailures, s.workers) - LocalFailures(s.workers[step.who])
          + LocalFailures(Next(s, step).workers[step.who])
  {
    WorkersMove(LocalFailures, s, step);
  }

  lemma Restored<T>(m: multiset<T>, h: multiset<T>)
    requires h <= m
    ensures (m - h) + h == m
  {
  }

  lemma HeldKept(s: State, step: Step)
    requires Enabled(s, step) && !step.event.Account? && Next(s, step).taken == s.taken
    ensures step.who < |Next(s, step).workers|
    ensures Held(Next(s, step).workers[step.who]) == Held(s.workers[step.who])
  {
  }

  lemma ReportedKept(s: State, step: Step)
    requires Enabled(s, step) && !step.event.Account?
    ensures Next(s, step).reported == s.reported && Next(s, step).success == s.success
  {
  }

  lemma FailuresKept(s: State, step: Step)
    requires Enabled(s, step) && !step.event.Account? && !step.event.Merge?
    ensures Next(s, step).failures == s.failures
    ensures step.who < |Next(s, step).workers|
    ensures Next(s, step).workers[step.who].failures == s.workers[step.who].failures
  {
  }

  lemma QueueKept(s: State, step: Step)
    requires Enabled(s, step) && !step.event.Take? && !step.event.Finish?
    ensures Next(s, step).pending == s.pending && Next(s, step).taken == s.taken && Next(s, step).enqueued == s.enqueued
  {
  }

  /** Only `Take` and `Account` change what is in the workers' hands. */
  lemma HeldFrame(s: State, step: Step)
    requires Enabled(s, step) && !step.event.Account? && Next(s, step).taken == s.taken
    ensures Next(s, step).reported == s.reported
    ensures Total(Held, Next(s, step).workers) == Total(Held, s.workers)
  {
    HeldKept(s, step);
    ReportedKept(s, step);
    SameTotal(Held, s, step);
  }

  lemma TakeMoves(s: State, step: Step)
    requires Enabled(s, step) && Next(s, step).taken != s.taken
    ensures step.event.Take? && s.pending != []
    ensures Next(s, step).taken == s.taken + [s.pending[0]] && Next(s, step).pending == s.pending[1..]
    ensures Next(s, step).enqueued == s.enqueued && Next(s, step).reported == s.reported
    ensures Total(Held, Next(s, step).workers) == Total(Held, s.workers) + multiset{s.pending[0]}
  {
    HeldMoves(s, step);
  }

  lemma AccountMoves(s: State, step: Step)
    requires Enabled(s, step) && step.event.Account?
    ensures Next(s, step).taken == s.taken && Next(s, step).pending == s.pending && Next(s, step).enqueued == s.enqueued
    ensures Total(Held, Next(s, step).workers) + ItemsOf(Next(s, step).reported)
        == Total(Held, s.workers) + ItemsOf(s.reported)
  {
    HeldMoves(s, step);
    var t := Next(s, step);
    var it := s.workers[step.who].phase.item;
    ItemsSnoc(s.reported, t.reported[|s.reported|]);
    assert t.reported == s.reported + [t.reported[|s.reported|]];
    Restored(Total(Held, s.workers), multiset{it});
  }

  lemma LogsMatch(s: State, step: Step)
    requires s.enqueued == s.taken + s.pending && Enabled(s, step)
    ensures Next(s, step).enqueued == Next(s, step).taken + Next(s, step).pending
  {
    if step.event.Finish? {
      var added := Added(s, step.who);
      assert (s.taken + s.pending) + added == s.taken + (s.pending + added);
    } else if step.event.Take? {
      TakeLogs(s, step);
    } else {
      QueueKept(s, step);
    }
  }

  lemma TakeLogs(s: State, step: Step)
    requires Enabled(s, step) && step.event.Take?
    ensures Next(s, step).enqueued == s.enqueued
    ensures Next(s, step).taken + Next(s, step).pending == s.taken + s.pending
  {
    if s.pending != [] {
      assert (s.taken + [s.pending[0]]) + s.pending[1..] == s.taken + s.pending;
    }
  }

  lemma NextConserved(s: State, step: Step)
    requires Conserved(s) && Enabled(s, step)
    ensures Conserved(Next(s, step))
  {
    LogsMatch(s, step);
    if step.event.Account? { AccountMoves(s, step); }
    else if Next(s, step).taken != s.taken { TakeMoves(s, step); }
    else { HeldFrame(s, step); }
  }

  lemma FailuresFrame(s: State, step: Step)
    requires Enabled(s, step) && !step.event.Account? && !step.event.Merge?
    ensures Next(s, step).success == s.success && Next(s, step).failures == s.failures
        && Next(s, step).reported == s.reported
    ensures Total(LocalFailures, Next(s, step).workers) == Total(LocalFailures, s.workers)
  {
    FailuresKept(s, step);
    ReportedKept(s, step);
    SameTotal(LocalFailures, s, step);
  }

  lemma AccountFields(s: State, step: Step)
    requires Enabled(s, step) && step.event.Account?
    ensures var Released(item, generated) := s.workers[step.who].phase;
      var t := Next(s, step);
      && t.reported == s.reported + [Report(item, generated)]
      && t.success == s.success + (if item.isRoot && generated then 1 else 0)
      && t.failures == s.failures
      && step.who < |t.workers|
      && t.workers[step.who].failures
         == s.workers[step.who].failures + if item.isRoot && !generated then [item.target] else []
  {
  }

  lemma Balance<T>(kept: multiset<T>, m: multiset<T>, h: multiset<T>, x: multiset<T>, all: multiset<T>)
    requires kept + m == all && h <= m
    ensures kept + (m - h + (h + x)) == all + x
  {
    Restored(m, h);
    assert m - h + (h + x) == ((m - h) + h) + x;
    assert kept + (m + x) == (kept + m) + x;
  }

  lemma AccountFailures(s: State, step: Step, x: seq<string>)
    requires Enabled(s, step) && step.event.Account?
    requires step.who < |Next(s, step).workers|
        && Next(s, step).workers[step.who].failures == s.workers[step.who].failures + x
    ensures multiset(s.workers[step.who].failures) <= Total(LocalFailures, s.workers)
    ensures Total(LocalFailures, Next(s, step).workers)
         == Total(LocalFailures, s.workers) - multiset(s.workers[step.who].failures)
          + (multiset(s.workers[step.who].failures) + multiset(x))
  {
    FailuresMove(s, step);
  }

  lemma AccountAccounted(s: State, step: Step)
    requires Accounted(s) && Enabled(s, step) && step.event.Account?
    ensures Accounted(Next(s, step))
  {
    var Released(item, generated) := s.workers[step.who].phase;
    var x := if item.isRoot && !generated then [item.target] else [];
    AccountFields(s, step);
    AccountFailures(s, step, x);
    ItemsSnoc(s.reported, Report(item, generated));
    Balance(multiset(s.failures), Total(LocalFailures, s.workers), multiset(s.workers[step.who].failures),
        multiset(x), Missing(s.reported));
    assert multiset(x) == if item.isRoot && !generated then multiset{item.target} else multiset{};
  }

  lemma MergeAccounted(s: State, step: Step)
    requires Accounted(s) && Enabled(s, step) && step.event.Merge?
    ensures Accounted(Next(s, step))
  {
    FailuresMove(s, step);
    Restored(Total(LocalFailures, s.workers), LocalFailures(s.workers[step.who]));
  }

  lemma NextAccounted(s: State, step: Step)
    requires Accounted(s) && Enabled(s, step)
    ensures Accounted(Next(s, step))
  {
    if step.event.Account? { AccountAccounted(s, step); }
    else if step.event.Merge? { MergeAccounted(s, step); }
    else { FailuresFrame(s, step); }
  }

  /** A reported item was counted before. */
  lemma ReportedIsCounted(s: State, i: nat)
    requires Conserved(s) && Displayed(s) && i < |s.workers| && s.workers[i].phase.Released?
    ensures s.display.completed < s.display.total
  {
    TotalUpdate(Held, s.workers, i, s.workers[i]);
    ItemsCardinality(s.reported);
    assert |multiset(s.taken)| == |s.taken|;
    assert |Total(Held, s.workers)| >= 1 by {
      assert s.workers[i].phase.item in Total(Held, s.workers);
    }
  }

  lemma FinishDisplayed(s: State, step: Step)
    requires Displayed(s) && Enabled(s, step) && step.event.Finish?
    ensures Displayed(Next(s, step))
  {
  }

  lemma AccountDisplayed(s: State, step: Step)
    requires Displayed(s) && Enabled(s, step) && step.event.Account? && s.display.completed < s.display.total
    ensures Displayed(Next(s, step))
  {
    var phase := s.workers[step.who].phase;
    CountsSnoc(s.reported, Report(phase.item, phase.generated));
  }

  lemma DisplayFrame(s: State, step: Step)
    requires Displayed(s) && Enabled(s, step) && !step.event.Finish? && !step.event.Account?
    ensures Displayed(Next(s, step))
  {
  }

  lemma NextDisplayed(s: State, step: Step)
    requires Conserved(s) && Displayed(s) && Enabled(s, step)
    ensures Displayed(Next(s, step))
  {
    if step.event.Account? {
      ReportedIsCounted(s, step.who);
      AccountDisplayed(s, step);
    } else if step.event.Finish? {
      FinishDisplayed(s, step);
    } else {
      DisplayFrame(s, step);
    }
  }

  lemma NextFlowing(s: State, step: Step)
    requires Flowing(s) && Enabled(s, step)
    ensures Flowing(Next(s, step))
  {
    NextConserved(s, step);
    NextAccounted(s, step);
    NextDisplayed(s, step);
  }

  lemma {:induction false} RunFlowing(s: State, steps: seq<Step>, t: State)
    requires Flowing(s) && Run(s, steps, t)
    ensures Flowing(t)
    decreases steps
  {
    if steps != [] {
      NextFlowing(s, steps[0]);
      RunFlowing(Next(s, steps[0]), steps[1..], t);
    }
  }

  /** In no run is the clamp of `report_result` needed: every report counts. */
  lemma ClampNeverBites(targets: seq<string>, jobs: nat, steps: seq<Step>, s: State, i: nat)
    requires Run(Init(targets, jobs), steps, s) && Enabled(s, Step(i, Account))
    ensures s.display.completed < s.display.total
    ensures Next(s, Step(i, Account)).display.completed == s.display.completed + 1
  {
    InitFlowing(targets, jobs);
    RunFlowing(Init(targets, jobs), steps, s);
    ReportedIsCounted(s, i);
  }

  // ---------------------------------------------------------------- which keys are processed

  /** What discovery finds for a lower-cased name: a set of lower-cased names. */
  type Oracle = string -> set<string>

  function KeysOf(targets: seq<string>): (r: set<string>)
    ensures forall k :: 0 <= k < |targets| ==> Lower(targets[k]) in r
  {
    set t | t in targets :: Lower(t)
  }

  /** Every generation in the run discovers what `find` says for the lower-cased name; whether
      a target was generated, and how its branches are spelled, is free. */
  ghost predicate Obeys(find: Oracle, s: State, steps: seq<Step>)
    decreases steps
  {
    steps != [] && Enabled(s, steps[0]) ==>
      && ObeysStep(find, s, steps[0])
      && Obeys(find, Next(s, steps[0]), steps[1..])
  }

  ghost predicate ObeysStep(find: Oracle, s: State, step: Step)
    requires Enabled(s, step)
  {
    step.event.Regenerate? ==>
      KeysOf(step.event.result.discovered) == find(Lower(s.workers[step.who].phase.item.target))
  }

  ghost predicate Closed(find: Oracle, targets: seq<string>, keys: set<string>) {
    && (forall k :: 0 <= k < |targets| ==> Lower(targets[k]) in keys)
    && (forall k :: k in keys ==> find(k) <= keys)
  }

  /** After the roots, the log holds no key twice and no root's key. */
  ghost predicate OnceEach(s: State, roots: nat) {
    && roots <= |s.enqueued|
    && (forall k :: 0 <= k < |s.enqueued| ==> (s.enqueued[k].isRoot <==> k < roots))
    && s.scheduled == Keys(s.enqueued)
    && forall j, k :: 0 <= j < k < |s.enqueued| && roots <= k ==>
        Lower(s.enqueued[j].target) != Lower(s.enqueued[k].target)
  }

  function Explored(s: State): set<string> {
    set r | r in s.reported :: Lower(r.item.target)
  }

  /** While nothing is cancelled, what a finished item discovers is scheduled. */
  ghost predicate Followed(find: Oracle, s: State) {
    && (forall i :: 0 <= i < |s.workers| && s.workers[i].phase.Checked? ==>
          KeysOf(s.workers[i].phase.result.discovered) == find(Lower(s.workers[i].phase.item.target)))
    && (!s.cancel ==> forall i :: 0 <= i < |s.workers| && s.workers[i].phase.Released? ==>
          find(Lower(s.workers[i].phase.item.target)) <= s.scheduled)
    && (!s.cancel ==> forall k :: 0 <= k < |s.reported| ==> find(Lower(s.reported[k].item.target)) <= s.scheduled)
  }

  lemma {:induction false} FreshKeys(scheduled: set<string>, discovered: seq<string>)
    ensures var f := Fresh(scheduled, discovered);
            && scheduled + KeysOf(f) == scheduled + KeysOf(discovered)
            && (forall k :: 0 <= k < |f| ==> Lower(f[k]) !in scheduled)
            && (forall j, k :: 0 <= j < k < |f| ==> Lower(f[j]) != Lower(f[k]))
    decreases discovered
  {
    if discovered != [] {
      var d := discovered[0];
      assert discovered == [d] + discovered[1..];
      KeysOfCons(d, discovered[1..]);
      if Lower(d) in scheduled {
        FreshKeys(scheduled, discovered[1..]);
      } else {
        FreshKeys(scheduled + {Lower(d)}, discovered[1..]);
        KeysOfCons(d, Fresh(scheduled + {Lower(d)}, discovered[1..]));
      }
    }
  }

  lemma KeysOfCons(d: string, rest: seq<string>)
    ensures KeysOf([d] + rest) == {Lower(d)} + KeysOf(rest)
  {
    forall x ensures x in KeysOf([d] + rest) <==> x in {Lower(d)} + KeysOf(rest) {
      if x == Lower(d) { assert d in [d] + rest; }
      if x in KeysOf(rest) {
        var t :| t in rest && Lower(t) == x;
        assert t in [d] + rest;
      }
    }
  }

  lemma BranchKeys(targets: seq<string>)
    ensures Keys(Branches(targets)) == KeysOf(targets)
  {
    var items := Branches(targets);
    forall x | x in KeysOf(targets) ensures x in Keys(items) {
      var t :| t in targets && Lower(t) == x;
      var k :| 0 <= k < |targets| && targets[k] == t;
      assert items[k] in items;
    }
  }

  lemma KeysAppend(a: seq<Item>, b: seq<Item>)
    ensures Keys(a + b) == Keys(a) + Keys(b)
  {
    forall x | x in Keys(a) + Keys(b) ensures x in Keys(a + b) {
      var it :| (it in a || it in b) && Lower(it.target) == x;
      assert it in a + b;
    }
  }

  lemma NextOnceEach(s: State, step: Step, roots: nat)
    requires OnceEach(s, roots) && Enabled(s, step)
    ensures OnceEach(Next(s, step), roots)
  {
    if step.event.Finish? {
      var t := Next(s, step);
      var added := t.enqueued[|s.enqueued|..];
      if added != [] {
        var news := Fresh(s.scheduled, s.workers[step.who].phase.result.discovered);
        FreshKeys(s.scheduled, s.workers[step.who].phase.result.discovered);
        assert added == Branches(news);
        KeysAppend(s.enqueued, added);
        forall j, k | 0 <= j < k < |t.enqueued| && roots <= k
          ensures Lower(t.enqueued[j].target) != Lower(t.enqueued[k].target)
        {
          if |s.enqueued| <= k && j < |s.enqueued| {
            assert Lower(s.enqueued[j].target) in s.scheduled;
          }
        }
      } else {
        assert t.enqueued == s.enqueued;
        assert Keys([]) == {};
      }
    }
  }

  lemma FinishFollowed(find: Oracle, s: State, step: Step)
    requires Followed(find, s) && Synchronized(s) && Enabled(s, step) && step.event.Finish?
    ensures Followed(find, Next(s, step))
  {
    var t := Next(s, step);
    var phase := s.workers[step.who].phase;
    if !s.cancel {
      assert !phase.interrupted by { assert SawCancel(s.workers[step.who]) ==> s.cancel; }
      FreshKeys(s.scheduled, phase.result.discovered);
      BranchKeys(Fresh(s.scheduled, phase.result.discovered));
      assert find(Lower(phase.item.target)) <= t.scheduled;
    }
    assert s.scheduled <= t.scheduled;
  }

  lemma AccountFollowed(find: Oracle, s: State, step: Step)
    requires Followed(find, s) && Enabled(s, step) && step.event.Account?
    ensures Followed(find, Next(s, step))
  {
  }

  lemma RegenerateFollowed(find: Oracle, s: State, step: Step)
    requires Followed(find, s) && Enabled(s, step) && step.event.Regenerate? && ObeysStep(find, s, step)
    ensures Followed(find, Next(s, step))
  {
  }

  lemma FollowedFrame(find: Oracle, s: State, step: Step)
    requires Followed(find, s) && Enabled(s, step)
    requires !step.event.Finish? && !step.event.Account? && !step.event.Regenerate?
    ensures Followed(find, Next(s, step))
  {
  }

  lemma NextFollowed(find: Oracle, s: State, step: Step)
    requires Followed(find, s) && Synchronized(s) && Enabled(s, step) && ObeysStep(find, s, step)
    ensures Followed(find, Next(s, step))
  {
    if step.event.Finish? { FinishFollowed(find, s, step); }
    else if step.event.Account? { AccountFollowed(find, s, step); }
    else if step.event.Regenerate? { RegenerateFollowed(find, s, step); }
    else { FollowedFrame(find, s, step); }
  }

  /** `scheduled` stays inside every set closed under discovery that holds the roots. */
  lemma NextWithin(find: Oracle, s: State, step: Step, targets: seq<string>, keys: set<string>)
    requires Closed(find, targets, keys) && s.scheduled <= keys && HeldScheduled(s)
    requires Followed(find, s) && Enabled(s, step)
    ensures Next(s, step).scheduled <= keys
  {
    if step.event.Finish? {
      var phase := s.workers[step.who].phase;
      FreshKeys(s.scheduled, phase.result.discovered);
      BranchKeys(Fresh(s.scheduled, phase.result.discovered));
      assert Lower(phase.item.target) in s.scheduled;
    }
  }

  predicate HoldsItem(w: Worker) {
    w.phase.Working? || w.phase.Checked? || w.phase.Released?
  }

  /** Items in some worker's hands come from the log. */
  ghost predicate HeldScheduled(s: State) {
    forall i :: 0 <= i < |s.workers| && HoldsItem(s.workers[i]) ==>
      Lower(s.workers[i].phase.item.target) in s.scheduled
  }

  lemma PoppedScheduled(s: State, roots: nat, it: Item)
    requires Conserved(s) && OnceEach(s, roots)
    requires it in Total(Held, s.workers) || it in ItemsOf(s.reported)
    ensures Lower(it.target) in s.scheduled
  {
    assert it in multiset(s.taken);
    assert it in s.taken;
    assert it in s.enqueued;
  }

  lemma HeldFromLog(s: State, roots: nat)
    requires Conserved(s) && OnceEach(s, roots)
    ensures HeldScheduled(s)
  {
    forall i | 0 <= i < |s.workers| && Held(s.workers[i]) != multiset{}
      ensures Lower(s.workers[i].phase.item.target) in s.scheduled
    {
      TotalUpdate(Held, s.workers, i, s.workers[i]);
      assert s.workers[i].phase.item in Held(s.workers[i]);
      PoppedScheduled(s, roots, s.workers[i].phase.item);
    }
    forall i | 0 <= i < |s.workers| && HoldsItem(s.workers[i])
      ensures Lower(s.workers[i].phase.item.target) in s.scheduled
    {
      assert s.workers[i].phase.item in Held(s.workers[i]);
    }
  }

  lemma {:induction false} ReportedItem(reports: seq<Report>, k: nat)
    requires k < |reports|
    ensures reports[k].item in ItemsOf(reports)
  {
    if k < |reports| - 1 { ReportedItem(reports[..|reports| - 1], k); }
  }

  lemma {:induction false} ItemReported(reports: seq<Report>, it: Item)
    requires it in ItemsOf(reports)
    ensures exists k :: 0 <= k < |reports| && reports[k].item == it
  {
    var n := |reports| - 1;
    if reports[n].item != it {
      ItemReported(reports[..n], it);
      var k :| 0 <= k < n && reports[..n][k].item == it;
      assert reports[k].item == it;
    }
  }

  ghost predicate Tracked(find: Oracle, s: State, roots: nat) {
    Synchronized(s) && Flowing(s) && OnceEach(s, roots) && Followed(find, s)
  }

  lemma InitTracked(find: Oracle, targets: seq<string>, jobs: nat)
    requires targets != []
    ensures Tracked(find, Init(targets, jobs), |targets|)
  {
    InitSynchronized(targets, jobs);
    InitFlowing(targets, jobs);
  }

  lemma NextTracked(find: Oracle, s: State, step: Step, roots: nat)
    requires Tracked(find, s, roots) && Enabled(s, step) && ObeysStep(find, s, step)
    ensures Tracked(find, Next(s, step), roots)
  {
    NextSynchronized(s, step);
    NextFlowing(s, step);
    NextOnceEach(s, step, roots);
    NextFollowed(find, s, step);
  }

  lemma LogGrows(s: State, step: Step)
    requires Enabled(s, step)
    ensures s.enqueued <= Next(s, step).enqueued
  {
  }

  lemma {:induction false} RunTracked(find: Oracle, s: State, steps: seq<Step>, t: State, roots: nat)
    requires Tracked(find, s, roots) && Run(s, steps, t) && Obeys(find, s, steps)
    ensures Tracked(find, t, roots)
    ensures s.enqueued <= t.enqueued
    decreases steps
  {
    if steps != [] {
      NextTracked(find, s, steps[0], roots);
      LogGrows(s, steps[0]);
      RunTracked(find, Next(s, steps[0]), steps[1..], t, roots);
    }
  }

  lemma {:induction false} RunWithin(find: Oracle, s: State, steps: seq<Step>, t: State, targets: seq<string>,
      keys: set<string>)
    requires Tracked(find, s, |targets|) && Run(s, steps, t) && Obeys(find, s, steps)
    requires Closed(find, targets, keys) && s.scheduled <= keys
    ensures t.scheduled <= keys
    decreases steps
  {
    if steps != [] {
      NextTracked(find, s, steps[0], |targets|);
      HeldFromLog(s, |targets|);
      NextWithin(find, s, steps[0], targets, keys);
      RunWithin(find, Next(s, steps[0]), steps[1..], t, targets, keys);
    }
  }

  // ---------------------------------------------------------------- the end of an uncancelled run

  function RootItems(reports: seq<Report>): multiset<Item> {
    if reports == [] then multiset{}
    else
      var last := reports[|reports| - 1].item;
      RootItems(reports[..|reports| - 1]) + if last.isRoot then multiset{last} else multiset{}
  }

  lemma {:induction false} RootItemsCounted(reports: seq<Report>)
    ensures |RootItems(reports)| == Successes(reports) + |Missing(reports)|
    ensures RootItems(reports) <= ItemsOf(reports)
    ensures forall it :: it in RootItems(reports) ==> it.isRoot
    ensures forall it: Item :: it.isRoot ==> RootItems(reports)[it] == ItemsOf(reports)[it]
  {
    if reports != [] { RootItemsCounted(reports[..|reports| - 1]); }
  }

  /** The reported roots are those at the front of the log. */
  lemma RootsReported(reports: seq<Report>, roots: seq<Item>, branches: seq<Item>)
    requires ItemsOf(reports) == multiset(roots) + multiset(branches)
    requires (forall k :: 0 <= k < |roots| ==> roots[k].isRoot)
        && (forall k :: 0 <= k < |branches| ==> !branches[k].isRoot)
    ensures Successes(reports) + |Missing(reports)| == |roots|
  {
    RootItemsCounted(reports);
    var r := RootItems(reports);
    forall it: Item ensures r[it] == multiset(roots)[it] {
      if it.isRoot {
        assert it !in branches;
        assert multiset(branches)[it] == 0;
        assert r[it] == ItemsOf(reports)[it];
      } else {
        assert it !in roots;
        assert it !in r;
      }
    }
    assert r == multiset(roots);
    assert |multiset(roots)| == |roots|;
  }

  lemma Finished(find: Oracle, s: State, roots: nat)
    requires Tracked(find, s, roots) && AllDone(s) && |s.workers| > 0 && !s.cancel
    ensures s.complete && s.pending == []
    ensures Total(Held, s.workers) == multiset{}
    ensures ItemsOf(s.reported) == multiset(s.enqueued)
  {
    assert s.workers[0].phase == Done && Left(s.workers[0]);
    TotalNone(Held, s.workers);
    assert s.enqueued == s.taken + [];
    assert s.enqueued == s.taken;
  }

  /** A worker that is done has handed over its failures. */
  ghost predicate Emptied(s: State) {
    forall i :: 0 <= i < |s.workers| && s.workers[i].phase == Done ==> s.workers[i].failures == []
  }

  lemma {:induction false} RunEmptied(s: State, steps: seq<Step>, t: State)
    requires Emptied(s) && Run(s, steps, t)
    ensures Emptied(t)
    decreases steps
  {
    if steps != [] {
      var u := Next(s, steps[0]);
      forall k | 0 <= k < |u.workers| && u.workers[k].phase == Done ensures u.workers[k].failures == [] {
        if k != steps[0].who { OthersKeepPhase(s, steps[0], k); }
      }
      RunEmptied(u, steps[1..], t);
    }
  }

  lemma ScheduledExplored(find: Oracle, s: State, roots: nat, key: string)
    requires Tracked(find, s, roots) && ItemsOf(s.reported) == multiset(s.enqueued) && key in s.scheduled
    ensures key in Explored(s)
  {
    var it :| it in s.enqueued && Lower(it.target) == key;
    assert it in multiset(s.enqueued);
    ItemReported(s.reported, it);
    var k :| 0 <= k < |s.reported| && s.reported[k].item == it;
    assert s.reported[k] in s.reported;
  }

  lemma ExploredScheduled(find: Oracle, s: State, roots: nat, key: string)
    requires Tracked(find, s, roots) && ItemsOf(s.reported) == multiset(s.enqueued) && key in Explored(s)
    ensures key in s.scheduled
  {
    var r :| r in s.reported && Lower(r.item.target) == key;
    var k :| 0 <= k < |s.reported| && s.reported[k] == r;
    ReportedItem(s.reported, k);
    assert r.item in multiset(s.enqueued);
    assert r.item in s.enqueued;
  }

  lemma ReportedEverything(find: Oracle, s: State, roots: nat)
    requires Tracked(find, s, roots) && ItemsOf(s.reported) == multiset(s.enqueued) && !s.cancel
    ensures Explored(s) == s.scheduled
    ensures forall k :: k in s.scheduled ==> find(k) <= s.scheduled
  {
    forall key ensures key in Explored(s) <==> key in s.scheduled {
      if key in s.scheduled { ScheduledExplored(find, s, roots, key); }
      if key in Explored(s) { ExploredScheduled(find, s, roots, key); }
    }
    forall key | key in s.scheduled ensures find(key) <= s.scheduled {
      assert key in Explored(s);
    }
  }

  /** The command ended with all workers done and no cancellation. */
  ghost predicate Completed(find: Oracle, targets: seq<string>, jobs: nat, steps: seq<Step>, s: State) {
    && targets != [] && jobs > 0
    && Run(Init(targets, jobs), steps, s) && Obeys(find, Init(targets, jobs), steps)
    && AllDone(s) && !s.cancel
  }

  lemma {:induction false} RunKeepsWorkers(s: State, steps: seq<Step>, t: State)
    requires Run(s, steps, t)
    ensures |t.workers| == |s.workers|
    decreases steps
  {
    if steps != [] { RunKeepsWorkers(Next(s, steps[0]), steps[1..], t); }
  }

  /** An uncancelled run explores exactly the least set of lower-cased names that holds the
      roots and is closed under discovery. */
  lemma ExploresLeastClosure(find: Oracle, targets: seq<string>, jobs: nat, steps: seq<Step>, s: State)
    requires Completed(find, targets, jobs, steps, s)
    ensures Closed(find, targets, Explored(s))
    ensures forall keys :: Closed(find, targets, keys) ==> Explored(s) <= keys
  {
    var s0 := Init(targets, jobs);
    InitTracked(find, targets, jobs);
    RunTracked(find, s0, steps, s, |targets|);
    RunKeepsWorkers(s0, steps, s);
    Finished(find, s, |targets|);
    ReportedEverything(find, s, |targets|);
    forall k | 0 <= k < |targets| ensures Lower(targets[k]) in s.scheduled {
      assert s.enqueued[k] == Roots(targets)[k];
      assert s.enqueued[k] in s.enqueued;
    }
    forall keys | Closed(find, targets, keys) ensures s.scheduled <= keys {
      forall key | key in s0.scheduled ensures key in keys {
        var it :| it in Roots(targets) && Lower(it.target) == key;
        var k :| 0 <= k < |targets| && Roots(targets)[k] == it;
      }
      RunWithin(find, s0, steps, s, targets, keys);
    }
  }

  /** The set of names explored does not depend on the interleaving or the number of jobs. */
  lemma ExplorationIsDeterministic(find: Oracle, targets: seq<string>, jobs: nat, jobs': nat, steps: seq<Step>,
      steps': seq<Step>, s: State, s': State)
    requires Completed(find, targets, jobs, steps, s) && Completed(find, targets, jobs', steps', s')
    ensures Explored(s) == Explored(s')
  {
    ExploresLeastClosure(find, targets, jobs, steps, s);
    ExploresLeastClosure(find, targets, jobs', steps', s');
  }

  /** Nothing is lost and nothing is done twice: every root is reported once for each time
      it was given, and every other reported item has a name of its own. */
  lemma EachOnce(find: Oracle, targets: seq<string>, jobs: nat, steps: seq<Step>, s: State)
    requires Completed(find, targets, jobs, steps, s)
    ensures ItemsOf(s.reported) == multiset(s.enqueued)
    ensures |targets| <= |s.enqueued| && s.enqueued[..|targets|] == Roots(targets)
    ensures forall k :: |targets| <= k < |s.enqueued| ==> !s.enqueued[k].isRoot
    ensures forall j, k :: 0 <= j < k < |s.enqueued| && |targets| <= k ==>
        Lower(s.enqueued[j].target) != Lower(s.enqueued[k].target)
    ensures s.display.completed == s.display.total == |s.enqueued|
  {
    var s0 := Init(targets, jobs);
    InitTracked(find, targets, jobs);
    RunTracked(find, s0, steps, s, |targets|);
    RunKeepsWorkers(s0, steps, s);
    Finished(find, s, |targets|);
    assert s.enqueued[..|targets|] == s0.enqueued;
    ItemsCardinality(s.reported);
  }

  lemma CompletedFacts(find: Oracle, targets: seq<string>, jobs: nat, steps: seq<Step>, s: State)
    requires Completed(find, targets, jobs, steps, s)
    ensures Accounted(s) && Displayed(s) && OnceEach(s, |targets|)
    ensures Total(LocalFailures, s.workers) == multiset{}
    ensures ItemsOf(s.reported) == multiset(s.enqueued)
  {
    var s0 := Init(targets, jobs);
    InitTracked(find, targets, jobs);
    RunTracked(find, s0, steps, s, |targets|);
    RunKeepsWorkers(s0, steps, s);
    Finished(find, s, |targets|);
    RunEmptied(s0, steps, s);
    TotalNone(LocalFailures, s.workers);
  }

  lemma RootsAddUp(s: State, roots: nat)
    requires OnceEach(s, roots) && ItemsOf(s.reported) == multiset(s.enqueued)
    ensures Successes(s.reported) + |Missing(s.reported)| == roots
  {
    var first, others := s.enqueued[..roots], s.enqueued[roots..];
    assert s.enqueued == first + others;
    assert multiset(s.enqueued) == multiset(first) + multiset(others);
    RootsReported(s.reported, first, others);
  }

  /** A report is one of a discovered item, of a generated root or of a missing root. */
  lemma {:induction false} ReportsSplit(reports: seq<Report>)
    ensures Discovered(reports) + Successes(reports) + |Missing(reports)| == |reports|
  {
    if reports != [] { ReportsSplit(reports[..|reports| - 1]); }
  }

  lemma NoneLeft(failures: seq<string>)
    ensures failures == [] <==> multiset(failures) == multiset{}
    ensures |multiset(failures)| == |failures|
  {
  }

  /** Successes and failures add up to the roots; the failures are exactly the roots that
      were not generated; the exit status is 0 exactly when there is none. */
  lemma ResultsAddUp(find: Oracle, targets: seq<string>, jobs: nat, steps: seq<Step>, s: State)
    requires Completed(find, targets, jobs, steps, s)
    ensures s.success + |s.failures| == |targets|
    ensures multiset(s.failures) == Missing(s.reported)
    ensures ExitStatus(s, false) == 0
        <==> forall k :: 0 <= k < |s.reported| && s.reported[k].item.isRoot ==> s.reported[k].generated
    ensures ExitStatus(s, false) != 0 <==> ExitStatus(s, false) == 1
    ensures s.display.completed == s.display.subcommands + |targets|
  {
    CompletedFacts(find, targets, jobs, steps, s);
    ReportsSplit(s.reported);
    RootsAddUp(s, |targets|);
    NoneLeft(s.failures);
    NothingMissing(s.reported);
  }

  lemma {:induction false} NothingMissing(reports: seq<Report>)
    ensures Missing(reports) == multiset{}
        <==> forall k :: 0 <= k < |reports| && reports[k].item.isRoot ==> reports[k].generated
  {
    if reports != [] {
      var n := |reports| - 1;
      NothingMissing(reports[..n]);
      if reports[n].item.isRoot && !reports[n].generated {
        assert reports[n].item.target in Missing(reports);
      }
    }
  }
}

/** The counters and the bar of `GenerateCompletionsProgressDisplay`. */
module Progress {
  import opened Arithmetic

  datatype Counters = Counters(total: nat, completed: nat, missing: nat, subcommands: nat) {

    /** `add_targets` on a live display. */
    function Add(count: nat): Counters {
      this.(total := total + count)
    }

    /** `report_result` on a live display; `completed` is clamped at `total`. */
    function Report(generated: bool, isRoot: bool): Counters {
      Counters(total,
               if completed < total then completed + 1 else completed,
               if generated then missing else missing + 1,
               if isRoot then subcommands else subcommands + 1)
    }
  }

  /** How many of `width` cells are filled. */
  function Filled(c: Counters, width: nat): nat {
    var completed := Min(c.completed, c.total);
    var share := if c.total == 0 then width else completed * width / c.total;
    if completed >= c.total then width else if completed > 0 && share == 0 then 1 else share
  }

  lemma ShareBounds(completed: nat, total: nat, width: nat)
    requires completed < total
    ensures completed * width / total <= width
    ensures completed * width <= total * width
  {
    assert completed * width <= total * width by { MulMonotone(completed, total, width); }
    DivBound(completed * width, total, width);
  }

  lemma {:induction false} MulMonotone(a: nat, b: nat, w: nat)
    requires a <= b
    ensures a * w <= b * w
  {
    assert b * w == a * w + (b - a) * w;
  }

  lemma MulCancels(a: nat, b: nat, d: nat)
    requires a * d < b * d
    ensures a < b
  {
    if b <= a { MulMonotone(b, a, d); }
  }

  lemma DivMonotone(x: nat, y: nat, d: nat)
    requires d > 0 && x <= y
    ensures x / d <= y / d
  {
    var p, q := x / d, y / d;
    assert p * d <= x;
    assert y < (q + 1) * d;
    MulCancels(p, q + 1, d);
  }

  lemma DivBound(x: nat, d: nat, w: nat)
    requires d > 0 && x <= d * w
    ensures x / d <= w
  {
    var p := x / d;
    assert p * d <= x;
    assert (w + 1) * d == d * w + d;
    MulCancels(p, w + 1, d);
  }

  /** The bar never overflows its width, so `width - filled` does not wrap around; it is
      full when everything is done, empty when nothing is, and grows with progress. */
  lemma BarFits(c: Counters, width: nat)
    requires width > 0
    ensures Filled(c, width) <= width
    ensures c.completed >= c.total ==> Filled(c, width) == width
    ensures c.completed < c.total ==> (Filled(c, width) == 0 <==> c.completed == 0)
  {
    if c.completed < c.total {
      ShareBounds(c.completed, c.total, width);
      if c.completed == 0 { assert 0 * width == 0; }
    }
  }

  lemma BarGrows(c: Counters, width: nat)
    requires width > 0
    ensures Filled(c, width) <= Filled(c.(completed := c.completed + 1), width)
  {
    BarFits(c, width);
    BarFits(c.(completed := c.completed + 1), width);
    if c.completed + 1 < c.total {
      MulMonotone(c.completed, c.completed + 1, width);
      DivMonotone(c.completed * width, (c.completed + 1) * width, c.total);
    }
  }

  lemma DivSpan(x: nat, d: nat, q: nat)
    requires d > 0 && q == x / d
    ensures q * d <= x < (q + 1) * d
  {
  }

  lemma WholeCells(x: nat, d: nat, q: nat)
    requires q * d <= x < (q + 1) * d
    ensures q == 0 <==> x < d
  {
    if q == 0 { assert (0 + 1) * d == d; } else { MulMonotone(1, q, d); }
  }

  lemma FilledIs(c: Counters, width: nat, x: nat, q: nat)
    requires 0 < c.completed < c.total && x == c.completed * width && q == x / c.total
    ensures Filled(c, width) == if q == 0 then 1 else q
  {
  }

  /** In between, it is as many cells as go whole into the share that is done, and at least one. */
  lemma BarIsShare(c: Counters, width: nat, done: nat)
    requires 0 < c.completed < c.total && done == c.completed * width
    ensures var f := Filled(c, width);
      if done < c.total then f == 1 else f * c.total <= done < (f + 1) * c.total
  {
    var q := done / c.total;
    DivSpan(done, c.total, q);
    WholeCells(done, c.total, q);
    FilledIs(c, width, done, q);
  }

  function BarText(filled: nat, width: nat): (r: string)
    requires filled <= width
    ensures |r| == width
  {
    seq(filled, i => '#') + seq(width - filled, i => '-')
  }

  class GenerateCompletionsProgressDisplay {
    var total: nat
    var completed: nat
    var missing: nat
    var subcommandCount: nat
    var lastTarget: string
    var lastTargetIsRoot: bool
    var enabled: bool
    var finished: bool

    function Tally(): Counters
      reads this
    {
      Counters(total, completed, missing, subcommandCount)
    }

    /** `usable` is the answer of the terminal queries of the constructor. */
    constructor (requested: bool, total: nat, usable: bool)
      ensures Tally() == Counters(total, 0, 0, 0)
      ensures enabled <==> requested && total > 0 && usable
      ensures !finished && lastTarget == "" && lastTargetIsRoot
    {
      this.total, this.completed, this.missing, this.subcommandCount := total, 0, 0, 0;
      this.lastTarget, this.lastTargetIsRoot := "", true;
      this.enabled := requested && total > 0 && usable;
      this.finished := false;
    }

    method AddTargets(count: nat)
      modifies this
      ensures Tally() == if old(enabled) && !old(finished) then old(Tally()).Add(count) else old(Tally())
      ensures enabled == old(enabled) && finished == old(finished)
      ensures lastTarget == old(lastTarget) && lastTargetIsRoot == old(lastTargetIsRoot)
    {
      if !enabled || count == 0 { return; }
      if finished { return; }
      total := total + count;
    }

    method ReportResult(targetName: string, generated: bool, isRootTarget: bool)
      modifies this
      ensures Tally() == if old(enabled) && !old(finished)
                         then old(Tally()).Report(generated, isRootTarget) else old(Tally())
      ensures enabled == old(enabled) && finished == old(finished)
      ensures if old(enabled) && !old(finished)
              then lastTarget == targetName && lastTargetIsRoot == isRootTarget
              else lastTarget == old(lastTarget) && lastTargetIsRoot == old(lastTargetIsRoot)
      ensures completed == if old(enabled) && !old(finished) && old(completed) < old(total) then old(completed) + 1
                           else old(completed)
    {
      if !enabled { return; }
      if finished { return; }
      lastTarget := targetName;
      lastTargetIsRoot := isRootTarget;
      if completed < total { completed := completed + 1; }
      if !generated { missing := missing + 1; }
      if !isRootTarget { subcommandCount := subcommandCount + 1; }
    }

    method Finish()
      modifies this`finished
      ensures finished == (old(finished) || enabled)
    {
      if !enabled { return; }
      if finished { return; }
      finished := true;
    }

    method BuildBar(width: nat) returns (bar: string)
      ensures width == 0 ==> bar == ""
      ensures width > 0 ==> Filled(Tally(), width) <= width && bar == BarText(Filled(Tally(), width), width)
      ensures forall k :: 0 <= k < |bar| ==> bar[k] == if k < Filled(Tally(), width) then '#' else '-'
    {
      if width == 0 { return ""; }
      BarFits(Tally(), width);
      var done := Min(completed, total);
      var filled := if total == 0 then width else (done * width) / total;
      if done > 0 && filled == 0 { filled := 1; }
      if done >= total { filled := width; }
      assert filled == Filled(Tally(), width);
      bar := BarText(filled, width);
    }
  }
}

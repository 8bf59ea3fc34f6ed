/** What `printf` prints, operand by operand: the output of a format without positions, described
    on the whole operand list, with neither a cursor nor passes over what is left of the list. */
module PrintfOutput {
  import opened Sequences
  import opened PrintfFormat
  import opened PrintfRebuild
  import opened PrintfReuse
  import opened PrintfCommand
  import opened Arithmetic

  /** What was printed, and whether the format turned out to be unusable after that. */
  datatype Output = Output(printed: Printed, failed: bool)

  /** The size that operand `n` gives; a missing operand counts as 0. */
  function SizeFrom(size: Size, numerals: Numerals, operands: seq<string>, n: nat): int {
    if size.FromOperand? && n < |operands| then numerals.integer(operands[n]) else 0
  }

  /** The operand is not a number for this letter: it is not empty, does not stand for the character
      behind its quote, and the C library does not read all of it. */
  predicate Refused(numerals: Numerals, letter: char, operand: string) {
    numerals.rejects(letter, operand) && operand != "" && (|operand| == 1 || (operand[0] != '"' && operand[0] != '\''))
  }

  predicate Misread(numerals: Numerals, letter: char, operand: string) {
    letter in "diouxXaAeEfFgG" && Refused(numerals, letter, operand)
  }

  predicate BadSizeAt(size: Size, numerals: Numerals, operands: seq<string>, n: nat) {
    size.FromOperand? && n < |operands| && Refused(numerals, 'd', operands[n])
  }

  /** A conversion with its sizes and its operand. All negative precisions are the same. */
  function ConversionOutput(width: Size, precision: Size, directive: string, numerals: Numerals, w: int, p: int,
      badSize: bool, present: bool, operand: string): Output
  {
    if w > 1_000_000 || -w > 1_000_000 || p > 1_000_000 then Output(NOTHING, true)
    else
      var format := Rebuilt(directive, if width.FromOperand? then Given(w) else Absent,
        if !precision.FromOperand? then Absent else if p < 0 then Given(-1) else Given(p));
      var badValue := present && Misread(numerals, Letter(directive), operand);
      Output(Printed([Formatted(format, present, operand)], false, badSize || badValue), false)
  }

  function EscapedOutput(operands: seq<string>, n: nat): Output {
    Output(if n < |operands| then EscapedText(operands[n], 0) else NOTHING, false)
  }

  function QuotedOutput(operands: seq<string>, n: nat): Output {
    Output(Plainly(if n < |operands| then [Quoted(operands[n])] else []), false)
  }

  /** A conversion takes its width, its precision and its value from the operands that follow. */
  function ConvertedOutput(width: Size, precision: Size, directive: string, numerals: Numerals,
      operands: seq<string>, n: nat): Output
  {
    var afterWidth := if width.FromOperand? then n + 1 else n;
    var value := if precision.FromOperand? then afterWidth + 1 else afterWidth;
    ConversionOutput(width, precision, directive, numerals, SizeFrom(width, numerals, operands, n),
      SizeFrom(precision, numerals, operands, afterWidth),
      BadSizeAt(width, numerals, operands, n) || BadSizeAt(precision, numerals, operands, afterWidth),
      value < |operands|, if value < |operands| then operands[value] else "")
  }

  /** What an item prints when `n` operands were used up before it. */
  function ItemOutput(item: Item, numerals: Numerals, operands: seq<string>, n: nat): Output {
    match item
    case Malformed => Output(NOTHING, true)
    case Plain(printed) => Output(printed, false)
    case EscapedOperand(_) => EscapedOutput(operands, n)
    case QuotedOperand(_) => QuotedOutput(operands, n)
    case Conversion(_, width, precision, directive) =>
      ConvertedOutput(width, precision, directive, numerals, operands, n)
  }

  function Followed(o: Output, rest: Output): Output {
    Output(After(o.printed, rest.printed), rest.failed)
  }

  predicate GoesOnAfter(o: Output) {
    !o.failed && !o.printed.stopped
  }

  /** What each item prints when so many operands were used up before it. */
  type Outputs = (Item, nat) -> Output

  function OutputsOf(numerals: Numerals, operands: seq<string>): Outputs {
    (item: Item, n: nat) => ItemOutput(item, numerals, operands, n)
  }

  /** The items of a format from position `i` on, up to the first malformed one. */
  function ItemsFrom(f: string, i: nat): seq<Item>
    decreases |f| - i
  {
    if C(f, i) == NUL then []
    else
      ItemInside(f, i);
      var p := ItemAt(f, i);
      if p.item.Malformed? then [p.item] else [p.item] + ItemsFrom(f, p.next)
  }

  /** What items print one after the other, when `n` operands were used up before. */
  function ItemsOutput(items: seq<Item>, out: Outputs, n: nat): Output {
    if items == [] then Output(NOTHING, false)
    else
      var o := out(items[0], n);
      if GoesOnAfter(o) then Followed(o, ItemsOutput(items[1..], out, n + SlotsOf(items[0]))) else o
  }

  /** What items with `k` slots print again and again, from operand `n` on, while some of the
      `count` operands are left. */
  function Repeated(items: seq<Item>, out: Outputs, k: nat, count: nat, n: nat): Output
    decreases count - n
  {
    var o := ItemsOutput(items, out, n);
    if GoesOnAfter(o) && k > 0 && n + k < count then Followed(o, Repeated(items, out, k, count, n + k)) else o
  }

  function WholeOutput(f: string, numerals: Numerals, operands: seq<string>): Output {
    Repeated(ItemsFrom(f, 0), OutputsOf(numerals, operands), SlotsFrom(f, 0), |operands|, 0)
  }

  // ---------------------------------------------------------------- one item

  lemma OperandOf(operands: seq<string>, base: nat, m: nat)
    requires base <= |operands|
    ensures OperandAt(operands[base..], m)
         == if base + m < |operands| then (true, operands[base + m]) else (false, "")
  {
  }

  lemma SizeFromOperand(numerals: Numerals, size: Size, operands: seq<string>, base: nat, m: nat, curr: int)
    requires base <= |operands| && (size.FromOperand? ==> curr == m)
    ensures SizeOf(numerals, size, operands[base..], curr) == SizeFrom(size, numerals, operands, base + m)
    ensures BadSizeOperand(numerals, size, operands[base..], curr) == BadSizeAt(size, numerals, operands, base + m)
  {
    OperandOf(operands, base, m);
  }

  lemma MisreadIs(numerals: Numerals, letter: char, operand: string)
    ensures IsNumeric(letter) && IsBad(numerals, letter, operand) <==> Misread(numerals, letter, operand)
  {
  }

  lemma ConversionIs(at: Where, width: Size, precision: Size, directive: string, numerals: Numerals,
      args: seq<string>, a: Cursor, w: int, p: int, badSize: bool, present: bool, operand: string)
    requires var forWidth := SizeTaken(ForWidth, width, Taken(ForDirective, at, a)).0;
      var forPrecision, b := SizeTaken(ForPrecision, precision, forWidth).0, ConversionTaken(at, width, precision, a).0;
      && SizeOf(numerals, width, args, forWidth.curr) == w
      && SizeOf(numerals, precision, args, forPrecision.curr) == p
      && badSize == (BadSizeOperand(numerals, width, args, forWidth.curr)
           || BadSizeOperand(numerals, precision, args, forPrecision.curr))
      && OperandAt(args, b.curr) == (present, operand)
    ensures var e := Done(Conversion(at, width, precision, directive), numerals, args, a);
      Output(e.printed, e.failed)
        == ConversionOutput(width, precision, directive, numerals, w, p, badSize, present, operand)
  {
    MisreadIs(numerals, Letter(directive), operand);
  }

  /** Where the cursor stands for each operand of a conversion. */
  lemma ConversionCursors(width: Size, precision: Size, a: Cursor)
    requires InStep(a)
    requires width.FromOperand? ==> width.at == NextOperand
    requires precision.FromOperand? ==> precision.at == NextOperand
    ensures var m := a.sequential + 1;
      var w := SizeTaken(ForWidth, width, Taken(ForDirective, NextOperand, a));
      var p := SizeTaken(ForPrecision, precision, w.0);
      var afterWidth := if width.FromOperand? then m + 1 else m;
      && (width.FromOperand? ==> w.0.curr == m)
      && (precision.FromOperand? ==> p.0.curr == afterWidth)
      && ConversionTaken(NextOperand, width, precision, a).0.curr
         == if precision.FromOperand? then afterWidth + 1 else afterWidth
  {
    DirectiveInStep(a);
    var a0 := a.(directive := -1);
    SizeInStep(ForWidth, width, a0);
    var w := SizeTaken(ForWidth, width, a0);
    SizeInStep(ForPrecision, precision, w.0);
    var p := SizeTaken(ForPrecision, precision, w.0);
    ValueInStep(p.0);
    OneCounted(w.1, a.sequential + 1);
    OneCounted(p.1, w.0.sequential + 1);
    OneCounted([Taken(ForValue, NextOperand, p.0).curr], p.0.sequential + 1);
  }

  lemma OneCounted(taken: seq<int>, m: int)
    ensures taken == CountingFrom(m, 1) ==> |taken| == 1 && taken[0] == m
  {
  }

  lemma ConversionValues(width: Size, precision: Size, numerals: Numerals, operands: seq<string>, base: nat, a: Cursor)
    requires base <= |operands| && InStep(a)
    requires width.FromOperand? ==> width.at == NextOperand
    requires precision.FromOperand? ==> precision.at == NextOperand
    ensures var args, n := operands[base..], base + a.sequential + 1;
      var w := SizeTaken(ForWidth, width, Taken(ForDirective, NextOperand, a)).0;
      var p, b := SizeTaken(ForPrecision, precision, w).0, ConversionTaken(NextOperand, width, precision, a).0;
      var afterWidth := if width.FromOperand? then n + 1 else n;
      var value := if precision.FromOperand? then afterWidth + 1 else afterWidth;
      && SizeOf(numerals, width, args, w.curr) == SizeFrom(width, numerals, operands, n)
      && SizeOf(numerals, precision, args, p.curr) == SizeFrom(precision, numerals, operands, afterWidth)
      && BadSizeOperand(numerals, width, args, w.curr) == BadSizeAt(width, numerals, operands, n)
      && BadSizeOperand(numerals, precision, args, p.curr) == BadSizeAt(precision, numerals, operands, afterWidth)
      && OperandAt(args, b.curr) == if value < |operands| then (true, operands[value]) else (false, "")
  {
    ConversionCursors(width, precision, a);
    var m := a.sequential + 1;
    var afterWidth := if width.FromOperand? then m + 1 else m;
    var w := SizeTaken(ForWidth, width, Taken(ForDirective, NextOperand, a)).0;
    var p := SizeTaken(ForPrecision, precision, w).0;
    SizeFromOperand(numerals, width, operands, base, m, w.curr);
    SizeFromOperand(numerals, precision, operands, base, afterWidth, p.curr);
    OperandOf(operands, base, if precision.FromOperand? then afterWidth + 1 else afterWidth);
  }

  lemma ConversionPrints(width: Size, precision: Size, directive: string, numerals: Numerals, args: seq<string>,
      a: Cursor, operands: seq<string>, base: nat, n: nat, e: Effect)
    requires InStep(a) && base <= |operands| && args == operands[base..] && n == base + a.sequential + 1
    requires e == Done(Conversion(NextOperand, width, precision, directive), numerals, args, a)
    requires width.FromOperand? ==> width.at == NextOperand
    requires precision.FromOperand? ==> precision.at == NextOperand
    ensures Output(e.printed, e.failed) == ConvertedOutput(width, precision, directive, numerals, operands, n)
  {
    var afterWidth := if width.FromOperand? then n + 1 else n;
    var value := if precision.FromOperand? then afterWidth + 1 else afterWidth;
    var w, p := SizeFrom(width, numerals, operands, n), SizeFrom(precision, numerals, operands, afterWidth);
    var badSize := BadSizeAt(width, numerals, operands, n) || BadSizeAt(precision, numerals, operands, afterWidth);
    var present, operand := value < |operands|, if value < |operands| then operands[value] else "";
    ConversionValues(width, precision, numerals, operands, base, a);
    ConversionIs(NextOperand, width, precision, directive, numerals, args, a, w, p, badSize, present, operand);
  }

  lemma OperandPrints(escaped: bool, numerals: Numerals, args: seq<string>, a: Cursor, operands: seq<string>,
      base: nat, n: nat)
    requires InStep(a) && base <= |operands| && args == operands[base..] && n == base + a.sequential + 1
    ensures var item := if escaped then EscapedOperand(NextOperand) else QuotedOperand(NextOperand);
      var e := Done(item, numerals, args, a);
      Output(e.printed, e.failed) == if escaped then EscapedOutput(operands, n) else QuotedOutput(operands, n)
  {
    DirectiveInStep(a);
    ValueInStep(a.(directive := -1));
    OneCounted([Taken(ForValue, NextOperand, a.(directive := -1)).curr], a.sequential + 1);
    OperandOf(operands, base, a.sequential + 1);
  }

  /** An item that starts in step prints what its output is. */
  lemma ItemPrints(item: Item, numerals: Numerals, args: seq<string>, a: Cursor, operands: seq<string>, base: nat,
      n: nat, e: Effect)
    requires IsSequential(item) && InStep(a) && base <= |operands| && args == operands[base..]
    requires n == base + a.sequential + 1 && e == Done(item, numerals, args, a)
    ensures Output(e.printed, e.failed) == ItemOutput(item, numerals, operands, n)
  {
    match item
    case Conversion(at, width, precision, directive) =>
      ConversionPrints(width, precision, directive, numerals, args, a, operands, base, n, e);
    case EscapedOperand(at) => OperandPrints(true, numerals, args, a, operands, base, n);
    case QuotedOperand(at) => OperandPrints(false, numerals, args, a, operands, base, n);
    case _ =>
  }

  // ---------------------------------------------------------------- one pass, and all of them

  /** What each item does with the operands of a pass. */
  type Doing = (Item, Cursor) -> Effect

  function DoingOf(numerals: Numerals, args: seq<string>): Doing {
    (item: Item, a: Cursor) => Done(item, numerals, args, a)
  }

  /** A pass over a list of items. */
  function ItemsPass(items: seq<Item>, does: Doing, a: Cursor): Pass {
    if items == [] then Pass(a, [], NOTHING, false)
    else
      var e := does(items[0], a);
      if e.failed || e.printed.stopped then Pass(e.cursor, e.taken, e.printed, e.failed)
      else
        var rest := ItemsPass(items[1..], does, e.cursor);
        rest.(taken := e.taken + rest.taken, printed := After(e.printed, rest.printed))
  }

  function OutputOf(p: Pass): Output {
    Output(p.printed, p.failed)
  }

  lemma {:induction false} PassOverItems(f: string, i: nat, numerals: Numerals, args: seq<string>, a: Cursor)
    ensures PassFrom(f, i, numerals, args, a) == ItemsPass(ItemsFrom(f, i), DoingOf(numerals, args), a)
    decreases |f| - i
  {
    if C(f, i) != NUL {
      ItemInside(f, i);
      var q := ItemAt(f, i);
      var e := Done(q.item, numerals, args, a);
      if !q.item.Malformed? {
        assert ([q.item] + ItemsFrom(f, q.next))[1..] == ItemsFrom(f, q.next);
        PassOverItems(f, q.next, numerals, args, e.cursor);
      }
    }
  }

  lemma {:induction false} ItemsSequential(f: string, i: nat)
    requires SequentialFrom(f, i)
    ensures forall k :: 0 <= k < |ItemsFrom(f, i)| ==> IsSequential(ItemsFrom(f, i)[k])
    decreases |f| - i
  {
    if C(f, i) != NUL {
      ItemInside(f, i);
      ItemsSequential(f, ItemAt(f, i).next);
    }
  }

  /** In step, what an item does is what its output says. */
  ghost predicate Agree(does: Doing, out: Outputs, base: nat) {
    forall item: Item, a: Cursor, n: nat :: IsSequential(item) && InStep(a) && n == base + a.sequential + 1 ==>
      var e := does(item, a);
      && Output(e.printed, e.failed) == out(item, n)
      && (!e.failed ==> InStep(e.cursor) && e.cursor.sequential == a.sequential + SlotsOf(item))
  }

  lemma DoneAgrees(numerals: Numerals, operands: seq<string>, base: nat)
    requires base <= |operands|
    ensures Agree(DoingOf(numerals, operands[base..]), OutputsOf(numerals, operands), base)
  {
    var args := operands[base..];
    forall item: Item, a: Cursor, n: nat | IsSequential(item) && InStep(a) && n == base + a.sequential + 1
      ensures var e := Done(item, numerals, args, a);
        && Output(e.printed, e.failed) == ItemOutput(item, numerals, operands, n)
        && (!e.failed ==> InStep(e.cursor) && e.cursor.sequential == a.sequential + SlotsOf(item))
    {
      ItemPrints(item, numerals, args, a, operands, base, n, Done(item, numerals, args, a));
      ItemInStep(item, numerals, args, a);
    }
  }

  lemma {:induction false} ItemsPrint(items: seq<Item>, does: Doing, out: Outputs, base: nat, a: Cursor, n: nat)
    requires Agree(does, out, base) && InStep(a) && n == base + a.sequential + 1
    requires forall k :: 0 <= k < |items| ==> IsSequential(items[k])
    ensures OutputOf(ItemsPass(items, does, a)) == ItemsOutput(items, out, n)
  {
    if items != [] {
      var e := does(items[0], a);
      assert IsSequential(items[0]) && Output(e.printed, e.failed) == out(items[0], n);
      if !e.failed { ItemsPrint(items[1..], does, out, base, e.cursor, n + SlotsOf(items[0])); }
    }
  }

  /** The pass that starts after `base` operands prints the format on the operands from there on. */
  lemma PassPrints(f: string, numerals: Numerals, operands: seq<string>, base: nat)
    requires base <= |operands| && SequentialFrom(f, 0)
    ensures OutputOf(PassOver(f, numerals, operands[base..]))
         == ItemsOutput(ItemsFrom(f, 0), OutputsOf(numerals, operands), base)
  {
    var does, out := DoingOf(numerals, operands[base..]), OutputsOf(numerals, operands);
    PassOverItems(f, 0, numerals, operands[base..], START);
    ItemsSequential(f, 0);
    DoneAgrees(numerals, operands, base);
    ItemsPrint(ItemsFrom(f, 0), does, out, base, START, base);
  }

  /** Everything that all passes printed. */
  function AllPrinted(ps: seq<Pass>): Output
    requires ps != []
  {
    if |ps| == 1 then OutputOf(ps[0]) else Followed(OutputOf(ps[0]), AllPrinted(ps[1..]))
  }

  predicate OnlyLastFails(ps: seq<Pass>) {
    forall k :: 0 <= k < |ps| - 1 ==> !ps[k].failed
  }

  lemma {:induction false} PrintedWritten(ps: seq<Pass>)
    requires ps != []
    ensures Written(ps) == AllPrinted(ps).printed.pieces
    ensures OnlyLastFails(ps) ==> (ExitStatus(ps) == 1 <==> AllPrinted(ps).failed || AllPrinted(ps).printed.error)
    decreases |ps|
  {
    Uncons(ps);
    WrittenCons(ps[0], ps[1..]);
    if |ps| > 1 { PrintedWritten(ps[1..]); } else { NoneBefore(ps[0].printed.pieces); }
  }

  /** One pass, and the passes after it on the operands from `base + k` on. */
  lemma PassesAfter(f: string, numerals: Numerals, operands: seq<string>, base: nat, k: nat)
    requires base <= |operands| && SequentialFrom(f, 0) && k == SlotsFrom(f, 0)
    ensures var p, ps := PassOver(f, numerals, operands[base..]), Passes(f, numerals, operands[base..]);
      if !GoesOnAfter(OutputOf(p)) || k == 0 || base + k >= |operands| then ps == [p]
      else ps == [p] + Passes(f, numerals, operands[base + k..])
  {
    var args := operands[base..];
    PassReadsSlots(f, numerals, args);
    PassesStep(f, numerals, args);
    if base + k <= |operands| { assert args[k..] == operands[base + k..]; }
  }

  /** Passes that print `o` first, and then perhaps more. */
  predicate IsRound(ps: seq<Pass>, o: Output, again: bool, more: seq<Pass>) {
    && ps != [] && OutputOf(ps[0]) == o
    && ps == if GoesOnAfter(o) && again then [ps[0]] + more else [ps[0]]
  }

  /** One round, when the rounds after it print what they should. */
  lemma RoundRepeats(ps: seq<Pass>, more: seq<Pass>, items: seq<Item>, out: Outputs, k: nat, count: nat, base: nat)
    requires IsRound(ps, ItemsOutput(items, out, base), k > 0 && base + k < count, more)
    requires k > 0 && base + k < count ==>
      more != [] && OnlyLastFails(more) && AllPrinted(more) == Repeated(items, out, k, count, base + k)
    ensures OnlyLastFails(ps) && AllPrinted(ps) == Repeated(items, out, k, count, base)
  {
    if GoesOnAfter(ItemsOutput(items, out, base)) && k > 0 && base + k < count {
      assert ([ps[0]] + more)[1..] == more;
    }
  }

  lemma PassesRound(f: string, numerals: Numerals, operands: seq<string>, base: nat, more: seq<Pass>)
    requires SequentialFrom(f, 0) && base <= |operands|
    requires base + SlotsFrom(f, 0) <= |operands| ==> more == Passes(f, numerals, operands[base + SlotsFrom(f, 0)..])
    ensures var k, o := SlotsFrom(f, 0), ItemsOutput(ItemsFrom(f, 0), OutputsOf(numerals, operands), base);
      IsRound(Passes(f, numerals, operands[base..]), o, k > 0 && base + k < |operands|, more)
  {
    PassPrints(f, numerals, operands, base);
    PassesAfter(f, numerals, operands, base, SlotsFrom(f, 0));
  }

  lemma {:induction false} PassesPrint(f: string, numerals: Numerals, operands: seq<string>, base: nat,
      items: seq<Item>, out: Outputs, k: nat, ps: seq<Pass>)
    requires base <= |operands| && SequentialFrom(f, 0)
    requires items == ItemsFrom(f, 0) && out == OutputsOf(numerals, operands) && k == SlotsFrom(f, 0)
    requires ps == Passes(f, numerals, operands[base..])
    ensures ps != [] && OnlyLastFails(ps) && AllPrinted(ps) == Repeated(items, out, k, |operands|, base)
    decreases |operands| - base
  {
    var more: seq<Pass> := [];
    if base + k <= |operands| {
      more := Passes(f, numerals, operands[base + k..]);
      if k > 0 { PassesPrint(f, numerals, operands, base + k, items, out, k, more); }
    }
    PassesRound(f, numerals, operands, base, more);
    RoundRepeats(ps, more, items, out, k, |operands|, base);
  }

  /** What `printf` writes for a format without positions, and its exit status: the format again
      and again, its slots filled with operand 0, 1, 2 and so on, each converted, unescaped,
      quoted or used as a size by the slot it falls to. */
  lemma OutputBySlots(f: string, numerals: Numerals, operands: seq<string>)
    requires SequentialFrom(f, 0)
    ensures var ps, o := Passes(f, numerals, operands), WholeOutput(f, numerals, operands);
      && Written(ps) == o.printed.pieces
      && (ExitStatus(ps) == 1 <==> o.failed || o.printed.error)
  {
    assert operands[0..] == operands;
    PassesPrint(f, numerals, operands, 0, ItemsFrom(f, 0), OutputsOf(numerals, operands), SlotsFrom(f, 0),
        Passes(f, numerals, operands));
    PrintedWritten(Passes(f, numerals, operands));
  }

  /** Pass `p` over a format with `k` slots prints the format on the operands from `p` times `k` on,
      unless a pass fails or stops the output. */
  lemma PassOnItsOperands(f: string, numerals: Numerals, operands: seq<string>, p: nat)
    requires SequentialFrom(f, 0) && SlotsFrom(f, 0) > 0 && AllComplete(Passes(f, numerals, operands))
    requires p < |Passes(f, numerals, operands)|
    ensures OutputOf(Passes(f, numerals, operands)[p])
         == ItemsOutput(ItemsFrom(f, 0), OutputsOf(numerals, operands), Times(p, SlotsFrom(f, 0)))
  {
    var ps, k := Passes(f, numerals, operands), SlotsFrom(f, 0);
    FormatReused(f, numerals, operands);
    assert WorksOn(ps, p, f, numerals, operands, k);
    PassPrints(f, numerals, operands, Times(p, k));
  }
}

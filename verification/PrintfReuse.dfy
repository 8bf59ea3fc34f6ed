/** The `printf` builtin: the operand cursor, one pass over the format, and its reuse until the
    operands are used up. */
module PrintfReuse {
  import opened Text
  import opened PrintfFormat
  import opened PrintfRebuild
  import opened Arithmetic

  // ---------------------------------------------------------------- the operand cursor

  /** `curr_arg`, `curr_s_arg`, `end_arg` and `direc_arg`. */
  datatype Cursor = Cursor(curr: int, sequential: int, end: int, directive: int)

  const START := Cursor(-1, -1, -1, -1)

  /** Where an operand is asked for. */
  datatype Role = ForDirective | ForWidth | ForPrecision | ForValue

  /** `get_curr_arg` after its `n$` has been read. */
  function Taken(role: Role, at: Where, a: Cursor): Cursor {
    var b :=
      if at.Operand? then (if role.ForDirective? then a.(directive := at.index) else a)
      else if role.ForDirective? then a.(directive := -1)
      else if !role.ForValue? || a.directive < 0 then a.(sequential := a.sequential + 1)
      else a;
    var arg :=
      if at.Operand? then at.index as int
      else if role.ForDirective? then -1
      else if !role.ForValue? || a.directive < 0 then b.sequential
      else a.directive;
    if arg >= 0 then b.(curr := arg, end := if arg > b.end then arg else b.end) else b
  }

  /** `get_curr_arg`. */
  method GetCurrArg(f: string, i: nat, role: Role, a: Cursor) returns (ok: bool, next: nat, b: Cursor)
    ensures var p := if role.ForValue? then Place(NextOperand, i) else PlaceAt(f, i);
      match p
      case BadPlace => !ok
      case Place(at, j) => ok && next == j && b == Taken(role, at, a)
  {
    b, next := a, i;
    var arg := 0;
    if !role.ForValue? && IsDigit(C(f, i)) {
      var end, value, overflow := ScanNumber(f, i, MAX_POSITIONAL_INDEX);
      if C(f, end) == '$' {
        if overflow || value <= 0 || value > MAX_POSITIONAL_INDEX { return false, next, b; }
        arg := value;
        next := end;
      }
    }
    if arg > 0 {
      arg := arg - 1;
      next := next + 1;
      if role.ForDirective? { b := b.(directive := arg); }
    } else if role.ForDirective? {
      b := b.(directive := -1);
      arg := -1;
    } else if !role.ForValue? || b.directive < 0 {
      b := b.(sequential := b.sequential + 1);
      arg := b.sequential;
    } else {
      arg := b.directive;
    }
    if arg >= 0 {
      b := b.(curr := arg);
      if arg > b.end { b := b.(end := arg); }
    }
    ok := true;
  }

  // ---------------------------------------------------------------- one item

  /** What an item did: the new cursor, the operand positions it read in order, what it printed,
      and whether the format turned out to be unusable there. */
  datatype Effect = Effect(cursor: Cursor, taken: seq<int>, printed: Printed, failed: bool)

  function OperandAt(args: seq<string>, k: int): (bool, string) {
    if 0 <= k < |args| then (true, args[k]) else (false, "")
  }

  /** The number parsers of the C library: the integer that an operand holds, and whether an
      operand is not wholly a number, or out of range, for a conversion letter. */
  datatype Numerals = Numerals(integer: string -> int, rejects: (char, string) -> bool)

  /** Whether parsing an operand as a number is an error. An empty operand is 0, and a quote with
      a character after it stands for the character. */
  predicate IsBad(numerals: Numerals, letter: char, operand: string) {
    && operand != "" && !(|operand| >= 2 && (operand[0] == '"' || operand[0] == '\''))
    && numerals.rejects(letter, operand)
  }

  predicate IsNumeric(letter: char) {
    letter in "diouxXaAeEfFgG"
  }

  /** Whether the operand of a conversion is a bad number. */
  predicate BadValue(numerals: Numerals, directive: string, operand: (bool, string)) {
    operand.0 && IsNumeric(Letter(directive)) && IsBad(numerals, Letter(directive), operand.1)
  }

  /** Whether the operand of a width or precision is a bad number. */
  predicate BadSizeOperand(numerals: Numerals, size: Size, args: seq<string>, k: int) {
    size.FromOperand? && OperandAt(args, k).0 && IsBad(numerals, 'd', OperandAt(args, k).1)
  }

  /** A width or precision taken from an operand. */
  function SizeOf(numerals: Numerals, size: Size, args: seq<string>, k: int): int {
    if size.FromOperand? && OperandAt(args, k).0 then numerals.integer(args[k]) else 0
  }

  function Magnitude(n: int): nat {
    if n < 0 then -n else n
  }

  /** The operands a width or a precision takes. */
  function SizeTaken(role: Role, size: Size, a: Cursor): (Cursor, seq<int>) {
    if size.FromOperand? then
      var b := Taken(role, size.at, a);
      (b, [b.curr])
    else (a, [])
  }

  /** The operands a conversion takes, in order. */
  function ConversionTaken(at: Where, width: Size, precision: Size, a: Cursor): (Cursor, seq<int>) {
    var w := SizeTaken(ForWidth, width, Taken(ForDirective, at, a));
    var p := SizeTaken(ForPrecision, precision, w.0);
    var b := Taken(ForValue, NextOperand, p.0);
    (b, w.1 + p.1 + [b.curr])
  }

  /** A converted operand; `bad` when its width or precision was. */
  function Converted(format: string, numerals: Numerals, directive: string, bad: bool, operand: (bool, string))
      : Printed
  {
    Printed([Formatted(format, operand.0, operand.1)], false, bad || BadValue(numerals, directive, operand))
  }

  function Done(item: Item, numerals: Numerals, args: seq<string>, a: Cursor): Effect {
    match item
    case Malformed => Effect(a, [], NOTHING, true)
    case Plain(printed) => Effect(a, [], printed, false)
    case EscapedOperand(at) =>
      var b := Taken(ForValue, NextOperand, Taken(ForDirective, at, a));
      Effect(b, [b.curr], EscapedText(OperandAt(args, b.curr).1, 0), false)
    case QuotedOperand(at) =>
      var b := Taken(ForValue, NextOperand, Taken(ForDirective, at, a));
      Effect(b, [b.curr], Plainly(if OperandAt(args, b.curr).0 then [Quoted(OperandAt(args, b.curr).1)] else []), false)
    case Conversion(at, width, precision, directive) =>
      var w := SizeTaken(ForWidth, width, Taken(ForDirective, at, a));
      var p := SizeTaken(ForPrecision, precision, w.0);
      var b := ConversionTaken(at, width, precision, a);
      var widthValue := SizeOf(numerals, width, args, w.0.curr);
      var precisionValue := SizeOf(numerals, precision, args, p.0.curr);
      var operand := OperandAt(args, b.0.curr);
      if Magnitude(widthValue) > MAX_FIELD_WIDTH || precisionValue > MAX_PRECISION then Effect(a, [], NOTHING, true)
      else
        var format := Rebuilt(directive, if width.FromOperand? then Given(widthValue) else Absent,
          if !precision.FromOperand? then Absent else Given(if precisionValue < 0 then -1 else precisionValue));
        var bad :=
          BadSizeOperand(numerals, width, args, w.0.curr) || BadSizeOperand(numerals, precision, args, p.0.curr);
        Effect(b.0, b.1, Converted(format, numerals, directive, bad, operand), false)
  }

  // ---------------------------------------------------------------- one pass

  datatype Pass = Pass(cursor: Cursor, taken: seq<int>, printed: Printed, failed: bool)

  function PassFrom(f: string, i: nat, numerals: Numerals, args: seq<string>, a: Cursor): Pass
    decreases |f| - i
  {
    if C(f, i) == NUL then Pass(a, [], NOTHING, false)
    else
      ItemInside(f, i);
      var p := ItemAt(f, i);
      var e := Done(p.item, numerals, args, a);
      if e.failed || e.printed.stopped || p.item.Malformed? then Pass(e.cursor, e.taken, e.printed, e.failed)
      else
        var rest := PassFrom(f, p.next, numerals, args, e.cursor);
        rest.(taken := e.taken + rest.taken, printed := After(e.printed, rest.printed))
  }

  function PassOver(f: string, numerals: Numerals, args: seq<string>): Pass {
    PassFrom(f, 0, numerals, args, START)
  }

  /** The operands a pass used: one more than the last one it asked for. */
  function Used(p: Pass): int {
    p.cursor.end + 1
  }

  // ---------------------------------------------------------------- reuse

  lemma DoneGrows(item: Item, numerals: Numerals, args: seq<string>, a: Cursor)
    ensures Done(item, numerals, args, a).cursor.end >= a.end
  {
    match item
    case Conversion(at, width, precision, directive) =>
      var w := SizeTaken(ForWidth, width, Taken(ForDirective, at, a));
      var p := SizeTaken(ForPrecision, precision, w.0);
      assert p.0.end >= w.0.end >= Taken(ForDirective, at, a).end >= a.end;
    case _ =>
  }

  lemma {:induction false} EndGrows(f: string, i: nat, numerals: Numerals, args: seq<string>, a: Cursor)
    requires a.end >= -1
    ensures PassFrom(f, i, numerals, args, a).cursor.end >= a.end
    decreases |f| - i
  {
    if C(f, i) != NUL {
      ItemInside(f, i);
      var p := ItemAt(f, i);
      var e := Done(p.item, numerals, args, a);
      DoneGrows(p.item, numerals, args, a);
      if !(e.failed || e.printed.stopped || p.item.Malformed?) { EndGrows(f, p.next, numerals, args, e.cursor); }
    }
  }

  /** The passes over the format, each on the operands the ones before left. */
  function Passes(f: string, numerals: Numerals, args: seq<string>): (r: seq<Pass>)
    ensures r != []
    decreases |args|
  {
    var p := PassOver(f, numerals, args);
    EndGrows(f, 0, numerals, args, START);
    if p.failed || p.printed.stopped || Used(p) >= |args| || Used(p) == 0 then [p]
    else [p] + Passes(f, numerals, args[Used(p)..])
  }

  // ---------------------------------------------------------------- formats without positions

  predicate IsSequential(item: Item) {
    match item
    case Malformed => false
    case Plain(printed) => !printed.stopped
    case EscapedOperand(at) => at == NextOperand
    case QuotedOperand(at) => at == NextOperand
    case Conversion(at, width, precision, directive) =>
      at == NextOperand && (width.FromOperand? ==> width.at == NextOperand)
          && (precision.FromOperand? ==> precision.at == NextOperand)
  }

  /** The operands an item asks for. */
  function SlotsOf(item: Item): nat {
    match item
    case Malformed => 0
    case Plain(printed) => 0
    case EscapedOperand(at) => 1
    case QuotedOperand(at) => 1
    case Conversion(at, width, precision, directive) =>
      (if width.FromOperand? then 1 else 0) + (if precision.FromOperand? then 1 else 0) + 1
  }

  predicate SequentialFrom(f: string, i: nat)
    decreases |f| - i
  {
    C(f, i) == NUL ||
    (ItemInside(f, i); var p := ItemAt(f, i); IsSequential(p.item) && SequentialFrom(f, p.next))
  }

  /** The slots of a format, read off the format alone. */
  function SlotsFrom(f: string, i: nat): nat
    decreases |f| - i
  {
    if C(f, i) == NUL then 0
    else
      ItemInside(f, i);
      var p := ItemAt(f, i);
      if p.item.Malformed? then 0 else SlotsOf(p.item) + SlotsFrom(f, p.next)
  }

  /** `n`, `n + 1`, and so on, `k` numbers. */
  function CountingFrom(n: int, k: nat): (r: seq<int>)
    ensures |r| == k
    ensures forall j :: 0 <= j < k ==> r[j] == n + j
  {
    seq(k, j requires 0 <= j < k => n + j)
  }

  lemma CountingAppend(n: int, j: nat, k: nat)
    ensures CountingFrom(n, j) + CountingFrom(n + j, k) == CountingFrom(n, j + k)
  {
  }

  /** The cursor between two items of a format without positions. */
  predicate InStep(a: Cursor) {
    a.sequential >= -1 && a.end == a.sequential
  }

  lemma DirectiveInStep(a: Cursor)
    ensures Taken(ForDirective, NextOperand, a) == a.(directive := -1)
  {
  }

  /** A width or precision from the next operand is the next one in step. */
  lemma SizeInStep(role: Role, size: Size, a: Cursor)
    requires InStep(a) && a.directive == -1 && (role.ForWidth? || role.ForPrecision?)
    requires size.FromOperand? ==> size.at == NextOperand
    ensures var n, r := if size.FromOperand? then 1 else 0, SizeTaken(role, size, a);
      && InStep(r.0) && r.0.directive == -1 && r.0.sequential == a.sequential + n
      && r.1 == CountingFrom(a.sequential + 1, n)
  {
  }

  lemma ValueInStep(a: Cursor)
    requires InStep(a) && a.directive == -1
    ensures var b := Taken(ForValue, NextOperand, a);
      InStep(b) && b.sequential == a.sequential + 1 && [b.curr] == CountingFrom(a.sequential + 1, 1)
  {
  }

  lemma ConversionInStep(width: Size, precision: Size, a: Cursor)
    requires InStep(a)
    requires width.FromOperand? ==> width.at == NextOperand
    requires precision.FromOperand? ==> precision.at == NextOperand
    ensures var r := ConversionTaken(NextOperand, width, precision, a);
      var n := (if width.FromOperand? then 1 else 0) + (if precision.FromOperand? then 1 else 0) + 1;
      InStep(r.0) && r.0.sequential == a.sequential + n && r.1 == CountingFrom(a.sequential + 1, n)
  {
    DirectiveInStep(a);
    var a0 := a.(directive := -1);
    SizeInStep(ForWidth, width, a0);
    var w := SizeTaken(ForWidth, width, a0);
    SizeInStep(ForPrecision, precision, w.0);
    var p := SizeTaken(ForPrecision, precision, w.0);
    ValueInStep(p.0);
    CountingAppend(a.sequential + 1, |w.1|, |p.1|);
    CountingAppend(a.sequential + 1, |w.1| + |p.1|, 1);
  }

  lemma ConversionDone(item: Item, numerals: Numerals, args: seq<string>, a: Cursor)
    requires item.Conversion?
    ensures var e, r := Done(item, numerals, args, a), ConversionTaken(item.at, item.width, item.precision, a);
      !e.failed ==> e.cursor == r.0 && e.taken == r.1
  {
  }

  lemma ItemInStep(item: Item, numerals: Numerals, args: seq<string>, a: Cursor)
    requires IsSequential(item) && InStep(a)
    ensures var e := Done(item, numerals, args, a); !e.failed ==>
      && InStep(e.cursor)
      && e.cursor.sequential == a.sequential + SlotsOf(item)
      && e.taken == CountingFrom(a.sequential + 1, SlotsOf(item))
  {
    if item.Conversion? {
      ConversionInStep(item.width, item.precision, a);
      ConversionDone(item, numerals, args, a);
    } else {
      DirectiveInStep(a);
      ValueInStep(a.(directive := -1));
    }
  }

  lemma {:induction false} PassInStep(f: string, i: nat, numerals: Numerals, args: seq<string>, a: Cursor)
    requires SequentialFrom(f, i) && InStep(a)
    ensures var p := PassFrom(f, i, numerals, args, a); !p.failed && !p.printed.stopped ==>
      && p.cursor.end == a.sequential + SlotsFrom(f, i)
      && p.taken == CountingFrom(a.sequential + 1, SlotsFrom(f, i))
    decreases |f| - i
  {
    if C(f, i) != NUL {
      ItemInside(f, i);
      var q := ItemAt(f, i);
      var e := Done(q.item, numerals, args, a);
      ItemInStep(q.item, numerals, args, a);
      if !e.failed && !e.printed.stopped {
        PassInStep(f, q.next, numerals, args, e.cursor);
        CountingAppend(a.sequential + 1, SlotsOf(q.item), SlotsFrom(f, q.next));
      }
    }
  }

  /** A pass over a format without positions reads operand 0, 1, 2, ... once each, as many as
      the format has slots, whether or not they are there. */
  lemma PassReadsSlots(f: string, numerals: Numerals, args: seq<string>)
    requires SequentialFrom(f, 0)
    ensures var p := PassOver(f, numerals, args); !p.failed && !p.printed.stopped ==>
      Used(p) == SlotsFrom(f, 0) && p.taken == CountingFrom(0, SlotsFrom(f, 0))
  {
    PassInStep(f, 0, numerals, args, START);
  }

  // ---------------------------------------------------------------- every operand once

  predicate AllComplete(ps: seq<Pass>) {
    forall k :: 0 <= k < |ps| ==> !ps[k].failed && !ps[k].printed.stopped
  }

  lemma DropDrop(args: seq<string>, k: nat, more: nat)
    requires k <= |args| && more <= |args| - k
    ensures args[k..][more..] == args[k + more..]
  {
  }

  /** Pass `p` works on the operands from `p` times `k` on. */
  ghost predicate WorksOn(ps: seq<Pass>, p: nat, f: string, numerals: Numerals, args: seq<string>, k: nat)
    requires p < |ps|
  {
    Times(p, k) <= |args| && ps[p] == PassOver(f, numerals, args[Times(p, k)..]) && ps[p].taken == CountingFrom(0, k)
  }

  lemma LaterPassWorks(ps: seq<Pass>, rest: seq<Pass>, p: nat, f: string, numerals: Numerals, args: seq<string>,
      k: nat)
    requires ps != [] && rest == ps[1..] && p < |rest| && k <= |args|
    requires WorksOn(rest, p, f, numerals, args[k..], k)
    ensures WorksOn(ps, p + 1, f, numerals, args, k)
  {
    TimesStep(p, k);
    DropDrop(args, k, Times(p, k));
    assert ps[p + 1] == rest[p];
  }

  /** For a format without positions and with `k` slots, unless a pass fails or stops the
      output: there are `max(1, ceil(n / k))` passes, and pass `p` works on the operands from
      `p * k` on. */
  lemma {:induction false} FormatReused(f: string, numerals: Numerals, args: seq<string>)
    requires SequentialFrom(f, 0) && SlotsFrom(f, 0) > 0 && AllComplete(Passes(f, numerals, args))
    ensures var ps, k := Passes(f, numerals, args), SlotsFrom(f, 0);
      |ps| == Groups(|args|, k) && forall p :: 0 <= p < |ps| ==> WorksOn(ps, p, f, numerals, args, k)
    decreases |args|
  {
    var ps, k := Passes(f, numerals, args), SlotsFrom(f, 0);
    PassReadsSlots(f, numerals, args);
    assert ps[0] == PassOver(f, numerals, args);
    assert args[0..] == args;
    assert WorksOn(ps, 0, f, numerals, args, k);
    if |args| > k {
      var rest := Passes(f, numerals, args[k..]);
      assert ps == [ps[0]] + rest;
      assert rest == ps[1..];
      assert AllComplete(rest) by { assert forall p :: 0 <= p < |rest| ==> rest[p] == ps[p + 1]; }
      FormatReused(f, numerals, args[k..]);
      forall p | 0 <= p < |ps| ensures WorksOn(ps, p, f, numerals, args, k) {
        if p > 0 { LaterPassWorks(ps, rest, p - 1, f, numerals, args, k); }
      }
    }
  }

  /** Pass `p` reads operand `j` of the whole list at its slot `s`. */
  ghost predicate ReadsOperand(ps: seq<Pass>, k: nat, p: nat, s: nat, j: nat) {
    p < |ps| && s < |ps[p].taken| && Times(p, k) + ps[p].taken[s] == j
  }

  lemma WhereRead(ps: seq<Pass>, f: string, numerals: Numerals, args: seq<string>, k: nat, p: nat, s: nat, j: nat)
    requires k > 0 && p < |ps| && WorksOn(ps, p, f, numerals, args, k)
    ensures ReadsOperand(ps, k, p, s, j) <==> s < k && Times(p, k) + s == j
  {
  }

  /** Every operand is read exactly once: operand `j` by pass `j / k` at its slot `j % k`, and
      by no other pass and slot. */
  lemma EveryOperandOnce(f: string, numerals: Numerals, args: seq<string>, j: nat)
    requires SequentialFrom(f, 0) && SlotsFrom(f, 0) > 0 && AllComplete(Passes(f, numerals, args)) && j < |args|
    ensures var ps, k := Passes(f, numerals, args), SlotsFrom(f, 0);
      forall p: nat, s: nat :: ReadsOperand(ps, k, p, s, j) <==> p == Quotient(j, k) && s == Remainder(j, k)
  {
    var ps, k := Passes(f, numerals, args), SlotsFrom(f, 0);
    FormatReused(f, numerals, args);
    InSomeGroup(|args|, k, j);
    Divides(j, k);
    forall p: nat, s: nat ensures ReadsOperand(ps, k, p, s, j) <==> p == Quotient(j, k) && s == Remainder(j, k) {
      if p < |ps| {
        WhereRead(ps, f, numerals, args, k, p, s, j);
        if ReadsOperand(ps, k, p, s, j) { DividesOnce(j, k, p, s); }
      }
    }
  }

  // ---------------------------------------------------------------- what a pass uses up

  /** The cursor's end moved up to the last of the positions, or not at all. */
  predicate Reaches(before: int, taken: seq<int>, after: int) {
    && before <= after && (forall k :: 0 <= k < |taken| ==> 0 <= taken[k] <= after)
    && (after == before || after in taken)
  }

  lemma ReachesBoth(a: int, first: seq<int>, b: int, rest: seq<int>, c: int)
    requires Reaches(a, first, b) && Reaches(b, rest, c)
    ensures Reaches(a, first + rest, c)
  {
  }

  /** A width or precision reaches the operand it takes. */
  lemma SizeReaches(role: Role, size: Size, a: Cursor)
    requires a.sequential >= -1 && (role.ForWidth? || role.ForPrecision?)
    ensures var r := SizeTaken(role, size, a);
      Reaches(a.end, r.1, r.0.end) && r.0.sequential >= -1 && r.0.directive == a.directive
  {
    if size.FromOperand? {
      var b := Taken(role, size.at, a);
      assert b.curr in [b.curr];
    }
  }

  /** A directive's own position is reached when its value is taken. */
  lemma ValueReaches(at: Where, a: Cursor, before: Cursor, sizes: seq<int>)
    requires before.sequential >= -1 && before.directive == Taken(ForDirective, at, a).directive
    requires Reaches(Taken(ForDirective, at, a).end, sizes, before.end)
    ensures var b := Taken(ForValue, NextOperand, before);
      Reaches(a.end, sizes + [b.curr], b.end) && b.sequential >= -1
  {
    var b, taken := Taken(ForValue, NextOperand, before), sizes + [Taken(ForValue, NextOperand, before).curr];
    assert taken[|sizes|] == b.curr;
    assert forall x :: x in sizes ==> x in taken;
  }

  lemma DoneReaches(item: Item, numerals: Numerals, args: seq<string>, a: Cursor)
    requires a.sequential >= -1
    ensures var e := Done(item, numerals, args, a);
      Reaches(a.end, e.taken, e.cursor.end) && e.cursor.sequential >= -1
  {
    match item
    case Conversion(at, width, precision, directive) => ConversionReaches(at, width, precision, a);
    case EscapedOperand(at) =>
      ValueReaches(at, a, Taken(ForDirective, at, a), []);
    case QuotedOperand(at) =>
      ValueReaches(at, a, Taken(ForDirective, at, a), []);
    case _ =>
  }

  lemma ConversionReaches(at: Where, width: Size, precision: Size, a: Cursor)
    requires a.sequential >= -1
    ensures var c := ConversionTaken(at, width, precision, a);
      Reaches(a.end, c.1, c.0.end) && c.0.sequential >= -1
  {
    var d := Taken(ForDirective, at, a);
    var w := SizeTaken(ForWidth, width, d);
    var p := SizeTaken(ForPrecision, precision, w.0);
    SizeReaches(ForWidth, width, d);
    SizeReaches(ForPrecision, precision, w.0);
    ReachesBoth(d.end, w.1, w.0.end, p.1, p.0.end);
    ValueReaches(at, a, p.0, w.1 + p.1);
  }

  lemma {:induction false} PassReaches(f: string, i: nat, numerals: Numerals, args: seq<string>, a: Cursor)
    requires a.sequential >= -1
    ensures var p := PassFrom(f, i, numerals, args, a); Reaches(a.end, p.taken, p.cursor.end)
    decreases |f| - i
  {
    if C(f, i) != NUL {
      ItemInside(f, i);
      var item := ItemAt(f, i);
      var e := Done(item.item, numerals, args, a);
      DoneReaches(item.item, numerals, args, a);
      if !(e.failed || e.printed.stopped || item.item.Malformed?) {
        PassReaches(f, item.next, numerals, args, e.cursor);
        var rest := PassFrom(f, item.next, numerals, args, e.cursor);
        ReachesBoth(a.end, e.taken, e.cursor.end, rest.taken, rest.cursor.end);
      }
    }
  }

  /** With or without positions, a pass uses up the operands up to the last one it took, also those
      that it skipped, and none if it took none. */
  lemma UsesUpToLast(f: string, numerals: Numerals, args: seq<string>)
    ensures var p := PassOver(f, numerals, args);
      if p.taken == [] then Used(p) == 0
      else Used(p) - 1 in p.taken && forall k :: 0 <= k < |p.taken| ==> p.taken[k] < Used(p)
  {
    PassReaches(f, 0, numerals, args, START);
    var p := PassOver(f, numerals, args);
    if p.taken != [] { assert 0 <= p.taken[0] <= p.cursor.end; }
  }
}

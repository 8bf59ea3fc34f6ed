/** The loops of the `printf` builtin, proved against the reading of the format and the reuse
    of it. */
module PrintfCommand {
  import opened Text
  import opened Sequences
  import opened PrintfFormat
  import opened PrintfRebuild
  import opened PrintfReuse

  const NOTHING_TAKEN: seq<int> := []

  function Failure(a: Cursor): Effect {
    Effect(a, [], NOTHING, true)
  }

  lemma FlagsSlice(f: string, from: nat, to: nat)
    requires from <= to < |f|
    ensures f[from..to + 1] == f[from..to] + [f[to]]
  {
  }

  method SkipFlags(f: string, i: nat) returns (end: nat, quote: bool, hash: bool, zero: bool)
    requires i <= |f|
    ensures end == FlagsEnd(f, i)
    ensures quote == HasFlag(f, i, end, '\'') && hash == HasFlag(f, i, end, '#') && zero == HasFlag(f, i, end, '0')
  {
    end, quote, hash, zero := i, false, false, false;
    while end < |f| && IsFlag(f[end])
      invariant i <= end <= |f| && FlagsEnd(f, end) == FlagsEnd(f, i)
      invariant quote == ('\'' in f[i..end]) && hash == ('#' in f[i..end]) && zero == ('0' in f[i..end])
    {
      FlagsSlice(f, i, end);
      match f[end]
      {
        case '\'' => quote := true;
        case '#' => hash := true;
        case '0' => zero := true;
        case _ =>
      }
      end := end + 1;
    }
  }

  method SkipLength(f: string, i: nat) returns (end: nat)
    requires i <= |f|
    ensures end == LengthEnd(f, i)
  {
    end := i;
    while end < |f| && IsLength(f[end])
      invariant i <= end <= |f| && LengthEnd(f, end) == LengthEnd(f, i)
    {
      end := end + 1;
    }
  }

  /** A width or precision: from the next operand, or written in the format. */
  method ReadSize(f: string, i: nat, cap: nat, role: Role, numerals: Numerals, args: seq<string>, a: Cursor)
    returns (ok: bool, next: nat, star: bool, value: int, bad: bool, b: Cursor, taken: seq<int>)
    requires cap >= 9 && !role.ForDirective? && !role.ForValue?
    ensures match SizeAt(f, i, cap)
      case BadSize => !ok
      case Sized(size, j) =>
        && ok && next == j && star == size.FromOperand?
        && (b, taken) == SizeTaken(role, size, a)
        && value == SizeOf(numerals, size, args, b.curr) && bad == BadSizeOperand(numerals, size, args, b.curr)
  {
    ok, next, star, value, bad, b, taken := true, i, false, 0, false, a, NOTHING_TAKEN;
    if C(f, i) == '*' {
      star := true;
      ok, next, b := GetCurrArg(f, i + 1, role, a);
      if !ok { return; }
      taken := [b.curr];
      if 0 <= b.curr < |args| {
        value := numerals.integer(args[b.curr]);
        bad := IsBad(numerals, 'd', args[b.curr]);
      }
    } else {
      var end, literal, overflow := ScanNumber(f, i, cap);
      next := end;
      if end > i && (overflow || literal > cap) { ok := false; }
    }
  }

  /** What a directive has taken for its width and precision so far. */
  datatype Sizes = Sizes(cursor: Cursor, taken: seq<int>, width: Number, precision: Number, bad: bool)

  function SizesOf(at: Where, width: Size, precision: Size, numerals: Numerals, args: seq<string>,
      a: Cursor): Sizes {
    var w := SizeTaken(ForWidth, width, Taken(ForDirective, at, a));
    var p := SizeTaken(ForPrecision, precision, w.0);
    var value := SizeOf(numerals, precision, args, p.0.curr);
    Sizes(p.0, w.1 + p.1,
      if width.FromOperand? then Given(SizeOf(numerals, width, args, w.0.curr)) else Absent,
      if precision.FromOperand? then Given(if value < 0 then -1 else value) else Absent,
      BadSizeOperand(numerals, width, args, w.0.curr) || BadSizeOperand(numerals, precision, args, p.0.curr))
  }

  predicate TooLarge(at: Where, width: Size, precision: Size, numerals: Numerals, args: seq<string>, a: Cursor) {
    var w := SizeTaken(ForWidth, width, Taken(ForDirective, at, a));
    var p := SizeTaken(ForPrecision, precision, w.0);
    Magnitude(SizeOf(numerals, width, args, w.0.curr)) > MAX_FIELD_WIDTH
        || SizeOf(numerals, precision, args, p.0.curr) > MAX_PRECISION
  }

  function ValueDone(s: Sizes, directive: string, numerals: Numerals, args: seq<string>): Effect {
    var b := Taken(ForValue, NextOperand, s.cursor);
    Effect(b, s.taken + [b.curr],
      Converted(Rebuilt(directive, s.width, s.precision), numerals, directive, s.bad, OperandAt(args, b.curr)), false)
  }

  /** `print_direc`, up to the call of the library. */
  method PrintDirec(directive: string, sizes: Sizes, numerals: Numerals, operand: (bool, string))
      returns (printed: Printed)
    requires directive != ""
    ensures printed
         == Converted(Rebuilt(directive, sizes.width, sizes.precision), numerals, directive, sizes.bad, operand)
  {
    var format := RebuildFormat(directive, sizes.width, sizes.precision);
    var letter := directive[|directive| - 1];
    var bad := operand.0 && IsNumeric(letter) && IsBad(numerals, letter, operand.1);
    printed := Printed([Formatted(format, operand.0, operand.1)], false, sizes.bad || bad);
  }

  /** The length modifiers, the letter and the value. */
  method PrintValue(f: string, start: nat, i: nat, quote: bool, hash: bool, zero: bool, dot: bool, sizes: Sizes,
      numerals: Numerals, args: seq<string>)
    returns (ok: bool, e: Effect, next: nat)
    requires start < i <= |f|
    ensures next == LengthEnd(f, i) + 1
    ensures ok == Allowed(C(f, next - 1), quote, hash, zero, dot)
    ensures ok ==> e == ValueDone(sizes, Slice(f, start, next), numerals, args)
  {
    var end := SkipLength(f, i);
    ok, next, e := Allowed(C(f, end), quote, hash, zero, dot), end + 1, Failure(sizes.cursor);
    if !ok { return; }
    LetterIsInside(f, end, quote, hash, zero, dot);
    var okValue, k, b := GetCurrArg(f, end, ForValue, sizes.cursor);
    var printed := PrintDirec(Slice(f, start, end + 1), sizes, numerals, OperandAt(args, b.curr));
    e := Effect(b, sizes.taken + [b.curr], printed, false);
  }

  lemma LetterIsInside(f: string, end: nat, quote: bool, hash: bool, zero: bool, dot: bool)
    requires Allowed(C(f, end), quote, hash, zero, dot)
    ensures end < |f|
  {
    assert NUL !in "aAcdeEfFgGiosuxX";
  }

  /** The sizes of a directive: its width, and its precision after a dot. */
  method ReadSizes(f: string, i: nat, numerals: Numerals, args: seq<string>, ghost at: Where, ghost a: Cursor,
      b0: Cursor)
    returns (ok: bool, next: nat, dot: bool, sizes: Sizes, ghost width: Size, ghost precision: Size)
    requires i <= |f| && b0 == Taken(ForDirective, at, a)
    ensures ok ==> i <= next <= |f| && ReadsSizes(f, i, next, dot, width, precision)
    ensures ok ==>
        !TooLarge(at, width, precision, numerals, args, a) && sizes == SizesOf(at, width, precision, numerals, args, a)
    ensures !ok ==> FailsSizes(f, i, numerals, args, at, a)
  {
    var okWidth, j, star, value, bad, b1, taken1 := ReadSize(f, i, MAX_FIELD_WIDTH, ForWidth, numerals, args, b0);
    ok, next, dot, sizes, width, precision := false, j, false,
        Sizes(b1, taken1, if star then Given(value) else Absent, Absent, bad), NoSize, NoSize;
    if !okWidth { return; }
    width := SizeAt(f, i, MAX_FIELD_WIDTH).size;
    SizeInside(f, i, MAX_FIELD_WIDTH);
    if Magnitude(value) > MAX_FIELD_WIDTH { return; }
    dot := C(f, j) == '.';
    if dot {
      SizeInside(f, j + 1, MAX_PRECISION);
      var okPrecision, k, starPrecision, precise, bad2, b2, taken2 :=
        ReadSize(f, j + 1, MAX_PRECISION, ForPrecision, numerals, args, b1);
      if !okPrecision || precise > MAX_PRECISION { return; }
      precision := SizeAt(f, j + 1, MAX_PRECISION).size;
      next := k;
      sizes := Sizes(b2, taken1 + taken2, sizes.width,
          if starPrecision then Given(if precise < 0 then -1 else precise) else Absent, bad || bad2);
    } else {
      NoneBefore(taken1);
    }
    ok := true;
  }

  /** The width and precision written between `i` and `next`. */
  predicate ReadsSizes(f: string, i: nat, next: nat, dot: bool, width: Size, precision: Size) {
    var w := SizeAt(f, i, MAX_FIELD_WIDTH);
    && w.Sized? && w.size == width && dot == (C(f, w.next) == '.')
    && (if dot then SizeAt(f, w.next + 1, MAX_PRECISION) == Sized(precision, next)
        else precision == NoSize && next == w.next)
  }

  /** The width or the precision is malformed or too large. */
  predicate FailsSizes(f: string, i: nat, numerals: Numerals, args: seq<string>, at: Where, a: Cursor) {
    var w := SizeAt(f, i, MAX_FIELD_WIDTH);
    w.Sized? ==>
      || TooLarge(at, w.size, NoSize, numerals, args, a)
      || (C(f, w.next) == '.' &&
          var p := SizeAt(f, w.next + 1, MAX_PRECISION);
          p.Sized? ==> TooLarge(at, w.size, p.size, numerals, args, a))
  }

  lemma FailsAnyway(f: string, start: nat, at: Where, i: nat, numerals: Numerals, args: seq<string>, a: Cursor)
    requires FailsSizes(f, FlagsEnd(f, i), numerals, args, at, a)
    ensures Done(ConversionAt(f, start, at, i).item, numerals, args, a).failed
  {
  }

  /** With its sizes read, a conversion is what its letter makes of it. */
  lemma ConversionReads(f: string, start: nat, at: Where, i: nat, j: nat, dot: bool, width: Size, precision: Size)
    requires ReadsSizes(f, FlagsEnd(f, i), j, dot, width, precision)
    ensures var end, q := LengthEnd(f, j) + 1, ConversionAt(f, start, at, i);
      if Allowed(C(f, end - 1), HasFlag(f, i, FlagsEnd(f, i), '\''), HasFlag(f, i, FlagsEnd(f, i), '#'),
          HasFlag(f, i, FlagsEnd(f, i), '0'), dot)
      then q == Parsed(Conversion(at, width, precision, Slice(f, start, end)), end) else q == FAILED
  {
  }

  /** `e` and `next` are what the item at hand does and where it ends. */
  predicate Performs(e: Effect, next: nat, p: Parsed, numerals: Numerals, args: seq<string>, a: Cursor) {
    var done := Done(p.item, numerals, args, a);
    e.failed == done.failed && (!e.failed ==> e == done && next == p.next)
  }

  lemma ConversionPerforms(e: Effect, end: nat, at: Where, width: Size, precision: Size, directive: string,
      numerals: Numerals, args: seq<string>, a: Cursor)
    requires !TooLarge(at, width, precision, numerals, args, a)
        && e == ValueDone(SizesOf(at, width, precision, numerals, args, a), directive, numerals, args)
    ensures Performs(e, end, Parsed(Conversion(at, width, precision, directive), end), numerals, args, a)
  {
  }

  lemma FailurePerforms(b: Cursor, next: nat, numerals: Numerals, args: seq<string>, a: Cursor)
    ensures Performs(Failure(b), next, FAILED, numerals, args, a)
  {
  }

  /** A directive after its `n$`. */
  method PrintConversion(f: string, start: nat, i: nat, numerals: Numerals, args: seq<string>, ghost at: Where,
      ghost a: Cursor, b0: Cursor)
    returns (e: Effect, next: nat)
    requires start < i <= |f| && b0 == Taken(ForDirective, at, a)
    ensures Performs(e, next, ConversionAt(f, start, at, i), numerals, args, a)
  {
    next, e := i, Failure(b0);
    ghost var q := ConversionAt(f, start, at, i);
    var flagsEnd, quote, hash, zero := SkipFlags(f, i);
    var ok, j, dot, sizes, width, precision := ReadSizes(f, flagsEnd, numerals, args, at, a, b0);
    if !ok {
      FailsAnyway(f, start, at, i, numerals, args, a);
      return;
    }
    ConversionReads(f, start, at, i, j, dot, width, precision);
    var okLetter, value, end := PrintValue(f, start, j, quote, hash, zero, dot, sizes, numerals, args);
    if !okLetter {
      FailurePerforms(b0, next, numerals, args, a);
      return;
    }
    ConversionPerforms(value, end, at, width, precision, Slice(f, start, end), numerals, args, a);
    e, next := value, end;
  }

  method PrintDirective(f: string, i: nat, numerals: Numerals, args: seq<string>, a: Cursor)
      returns (e: Effect, next: nat)
    requires i < |f| && f[i] == '%'
    ensures Performs(e, next, DirectiveAt(f, i), numerals, args, a)
  {
    if C(f, i + 1) == '%' {
      return Effect(a, [], Plainly([ByteOf('%' as nat)]), false), i + 2;
    }
    var ok, j, b := GetCurrArg(f, i + 1, ForDirective, a);
    if !ok { return Failure(a), i; }
    PlaceInside(f, i + 1);
    if C(f, j) == 'b' || C(f, j) == 'q' {
      var okValue, k, c := GetCurrArg(f, j, ForValue, b);
      var operand := OperandAt(args, c.curr);
      if C(f, j) == 'b' {
        var printed := PrintEscString(operand.1);
        return Effect(c, [c.curr], printed, false), j + 1;
      }
      return Effect(c, [c.curr], Plainly(if operand.0 then [Quoted(operand.1)] else []), false), j + 1;
    }
    e, next := PrintConversion(f, i, j, numerals, args, PlaceAt(f, i + 1).at, a, b);
  }

  method PrintItem(f: string, i: nat, numerals: Numerals, args: seq<string>, a: Cursor)
      returns (e: Effect, next: nat)
    requires i < |f|
    ensures Performs(e, next, ItemAt(f, i), numerals, args, a)
  {
    if f[i] == '%' {
      e, next := PrintDirective(f, i, numerals, args, a);
    } else if f[i] == '\\' {
      var esc := PrintEsc(f, i, false);
      return Effect(a, [], Printed(esc.pieces, esc.stops, esc.error), false), esc.next;
    } else {
      return Effect(a, [], Plainly([ByteOf(f[i] as nat)]), false), i + 1;
    }
  }

  /** What a pass shows: the operands it used, what it printed, and whether it failed. */
  datatype Shown = Shown(used: int, printed: Printed, failed: bool)

  lemma PassStep(f: string, i: nat, numerals: Numerals, args: seq<string>, a: Cursor)
    requires i < |f| && C(f, i) != NUL
    ensures var e := Done(ItemAt(f, i).item, numerals, args, a); var p := PassFrom(f, i, numerals, args, a);
      && (e.failed || e.printed.stopped ==> p == Pass(e.cursor, e.taken, e.printed, e.failed))
      && (!e.failed ==> i < ItemAt(f, i).next <= |f|)
      && (!e.failed && !e.printed.stopped ==>
          var rest := PassFrom(f, ItemAt(f, i).next, numerals, args, e.cursor);
          p == rest.(taken := e.taken + rest.taken, printed := After(e.printed, rest.printed)))
  {
    ItemInside(f, i);
  }

  /** What is printed before an item that fails: nothing of that item. */
  lemma FailurePrintsNothing(f: string, i: nat, numerals: Numerals, args: seq<string>, a: Cursor)
    requires i < |f|
    ensures var e := Done(ItemAt(f, i).item, numerals, args, a); e.failed ==> e.printed == NOTHING
  {
  }

  /** `print_formatted`. */
  method PrintFormatted(f: string, numerals: Numerals, args: seq<string>) returns (shown: Shown)
    ensures var p := PassOver(f, numerals, args);
      shown.printed == p.printed && shown.failed == p.failed && (!p.failed ==> shown.used == Used(p))
  {
    var i: nat, a, printed := 0, START, NOTHING;
    ghost var goal := PassOver(f, numerals, args);
    AfterNothing(goal.printed);
    while C(f, i) != NUL && !printed.stopped
      invariant i <= |f| || printed.stopped
      invariant !printed.stopped ==>
        var rest := PassFrom(f, i, numerals, args, a);
        goal.failed == rest.failed && goal.cursor == rest.cursor && goal.printed == After(printed, rest.printed)
      invariant printed.stopped ==> !goal.failed && goal.cursor == a && goal.printed == printed
      decreases !printed.stopped, |f| - i
    {
      PassStep(f, i, numerals, args, a);
      FailurePrintsNothing(f, i, numerals, args, a);
      var e, next := PrintItem(f, i, numerals, args, a);
      if e.failed {
        AfterNothing(printed);
        return Shown(a.end + 1, printed, true);
      }
      AfterAssoc(printed, e.printed, PassFrom(f, next, numerals, args, e.cursor).printed);
      i, a, printed := next, e.cursor, After(printed, e.printed);
    }
    AfterNothing(printed);
    return Shown(a.end + 1, printed, false);
  }

  function Written(ps: seq<Pass>): seq<Piece> {
    if ps == [] then [] else ps[0].printed.pieces + Written(ps[1..])
  }

  /** Whether another pass follows a pass. */
  predicate GoesOn(p: Pass, args: seq<string>) {
    !p.failed && !p.printed.stopped && 0 < Used(p) < |args|
  }

  lemma PassesStep(f: string, numerals: Numerals, args: seq<string>)
    ensures var p, ps := PassOver(f, numerals, args), Passes(f, numerals, args);
      if GoesOn(p, args) then ps == [p] + Passes(f, numerals, args[Used(p)..]) else ps == [p]
    ensures Used(PassOver(f, numerals, args)) >= 0
  {
    EndGrows(f, 0, numerals, args, START);
  }

  /** The exit status: 1 when a format was unusable, an escape malformed, or an operand a bad
      number. */
  function ExitStatus(ps: seq<Pass>): nat {
    if exists k :: 0 <= k < |ps| && (ps[k].failed || ps[k].printed.error) then 1 else 0
  }

  lemma WrittenCons(p: Pass, ps: seq<Pass>)
    ensures Written([p] + ps) == p.printed.pieces + Written(ps)
    ensures ExitStatus([p] + ps) == if p.failed || p.printed.error then 1 else ExitStatus(ps)
  {
    assert ([p] + ps)[1..] == ps && ([p] + ps)[0] == p;
    if k :| 0 <= k < |ps| && (ps[k].failed || ps[k].printed.error) { assert ([p] + ps)[k + 1] == ps[k]; }
  }

  /** `printf_command`: the format is used again for the operands that are left. */
  method PrintfCommand(f: string, numerals: Numerals, operands: seq<string>)
      returns (status: nat, pieces: seq<Piece>)
    ensures status == ExitStatus(Passes(f, numerals, operands))
    ensures pieces == Written(Passes(f, numerals, operands))
  {
    var args := operands;
    status, pieces := 0, [];
    ghost var all := Passes(f, numerals, operands);
    NoneBefore(Written(all));
    while true
      invariant ExitStatus(all) == if status == 1 then 1 else ExitStatus(Passes(f, numerals, args))
      invariant status == 0 || status == 1
      invariant Written(all) == pieces + Written(Passes(f, numerals, args))
      decreases |args|
    {
      PassesStep(f, numerals, args);
      ghost var p := PassOver(f, numerals, args);
      ghost var rest := if GoesOn(p, args) then Passes(f, numerals, args[Used(p)..]) else [];
      NoneBefore([p]);
      WrittenCons(p, rest);
      Assoc(pieces, p.printed.pieces, Written(rest));
      var shown := PrintFormatted(f, numerals, args);
      pieces := pieces + shown.printed.pieces;
      NoneBefore(pieces);
      if shown.failed { return 1, pieces; }
      if shown.printed.error { status := 1; }
      if shown.printed.stopped || shown.used >= |args| || shown.used <= 0 { return status, pieces; }
      args := args[shown.used..];
    }
  }
}

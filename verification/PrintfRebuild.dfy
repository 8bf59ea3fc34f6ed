/** The format that is handed to the C library: `print_direc` scans the directive once more,
    from its percent sign, and puts in the width and precision that came from operands. */
module PrintfRebuild {
  import opened Text
  import opened Sequences
  import opened PrintfFormat

  /** An integer in decimal, as an output stream writes it. */
  function Decimal(n: int): string {
    if n < 0 then "-" + Natural(-n) else Natural(n)
  }

  function Natural(n: nat): string {
    if n < 10 then ['0' + n as char] else Natural(n / 10) + ['0' + (n % 10) as char]
  }

  lemma {:induction false} ValueOfPrefix(a: string, b: string, n: nat)
    requires n <= |a|
    ensures Value(a + b, 0, 10, n) == Value(a, 0, 10, n)
  {
    if n > 0 { ValueOfPrefix(a, b, n - 1); }
  }

  /** The decimal form has the number as its value, and no digit too many. */
  lemma {:induction false} NaturalReads(n: nat)
    ensures var s := Natural(n);
      && s != "" && (forall k :: 0 <= k < |s| ==> '0' <= s[k] <= '9') && (n > 0 ==> s[0] != '0')
      && Value(s, 0, 10, |s|) == n
  {
    if n < 10 {
      assert Value(Natural(n), 0, 10, 0) == 0;
    } else {
      var front, last := Natural(n / 10), ['0' + (n % 10) as char];
      NaturalReads(n / 10);
      ValueOfPrefix(front, last, |front|);
    }
  }

  /** A negative number has a minus sign in front of its magnitude. */
  lemma DecimalReads(n: int)
    requires n >= 0
    ensures Decimal(n) == Natural(n) && (n > 0 ==> Decimal(-n) == "-" + Natural(n))
  {
  }

  function Letter(d: string): char {
    if d == "" then NUL else d[|d| - 1]
  }

  /** The widest length modifier for the kind of value, and the letter. */
  function Suffix(letter: char): string {
    if letter in "diouxX" then "ll" + [letter]
    else if letter in "aAeEfFgG" then "L" + [letter]
    else [letter]
  }

  /** Where the scan is after the width: behind a `*` when the width was given and one stands
      there, otherwise behind digits. */
  function WidthEnd(d: string, width: Number): nat {
    var i := FlagsEnd(d, 1);
    if width.Given? && C(d, i) == '*' then i + 1 else DigitsEnd(d, i)
  }

  function Head(d: string, width: Number): string {
    var i := FlagsEnd(d, 1);
    Slice(d, 1, i) + if width.Given? then Decimal(width.value) else Slice(d, i, DigitsEnd(d, i))
  }

  function Tail(d: string, width: Number, precision: Number): string {
    TailAt(d, WidthEnd(d, width), precision)
  }

  function TailAt(d: string, i: nat, precision: Number): string {
    if C(d, i) != '.' then ""
    else "." + if precision.Given? then Decimal(precision.value) else Slice(d, i + 1, DigitsEnd(d, i + 1))
  }

  /** `print_direc`, up to the value. */
  function Rebuilt(d: string, width: Number, precision: Number): string {
    "%" + Head(d, width) + Tail(d, width, precision) + Suffix(Letter(d))
  }

  lemma CopyOne(d: string, from: nat, i: nat)
    requires from <= i < |d|
    ensures Slice(d, from, i + 1) == Slice(d, from, i) + [d[i]]
  {
  }

  method CopyFlags(d: string, from: nat) returns (text: string, end: nat)
    requires from <= |d|
    ensures end == FlagsEnd(d, from) && text == Slice(d, from, end)
  {
    text, end := "", from;
    while end < |d| && IsFlag(d[end])
      invariant from <= end <= |d| && FlagsEnd(d, end) == FlagsEnd(d, from) && text == Slice(d, from, end)
    {
      CopyOne(d, from, end);
      text := text + [d[end]];
      end := end + 1;
    }
  }

  method CopyDigits(d: string, from: nat) returns (text: string, end: nat)
    requires from <= |d|
    ensures end == DigitsEnd(d, from) && text == Slice(d, from, end)
  {
    text, end := "", from;
    while end < |d| && '0' <= d[end] <= '9'
      invariant from <= end <= |d| && DigitsEnd(d, end) == DigitsEnd(d, from) && text == Slice(d, from, end)
    {
      CopyOne(d, from, end);
      text := text + [d[end]];
      end := end + 1;
    }
  }

  method RebuildHead(d: string, width: Number) returns (head: string, end: nat)
    requires d != ""
    ensures head == Head(d, width) && end == WidthEnd(d, width)
  {
    var i;
    head, i := CopyFlags(d, 1);
    var digits, j := CopyDigits(d, i);
    end := j;
    if width.Given? {
      head := head + Decimal(width.value);
      if C(d, i) == '*' { end := i + 1; }
    } else {
      head := head + digits;
    }
  }

  method RebuildTail(d: string, i: nat, precision: Number) returns (tail: string)
    ensures tail == TailAt(d, i, precision)
  {
    if C(d, i) != '.' { return ""; }
    if precision.Given? { return "." + Decimal(precision.value); }
    var more, k := CopyDigits(d, i + 1);
    return "." + more;
  }

  method RebuildFormat(d: string, width: Number, precision: Number) returns (format: string)
    requires d != ""
    ensures format == Rebuilt(d, width, precision)
  {
    var head, i := RebuildHead(d, width);
    var tail := RebuildTail(d, i, precision);
    format := "%" + head + tail + Suffix(d[|d| - 1]);
  }

  // ---------------------------------------------------------------- what should be handed over

  /** Where the flags of a directive begin: after an `n$`, if there is one. */
  function FlagsStart(d: string): nat {
    var p := PlaceAt(d, 1);
    if p.Place? then p.next else 1
  }

  function WidthStart(d: string): nat {
    FlagsEnd(d, FlagsStart(d))
  }

  /** Where the width ends, with the `n$` of its operand. */
  function DotAt(d: string): nat {
    var w := SizeAt(d, WidthStart(d), MAX_FIELD_WIDTH);
    if w.Sized? then w.next else WidthStart(d)
  }

  function PrecisionEnd(d: string): nat {
    var p := SizeAt(d, DotAt(d) + 1, MAX_PRECISION);
    if p.Sized? then p.next else DotAt(d) + 1
  }

  predicate HasDot(d: string) {
    C(d, DotAt(d)) == '.'
  }

  function FlagText(d: string): string {
    Slice(d, FlagsStart(d), WidthStart(d))
  }

  function WidthText(d: string, width: Number): string {
    if width.Given? then Decimal(width.value) else Slice(d, WidthStart(d), DotAt(d))
  }

  function PrecisionText(d: string, precision: Number): string {
    if !HasDot(d) then ""
    else "." + if precision.Given? then Decimal(precision.value) else Slice(d, DotAt(d) + 1, PrecisionEnd(d))
  }

  /** The directive's flags, width, precision and letter: those written in it, and the values of
      its operands. */
  function Wanted(d: string, width: Number, precision: Number): string {
    "%" + (FlagText(d) + WidthText(d, width)) + PrecisionText(d, precision) + Suffix(Letter(d))
  }

  /** A directive with the values of its operands, if it takes any. */
  predicate IsDirective(d: string, width: Number, precision: Number) {
    && d != "" && d[0] == '%'
    && var p := DirectiveAt(d, 0);
       p.item.Conversion? && p.item.directive == d
       && (width.Given? <==> p.item.width.FromOperand?) && (precision.Given? <==> p.item.precision.FromOperand?)
  }

  /** The directive names its operand by position. */
  predicate Positional(d: string) {
    var p := PlaceAt(d, 1);
    p.Place? && p.at.Operand?
  }

  /** The width's operand is named by position. */
  predicate PositionalWidth(d: string) {
    C(d, WidthStart(d)) == '*' && var p := PlaceAt(d, WidthStart(d) + 1); p.Place? && p.at.Operand?
  }

  /** What the second scan takes for flags and width when an `n$` comes first: the number of it,
      or its leading zeros and the value of the width's operand. */
  function Misread(d: string, width: Number): string {
    if width.Given? then Slice(d, 1, FlagsEnd(d, 1)) + Decimal(width.value) else Slice(d, 1, DigitsEnd(d, 1))
  }

  /** When the second scan finds what the first one did. */
  predicate Rescans(d: string, width: Number) {
    if Positional(d) then !HasDot(d) && FlagText(d) + WidthText(d, width) == Misread(d, width)
    else !(PositionalWidth(d) && HasDot(d))
  }

  lemma SizeStar(f: string, i: nat, cap: nat)
    requires SizeAt(f, i, cap).Sized?
    ensures SizeAt(f, i, cap).size.FromOperand? <==> C(f, i) == '*'
  {
  }

  /** The parts of a conversion that is not malformed. */
  lemma ConversionParts(f: string, start: nat, at: Where, i: nat)
    requires ConversionAt(f, start, at, i).item.Conversion?
    ensures var item, w := ConversionAt(f, start, at, i).item, SizeAt(f, FlagsEnd(f, i), MAX_FIELD_WIDTH);
      && w.Sized? && item.width == w.size
      && (if C(f, w.next) == '.' then SizeAt(f, w.next + 1, MAX_PRECISION).Sized?
             && item.precision == SizeAt(f, w.next + 1, MAX_PRECISION).size
          else item.precision == NoSize)
  {
  }

  /** Which of its sizes are `*`. */
  lemma ConversionStars(f: string, start: nat, at: Where, i: nat)
    requires ConversionAt(f, start, at, i).item.Conversion?
    ensures var item, w := ConversionAt(f, start, at, i).item, SizeAt(f, FlagsEnd(f, i), MAX_FIELD_WIDTH);
      && w.Sized? && (item.width.FromOperand? <==> C(f, FlagsEnd(f, i)) == '*')
      && (C(f, w.next) == '.' ==> SizeAt(f, w.next + 1, MAX_PRECISION).Sized?)
      && (item.precision.FromOperand? <==> C(f, w.next) == '.' && C(f, w.next + 1) == '*')
  {
    ConversionParts(f, start, at, i);
    var w := SizeAt(f, FlagsEnd(f, i), MAX_FIELD_WIDTH);
    SizeStar(f, FlagsEnd(f, i), MAX_FIELD_WIDTH);
    if C(f, w.next) == '.' { SizeStar(f, w.next + 1, MAX_PRECISION); }
  }

  lemma DirectiveIsConversion(d: string, width: Number, precision: Number)
    requires IsDirective(d, width, precision)
    ensures PlaceAt(d, 1).Place?
    ensures var p := ConversionAt(d, 0, PlaceAt(d, 1).at, PlaceAt(d, 1).next);
      && p.item.Conversion?
      && (width.Given? <==> p.item.width.FromOperand?) && (precision.Given? <==> p.item.precision.FromOperand?)
  {
  }

  lemma StarsOf(d: string)
    requires PlaceAt(d, 1).Place?
    requires ConversionAt(d, 0, PlaceAt(d, 1).at, PlaceAt(d, 1).next).item.Conversion?
    ensures var item := ConversionAt(d, 0, PlaceAt(d, 1).at, PlaceAt(d, 1).next).item;
      && SizeAt(d, WidthStart(d), MAX_FIELD_WIDTH).Sized?
      && (HasDot(d) ==> SizeAt(d, DotAt(d) + 1, MAX_PRECISION).Sized?)
      && (item.width.FromOperand? <==> C(d, WidthStart(d)) == '*')
      && (item.precision.FromOperand? <==> HasDot(d) && C(d, DotAt(d) + 1) == '*')
  {
    ConversionStars(d, 0, PlaceAt(d, 1).at, PlaceAt(d, 1).next);
  }

  /** The parts of a directive. */
  lemma DirectiveParts(d: string, width: Number, precision: Number)
    requires IsDirective(d, width, precision)
    ensures PlaceAt(d, 1).Place? && SizeAt(d, WidthStart(d), MAX_FIELD_WIDTH).Sized?
    ensures HasDot(d) ==> SizeAt(d, DotAt(d) + 1, MAX_PRECISION).Sized?
    ensures width.Given? <==> C(d, WidthStart(d)) == '*'
    ensures precision.Given? <==> HasDot(d) && C(d, DotAt(d) + 1) == '*'
  {
    DirectiveIsConversion(d, width, precision);
    StarsOf(d);
  }

  // ---------------------------------------------------------------- a directive without positions

  /** Without an `n$` in front, both scans see the same flags and width. */
  lemma SameStart(d: string, width: Number)
    requires PlaceAt(d, 1).Place? && !Positional(d) && SizeAt(d, WidthStart(d), MAX_FIELD_WIDTH).Sized?
    requires width.Given? <==> C(d, WidthStart(d)) == '*'
    ensures FlagsStart(d) == 1 && Head(d, width) == FlagText(d) + WidthText(d, width)
    ensures !PositionalWidth(d) ==> WidthEnd(d, width) == DotAt(d)
    ensures PositionalWidth(d) ==> C(d, WidthEnd(d, width)) != '.'
  {
    SizePlain(d, WidthStart(d), MAX_FIELD_WIDTH);
    if PositionalWidth(d) { PlaceDigit(d, WidthStart(d) + 1); }
  }

  lemma SameHead(d: string, width: Number, precision: Number)
    requires IsDirective(d, width, precision) && !Positional(d)
    ensures FlagsStart(d) == 1 && Head(d, width) == FlagText(d) + WidthText(d, width)
    ensures !PositionalWidth(d) ==> WidthEnd(d, width) == DotAt(d)
    ensures PositionalWidth(d) ==> C(d, WidthEnd(d, width)) != '.'
  {
    DirectiveParts(d, width, precision);
    SameStart(d, width);
  }

  /** Where a size ends. */
  lemma SizePlain(d: string, i: nat, cap: nat)
    requires SizeAt(d, i, cap).Sized?
    ensures C(d, i) != '*' ==> SizeAt(d, i, cap).next == DigitsEnd(d, i)
    ensures C(d, i) == '*' ==> PlaceAt(d, i + 1).Place? && SizeAt(d, i, cap).next == PlaceAt(d, i + 1).next
    ensures C(d, i) == '*' && PlaceAt(d, i + 1).at == NextOperand ==> SizeAt(d, i, cap).next == i + 1
  {
  }

  /** An `n$` starts with a digit. */
  lemma PlaceDigit(d: string, i: nat)
    requires PlaceAt(d, i).Place? && PlaceAt(d, i).at.Operand?
    ensures IsDigit(C(d, i)) && C(d, i) != '.'
    ensures PlaceAt(d, i).next == DigitsEnd(d, i) + 1 && C(d, DigitsEnd(d, i)) == '$' && DigitsEnd(d, i) > i
  {
  }

  lemma PrecisionIsTail(d: string, width: Number, precision: Number)
    requires IsDirective(d, width, precision)
    ensures PrecisionText(d, precision) == TailAt(d, DotAt(d), precision)
  {
    DirectiveParts(d, width, precision);
    if HasDot(d) && !precision.Given? {
      SizePlain(d, DotAt(d) + 1, MAX_PRECISION);
      assert PrecisionEnd(d) == DigitsEnd(d, DotAt(d) + 1);
    }
  }

  /** Then the second scan sees the same precision, unless an `n$` of the width hides it. */
  lemma SameTail(d: string, width: Number, precision: Number)
    requires IsDirective(d, width, precision) && !Positional(d)
    ensures Tail(d, width, precision) == if PositionalWidth(d) then "" else PrecisionText(d, precision)
  {
    SameHead(d, width, precision);
    PrecisionIsTail(d, width, precision);
  }

  // ---------------------------------------------------------------- a directive with a position

  lemma {:induction false} DigitsOver(s: string, i: nat)
    requires i <= |s|
    ensures forall k :: i <= k < DigitsEnd(s, i) ==> IsDigit(s[k])
    decreases |s| - i
  {
    if i < |s| && IsDigit(s[i]) { DigitsOver(s, i + 1); }
  }

  lemma {:induction false} DigitsEndWithin(s: string, i: nat, j: nat)
    requires i <= j <= DigitsEnd(s, i) && i <= |s|
    ensures DigitsEnd(s, j) == DigitsEnd(s, i)
    decreases j - i
  {
    if i < j { DigitsEndWithin(s, i + 1, j); }
  }

  /** The flags that the second scan sees in front of an `n$` are leading zeros of it. */
  lemma {:induction false} ZerosAreFlags(d: string, i: nat)
    requires i <= |d|
    ensures FlagsEnd(d, i) <= DigitsEnd(d, i) || !IsDigit(C(d, i)) || C(d, DigitsEnd(d, i)) != '$'
    decreases |d| - i
  {
    if i < |d| && IsDigit(d[i]) && IsFlag(d[i]) { ZerosAreFlags(d, i + 1); }
  }

  lemma PositionalHead(d: string, width: Number, precision: Number)
    requires IsDirective(d, width, precision) && Positional(d)
    ensures Head(d, width) == Misread(d, width) && Tail(d, width, precision) == ""
  {
    PlaceDigit(d, 1);
    ZerosAreFlags(d, 1);
    var i, j := FlagsEnd(d, 1), DigitsEnd(d, 1);
    DigitsEndWithin(d, 1, i);
    DigitsOver(d, 1);
    assert d[1..i] + d[i..j] == d[1..j];
  }

  // ---------------------------------------------------------------- exactly when they agree

  lemma Cancel(a: string, b: string, x: string, y: string)
    requires a + x + y == a + b + y
    ensures x == b
  {
    assert (a + x + y)[|a|..|a + x|] == x;
    assert |x| == |b|;
    assert (a + b + y)[|a|..|a + b|] == b;
  }

  lemma {:induction false} NaturalHasNoDot(n: nat)
    ensures '.' !in Natural(n)
  {
    if n >= 10 { NaturalHasNoDot(n / 10); }
  }

  lemma MisreadHasNoDot(d: string, width: Number, precision: Number)
    requires IsDirective(d, width, precision) && Positional(d)
    ensures '.' !in Misread(d, width)
  {
    PlaceDigit(d, 1);
    ZerosAreFlags(d, 1);
    DigitsOver(d, 1);
    if width.Given? { NaturalHasNoDot(if width.value < 0 then -width.value else width.value); }
  }

  lemma PrecisionHasDot(d: string, precision: Number)
    ensures HasDot(d) <==> '.' in PrecisionText(d, precision)
    ensures !HasDot(d) ==> PrecisionText(d, precision) == ""
  {
    if HasDot(d) { assert PrecisionText(d, precision)[0] == '.'; }
  }

  /** The C library is handed the directive's own flags, width and precision exactly when the
      second scan finds them. With an `n$` after the percent sign that takes a directive without
      precision whose flags and width repeat the number itself; otherwise only an `n$` of the
      width in front of a precision is in the way. */
  lemma RebuiltKeeps(d: string, width: Number, precision: Number)
    requires IsDirective(d, width, precision)
    ensures Rebuilt(d, width, precision) == Wanted(d, width, precision) <==> Rescans(d, width)
  {
    var x, p, s := FlagText(d) + WidthText(d, width), PrecisionText(d, precision), Suffix(Letter(d));
    PrecisionHasDot(d, precision);
    if Positional(d) {
      PositionalHead(d, width, precision);
      MisreadHasNoDot(d, width, precision);
      KeepsMisread(x, p, s, Misread(d, width));
    } else {
      SameHead(d, width, precision);
      SameTail(d, width, precision);
    }
  }

  lemma KeepsMisread(x: string, p: string, s: string, m: string)
    requires '.' !in m && (p == "" || '.' in p)
    ensures "%" + m + "" + s == "%" + x + p + s <==> p == "" && x == m
  {
    NoneBefore("%" + m);
    if "%" + m + "" + s == "%" + x + p + s {
      Assoc("%", x, p);
      Cancel("%", x + p, m, s);
    }
    if p == "" { NoneBefore("%" + x); }
  }

  /** A directive without any `n$` is kept. */
  lemma PlainDirectiveKept(d: string, width: Number, precision: Number)
    requires IsDirective(d, width, precision) && !Positional(d) && !PositionalWidth(d)
    ensures Rebuilt(d, width, precision) == Wanted(d, width, precision)
  {
    RebuiltKeeps(d, width, precision);
  }

  predicate IsPercentTwoS(d: string) {
    |d| == 4 && d[0] == '%' && d[1] == '2' && d[2] == '$' && d[3] == 's'
  }

  lemma SecondOperand(d: string)
    requires IsPercentTwoS(d)
    ensures DigitsEnd(d, 1) == 2 && PlaceAt(d, 1) == Place(Operand(1), 3)
  {
    assert DigitsEnd(d, 2) == 2;
    assert Value(d, 1, 10, 0) == 0 && Value(d, 1, 10, 1) == 2;
  }

  lemma NothingElse(d: string)
    requires IsPercentTwoS(d)
    ensures FlagsEnd(d, 1) == 1 && FlagsEnd(d, 3) == 3 && DigitsEnd(d, 3) == 3 && LengthEnd(d, 3) == 3
    ensures SizeAt(d, 3, MAX_FIELD_WIDTH) == Sized(NoSize, 3)
  {
  }

  lemma StringOfSecond(d: string)
    requires IsPercentTwoS(d)
    ensures DirectiveAt(d, 0) == Parsed(Conversion(Operand(1), NoSize, NoSize, d), 4)
  {
    SecondOperand(d);
    NothingElse(d);
    assert Slice(d, 0, 4) == d;
    assert LetterAt(d, 0, Operand(1), 3, 3, NoSize, NoSize, false, 3)
        == Parsed(Conversion(Operand(1), NoSize, NoSize, d), 4);
  }

  lemma SecondRebuilt(d: string)
    requires IsPercentTwoS(d)
    ensures Rebuilt(d, Absent, Absent) == "%2s"
  {
    SecondOperand(d);
    NothingElse(d);
    assert Slice(d, 1, 1) == "" && Slice(d, 1, 2) == "2";
    assert Head(d, Absent) == "2" && Tail(d, Absent, Absent) == "" && Suffix('s') == "s";
  }

  lemma SecondWanted(d: string)
    requires IsPercentTwoS(d)
    ensures Wanted(d, Absent, Absent) == "%s"
  {
    SecondOperand(d);
    NothingElse(d);
    assert Slice(d, 3, 3) == "" && Suffix('s') == "s";
    assert FlagText(d) == "" && WidthText(d, Absent) == "" && PrecisionText(d, Absent) == "";
  }

  /** A directive that is not: the number of the operand becomes the width. */
  lemma PositionBecomesWidth()
    ensures IsDirective("%2$s", Absent, Absent) && Positional("%2$s")
    ensures Rebuilt("%2$s", Absent, Absent) == "%2s" && Wanted("%2$s", Absent, Absent) == "%s"
  {
    StringOfSecond("%2$s");
    SecondOperand("%2$s");
    SecondRebuilt("%2$s");
    SecondWanted("%2$s");
  }
}

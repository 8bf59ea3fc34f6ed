/** Reading a `printf` format: the guarded decimal loops, the escapes, and the directives. The
    format is a C string: past its last character stands the terminator. */
module PrintfFormat {
  import opened Text
  import opened Sequences
  import Utf8

  const NUL := '\0'
  const MAX_FIELD_WIDTH: nat := 1_000_000
  const MAX_PRECISION: nat := 1_000_000
  const MAX_POSITIONAL_INDEX: nat := 1024

  /** `*(s + i)`. */
  function C(s: string, i: nat): char {
    if i < |s| then s[i] else NUL
  }

  // ---------------------------------------------------------------- numbers

  predicate IsDigitOf(base: nat, c: char) {
    match base
    case 8 => '0' <= c <= '7'
    case 16 => '0' <= c <= '9' || 'a' <= c <= 'f' || 'A' <= c <= 'F'
    case _ => '0' <= c <= '9'
  }

  function DigitOf(c: char): nat {
    if '0' <= c <= '9' then (c - '0') as nat
    else if 'a' <= c <= 'f' then 10 + (c - 'a') as nat
    else if 'A' <= c <= 'F' then 10 + (c - 'A') as nat
    else 0
  }

  /** The number of digits at `i`, up to `max`. */
  function Count(s: string, i: nat, base: nat, max: nat): (r: nat)
    ensures r <= max
    ensures i <= |s| ==> i + r <= |s|
    decreases max
  {
    if max > 0 && i < |s| && IsDigitOf(base, s[i]) then 1 + Count(s, i + 1, base, max - 1) else 0
  }

  /** The value of the `n` digits at `i`. */
  function Value(s: string, i: nat, base: nat, n: nat): nat {
    if n == 0 then 0 else Value(s, i, base, n - 1) * base + DigitOf(C(s, i + n - 1))
  }

  method ScanDigits(s: string, i: nat, base: nat, max: nat) returns (n: nat, value: nat)
    ensures n == Count(s, i, base, max) && value == Value(s, i, base, n)
  {
    n, value := 0, 0;
    while n < max && i + n < |s| && IsDigitOf(base, s[i + n])
      invariant n <= max && value == Value(s, i, base, n)
      invariant Count(s, i, base, max) == n + Count(s, i + n, base, max - n)
    {
      value := value * base + DigitOf(s[i + n]);
      n := n + 1;
    }
  }

  /** Where the decimal digits at `i` end. */
  function DigitsEnd(s: string, i: nat): (r: nat)
    ensures i <= r && (i <= |s| ==> r <= |s|)
    decreases |s| - i
  {
    if i < |s| && IsDigit(s[i]) then DigitsEnd(s, i + 1) else i
  }

  /** A decimal loop that stops adding once it would exceed `cap`: it reports an overflow if
      and only if the number written there is greater than `cap`, however long it is. */
  method ScanNumber(s: string, i: nat, cap: nat) returns (end: nat, value: nat, overflow: bool)
    requires cap >= 9
    ensures end == DigitsEnd(s, i)
    ensures overflow <==> Value(s, i, 10, end - i) > cap
    ensures !overflow ==> value == Value(s, i, 10, end - i)
  {
    end, value, overflow := i, 0, false;
    while end < |s| && IsDigit(s[end])
      invariant i <= end && DigitsEnd(s, end) == DigitsEnd(s, i)
      invariant overflow <==> Value(s, i, 10, end - i) > cap
      invariant !overflow ==> value == Value(s, i, 10, end - i)
    {
      var digit := (s[end] - '0') as nat;
      if !overflow {
        if value > (cap - digit) / 10 {
          overflow := true;
        } else {
          value := value * 10 + digit;
        }
      }
      end := end + 1;
    }
  }

  // ---------------------------------------------------------------- escapes

  /** What is written: a byte, a shell-quoted operand, or an operand that the C library converts
      by a format of its own. A missing operand is `false` with an empty string. */
  datatype Piece =
    | Byte(value: nat)
    | Quoted(text: string)
    | Formatted(format: string, present: bool, operand: string)

  datatype Number = Absent | Given(value: int)

  /** Where an escape ends, what it writes, whether the output stops there, and whether that is
      because it is malformed. */
  datatype Escape = Escape(next: nat, pieces: seq<Piece>, stops: bool, error: bool)

  const ESCAPE_LETTERS := "\"\\abcefnrtv"

  function EscapeCode(c: char): nat {
    match c
    case 'a' => 7
    case 'b' => 8
    case 'e' => 27
    case 'f' => 12
    case 'n' => 10
    case 'r' => 13
    case 't' => 9
    case 'v' => 11
    case _ => c as int
  }

  /** `putchar` writes the low byte. */
  function ByteOf(value: nat): Piece {
    Byte(value % 256)
  }

  function Bytes(values: seq<nat>): seq<Piece> {
    Map(ByteOf, values)
  }

  /** `print_esc` at the backslash at `i`. */
  function EscapeAt(s: string, i: nat, octal0: bool): Escape {
    var p := i + 1;
    var c := C(s, p);
    if c == 'x' then
      var n := Count(s, p + 1, 16, 2);
      if n == 0 then Escape(p + 1, [], true, true)
      else Escape(p + 1 + n, [ByteOf(Value(s, p + 1, 16, n))], false, false)
    else if IsDigitOf(8, c) then
      var q := if octal0 && c == '0' then p + 1 else p;
      var n := Count(s, q, 8, 3);
      Escape(q + n, [ByteOf(Value(s, q, 8, n))], false, false)
    else if c in ESCAPE_LETTERS then
      if c == 'c' then Escape(p + 1, [], true, false) else Escape(p + 1, [ByteOf(EscapeCode(c))], false, false)
    else if c == 'u' || c == 'U' then
      var m := if c == 'u' then 4 else 8;
      var n := Count(s, p + 1, 16, m);
      var code := Value(s, p + 1, 16, n);
      if n < m || 0xD800 <= code <= 0xDFFF then Escape(p + 1 + n, [], true, true)
      else Escape(p + 1 + n, Bytes(Utf8.Encode(code)), false, false)
    else if c != NUL then Escape(p + 1, [ByteOf('\\' as nat), ByteOf(c as nat)], false, false)
    else Escape(p, [ByteOf('\\' as nat)], false, false)
  }

  /** An escape advances and stays within the string. */
  lemma EscapeInside(s: string, i: nat, octal0: bool)
    requires i < |s|
    ensures i < EscapeAt(s, i, octal0).next <= |s|
  {
  }

  /** A character by its code, which takes `m` digits. */
  method PrintUnicode(s: string, i: nat, m: nat, octal0: bool) returns (e: Escape)
    requires if m == 4 then C(s, i + 1) == 'u' else m == 8 && C(s, i + 1) == 'U'
    ensures e == EscapeAt(s, i, octal0)
  {
    var n, value := ScanDigits(s, i + 2, 16, m);
    if n < m || 0xD800 <= value <= 0xDFFF { return Escape(i + 2 + n, [], true, true); }
    return Escape(i + 2 + n, Bytes(Utf8.Encode(value)), false, false);
  }

  method PrintEsc(s: string, i: nat, octal0: bool) returns (e: Escape)
    ensures e == EscapeAt(s, i, octal0)
  {
    var p := i + 1;
    var c := C(s, p);
    if c == 'x' {
      var n, value := ScanDigits(s, p + 1, 16, 2);
      if n == 0 { return Escape(p + 1, [], true, true); }
      return Escape(p + 1 + n, [ByteOf(value)], false, false);
    }
    if IsDigitOf(8, c) {
      if octal0 && c == '0' { p := p + 1; }
      var n, value := ScanDigits(s, p, 8, 3);
      return Escape(p + n, [ByteOf(value)], false, false);
    }
    if c in ESCAPE_LETTERS {
      if c == 'c' { return Escape(p + 1, [], true, false); }
      return Escape(p + 1, [ByteOf(EscapeCode(c))], false, false);
    }
    if c == 'u' || c == 'U' {
      e := PrintUnicode(s, i, if c == 'u' then 4 else 8, octal0);
      return;
    }
    if c != NUL { return Escape(p + 1, [ByteOf('\\' as nat), ByteOf(c as nat)], false, false); }
    return Escape(p, [ByteOf('\\' as nat)], false, false);
  }

  /** What is written, whether the output stops, and whether the exit status will be 1. */
  datatype Printed = Printed(pieces: seq<Piece>, stopped: bool, error: bool)

  const NOTHING := Printed([], false, false)

  function Plainly(pieces: seq<Piece>): Printed {
    Printed(pieces, false, false)
  }

  /** One after the other. */
  function After(first: Printed, rest: Printed): Printed {
    Printed(first.pieces + rest.pieces, rest.stopped, first.error || rest.error)
  }

  lemma AfterAssoc(a: Printed, b: Printed, c: Printed)
    ensures After(After(a, b), c) == After(a, After(b, c))
  {
    Assoc(a.pieces, b.pieces, c.pieces);
  }

  lemma AfterNothing(a: Printed)
    ensures After(NOTHING, a) == a
    ensures a.stopped || After(a, NOTHING) == a
  {
    NoneBefore(a.pieces);
  }

  /** The text of a `%b` operand from `i` on. */
  function EscapedText(s: string, i: nat): Printed
    decreases |s| - i
  {
    if C(s, i) == NUL then Printed([], false, false)
    else if s[i] == '\\' then
      EscapeInside(s, i, true);
      var e := EscapeAt(s, i, true);
      if e.stops then Printed(e.pieces, true, e.error) else After(Plainly(e.pieces), EscapedText(s, e.next))
    else After(Plainly([ByteOf(s[i] as nat)]), EscapedText(s, i + 1))
  }

  method PrintEscString(s: string) returns (printed: Printed)
    ensures printed == EscapedText(s, 0)
  {
    printed := NOTHING;
    var i: nat := 0;
    ghost var goal := EscapedText(s, 0);
    AfterNothing(goal);
    while C(s, i) != NUL && !printed.stopped
      invariant !printed.stopped ==> goal == After(printed, EscapedText(s, i))
      invariant printed.stopped ==> goal == printed
      decreases !printed.stopped, |s| - i
    {
      if s[i] == '\\' {
        EscapeInside(s, i, true);
        var e := PrintEsc(s, i, true);
        AfterAssoc(printed, Plainly(e.pieces), EscapedText(s, e.next));
        ErrorStops(s, i, true);
        printed := After(printed, Printed(e.pieces, e.stops, e.error));
        i := e.next;
      } else {
        AfterAssoc(printed, Plainly([ByteOf(s[i] as nat)]), EscapedText(s, i + 1));
        printed := After(printed, Plainly([ByteOf(s[i] as nat)]));
        i := i + 1;
      }
    }
    AfterNothing(printed);
  }

  /** Only what stops the output can be malformed. */
  lemma ErrorStops(s: string, i: nat, octal0: bool)
    ensures EscapeAt(s, i, octal0).error ==> EscapeAt(s, i, octal0).stops
  {
  }

  // ---------------------------------------------------------------- directives

  /** The next operand, or the one an `n$` names, counted from 0. */
  datatype Where = NextOperand | Operand(index: nat)

  datatype Place = Place(at: Where, next: nat) | BadPlace

  /** An `n$` at `i`, if there is one. */
  function PlaceAt(f: string, i: nat): Place {
    var end := DigitsEnd(f, i);
    if end == i || C(f, end) != '$' then Place(NextOperand, i)
    else
      var n := Value(f, i, 10, end - i);
      if n == 0 || n > MAX_POSITIONAL_INDEX then BadPlace else Place(Operand(n - 1), end + 1)
  }

  datatype Size = NoSize | Fixed(value: nat) | FromOperand(at: Where)

  datatype Sized = Sized(size: Size, next: nat) | BadSize

  /** A width or precision at `i`: a `*`, or digits not above `cap`. */
  function SizeAt(f: string, i: nat, cap: nat): Sized {
    if C(f, i) == '*' then
      match PlaceAt(f, i + 1)
      case BadPlace => BadSize
      case Place(at, next) => Sized(FromOperand(at), next)
    else
      var end := DigitsEnd(f, i);
      var n := Value(f, i, 10, end - i);
      if end == i then Sized(NoSize, i) else if n > cap then BadSize else Sized(Fixed(n), end)
  }

  predicate IsFlag(c: char) { c in "-+ #0'I" }

  predicate IsLength(c: char) { c in "hlLjzt" }

  function FlagsEnd(f: string, i: nat): (r: nat)
    ensures i <= r && (i <= |f| ==> r <= |f|)
    decreases |f| - i
  {
    if i < |f| && IsFlag(f[i]) then FlagsEnd(f, i + 1) else i
  }

  function LengthEnd(f: string, i: nat): (r: nat)
    ensures i <= r && (i <= |f| ==> r <= |f|)
    decreases |f| - i
  {
    if i < |f| && IsLength(f[i]) then LengthEnd(f, i + 1) else i
  }

  predicate HasFlag(f: string, from: nat, to: nat, c: char) {
    from <= to <= |f| && c in f[from..to]
  }

  /** Whether a conversion letter is allowed with these flags and a precision. */
  predicate Allowed(letter: char, quote: bool, hash: bool, zero: bool, dot: bool) {
    && letter in "aAcdeEfFgGiosuxX"
    && (quote ==> letter !in "aAceEosxX")
    && (hash ==> letter !in "cdisu")
    && (zero ==> letter !in "cs")
    && (dot ==> letter != 'c')
  }

  /** What stands at a position of the format. */
  datatype Item =
    | Plain(printed: Printed)
    | EscapedOperand(at: Where)
    | QuotedOperand(at: Where)
    | Conversion(at: Where, width: Size, precision: Size, directive: string)
    | Malformed

  datatype Parsed = Parsed(item: Item, next: nat)

  const FAILED := Parsed(Malformed, 0)

  /** The end of a directive: its length modifiers and its letter. */
  function LetterAt(f: string, start: nat, at: Where, flags: nat, flagsEnd: nat, width: Size, precision: Size,
      dot: bool, i: nat): Parsed {
    var end := LengthEnd(f, i);
    if Allowed(C(f, end), HasFlag(f, flags, flagsEnd, '\''), HasFlag(f, flags, flagsEnd, '#'),
        HasFlag(f, flags, flagsEnd, '0'), dot)
    then Parsed(Conversion(at, width, precision, Slice(f, start, end + 1)), end + 1)
    else FAILED
  }

  /** The end of a directive from the '.' of its precision. */
  function PrecisionAt(f: string, start: nat, at: Where, flags: nat, flagsEnd: nat, width: Size, dot: nat): Parsed {
    match SizeAt(f, dot + 1, MAX_PRECISION)
    case BadSize => FAILED
    case Sized(precision, k) => LetterAt(f, start, at, flags, flagsEnd, width, precision, true, k)
  }

  /** A directive after its `n$`: its flags, width, precision and letter. */
  function ConversionAt(f: string, start: nat, at: Where, i: nat): Parsed {
    var flagsEnd := FlagsEnd(f, i);
    match SizeAt(f, flagsEnd, MAX_FIELD_WIDTH)
    case BadSize => FAILED
    case Sized(width, j) =>
      if C(f, j) == '.' then PrecisionAt(f, start, at, i, flagsEnd, width, j)
      else LetterAt(f, start, at, i, flagsEnd, width, NoSize, false, j)
  }

  function DirectiveAt(f: string, i: nat): Parsed {
    if C(f, i + 1) == '%' then Parsed(Plain(Plainly([ByteOf('%' as nat)])), i + 2)
    else
      match PlaceAt(f, i + 1)
      case BadPlace => FAILED
      case Place(at, j) =>
        if C(f, j) == 'b' then Parsed(EscapedOperand(at), j + 1)
        else if C(f, j) == 'q' then Parsed(QuotedOperand(at), j + 1)
        else ConversionAt(f, i, at, j)
  }

  function ItemAt(f: string, i: nat): Parsed
    requires i < |f|
  {
    if f[i] == '%' then DirectiveAt(f, i)
    else if f[i] == '\\' then
      var e := EscapeAt(f, i, false);
      Parsed(Plain(Printed(e.pieces, e.stops, e.error)), e.next)
    else Parsed(Plain(Plainly([ByteOf(f[i] as nat)])), i + 1)
  }

  // ---------------------------------------------------------------- the cursor stays inside

  lemma PlaceInside(f: string, i: nat)
    requires i <= |f|
    ensures var p := PlaceAt(f, i); p.Place? ==> i <= p.next <= |f|
  {
  }

  lemma SizeInside(f: string, i: nat, cap: nat)
    requires i <= |f|
    ensures var s := SizeAt(f, i, cap); s.Sized? ==> i <= s.next <= |f|
  {
    if C(f, i) == '*' { PlaceInside(f, i + 1); }
  }

  lemma LetterInside(f: string, start: nat, at: Where, flags: nat, flagsEnd: nat, width: Size, precision: Size,
      dot: bool, i: nat)
    requires i <= |f|
    ensures var p := LetterAt(f, start, at, flags, flagsEnd, width, precision, dot, i);
      p.item.Malformed? || i < p.next <= |f|
  {
    if LengthEnd(f, i) == |f| { assert NUL !in "aAcdeEfFgGiosuxX"; }
  }

  lemma PrecisionInside(f: string, start: nat, at: Where, flags: nat, flagsEnd: nat, width: Size, dot: nat)
    requires dot < |f|
    ensures var p := PrecisionAt(f, start, at, flags, flagsEnd, width, dot);
      p.item.Malformed? || dot < p.next <= |f|
  {
    SizeInside(f, dot + 1, MAX_PRECISION);
    var p := SizeAt(f, dot + 1, MAX_PRECISION);
    if p.Sized? { LetterInside(f, start, at, flags, flagsEnd, width, p.size, true, p.next); }
  }

  lemma ConversionInside(f: string, start: nat, at: Where, i: nat)
    requires i <= |f|
    ensures var p := ConversionAt(f, start, at, i); p.item.Malformed? || i < p.next <= |f|
  {
    var flagsEnd := FlagsEnd(f, i);
    SizeInside(f, flagsEnd, MAX_FIELD_WIDTH);
    var w := SizeAt(f, flagsEnd, MAX_FIELD_WIDTH);
    if w.Sized? && C(f, w.next) == '.' { PrecisionInside(f, start, at, i, flagsEnd, w.size, w.next); }
    if w.Sized? { LetterInside(f, start, at, i, flagsEnd, w.size, NoSize, false, w.next); }
  }

  /** Whatever the format, every item moves the cursor on, and never past the terminator. */
  lemma ItemInside(f: string, i: nat)
    requires i < |f|
    ensures var p := ItemAt(f, i); p.item.Malformed? || i < p.next <= |f|
  {
    if f[i] == '%' {
      PlaceInside(f, i + 1);
      var p := PlaceAt(f, i + 1);
      if p.Place? { ConversionInside(f, i, p.at, p.next); }
    } else if f[i] == '\\' {
      EscapeInside(f, i, false);
    }
  }
}

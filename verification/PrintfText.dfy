/** What escapes and directives are written as, put together from their parts, and that reading
    them gives those parts back. */
module PrintfText {
  import opened PrintfFormat

  /** `s` stands in `f` at `i`. */
  predicate Stands(f: string, i: nat, s: string) {
    i + |s| <= |f| && f[i..i + |s|] == s
  }

  lemma StandsAt(f: string, i: nat, s: string, k: nat)
    requires Stands(f, i, s) && k < |s|
    ensures C(f, i + k) == f[i + k] == s[k]
  {
    assert f[i..i + |s|][k] == s[k];
  }

  lemma StandsSplit(f: string, i: nat, a: string, b: string)
    requires Stands(f, i, a + b)
    ensures Stands(f, i, a) && Stands(f, i + |a|, b)
  {
    assert (a + b)[..|a|] == a && (a + b)[|a|..] == b;
    assert f[i..i + |a + b|][..|a|] == f[i..i + |a|];
    assert f[i..i + |a + b|][|a|..] == f[i + |a|..i + |a| + |b|];
  }

  // ---------------------------------------------------------------- text

  /** How a byte may be written: as it is, by a named escape, by three octal or two hexadecimal
      digits. */
  datatype Spelling =
    | Itself(c: char)
    | Named(c: char)
    | Octal(high: nat, middle: nat, low: nat)
    | Hex(high: nat, low: nat)

  const OCTAL_DIGITS := "01234567"
  const HEX_DIGITS := "0123456789abcdef"

  predicate IsSpelling(sp: Spelling) {
    match sp
    case Itself(c) => c != '\\' && c != '\0'
    case Named(c) => c in "\"\\abefnrtv"
    case Octal(high, middle, low) => high < 8 && middle < 8 && low < 8
    case Hex(high, low) => high < 16 && low < 16
  }

  /** The byte that is meant. */
  function Meant(sp: Spelling): nat {
    match sp
    case Itself(c) => c as nat % 256
    case Named(c) =>
      if c == 'a' then 7 else if c == 'b' then 8 else if c == 'e' then 27 else if c == 'f' then 12
      else if c == 'n' then 10 else if c == 'r' then 13 else if c == 't' then 9 else if c == 'v' then 11
      else if c == '"' then 34 else 92
    case Octal(high, middle, low) => (64 * high + 8 * middle + low) % 256
    case Hex(high, low) => 16 * high + low
  }

  /** In an operand of `%b` an octal escape has a zero in front. */
  function Spelled(sp: Spelling, operand: bool): string
    requires IsSpelling(sp)
  {
    match sp
    case Itself(c) => [c]
    case Named(c) => ['\\', c]
    case Octal(high, middle, low) =>
      (if operand then "\\0" else "\\") + [OCTAL_DIGITS[high], OCTAL_DIGITS[middle], OCTAL_DIGITS[low]]
    case Hex(high, low) => "\\x" + [HEX_DIGITS[high], HEX_DIGITS[low]]
  }

  lemma OctalDigit(d: nat)
    requires d < 8
    ensures d != 0 ==> OCTAL_DIGITS[d] != '0'
    ensures IsDigitOf(8, OCTAL_DIGITS[d]) && DigitOf(OCTAL_DIGITS[d]) == d && OCTAL_DIGITS[d] != 'x'
  {
  }

  lemma HexDigit(d: nat)
    requires d < 16
    ensures IsDigitOf(16, HEX_DIGITS[d]) && DigitOf(HEX_DIGITS[d]) == d
  {
  }

  lemma ThreeOctal(s: string, i: nat, a: nat, b: nat, c: nat)
    requires a < 8 && b < 8 && c < 8 && Stands(s, i, [OCTAL_DIGITS[a], OCTAL_DIGITS[b], OCTAL_DIGITS[c]])
    ensures Count(s, i, 8, 3) == 3 && Value(s, i, 8, 3) == 64 * a + 8 * b + c
  {
    var t := [OCTAL_DIGITS[a], OCTAL_DIGITS[b], OCTAL_DIGITS[c]];
    StandsAt(s, i, t, 0);
    StandsAt(s, i, t, 1);
    StandsAt(s, i, t, 2);
    OctalDigit(a);
    OctalDigit(b);
    OctalDigit(c);
    assert Value(s, i, 8, 1) == a;
    assert Value(s, i, 8, 2) == 8 * a + b;
    assert Count(s, i + 2, 8, 1) == 1;
    assert Count(s, i + 1, 8, 2) == 2;
  }

  lemma TwoHex(s: string, i: nat, a: nat, b: nat)
    requires a < 16 && b < 16 && Stands(s, i, [HEX_DIGITS[a], HEX_DIGITS[b]])
    ensures Count(s, i, 16, 2) == 2 && Value(s, i, 16, 2) == 16 * a + b
  {
    var t := [HEX_DIGITS[a], HEX_DIGITS[b]];
    StandsAt(s, i, t, 0);
    StandsAt(s, i, t, 1);
    HexDigit(a);
    HexDigit(b);
    assert Value(s, i, 16, 1) == a;
    assert Count(s, i + 1, 16, 1) == 1;
  }

  lemma NamedEscape(s: string, i: nat, c: char, operand: bool)
    requires C(s, i + 1) == c && c in "\"\\abefnrtv"
    ensures EscapeAt(s, i, operand) == Escape(i + 2, [ByteOf(EscapeCode(c))], false, false)
  {
    assert c != 'x' && !IsDigitOf(8, c) && c in ESCAPE_LETTERS;
  }

  lemma NamedCode(c: char)
    requires c in "\"\\abefnrtv"
    ensures ByteOf(EscapeCode(c)) == Byte(Meant(Named(c)))
  {
  }

  /** The escape at `i` is the one that `sp` is written as. */
  predicate Reads(s: string, i: nat, sp: Spelling, operand: bool)
    requires IsSpelling(sp)
  {
    EscapeAt(s, i, operand) == Escape(i + |Spelled(sp, operand)|, [Byte(Meant(sp))], false, false)
  }

  lemma NamedMeans(s: string, i: nat, sp: Spelling, operand: bool)
    requires sp.Named? && IsSpelling(sp) && Stands(s, i, Spelled(sp, operand))
    ensures Reads(s, i, sp, operand)
  {
    StandsAt(s, i, ['\\', sp.c], 1);
    NamedEscape(s, i, sp.c, operand);
    NamedCode(sp.c);
  }

  lemma HexEscape(s: string, i: nat)
    requires C(s, i + 1) == 'x' && Count(s, i + 2, 16, 2) == 2
    ensures EscapeAt(s, i, false) == EscapeAt(s, i, true)
         == Escape(i + 4, [ByteOf(Value(s, i + 2, 16, 2))], false, false)
  {
  }

  lemma OctalEscape(s: string, i: nat, operand: bool)
    requires var q := if operand then i + 2 else i + 1; Count(s, q, 8, 3) == 3
    requires IsDigitOf(8, C(s, i + 1)) && C(s, i + 1) != 'x' && (operand ==> C(s, i + 1) == '0')
    ensures var q := if operand then i + 2 else i + 1;
      EscapeAt(s, i, operand) == Escape(q + 3, [ByteOf(Value(s, q, 8, 3))], false, false)
  {
  }

  lemma OctalReads(s: string, i: nat, a: nat, b: nat, c: nat, operand: bool)
    requires a < 8 && b < 8 && c < 8 && Stands(s, i, Spelled(Octal(a, b, c), operand))
    ensures EscapeAt(s, i, operand)
         == Escape(if operand then i + 5 else i + 4, [Byte((64 * a + 8 * b + c) % 256)], false, false)
  {
    var skipped, digits := if operand then "\\0" else "\\", [OCTAL_DIGITS[a], OCTAL_DIGITS[b], OCTAL_DIGITS[c]];
    StandsSplit(s, i, skipped, digits);
    StandsAt(s, i + |skipped|, digits, 0);
    OctalDigit(a);
    ThreeOctal(s, i + |skipped|, a, b, c);
    if operand { StandsAt(s, i, skipped, 1); }
    OctalEscape(s, i, operand);
  }

  lemma HexReads(s: string, i: nat, a: nat, b: nat, operand: bool)
    requires a < 16 && b < 16 && Stands(s, i, Spelled(Hex(a, b), operand))
    ensures EscapeAt(s, i, operand) == Escape(i + 4, [Byte(16 * a + b)], false, false)
  {
    StandsSplit(s, i, "\\x", [HEX_DIGITS[a], HEX_DIGITS[b]]);
    StandsAt(s, i, "\\x", 1);
    TwoHex(s, i + 2, a, b);
    HexEscape(s, i);
  }

  lemma OctalMeans(s: string, i: nat, sp: Spelling, operand: bool)
    requires sp.Octal? && IsSpelling(sp) && Stands(s, i, Spelled(sp, operand))
    ensures Reads(s, i, sp, operand)
  {
    OctalReads(s, i, sp.high, sp.middle, sp.low, operand);
  }

  lemma HexMeans(s: string, i: nat, sp: Spelling, operand: bool)
    requires sp.Hex? && IsSpelling(sp) && Stands(s, i, Spelled(sp, operand))
    ensures Reads(s, i, sp, operand)
  {
    HexReads(s, i, sp.high, sp.low, operand);
  }

  /** An escape is read as the byte that it means. */
  lemma EscapeMeans(s: string, i: nat, sp: Spelling, operand: bool)
    requires IsSpelling(sp) && !sp.Itself? && Stands(s, i, Spelled(sp, operand))
    ensures Reads(s, i, sp, operand)
  {
    match sp
    case Named(_) => NamedMeans(s, i, sp, operand);
    case Octal(_, _, _) => OctalMeans(s, i, sp, operand);
    case Hex(_, _) => HexMeans(s, i, sp, operand);
  }

  lemma FourHex(s: string, i: nat, a: nat, b: nat, c: nat, d: nat)
    requires a < 16 && b < 16 && c < 16 && d < 16
    requires Stands(s, i, [HEX_DIGITS[a], HEX_DIGITS[b], HEX_DIGITS[c], HEX_DIGITS[d]])
    ensures Count(s, i, 16, 4) == 4 && Value(s, i, 16, 4) == 4096 * a + 256 * b + 16 * c + d
  {
    var front, back := [HEX_DIGITS[a], HEX_DIGITS[b]], [HEX_DIGITS[c], HEX_DIGITS[d]];
    assert front + back == [HEX_DIGITS[a], HEX_DIGITS[b], HEX_DIGITS[c], HEX_DIGITS[d]];
    StandsSplit(s, i, front, back);
    TwoHex(s, i, a, b);
    TwoHex(s, i + 2, c, d);
    StandsAt(s, i, front, 0);
    StandsAt(s, i, front, 1);
    StandsAt(s, i + 2, back, 0);
    StandsAt(s, i + 2, back, 1);
    HexDigit(a);
    HexDigit(b);
    HexDigit(c);
    HexDigit(d);
    assert Value(s, i, 16, 3) == 256 * a + 16 * b + c;
    assert Count(s, i + 1, 16, 3) == 3;
  }

  /** `\\u` and four hexadecimal digits are the bytes of that character, unless it is half of a
      surrogate pair, which is an error. */
  lemma UnicodeMeans(s: string, i: nat, a: nat, b: nat, c: nat, d: nat, operand: bool)
    requires a < 16 && b < 16 && c < 16 && d < 16
    requires Stands(s, i, "\\u" + [HEX_DIGITS[a], HEX_DIGITS[b], HEX_DIGITS[c], HEX_DIGITS[d]])
    ensures var code := 4096 * a + 256 * b + 16 * c + d;
      EscapeAt(s, i, operand) == if 0xD800 <= code <= 0xDFFF then Escape(i + 6, [], true, true)
                                 else Escape(i + 6, Bytes(Utf8.Encode(code)), false, false)
  {
    StandsSplit(s, i, "\\u", [HEX_DIGITS[a], HEX_DIGITS[b], HEX_DIGITS[c], HEX_DIGITS[d]]);
    StandsAt(s, i, "\\u", 1);
    FourHex(s, i + 2, a, b, c, d);
    UnicodeEscape(s, i, operand);
  }

  lemma UnicodeEscape(s: string, i: nat, operand: bool)
    requires C(s, i + 1) == 'u' && Count(s, i + 2, 16, 4) == 4
    ensures var code := Value(s, i + 2, 16, 4);
      EscapeAt(s, i, operand) == if 0xD800 <= code <= 0xDFFF then Escape(i + 6, [], true, true)
                                 else Escape(i + 6, Bytes(Utf8.Encode(code)), false, false)
  {
  }

  predicate AllSpellings(sps: seq<Spelling>) {
    forall k :: 0 <= k < |sps| ==> IsSpelling(sps[k])
  }

  function OperandText(sps: seq<Spelling>): string
    requires AllSpellings(sps)
  {
    if sps == [] then "" else Spelled(sps[0], true) + OperandText(sps[1..])
  }

  function MeantBytes(sps: seq<Spelling>): seq<Piece> {
    if sps == [] then [] else [Byte(Meant(sps[0]))] + MeantBytes(sps[1..])
  }

  lemma EscapedTextCons(s: string, i: nat, b: nat, next: nat, rest: seq<Piece>)
    requires i < |s| && s[i] != NUL && EscapedText(s, next) == Plainly(rest)
    requires if s[i] == '\\' then EscapeAt(s, i, true) == Escape(next, [Byte(b)], false, false)
             else next == i + 1 && b == s[i] as nat % 256
    ensures EscapedText(s, i) == Plainly([Byte(b)] + rest)
  {
  }

  lemma OneMeans(s: string, i: nat, sp: Spelling)
    requires IsSpelling(sp) && Stands(s, i, Spelled(sp, true))
    ensures var next := i + |Spelled(sp, true)|;
      && i < |s| && s[i] != NUL
      && if s[i] == '\\' then EscapeAt(s, i, true) == Escape(next, [Byte(Meant(sp))], false, false)
         else next == i + 1 && Meant(sp) == s[i] as nat % 256
  {
    StandsAt(s, i, Spelled(sp, true), 0);
    if !sp.Itself? { EscapeMeans(s, i, sp, true); }
  }

  lemma {:induction false} OperandMeansFrom(s: string, i: nat, sps: seq<Spelling>)
    requires AllSpellings(sps) && Stands(s, i, OperandText(sps)) && i + |OperandText(sps)| == |s|
    ensures EscapedText(s, i) == Plainly(MeantBytes(sps))
    decreases |sps|
  {
    if sps != [] {
      var t, rest := Spelled(sps[0], true), sps[1..];
      StandsSplit(s, i, t, OperandText(rest));
      OperandMeansFrom(s, i + |t|, rest);
      OneMeans(s, i, sps[0]);
      EscapedTextCons(s, i, Meant(sps[0]), i + |t|, MeantBytes(rest));
    }
  }

  /** An operand of `%b` is printed as the bytes that its spelling means. */
  lemma OperandMeans(sps: seq<Spelling>)
    requires AllSpellings(sps)
    ensures EscapedText(OperandText(sps), 0) == Plainly(MeantBytes(sps))
  {
    var s := OperandText(sps);
    assert s[0..|s|] == s;
    OperandMeansFrom(s, 0, sps);
  }

  // ---------------------------------------------------------------- the other escapes

  /** `\c` stops the output; a backslash at the end, or before a character without a meaning, stands
      for itself, as does that character; and `\x` without a digit is an error that stops the
      output. */
  lemma OtherEscapes(s: string, i: nat, operand: bool, c: char)
    requires c == C(s, i + 1)
    ensures c == 'c' ==> EscapeAt(s, i, operand) == Escape(i + 2, [], true, false)
    ensures c == '\0' ==> EscapeAt(s, i, operand) == Escape(i + 1, [Byte(92)], false, false)
    ensures c != '\0' && c !in "01234567" && c !in "\"\\abcefnrtv" && c != 'x' && c != 'u' && c != 'U' ==>
      EscapeAt(s, i, operand) == Escape(i + 2, [Byte(92), Byte(c as nat % 256)], false, false)
    ensures c == 'x' && !IsDigitOf(16, C(s, i + 2)) ==> EscapeAt(s, i, operand) == Escape(i + 2, [], true, true)
  {
    if '0' <= c <= '7' { assert c == "01234567"[c as int - '0' as int]; }
  }

  /** Digits stand at `i`, and no other digit behind them. */
  predicate EndsDigits(s: string, i: nat, base: nat, n: nat) {
    i + n <= |s| && (forall k :: i <= k < i + n ==> IsDigitOf(base, s[k])) && !IsDigitOf(base, C(s, i + n))
  }

  lemma {:induction false} CountEnds(s: string, i: nat, base: nat, max: nat, n: nat)
    requires n <= max && EndsDigits(s, i, base, n)
    ensures Count(s, i, base, max) == n
    decreases n
  {
    if n > 0 { CountEnds(s, i + 1, base, max - 1, n - 1); }
  }

  /** An octal escape may have one digit. */
  lemma OneOctal(s: string, i: nat, a: nat, operand: bool)
    requires a < 8 && (operand ==> a != 0) && C(s, i + 1) == OCTAL_DIGITS[a] && EndsDigits(s, i + 1, 8, 1)
    ensures EscapeAt(s, i, operand) == Escape(i + 2, [Byte(a)], false, false)
  {
    OctalDigit(a);
    CountEnds(s, i + 1, 8, 3, 1);
    assert Value(s, i + 1, 8, 0) == 0;
    assert Value(s, i + 1, 8, 1) == a;
  }

  /** Or two. */
  lemma TwoOctal(s: string, i: nat, a: nat, b: nat, operand: bool)
    requires a < 8 && b < 8 && (operand ==> a != 0) && C(s, i + 1) == OCTAL_DIGITS[a] && C(s, i + 2) == OCTAL_DIGITS[b]
    requires EndsDigits(s, i + 1, 8, 2)
    ensures EscapeAt(s, i, operand) == Escape(i + 3, [Byte(8 * a + b)], false, false)
  {
    OctalDigit(a);
    OctalDigit(b);
    CountEnds(s, i + 1, 8, 3, 2);
    assert Value(s, i + 1, 8, 0) == 0;
    assert Value(s, i + 1, 8, 1) == a;
    assert Value(s, i + 1, 8, 2) == 8 * a + b;
  }

  /** A hexadecimal escape may have one digit. */
  lemma OneHex(s: string, i: nat, a: nat, operand: bool)
    requires a < 16 && C(s, i + 1) == 'x' && C(s, i + 2) == HEX_DIGITS[a] && EndsDigits(s, i + 2, 16, 1)
    ensures EscapeAt(s, i, operand) == Escape(i + 3, [Byte(a)], false, false)
  {
    HexDigit(a);
    CountEnds(s, i + 2, 16, 2, 1);
    assert Value(s, i + 2, 16, 0) == 0;
    assert Value(s, i + 2, 16, 1) == a;
  }

  /** `\u` takes four hexadecimal digits and `\U` eight; with fewer, it is an error that stops the
      output. */
  lemma ShortCharacter(s: string, i: nat, operand: bool, n: nat)
    requires (C(s, i + 1) == 'u' && n < 4) || (C(s, i + 1) == 'U' && n < 8)
    requires EndsDigits(s, i + 2, 16, n)
    ensures EscapeAt(s, i, operand) == Escape(i + 2 + n, [], true, true)
  {
    CountEnds(s, i + 2, 16, if C(s, i + 1) == 'u' then 4 else 8, n);
  }

  /** The eight digits of `\U`, as two groups of four. */
  lemma LongCharacter(s: string, i: nat, operand: bool, high: nat, low: nat, code: nat)
    requires C(s, i + 1) == 'U' && Count(s, i + 2, 16, 8) == 8
    requires high == Value(s, i + 2, 16, 4) && low == Value(s, i + 6, 16, 4) && code == 65536 * high + low
    ensures EscapeAt(s, i, operand) == if 0xD800 <= code <= 0xDFFF then Escape(i + 10, [], true, true)
                                       else Escape(i + 10, Bytes(Utf8.Encode(code)), false, false)
  {
    EightDigits(s, i + 2, high, low);
    LongEscape(s, i, operand, code);
  }

  lemma EightDigits(s: string, i: nat, high: nat, low: nat)
    requires high == Value(s, i, 16, 4) && low == Value(s, i + 4, 16, 4)
    ensures Value(s, i, 16, 8) == 65536 * high + low
  {
    ValueGroups(s, i, 4);
  }

  lemma {:induction false} ValueGroups(s: string, i: nat, n: nat)
    requires n <= 4
    ensures Value(s, i, 16, 4 + n)
         == Value(s, i, 16, 4) * (if n == 0 then 1 else if n == 1 then 16 else if n == 2 then 256
                                  else if n == 3 then 4096 else 65536) + Value(s, i + 4, 16, n)
  {
    if n > 0 { ValueGroups(s, i, n - 1); }
  }

  lemma LongEscape(s: string, i: nat, operand: bool, code: nat)
    requires C(s, i + 1) == 'U' && Count(s, i + 2, 16, 8) == 8 && code == Value(s, i + 2, 16, 8)
    ensures EscapeAt(s, i, operand) == if 0xD800 <= code <= 0xDFFF then Escape(i + 10, [], true, true)
                                       else Escape(i + 10, Bytes(Utf8.Encode(code)), false, false)
  {
  }
}

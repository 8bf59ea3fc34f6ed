/** The spec file's fields and numbers as they stand in the file, spelled out. */
module SpecText {
  import opened Optional
  import opened Text
  import opened Sequences
  import opened SpecCodec

  // ---------------------------------------------------------------- writing a field

  /** Five characters are written as a percent sign and their code. */
  function SpeltCharacter(c: char): string {
    if c == '%' then "%25"
    else if c == ',' then "%2C"
    else if c == '\t' then "%09"
    else if c == '\n' then "%0A"
    else if c == '\r' then "%0D"
    else [c]
  }

  function Spelt(s: string): string {
    if s == "" then "" else SpeltCharacter(s[0]) + Spelt(s[1..])
  }

  lemma CharacterSpelt(c: char)
    ensures EncodeChar(c) == SpeltCharacter(c)
  {
  }

  lemma {:induction false} FieldSpelt(s: string)
    ensures EncodeField(s) == Spelt(s)
  {
    if s != "" {
      CharacterSpelt(s[0]);
      FieldSpelt(s[1..]);
    }
  }

  /** The elements, with commas between. */
  function SpeltList(values: seq<string>): string {
    if values == [] then ""
    else if |values| == 1 then Spelt(values[0])
    else Spelt(values[0]) + "," + SpeltList(values[1..])
  }

  lemma {:induction false} ListSpelt(values: seq<string>)
    ensures EncodeList(values) == SpeltList(values)
  {
    if values != [] {
      FieldSpelt(values[0]);
      ListSpelt(values[1..]);
      assert EncodeAll(values)[1..] == EncodeAll(values[1..]);
    }
  }

  // ---------------------------------------------------------------- reading a field

  /** What may stand in a field: a character for itself, or a percent sign and two digits. */
  datatype Cell = Itself(c: char) | Code(high: char, low: char)

  predicate IsHex(c: char) {
    c in "0123456789" || c in "abcdef" || c in "ABCDEF"
  }

  function HexMeans(c: char): nat
    requires IsHex(c)
  {
    if c in "0123456789" then c as int - '0' as int
    else if c in "abcdef" then c as int - 'a' as int + 10
    else c as int - 'A' as int + 10
  }

  predicate IsCell(cell: Cell) {
    match cell
    case Itself(c) => c != '%'
    case Code(high, low) => IsHex(high) && IsHex(low)
  }

  function CellText(cell: Cell): string {
    match cell
    case Itself(c) => [c]
    case Code(high, low) => ['%', high, low]
  }

  function CellMeans(cell: Cell): char
    requires IsCell(cell)
  {
    match cell
    case Itself(c) => c
    case Code(high, low) => (16 * HexMeans(high) + HexMeans(low)) as char
  }

  function CellsText(cells: seq<Cell>): string {
    if cells == [] then "" else CellText(cells[0]) + CellsText(cells[1..])
  }

  function CellsMean(cells: seq<Cell>): (r: string)
    requires forall k :: 0 <= k < |cells| ==> IsCell(cells[k])
    ensures |r| == |cells|
  {
    seq(|cells|, k requires 0 <= k < |cells| => CellMeans(cells[k]))
  }

  /** A percent sign that no two hexadecimal digits follow. */
  predicate Dangles(s: string) {
    s != "" && s[0] == '%' && (|s| < 3 || !IsHex(s[1]) || !IsHex(s[2]))
  }

  lemma HexIs(c: char)
    ensures HexValue(c) == if IsHex(c) then HexMeans(c) else -1
  {
    if '0' <= c <= '9' {
      assert c == "0123456789"[c as int - '0' as int];
    } else if 'a' <= c <= 'f' {
      assert c == "abcdef"[c as int - 'a' as int];
    } else if 'A' <= c <= 'F' {
      assert c == "ABCDEF"[c as int - 'A' as int];
    }
  }

  lemma OneCell(cell: Cell, rest: string)
    requires IsCell(cell)
    ensures DecodeField(CellText(cell) + rest) == Prepend(CellMeans(cell), DecodeField(rest))
  {
    match cell
    case Itself(c) => assert ([c] + rest)[1..] == rest;
    case Code(high, low) => OneCode(high, low, rest);
  }

  lemma OneCode(high: char, low: char, rest: string)
    requires IsHex(high) && IsHex(low)
    ensures DecodeField(['%', high, low] + rest)
         == Prepend((16 * HexMeans(high) + HexMeans(low)) as char, DecodeField(rest))
  {
    HexIs(high);
    HexIs(low);
    assert (['%', high, low] + rest)[3..] == rest;
  }

  lemma PrependJoined(c: char, text: string, rest: Option<string>)
    ensures Prepend(c, Joined(text, rest)) == Joined([c] + text, rest)
  {
    match rest
    case None =>
    case Some(r) => Assoc([c], text, r);
  }

  lemma CellsMeanCons(cells: seq<Cell>)
    requires cells != [] && forall k :: 0 <= k < |cells| ==> IsCell(cells[k])
    ensures CellsMean(cells) == [CellMeans(cells[0])] + CellsMean(cells[1..])
  {
  }

  lemma {:induction false} CellsRead(cells: seq<Cell>, rest: string)
    requires forall k :: 0 <= k < |cells| ==> IsCell(cells[k])
    ensures DecodeField(CellsText(cells) + rest) == Joined(CellsMean(cells), DecodeField(rest))
    decreases |cells|
  {
    if cells == [] {
      NoneBefore(rest);
      JoinedEmpty(DecodeField(rest));
    } else {
      CellsRead(cells[1..], rest);
      Assoc(CellText(cells[0]), CellsText(cells[1..]), rest);
      OneCell(cells[0], CellsText(cells[1..]) + rest);
      CellsMeanCons(cells);
      PrependJoined(CellMeans(cells[0]), CellsMean(cells[1..]), DecodeField(rest));
    }
  }

  /** A field of cells is read as what they mean, and one with a percent sign that no two digits
      follow is refused. */
  lemma FieldRead(cells: seq<Cell>, bad: string)
    requires forall k :: 0 <= k < |cells| ==> IsCell(cells[k])
    ensures DecodeField(CellsText(cells)) == Some(CellsMean(cells))
    ensures Dangles(bad) ==> DecodeField(CellsText(cells) + bad) == None
  {
    CellsRead(cells, "");
    NoneBefore(CellsText(cells));
    NoneBefore(CellsMean(cells));
    CellsRead(cells, bad);
    if Dangles(bad) && |bad| >= 3 {
      HexIs(bad[1]);
      HexIs(bad[2]);
    }
  }

  /** There is no other field. */
  lemma {:induction false} EveryField(s: string) returns (cells: seq<Cell>, bad: string)
    ensures forall k :: 0 <= k < |cells| ==> IsCell(cells[k])
    ensures s == CellsText(cells) + bad && (bad == "" || Dangles(bad))
  {
    if s == "" || Dangles(s) {
      cells, bad := [], s;
    } else {
      var cell := if s[0] == '%' then Code(s[1], s[2]) else Itself(s[0]);
      var rest := if s[0] == '%' then s[3..] else s[1..];
      assert s == CellText(cell) + rest;
      cells, bad := EveryField(rest);
      Assoc(CellText(cell), CellsText(cells), bad);
      cells := [cell] + cells;
    }
  }

  lemma {:induction false} AllRead(parts: seq<string>)
    ensures var r := DecodeAll(parts);
      && (r.Some? <==> forall k :: 0 <= k < |parts| ==> DecodeField(parts[k]).Some?)
      && (r.Some? ==>
          |r.value| == |parts| && forall k :: 0 <= k < |parts| ==> DecodeField(parts[k]) == Some(r.value[k]))
  {
    if parts != [] {
      AllRead(parts[1..]);
      forall k | 0 < k < |parts| ensures parts[k] == parts[1..][k - 1] {}
    }
  }

  /** The parts, with commas between. */
  function Commas(parts: seq<string>): string {
    if parts == [] then ""
    else if |parts| == 1 then parts[0]
    else parts[0] + "," + Commas(parts[1..])
  }

  lemma {:induction false} CommasJoin(parts: seq<string>)
    ensures Join(parts, ',') == Commas(parts)
  {
    if |parts| > 1 { CommasJoin(parts[1..]); }
  }

  /** A list is read part by part, and refused when one of its parts is; nothing at all is the
      empty list. */
  lemma ListRead(parts: seq<string>)
    requires forall k :: 0 <= k < |parts| ==> ',' !in parts[k]
    requires Commas(parts) == "" ==> parts == []
    ensures var r := DecodeList(Commas(parts));
      && (r.Some? <==> forall k :: 0 <= k < |parts| ==> DecodeField(parts[k]).Some?)
      && (r.Some? ==>
          |r.value| == |parts| && forall k :: 0 <= k < |parts| ==> DecodeField(parts[k]) == Some(r.value[k]))
  {
    AllRead(parts);
    if parts != [] {
      FreeEach(parts, ',');
      SplitJoin(parts, ',');
      CommasJoin(parts);
    }
  }

  // ---------------------------------------------------------------- numbers

  function Ten(n: nat): nat {
    if n == 0 then 1 else 10 * Ten(n - 1)
  }

  /** Each digit times the power of ten of its place. */
  function Number(digits: string): nat
    requires AllDigits(digits)
  {
    if digits == "" then 0
    else (digits[0] as int - '0' as int) * Ten(|digits| - 1) + Number(digits[1..])
  }

  lemma {:induction false} NumberSnoc(digits: string, c: char)
    requires AllDigits(digits) && IsDigit(c)
    ensures AllDigits(digits + [c]) && Number(digits + [c]) == 10 * Number(digits) + (c as int - '0' as int)
  {
    var all := digits + [c];
    if digits == "" {
      assert all[1..] == "" && Ten(0) == 1;
    } else {
      NumberSnoc(digits[1..], c);
      assert all[1..] == digits[1..] + [c];
      var d := digits[0] as int - '0' as int;
      Moved(d, Ten(|digits| - 1));
    }
  }

  lemma Moved(d: nat, t: nat)
    ensures d * (10 * t) == 10 * (d * t)
  {
  }

  lemma {:induction false} ValueIsNumber(digits: string)
    requires AllDigits(digits)
    ensures Value(digits) == Number(digits)
  {
    if digits != "" {
      var n := |digits| - 1;
      ValueIsNumber(digits[..n]);
      NumberSnoc(digits[..n], digits[n]);
      assert digits == digits[..n] + [digits[n]];
    }
  }

  lemma {:induction false} DecimalStarts(n: nat)
    ensures n > 0 ==> ToDecimal(n)[0] != '0'
  {
    if n >= 10 { DecimalStarts(n / 10); }
  }

  /** A number is written in decimal digits, without a leading zero. */
  lemma NumberWritten(n: nat)
    ensures Number(ToDecimal(n)) == n && ToDecimal(n) != "" && (n > 0 ==> ToDecimal(n)[0] != '0')
  {
    DecimalValue(n);
    ValueIsNumber(ToDecimal(n));
    DecimalStarts(n);
  }

  /** What `stoul` accepts: white space, perhaps a sign, and digits. */
  predicate IsWritten(blanks: string, sign: string, digits: string) {
    && (forall k :: 0 <= k < |blanks| ==> IsSpace(blanks[k])) && sign in ["", "+", "-"]
    && digits != "" && AllDigits(digits)
  }

  lemma {:induction false} SpacesSkipped(blanks: string, rest: string)
    requires forall k :: 0 <= k < |blanks| ==> IsSpace(blanks[k])
    requires rest == "" || !IsSpace(rest[0])
    ensures SkipSpaces(blanks + rest) == rest
  {
    if blanks == "" {
      NoneBefore(rest);
    } else {
      SpacesSkipped(blanks[1..], rest);
      assert (blanks + rest)[1..] == blanks[1..] + rest;
    }
  }

  /** What is read from a number with this sign. */
  function Signed(sign: string, v: nat): nat {
    if v >= 0x1_0000_0000_0000_0000 then 0
    else if sign == "-" && v > 0 then 0x1_0000_0000_0000_0000 - v
    else v
  }

  lemma DigitsRead(s: string, digits: string)
    requires digits != "" && AllDigits(digits) && SkipSpaces(s) == digits
    ensures ParseIndex(s) == Signed("", Value(digits))
  {
    assert IsDigit(digits[0]);
  }

  lemma SignedRead(s: string, sign: char, digits: string)
    requires digits != "" && AllDigits(digits) && (sign == '+' || sign == '-') && SkipSpaces(s) == [sign] + digits
    ensures ParseIndex(s) == Signed([sign], Value(digits))
  {
    assert ([sign] + digits)[1..] == digits;
  }

  /** Such a text is read as its number if that fits in 64 bits, and otherwise as 0; with a minus
      sign it is what must be added to it to get to 2 to the power of 64. */
  lemma IndexRead(blanks: string, sign: string, digits: string)
    requires IsWritten(blanks, sign, digits)
    ensures ParseIndex(blanks + (sign + digits)) == Signed(sign, Number(digits))
  {
    assert IsDigit(digits[0]);
    assert !IsSpace((sign + digits)[0]);
    SpacesSkipped(blanks, sign + digits);
    ValueIsNumber(digits);
    if sign == "" {
      NoneBefore(digits);
      DigitsRead(blanks + digits, digits);
    } else {
      SignedRead(blanks + (sign + digits), sign[0], digits);
    }
  }

  lemma {:induction false} SkippedSpaces(s: string) returns (blanks: string)
    ensures s == blanks + SkipSpaces(s) && forall k :: 0 <= k < |blanks| ==> IsSpace(blanks[k])
  {
    if s != "" && IsSpace(s[0]) {
      blanks := SkippedSpaces(s[1..]);
      blanks := [s[0]] + blanks;
    } else {
      blanks := "";
    }
  }

  /** Every other text is read as 0. */
  lemma IndexRefused(s: string)
    requires forall blanks, sign, digits :: IsWritten(blanks, sign, digits) ==> s != blanks + (sign + digits)
    ensures ParseIndex(s) == 0
  {
    var blanks := SkippedSpaces(s);
    var t := SkipSpaces(s);
    var signed := t != "" && (t[0] == '-' || t[0] == '+');
    var sign, digits := if signed then [t[0]] else "", if signed then t[1..] else t;
    assert t == sign + digits;
    assert !IsWritten(blanks, sign, digits);
  }
}

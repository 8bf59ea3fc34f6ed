/** The field, list and line codec of the completion-spec file format. */
module SpecCodec {
  import opened Optional
  import opened Text
  import opened Sequences

  type Size = n: nat | n < 0x1_0000_0000_0000_0000

  // ---------------------------------------------------------------- fields

  predicate IsEncoded(c: char) {
    c == '%' || c == ',' || c == '\t' || c == '\n' || c == '\r'
  }

  function HexDigit(d: nat): char
    requires d < 16
  {
    if d < 10 then (d + 48) as char else (d + 55) as char
  }

  /** `hex_value`. */
  function HexValue(c: char): (r: int)
    ensures -1 <= r < 16
  {
    if '0' <= c <= '9' then c as int - '0' as int
    else if 'a' <= c <= 'f' then 10 + c as int - 'a' as int
    else if 'A' <= c <= 'F' then 10 + c as int - 'A' as int
    else -1
  }

  function EncodeChar(c: char): (r: string)
    ensures r != ""
  {
    if IsEncoded(c) then ['%', HexDigit(c as int / 16), HexDigit(c as int % 16)] else [c]
  }

  /** `encode_field`. */
  function EncodeField(value: string): string {
    if value == "" then "" else EncodeChar(value[0]) + EncodeField(value[1..])
  }

  function Prepend(c: char, rest: Option<string>): Option<string> {
    match rest
    case None => None
    case Some(r) => Some([c] + r)
  }

  /** `decode_field`. */
  function DecodeField(value: string): Option<string> {
    if value == "" then Some("")
    else if value[0] != '%' then Prepend(value[0], DecodeField(value[1..]))
    else if |value| < 3 || HexValue(value[1]) < 0 || HexValue(value[2]) < 0 then None
    else Prepend((HexValue(value[1]) * 16 + HexValue(value[2])) as char, DecodeField(value[3..]))
  }

  lemma {:induction false} EncodeFieldAppend(a: string, b: string)
    ensures EncodeField(a + b) == EncodeField(a) + EncodeField(b)
  {
    if a == "" {
      assert a + b == b;
    } else {
      EncodeFieldAppend(a[1..], b);
      assert (a + b)[1..] == a[1..] + b && (a + b)[0] == a[0];
      Assoc(EncodeChar(a[0]), EncodeField(a[1..]), EncodeField(b));
    }
  }

  lemma DecodeEscape(c: char, rest: string)
    requires IsEncoded(c)
    ensures DecodeField(EncodeChar(c) + rest) == Prepend(c, DecodeField(rest))
  {
    var s := EncodeChar(c) + rest;
    assert s[3..] == rest;
    assert HexValue(s[1]) == c as int / 16 && HexValue(s[2]) == c as int % 16;
  }

  /** Decoding undoes encoding, for every string. */
  lemma {:induction false} FieldRoundTrip(value: string)
    ensures DecodeField(EncodeField(value)) == Some(value)
  {
    if value != "" {
      var rest := EncodeField(value[1..]);
      FieldRoundTrip(value[1..]);
      if IsEncoded(value[0]) {
        DecodeEscape(value[0], rest);
      } else {
        assert ([value[0]] + rest)[1..] == rest;
      }
      assert value == [value[0]] + value[1..];
    }
  }

  /** An encoded field holds no separator of the format. */
  lemma {:induction false} FieldHasNoSeparator(value: string)
    ensures forall c :: c in EncodeField(value) ==> c != ',' && c != '\t' && c != '\n' && c != '\r'
    ensures EncodeField(value) == "" <==> value == ""
  {
    if value != "" {
      FieldHasNoSeparator(value[1..]);
      var c := value[0];
      if IsEncoded(c) {
        assert c as int == 37 || c as int == 44 || c as int == 9 || c as int == 10 || c as int == 13;
      }
    }
  }

  method WriteField(value: string) returns (encoded: string)
    ensures encoded == EncodeField(value)
  {
    encoded := "";
    for index := 0 to |value|
      invariant encoded == EncodeField(value[..index])
    {
      var ch := value[index];
      assert value[..index + 1] == value[..index] + [ch];
      EncodeFieldAppend(value[..index], [ch]);
      if ch == '%' || ch == ',' || ch == '\t' || ch == '\n' || ch == '\r' {
        encoded := encoded + ['%', HexDigit(ch as int / 16), HexDigit(ch as int % 16)];
      } else {
        encoded := encoded + [ch];
      }
    }
    assert value[..|value|] == value;
  }

  function Joined(prefix: string, rest: Option<string>): Option<string> {
    match rest
    case None => None
    case Some(r) => Some(prefix + r)
  }

  lemma JoinedEmpty(rest: Option<string>)
    ensures Joined("", rest) == rest
  {
    match rest
    case None =>
    case Some(r) => assert "" + r == r;
  }

  lemma JoinedOne(prefix: string, c: char, rest: Option<string>)
    ensures Joined(prefix, Prepend(c, rest)) == Joined(prefix + [c], rest)
  {
    match rest
    case None =>
    case Some(r) => Assoc(prefix, [c], r);
  }

  method ReadField(value: string) returns (result: Option<string>)
    ensures result == DecodeField(value)
  {
    var decoded := "";
    var index := 0;
    assert value[0..] == value;
    JoinedEmpty(DecodeField(value));
    while index < |value|
      invariant index <= |value|
      invariant DecodeField(value) == Joined(decoded, DecodeField(value[index..]))
    {
      ghost var rest := value[index..];
      if value[index] != '%' {
        assert rest[1..] == value[index + 1..];
        JoinedOne(decoded, value[index], DecodeField(rest[1..]));
        decoded := decoded + [value[index]];
        index := index + 1;
        continue;
      }
      if index + 2 >= |value| {
        return None;
      }
      var high := HexValue(value[index + 1]);
      var low := HexValue(value[index + 2]);
      if high < 0 || low < 0 {
        return None;
      }
      assert rest[3..] == value[index + 3..];
      JoinedOne(decoded, (high * 16 + low) as char, DecodeField(rest[3..]));
      decoded := decoded + [(high * 16 + low) as char];
      index := index + 3;
    }
    assert value[index..] == "";
    assert decoded + "" == decoded;
    return Some(decoded);
  }

  // ---------------------------------------------------------------- splitting and joining

  function Join(parts: seq<string>, sep: char): string {
    if parts == [] then ""
    else if |parts| == 1 then parts[0]
    else parts[0] + [sep] + Join(parts[1..], sep)
  }

  /** The pieces of `s` from `start` on. */
  function Split(s: string, sep: char, start: nat): (r: seq<string>)
    requires start <= |s|
    ensures |r| >= 1
    decreases |s| - start
  {
    var k := Find(s, sep, start);
    if k == NPOS then [s[start..]] else [s[start..k]] + Split(s, sep, k + 1)
  }

  /** No piece holds the separator. */
  predicate Free(parts: seq<string>, sep: char) {
    parts != [] ==> sep !in parts[0] && Free(parts[1..], sep)
  }

  lemma {:induction false} FreeEach(parts: seq<string>, sep: char)
    requires forall k :: 0 <= k < |parts| ==> sep !in parts[k]
    ensures Free(parts, sep)
  {
    if parts != [] { FreeEach(parts[1..], sep); }
  }

  lemma PieceEnds(s: string, before: string, piece: string, sep: char, rest: string)
    requires s == ((before + piece) + [sep]) + rest && sep !in piece
    ensures Find(s, sep, |before|) == |before| + |piece|
    ensures s[|before|..|before| + |piece|] == piece
  {
    forall i | |before| <= i < |before| + |piece| ensures s[i] != sep {
      assert s[i] == piece[i - |before|];
    }
    FindAt(s, sep, |before|, |before| + |piece|);
  }

  lemma LastPiece(s: string, before: string, piece: string, sep: char)
    requires s == before + piece && sep !in piece
    ensures Find(s, sep, |before|) == NPOS
    ensures s[|before|..] == piece
  {
    forall i | |before| <= i < |s| ensures s[i] != sep {
      assert s[i] == piece[i - |before|];
    }
    FindMisses(s, sep, |before|);
  }

  lemma SplitAtFound(s: string, sep: char, start: nat, k: nat, piece: string, after: nat)
    requires start <= k < |s| && Find(s, sep, start) == k && s[start..k] == piece && after == k + 1
    ensures Split(s, sep, start) == [piece] + Split(s, sep, after)
  {
  }

  lemma FirstPiece(s: string, before: string, piece: string, sep: char, rest: string, next: string)
    requires s == before + (piece + [sep] + rest) && next == before + piece + [sep] && sep !in piece
    ensures s == next + rest
    ensures Split(s, sep, |before|) == [piece] + Split(s, sep, |next|)
  {
    Assoc4(before, piece, [sep], rest);
    PieceEnds(s, before, piece, sep, rest);
    SplitAtFound(s, sep, |before|, |next| - 1, piece, |next|);
  }

  lemma {:induction false} SplitJoinAfter(s: string, before: string, parts: seq<string>, sep: char)
    requires parts != [] && Free(parts, sep)
    requires s == before + Join(parts, sep)
    ensures Split(s, sep, |before|) == parts
    decreases |parts|
  {
    if |parts| == 1 {
      LastPiece(s, before, parts[0], sep);
      assert Split(s, sep, |before|) == [parts[0]];
    } else {
      var next := before + parts[0] + [sep];
      FirstPiece(s, before, parts[0], sep, Join(parts[1..], sep), next);
      SplitJoinAfter(s, next, parts[1..], sep);
      Uncons(parts);
    }
  }

  /** Splitting undoes joining pieces that do not hold the separator. */
  lemma SplitJoin(parts: seq<string>, sep: char)
    requires parts != [] && Free(parts, sep)
    ensures Split(Join(parts, sep), sep, 0) == parts
  {
    assert "" + Join(parts, sep) == Join(parts, sep);
    SplitJoinAfter(Join(parts, sep), "", parts, sep);
  }

  lemma {:induction false} JoinHas(parts: seq<string>, sep: char, c: char)
    ensures c in Join(parts, sep) ==> c == sep || exists p :: p in parts && c in p
  {
    if |parts| == 1 {
      assert parts[0] in parts;
    } else if |parts| > 1 {
      JoinHas(parts[1..], sep, c);
      assert parts[0] in parts;
    }
  }

  lemma {:induction false} JoinSnoc(parts: seq<string>, last: string, sep: char)
    ensures Join(parts + [last], sep) == if parts == [] then last else Join(parts, sep) + [sep] + last
  {
    if parts == [] {
      assert parts + [last] == [last];
    } else {
      JoinSnoc(parts[1..], last, sep);
      assert (parts + [last])[1..] == parts[1..] + [last];
    }
  }

  /** `split_tabs`, for any separator: the loop over `find`. */
  method SplitAt(line: string, sep: char) returns (fields: seq<string>)
    ensures fields == Split(line, sep, 0)
  {
    fields := [];
    var start := 0;
    while start <= |line|
      invariant 0 <= start <= |line|
      invariant Split(line, sep, 0) == fields + Split(line, sep, start)
      decreases |line| - start
    {
      var tab := Find(line, sep, start);
      if tab == NPOS {
        fields := fields + [line[start..]];
        return;
      }
      Assoc(fields, [line[start..tab]], Split(line, sep, tab + 1));
      fields := fields + [line[start..tab]];
      start := tab + 1;
    }
  }

  // ---------------------------------------------------------------- lists

  function EncodeAll(values: seq<string>): (r: seq<string>)
    ensures |r| == |values|
    ensures forall k :: 0 <= k < |r| ==> r[k] == EncodeField(values[k])
  {
    seq(|values|, k requires 0 <= k < |values| => EncodeField(values[k]))
  }

  /** `encode_list`. */
  function EncodeList(values: seq<string>): string {
    Join(EncodeAll(values), ',')
  }

  function DecodeAll(parts: seq<string>): Option<seq<string>> {
    if parts == [] then Some([])
    else
      match DecodeField(parts[0])
      case None => None
      case Some(first) =>
        match DecodeAll(parts[1..])
        case None => None
        case Some(rest) => Some([first] + rest)
  }

  /** `decode_list`. */
  function DecodeList(value: string): Option<seq<string>> {
    if value == "" then Some([]) else DecodeAll(Split(value, ',', 0))
  }

  /** What the list codec makes of a list: `[""]` is written like `[]`. */
  function Normal(values: seq<string>): seq<string> {
    if values == [""] then [] else values
  }

  lemma {:induction false} DecodeEncodedAll(values: seq<string>)
    ensures DecodeAll(EncodeAll(values)) == Some(values)
  {
    if values != [] {
      FieldRoundTrip(values[0]);
      DecodeEncodedAll(values[1..]);
      assert EncodeAll(values)[1..] == EncodeAll(values[1..]);
      assert values == [values[0]] + values[1..];
    }
  }

  lemma ListIsEmpty(values: seq<string>)
    ensures EncodeList(values) == "" <==> values == [] || values == [""]
  {
    if |values| == 1 {
      FieldHasNoSeparator(values[0]);
    }
  }

  /** Decoding a list undoes encoding it, except that `[""]` comes back as `[]`. */
  lemma ListRoundTrip(values: seq<string>)
    ensures DecodeList(EncodeList(values)) == Some(Normal(values))
  {
    ListIsEmpty(values);
    if values != [] && values != [""] {
      forall k | 0 <= k < |values| ensures ',' !in EncodeAll(values)[k] {
        FieldHasNoSeparator(values[k]);
      }
      FreeEach(EncodeAll(values), ',');
      SplitJoin(EncodeAll(values), ',');
      DecodeEncodedAll(values);
    }
  }

  /** The list codec is faithful exactly on the lists other than `[""]`. */
  lemma ListFaithful(values: seq<string>)
    ensures DecodeList(EncodeList(values)) == Some(values) <==> values != [""]
  {
    ListRoundTrip(values);
  }

  lemma ListHasNoSeparator(values: seq<string>)
    ensures '\t' !in EncodeList(values) && '\n' !in EncodeList(values)
  {
    var parts := EncodeAll(values);
    forall c | c == '\t' || c == '\n' ensures c !in EncodeList(values) {
      JoinHas(parts, ',', c);
      forall p | p in parts ensures c !in p {
        var k :| 0 <= k < |values| && parts[k] == p;
        FieldHasNoSeparator(values[k]);
      }
    }
  }

  method WriteList(values: seq<string>) returns (encoded: string)
    ensures encoded == EncodeList(values)
  {
    encoded := "";
    for index := 0 to |values|
      invariant encoded == EncodeList(values[..index])
    {
      assert values[..index + 1] == values[..index] + [values[index]];
      assert EncodeAll(values[..index + 1]) == EncodeAll(values[..index]) + [EncodeField(values[index])];
      JoinSnoc(EncodeAll(values[..index]), EncodeField(values[index]), ',');
      if index != 0 { encoded := encoded + [',']; }
      var field := WriteField(values[index]);
      encoded := encoded + field;
    }
    assert values[..|values|] == values;
  }

  function Followed(prefix: seq<string>, rest: Option<seq<string>>): Option<seq<string>> {
    match rest
    case None => None
    case Some(r) => Some(prefix + r)
  }

  lemma FollowedOne(prefix: seq<string>, first: string, rest: Option<seq<string>>)
    ensures Followed(prefix, Followed([first], rest)) == Followed(prefix + [first], rest)
  {
    match rest
    case None =>
    case Some(r) => Assoc(prefix, [first], r);
  }

  lemma FollowedNone(rest: Option<seq<string>>)
    ensures Followed([], rest) == rest
  {
    match rest
    case None =>
    case Some(r) => assert [] + r == r;
  }

  lemma DecodeAllCons(first: string, rest: seq<string>)
    ensures DecodeAll([first] + rest)
         == if DecodeField(first).None? then None else Followed([DecodeField(first).value], DecodeAll(rest))
  {
    assert ([first] + rest)[1..] == rest;
  }

  /** One turn of the decoding loop. */
  lemma ListTurn(value: string, start: nat, list: seq<string>, comma: int, encoded: string)
    requires start <= |value| && comma == Find(value, ',', start)
    requires encoded == if comma == NPOS then value[start..] else value[start..comma]
    ensures var first := DecodeField(encoded);
      Followed(list, DecodeAll(Split(value, ',', start))) ==
        if first.None? then None
        else if comma == NPOS then Some(list + [first.value])
        else Followed(list + [first.value], DecodeAll(Split(value, ',', comma + 1)))
  {
    var rest := if comma == NPOS then [] else Split(value, ',', comma + 1);
    assert Split(value, ',', start) == [encoded] + rest;
    DecodeAllCons(encoded, rest);
    if DecodeField(encoded).Some? {
      FollowedOne(list, DecodeField(encoded).value, DecodeAll(rest));
      assert (list + [DecodeField(encoded).value]) + [] == list + [DecodeField(encoded).value];
    }
  }

  method ReadList(value: string) returns (result: Option<seq<string>>)
    ensures result == DecodeList(value)
  {
    if value == "" { return Some([]); }
    var list: seq<string> := [];
    var start := 0;
    FollowedNone(DecodeList(value));
    ghost var all := DecodeList(value);
    while start <= |value|
      invariant 0 <= start <= |value|
      invariant all == Followed(list, DecodeAll(Split(value, ',', start)))
      decreases |value| - start
    {
      var comma := Find(value, ',', start);
      var encoded := if comma == NPOS then value[start..] else value[start..comma];
      ListTurn(value, start, list, comma, encoded);
      var decoded := ReadField(encoded);
      if decoded.None? { return None; }
      list := list + [decoded.value];
      if comma == NPOS { return Some(list); }
      start := comma + 1;
    }
    result := Some(list);
  }

  // ---------------------------------------------------------------- lines

  /** What repeated `getline` reads from position `start` on. */
  function Lines(contents: string, start: nat): seq<string>
    requires start <= |contents|
    decreases |contents| - start
  {
    if start == |contents| then []
    else
      var k := Find(contents, '\n', start);
      if k == NPOS then [contents[start..]] else [contents[start..k]] + Lines(contents, k + 1)
  }

  function Unlines(lines: seq<string>): string {
    if lines == [] then "" else lines[0] + ['\n'] + Unlines(lines[1..])
  }

  lemma LinesAtFound(s: string, start: nat, k: nat, line: string, after: nat)
    requires start <= k < |s| && Find(s, '\n', start) == k && s[start..k] == line && after == k + 1
    ensures Lines(s, start) == [line] + Lines(s, after)
  {
  }

  lemma FirstLine(s: string, before: string, line: string, rest: string, next: string)
    requires s == before + (line + ['\n'] + rest) && next == before + line + ['\n'] && '\n' !in line
    ensures s == next + rest
    ensures Lines(s, |before|) == [line] + Lines(s, |next|)
  {
    Assoc4(before, line, ['\n'], rest);
    PieceEnds(s, before, line, '\n', rest);
    LinesAtFound(s, |before|, |next| - 1, line, |next|);
  }

  lemma {:induction false} LinesUnlinesAfter(s: string, before: string, lines: seq<string>)
    requires Free(lines, '\n')
    requires s == before + Unlines(lines)
    ensures Lines(s, |before|) == lines
    decreases |lines|
  {
    if lines != [] {
      var next := before + lines[0] + ['\n'];
      FirstLine(s, before, lines[0], Unlines(lines[1..]), next);
      LinesUnlinesAfter(s, next, lines[1..]);
      Uncons(lines);
    }
  }

  /** Reading lines undoes writing lines that hold no newline. */
  lemma LinesUnlines(lines: seq<string>)
    requires Free(lines, '\n')
    ensures Lines(Unlines(lines), 0) == lines
  {
    assert "" + Unlines(lines) == Unlines(lines);
    LinesUnlinesAfter(Unlines(lines), "", lines);
  }

  lemma {:induction false} LinesEndAfter(s: string, before: string, lines: seq<string>, last: string)
    requires Free(lines, '\n') && '\n' !in last && last != ""
    requires s == before + (Unlines(lines) + last)
    ensures Lines(s, |before|) == lines + [last]
    decreases |lines|
  {
    if lines == [] {
      assert Unlines(lines) + last == last;
      LastPiece(s, before, last, '\n');
    } else {
      var next := before + lines[0] + ['\n'];
      Assoc(lines[0] + ['\n'], Unlines(lines[1..]), last);
      FirstLine(s, before, lines[0], Unlines(lines[1..]) + last, next);
      LinesEndAfter(s, next, lines[1..], last);
      Assoc([lines[0]], lines[1..], [last]);
      Uncons(lines);
    }
  }

  /** A last line without a newline is read too. */
  lemma LinesUnended(lines: seq<string>, last: string)
    requires Free(lines, '\n') && '\n' !in last && last != ""
    ensures Lines(Unlines(lines) + last, 0) == lines + [last]
  {
    NoneBefore(Unlines(lines) + last);
    LinesEndAfter(Unlines(lines) + last, "", lines, last);
  }

  lemma {:induction false} UnlinesAppend(a: seq<string>, b: seq<string>)
    ensures Unlines(a + b) == Unlines(a) + Unlines(b)
  {
    if a == [] {
      assert a + b == b;
    } else {
      UnlinesAppend(a[1..], b);
      assert (a + b)[1..] == a[1..] + b;
    }
  }

  // ---------------------------------------------------------------- numbers

  function ToDecimal(n: nat): (r: string)
    ensures r != "" && AllDigits(r)
  {
    if n < 10 then [HexDigit(n)] else ToDecimal(n / 10) + [HexDigit(n % 10)]
  }

  predicate AllDigits(s: string) {
    forall k :: 0 <= k < |s| ==> IsDigit(s[k])
  }

  function Value(digits: string): nat
    requires AllDigits(digits)
  {
    if digits == "" then 0
    else Value(digits[..|digits| - 1]) * 10 + (digits[|digits| - 1] as int - '0' as int)
  }

  function SkipSpaces(s: string): string {
    if s != "" && IsSpace(s[0]) then SkipSpaces(s[1..]) else s
  }

  /** `parse_index`: `std::stoul` in base 10 on the whole string, 0 when it fails. The library
      accepts leading white space and a sign, and negates modulo the width of the type. */
  function ParseIndex(s: string): Size {
    var t := SkipSpaces(s);
    var negative := t != "" && t[0] == '-';
    var digits := if t != "" && (t[0] == '-' || t[0] == '+') then t[1..] else t;
    if digits == "" || !AllDigits(digits) then 0
    else
      var v := Value(digits);
      if v >= 0x1_0000_0000_0000_0000 then 0
      else if negative && v > 0 then 0x1_0000_0000_0000_0000 - v
      else v
  }

  lemma {:induction false} DecimalValue(n: nat)
    ensures Value(ToDecimal(n)) == n
  {
    if n >= 10 {
      DecimalValue(n / 10);
      assert ToDecimal(n)[..|ToDecimal(n)| - 1] == ToDecimal(n / 10);
    }
  }

  lemma IndexRoundTrip(n: Size)
    ensures ParseIndex(ToDecimal(n)) == n
  {
    DecimalValue(n);
    assert IsDigit(ToDecimal(n)[0]);
  }

  lemma DecimalHasNoSeparator(n: nat)
    ensures '\t' !in ToDecimal(n) && '\n' !in ToDecimal(n)
  {
  }
}

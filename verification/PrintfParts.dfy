/** What a format is put together from, and that the scan finds exactly those parts, so that what
    `printf` writes is known from them. */
module PrintfParts {
  import opened Text
  import opened Sequences
  import opened PrintfFormat
  import opened PrintfReuse
  import opened PrintfRebuild
  import opened PrintfCommand
  import opened PrintfOutput
  import opened PrintfText

  /** A width or a precision: none, digits, or a star. */
  datatype Written = Missing | Digits(text: string) | Star

  /** A part of a format without positions. */
  datatype Part =
    | Letters(sp: Spelling)
    | Percent
    | Unescapes
    | Quotes
    | Converts(flags: string, width: Written, precision: Written, lengths: string, letter: char)

  function SizeText(w: Written): string {
    match w
    case Missing => ""
    case Digits(text) => text
    case Star => "*"
  }

  function PrecisionText(w: Written): string {
    if w.Missing? then "" else "." + SizeText(w)
  }

  function TextOf(part: Part): string
    requires part.Letters? ==> IsSpelling(part.sp)
  {
    match part
    case Letters(sp) => Spelled(sp, false)
    case Percent => "%%"
    case Unescapes => "%b"
    case Quotes => "%q"
    case Converts(flags, width, precision, lengths, letter) =>
      "%" + (flags + (SizeText(width) + (PrecisionText(precision) + (lengths + [letter]))))
  }

  predicate AllIn(s: string, set_: string) {
    forall k :: 0 <= k < |s| ==> s[k] in set_
  }

  const DIGITS := "0123456789"

  /** A width or precision above a million. */
  predicate Large(w: Written) {
    w.Digits? && Value(w.text, 0, 10, |w.text|) > 1_000_000
  }

  /** The letters that flags and a precision leave, flag by flag. */
  predicate Fits(letter: char, flags: string, precision: Written) {
    && letter in "aAcdeEfFgGiosuxX"
    && ('\'' in flags ==> letter in "dfFgGiu")
    && ('#' in flags ==> letter in "aAeEfFgGoxX")
    && ('0' in flags ==> letter !in "cs")
    && (!precision.Missing? ==> letter != 'c')
  }

  /** A letter that is neither a length modifier nor a flag, and does not make another directive. */
  predicate IsScannedLetter(c: char) {
    IsAlpha(c) && c !in "bhIjlLqtz"
  }

  /** The flags and sizes of a directive, and a letter that may or may not fit them. */
  predicate IsScanned(part: Part) {
    && part.Converts?
    && AllIn(part.flags, "-+ #0'I") && AllIn(part.lengths, "hlLjzt")
    && (part.width.Digits? ==>
        part.width.text != "" && part.width.text[0] != '0' && AllIn(part.width.text, DIGITS))
    && (part.precision.Digits? ==> AllIn(part.precision.text, DIGITS))
    && IsScannedLetter(part.letter)
  }

  predicate IsPart(part: Part) {
    match part
    case Letters(sp) => IsSpelling(sp) && sp != Itself('%')
    case Converts(flags, width, precision, lengths, letter) =>
      IsScanned(part) && !Large(width) && !Large(precision) && Fits(letter, flags, precision)
    case _ => true
  }

  function SizeOfText(w: Written): Size {
    match w
    case Missing => NoSize
    case Digits(text) => if text == "" then NoSize else Fixed(Value(text, 0, 10, |text|))
    case Star => FromOperand(NextOperand)
  }

  /** What the scan should find. */
  function ItemOf(part: Part): Item
    requires IsPart(part)
  {
    match part
    case Letters(sp) => Plain(Plainly([Byte(Meant(sp))]))
    case Percent => Plain(Plainly([Byte(37)]))
    case Unescapes => EscapedOperand(NextOperand)
    case Quotes => QuotedOperand(NextOperand)
    case Converts(flags, width, precision, lengths, letter) =>
      Conversion(NextOperand, SizeOfText(width), SizeOfText(precision), TextOf(part))
  }

  // ---------------------------------------------------------------- scanning

  lemma {:induction false} FlagsRun(f: string, i: nat, flags: string)
    requires Stands(f, i, flags) && AllIn(flags, "-+ #0'I") && !IsFlag(C(f, i + |flags|))
    ensures FlagsEnd(f, i) == i + |flags|
    decreases |flags|
  {
    if flags != "" {
      Uncons(flags);
      StandsAt(f, i, flags, 0);
      StandsSplit(f, i, [flags[0]], flags[1..]);
      FlagsRun(f, i + 1, flags[1..]);
    }
  }

  lemma {:induction false} LengthsRun(f: string, i: nat, lengths: string)
    requires Stands(f, i, lengths) && AllIn(lengths, "hlLjzt") && !IsLength(C(f, i + |lengths|))
    ensures LengthEnd(f, i) == i + |lengths|
    decreases |lengths|
  {
    if lengths != "" {
      Uncons(lengths);
      StandsAt(f, i, lengths, 0);
      StandsSplit(f, i, [lengths[0]], lengths[1..]);
      LengthsRun(f, i + 1, lengths[1..]);
    }
  }

  lemma {:induction false} DigitsRun(f: string, i: nat, text: string)
    requires Stands(f, i, text) && AllIn(text, DIGITS) && !IsDigit(C(f, i + |text|))
    ensures DigitsEnd(f, i) == i + |text|
    decreases |text|
  {
    if text != "" {
      Uncons(text);
      StandsAt(f, i, text, 0);
      StandsSplit(f, i, [text[0]], text[1..]);
      DigitsRun(f, i + 1, text[1..]);
    }
  }

  lemma {:induction false} ValueStands(f: string, i: nat, text: string, n: nat)
    requires Stands(f, i, text) && n <= |text|
    ensures Value(f, i, 10, n) == Value(text, 0, 10, n)
    decreases n
  {
    if n > 0 {
      StandsAt(f, i, text, n - 1);
      ValueStands(f, i, text, n - 1);
    }
  }

  /** Where digits end, no `$` stands: neither they nor what follows them is one. */
  lemma {:induction false} NoPosition(f: string, i: nat, n: nat)
    requires i + n < |f| && (forall k :: i <= k <= i + n ==> f[k] != '$') && !IsDigit(f[i + n])
    ensures PlaceAt(f, i) == Place(NextOperand, i)
  {
    DigitsEndBefore(f, i, i + n);
  }

  lemma {:induction false} DigitsEndBefore(f: string, i: nat, end: nat)
    requires i <= end < |f| && !IsDigit(f[end])
    ensures DigitsEnd(f, i) <= end
    decreases end - i
  {
    if i < end { DigitsEndBefore(f, i + 1, end); }
  }

  /** A width, or a precision after its dot. */
  lemma SizeRun(f: string, i: nat, w: Written, cap: nat, end: nat)
    requires Stands(f, i, SizeText(w)) && (w.Digits? ==> AllIn(w.text, DIGITS)) && cap == 1_000_000
    requires end == i + |SizeText(w)| < |f| && !IsDigit(C(f, end)) && C(f, end) != '*'
    ensures SizeAt(f, i, cap) == if Large(w) then BadSize else Sized(SizeOfText(w), end)
  {
    match w
    case Missing => DigitsRun(f, i, "");
    case Digits(text) =>
      if text != "" { StandsAt(f, i, text, 0); }
      DigitsRun(f, i, text);
      ValueStands(f, i, text, |text|);
    case Star =>
      StandsAt(f, i, "*", 0);
      DigitsRun(f, i + 1, "");
  }

  // ---------------------------------------------------------------- one directive

  /** Where the parts of a directive at `i` stand. */
  datatype Places = Places(width: nat, precision: nat, lengths: nat, letter: nat)

  function PlacesOf(i: nat, part: Part): Places
    requires part.Converts?
  {
    var width := i + 1 + |part.flags|;
    var precision := width + |SizeText(part.width)|;
    var lengths := precision + |PrecisionText(part.precision)|;
    Places(width, precision, lengths, lengths + |part.lengths|)
  }

  lemma DirectiveStands(f: string, i: nat, part: Part)
    requires part.Converts? && Stands(f, i, TextOf(part))
    ensures var p := PlacesOf(i, part);
      && Stands(f, i, "%") && Stands(f, i + 1, part.flags) && Stands(f, p.width, SizeText(part.width))
      && Stands(f, p.precision, PrecisionText(part.precision)) && Stands(f, p.lengths, part.lengths)
      && Stands(f, p.letter, [part.letter]) && p.letter + 1 == i + |TextOf(part)|
  {
    var width, precision, letter := SizeText(part.width), PrecisionText(part.precision), [part.letter];
    StandsSplit(f, i, "%", part.flags + (width + (precision + (part.lengths + letter))));
    FiveStand(f, i + 1, part.flags, width, precision, part.lengths, letter);
  }

  lemma FiveStand(f: string, i: nat, a: string, b: string, c: string, d: string, e: string)
    requires Stands(f, i, a + (b + (c + (d + e))))
    ensures Stands(f, i, a) && Stands(f, i + |a|, b) && Stands(f, i + |a| + |b|, c)
    ensures Stands(f, i + |a| + |b| + |c|, d) && Stands(f, i + |a| + |b| + |c| + |d|, e)
  {
    StandsSplit(f, i, a, b + (c + (d + e)));
    StandsSplit(f, i + |a|, b, c + (d + e));
    StandsSplit(f, i + |a| + |b|, c, d + e);
    StandsSplit(f, i + |a| + |b| + |c|, d, e);
  }

  /** What a character of a directive after its flags can be. */
  predicate IsAfterFlags(c: char) {
    !IsFlag(c) && c != '$' && c != '%' && c != 'b' && c != 'q'
  }

  lemma LetterIsAfterFlags(c: char)
    requires IsScannedLetter(c)
    ensures IsAfterFlags(c) && !IsLength(c) && !IsDigit(c) && c != '*' && c != '.'
  {
  }

  lemma LengthIsAfterFlags(c: char)
    requires c in "hlLjzt"
    ensures IsAfterFlags(c) && !IsDigit(c) && c != '*' && c != '.'
  {
  }

  /** What stands where the length modifiers begin. */
  lemma AtLengths(f: string, i: nat, part: Part)
    requires IsScanned(part) && Stands(f, i, TextOf(part))
    ensures var c := C(f, PlacesOf(i, part).lengths); IsAfterFlags(c) && !IsDigit(c) && c != '*' && c != '.'
    ensures PlacesOf(i, part).letter < |f|
  {
    var p := PlacesOf(i, part);
    DirectiveStands(f, i, part);
    StandsAt(f, p.letter, [part.letter], 0);
    LetterIsAfterFlags(part.letter);
    if part.lengths != "" {
      StandsAt(f, p.lengths, part.lengths, 0);
      LengthIsAfterFlags(part.lengths[0]);
    }
  }

  /** What stands where the precision begins. */
  lemma AtPrecision(f: string, i: nat, part: Part)
    requires IsScanned(part) && Stands(f, i, TextOf(part))
    ensures var c := C(f, PlacesOf(i, part).precision);
      IsAfterFlags(c) && !IsDigit(c) && c != '*' && (c == '.' <==> !part.precision.Missing?)
  {
    DirectiveStands(f, i, part);
    AtLengths(f, i, part);
    if !part.precision.Missing? { StandsAt(f, PlacesOf(i, part).precision, PrecisionText(part.precision), 0); }
  }

  /** What stands where the width begins. */
  lemma AtWidth(f: string, i: nat, part: Part)
    requires IsScanned(part) && Stands(f, i, TextOf(part))
    ensures IsAfterFlags(C(f, PlacesOf(i, part).width))
  {
    DirectiveStands(f, i, part);
    AtPrecision(f, i, part);
    if SizeText(part.width) != "" { WidthStarts(f, PlacesOf(i, part).width, part.width); }
  }

  lemma WidthStarts(f: string, b: nat, w: Written)
    requires SizeText(w) != "" && Stands(f, b, SizeText(w))
    requires w.Digits? ==> w.text[0] != '0' && AllIn(w.text, DIGITS)
    ensures IsAfterFlags(C(f, b))
  {
    StandsAt(f, b, SizeText(w), 0);
  }

  /** The precision of a directive ends where its length modifiers begin. */
  predicate PrecisionEndsAt(f: string, b: nat, w: Written, c: nat) {
    if w.Missing? then C(f, b) != '.' && c == b
    else C(f, b) == '.' && SizeAt(f, b + 1, MAX_PRECISION) == if Large(w) then BadSize else Sized(SizeOfText(w), c)
  }

  lemma PrecisionRun(f: string, i: nat, part: Part)
    requires IsScanned(part) && Stands(f, i, TextOf(part))
    ensures PrecisionEndsAt(f, PlacesOf(i, part).precision, part.precision, PlacesOf(i, part).lengths)
  {
    var p := PlacesOf(i, part);
    DirectiveStands(f, i, part);
    AtLengths(f, i, part);
    PrecisionStands(f, p.precision, part.precision, p.lengths);
  }

  lemma DotStands(f: string, i: nat, w: Written)
    requires !w.Missing? && Stands(f, i, PrecisionText(w))
    ensures C(f, i) == '.' && Stands(f, i + 1, SizeText(w))
  {
    StandsAt(f, i, PrecisionText(w), 0);
    StandsSplit(f, i, ".", SizeText(w));
  }

  lemma PrecisionStands(f: string, i: nat, w: Written, end: nat)
    requires Stands(f, i, PrecisionText(w)) && (w.Digits? ==> AllIn(w.text, DIGITS))
    requires end == i + |PrecisionText(w)| < |f| && !IsDigit(C(f, end)) && C(f, end) != '*' && C(f, end) != '.'
    ensures PrecisionEndsAt(f, i, w, end)
  {
    if !w.Missing? {
      DotStands(f, i, w);
      SizeRun(f, i + 1, w, MAX_PRECISION, end);
    }
  }

  lemma AllowedFits(letter: char, flags: string, precision: Written)
    ensures Allowed(letter, '\'' in flags, '#' in flags, '0' in flags, !precision.Missing?)
         == Fits(letter, flags, precision)
  {
  }

  /** What the scan makes of a directive. */
  function ScanOf(part: Part, end: nat): Parsed
    requires part.Converts?
  {
    if !Large(part.width) && !Large(part.precision) && Fits(part.letter, part.flags, part.precision)
    then Parsed(Conversion(NextOperand, SizeOfText(part.width), SizeOfText(part.precision), TextOf(part)), end)
    else FAILED
  }

  lemma LetterIs(f: string, start: nat, flags: nat, flagsEnd: nat, width: Size, precision: Size, i: nat, end: nat,
      part: Part)
    requires part.Converts? && !Large(part.width) && !Large(part.precision)
    requires end == LengthEnd(f, i) && C(f, end) == part.letter
    requires HasFlag(f, flags, flagsEnd, '\'') == ('\'' in part.flags)
    requires HasFlag(f, flags, flagsEnd, '#') == ('#' in part.flags)
    requires HasFlag(f, flags, flagsEnd, '0') == ('0' in part.flags)
    requires width == SizeOfText(part.width) && precision == SizeOfText(part.precision)
    requires Slice(f, start, end + 1) == TextOf(part)
    ensures LetterAt(f, start, NextOperand, flags, flagsEnd, width, precision, !part.precision.Missing?, i)
         == ScanOf(part, end + 1)
  {
    AllowedFits(part.letter, part.flags, part.precision);
  }

  lemma LengthsScanned(f: string, i: nat, part: Part)
    requires IsScanned(part) && Stands(f, i, TextOf(part))
    ensures var p := PlacesOf(i, part);
      && LengthEnd(f, p.lengths) == p.letter && C(f, p.letter) == part.letter
      && Slice(f, i, p.letter + 1) == TextOf(part)
  {
    var p := PlacesOf(i, part);
    DirectiveStands(f, i, part);
    StandsAt(f, p.letter, [part.letter], 0);
    LetterIsAfterFlags(part.letter);
    LengthsRun(f, p.lengths, part.lengths);
  }

  lemma AllFlagsStand(f: string, i: nat, flags: string)
    requires Stands(f, i, flags)
    ensures var a := i + |flags|;
      && HasFlag(f, i, a, '\'') == ('\'' in flags) && HasFlag(f, i, a, '#') == ('#' in flags)
      && HasFlag(f, i, a, '0') == ('0' in flags)
  {
  }

  lemma LetterScanned(f: string, i: nat, part: Part)
    requires IsScanned(part) && !Large(part.width) && !Large(part.precision) && Stands(f, i, TextOf(part))
    ensures var p := PlacesOf(i, part);
      LetterAt(f, i, NextOperand, i + 1, p.width, SizeOfText(part.width), SizeOfText(part.precision),
          !part.precision.Missing?, p.lengths) == ScanOf(part, p.letter + 1)
  {
    var p := PlacesOf(i, part);
    LengthsScanned(f, i, part);
    DirectiveStands(f, i, part);
    LetterFrom(f, i, part, p.width, p.lengths, p.letter);
  }

  lemma LetterFrom(f: string, i: nat, part: Part, width: nat, lengths: nat, letter: nat)
    requires part.Converts? && !Large(part.width) && !Large(part.precision)
    requires Stands(f, i + 1, part.flags) && width == i + 1 + |part.flags|
    requires letter == LengthEnd(f, lengths) && C(f, letter) == part.letter
    requires Slice(f, i, letter + 1) == TextOf(part)
    ensures LetterAt(f, i, NextOperand, i + 1, width, SizeOfText(part.width), SizeOfText(part.precision),
        !part.precision.Missing?, lengths) == ScanOf(part, letter + 1)
  {
    AllFlagsStand(f, i + 1, part.flags);
    LetterIs(f, i, i + 1, width, SizeOfText(part.width), SizeOfText(part.precision), lengths, letter, part);
  }

  lemma WidthRefused(f: string, i: nat, a: nat)
    requires FlagsEnd(f, i + 1) == a && SizeAt(f, a, MAX_FIELD_WIDTH) == BadSize
    ensures ConversionAt(f, i, NextOperand, i + 1) == FAILED
  {
  }

  lemma SizesScanned(f: string, i: nat, width: Size, precision: Written, a: nat, b: nat, c: nat, r: Parsed)
    requires FlagsEnd(f, i + 1) == a && SizeAt(f, a, MAX_FIELD_WIDTH) == Sized(width, b)
    requires PrecisionEndsAt(f, b, precision, c)
    requires r == LetterAt(f, i, NextOperand, i + 1, a, width, SizeOfText(precision), !precision.Missing?, c)
    ensures ConversionAt(f, i, NextOperand, i + 1) == if Large(precision) then FAILED else r
  {
  }

  lemma FlagsScanned(f: string, i: nat, part: Part)
    requires IsScanned(part) && Stands(f, i, TextOf(part))
    ensures FlagsEnd(f, i + 1) == PlacesOf(i, part).width
  {
    DirectiveStands(f, i, part);
    AtWidth(f, i, part);
    FlagsRun(f, i + 1, part.flags);
  }

  lemma WidthScanned(f: string, i: nat, part: Part)
    requires IsScanned(part) && Stands(f, i, TextOf(part))
    ensures var p := PlacesOf(i, part);
      SizeAt(f, p.width, MAX_FIELD_WIDTH)
      == if Large(part.width) then BadSize else Sized(SizeOfText(part.width), p.precision)
  {
    var p := PlacesOf(i, part);
    DirectiveStands(f, i, part);
    AtPrecision(f, i, part);
    AtLengths(f, i, part);
    SizeRun(f, p.width, part.width, MAX_FIELD_WIDTH, p.precision);
  }

  /** A directive after its percent sign; `r` is what is made of its letter. */
  lemma ConversionScanned(f: string, i: nat, part: Part, r: Parsed)
    requires IsScanned(part) && Stands(f, i, TextOf(part))
    requires var p := PlacesOf(i, part);
      r == LetterAt(f, i, NextOperand, i + 1, p.width, SizeOfText(part.width), SizeOfText(part.precision),
                    !part.precision.Missing?, p.lengths)
    ensures ConversionAt(f, i, NextOperand, i + 1) == if Large(part.width) || Large(part.precision) then FAILED else r
  {
    var p := PlacesOf(i, part);
    FlagsScanned(f, i, part);
    WidthScanned(f, i, part);
    PrecisionRun(f, i, part);
    if Large(part.width) {
      WidthRefused(f, i, p.width);
    } else {
      SizesScanned(f, i, SizeOfText(part.width), part.precision, p.width, p.precision, p.lengths, r);
    }
  }

  lemma StandsWithout(f: string, i: nat, s: string, c: char, k: nat)
    requires Stands(f, i, s) && c !in s && i <= k < i + |s|
    ensures C(f, k) != c
  {
    StandsAt(f, i, s, k - i);
  }

  lemma NotIn(s: string, set_: string, c: char)
    requires AllIn(s, set_) && c !in set_
    ensures c !in s
  {
  }

  lemma PartsWithoutDollar(part: Part)
    requires IsScanned(part)
    ensures '$' !in part.flags && '$' !in SizeText(part.width) && '$' !in PrecisionText(part.precision)
    ensures '$' !in part.lengths && part.letter != '$'
  {
    NotIn(part.flags, "-+ #0'I", '$');
    NotIn(part.lengths, "hlLjzt", '$');
    if part.width.Digits? { NotIn(part.width.text, DIGITS, '$'); }
    if part.precision.Digits? { NotIn(part.precision.text, DIGITS, '$'); }
  }

  lemma NoDollar(f: string, i: nat, part: Part, k: nat)
    requires IsScanned(part) && Stands(f, i, TextOf(part)) && i < k <= PlacesOf(i, part).letter
    ensures C(f, k) != '$'
  {
    var p := PlacesOf(i, part);
    DirectiveStands(f, i, part);
    PartsWithoutDollar(part);
    if k < p.width {
      StandsWithout(f, i + 1, part.flags, '$', k);
    } else if k < p.precision {
      StandsWithout(f, p.width, SizeText(part.width), '$', k);
    } else if k < p.lengths {
      StandsWithout(f, p.precision, PrecisionText(part.precision), '$', k);
    } else if k < p.letter {
      StandsWithout(f, p.lengths, part.lengths, '$', k);
    } else {
      StandsWithout(f, p.letter, [part.letter], '$', k);
    }
  }

  /** No `n$` is read where a directive has none. */
  lemma NoPlace(f: string, i: nat, part: Part)
    requires IsScanned(part) && Stands(f, i, TextOf(part))
    ensures PlaceAt(f, i + 1) == Place(NextOperand, i + 1)
  {
    var p := PlacesOf(i, part);
    AtLengths(f, i, part);
    DirectiveStands(f, i, part);
    StandsAt(f, p.letter, [part.letter], 0);
    LetterIsAfterFlags(part.letter);
    forall k | i + 1 <= k <= p.letter ensures f[k] != '$' { NoDollar(f, i, part, k); }
    NoPosition(f, i + 1, p.letter - i - 1);
  }

  lemma FirstIsNoOperand(f: string, i: nat, part: Part)
    requires IsScanned(part) && Stands(f, i, TextOf(part))
    ensures C(f, i + 1) != '%' && C(f, i + 1) != 'b' && C(f, i + 1) != 'q'
  {
    DirectiveStands(f, i, part);
    if part.flags == "" { AtWidth(f, i, part); } else { StandsAt(f, i + 1, part.flags, 0); }
  }

  /** A directive is read as what it is put together from, or refused when its letter does not
      fit its flags and precision, or a size is above a million. */
  lemma DirectiveScanned(f: string, i: nat, part: Part)
    requires IsScanned(part) && Stands(f, i, TextOf(part))
    ensures i < |f| && ItemAt(f, i) == ScanOf(part, i + |TextOf(part)|)
  {
    DirectiveStands(f, i, part);
    StandsAt(f, i, "%", 0);
    NoPlace(f, i, part);
    FirstIsNoOperand(f, i, part);
    var p := PlacesOf(i, part);
    ConversionScanned(f, i, part, LetterAt(f, i, NextOperand, i + 1, p.width, SizeOfText(part.width),
      SizeOfText(part.precision), !part.precision.Missing?, p.lengths));
    if !Large(part.width) && !Large(part.precision) { LetterScanned(f, i, part); }
  }

  // ---------------------------------------------------------------- a whole format

  lemma CharacterScanned(f: string, i: nat, c: char)
    requires c != '\\' && c != '%' && c != NUL && Stands(f, i, [c])
    ensures i < |f| && f[i] == c && ItemAt(f, i) == Parsed(Plain(Plainly([Byte(c as nat % 256)])), i + 1)
  {
    StandsAt(f, i, [c], 0);
  }

  lemma EscapeScanned(f: string, i: nat, sp: Spelling)
    requires IsSpelling(sp) && !sp.Itself? && Stands(f, i, Spelled(sp, false))
    ensures i < |f| && f[i] == '\\'
    ensures ItemAt(f, i) == Parsed(Plain(Plainly([Byte(Meant(sp))])), i + |Spelled(sp, false)|)
  {
    StandsAt(f, i, Spelled(sp, false), 0);
    EscapeMeans(f, i, sp, false);
    EscapeItem(f, i, [Byte(Meant(sp))], i + |Spelled(sp, false)|);
  }

  lemma EscapeItem(f: string, i: nat, pieces: seq<Piece>, next: nat)
    requires i < |f| && f[i] == '\\' && EscapeAt(f, i, false) == Escape(next, pieces, false, false)
    ensures ItemAt(f, i) == Parsed(Plain(Plainly(pieces)), next)
  {
  }

  lemma SpellingScanned(f: string, i: nat, sp: Spelling)
    requires IsSpelling(sp) && sp != Itself('%') && Stands(f, i, Spelled(sp, false))
    ensures i < |f| && f[i] != NUL
    ensures ItemAt(f, i) == Parsed(Plain(Plainly([Byte(Meant(sp))])), i + |Spelled(sp, false)|)
  {
    if sp.Itself? { CharacterScanned(f, i, sp.c); } else { EscapeScanned(f, i, sp); }
  }

  lemma OperandScanned(f: string, i: nat, c: char)
    requires Stands(f, i, ['%', c]) && (c == '%' || c == 'b' || c == 'q')
    ensures i < |f| && f[i] != NUL
    ensures ItemAt(f, i) == Parsed(if c == '%' then Plain(Plainly([Byte(37)]))
      else if c == 'b' then EscapedOperand(NextOperand) else QuotedOperand(NextOperand), i + 2)
  {
    StandsAt(f, i, ['%', c], 0);
    StandsAt(f, i, ['%', c], 1);
    if c != '%' { DigitsRun(f, i + 1, ""); }
  }

  /** The scan finds each part where it stands. */
  lemma PartScanned(f: string, i: nat, part: Part)
    requires IsPart(part) && Stands(f, i, TextOf(part))
    ensures i < |f| && f[i] != NUL && ItemAt(f, i) == Parsed(ItemOf(part), i + |TextOf(part)|)
  {
    match part
    case Letters(sp) => SpellingScanned(f, i, sp);
    case Percent => OperandScanned(f, i, '%');
    case Unescapes => OperandScanned(f, i, 'b');
    case Quotes => OperandScanned(f, i, 'q');
    case Converts(flags, width, precision, lengths, letter) =>
      DirectiveScanned(f, i, part);
      StandsAt(f, i, TextOf(part), 0);
  }

  predicate AllParts(parts: seq<Part>) {
    forall k :: 0 <= k < |parts| ==> IsPart(parts[k])
  }

  function Concat(texts: seq<string>): string {
    if texts == [] then "" else texts[0] + Concat(texts[1..])
  }

  function TextsOf(parts: seq<Part>): (r: seq<string>)
    requires AllParts(parts)
    ensures |r| == |parts| && forall k :: 0 <= k < |r| ==> r[k] == TextOf(parts[k])
  {
    seq(|parts|, k requires 0 <= k < |parts| => TextOf(parts[k]))
  }

  function FormatText(parts: seq<Part>): string
    requires AllParts(parts)
  {
    Concat(TextsOf(parts))
  }

  function ItemsOf(parts: seq<Part>): (r: seq<Item>)
    requires AllParts(parts)
    ensures |r| == |parts| && forall k :: 0 <= k < |r| ==> r[k] == ItemOf(parts[k])
  {
    seq(|parts|, k requires 0 <= k < |parts| => ItemOf(parts[k]))
  }

  /** The operands a part asks for. */
  function SlotsIn(part: Part): nat {
    match part
    case Letters(_) => 0
    case Percent => 0
    case Unescapes => 1
    case Quotes => 1
    case Converts(_, width, precision, _, _) =>
      (if width.Star? then 1 else 0) + (if precision.Star? then 1 else 0) + 1
  }

  function SlotCounts(parts: seq<Part>): (r: seq<nat>)
    ensures |r| == |parts| && forall k :: 0 <= k < |r| ==> r[k] == SlotsIn(parts[k])
  {
    seq(|parts|, k requires 0 <= k < |parts| => SlotsIn(parts[k]))
  }

  function SumOf(ns: seq<nat>): nat {
    if ns == [] then 0 else ns[0] + SumOf(ns[1..])
  }

  function AllSlots(parts: seq<Part>): nat {
    SumOf(SlotCounts(parts))
  }

  lemma ItemsUnfold(f: string, i: nat, item: Item, next: nat)
    requires i < |f| && f[i] != NUL && ItemAt(f, i) == Parsed(item, next) && !item.Malformed?
    ensures ItemsFrom(f, i) == [item] + ItemsFrom(f, next)
    ensures SlotsFrom(f, i) == SlotsOf(item) + SlotsFrom(f, next)
    ensures SequentialFrom(f, i) <==> IsSequential(item) && SequentialFrom(f, next)
  {
  }

  lemma PartIsSequential(part: Part)
    requires IsPart(part)
    ensures IsSequential(ItemOf(part)) && !ItemOf(part).Malformed? && SlotsOf(ItemOf(part)) == SlotsIn(part)
  {
  }

  /** From `i` on the format is these items, without positions and with `k` slots. */
  predicate ReadsAs(f: string, i: nat, items: seq<Item>, k: nat) {
    ItemsFrom(f, i) == items && SlotsFrom(f, i) == k && SequentialFrom(f, i)
  }

  lemma PartReads(f: string, i: nat, part: Part, next: nat, items: seq<Item>, k: nat)
    requires IsPart(part) && Stands(f, i, TextOf(part)) && next == i + |TextOf(part)| && ReadsAs(f, next, items, k)
    ensures ReadsAs(f, i, [ItemOf(part)] + items, SlotsIn(part) + k)
  {
    PartScanned(f, i, part);
    PartIsSequential(part);
    ItemsUnfold(f, i, ItemOf(part), next);
  }

  /** `ReadsAs`, of one format. */
  type Reading = (nat, seq<Item>, nat) -> bool

  function ReadingOf(f: string): Reading {
    (i: nat, items: seq<Item>, k: nat) => ReadsAs(f, i, items, k)
  }

  /** Where `text` stands, this item is read, with so many slots, and then what follows. */
  ghost predicate ReadsText(f: string, reading: Reading, text: string, item: Item, slots: nat) {
    forall i: nat, next: nat, items: seq<Item>, k: nat {:trigger Stands(f, i, text), reading(next, items, k)} ::
      Stands(f, i, text) && next == i + |text| && reading(next, items, k) ==> reading(i, [item] + items, slots + k)
  }

  lemma PartReadsText(f: string, part: Part)
    requires IsPart(part)
    ensures ReadsText(f, ReadingOf(f), TextOf(part), ItemOf(part), SlotsIn(part))
  {
    forall i: nat, next: nat, items: seq<Item>, k: nat
      | Stands(f, i, TextOf(part)) && next == i + |TextOf(part)| && ReadsAs(f, next, items, k)
      ensures ReadsAs(f, i, [ItemOf(part)] + items, SlotsIn(part) + k)
    {
      PartReads(f, i, part, next, items, k);
    }
  }

  lemma {:induction false} TextsRead(f: string, reading: Reading, i: nat, texts: seq<string>, items: seq<Item>,
      slots: seq<nat>)
    requires |texts| == |items| == |slots| && Stands(f, i, Concat(texts)) && i + |Concat(texts)| == |f|
    requires reading(|f|, [], 0)
    requires forall k :: 0 <= k < |texts| ==> ReadsText(f, reading, texts[k], items[k], slots[k])
    ensures reading(i, items, SumOf(slots))
    decreases |texts|
  {
    if texts != [] {
      StandsSplit(f, i, texts[0], Concat(texts[1..]));
      TextsRead(f, reading, i + |texts[0]|, texts[1..], items[1..], slots[1..]);
      Uncons(items);
      assert ReadsText(f, reading, texts[0], items[0], slots[0]);
    }
  }

  /** The scan of a format finds the parts that it is put together from. */
  lemma FormatScanned(parts: seq<Part>)
    requires AllParts(parts)
    ensures ReadsAs(FormatText(parts), 0, ItemsOf(parts), AllSlots(parts))
  {
    var f := FormatText(parts);
    assert f[0..|f|] == f;
    forall k | 0 <= k < |parts|
      ensures ReadsText(f, ReadingOf(f), TextsOf(parts)[k], ItemsOf(parts)[k], SlotCounts(parts)[k])
    {
      PartReadsText(f, parts[k]);
    }
    TextsRead(f, ReadingOf(f), 0, TextsOf(parts), ItemsOf(parts), SlotCounts(parts));
  }

  /** What `printf` writes for a format put together from parts, and its exit status: part by part,
      again and again, the operands falling to the slots in order. */
  lemma FormatWrites(parts: seq<Part>, numerals: Numerals, operands: seq<string>)
    requires AllParts(parts)
    ensures var ps := Passes(FormatText(parts), numerals, operands);
      var o := Repeated(ItemsOf(parts), OutputsOf(numerals, operands), AllSlots(parts), |operands|, 0);
      PrintfCommand.Written(ps) == o.printed.pieces && (ExitStatus(ps) == 1 <==> o.failed || o.printed.error)
  {
    FormatScanned(parts);
    OutputBySlots(FormatText(parts), numerals, operands);
  }

  // ---------------------------------------------------------------- what is handed over

  function SizeWith(w: Written, value: Number): string {
    if value.Given? then Decimal(value.value) else SizeText(w)
  }

  function PrecisionWith(w: Written, value: Number): string {
    if w.Missing? then "" else "." + SizeWith(w, value)
  }

  /** The format for the C library: the directive without its length modifiers, with the values of
      its stars, and with the widest modifier for its kind of value. */
  function HandedOver(part: Part, width: Number, precision: Number): string
    requires part.Converts?
  {
    "%" + (part.flags + SizeWith(part.width, width)) + PrecisionWith(part.precision, precision)
    + ((if part.letter in "diouxX" then "ll" else if part.letter in "aAeEfFgG" then "L" else "") + [part.letter])
  }

  lemma {:induction false} StarredOrDigits(d: string, i: nat, w: Written, end: nat)
    requires Stands(d, i, SizeText(w)) && (w.Digits? ==> AllIn(w.text, DIGITS))
    requires end == i + |SizeText(w)| < |d| && !IsDigit(C(d, end)) && C(d, end) != '*'
    ensures if w.Star? then C(d, i) == '*' && end == i + 1
            else C(d, i) != '*' && DigitsEnd(d, i) == end && Slice(d, i, end) == SizeText(w)
  {
    match w
    case Missing => DigitsRun(d, i, "");
    case Digits(text) =>
      if text != "" { StandsAt(d, i, text, 0); }
      DigitsRun(d, i, text);
    case Star => StandsAt(d, i, "*", 0);
  }

  lemma HeadStands(d: string, flags: string, a: nat, w: Written, end: nat, width: Number)
    requires FlagsEnd(d, 1) == a && Slice(d, 1, a) == flags && (width.Given? <==> w.Star?)
    requires if w.Star? then C(d, a) == '*' && end == a + 1
             else C(d, a) != '*' && DigitsEnd(d, a) == end && Slice(d, a, end) == SizeText(w)
    ensures Head(d, width) == flags + SizeWith(w, width) && WidthEnd(d, width) == end
  {
  }

  lemma HeadIs(d: string, part: Part, width: Number)
    requires IsScanned(part) && Stands(d, 0, TextOf(part)) && (width.Given? <==> part.width.Star?)
    ensures Head(d, width) == part.flags + SizeWith(part.width, width)
    ensures WidthEnd(d, width) == PlacesOf(0, part).precision
  {
    var p := PlacesOf(0, part);
    WidthWritten(d, part);
    FlagsScanned(d, 0, part);
    DirectiveStands(d, 0, part);
    HeadStands(d, part.flags, p.width, part.width, p.precision, width);
  }

  lemma WidthWritten(d: string, part: Part)
    requires IsScanned(part) && Stands(d, 0, TextOf(part))
    ensures var p := PlacesOf(0, part);
      if part.width.Star? then C(d, p.width) == '*' && p.precision == p.width + 1
      else
        && C(d, p.width) != '*' && DigitsEnd(d, p.width) == p.precision
        && Slice(d, p.width, p.precision) == SizeText(part.width)
  {
    DirectiveStands(d, 0, part);
    AtPrecision(d, 0, part);
    AtLengths(d, 0, part);
    StarredOrDigits(d, PlacesOf(0, part).width, part.width, PlacesOf(0, part).precision);
  }

  lemma TailStands(d: string, i: nat, w: Written, end: nat, precision: Number)
    requires Stands(d, i, PrecisionText(w)) && (w.Digits? ==> AllIn(w.text, DIGITS)) && (precision.Given? <==> w.Star?)
    requires end == i + |PrecisionText(w)| < |d| && !IsDigit(C(d, end)) && C(d, end) != '*' && C(d, end) != '.'
    ensures TailAt(d, i, precision) == PrecisionWith(w, precision)
  {
    if !w.Missing? {
      DotStands(d, i, w);
      StarredOrDigits(d, i + 1, w, end);
    }
  }

  lemma TailIs(d: string, part: Part, precision: Number)
    requires IsScanned(part) && Stands(d, 0, TextOf(part)) && (precision.Given? <==> part.precision.Star?)
    ensures TailAt(d, PlacesOf(0, part).precision, precision) == PrecisionWith(part.precision, precision)
  {
    DirectiveStands(d, 0, part);
    AtLengths(d, 0, part);
    TailStands(d, PlacesOf(0, part).precision, part.precision, PlacesOf(0, part).lengths, precision);
  }

  lemma LastLetter(part: Part)
    requires part.Converts?
    ensures TextOf(part) != "" && Letter(TextOf(part)) == part.letter
  {
  }

  lemma RebuiltFrom(d: string, head: string, b: nat, tail: string, letter: char, width: Number, precision: Number)
    requires Head(d, width) == head && WidthEnd(d, width) == b && TailAt(d, b, precision) == tail && Letter(d) == letter
    ensures Rebuilt(d, width, precision) == "%" + head + tail
        + ((if letter in "diouxX" then "ll" else if letter in "aAeEfFgG" then "L" else "") + [letter])
  {
    NoneBefore([letter]);
  }

  /** That is what the second scan makes of the directive. */
  lemma RebuiltIs(part: Part, width: Number, precision: Number)
    requires IsScanned(part)
    requires (width.Given? <==> part.width.Star?) && (precision.Given? <==> part.precision.Star?)
    ensures Rebuilt(TextOf(part), width, precision) == HandedOver(part, width, precision)
  {
    var d := TextOf(part);
    assert d[0..|d|] == d;
    LastLetter(part);
    HeadIs(d, part, width);
    TailIs(d, part, precision);
    RebuiltFrom(d, part.flags + SizeWith(part.width, width), PlacesOf(0, part).precision,
        PrecisionWith(part.precision, precision), part.letter, width, precision);
  }

  // ---------------------------------------------------------------- positions

  /** `n$` names operand `n`, counted from 1 and up to 1024. */
  lemma PlaceReads(f: string, i: nat, text: string, n: nat)
    requires AllIn(text, DIGITS) && text != "" && Stands(f, i, text) && C(f, i + |text|) == '$'
    requires n == Value(f, i, 10, |text|)
    ensures PlaceAt(f, i) == if 1 <= n <= 1024 then Place(Operand(n - 1), i + |text| + 1) else BadPlace
  {
    DigitsRun(f, i, text);
    PlaceFrom(f, i, |text|, n);
  }

  lemma PlaceFrom(f: string, i: nat, m: nat, n: nat)
    requires m > 0 && DigitsEnd(f, i) == i + m && C(f, i + m) == '$' && Value(f, i, 10, m) == n
    ensures PlaceAt(f, i) == if 1 <= n <= 1024 then Place(Operand(n - 1), i + m + 1) else BadPlace
  {
  }

  /** A directive with a position prints the operand that it names, wherever the cursor stands. */
  lemma PositionPrints(k: nat, directive: string, numerals: Numerals, args: seq<string>, a: Cursor)
    ensures Done(Conversion(Operand(k), NoSize, NoSize, directive), numerals, args, a).printed.pieces
         == [Formatted(Rebuilt(directive, Absent, Absent), k < |args|, if k < |args| then args[k] else "")]
    ensures Done(QuotedOperand(Operand(k)), numerals, args, a).printed.pieces
         == if k < |args| then [Quoted(args[k])] else []
    ensures Done(EscapedOperand(Operand(k)), numerals, args, a).printed
         == if k < |args| then EscapedText(args[k], 0) else NOTHING
    ensures Done(Conversion(Operand(k), NoSize, NoSize, directive), numerals, args, a).taken == [k]
    ensures Done(QuotedOperand(Operand(k)), numerals, args, a).taken == [k]
    ensures Done(EscapedOperand(Operand(k)), numerals, args, a).taken == [k]
  {
  }

  lemma PositionCursors(k: nat, a: Cursor)
    requires a.sequential >= -1
    ensures var width := FromOperand(Operand(k));
      var w := SizeTaken(ForWidth, width, Taken(ForDirective, NextOperand, a)).0;
      && w.curr == k && SizeTaken(ForPrecision, NoSize, w).0 == w
      && ConversionTaken(NextOperand, width, NoSize, a).0.curr == a.sequential + 1
  {
  }

  /** A width with a position is the number that it names, and leaves the sequence alone: the value
      is the next operand in sequence. */
  lemma PositionSizes(k: nat, directive: string, numerals: Numerals, args: seq<string>, a: Cursor)
    requires a.sequential >= -1 && k < |args| && -1_000_000 <= numerals.integer(args[k]) <= 1_000_000
    ensures var e := Done(Conversion(NextOperand, FromOperand(Operand(k)), NoSize, directive), numerals, args, a);
      var next := a.sequential + 1;
      e.printed.pieces == [Formatted(Rebuilt(directive, Given(numerals.integer(args[k])), Absent), next < |args|,
        if next < |args| then args[next] else "")]
  {
    var next, width := a.sequential + 1, FromOperand(Operand(k));
    var present, operand := next < |args|, if next < |args| then args[next] else "";
    PositionCursors(k, a);
    ConversionIs(NextOperand, width, NoSize, directive, numerals, args, a, numerals.integer(args[k]), 0,
      BadSizeOperand(numerals, width, args, k), present, operand);
  }
}

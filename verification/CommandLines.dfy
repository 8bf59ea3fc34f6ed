/** Command lines put together from words in all ways of quoting, blanks and operators, and that
    the tokenizer takes them apart again. */
module CommandLines {
  import opened Sequences
  import opened Tokenizer
  import opened TokenizerSpans
  import opened Quoting

  // ---------------------------------------------------------------- one word

  /** A piece of a word: as it is, with a backslash before every character, in single quotes, or in
      double quotes with backslashes where they are needed. */
  datatype Fragment = Plain(text: string) | Backslashed(text: string) | Single(text: string) | Double(text: string)

  const VT := 11 as char
  const FF := 12 as char

  predicate IsOperator(c: char) {
    c in "|&;\n\r"
  }

  predicate IsBlankChar(c: char) {
    c in " \t" || c == VT || c == FF
  }

  predicate IsFragment(fr: Fragment) {
    match fr
    case Plain(text) =>
      forall k :: 0 <= k < |text| ==> !IsOperator(text[k]) && !IsBlankChar(text[k]) && text[k] !in "'\"\\"
    case Single(text) => forall k :: 0 <= k < |text| ==> text[k] != '\''
    case _ => true
  }

  function BackslashedPart(c: char): string { ['\\', c] }

  function DoublePart(c: char): string {
    if c == '"' || c == '\\' then ['\\', c] else [c]
  }

  function Parts(part: char -> string, text: string): string {
    if text == "" then "" else Parts(part, text[..|text| - 1]) + part(text[|text| - 1])
  }

  function Typed(fr: Fragment): string {
    match fr
    case Plain(text) => text
    case Backslashed(text) => Parts(BackslashedPart, text)
    case Single(text) => "'" + text + "'"
    case Double(text) => "\"" + Parts(DoublePart, text) + "\""
  }

  /** Reading `typed` inside a word adds this text to it. */
  ghost predicate Adds(typed: string, text: string, quotes: bool) {
    forall s: Scan, w: Word, j: nat {:trigger Feeds(Reading(s, w, Unquoted), j, typed)} ::
      Feeds(Reading(s, w, Unquoted), j, typed)
      == Reading(s, w.(text := w.text + text, raw := w.raw + typed, quoted := w.quoted || quotes), Unquoted)
  }

  /** Reading `part(c)` in quoting mode `mode` adds `c`. */
  ghost predicate PartAdds(part: char -> string, c: char, mode: Mode) {
    forall s: Scan, w: Word, j: nat {:trigger Feeds(Reading(s, w, mode), j, part(c))} ::
      Feeds(Reading(s, w, mode), j, part(c)) == Reading(s, w.(text := w.text + [c], raw := w.raw + part(c)), mode)
  }

  lemma EscapeAdds(s: Scan, w: Word, j: nat, c: char, mode: Mode)
    requires mode != Mode.Single
    ensures Feeds(Reading(s, w, mode), j, ['\\', c])
         == Reading(s, w.(text := w.text + [c], raw := w.raw + ['\\', c]), mode)
  {
    var s0 := Reading(s, w, mode);
    FeedsOne(s0, j, '\\');
    FeedsSnoc(s0, j, ['\\'], c);
    assert ['\\'] + [c] == ['\\', c];
    assert w.raw + ['\\'] + [c] == w.raw + ['\\', c];
  }

  lemma CharacterAdds(s: Scan, w: Word, j: nat, c: char, mode: Mode)
    requires mode == Mode.Double ==> c != '"' && c != '\\'
    requires mode == Mode.Single ==> c != '\''
    requires mode == Unquoted ==> !IsOperator(c) && !IsBlankChar(c) && c !in "'\"\\"
    ensures Feeds(Reading(s, w, mode), j, [c]) == Reading(s, w.(text := w.text + [c], raw := w.raw + [c]), mode)
  {
    FeedsOne(Reading(s, w, mode), j, c);
  }

  function Alone(c: char): string { [c] }

  lemma BackslashedAdds(c: char)
    ensures PartAdds(BackslashedPart, c, Unquoted)
  {
    forall s: Scan, w: Word, j: nat ensures Feeds(Reading(s, w, Unquoted), j, BackslashedPart(c))
        == Reading(s, w.(text := w.text + [c], raw := w.raw + BackslashedPart(c)), Unquoted) {
      EscapeAdds(s, w, j, c, Unquoted);
    }
  }

  lemma DoubleAdds(c: char)
    ensures PartAdds(DoublePart, c, Mode.Double)
  {
    forall s: Scan, w: Word, j: nat ensures Feeds(Reading(s, w, Mode.Double), j, DoublePart(c))
        == Reading(s, w.(text := w.text + [c], raw := w.raw + DoublePart(c)), Mode.Double) {
      if c == '"' || c == '\\' { EscapeAdds(s, w, j, c, Mode.Double); } else { CharacterAdds(s, w, j, c, Mode.Double); }
    }
  }

  lemma AloneAdds(c: char, mode: Mode)
    requires mode == Mode.Single || mode == Unquoted
    requires mode == Mode.Single ==> c != '\''
    requires mode == Unquoted ==> !IsOperator(c) && !IsBlankChar(c) && c !in "'\"\\"
    ensures PartAdds(Alone, c, mode)
  {
    forall s: Scan, w: Word, j: nat ensures Feeds(Reading(s, w, mode), j, Alone(c))
        == Reading(s, w.(text := w.text + [c], raw := w.raw + Alone(c)), mode) {
      CharacterAdds(s, w, j, c, mode);
    }
  }

  lemma {:induction false} PartsAdd(part: char -> string, text: string, mode: Mode, s: Scan, w: Word, j: nat)
    requires forall k :: 0 <= k < |text| ==> PartAdds(part, text[k], mode)
    ensures Feeds(Reading(s, w, mode), j, Parts(part, text))
         == Reading(s, w.(text := w.text + text, raw := w.raw + Parts(part, text)), mode)
    decreases |text|
  {
    if text == "" {
      NoneBefore(w.text);
      NoneBefore(w.raw);
    } else {
      var front, c := text[..|text| - 1], text[|text| - 1];
      var typed := Parts(part, front);
      var w1 := w.(text := w.text + front, raw := w.raw + typed);
      PartsAdd(part, front, mode, s, w, j);
      FeedsAppend(Reading(s, w, mode), j, typed, part(c));
      assert PartAdds(part, c, mode);
      Assoc(w.text, front, [c]);
      Assoc(w.raw, typed, part(c));
      Unsnoc(text);
    }
  }

  lemma {:induction false} AloneIsText(text: string)
    ensures Parts(Alone, text) == text
  {
    if text != "" {
      AloneIsText(text[..|text| - 1]);
      Unsnoc(text);
    }
  }

  /** An opening quote, the parts, and the closing quote. */
  lemma QuotedAdds(part: char -> string, text: string, mode: Mode, q: char, s: Scan, w: Word, j: nat)
    requires (mode == Mode.Single && q == '\'') || (mode == Mode.Double && q == '"')
    requires forall k :: 0 <= k < |text| ==> PartAdds(part, text[k], mode)
    ensures var typed := [q] + Parts(part, text) + [q];
      Feeds(Reading(s, w, Unquoted), j, typed)
        == Reading(s, w.(text := w.text + text, raw := w.raw + typed, quoted := true), Unquoted)
  {
    PartsAdd(part, text, mode, s, Begun(w, q), j + 1);
    QuotedFrom(text, Parts(part, text), mode, q, s, w, j);
  }

  function Begun(w: Word, q: char): Word {
    w.(raw := w.raw + [q], quoted := true)
  }

  function Added(w: Word, text: string, typed: string): Word {
    w.(text := w.text + text, raw := w.raw + typed)
  }

  lemma QuotedFrom(text: string, inside: string, mode: Mode, q: char, s: Scan, w: Word, j: nat)
    requires (mode == Mode.Single && q == '\'') || (mode == Mode.Double && q == '"')
    requires Feeds(Reading(s, Begun(w, q), mode), j + 1, inside)
        == Reading(s, Added(Begun(w, q), text, inside), mode)
    ensures Feeds(Reading(s, w, Unquoted), j, [q] + inside + [q])
         == Reading(s, Added(w, text, [q] + inside + [q]).(quoted := true), Unquoted)
  {
    var begun := Begun(w, q);
    var full := Added(begun, text, inside);
    QuoteFeeds(s, w, j, q, mode);
    QuoteFeeds(s, full, j + 1 + |inside|, q, mode);
    ThreeFeeds(Reading(s, w, Unquoted), j, [q], inside, [q], Reading(s, begun, mode), j + 1, Reading(s, full, mode),
        j + 1 + |inside|, Reading(s, Begun(full, q), Unquoted));
    QuotedRaw(w.raw, q, inside);
  }

  lemma QuoteFeeds(s: Scan, w: Word, j: nat, q: char, mode: Mode)
    requires (mode == Mode.Single && q == '\'') || (mode == Mode.Double && q == '"')
    ensures Feeds(Reading(s, w, Unquoted), j, [q]) == Reading(s, Begun(w, q), mode)
    ensures Feeds(Reading(s, w, mode), j, [q]) == Reading(s, Begun(w, q), Unquoted)
  {
    QuoteToggles(s, w, j, q, mode);
    FeedsOne(Reading(s, w, Unquoted), j, q);
    FeedsOne(Reading(s, w, mode), j, q);
  }

  lemma ThreeFeeds(s0: Scan, j: nat, a: string, b: string, c: string, s1: Scan, j1: nat, s2: Scan, j2: nat, s3: Scan)
    requires j1 == j + |a| && j2 == j1 + |b|
    requires Feeds(s0, j, a) == s1 && Feeds(s1, j1, b) == s2 && Feeds(s2, j2, c) == s3
    ensures Feeds(s0, j, a + b + c) == s3
  {
    FeedsTwo(s0, j, a, b, s1, s2);
    FeedsAppend(s0, j, a + b, c);
  }

  lemma QuotedRaw(raw: string, q: char, inside: string)
    ensures raw + [q] + inside + [q] == raw + ([q] + inside + [q])
  {
  }

  lemma QuoteToggles(s: Scan, w: Word, j: nat, q: char, mode: Mode)
    requires (mode == Mode.Single && q == '\'') || (mode == Mode.Double && q == '"')
    ensures var after := w.(raw := w.raw + [q], quoted := true);
      && Feed(Reading(s, w, Unquoted), j, q) == Reading(s, after, mode)
      && Feed(Reading(s, w, mode), j, q) == Reading(s, after, Unquoted)
  {
  }

  /** Every fragment adds its text to the word. */
  lemma FragmentAdds(fr: Fragment)
    requires IsFragment(fr)
    ensures Adds(Typed(fr), fr.text, fr.Single? || fr.Double?)
  {
    var text, quotes := fr.text, fr.Single? || fr.Double?;
    forall s: Scan, w: Word, j: nat ensures Feeds(Reading(s, w, Unquoted), j, Typed(fr))
        == Reading(s, w.(text := w.text + text, raw := w.raw + Typed(fr), quoted := w.quoted || quotes), Unquoted) {
      match fr
      case Plain(_) =>
        forall k | 0 <= k < |text| ensures PartAdds(Alone, text[k], Unquoted) { AloneAdds(text[k], Unquoted); }
        AloneIsText(text);
        PartsAdd(Alone, text, Unquoted, s, w, j);
      case Backslashed(_) =>
        forall k | 0 <= k < |text| ensures PartAdds(BackslashedPart, text[k], Unquoted) { BackslashedAdds(text[k]); }
        PartsAdd(BackslashedPart, text, Unquoted, s, w, j);
      case Single(_) =>
        forall k | 0 <= k < |text| ensures PartAdds(Alone, text[k], Mode.Single) { AloneAdds(text[k], Mode.Single); }
        AloneIsText(text);
        QuotedAdds(Alone, text, Mode.Single, '\'', s, w, j);
      case Double(_) =>
        forall k | 0 <= k < |text| ensures PartAdds(DoublePart, text[k], Mode.Double) { DoubleAdds(text[k]); }
        QuotedAdds(DoublePart, text, Mode.Double, '"', s, w, j);
    }
  }

  predicate AllFragments(fs: seq<Fragment>) {
    forall k :: 0 <= k < |fs| ==> IsFragment(fs[k])
  }

  /** Fragments of which at least one is not empty. */
  predicate IsTypedWord(fs: seq<Fragment>) {
    AllFragments(fs) && TypedWord(fs) != ""
  }

  function TypedWord(fs: seq<Fragment>): string {
    if fs == [] then "" else TypedWord(fs[..|fs| - 1]) + Typed(fs[|fs| - 1])
  }

  function TextOfWord(fs: seq<Fragment>): string {
    if fs == [] then "" else TextOfWord(fs[..|fs| - 1]) + fs[|fs| - 1].text
  }

  predicate HasQuotes(fs: seq<Fragment>) {
    exists k :: 0 <= k < |fs| && (fs[k].Single? || fs[k].Double?)
  }

  lemma QuotesSnoc(fs: seq<Fragment>, fr: Fragment)
    ensures HasQuotes(fs + [fr]) == (HasQuotes(fs) || fr.Single? || fr.Double?)
  {
    if k :| 0 <= k < |fs| && (fs[k].Single? || fs[k].Double?) { assert (fs + [fr])[k] == fs[k]; }
    assert (fs + [fr])[|fs|] == fr;
  }

  function Grown(w: Word, text: string, typed: string, quotes: bool): Word {
    w.(text := w.text + text, raw := w.raw + typed, quoted := w.quoted || quotes)
  }

  lemma GrownTwice(w: Word, text: string, typed: string, quotes: bool, text': string, typed': string, quotes': bool)
    ensures Grown(Grown(w, text, typed, quotes), text', typed', quotes')
         == Grown(w, text + text', typed + typed', quotes || quotes')
  {
    Assoc(w.text, text, text');
    Assoc(w.raw, typed, typed');
  }

  lemma FragmentGrows(fr: Fragment, s: Scan, w: Word, j: nat)
    requires IsFragment(fr)
    ensures Feeds(Reading(s, w, Unquoted), j, Typed(fr))
         == Reading(s, Grown(w, fr.text, Typed(fr), fr.Single? || fr.Double?), Unquoted)
  {
    FragmentAdds(fr);
  }

  lemma OneMoreFragment(typed: string, text: string, quotes: bool, fr: Fragment, s: Scan, w: Word, j: nat)
    requires IsFragment(fr)
    requires Feeds(Reading(s, w, Unquoted), j, typed) == Reading(s, Grown(w, text, typed, quotes), Unquoted)
    ensures Feeds(Reading(s, w, Unquoted), j, typed + Typed(fr)) == Reading(s, Grown(w, text + fr.text,
        typed + Typed(fr), quotes || fr.Single? || fr.Double?), Unquoted)
  {
    var w1 := Grown(w, text, typed, quotes);
    FragmentGrows(fr, s, w1, j + |typed|);
    FeedsTwo(Reading(s, w, Unquoted), j, typed, Typed(fr), Reading(s, w1, Unquoted),
        Reading(s, Grown(w1, fr.text, Typed(fr), fr.Single? || fr.Double?), Unquoted));
    GrownTwice(w, text, typed, quotes, fr.text, Typed(fr), fr.Single? || fr.Double?);
  }

  lemma {:induction false} FragmentsAdd(fs: seq<Fragment>, s: Scan, w: Word, j: nat)
    requires AllFragments(fs)
    ensures Feeds(Reading(s, w, Unquoted), j, TypedWord(fs))
         == Reading(s, Grown(w, TextOfWord(fs), TypedWord(fs), HasQuotes(fs)), Unquoted)
    decreases |fs|
  {
    if fs == [] {
      NoneBefore(w.text);
      NoneBefore(w.raw);
    } else {
      var front, last := fs[..|fs| - 1], fs[|fs| - 1];
      FragmentsAdd(front, s, w, j);
      OneMoreFragment(TypedWord(front), TextOfWord(front), HasQuotes(front), last, s, w, j);
      QuotesSnoc(front, last);
      assert fs == front + [last];
    }
  }

  predicate StartsWord(typed: string) {
    typed != "" && !IsOperator(typed[0]) && !IsBlankChar(typed[0])
  }

  lemma FragmentStarts(fr: Fragment)
    requires IsFragment(fr) && Typed(fr) != ""
    ensures StartsWord(Typed(fr))
  {
    if fr.Backslashed? { BackslashFirst(fr.text); }
  }

  lemma {:induction false} BackslashFirst(text: string)
    requires text != ""
    ensures Parts(BackslashedPart, text) != "" && Parts(BackslashedPart, text)[0] == '\\'
    decreases |text|
  {
    if |text| > 1 { BackslashFirst(text[..|text| - 1]); }
  }

  lemma {:induction false} WordStarts(fs: seq<Fragment>)
    requires IsTypedWord(fs)
    ensures StartsWord(TypedWord(fs))
    decreases |fs|
  {
    var front, last := fs[..|fs| - 1], fs[|fs| - 1];
    if TypedWord(front) == "" {
      NoneBefore(Typed(last));
      FragmentStarts(last);
    } else {
      WordStarts(front);
    }
  }

  /** Between two words the first character begins a word. */
  lemma IdleBegins(s: Scan, i: nat, typed: string)
    requires Idle(s) && StartsWord(typed)
    ensures Feeds(s, i, typed) == Feeds(Reading(s, NO_WORD.(begin := i), Unquoted), i, typed)
  {
    var s', c := Reading(s, NO_WORD.(begin := i), Unquoted), typed[0];
    Uncons(typed);
    FeedsAppend(s, i, [c], typed[1..]);
    FeedsAppend(s', i, [c], typed[1..]);
    FeedsOne(s, i, c);
    FeedsOne(s', i, c);
  }

  /** The word that `fs` are typed for, at position `i`. */
  function WordAt(fs: seq<Fragment>, i: nat): Word {
    Word(TextOfWord(fs), TypedWord(fs), i, i + |TypedWord(fs)|, HasQuotes(fs), IsAssignment(TextOfWord(fs)))
  }

  /** A typed word is read as its text, whichever way it is quoted. */
  lemma TypedWordRead(fs: seq<Fragment>, s: Scan, i: nat)
    requires IsTypedWord(fs) && Idle(s)
    ensures Feeds(s, i, TypedWord(fs)) == Reading(s, WordAt(fs, i).(end := 0, assignment := false), Unquoted)
  {
    WordStarts(fs);
    IdleBegins(s, i, TypedWord(fs));
    FragmentsAdd(fs, s, NO_WORD.(begin := i), i);
    NoneBefore(TextOfWord(fs));
    NoneBefore(TypedWord(fs));
  }

  /** Any way of quoting counts for the lists above. */
  lemma TypedWordQuotes(fs: seq<Fragment>)
    requires IsTypedWord(fs)
    ensures Quotes(TypedWord(fs), TextOfWord(fs))
  {
    forall s: Scan, i: nat | Idle(s) ensures Feeds(s, i, TypedWord(fs))
        == Reading(s, Word(TextOfWord(fs), TypedWord(fs), i, 0, HasQuotes(fs), false), Unquoted) {
      TypedWordRead(fs, s, i);
    }
    assert QuotesAs(TypedWord(fs), TextOfWord(fs), HasQuotes(fs));
  }

  // ---------------------------------------------------------------- lines

  predicate AllBlank(gap: string) {
    forall k :: 0 <= k < |gap| ==> IsBlankChar(gap[k])
  }

  /** Words, each followed by blanks; only after the last one there may be none. */
  predicate IsTypedLine(words: seq<seq<Fragment>>, gaps: seq<string>) {
    && |words| == |gaps|
    && (forall k :: 0 <= k < |words| ==> IsTypedWord(words[k]) && AllBlank(gaps[k]))
    && (forall k :: 0 <= k < |words| - 1 ==> gaps[k] != "")
  }

  function TypedLine(words: seq<seq<Fragment>>, gaps: seq<string>): string
    requires |words| == |gaps|
  {
    if words == [] then ""
    else
      var n := |words| - 1;
      TypedLine(words[..n], gaps[..n]) + TypedWord(words[n]) + gaps[n]
  }

  /** The words of a line that stands at `at`. */
  function WordsAt(words: seq<seq<Fragment>>, gaps: seq<string>, at: nat): (r: seq<Word>)
    requires |words| == |gaps|
    ensures |r| == |words|
  {
    if words == [] then []
    else
      var n := |words| - 1;
      WordsAt(words[..n], gaps[..n], at) + [WordAt(words[n], at + |TypedLine(words[..n], gaps[..n])|)]
  }

  lemma {:induction false} BlanksIdle(s: Scan, i: nat, gap: string)
    requires Idle(s) && AllBlank(gap)
    ensures Feeds(s, i, gap) == s
    decreases |gap|
  {
    if gap != "" {
      var front, c := gap[..|gap| - 1], gap[|gap| - 1];
      BlanksIdle(s, i, front);
      Unsnoc(gap);
      FeedsSnoc(s, i, front, c);
    }
  }

  lemma BlanksClose(s: Scan, w: Word, i: nat, gap: string)
    requires gap != "" && AllBlank(gap)
    ensures Feeds(Reading(s, w, Unquoted), i, gap) == Closed(Reading(s, w, Unquoted), i)
  {
    var s0, c := Reading(s, w, Unquoted), gap[0];
    Uncons(gap);
    FeedsAppend(s0, i, [c], gap[1..]);
    FeedsOne(s0, i, c);
    BlanksIdle(Closed(s0, i), i + 1, gap[1..]);
  }

  /** A scan that has read these words of a segment that starts at `a`; the last one is still
      `open`. */
  predicate Stopped(s: Scan, a: nat, ws: seq<Word>, open: bool) {
    && s.mode == Unquoted && !s.pending && s.start == a && s.active == open
    && (if open then ws != [] && s.words == ws[..|ws| - 1] && Complete(s.word, ws[|ws| - 1].end) == ws[|ws| - 1]
        else s.word == NO_WORD && s.words == ws)
  }

  lemma WordOpen(s: Scan, a: nat, ws: seq<Word>, i: nat, fs: seq<Fragment>)
    requires Stopped(s, a, ws, false)
    ensures Stopped(Reading(s, WordAt(fs, i).(end := 0, assignment := false), Unquoted), a, ws + [WordAt(fs, i)], true)
  {
  }

  lemma WordClosed(s: Scan, a: nat, ws: seq<Word>, i: nat, fs: seq<Fragment>)
    requires Stopped(s, a, ws, false)
    ensures Stopped(Closed(Reading(s, WordAt(fs, i).(end := 0, assignment := false), Unquoted), i + |TypedWord(fs)|), a,
      ws + [WordAt(fs, i)], false)
  {
  }

  lemma ThenBlanks(s: Scan, i: nat, typed: string, w: Word, gap: string)
    requires Feeds(s, i, typed) == Reading(s, w, Unquoted) && AllBlank(gap)
    ensures Feeds(s, i, typed + gap)
         == if gap == "" then Reading(s, w, Unquoted) else Closed(Reading(s, w, Unquoted), i + |typed|)
  {
    if gap == "" {
      NoneBefore(typed);
    } else {
      BlanksClose(s, w, i + |typed|, gap);
      FeedsTwo(s, i, typed, gap, Reading(s, w, Unquoted), Closed(Reading(s, w, Unquoted), i + |typed|));
    }
  }

  lemma WordThenBlanks(s: Scan, i: nat, fs: seq<Fragment>, gap: string, open: Scan)
    requires Idle(s) && IsTypedWord(fs) && AllBlank(gap)
    requires open == Reading(s, WordAt(fs, i).(end := 0, assignment := false), Unquoted)
    ensures Feeds(s, i, TypedWord(fs) + gap) == if gap == "" then open else Closed(open, i + |TypedWord(fs)|)
  {
    TypedWordRead(fs, s, i);
    ThenBlanks(s, i, TypedWord(fs), WordAt(fs, i).(end := 0, assignment := false), gap);
  }

  /** One more word, and what follows it. */
  lemma OneMoreWord(s: Scan, a: nat, ws: seq<Word>, i: nat, fs: seq<Fragment>, gap: string)
    requires Stopped(s, a, ws, false) && IsTypedWord(fs) && AllBlank(gap)
    ensures Stopped(Feeds(s, i, TypedWord(fs) + gap), a, ws + [WordAt(fs, i)], gap == "")
  {
    WordThenBlanks(s, i, fs, gap, Reading(s, WordAt(fs, i).(end := 0, assignment := false), Unquoted));
    WordOpen(s, a, ws, i, fs);
    WordClosed(s, a, ws, i, fs);
  }

  /** What reading a text from the start of a segment leads to. */
  type Readings = (string, seq<Word>, bool) -> bool

  function ReadingsFrom(a: nat): Readings {
    (text: string, ws: seq<Word>, open: bool) => Stopped(Feeds(INITIAL.(start := a), a, text), a, ws, open)
  }

  type IsWordTyped = seq<Fragment> -> bool
  type IsGapTyped = string -> bool

  const TYPED_WORD: IsWordTyped := (fs: seq<Fragment>) => IsTypedWord(fs)
  const TYPED_GAP: IsGapTyped := (gap: string) => AllBlank(gap)

  /** One more word may always follow. */
  ghost predicate Continues(reads_: Readings, word: IsWordTyped, blank: IsGapTyped, a: nat) {
    forall text: string, ws: seq<Word>, fs: seq<Fragment>, gap: string, more: string, ws': seq<Word>, open: bool
      {:trigger reads_(text, ws, false), reads_(more, ws', open), word(fs), blank(gap)} ::
      (&& reads_(text, ws, false) && word(fs) && blank(gap) && more == text + (TypedWord(fs) + gap)
       && ws' == ws + [WordAt(fs, a + |text|)] && open == (gap == ""))
      ==> reads_(more, ws', open)
  }

  lemma ReadingsContinue(a: nat)
    ensures Continues(ReadingsFrom(a), TYPED_WORD, TYPED_GAP, a)
  {
    var s0, reads_ := INITIAL.(start := a), ReadingsFrom(a);
    forall text: string, ws: seq<Word>, fs: seq<Fragment>, gap: string, more: string, ws': seq<Word>, open: bool
      | reads_(text, ws, false) && IsTypedWord(fs) && AllBlank(gap) && more == text + (TypedWord(fs) + gap)
        && ws' == ws + [WordAt(fs, a + |text|)] && open == (gap == "")
      ensures reads_(more, ws', open)
    {
      ReadsMore(a, text, ws, fs, gap, Feeds(s0, a, text));
    }
  }

  lemma ReadsMore(a: nat, text: string, ws: seq<Word>, fs: seq<Fragment>, gap: string, s: Scan)
    requires s == Feeds(INITIAL.(start := a), a, text) && Stopped(s, a, ws, false)
    requires IsTypedWord(fs) && AllBlank(gap)
    ensures Stopped(Feeds(INITIAL.(start := a), a, text + (TypedWord(fs) + gap)), a,
      ws + [WordAt(fs, a + |text|)], gap == "")
  {
    var more := Feeds(s, a + |text|, TypedWord(fs) + gap);
    OneMoreWord(s, a, ws, a + |text|, fs, gap);
    FeedsTwo(INITIAL.(start := a), a, text, TypedWord(fs) + gap, s, more);
  }

  lemma LeadReads(a: nat, lead: string)
    requires AllBlank(lead)
    ensures ReadingsFrom(a)(lead, [], false)
  {
    BlanksIdle(INITIAL.(start := a), a, lead);
  }

  lemma LineSnoc(lead: string, words: seq<seq<Fragment>>, gaps: seq<string>, n: nat)
    requires |words| == |gaps| == n + 1
    ensures var before := lead + TypedLine(words[..n], gaps[..n]);
      lead + TypedLine(words, gaps) == before + (TypedWord(words[n]) + gaps[n])
  {
    Assoc4(lead, TypedLine(words[..n], gaps[..n]), TypedWord(words[n]), gaps[n]);
    Assoc(lead + TypedLine(words[..n], gaps[..n]), TypedWord(words[n]), gaps[n]);
  }

  ghost predicate AllGood(word: IsWordTyped, blank: IsGapTyped, words: seq<seq<Fragment>>, gaps: seq<string>) {
    && |words| == |gaps|
    && (forall k :: 0 <= k < |words| ==> word(words[k]) && blank(gaps[k]))
    && (forall k :: 0 <= k < |words| - 1 ==> gaps[k] != "")
  }

  lemma WordsSnoc(words: seq<seq<Fragment>>, gaps: seq<string>, n: nat, at: nat, end: nat, ws: seq<Word>,
      known: seq<Word>)
    requires |words| == |gaps| == n + 1 && ws == WordsAt(words, gaps, at) && known == WordsAt(words[..n], gaps[..n], at)
    requires end == at + |TypedLine(words[..n], gaps[..n])|
    ensures ws == known + [WordAt(words[n], end)]
  {
  }

  lemma LineUnfolds(a: nat, lead: string, words: seq<seq<Fragment>>, gaps: seq<string>, m: nat, text: string,
      at: nat, ws: seq<Word>, before: string, known: seq<Word>)
    requires |words| == |gaps| == m + 1 && at == a + |lead|
    requires text == lead + TypedLine(words, gaps) && ws == WordsAt(words, gaps, at)
    requires before == lead + TypedLine(words[..m], gaps[..m]) && known == WordsAt(words[..m], gaps[..m], at)
    ensures text == before + (TypedWord(words[m]) + gaps[m]) && ws == known + [WordAt(words[m], a + |before|)]
  {
    LineSnoc(lead, words, gaps, m);
    WordsSnoc(words, gaps, m, at, a + |before|, ws, known);
  }

  lemma {:induction false} LineRead(reads_: Readings, word: IsWordTyped, blank: IsGapTyped, a: nat, lead: string,
      words: seq<seq<Fragment>>, gaps: seq<string>, n: nat, text: string, at: nat, ws: seq<Word>, open: bool)
    requires Continues(reads_, word, blank, a) && reads_(lead, [], false)
    requires AllGood(word, blank, words, gaps) && n == |words| && at == a + |lead|
    requires text == lead + TypedLine(words, gaps) && ws == WordsAt(words, gaps, at)
    requires open <==> n > 0 && gaps[n - 1] == ""
    ensures reads_(text, ws, open)
    decreases n
  {
    if n == 0 {
      NoneBefore(lead);
    } else {
      var m := n - 1;
      var before, known := lead + TypedLine(words[..m], gaps[..m]), WordsAt(words[..m], gaps[..m], at);
      LineRead(reads_, word, blank, a, lead, words[..m], gaps[..m], m, before, at, known, false);
      LineUnfolds(a, lead, words, gaps, m, text, at, ws, before, known);
      ReadOneMore(reads_, word, blank, a, before, known, words[m], gaps[m], text, ws);
    }
  }

  lemma ReadOneMore(reads_: Readings, word: IsWordTyped, blank: IsGapTyped, a: nat, before: string, known: seq<Word>,
      fs: seq<Fragment>, gap: string, text: string, ws: seq<Word>)
    requires Continues(reads_, word, blank, a) && reads_(before, known, false) && word(fs) && blank(gap)
    requires text == before + (TypedWord(fs) + gap) && ws == known + [WordAt(fs, a + |before|)]
    ensures reads_(text, ws, gap == "")
  {
  }

  lemma ReadingStopped(a: nat, text: string, ws: seq<Word>, open: bool)
    requires ReadingsFrom(a)(text, ws, open)
    ensures Stopped(Feeds(INITIAL.(start := a), a, text), a, ws, open)
  {
  }

  lemma LineGood(words: seq<seq<Fragment>>, gaps: seq<string>)
    requires IsTypedLine(words, gaps)
    ensures AllGood(TYPED_WORD, TYPED_GAP, words, gaps)
  {
  }

  /** Reading a typed line from the start of a segment. */
  lemma LineStops(a: nat, lead: string, words: seq<seq<Fragment>>, gaps: seq<string>, text: string, at: nat,
      ws: seq<Word>, open: bool)
    requires AllBlank(lead) && AllGood(TYPED_WORD, TYPED_GAP, words, gaps)
    requires text == lead + TypedLine(words, gaps) && at == a + |lead| && ws == WordsAt(words, gaps, at)
    requires open <==> words != [] && gaps[|gaps| - 1] == ""
    ensures Stopped(Feeds(INITIAL.(start := a), a, text), a, ws, open)
  {
    ReadingsContinue(a);
    LeadReads(a, lead);
    LineRead(ReadingsFrom(a), TYPED_WORD, TYPED_GAP, a, lead, words, gaps, |words|, text, at, ws, open);
    ReadingStopped(a, text, ws, open);
  }

  lemma GoodLineTokens(lead: string, words: seq<seq<Fragment>>, gaps: seq<string>, text: string, ws: seq<Word>,
      open: bool)
    requires AllBlank(lead) && AllGood(TYPED_WORD, TYPED_GAP, words, gaps)
    requires text == lead + TypedLine(words, gaps) && ws == WordsAt(words, gaps, |lead|)
    requires open <==> words != [] && gaps[|gaps| - 1] == ""
    ensures Tokens(text) == Segment(0, ws, !open)
  {
    LineStops(0, lead, words, gaps, text, |lead|, ws, open);
    if words != [] { LastEnds(words, gaps, |lead|); }
    TokensOf(text, Feeds(INITIAL.(start := 0), 0, text), ws, 0, open);
  }

  /** What the tokenizer finds on a typed line: at its position each word with its text, its raw
      form and whether quotes were used. */
  lemma LineTokens(lead: string, words: seq<seq<Fragment>>, gaps: seq<string>)
    requires AllBlank(lead) && IsTypedLine(words, gaps)
    ensures Tokens(lead + TypedLine(words, gaps))
         == Segment(0, WordsAt(words, gaps, |lead|), words == [] || gaps[|gaps| - 1] != "")
  {
    LineGood(words, gaps);
    GoodLineTokens(lead, words, gaps, lead + TypedLine(words, gaps), WordsAt(words, gaps, |lead|),
        words != [] && gaps[|gaps| - 1] == "");
  }

  /** No quote is open between a character that is read and the next one. */
  predicate IsClosed(s: Scan) {
    s.mode == Unquoted && !s.pending
  }

  lemma OperatorRestarts(earlier: string, op: char, text: string, a: nat, input: string)
    requires IsClosed(Fed(earlier)) && IsOperator(op) && a == |earlier| + 1 && input == earlier + [op] + text
    ensures Fed(input) == Feeds(INITIAL.(start := a), a, text)
  {
    FedSnoc(earlier, op);
    FeedsAppend(INITIAL, 0, earlier + [op], text);
  }

  lemma SegmentOf(input: string, s: Scan, ws: seq<Word>, a: nat, open: bool)
    requires s == Fed(input) && Stopped(s, a, ws, open) && (open ==> ws[|ws| - 1].end == |input|)
    ensures Tokens(input) == Segment(a, ws, !open) && IsClosed(Fed(input))
  {
    if open { Unopened(s, ws, |input|); }
  }

  lemma LineEnds(words: seq<seq<Fragment>>, gaps: seq<string>, at: nat, ws: seq<Word>, open: bool, end: nat)
    requires |words| == |gaps| && ws == WordsAt(words, gaps, at) && end == at + |TypedLine(words, gaps)|
    requires open <==> words != [] && gaps[|gaps| - 1] == ""
    ensures open ==> ws[|ws| - 1].end == end
  {
    if words != [] { LastEnds(words, gaps, at); }
  }

  lemma GoodSegment(lead: string, words: seq<seq<Fragment>>, gaps: seq<string>, text: string, a: nat, at: nat,
      ws: seq<Word>, open: bool, input: string)
    requires Fed(input) == Feeds(INITIAL.(start := a), a, text) && |input| == a + |text|
    requires AllBlank(lead) && AllGood(TYPED_WORD, TYPED_GAP, words, gaps)
    requires text == lead + TypedLine(words, gaps) && at == a + |lead| && ws == WordsAt(words, gaps, at)
    requires open <==> words != [] && gaps[|gaps| - 1] == ""
    ensures Tokens(input) == Segment(a, ws, !open) && IsClosed(Fed(input))
  {
    var s := Feeds(INITIAL.(start := a), a, text);
    LineStops(a, lead, words, gaps, text, at, ws, open);
    LineEnds(words, gaps, at, ws, open, |input|);
    SegmentOf(input, s, ws, a, open);
  }

  /** Of a list of commands only the last one counts: after an operator outside quotes the words are
      those of the line behind it, where they stand. */
  lemma SegmentTokens(earlier: string, op: char, lead: string, words: seq<seq<Fragment>>, gaps: seq<string>,
      input: string, a: nat, at: nat)
    requires IsClosed(Fed(earlier)) && IsOperator(op) && AllBlank(lead) && IsTypedLine(words, gaps)
    requires input == earlier + [op] + (lead + TypedLine(words, gaps)) && a == |earlier| + 1 && at == a + |lead|
    ensures Tokens(input) == Segment(a, WordsAt(words, gaps, at), words == [] || gaps[|gaps| - 1] != "")
    ensures IsClosed(Fed(input))
  {
    OperatorRestarts(earlier, op, lead + TypedLine(words, gaps), a, input);
    LineGood(words, gaps);
    GoodSegment(lead, words, gaps, lead + TypedLine(words, gaps), a, at, WordsAt(words, gaps, at),
        words != [] && gaps[|gaps| - 1] == "", input);
  }

  /** A typed line may be the first of them. */
  lemma LineCloses(lead: string, words: seq<seq<Fragment>>, gaps: seq<string>)
    requires AllBlank(lead) && IsTypedLine(words, gaps)
    ensures IsClosed(Fed(lead + TypedLine(words, gaps)))
  {
    LineGood(words, gaps);
    LineStops(0, lead, words, gaps, lead + TypedLine(words, gaps), |lead|, WordsAt(words, gaps, |lead|),
        words != [] && gaps[|gaps| - 1] == "");
    assert INITIAL.(start := 0) == INITIAL;
  }

  lemma LastEnds(words: seq<seq<Fragment>>, gaps: seq<string>, at: nat)
    requires |words| == |gaps| && words != []
    ensures WordsAt(words, gaps, at)[|words| - 1].end + |gaps[|words| - 1]| == at + |TypedLine(words, gaps)|
  {
  }

  lemma TokensOf(input: string, s: Scan, ws: seq<Word>, a: nat, open: bool)
    requires s == Feeds(INITIAL.(start := 0), 0, input) && Stopped(s, a, ws, open)
    requires open ==> ws[|ws| - 1].end == |input|
    ensures Tokens(input) == Segment(a, ws, !open)
  {
    assert INITIAL.(start := 0) == INITIAL;
    if open { Unopened(s, ws, |input|); }
  }

  lemma Unopened(s: Scan, ws: seq<Word>, end: nat)
    requires s.active && ws != [] && s.words == ws[..|ws| - 1]
    requires ws[|ws| - 1].end == end && Complete(s.word, end) == ws[|ws| - 1]
    ensures Closed(s, end).words == ws
  {
  }

  // ---------------------------------------------------------------- a quote that is still open

  function QuoteOf(double: bool): char { if double then '"' else '\'' }

  function ModeOf(double: bool): Mode { if double then Mode.Double else Mode.Single }

  /** What has been typed of a quoted fragment before its closing quote. */
  function Opened(double: bool, text: string): string {
    [QuoteOf(double)] + if double then Parts(DoublePart, text) else text
  }

  lemma OpenedAdds(double: bool, text: string, s: Scan, w: Word, j: nat)
    requires double || '\'' !in text
    ensures Feeds(Reading(s, w, Unquoted), j, Opened(double, text))
         == Reading(s, Grown(w, text, Opened(double, text), true), ModeOf(double))
  {
    var q, mode, part := QuoteOf(double), ModeOf(double), if double then DoublePart else Alone;
    forall k | 0 <= k < |text| ensures PartAdds(part, text[k], mode) {
      if double { DoubleAdds(text[k]); } else { AloneAdds(text[k], mode); }
    }
    AloneIsText(text);
    QuoteFeeds(s, w, j, q, mode);
    PartsAdd(part, text, mode, s, Begun(w, q), j + 1);
    FeedsTwo(Reading(s, w, Unquoted), j, [q], Parts(part, text), Reading(s, Begun(w, q), mode),
        Reading(s, Added(Begun(w, q), text, Parts(part, text)), mode));
    Assoc(w.raw, [q], Parts(part, text));
  }

  lemma OpenedStarts(fs: seq<Fragment>, double: bool, text: string)
    requires AllFragments(fs)
    ensures StartsWord(TypedWord(fs) + Opened(double, text))
  {
    if TypedWord(fs) == "" { NoneBefore(Opened(double, text)); } else { WordStarts(fs); }
  }

  /** The word that is being typed inside quotes. */
  function OpenWord(fs: seq<Fragment>, double: bool, text: string, i: nat): Word {
    Word(TextOfWord(fs) + text, TypedWord(fs) + Opened(double, text), i, 0, true, false)
  }

  lemma OpenWordRead(fs: seq<Fragment>, double: bool, text: string, s: Scan, i: nat)
    requires AllFragments(fs) && (double || '\'' !in text) && Idle(s)
    ensures Feeds(s, i, TypedWord(fs) + Opened(double, text))
         == Reading(s, OpenWord(fs, double, text, i), ModeOf(double))
  {
    var w := NO_WORD.(begin := i);
    var w1 := Grown(w, TextOfWord(fs), TypedWord(fs), HasQuotes(fs));
    var w2 := Grown(w1, text, Opened(double, text), true);
    OpenedStarts(fs, double, text);
    IdleBegins(s, i, TypedWord(fs) + Opened(double, text));
    FragmentsAdd(fs, s, w, i);
    OpenedAdds(double, text, s, w1, i + |TypedWord(fs)|);
    FeedsTwo(Reading(s, w, Unquoted), i, TypedWord(fs), Opened(double, text), Reading(s, w1, Unquoted),
        Reading(s, w2, ModeOf(double)));
    GrownTwice(w, TextOfWord(fs), TypedWord(fs), HasQuotes(fs), text, Opened(double, text), true);
    NoneBefore(TextOfWord(fs) + text);
    NoneBefore(TypedWord(fs) + Opened(double, text));
  }

  lemma OpenTokens(before: string, typed: string, s: Scan, ws: seq<Word>, w: Word, mode: Mode)
    requires s == Fed(before) && Stopped(s, 0, ws, false)
    requires Feeds(s, |before|, typed) == Reading(s, w, mode)
    ensures Tokens(before + typed) == Segment(0, ws + [Complete(w, |before + typed|)], false)
  {
    FeedsAppend(INITIAL, 0, before, typed);
  }

  /** While a quoted word is being typed, it is one word, with what is typed inside the open quote,
      blanks and operators included. */
  lemma OpenQuoteTokens(lead: string, words: seq<seq<Fragment>>, gaps: seq<string>, fs: seq<Fragment>, double: bool,
      text: string)
    requires AllBlank(lead) && IsTypedLine(words, gaps) && (words == [] || gaps[|gaps| - 1] != "")
    requires AllFragments(fs) && (double || '\'' !in text)
    ensures var before, typed := lead + TypedLine(words, gaps), TypedWord(fs) + Opened(double, text);
      Tokens(before + typed) == Segment(0, WordsAt(words, gaps, |lead|)
        + [Complete(OpenWord(fs, double, text, |before|), |before + typed|)], false)
  {
    var before, ws := lead + TypedLine(words, gaps), WordsAt(words, gaps, |lead|);
    LineGood(words, gaps);
    LineStops(0, lead, words, gaps, before, |lead|, ws, false);
    assert INITIAL.(start := 0) == INITIAL;
    OpenWordRead(fs, double, text, Fed(before), |before|);
    OpenTokens(before, TypedWord(fs) + Opened(double, text), Fed(before), ws, OpenWord(fs, double, text, |before|),
        ModeOf(double));
  }

  // ---------------------------------------------------------------- a backslash at the cursor

  /** The word that is being typed and ends in a backslash. */
  function SlashWord(fs: seq<Fragment>, i: nat): Word {
    Word(TextOfWord(fs), TypedWord(fs) + "\\", i, 0, HasQuotes(fs), false)
  }

  lemma SlashPends(s: Scan, w: Word, j: nat)
    ensures Feeds(Reading(s, w, Unquoted), j, "\\")
         == Reading(s, w.(raw := w.raw + "\\"), Unquoted).(pending := true)
  {
    FeedsOne(Reading(s, w, Unquoted), j, '\\');
  }

  lemma SlashStarts(fs: seq<Fragment>)
    requires AllFragments(fs)
    ensures StartsWord(TypedWord(fs) + "\\")
  {
    if TypedWord(fs) == "" { NoneBefore("\\"); } else { WordStarts(fs); }
  }

  lemma SlashGrows(w: Word, text: string, typed: string, quotes: bool, s: Scan, j: nat)
    requires Feeds(Reading(s, w, Unquoted), j, typed) == Reading(s, Grown(w, text, typed, quotes), Unquoted)
    ensures Feeds(Reading(s, w, Unquoted), j, typed + "\\")
         == Reading(s, Grown(w, text, typed + "\\", quotes), Unquoted).(pending := true)
  {
    var w1 := Grown(w, text, typed, quotes);
    SlashPends(s, w1, j + |typed|);
    FeedsTwo(Reading(s, w, Unquoted), j, typed, "\\", Reading(s, w1, Unquoted),
        Reading(s, w1.(raw := w1.raw + "\\"), Unquoted).(pending := true));
    Assoc(w.raw, typed, "\\");
  }

  lemma SlashRead(fs: seq<Fragment>, s: Scan, i: nat)
    requires AllFragments(fs) && Idle(s)
    ensures Feeds(s, i, TypedWord(fs) + "\\") == Reading(s, SlashWord(fs, i), Unquoted).(pending := true)
  {
    var w := NO_WORD.(begin := i);
    SlashStarts(fs);
    IdleBegins(s, i, TypedWord(fs) + "\\");
    FragmentsAdd(fs, s, w, i);
    SlashGrows(w, TextOfWord(fs), TypedWord(fs), HasQuotes(fs), s, i);
    NoneBefore(TextOfWord(fs));
    NoneBefore(TypedWord(fs) + "\\");
  }

  lemma SlashTokens(before: string, typed: string, s: Scan, ws: seq<Word>, w: Word)
    requires s == Fed(before) && Stopped(s, 0, ws, false)
    requires Feeds(s, |before|, typed) == Reading(s, w, Unquoted).(pending := true)
    ensures Tokens(before + typed)
         == Segment(0, ws + [Complete(w.(text := w.text + "\\"), |before + typed|)], false)
  {
    FeedsAppend(INITIAL, 0, before, typed);
  }

  /** A backslash with nothing behind it stands for itself, at the end of the word that is being
      typed. */
  lemma LastBackslashTokens(lead: string, words: seq<seq<Fragment>>, gaps: seq<string>, fs: seq<Fragment>)
    requires AllBlank(lead) && IsTypedLine(words, gaps) && (words == [] || gaps[|gaps| - 1] != "")
    requires AllFragments(fs)
    ensures var before, typed := lead + TypedLine(words, gaps), TypedWord(fs) + "\\";
      var text := TextOfWord(fs) + "\\";
      Tokens(before + typed) == Segment(0, WordsAt(words, gaps, |lead|)
        + [Word(text, typed, |before|, |before + typed|, HasQuotes(fs), IsAssignment(text))], false)
  {
    var before, ws := lead + TypedLine(words, gaps), WordsAt(words, gaps, |lead|);
    LineGood(words, gaps);
    LineStops(0, lead, words, gaps, before, |lead|, ws, false);
    assert INITIAL.(start := 0) == INITIAL;
    SlashRead(fs, Fed(before), |before|);
    SlashTokens(before, TypedWord(fs) + "\\", Fed(before), ws, SlashWord(fs, |before|));
  }
}

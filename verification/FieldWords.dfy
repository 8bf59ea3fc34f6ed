/** What the variables of `read` get: the fields of the split in order, the rest in the last
    variable; and, for a line put together from words and what separates them, the words. */
module FieldWords {
  import opened Sequences
  import opened FieldSplitting

  // ---------------------------------------------------------------- fields and variables

  /** An IFS space, tab or newline that was not escaped. */
  predicate IsBlank(ifs: string, cell: Cell) {
    !cell.quoted && cell.c in ifs && (cell.c == ' ' || cell.c == '\t' || cell.c == '\n')
  }

  /** `v` is the text from `from` on, without the blanks at the end of the line. */
  ghost predicate IsTrimmedRest(ifs: string, cells: seq<Cell>, from: nat, v: string) {
    exists end :: from < end <= |cells| && v == Chars(cells)[from..end] && !IsBlank(ifs, cells[end - 1])
      && forall p :: end <= p < |cells| ==> IsBlank(ifs, cells[p])
  }

  lemma LeftoverTrimmed(ifs: string, cells: seq<Cell>, ks: seq<Kind>, n: nat, i: nat)
    requires ks == KindsOf(ifs, cells) && i + 1 == n < |Fields(ks)|
    ensures Fields(ks)[i].start <= ValueEnd(ks, n, i) <= |cells|
    ensures IsTrimmedRest(ifs, cells, Fields(ks)[i].start, Chars(cells)[Fields(ks)[i].start..ValueEnd(ks, n, i)])
  {
    var fs, end := Fields(ks), ValueEnd(ks, n, i);
    LastValueEnds(ks, n, i);
    FieldsSplit(ks);
    assert fs[n].start < end;
    SplitOrdered(ks, fs, i, n);
    assert Inside(ks, fs[i]);
    TrimmedMeans(ks, |ks|);
    assert ks[end - 1] == KindOf(ifs, cells[end - 1]);
    forall p | end <= p < |cells| ensures IsBlank(ifs, cells[p]) { assert ks[p] == Space; }
  }

  /** Variable `i` of `n` gets field `i`, or nothing; when fields are left over, the last one gets
      the text from its field on, without the blanks at the end. */
  lemma ValuesAreFields(raw: string, rawMode: bool, ifs: string, n: nat, fs: seq<Field>, i: nat)
    requires i < n && IsSplit(KindsOf(ifs, Unescape(raw, rawMode, 0)), fs)
    ensures var cells, v := Unescape(raw, rawMode, 0), Values(raw, rawMode, ifs, n)[i];
      if i >= |fs| then v == ""
      else if i + 1 == n < |fs| then IsTrimmedRest(ifs, cells, fs[i].start, v)
      else fs[i].start <= fs[i].end <= |cells| && v == Chars(cells)[fs[i].start..fs[i].end]
  {
    var cells := Unescape(raw, rawMode, 0);
    var ks := KindsOf(ifs, cells);
    SplitIsUnique(ks, fs);
    if i < |fs| {
      LastValueEnds(ks, n, i);
      if i + 1 == n < |fs| { LeftoverTrimmed(ifs, cells, ks, n, i); }
    }
  }

  // ---------------------------------------------------------------- a line of words

  /** Characters without backslashes in front. */
  function Bare(s: string): (r: seq<Cell>)
    ensures |r| == |s| && forall k :: 0 <= k < |s| ==> r[k] == Cell(s[k], false)
  {
    seq(|s|, k requires 0 <= k < |s| => Cell(s[k], false))
  }

  /** Words, each followed by what separates it from the next one. */
  function Line(words: seq<seq<Cell>>, gaps: seq<string>): seq<Cell>
    requires |words| == |gaps|
  {
    if words == [] then [] else words[0] + (Bare(gaps[0]) + Line(words[1..], gaps[1..]))
  }

  predicate IsWord(ifs: string, word: seq<Cell>) {
    forall k :: 0 <= k < |word| ==> word[k].quoted || word[k].c !in ifs
  }

  /** IFS characters, at most one of them no space, tab or newline. */
  predicate IsGap(ifs: string, gap: string) {
    && gap != ""
    && (forall k :: 0 <= k < |gap| ==> gap[k] in ifs)
    && (forall j, k :: 0 <= j < k < |gap| ==> gap[j] in " \t\n" || gap[k] in " \t\n")
  }

  predicate HasSeparator(gap: string) {
    exists k :: 0 <= k < |gap| && gap[k] !in " \t\n"
  }

  /** The words can be told apart: only the last gap may be missing, and an empty word stands
      between two separators, or at the beginning before one. */
  predicate WordsApart(ifs: string, words: seq<seq<Cell>>, gaps: seq<string>, separated: bool)
    requires |words| == |gaps|
  {
    words != [] ==>
      && IsWord(ifs, words[0])
      && (IsGap(ifs, gaps[0]) || (gaps[0] == "" && |words| == 1))
      && (words[0] == [] ==> separated && gaps[0] != "" && gaps[0][0] !in " \t\n")
      && WordsApart(ifs, words[1..], gaps[1..], HasSeparator(gaps[0]))
  }

  /** Where the words of a line that begins at `start` lie. */
  function WordFields(words: seq<seq<Cell>>, gaps: seq<string>, start: nat): (r: seq<Field>)
    requires |words| == |gaps|
    ensures |r| == |words|
  {
    if words == [] then []
    else
      var end := start + |words[0]|;
      [Field(start, end)] + WordFields(words[1..], gaps[1..], end + |gaps[0]|)
  }

  // ---------------------------------------------------------------- that is how it is split

  predicate Rest(cells: seq<Cell>, start: nat, rest: seq<Cell>) {
    start <= |cells| && cells[start..] == rest
  }

  lemma RestSplit(cells: seq<Cell>, start: nat, a: seq<Cell>, b: seq<Cell>)
    requires Rest(cells, start, a + b)
    ensures Rest(cells, start + |a|, b)
    ensures forall k :: 0 <= k < |a| ==> cells[start + k] == a[k]
  {
    assert (a + b)[|a|..] == b;
    assert cells[start..][|a|..] == cells[start + |a|..];
    forall k | 0 <= k < |a| ensures cells[start + k] == a[k] { assert cells[start..][k] == (a + b)[k]; }
  }

  lemma GapKinds(ifs: string, cells: seq<Cell>, ks: seq<Kind>, from: nat, gap: string)
    requires ks == KindsOf(ifs, cells) && IsGap(ifs, gap) && from + |gap| <= |cells|
    requires forall k :: 0 <= k < |gap| ==> cells[from + k] == Cell(gap[k], false)
    ensures NoText(ks, from, from + |gap|) && OneSeparator(ks, from, from + |gap|)
    ensures HasSeparator(gap) ==> !NoSeparator(ks, from, from + |gap|)
  {
    forall p | from <= p < from + |gap|
      ensures ks[p] != Text && (ks[p] == Separator <==> gap[p - from] !in " \t\n")
    {
      assert cells[from + (p - from)] == Cell(gap[p - from], false);
    }
    forall p, q | from <= p < q < from + |gap| ensures !(ks[p] == Separator && ks[q] == Separator) {
      assert gap[p - from] in " \t\n" || gap[q - from] in " \t\n";
    }
    if HasSeparator(gap) {
      var k :| 0 <= k < |gap| && gap[k] !in " \t\n";
      assert ks[from + k] == Separator;
    }
  }

  /** What stands where a word begins: text, or the separator after an empty word. */
  lemma WordStarts(ifs: string, cells: seq<Cell>, ks: seq<Kind>, start: nat, words: seq<seq<Cell>>, gaps: seq<string>,
      separated: bool)
    requires |words| == |gaps| && words != [] && WordsApart(ifs, words, gaps, separated)
    requires ks == KindsOf(ifs, cells) && Rest(cells, start, Line(words, gaps))
    ensures start < |ks| && ks[start] != Space && (ks[start] == Separator ==> separated)
  {
    RestSplit(cells, start, words[0], Bare(gaps[0]) + Line(words[1..], gaps[1..]));
    if words[0] != [] {
      assert cells[start + 0] == words[0][0];
    } else {
      RestSplit(cells, start, Bare(gaps[0]), Line(words[1..], gaps[1..]));
      assert cells[start + 0] == Bare(gaps[0])[0];
    }
  }

  lemma WordInside(ifs: string, cells: seq<Cell>, ks: seq<Kind>, start: nat, word: seq<Cell>)
    requires ks == KindsOf(ifs, cells) && IsWord(ifs, word) && start < |ks| && start + |word| <= |ks|
    requires forall k :: 0 <= k < |word| ==> cells[start + k] == word[k]
    ensures Inside(ks, Field(start, start + |word|))
  {
    forall p | start <= p < start + |word| ensures ks[p] == Text {
      assert cells[start + (p - start)] == word[p - start];
    }
  }

  /** A gap is one delimiter. */
  lemma GapDelimits(ifs: string, cells: seq<Cell>, ks: seq<Kind>, from: nat, gap: string, words: seq<seq<Cell>>,
      gaps: seq<string>)
    requires |words| == |gaps| && WordsApart(ifs, words, gaps, HasSeparator(gap)) && IsGap(ifs, gap)
    requires ks == KindsOf(ifs, cells) && Rest(cells, from, Bare(gap) + Line(words, gaps))
    ensures from + |gap| <= |ks| && IsOneDelimiter(ks, from, from + |gap|)
  {
    RestSplit(cells, from, Bare(gap), Line(words, gaps));
    GapKinds(ifs, cells, ks, from, gap);
    if words != [] { WordStarts(ifs, cells, ks, from + |gap|, words, gaps, HasSeparator(gap)); }
  }

  lemma FirstWord(ifs: string, cells: seq<Cell>, ks: seq<Kind>, start: nat, words: seq<seq<Cell>>, gaps: seq<string>,
      separated: bool)
    requires |words| == |gaps| && words != [] && WordsApart(ifs, words, gaps, separated)
    requires ks == KindsOf(ifs, cells) && Rest(cells, start, Line(words, gaps))
    ensures var end, tail := start + |words[0]|, Line(words[1..], gaps[1..]);
      && Inside(ks, Field(start, end))
      && Rest(cells, end, Bare(gaps[0]) + tail) && Rest(cells, end + |gaps[0]|, tail)
  {
    var tail := Line(words[1..], gaps[1..]);
    WordStarts(ifs, cells, ks, start, words, gaps, separated);
    RestSplit(cells, start, words[0], Bare(gaps[0]) + tail);
    RestSplit(cells, start + |words[0]|, Bare(gaps[0]), tail);
    WordInside(ifs, cells, ks, start, words[0]);
  }

  lemma LastField(ks: seq<Kind>, f: Field)
    requires Inside(ks, f) && f.end == |ks|
    ensures IsSplitFrom(ks, [f], f.start)
  {
  }

  lemma {:induction false} LineSplits(ifs: string, cells: seq<Cell>, ks: seq<Kind>, start: nat,
      words: seq<seq<Cell>>, gaps: seq<string>, separated: bool, fs: seq<Field>)
    requires |words| == |gaps| && WordsApart(ifs, words, gaps, separated) && fs == WordFields(words, gaps, start)
    requires ks == KindsOf(ifs, cells) && Rest(cells, start, Line(words, gaps))
    ensures IsSplitFrom(ks, fs, start)
    decreases |words|
  {
    if words != [] {
      var gap, end := gaps[0], start + |words[0]|;
      var next := end + |gap|;
      var rest := WordFields(words[1..], gaps[1..], next);
      FirstWord(ifs, cells, ks, start, words, gaps, separated);
      LineSplits(ifs, cells, ks, next, words[1..], gaps[1..], HasSeparator(gap), rest);
      if gap == "" {
        LastField(ks, Field(start, end));
      } else {
        GapDelimits(ifs, cells, ks, end, gap, words[1..], gaps[1..]);
        ConsSplit(ks, Field(start, end), rest, next);
      }
      assert fs == [Field(start, end)] + rest;
    }
  }

  lemma {:induction false} FieldHolds(cells: seq<Cell>, start: nat, words: seq<seq<Cell>>, gaps: seq<string>, i: nat)
    requires |words| == |gaps| && i < |words| && Rest(cells, start, Line(words, gaps))
    ensures var f := WordFields(words, gaps, start)[i];
      f.start <= f.end <= |cells| && Chars(cells)[f.start..f.end] == Chars(words[i])
    decreases |words|
  {
    var tail := Line(words[1..], gaps[1..]);
    RestSplit(cells, start, words[0], Bare(gaps[0]) + tail);
    RestSplit(cells, start + |words[0]|, Bare(gaps[0]), tail);
    if i == 0 {
      var end := start + |words[0]|;
      forall k | 0 <= k < |words[0]| ensures Chars(cells)[start..end][k] == Chars(words[0])[k] {
        assert cells[start + k] == words[0][k];
      }
      assert Chars(cells)[start..end] == Chars(words[0]);
    } else {
      FieldHolds(cells, start + |words[0]| + |gaps[0]|, words[1..], gaps[1..], i - 1);
    }
  }

  /** The words of a line, after blanks, are its split. */
  lemma LineIsSplit(ifs: string, lead: string, words: seq<seq<Cell>>, gaps: seq<string>)
    requires |words| == |gaps| && WordsApart(ifs, words, gaps, true)
    requires forall k :: 0 <= k < |lead| ==> lead[k] in ifs && lead[k] in " \t\n"
    ensures IsSplit(KindsOf(ifs, Bare(lead) + Line(words, gaps)), WordFields(words, gaps, |lead|))
  {
    var cells := Bare(lead) + Line(words, gaps);
    var ks := KindsOf(ifs, cells);
    assert cells[|lead|..] == Line(words, gaps);
    LineSplits(ifs, cells, ks, |lead|, words, gaps, true, WordFields(words, gaps, |lead|));
    forall p | 0 <= p < |lead| ensures ks[p] == Space { assert cells[p] == Cell(lead[p], false); }
    if words != [] { WordStarts(ifs, cells, ks, |lead|, words, gaps, true); }
  }

  // ---------------------------------------------------------------- the line as it is typed

  /** Escaped characters with a backslash in front. */
  function Spell(cells: seq<Cell>): string {
    if cells == [] then ""
    else (if cells[0].quoted then ['\\', cells[0].c] else [cells[0].c]) + Spell(cells[1..])
  }

  /** A backslash stands for itself only when it is escaped, and an escaped newline is nothing. */
  predicate Spellable(cells: seq<Cell>) {
    forall k :: 0 <= k < |cells| ==> cells[k].c != if cells[k].quoted then '\n' else '\\'
  }

  lemma {:induction false} SpellUnescapes(raw: string, i: nat, cells: seq<Cell>)
    requires i <= |raw| && raw[i..] == Spell(cells) && Spellable(cells)
    ensures Unescape(raw, false, i) == cells
    decreases |cells|
  {
    if cells != [] {
      var spelled := if cells[0].quoted then ['\\', cells[0].c] else [cells[0].c];
      assert raw[i] == raw[i..][0] == spelled[0];
      if cells[0].quoted { assert raw[i + 1] == raw[i..][1]; }
      assert raw[i + |spelled|..] == raw[i..][|spelled|..] == Spell(cells[1..]);
      SpellUnescapes(raw, i + |spelled|, cells[1..]);
      Uncons(cells);
    }
  }

  lemma {:induction false} RawUnescapes(raw: string, i: nat)
    requires i <= |raw|
    ensures Unescape(raw, true, i) == Bare(raw[i..])
    decreases |raw| - i
  {
    if i < |raw| {
      RawUnescapes(raw, i + 1);
      assert Bare(raw[i..]) == [Cell(raw[i], false)] + Bare(raw[i + 1..]);
    }
  }

  /** `raw` is read as blanks, words and gaps that can be told apart. */
  ghost predicate IsLine(raw: string, rawMode: bool, ifs: string, lead: string, words: seq<seq<Cell>>,
      gaps: seq<string>)
    requires |words| == |gaps|
  {
    && Unescape(raw, rawMode, 0) == Bare(lead) + Line(words, gaps)
    && (forall k :: 0 <= k < |lead| ==> lead[k] in ifs && lead[k] in " \t\n")
    && WordsApart(ifs, words, gaps, true)
  }

  /** A typed line with backslashes, and one that is read with `-r`. */
  lemma LinesAreTyped(raw: string, ifs: string, lead: string, words: seq<seq<Cell>>, gaps: seq<string>)
    requires |words| == |gaps| && WordsApart(ifs, words, gaps, true)
    requires forall k :: 0 <= k < |lead| ==> lead[k] in ifs && lead[k] in " \t\n"
    ensures var cells := Bare(lead) + Line(words, gaps);
      && (raw == Spell(cells) && Spellable(cells) ==> IsLine(raw, false, ifs, lead, words, gaps))
      && (Bare(raw) == cells ==> IsLine(raw, true, ifs, lead, words, gaps))
  {
    assert raw[0..] == raw;
    if raw == Spell(Bare(lead) + Line(words, gaps)) && Spellable(Bare(lead) + Line(words, gaps)) {
      SpellUnescapes(raw, 0, Bare(lead) + Line(words, gaps));
    }
    RawUnescapes(raw, 0);
  }

  // ---------------------------------------------------------------- the words come back

  lemma {:induction false} RestOfLine(cells: seq<Cell>, start: nat, words: seq<seq<Cell>>, gaps: seq<string>, i: nat)
    requires |words| == |gaps| && i < |words| && Rest(cells, start, Line(words, gaps))
    ensures Rest(cells, WordFields(words, gaps, start)[i].start, Line(words[i..], gaps[i..]))
    decreases |words|
  {
    if i == 0 {
      assert words[0..] == words && gaps[0..] == gaps;
    } else {
      var tail := Line(words[1..], gaps[1..]);
      RestSplit(cells, start, words[0], Bare(gaps[0]) + tail);
      RestSplit(cells, start + |words[0]|, Bare(gaps[0]), tail);
      RestOfLine(cells, start + |words[0]| + |gaps[0]|, words[1..], gaps[1..], i - 1);
      assert words[1..][i - 1..] == words[i..] && gaps[1..][i - 1..] == gaps[i..];
    }
  }

  lemma TrimmedRestMoves(ifs: string, cells: seq<Cell>, from: nat, rest: seq<Cell>, v: string)
    requires Rest(cells, from, rest) && IsTrimmedRest(ifs, cells, from, v)
    ensures IsTrimmedRest(ifs, rest, 0, v)
  {
    var end :| from < end <= |cells| && v == Chars(cells)[from..end] && !IsBlank(ifs, cells[end - 1])
      && forall p :: end <= p < |cells| ==> IsBlank(ifs, cells[p]);
    assert v == Chars(rest)[0..end - from];
    assert rest[end - from - 1] == cells[end - 1];
    forall p | end - from <= p < |rest| ensures IsBlank(ifs, rest[p]) { assert rest[p] == cells[from + p]; }
  }

  /** The words of a line come back as the variables, in order and without their escapes; what is
      left over goes to the last variable as it is, but for the blanks at the end. */
  lemma WordsComeBack(raw: string, rawMode: bool, ifs: string, lead: string, words: seq<seq<Cell>>,
      gaps: seq<string>, n: nat, i: nat)
    requires |words| == |gaps| && IsLine(raw, rawMode, ifs, lead, words, gaps) && i < n
    ensures var v := Values(raw, rawMode, ifs, n)[i];
      if i >= |words| then v == ""
      else if i + 1 == n < |words| then IsTrimmedRest(ifs, Line(words[i..], gaps[i..]), 0, v)
      else v == Chars(words[i])
  {
    var cells, fs := Bare(lead) + Line(words, gaps), WordFields(words, gaps, |lead|);
    LineIsSplit(ifs, lead, words, gaps);
    ValuesAreFields(raw, rawMode, ifs, n, fs, i);
    assert cells[|lead|..] == Line(words, gaps);
    if i < |words| {
      FieldHolds(cells, |lead|, words, gaps, i);
      RestOfLine(cells, |lead|, words, gaps, i);
      if i + 1 == n < |words| {
        TrimmedRestMoves(ifs, cells, fs[i].start, Line(words[i..], gaps[i..]), Values(raw, rawMode, ifs, n)[i]);
      }
    }
  }
}

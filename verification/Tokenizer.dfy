/** The completion tokenizer: splitting the text before the cursor into the words of the
    active command segment. The loop looks ahead and steps over two characters at a time;
    its specification reads one character at a time. */
module Tokenizer {
  import opened Text
  import opened Sequences

  datatype Mode = Unquoted | Single | Double

  datatype Word = Word(text: string, raw: string, begin: nat, end: nat, quoted: bool, assignment: bool)

  const NO_WORD := Word("", "", 0, 0, false, false)

  predicate IsControlOperator(c: char) {
    c == '|' || c == '&' || c == ';' || c == '\n' || c == '\r'
  }

  predicate IsNameChar(c: char) {
    IsAlnum(c) || c == '_'
  }

  /** `name=...` with a shell variable name. */
  predicate IsAssignment(word: string) {
    var equals := Find(word, '=', 0);
    && equals > 0
    && (IsAlpha(word[0]) || word[0] == '_')
    && forall k :: 1 <= k < equals ==> IsNameChar(word[k])
  }

  method CheckAssignment(word: string) returns (r: bool)
    ensures r == IsAssignment(word)
  {
    var equals := Find(word, '=', 0);
    if equals == NPOS || equals == 0 {
      return false;
    }
    if !IsAlpha(word[0]) && word[0] != '_' {
      return false;
    }
    for index := 1 to equals
      invariant forall k :: 1 <= k < index ==> IsNameChar(word[k])
    {
      if !IsAlnum(word[index]) && word[index] != '_' {
        return false;
      }
    }
    return true;
  }

  // ---------------------------------------------------------------- one character at a time

  /** What is known after reading some characters; `pending` after an unfinished escape. */
  datatype Scan = Scan(mode: Mode, pending: bool, active: bool, word: Word, words: seq<Word>, start: nat)

  const INITIAL := Scan(Unquoted, false, false, NO_WORD, [], 0)

  function Complete(word: Word, end: nat): Word {
    word.(end := end, assignment := IsAssignment(word.text))
  }

  function Closed(s: Scan, end: nat): Scan {
    if s.active then s.(active := false, word := NO_WORD, words := s.words + [Complete(s.word, end)]) else s
  }

  predicate Breaks(s: Scan, c: char) {
    !s.pending && s.mode.Unquoted? && (IsControlOperator(c) || IsSpace(c))
  }

  function Toggled(mode: Mode, to: Mode): Mode {
    if mode == to then Unquoted else to
  }

  /** A character that belongs to the current word. */
  function Extend(s: Scan, i: nat, c: char): Scan {
    var w := if s.active then s.word else NO_WORD.(begin := i);
    var raw := w.(raw := w.raw + [c]);
    var pushed := raw.(text := w.text + [c]);
    if s.pending then s.(pending := false, active := true, word := pushed)
    else if c == '\\' && s.mode != Single then s.(pending := true, active := true, word := raw)
    else if c == '\'' && s.mode != Double
    then s.(mode := Toggled(s.mode, Single), active := true, word := raw.(quoted := true))
    else if c == '"' && s.mode != Single
    then s.(mode := Toggled(s.mode, Double), active := true, word := raw.(quoted := true))
    else s.(active := true, word := pushed)
  }

  function Feed(s: Scan, i: nat, c: char): Scan {
    if !Breaks(s, c) then Extend(s, i, c)
    else if IsControlOperator(c) then INITIAL.(start := i + 1)
    else Closed(s, i)
  }

  /** Reading `cs`, the characters from position `i` on. */
  function Feeds(s: Scan, i: nat, cs: string): Scan {
    Fold(Feed, s, i, cs)
  }

  function Fed(input: string): Scan {
    Feeds(INITIAL, 0, input)
  }

  /** A backslash with nothing after it stands for itself. */
  function Settle(s: Scan): Scan {
    if s.pending then s.(pending := false, word := s.word.(text := s.word.text + "\\")) else s
  }

  /** The words before the cursor in its segment. */
  datatype Segment = Segment(start: nat, words: seq<Word>, atBoundary: bool)

  function Tokens(input: string): Segment {
    var s := Settle(Fed(input));
    Segment(s.start, Closed(s, |input|).words, !s.active)
  }

  // ---------------------------------------------------------------- the loop

  lemma FedNext(input: string, n: nat)
    requires n < |input|
    ensures Fed(input[..n + 1]) == Feed(Fed(input[..n]), n, input[n])
  {
    assert input[..n + 1][..n] == input[..n];
  }

  /** `s` is the scan of the first `n` characters. */
  ghost predicate Scanned(input: string, n: nat, s: Scan) {
    n <= |input| && s == Fed(input[..n])
  }

  lemma ScannedNext(input: string, n: nat, s: Scan)
    requires n < |input| && Scanned(input, n, s)
    ensures Scanned(input, n + 1, Feed(s, n, input[n]))
  {
    FedNext(input, n);
  }

  method FinishWord(words: seq<Word>, word: Word, active: bool, end: nat)
      returns (words': seq<Word>, word': Word, active': bool)
    ensures var s := Closed(Scan(Unquoted, false, active, word, words, 0), end);
      words' == s.words && word' == s.word && active' == s.active
  {
    words', word', active' := words, word, active;
    if !active { return; }
    word' := word'.(end := end);
    var assignment := CheckAssignment(word'.text);
    word' := word'.(assignment := assignment);
    words' := words' + [word'];
    word' := NO_WORD;
    active' := false;
  }

  /** The variables of the loop stand for `scan`; a trailing backslash already counts as text. */
  ghost predicate Stands(scan: Scan, quote: Mode, active: bool, word: Word, words: seq<Word>, start: nat) {
    && quote == scan.mode && active == scan.active && word == Settle(scan).word
    && words == scan.words && start == scan.start
    && (!active ==> word == NO_WORD)
  }

  /** A character of a word, with the one it escapes. */
  method TakeCharacter(input: string, cursor: nat, index: nat, quote: Mode, active: bool, word: Word, ghost scan: Scan)
    returns (next: nat, quote': Mode, word': Word, ghost scan': Scan)
    requires index < cursor <= |input| && Scanned(input, index, scan) && !scan.pending && !Breaks(scan, input[index])
    requires Stands(scan, quote, active, word, scan.words, scan.start)
    ensures index < next <= cursor && Scanned(input, next, scan') && (next < cursor ==> !scan'.pending)
    ensures Stands(scan', quote', true, word', scan.words, scan.start)
  {
    var c := input[index];
    ScannedNext(input, index, scan);
    next, quote', scan' := index + 1, quote, Extend(scan, index, c);
    word' := if active then word else NO_WORD.(begin := index);
    word' := word'.(raw := word'.raw + [c]);
    if c == '\\' && quote != Single {
      if index + 1 < cursor {
        var escaped := input[index + 1];
        ScannedNext(input, index + 1, scan');
        next, scan' := index + 2, Extend(scan', index + 1, escaped);
        word' := word'.(raw := word'.raw + [escaped], text := word'.text + [escaped]);
      } else {
        word' := word'.(text := word'.text + [c]);
      }
    } else if c == '\'' && quote != Double {
      word' := word'.(quoted := true);
      quote' := if quote == Single then Unquoted else Single;
    } else if c == '"' && quote != Single {
      word' := word'.(quoted := true);
      quote' := if quote == Double then Unquoted else Double;
    } else {
      word' := word'.(text := word'.text + [c]);
    }
  }

  /** `tokenize_active_segment`. */
  method TokenizeActiveSegment(input: string, cursor: nat) returns (segment: Segment)
    requires cursor <= |input|
    ensures segment == Tokens(input[..cursor])
  {
    var word := NO_WORD;
    var active := false;
    var quote := Unquoted;
    var words: seq<Word> := [];
    var start := 0;
    var index := 0;
    ghost var scan := INITIAL;
    while index < cursor
      invariant index <= cursor
      invariant Scanned(input, index, scan)
      invariant index < cursor ==> !scan.pending
      invariant Stands(scan, quote, active, word, words, start)
    {
      var c := input[index];
      if quote == Unquoted && IsControlOperator(c) {
        words, word, active := FinishWord(words, word, active, index);
        ScannedNext(input, index, scan);
        scan := Feed(scan, index, c);
        if index + 1 < cursor
            && ((c == '|' && (input[index + 1] == '|' || input[index + 1] == '&'))
                || (c == '&' && input[index + 1] == '&')) {
          index := index + 1;
          ScannedNext(input, index, scan);
          scan := Feed(scan, index, input[index]);
        }
        index := index + 1;
        words := [];
        start := index;
      } else if quote == Unquoted && IsSpace(c) {
        words, word, active := FinishWord(words, word, active, index);
        ScannedNext(input, index, scan);
        scan := Feed(scan, index, c);
        index := index + 1;
      } else {
        index, quote, word, scan := TakeCharacter(input, cursor, index, quote, active, word, scan);
        active := true;
      }
    }
    var atBoundary := !active;
    words, word, active := FinishWord(words, word, active, cursor);
    return Segment(start, words, atBoundary);
  }
}

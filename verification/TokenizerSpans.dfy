/** The tokenizer loses nothing: where its words lie, what each of them is on its own, and
    that the active segment alone gives the same words. */
module TokenizerSpans {
  import opened Text
  import opened Tokenizer

  predicate Blank(input: string, from: nat, to: nat)
    requires from <= to <= |input|
  {
    forall p :: from <= p < to ==> IsSpace(input[p])
  }

  /** `input[from..to]` is whitespace, the first word, whitespace, the second word, and so on:
      the words lie in order and apart, each one's `raw` is its slice, and only whitespace is
      left between them. */
  predicate Covers(input: string, words: seq<Word>, from: nat, to: nat)
    requires to <= |input|
    decreases |words|
  {
    if words == [] then from <= to && Blank(input, from, to)
    else
      var w := words[|words| - 1];
      && w.begin < w.end <= to
      && w.raw == input[w.begin..w.end]
      && Blank(input, w.end, to)
      && Covers(input, words[..|words| - 1], from, w.begin)
  }

  /** Read on its own, `raw` is one word with this text. */
  predicate IsOneWord(word: Word) {
    var s := Fed(word.raw);
    && Settle(s) == Scan(s.mode, false, true, word.(begin := 0, end := 0, assignment := false), [], 0)
    && word.assignment == IsAssignment(word.text)
  }

  /** As `IsOneWord`, and no quote or escape is left open at its end. */
  predicate IsWholeWord(word: Word) {
    IsOneWord(word) && Fed(word.raw).mode == Unquoted && !Fed(word.raw).pending
  }

  predicate AllWhole(words: seq<Word>) {
    forall k :: 0 <= k < |words| ==> IsWholeWord(words[k])
  }

  // ---------------------------------------------------------------- the invariant of a scan

  /** What holds of the scan after `n` characters. */
  predicate Placed(input: string, n: nat, s: Scan)
    requires n <= |input|
  {
    if s.active then
      && s.word.begin < n && s.word.raw == input[s.word.begin..n]
      && Covers(input, s.words, s.start, s.word.begin)
    else s.word == NO_WORD && !s.pending && s.mode == Unquoted && Covers(input, s.words, s.start, n)
  }

  lemma {:induction false} CoversMore(input: string, words: seq<Word>, from: nat, to: nat)
    requires to < |input| && IsSpace(input[to]) && Covers(input, words, from, to)
    ensures Covers(input, words, from, to + 1)
  {
  }

  lemma CoversWord(input: string, words: seq<Word>, from: nat, word: Word, to: nat)
    requires to <= |input| && word.begin < to && word.end == to && word.raw == input[word.begin..to]
    requires Covers(input, words, from, word.begin)
    ensures Covers(input, words + [word], from, to)
  {
    assert (words + [word])[..|words|] == words;
  }

  lemma FeedPlaced(input: string, n: nat, s: Scan)
    requires n < |input| && Placed(input, n, s)
    ensures Placed(input, n + 1, Feed(s, n, input[n]))
  {
    var c := input[n];
    if !Breaks(s, c) {
      if s.active { assert input[s.word.begin..n + 1] == s.word.raw + [c]; }
    } else if !IsControlOperator(c) {
      if s.active { CoversWord(input, s.words, s.start, Complete(s.word, n), n); }
      CoversMore(input, Closed(s, n).words, s.start, n);
    }
  }

  lemma {:induction false} FedPlaced(input: string, n: nat)
    requires n <= |input|
    ensures Placed(input, n, Fed(input[..n]))
  {
    if n > 0 {
      FedPlaced(input, n - 1);
      FedNext(input, n - 1);
      FeedPlaced(input, n - 1, Fed(input[..n - 1]));
    }
  }

  /** The words lie in order inside the segment and between them is only whitespace. */
  lemma {:induction false} Lossless(input: string)
    ensures Covers(input, Tokens(input).words, Tokens(input).start, |input|)
  {
    assert input[..|input|] == input;
    FedPlaced(input, |input|);
    var s := Settle(Fed(input));
    if s.active { CoversWord(input, s.words, s.start, Complete(s.word, |input|), |input|); }
  }

  /** The same, position by position. */
  lemma {:induction false} CoversOrders(input: string, words: seq<Word>, from: nat, to: nat)
    requires to <= |input| && Covers(input, words, from, to)
    ensures from <= to
    ensures forall k :: 0 <= k < |words| ==>
        from <= words[k].begin < words[k].end <= to && words[k].raw == input[words[k].begin..words[k].end]
    ensures forall j, k :: 0 <= j < k < |words| ==> words[j].end <= words[k].begin
    ensures forall p :: from <= p < to && !IsSpace(input[p]) ==>
        exists k :: 0 <= k < |words| && words[k].begin <= p < words[k].end
    decreases |words|
  {
    if words != [] {
      var n := |words| - 1;
      var init := words[..n];
      CoversOrders(input, init, from, words[n].begin);
      forall p | from <= p < to && !IsSpace(input[p])
          ensures exists k :: 0 <= k < |words| && words[k].begin <= p < words[k].end {
        if p < words[n].begin {
          var k :| 0 <= k < |init| && init[k].begin <= p < init[k].end;
          assert words[k] == init[k];
        } else {
          assert words[n].begin <= p < words[n].end;
        }
      }
    }
  }

  // ---------------------------------------------------------------- each word alone

  /** The current word, read alone, leads to the same quoting state and text. */
  predicate Standing(s: Scan) {
    && (s.active ==>
        Fed(s.word.raw) == Scan(s.mode, s.pending, true, s.word.(begin := 0), [], 0) && s.word.end == 0
            && !s.word.assignment)
    && (!s.active ==> s.word == NO_WORD && !s.pending && s.mode == Unquoted)
    && AllWhole(s.words)
  }

  lemma FedSnoc(raw: string, c: char)
    ensures Fed(raw + [c]) == Feed(Fed(raw), |raw|, c)
  {
    assert (raw + [c])[..|raw|] == raw;
  }

  /** Extending does the same to the word alone. */
  lemma ExtendAlone(s: Scan, i: nat, c: char)
    requires s.active && s.word.end == 0 && !s.word.assignment
    ensures var alone := Scan(s.mode, s.pending, true, s.word.(begin := 0), [], 0); var after := Extend(s, i, c);
      && after.active && after.word.raw == s.word.raw + [c] && after.word.end == 0 && !after.word.assignment
      && after.words == s.words
      && Extend(alone, |s.word.raw|, c) == Scan(after.mode, after.pending, true, after.word.(begin := 0), [], 0)
  {
  }

  lemma ExtendFirst(s: Scan, i: nat, c: char)
    requires !s.active && !s.pending && s.mode == Unquoted
    ensures var after := Extend(s, i, c);
      && after.active && after.word.raw == "" + [c] && after.word.end == 0 && !after.word.assignment
      && after.words == s.words
      && Extend(INITIAL, 0, c) == Scan(after.mode, after.pending, true, after.word.(begin := 0), [], 0)
  {
  }

  lemma ExtendStanding(s: Scan, i: nat, c: char)
    requires Standing(s) && !Breaks(s, c)
    ensures Standing(Extend(s, i, c))
  {
    if s.active {
      FedSnoc(s.word.raw, c);
      ExtendAlone(s, i, c);
    } else {
      FedSnoc("", c);
      ExtendFirst(s, i, c);
    }
  }

  lemma FeedStanding(s: Scan, i: nat, c: char)
    requires Standing(s)
    ensures Standing(Feed(s, i, c))
  {
    if Breaks(s, c) {
      if s.active { assert IsWholeWord(Complete(s.word, i)); }
    } else {
      ExtendStanding(s, i, c);
    }
  }

  lemma {:induction false} FedStanding(input: string)
    ensures Standing(Fed(input))
  {
    if input != "" {
      FedStanding(input[..|input| - 1]);
      FeedStanding(Fed(input[..|input| - 1]), |input| - 1, input[|input| - 1]);
    }
  }

  /** Every word read alone is that one word: no operator or whitespace in it stands outside
      quotes. All words but the one under the cursor have their quotes and escapes closed, so
      the whitespace between words is unquoted. */
  lemma {:induction false} WordsStandAlone(input: string)
    ensures forall k :: 0 <= k < |Tokens(input).words| ==> IsOneWord(Tokens(input).words[k])
    ensures var t := Tokens(input);
      forall k :: 0 <= k < |t.words| && (t.atBoundary || k < |t.words| - 1) ==> IsWholeWord(t.words[k])
    ensures !Tokens(input).atBoundary ==> Tokens(input).words != []
  {
    FedStanding(input);
    var s := Fed(input);
    if s.active { assert IsOneWord(Complete(Settle(s).word, |input|)); }
  }

  // ---------------------------------------------------------------- restarting

  function Later(word: Word, d: nat): Word {
    word.(begin := word.begin + d, end := word.end + d)
  }

  function AllLater(words: seq<Word>, d: nat): (r: seq<Word>)
    ensures |r| == |words|
    ensures forall k :: 0 <= k < |words| ==> r[k] == Later(words[k], d)
  {
    seq(|words|, k requires 0 <= k < |words| => Later(words[k], d))
  }

  function LaterScan(s: Scan, d: nat): Scan {
    s.(word := if s.active then s.word.(begin := s.word.begin + d) else s.word, words := AllLater(s.words, d),
        start := s.start + d)
  }

  lemma FeedLater(s: Scan, d: nat, i: nat, c: char)
    ensures Feed(LaterScan(s, d), i + d, c) == LaterScan(Feed(s, i, c), d)
  {
    if Breaks(s, c) && !IsControlOperator(c) && s.active {
      assert AllLater(s.words + [Complete(s.word, i)], d) == AllLater(s.words, d) + [Later(Complete(s.word, i), d)];
    }
  }

  lemma SliceOfSlice(input: string, a: nat, n: nat)
    requires a <= n <= |input|
    ensures input[a..][..n - a] == input[..n][a..]
  {
  }

  /** The scan of the whole input is the scan of its active segment, moved. */
  lemma {:induction false} FedRestarts(input: string)
    ensures Fed(input).start <= |input|
    ensures Fed(input) == LaterScan(Fed(input[Fed(input).start..]), Fed(input).start)
  {
    if input != "" {
      var n := |input| - 1;
      var init := input[..n];
      FedRestarts(init);
      var a := Fed(init).start;
      if Breaks(Fed(init), input[n]) && IsControlOperator(input[n]) {
        assert input[n + 1..] == "";
      } else {
        FeedLater(Fed(init[a..]), a, n - a, input[n]);
        SliceOfSlice(input, a, n);
      }
    }
  }

  /** Tokenizing the active segment alone gives segment start 0, the same boundary flag and
      the same words, moved. */
  lemma {:induction false} Restartable(input: string)
    ensures var t := Tokens(input);
      t.start <= |input| && var again := Tokens(input[t.start..]);
      again.start == 0 && again.atBoundary == t.atBoundary && t.words == AllLater(again.words, t.start)
  {
    FedRestarts(input);
    var d := Fed(input).start;
    var s := Settle(Fed(input[d..]));
    if s.active {
      assert AllLater(s.words + [Complete(s.word, |input| - d)], d)
          == AllLater(s.words, d) + [Later(Complete(s.word, |input| - d), d)];
    }
  }

  lemma {:induction false} FedFollowsOperator(input: string, n: nat)
    requires n <= |input|
    ensures var a := Fed(input[..n]).start;
      a == 0 || (a <= n && IsControlOperator(input[a - 1]) && Breaks(Fed(input[..a - 1]), input[a - 1]))
  {
    if n > 0 {
      FedFollowsOperator(input, n - 1);
      FedNext(input, n - 1);
    }
  }

  /** A segment starts at the beginning or right after an operator outside quotes. */
  lemma {:induction false} SegmentFollowsOperator(input: string)
    ensures var a := Tokens(input).start;
      a == 0 || (a <= |input| && IsControlOperator(input[a - 1]) && Breaks(Fed(input[..a - 1]), input[a - 1]))
  {
    FedFollowsOperator(input, |input|);
    assert input[..|input|] == input;
  }
}

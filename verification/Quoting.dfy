/** The two quoters of the shell, and that the tokenizer undoes them. */
module Quoting {
  import opened Text
  import opened Sequences
  import opened Tokenizer

  predicate IsSafe(c: char) {
    IsAlnum(c) || c == '_' || c == '-' || c == '/' || c == '.' || c == ','
  }

  predicate AllSafe(s: string) {
    forall k :: 0 <= k < |s| ==> IsSafe(s[k])
  }

  const ESCAPED_QUOTE := "'\\''"

  function BodyPart(c: char): string {
    if c == '\'' then ESCAPED_QUOTE else [c]
  }

  /** The inside of a single-quoted string; a quote is written outside the quotes. */
  function Body(s: string): string {
    if s == "" then "" else Body(s[..|s| - 1]) + BodyPart(s[|s| - 1])
  }

  function SingleQuoted(s: string): string {
    "'" + Body(s) + "'"
  }

  function Escaped(s: string): string {
    if AllSafe(s) && s != "" then s else SingleQuoted(s)
  }

  // ---------------------------------------------------------------- what is written

  /** The parts, with an escaped quote outside of the quotes between each two. */
  function Parted(parts: seq<string>): string {
    if parts == [] then ""
    else if |parts| == 1 then parts[0]
    else parts[0] + "'\\''" + Parted(parts[1..])
  }

  /** The parts of a string, with its quotes between. */
  function Whole(parts: seq<string>): string {
    if parts == [] then ""
    else if |parts| == 1 then parts[0]
    else parts[0] + "'" + Whole(parts[1..])
  }

  lemma {:induction false} BodyAppend(a: string, b: string)
    ensures Body(a + b) == Body(a) + Body(b)
  {
    if b == "" {
      NoneBefore(a);
      NoneBefore(Body(a));
    } else {
      var n := |b| - 1;
      BodyAppend(a, b[..n]);
      assert (a + b)[..|a| + n] == a + b[..n];
      Assoc(Body(a), Body(b[..n]), BodyPart(b[n]));
    }
  }

  lemma {:induction false} BodyOfPart(part: string)
    requires '\'' !in part
    ensures Body(part) == part
  {
    if part != "" {
      var n := |part| - 1;
      BodyOfPart(part[..n]);
      assert part == part[..n] + [part[n]];
    }
  }

  lemma BodyOfQuote()
    ensures Body("'") == "'\\''"
  {
    assert "'"[..0] == "" && Body("") == "";
    NoneBefore(BodyPart('\''));
  }

  lemma {:induction false} BodyOfWhole(parts: seq<string>)
    requires forall k :: 0 <= k < |parts| ==> '\'' !in parts[k]
    ensures Body(Whole(parts)) == Parted(parts)
  {
    if |parts| == 1 {
      BodyOfPart(parts[0]);
    } else if |parts| > 1 {
      BodyOfPart(parts[0]);
      BodyOfQuote();
      BodyOfWhole(parts[1..]);
      BodyAppend(parts[0] + "'", Whole(parts[1..]));
      BodyAppend(parts[0], "'");
    }
  }

  /** A string stands between single quotes, each of its own quotes written as a backslash and the
      quote, outside of them; `shell_escape` leaves it alone if it is not empty and holds only
      letters, digits and `_-/.,`. */
  lemma QuotedParts(parts: seq<string>)
    requires forall k :: 0 <= k < |parts| ==> '\'' !in parts[k]
    ensures var s := Whole(parts);
      && SingleQuoted(s) == "'" + Parted(parts) + "'"
      && Escaped(s) == if s != "" && forall k :: 0 <= k < |s| ==>
                            'a' <= s[k] <= 'z' || 'A' <= s[k] <= 'Z' || '0' <= s[k] <= '9' || s[k] in "_-/.,"
                       then s else "'" + Parted(parts) + "'"
  {
    BodyOfWhole(parts);
    forall c: char ensures c in "_-/.," <==> c == '_' || c == '-' || c == '/' || c == '.' || c == ',' {
      assert "_-/.,"[0] == '_' && "_-/.,"[1] == '-' && "_-/.,"[2] == '/' && "_-/.,"[3] == '.' && "_-/.,"[4] == ',';
    }
  }

  // ---------------------------------------------------------------- the quoters

  lemma BodyNext(s: string, k: nat)
    requires k < |s|
    ensures Body(s[..k + 1]) == Body(s[..k]) + BodyPart(s[k])
  {
    assert s[..k + 1][..k] == s[..k];
  }

  method ShellEscape(s: string) returns (r: string)
    ensures r == Escaped(s)
  {
    var needsQuotes := false;
    for k := 0 to |s|
      invariant !needsQuotes
      invariant forall j :: 0 <= j < k ==> IsSafe(s[j])
    {
      var c := s[k];
      if !IsAlnum(c) && c != '_' && c != '-' && c != '/' && c != '.' && c != ',' {
        needsQuotes := true;
        break;
      }
    }
    if !needsQuotes && s != "" {
      return s;
    }
    r := "'";
    for k := 0 to |s|
      invariant r == "'" + Body(s[..k])
    {
      BodyNext(s, k);
      Assoc("'", Body(s[..k]), BodyPart(s[k]));
      r := r + if s[k] == '\'' then "'\\''" else [s[k]];
    }
    assert s[..|s|] == s;
    r := r + "'";
  }

  method SingleQuoteValue(value: string) returns (quoted: string)
    ensures quoted == SingleQuoted(value)
  {
    quoted := ['\''];
    for k := 0 to |value|
      invariant quoted == "'" + Body(value[..k])
    {
      BodyNext(value, k);
      Assoc("'", Body(value[..k]), BodyPart(value[k]));
      if value[k] == '\'' {
        quoted := quoted + "'\\''";
      } else {
        quoted := quoted + [value[k]];
      }
    }
    assert value[..|value|] == value;
    quoted := quoted + ['\''];
  }

  // ---------------------------------------------------------------- reading them back

  lemma FeedsSnoc(s: Scan, i: nat, a: string, c: char)
    ensures Feeds(s, i, a + [c]) == Feed(Feeds(s, i, a), i + |a|, c)
  {
    assert (a + [c])[..|a|] == a;
  }

  lemma Unsnoc(b: string)
    requires b != ""
    ensures b == b[..|b| - 1] + [b[|b| - 1]]
  {
  }

  lemma FeedsAppend(s: Scan, i: nat, a: string, b: string)
    ensures Feeds(s, i, a + b) == Feeds(Feeds(s, i, a), i + |a|, b)
  {
    FoldAppend(Feed, s, i, a, b);
  }

  lemma FeedsTwo(s: Scan, i: nat, a: string, b: string, s1: Scan, s2: Scan)
    requires Feeds(s, i, a) == s1 && Feeds(s1, i + |a|, b) == s2
    ensures Feeds(s, i, a + b) == s2
  {
    FeedsAppend(s, i, a, b);
  }

  lemma FeedsOne(s: Scan, i: nat, c: char)
    ensures Feeds(s, i, [c]) == Feed(s, i, c)
  {
    assert [c][..0] == "";
    assert Feeds(s, i, [c][..0]) == s;
  }

  /** `s` while the word `word` is being read in quoting mode `mode`. */
  function Reading(s: Scan, word: Word, mode: Mode): Scan {
    s.(mode := mode, pending := false, active := true, word := word)
  }

  predicate Idle(s: Scan) {
    s.mode == Unquoted && !s.pending && !s.active && s.word == NO_WORD
  }

  /** An escaped quote in the middle of a single-quoted string. */
  lemma FeedsEscapedQuote(s: Scan, w: Word, j: nat)
    requires w.quoted
    ensures Feeds(Reading(s, w, Single), j, ESCAPED_QUOTE)
         == Reading(s, w.(text := w.text + "'", raw := w.raw + ESCAPED_QUOTE), Single)
  {
    var s0 := Reading(s, w, Single);
    FeedsOne(s0, j, '\'');
    FeedsSnoc(s0, j, "'", '\\');
    FeedsSnoc(s0, j, "'\\", '\'');
    FeedsSnoc(s0, j, "'\\'", '\'');
    assert "'" + ['\\'] == "'\\" && "'\\" + ['\''] == "'\\'" && "'\\'" + ['\''] == ESCAPED_QUOTE;
    assert w.raw + ESCAPED_QUOTE == w.raw + ['\''] + ['\\'] + ['\''] + ['\''];
  }

  lemma FeedsBodyPart(s: Scan, w: Word, j: nat, c: char)
    requires w.quoted
    ensures Feeds(Reading(s, w, Single), j, BodyPart(c))
         == Reading(s, w.(text := w.text + [c], raw := w.raw + BodyPart(c)), Single)
  {
    if c == '\'' { FeedsEscapedQuote(s, w, j); } else { FeedsOne(Reading(s, w, Single), j, c); }
  }

  lemma {:induction false} FeedsBody(s: Scan, w: Word, j: nat, x: string)
    requires w.quoted
    ensures Feeds(Reading(s, w, Single), j, Body(x))
         == Reading(s, w.(text := w.text + x, raw := w.raw + Body(x)), Single)
    decreases |x|
  {
    if x == "" {
      NoneBefore(w.text);
      NoneBefore(w.raw);
    } else {
      var y, c := x[..|x| - 1], x[|x| - 1];
      var w1 := w.(text := w.text + y, raw := w.raw + Body(y));
      var w2 := w1.(text := w1.text + [c], raw := w1.raw + BodyPart(c));
      assert w2 == w.(text := w.text + x, raw := w.raw + Body(x)) by {
        Assoc(w.raw, Body(y), BodyPart(c));
        Assoc(w.text, y, [c]);
        Unsnoc(x);
      }
      FeedsBody(s, w, j, y);
      FeedsBodyPart(s, w1, j + |Body(y)|, c);
      FeedsTwo(Reading(s, w, Single), j, Body(y), BodyPart(c), Reading(s, w1, Single), Reading(s, w2, Single));
    }
  }

  /** From between two words, `quoted` is read as one word with text `x`. */
  ghost predicate Quotes(quoted: string, x: string) {
    exists flag :: QuotesAs(quoted, x, flag)
  }

  ghost predicate QuotesAs(quoted: string, x: string, flag: bool) {
    forall s: Scan, i: nat {:trigger Feeds(s, i, quoted)} :: Idle(s) ==>
      Feeds(s, i, quoted) == Reading(s, Word(x, quoted, i, 0, flag, false), Unquoted)
  }

  lemma FeedsOpenQuote(s: Scan, i: nat)
    requires Idle(s)
    ensures Feeds(s, i, "'") == Reading(s, Word("", "'", i, 0, true, false), Single)
  {
    FeedsOne(s, i, '\'');
    assert "" + ['\''] == "'";
  }

  lemma FeedsSingleQuoted(s: Scan, i: nat, x: string)
    requires Idle(s)
    ensures Feeds(s, i, SingleQuoted(x)) == Reading(s, Word(x, SingleQuoted(x), i, 0, true, false), Unquoted)
  {
    var w := Word("", "'", i, 0, true, false);
    FeedsOpenQuote(s, i);
    FeedsAppend(s, i, "'", Body(x));
    FeedsBody(s, w, i + 1, x);
    NoneBefore(x);
    FeedsSnoc(s, i, "'" + Body(x), '\'');
  }

  lemma SingleQuotedQuotes(x: string)
    ensures Quotes(SingleQuoted(x), x)
  {
    forall s: Scan, i: nat | Idle(s)
        ensures Feeds(s, i, SingleQuoted(x)) == Reading(s, Word(x, SingleQuoted(x), i, 0, true, false), Unquoted) {
      FeedsSingleQuoted(s, i, x);
    }
    assert QuotesAs(SingleQuoted(x), x, true);
  }

  lemma FeedSafeFirst(s: Scan, i: nat, c: char)
    requires Idle(s) && IsSafe(c)
    ensures Feed(s, i, c) == Reading(s, Word([c], [c], i, 0, false, false), Unquoted)
  {
    NoneBefore([c]);
  }

  lemma FeedSafeNext(s: Scan, w: Word, j: nat, c: char)
    requires IsSafe(c)
    ensures Feed(Reading(s, w, Unquoted), j, c) == Reading(s, w.(text := w.text + [c], raw := w.raw + [c]), Unquoted)
  {
  }

  lemma {:induction false} FeedsSafe(s: Scan, i: nat, x: string)
    requires Idle(s) && AllSafe(x) && x != ""
    ensures Feeds(s, i, x) == Reading(s, Word(x, x, i, 0, false, false), Unquoted)
    decreases |x|
  {
    var y, c := x[..|x| - 1], x[|x| - 1];
    Unsnoc(x);
    if y == "" {
      NoneBefore([c]);
      FeedsOne(s, i, c);
      FeedSafeFirst(s, i, c);
    } else {
      FeedsSafe(s, i, y);
      FeedsSnoc(s, i, y, c);
      FeedSafeNext(s, Word(y, y, i, 0, false, false), i + |y|, c);
    }
  }

  lemma EscapedQuotes(x: string)
    ensures Quotes(Escaped(x), x)
  {
    if AllSafe(x) && x != "" {
      forall s: Scan, i: nat | Idle(s) ensures Feeds(s, i, x) == Reading(s, Word(x, x, i, 0, false, false), Unquoted) {
        FeedsSafe(s, i, x);
      }
      assert QuotesAs(x, x, false);
    } else {
      SingleQuotedQuotes(x);
    }
  }

  // ---------------------------------------------------------------- lists

  function Joined(qs: seq<string>): string {
    if qs == [] then ""
    else if |qs| == 1 then qs[0]
    else Joined(qs[..|qs| - 1]) + " " + qs[|qs| - 1]
  }

  function Texts(words: seq<Word>): (r: seq<string>)
    ensures |r| == |words|
    ensures forall k :: 0 <= k < |words| ==> r[k] == words[k].text
  {
    seq(|words|, k requires 0 <= k < |words| => words[k].text)
  }

  function Raws(words: seq<Word>): (r: seq<string>)
    ensures |r| == |words|
    ensures forall k :: 0 <= k < |words| ==> r[k] == words[k].raw
  {
    seq(|words|, k requires 0 <= k < |words| => words[k].raw)
  }

  ghost predicate AllQuote(qs: seq<string>, xs: seq<string>) {
    |qs| == |xs| && forall k :: 0 <= k < |qs| ==> Quotes(qs[k], xs[k])
  }

  /** A scan that has read words with these texts, the last one still current. */
  predicate HasRead(s: Scan, qs: seq<string>, xs: seq<string>) {
    var ws := s.words + [s.word];
    s.mode == Unquoted && !s.pending && s.active && s.start == 0 && Texts(ws) == xs && Raws(ws) == qs
  }

  lemma {:induction false} FedJoined(qs: seq<string>, xs: seq<string>)
    requires AllQuote(qs, xs) && qs != []
    ensures HasRead(Fed(Joined(qs)), qs, xs)
    decreases |qs|
  {
    var n := |qs| - 1;
    var flag :| QuotesAs(qs[n], xs[n], flag);
    if n == 0 {
      assert Idle(INITIAL);
    } else {
      var front := Joined(qs[..n]);
      FedJoined(qs[..n], xs[..n]);
      var s := Fed(front);
      FeedsAppend(INITIAL, 0, front, " ");
      FeedsOne(s, |front|, ' ');
      var s' := Feed(s, |front|, ' ');
      assert s' == Closed(s, |front|) && Idle(s');
      FeedsAppend(INITIAL, 0, front + " ", qs[n]);
      ReadOneMore(s, Fed(Joined(qs)), |front|, qs, xs);
    }
  }

  lemma ReadOneMore(s: Scan, after: Scan, end: nat, qs: seq<string>, xs: seq<string>)
    requires qs != [] && |qs| == |xs|
    requires HasRead(s, qs[..|qs| - 1], xs[..|xs| - 1])
    requires after.mode == Unquoted && !after.pending && after.active && after.start == 0
    requires after.words == Closed(s, end).words && after.word.text == xs[|xs| - 1] && after.word.raw == qs[|qs| - 1]
    ensures HasRead(after, qs, xs)
  {
    var ws, n := after.words + [after.word], |qs| - 1;
    forall k | 0 <= k < |qs| ensures Texts(ws)[k] == xs[k] && Raws(ws)[k] == qs[k] {
      if k < n {
        assert Texts(s.words + [s.word])[k] == xs[..n][k] && Raws(s.words + [s.word])[k] == qs[..n][k];
      }
    }
  }

  /** Words quoted one by one and joined by spaces are read back as exactly those words. */
  lemma QuotingUndone(qs: seq<string>, xs: seq<string>)
    requires AllQuote(qs, xs)
    ensures var t := Tokens(Joined(qs));
      Texts(t.words) == xs && Raws(t.words) == qs && t.start == 0 && (t.atBoundary <==> xs == [])
  {
    if qs != [] {
      FedJoined(qs, xs);
      var s := Fed(Joined(qs));
      var open, closed := s.words + [s.word], Tokens(Joined(qs)).words;
      assert forall k :: 0 <= k < |open| ==> closed[k].text == open[k].text && closed[k].raw == open[k].raw;
    }
  }

  function AllEscaped(xs: seq<string>): (r: seq<string>)
    ensures |r| == |xs|
    ensures forall k :: 0 <= k < |xs| ==> r[k] == Escaped(xs[k])
  {
    seq(|xs|, k requires 0 <= k < |xs| => Escaped(xs[k]))
  }

  function AllSingleQuoted(xs: seq<string>): (r: seq<string>)
    ensures |r| == |xs|
    ensures forall k :: 0 <= k < |xs| ==> r[k] == SingleQuoted(xs[k])
  {
    seq(|xs|, k requires 0 <= k < |xs| => SingleQuoted(xs[k]))
  }

  /** Any list of strings survives `shell_escape` and the tokenizer. */
  lemma ShellEscapeRoundTrip(xs: seq<string>)
    ensures var t := Tokens(Joined(AllEscaped(xs)));
      Texts(t.words) == xs && t.start == 0 && (t.atBoundary <==> xs == [])
  {
    forall k | 0 <= k < |xs| ensures Quotes(AllEscaped(xs)[k], xs[k]) { EscapedQuotes(xs[k]); }
    QuotingUndone(AllEscaped(xs), xs);
  }

  /** Any list of strings survives `single_quote_value` and the tokenizer. */
  lemma SingleQuoteRoundTrip(xs: seq<string>)
    ensures var t := Tokens(Joined(AllSingleQuoted(xs)));
      Texts(t.words) == xs && t.start == 0 && (t.atBoundary <==> xs == [])
  {
    forall k | 0 <= k < |xs| ensures Quotes(AllSingleQuoted(xs)[k], xs[k]) { SingleQuotedQuotes(xs[k]); }
    QuotingUndone(AllSingleQuoted(xs), xs);
  }

  /** Quoting is injective, even for whole lists. */
  lemma EscapedListInjective(xs: seq<string>, ys: seq<string>)
    requires Joined(AllEscaped(xs)) == Joined(AllEscaped(ys))
    ensures xs == ys
  {
    ShellEscapeRoundTrip(xs);
    ShellEscapeRoundTrip(ys);
  }
}

/** `getopts` on argument lists as they are typed: what is reported for each option, spelled
    out, without the meaning of a letter or the parse of the list. */
module GetoptsLines {
  import opened Optional
  import opened Text
  import opened Sequences
  import opened Getopts

  // ---------------------------------------------------------------- letters and their meaning

  /** The first place of a letter in the option string. */
  predicate FirstAt(optstring: string, c: char, p: nat) {
    p < |optstring| && optstring[p] == c && c !in optstring[..p]
  }

  /** The letter is followed by a colon. */
  ghost predicate WantsArgument(optstring: string, c: char) {
    exists p: nat :: FirstAt(optstring, c, p) && p + 1 < |optstring| && optstring[p + 1] == ':'
  }

  lemma FoundFirst(optstring: string, c: char, p: nat)
    requires FirstAt(optstring, c, p)
    ensures Find(optstring, c, 0) == p
  {
    forall i | 0 <= i < p ensures optstring[i] != c { assert optstring[i] == optstring[..p][i]; }
    FindAt(optstring, c, 0, p);
  }

  lemma HasFirst(optstring: string, c: char)
    ensures Find(optstring, c, 0) == NPOS <==> c !in optstring
    ensures c in optstring ==> FirstAt(optstring, c, Find(optstring, c, 0))
  {
    FindFinds(optstring, c, 0);
    assert optstring[0..] == optstring;
    if c in optstring {
      FindIs(optstring, c, 0);
      NoneBeforeFound(optstring, c, 0);
    }
  }

  lemma {:induction false} NoneBeforeFound(s: string, c: char, from: nat)
    requires Find(s, c, from) != NPOS
    ensures forall i :: from <= i < Find(s, c, from) ==> s[i] != c
    decreases |s| - from
  {
    if from < |s| && s[from] != c { NoneBeforeFound(s, c, from + 1); }
  }

  /** A letter is unknown when the option string does not hold it; it takes an argument when a
      colon follows its first place there. */
  lemma LetterMeans(optstring: string, c: char)
    ensures MeaningOf(optstring, c).Unknown? <==> c !in optstring
    ensures MeaningOf(optstring, c).TakesArgument? <==> WantsArgument(optstring, c)
  {
    HasFirst(optstring, c);
    forall p: nat | FirstAt(optstring, c, p) ensures Find(optstring, c, 0) == p { FoundFirst(optstring, c, p); }
  }

  // ---------------------------------------------------------------- a written option string

  /** An option as it is declared. */
  datatype Declared = Declared(letter: char, argument: bool)

  /** `ab:c` for the options a, b with an argument, and c. */
  function Spelled(options: seq<Declared>): string {
    if options == [] then ""
    else [options[0].letter] + (if options[0].argument then ":" else "") + Spelled(options[1..])
  }

  /** Letters other than the colon, none of them twice. */
  predicate Plain(options: seq<Declared>) {
    && (forall k :: 0 <= k < |options| ==> options[k].letter != ':')
    && (forall j, k :: 0 <= j < k < |options| ==> options[j].letter != options[k].letter)
  }

  lemma {:induction false} SpelledHas(options: seq<Declared>, c: char)
    requires c != ':'
    ensures c in Spelled(options) <==> exists k :: 0 <= k < |options| && options[k].letter == c
  {
    if options != [] {
      SpelledHas(options[1..], c);
      if c == options[0].letter {
        assert Spelled(options)[0] == c;
      } else if k :| 0 <= k < |options| && options[k].letter == c {
        assert options[1..][k - 1] == options[k];
      }
    }
  }

  lemma {:induction false} SpelledFirst(before: string, options: seq<Declared>, k: nat) returns (p: nat)
    requires Plain(options) && k < |options| && options[k].letter !in before
    ensures FirstAt(before + Spelled(options), options[k].letter, p)
    ensures var s := before + Spelled(options); p + 1 < |s| && s[p + 1] == ':' <==> options[k].argument
    decreases |options|
  {
    var s, c := before + Spelled(options), options[k].letter;
    var own := [options[0].letter] + if options[0].argument then ":" else "";
    if k == 0 {
      p := |before|;
      assert s[..p] == before;
      assert s == before + (own + Spelled(options[1..]));
      assert s[p] == own[0];
      if options[0].argument {
        assert s[p + 1] == own[1];
      } else if p + 1 < |s| {
        assert s[p + 1] == Spelled(options[1..])[0] == options[1].letter;
      }
    } else {
      assert options[1..][k - 1] == options[k];
      p := SpelledFirst(before + own, options[1..], k - 1);
      assert s == (before + own) + Spelled(options[1..]);
    }
  }

  /** The option string says what was declared, also behind the colon that silences errors. */
  lemma DeclaredMeans(silent: bool, options: seq<Declared>, c: char)
    requires Plain(options) && c != ':'
    ensures var s := (if silent then ":" else "") + Spelled(options);
      && (c in s <==> Declared(c, false) in options || Declared(c, true) in options)
      && (WantsArgument(s, c) <==> Declared(c, true) in options)
      && (s != "" && s[0] == ':' <==> silent)
  {
    var before := if silent then ":" else "";
    var s := before + Spelled(options);
    SpelledHas(options, c);
    if k :| 0 <= k < |options| && options[k].letter == c {
      assert options[k] == Declared(c, options[k].argument);
      if j :| 0 <= j < |options| && options[j] == Declared(c, true) { assert j == k; }
      var p := SpelledFirst(before, options, k);
      forall q: nat | FirstAt(s, c, q) ensures q == p {
        FoundFirst(s, c, q);
        FoundFirst(s, c, p);
      }
    }
  }

  // ---------------------------------------------------------------- typed lists

  /** Options as they are typed: letters in one argument, of which the last may take an argument,
      right behind it or as the next word. */
  datatype Typed =
    | Together(letters: string)
    | Attached(letters: string, last: char, argument: string)
    | Apart(letters: string, last: char, argument: string)

  function Words(t: Typed): seq<string> {
    match t
    case Together(letters) => ["-" + letters]
    case Attached(letters, last, argument) => ["-" + (letters + ([last] + argument))]
    case Apart(letters, last, argument) => ["-" + (letters + [last]), argument]
  }

  /** None of the letters takes an argument, but for the last of `Attached` and `Apart`, and no
      argument is `-` or `--`. */
  ghost predicate WellTyped(optstring: string, t: Typed) {
    && (forall k :: 0 <= k < |t.letters| ==> !WantsArgument(optstring, t.letters[k]))
    && match t
      case Together(letters) => letters != "" && letters != "-"
      case Attached(letters, last, argument) => WantsArgument(optstring, last) && argument != ""
      case Apart(letters, last, argument) => WantsArgument(optstring, last) && letters + [last] != "-"
  }

  /** What is reported for letters without arguments: a letter of the option string with status
      0, and a question mark for any other one, with status 1 unless errors are silenced. */
  function LetterEvents(optstring: string, letters: string): seq<Event> {
    if letters == "" then []
    else
      [if letters[0] in optstring then Event([letters[0]], None, 0)
       else Event("?", Some([letters[0]]), if optstring != "" && optstring[0] == ':' then 0 else 1)]
      + LetterEvents(optstring, letters[1..])
  }

  function Events(optstring: string, t: Typed): seq<Event> {
    match t
    case Together(letters) => LetterEvents(optstring, letters)
    case Attached(letters, last, argument) => LetterEvents(optstring, letters) + [Event([last], Some(argument), 0)]
    case Apart(letters, last, argument) => LetterEvents(optstring, letters) + [Event([last], Some(argument), 0)]
  }

  function AllWords(ts: seq<Typed>): seq<string> {
    if ts == [] then [] else Words(ts[0]) + AllWords(ts[1..])
  }

  function AllEvents(optstring: string, ts: seq<Typed>): seq<Event> {
    if ts == [] then [] else Events(optstring, ts[0]) + AllEvents(optstring, ts[1..])
  }

  ghost predicate AllWellTyped(optstring: string, ts: seq<Typed>) {
    forall k :: 0 <= k < |ts| ==> WellTyped(optstring, ts[k])
  }

  /** How a list ends: with operands, with `--` and operands, or with an option whose argument is
      not there. */
  datatype Ending =
    | Operands(operands: seq<string>)
    | DoubleDash(operands: seq<string>)
    | Missing(letters: string, last: char)

  function EndWords(e: Ending): seq<string> {
    match e
    case Operands(operands) => operands
    case DoubleDash(operands) => ["--"] + operands
    case Missing(letters, last) => ["-" + (letters + [last])]
  }

  ghost predicate WellEnded(optstring: string, e: Ending) {
    match e
    case Operands(operands) => operands == [] || |operands[0]| < 2 || operands[0][0] != '-'
    case DoubleDash(_) => true
    case Missing(letters, last) =>
      && WantsArgument(optstring, last) && letters + [last] != "-"
      && forall k :: 0 <= k < |letters| ==> !WantsArgument(optstring, letters[k])
  }

  /** A missing argument is reported as a question mark, or as a colon when errors are silenced,
      with status 0. */
  function EndEvents(optstring: string, e: Ending): seq<Event> {
    if e.Missing?
    then
      LetterEvents(optstring, e.letters)
      + [Event(if optstring != "" && optstring[0] == ':' then ":" else "?", Some([e.last]), 0)]
    else []
  }

  function Left(e: Ending): seq<string> {
    if e.Missing? then [] else e.operands
  }

  // ---------------------------------------------------------------- what is reported

  function Before(events: seq<Event>, p: Parsed): Parsed {
    Parsed(events + p.events, p.operands)
  }

  lemma BeforeBoth(a: seq<Event>, b: seq<Event>, p: Parsed)
    ensures Before(a, Before(b, p)) == Before(a + b, p)
    ensures Before([], p) == p
  {
    Assoc(a, b, p.events);
    assert [] + p.events == p.events;
  }

  lemma ThenBefore(e: Event, rest: seq<Event>, p: Parsed)
    ensures Then(e, Before(rest, p)) == Before([e] + rest, p)
  {
    BeforeBoth([e], rest, p);
  }

  /** Letters without arguments, whatever follows them in their word. */
  lemma {:induction false} LettersReport(optstring: string, letters: string, more: string, rest: seq<string>)
    requires forall k :: 0 <= k < |letters| ==> !WantsArgument(optstring, letters[k])
    ensures Letters(optstring, letters + more, rest)
         == Before(LetterEvents(optstring, letters), Letters(optstring, more, rest))
    decreases |letters|
  {
    if letters == "" {
      assert letters + more == more;
      BeforeBoth([], [], Letters(optstring, more, rest));
    } else {
      var all, after := letters + more, letters[1..] + more;
      assert all[0] == letters[0] && all[1..] == after;
      LetterMeans(optstring, letters[0]);
      LettersReport(optstring, letters[1..], more, rest);
      var e := LetterEvents(optstring, letters)[0];
      ThenBefore(e, LetterEvents(optstring, letters[1..]), Letters(optstring, more, rest));
      assert Letters(optstring, all, rest) == Then(e, Letters(optstring, after, rest));
    }
  }

  lemma OwnArgument(optstring: string, last: char, argument: string, rest: seq<string>)
    requires WantsArgument(optstring, last) && argument != ""
    ensures Letters(optstring, [last] + argument, rest)
         == Before([Event([last], Some(argument), 0)], Batch(optstring, rest))
  {
    LetterMeans(optstring, last);
    assert ([last] + argument)[1..] == argument;
  }

  lemma NextArgument(optstring: string, last: char, argument: string, rest: seq<string>)
    requires WantsArgument(optstring, last)
    ensures Letters(optstring, [last], [argument] + rest)
         == Before([Event([last], Some(argument), 0)], Batch(optstring, rest))
  {
    LetterMeans(optstring, last);
    assert ([argument] + rest)[1..] == rest && [last][1..] == "";
  }

  lemma NoArgument(optstring: string, last: char)
    requires WantsArgument(optstring, last)
    ensures Letters(optstring, [last], [])
         == Parsed([Event(if optstring != "" && optstring[0] == ':' then ":" else "?", Some([last]), 0)], [])
  {
    LetterMeans(optstring, last);
    assert [last][1..] == "";
  }

  /** A word of options at the front. */
  lemma FirstWord(optstring: string, letters: string, rest: seq<string>)
    requires letters != "" && letters != "-"
    ensures Batch(optstring, ["-" + letters] + rest) == Letters(optstring, letters, rest)
  {
    var args := ["-" + letters] + rest;
    assert args[0][1..] == letters && args[1..] == rest;
    assert "--"[1..] == "-";
  }

  lemma FirstTyped(optstring: string, t: Typed, rest: seq<string>)
    requires WellTyped(optstring, t)
    ensures Batch(optstring, Words(t) + rest) == Before(Events(optstring, t), Batch(optstring, rest))
  {
    var some := LetterEvents(optstring, t.letters);
    match t
    case Together(letters) =>
      FirstWord(optstring, letters, rest);
      LettersReport(optstring, letters, "", rest);
      assert letters + "" == letters;
    case Attached(letters, last, argument) =>
      FirstWord(optstring, letters + ([last] + argument), rest);
      LettersReport(optstring, letters, [last] + argument, rest);
      OwnArgument(optstring, last, argument, rest);
      BeforeBoth(some, [Event([last], Some(argument), 0)], Batch(optstring, rest));
    case Apart(letters, last, argument) =>
      assert Words(t) + rest == ["-" + (letters + [last])] + ([argument] + rest);
      FirstWord(optstring, letters + [last], [argument] + rest);
      LettersReport(optstring, letters, [last], [argument] + rest);
      NextArgument(optstring, last, argument, rest);
      BeforeBoth(some, [Event([last], Some(argument), 0)], Batch(optstring, rest));
  }

  lemma EndingReports(optstring: string, e: Ending)
    requires WellEnded(optstring, e)
    ensures Batch(optstring, EndWords(e)) == Parsed(EndEvents(optstring, e), Left(e))
  {
    match e
    case Operands(operands) =>
    case DoubleDash(operands) => assert (["--"] + operands)[1..] == operands;
    case Missing(letters, last) =>
      assert EndWords(e) == ["-" + (letters + [last])] + [];
      FirstWord(optstring, letters + [last], []);
      LettersReport(optstring, letters, [last], []);
      NoArgument(optstring, last);
  }

  lemma {:induction false} TypedReports(optstring: string, ts: seq<Typed>, e: Ending)
    requires AllWellTyped(optstring, ts) && WellEnded(optstring, e)
    ensures Batch(optstring, AllWords(ts) + EndWords(e))
         == Parsed(AllEvents(optstring, ts) + EndEvents(optstring, e), Left(e))
    decreases |ts|
  {
    if ts == [] {
      NoneBefore(EndWords(e));
      NoneBefore(EndEvents(optstring, e));
      EndingReports(optstring, e);
    } else {
      TypedReports(optstring, ts[1..], e);
      Assoc(Words(ts[0]), AllWords(ts[1..]), EndWords(e));
      FirstTyped(optstring, ts[0], AllWords(ts[1..]) + EndWords(e));
      Assoc(Events(optstring, ts[0]), AllEvents(optstring, ts[1..]), EndEvents(optstring, e));
    }
  }

  /** Repeated calls on a list typed like this report its options one after the other, each with
      its own argument, and then what is wrong at its end; OPTIND is left at the operands. */
  lemma TypedListReported(optstring: string, ts: seq<Typed>, e: Ending)
    requires AllWellTyped(optstring, ts) && WellEnded(optstring, e)
    ensures var argv := AllWords(ts) + EndWords(e); Settled(argv, FRESH_START)
    ensures var argv := AllWords(ts) + EndWords(e); var run := Run(optstring, argv, FRESH_START);
      && run.0 == AllEvents(optstring, ts) + EndEvents(optstring, e)
      && 1 <= IndexOf(run.1) <= |argv| + 1 && argv[IndexOf(run.1) - 1..] == Left(e)
  {
    StepsAreBatch(optstring, AllWords(ts) + EndWords(e));
    TypedReports(optstring, ts, e);
  }

  // ---------------------------------------------------------------- every list is typed like this

  /** The letters without arguments at the front. */
  lemma {:induction false} FlagsFirst(optstring: string, letters: string) returns (n: nat)
    ensures n <= |letters| && forall k :: 0 <= k < n ==> !WantsArgument(optstring, letters[k])
    ensures n < |letters| ==> WantsArgument(optstring, letters[n])
  {
    n := 0;
    if letters != "" && !WantsArgument(optstring, letters[0]) {
      var more := FlagsFirst(optstring, letters[1..]);
      n := more + 1;
    }
  }

  lemma WordParts(word: string, n: nat)
    requires |word| >= 2 && word[0] == '-' && n < |word| - 1
    ensures word == "-" + (word[1..][..n] + ([word[1..][n]] + word[n + 2..]))
    ensures n + 2 == |word| ==> word == "-" + (word[1..][..n] + [word[1..][n]])
  {
    assert word[1..] == word[1..][..n] + ([word[1..][n]] + word[n + 2..]);
  }

  /** Every argument list is options typed like this and an ending. */
  lemma {:induction false} EveryListTyped(optstring: string, argv: seq<string>) returns (ts: seq<Typed>, e: Ending)
    ensures AllWellTyped(optstring, ts) && WellEnded(optstring, e)
    ensures argv == AllWords(ts) + EndWords(e)
    decreases |argv|
  {
    if argv == [] || |argv[0]| < 2 || argv[0][0] != '-' {
      return [], Operands(argv);
    }
    if argv[0] == "--" {
      assert argv == ["--"] + argv[1..];
      return [], DoubleDash(argv[1..]);
    }
    var word, letters := argv[0], argv[0][1..];
    assert word == "-" + letters && argv == [word] + argv[1..];
    var n := FlagsFirst(optstring, letters);
    if n == |letters| {
      ts, e := EveryListTyped(optstring, argv[1..]);
      return OneMore(optstring, Together(letters), ts, e), e;
    }
    WordParts(word, n);
    if n + 2 < |word| {
      ts, e := EveryListTyped(optstring, argv[1..]);
      return OneMore(optstring, Attached(letters[..n], letters[n], word[n + 2..]), ts, e), e;
    }
    if |argv| == 1 {
      return [], Missing(letters[..n], letters[n]);
    }
    ts, e := EveryListTyped(optstring, argv[2..]);
    assert argv == [word, argv[1]] + argv[2..];
    return OneMore(optstring, Apart(letters[..n], letters[n], argv[1]), ts, e), e;
  }

  ghost function OneMore(optstring: string, t: Typed, ts: seq<Typed>, e: Ending): (all: seq<Typed>)
    requires WellTyped(optstring, t) && AllWellTyped(optstring, ts)
    ensures AllWellTyped(optstring, all) && AllWords(all) + EndWords(e) == Words(t) + (AllWords(ts) + EndWords(e))
  {
    assert ([t] + ts)[1..] == ts;
    Assoc(Words(t), AllWords(ts), EndWords(e));
    [t] + ts
  }
}

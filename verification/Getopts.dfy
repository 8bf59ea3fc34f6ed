/** The `getopts` builtin: a machine that keeps its place in OPTIND and GETOPTS_POS between
    calls, and the left-to-right parse of the whole argument list that it must be equal to. */
module Getopts {
  import opened Text
  import opened Sequences
  import opened Optional

  // ---------------------------------------------------------------- what a letter means

  datatype Meaning = Unknown | Flag | TakesArgument

  function MeaningOf(optstring: string, c: char): Meaning {
    var p := Find(optstring, c, 0);
    if p == NPOS then Unknown
    else if p + 1 < |optstring| && optstring[p + 1] == ':' then TakesArgument
    else Flag
  }

  /** A leading colon asks for silent errors. */
  predicate Silent(optstring: string) {
    optstring != "" && optstring[0] == ':'
  }

  /** What one call reports: the exit status, and the values of the name and of OPTARG. */
  datatype Event = Event(name: string, optarg: Option<string>, status: nat)

  function UnknownEvent(optstring: string, c: char): Event {
    Event("?", Some([c]), if Silent(optstring) then 0 else 1)
  }

  function MissingEvent(optstring: string, c: char): Event {
    Event(if Silent(optstring) then ":" else "?", Some([c]), 0)
  }

  // ---------------------------------------------------------------- the whole list at once

  /** The options of an argument list, in order, and the operands after them. */
  datatype Parsed = Parsed(events: seq<Event>, operands: seq<string>)

  function Then(e: Event, p: Parsed): Parsed {
    Parsed([e] + p.events, p.operands)
  }

  predicate IsOption(arg: string) {
    |arg| >= 2 && arg[0] == '-' && arg != "--"
  }

  function Batch(optstring: string, args: seq<string>): Parsed
    decreases |args|, 0, 0
  {
    if args == [] then Parsed([], [])
    else if args[0] == "--" then Parsed([], args[1..])
    else if !IsOption(args[0]) then Parsed([], args)
    else Letters(optstring, args[0][1..], args[1..])
  }

  /** Option letters that stand together, followed by the arguments after them. */
  function Letters(optstring: string, letters: string, rest: seq<string>): Parsed
    decreases |rest|, 1, |letters|
  {
    if letters == "" then Batch(optstring, rest)
    else
      var c, more := letters[0], letters[1..];
      match MeaningOf(optstring, c)
      case Unknown => Then(UnknownEvent(optstring, c), Letters(optstring, more, rest))
      case Flag => Then(Event([c], None, 0), Letters(optstring, more, rest))
      case TakesArgument =>
        if more != "" then Then(Event([c], Some(more), 0), Batch(optstring, rest))
        else if rest != [] then Then(Event([c], Some(rest[0]), 0), Batch(optstring, rest[1..]))
        else Parsed([MissingEvent(optstring, c)], [])
  }

  // ---------------------------------------------------------------- one call at a time

  /** The shell variables: OPTIND and GETOPTS_POS as numbers, absent when they are unset or do
      not hold a number, the name operand's variable and OPTARG. */
  datatype Vars = Vars(optind: Option<int>, position: Option<int>, name: string, optarg: Option<string>)

  const FRESH_START := Vars(None, None, "", None)

  /** What a call leaves behind; `ended` when it found no option to report. */
  datatype Outcome = Outcome(vars: Vars, status: nat, ended: bool)

  function IndexOf(v: Vars): (r: int)
    ensures r >= 1
  {
    if v.optind.Some? && v.optind.value > 0 then v.optind.value else 1
  }

  function PositionOf(v: Vars): int {
    if v.position.Some? then v.position.value else 1
  }

  /** GETOPTS_POS is never given a negative number by the shell itself. */
  predicate Readable(v: Vars) {
    PositionOf(v) >= 0
  }

  function At(v: Vars, optind: int, position: int): Vars {
    v.(optind := Some(optind), position := Some(position))
  }

  /** The place after the letter before `position`. */
  function Moved(v: Vars, arg: string, optind: int, position: int): Vars {
    if position >= |arg| then At(v, optind + 1, 1) else At(v, optind, position)
  }

  function Ended(v: Vars, optind: int): Outcome {
    Outcome(At(v, optind, 1), 1, true)
  }

  function Reported(v: Vars, e: Event): Outcome {
    Outcome(v.(name := e.name, optarg := e.optarg), e.status, false)
  }

  function Step(optstring: string, argv: seq<string>, v: Vars): (r: Outcome)
    requires Readable(v)
    decreases |argv| + 1 - IndexOf(v)
  {
    var optind := IndexOf(v);
    if optind > |argv| then Ended(v, optind)
    else
      var arg := argv[optind - 1];
      if |arg| < 2 || arg[0] != '-' then Ended(v, optind)
      else if arg == "--" then Ended(v, optind + 1)
      else if PositionOf(v) >= |arg| then Step(optstring, argv, At(v, optind + 1, 1))
      else LetterStep(optstring, argv, v, optind, PositionOf(v))
  }

  /** What the letter at this place of argument `optind` does. */
  function LetterStep(optstring: string, argv: seq<string>, v: Vars, optind: int, position: int): Outcome
    requires 1 <= optind <= |argv| && 0 <= position < |argv[optind - 1]|
  {
    var arg := argv[optind - 1];
    var c := arg[position];
    match MeaningOf(optstring, c)
    case Unknown => Reported(Moved(v, arg, optind, position + 1), UnknownEvent(optstring, c))
    case Flag => Reported(Moved(v, arg, optind, position + 1), Event([c], None, 0))
    case TakesArgument =>
      if position + 1 < |arg| then Reported(At(v, optind + 1, 1), Event([c], Some(arg[position + 1..]), 0))
      else if optind < |argv| then Reported(At(v, optind + 2, 1), Event([c], Some(argv[optind]), 0))
      else Reported(At(v, optind + 1, 1), MissingEvent(optstring, c))
  }

  /** The argument of an option: the rest of its own argument, or the next one. */
  method TakeArgument(argv: seq<string>, current: string, index: int, charIndex: int)
      returns (argument: Option<string>, index': int)
    requires 1 <= index <= |argv| && 0 <= charIndex <= |current|
    ensures argument == (if charIndex < |current| then Some(current[charIndex..])
                         else if index < |argv| then Some(argv[index]) else None)
    ensures index' == if charIndex >= |current| && index < |argv| then index + 2 else index + 1
  {
    if charIndex < |current| { return Some(current[charIndex..]), index + 1; }
    if index + 1 <= |argv| { return Some(argv[index]), index + 2; }
    return None, index + 1;
  }

  class Shell {
    var optind: Option<int>
    var position: Option<int>
    var name: string
    var optarg: Option<string>

    function State(): Vars
      reads this
    {
      Vars(optind, position, name, optarg)
    }

    constructor ()
      ensures State() == FRESH_START
    {
      optind, position, name, optarg := None, None, "", None;
    }

    method GetoptsCommand(optstring: string, argv: seq<string>) returns (status: nat)
      requires Readable(State())
      modifies this
      ensures var r := Step(optstring, argv, old(State())); State() == r.vars && status == r.status
      decreases |argv| + 1 - IndexOf(State())
    {
      var index := 1;
      if optind.Some? { index := optind.value; }
      if index <= 0 { index := 1; }
      if argv == [] || index > |argv| {
        optind, position := Some(index), Some(1);
        return 1;
      }
      var current := argv[index - 1];
      if |current| < 2 || current[0] != '-' {
        optind, position := Some(index), Some(1);
        return 1;
      }
      if current == "--" {
        optind, position := Some(index + 1), Some(1);
        return 1;
      }
      var charIndex := if position.Some? then position.value else 1;
      if charIndex >= |current| {
        index := index + 1;
        optind, position := Some(index), Some(1);
        status := GetoptsCommand(optstring, argv);
        return status;
      }
      status := TakeLetter(optstring, argv, index, charIndex);
    }

    /** The letter at a place: what it means, its argument, and the place after it. */
    method TakeLetter(optstring: string, argv: seq<string>, start: int, place: int) returns (status: nat)
      requires 1 <= start <= |argv| && 0 <= place < |argv[start - 1]|
      modifies this
      ensures var r := LetterStep(optstring, argv, old(State()), start, place);
        State() == r.vars && status == r.status
    {
      var index, charIndex, current := start, place, argv[start - 1];
      var opt := current[charIndex];
      charIndex := charIndex + 1;
      var optPos := Find(optstring, opt, 0);
      if optPos == NPOS {
        name := "?";
        optarg := Some([opt]);
        if charIndex >= |current| { index, charIndex := index + 1, 1; }
        optind, position := Some(index), Some(charIndex);
        if optstring != "" && optstring[0] == ':' { return 0; }
        return 1;
      }
      name := [opt];
      if optPos + 1 < |optstring| && optstring[optPos + 1] == ':' {
        var argument: Option<string>;
        argument, index := TakeArgument(argv, current, index, charIndex);
        charIndex := 1;
        optarg := argument;
        if argument.None? {
          name := if optstring != "" && optstring[0] == ':' then ":" else "?";
          optarg := Some([opt]);
        }
      } else {
        optarg := None;
        if charIndex >= |current| { index, charIndex := index + 1, 1; }
      }
      optind, position := Some(index), Some(charIndex);
      return 0;
    }
  }

  // ---------------------------------------------------------------- the place in the list

  /** The places that calls leave behind: the next argument, or inside a group of letters. */
  predicate Settled(argv: seq<string>, v: Vars) {
    var i, p := IndexOf(v), PositionOf(v);
    && i <= |argv| + 1
    && p >= 1
    && (p > 1 ==> i <= |argv| && p < |argv[i - 1]| && IsOption(argv[i - 1]))
  }

  /** An option is left: this can be seen before the call. */
  predicate OptionAt(argv: seq<string>, v: Vars) {
    IndexOf(v) <= |argv| && IsOption(argv[IndexOf(v) - 1])
  }

  /** What is still to be parsed. */
  function Pending(optstring: string, argv: seq<string>, v: Vars): Parsed
    requires Settled(argv, v)
  {
    var i, p := IndexOf(v), PositionOf(v);
    if p > 1 then Letters(optstring, argv[i - 1][p..], argv[i..]) else Batch(optstring, argv[i - 1..])
  }

  /** The option characters still to come. */
  function CharsFrom(argv: seq<string>, i: nat): nat
    decreases |argv| - i
  {
    if i >= |argv| then 0 else |argv[i]| + CharsFrom(argv, i + 1)
  }

  function Remaining(argv: seq<string>, v: Vars): int
    requires Settled(argv, v)
  {
    CharsFrom(argv, IndexOf(v) - 1) - (PositionOf(v) - 1)
  }

  /** A settled place never needs to be moved to the next argument first: the recursive call
      is not reached. */
  lemma RenormalisationUnreachable(argv: seq<string>, v: Vars)
    requires Settled(argv, v)
    ensures OptionAt(argv, v) ==> PositionOf(v) < |argv[IndexOf(v) - 1]|
  {
  }

  lemma UnfoldArgument(optstring: string, argv: seq<string>, i: nat)
    requires i < |argv| && IsOption(argv[i])
    ensures Batch(optstring, argv[i..]) == Letters(optstring, argv[i][1..], argv[i + 1..])
  {
    assert argv[i..][0] == argv[i] && argv[i..][1..] == argv[i + 1..];
  }

  lemma UnfoldLetter(optstring: string, arg: string, p: nat, rest: seq<string>)
    requires p < |arg|
    ensures arg[p..] != "" && arg[p..][0] == arg[p] && arg[p..][1..] == arg[p + 1..]
    ensures p + 1 == |arg| ==> arg[p + 1..] == "" && Letters(optstring, arg[p + 1..], rest) == Batch(optstring, rest)
  {
  }

  /** What is pending is the letter at the place, then the rest. */
  lemma PendingIsLetters(optstring: string, argv: seq<string>, v: Vars)
    requires Settled(argv, v) && OptionAt(argv, v)
    ensures Pending(optstring, argv, v) == Letters(optstring, argv[IndexOf(v) - 1][PositionOf(v)..], argv[IndexOf(v)..])
  {
    if PositionOf(v) == 1 { UnfoldArgument(optstring, argv, IndexOf(v) - 1); }
  }

  lemma MovedPending(optstring: string, argv: seq<string>, v: Vars, i: nat, p: nat)
    requires 1 <= i <= |argv| && 1 < p <= |argv[i - 1]| && IsOption(argv[i - 1])
    ensures var next := Moved(v, argv[i - 1], i, p);
      Settled(argv, next) && Pending(optstring, argv, next) == Letters(optstring, argv[i - 1][p..], argv[i..])
  {
    if p == |argv[i - 1]| {
      assert argv[i - 1][p..] == "";
    }
  }

  lemma NextPending(optstring: string, argv: seq<string>, v: Vars, i: nat)
    requires 1 <= i <= |argv| + 1
    ensures Settled(argv, At(v, i, 1)) && Pending(optstring, argv, At(v, i, 1)) == Batch(optstring, argv[i - 1..])
  {
  }

  predicate EventIs(e: Event, r: Outcome) {
    !r.ended && r.status == e.status && r.vars.name == e.name && r.vars.optarg == e.optarg
  }

  lemma SamePlace(optstring: string, argv: seq<string>, v: Vars, w: Vars)
    requires v.optind == w.optind && v.position == w.position && Settled(argv, v)
    ensures Settled(argv, w) && Pending(optstring, argv, w) == Pending(optstring, argv, v)
  {
  }

  /** A call that ends leaves the operands; any other call reports the first pending option
      and leaves the rest pending. */
  lemma StepParses(optstring: string, argv: seq<string>, v: Vars)
    requires Settled(argv, v)
    ensures var r := Step(optstring, argv, v); var before := Pending(optstring, argv, v);
      && Settled(argv, r.vars)
      && (r.ended ==>
          before == Parsed([], argv[IndexOf(r.vars) - 1..]) && r.status == 1 && r.vars.name == v.name
              && r.vars.optarg == v.optarg)
      && (!r.ended ==> before.events != [] && EventIs(before.events[0], r))
      && (!r.ended ==> Pending(optstring, argv, r.vars) == Parsed(before.events[1..], before.operands))
  {
    var i := IndexOf(v);
    if i <= |argv| && IsOption(argv[i - 1]) {
      StepLetter(optstring, argv, v);
    } else if i <= |argv| {
      assert argv[i - 1..][0] == argv[i - 1] && argv[i - 1..][1..] == argv[i..];
    }
  }

  lemma ThenRest(e: Event, p: Parsed)
    ensures Then(e, p).events != [] && Then(e, p).events[0] == e
        && Parsed(Then(e, p).events[1..], Then(e, p).operands) == p
  {
  }

  /** The call reports the first pending option, and leaves the rest. */
  predicate Reports(optstring: string, argv: seq<string>, r: Outcome, before: Parsed) {
    && Settled(argv, r.vars) && !r.ended
    && before.events != [] && EventIs(before.events[0], r)
    && Pending(optstring, argv, r.vars) == Parsed(before.events[1..], before.operands)
  }

  lemma ReportsThen(optstring: string, argv: seq<string>, v: Vars, e: Event, rest: Parsed)
    requires Settled(argv, v) && Pending(optstring, argv, v) == rest
    ensures Reports(optstring, argv, Reported(v, e), Then(e, rest))
  {
    ThenRest(e, rest);
    SamePlace(optstring, argv, v, Reported(v, e).vars);
  }

  /** A letter without an argument. */
  lemma StepFlag(optstring: string, argv: seq<string>, v: Vars, e: Event)
    requires Settled(argv, v) && OptionAt(argv, v)
    ensures var i, p := IndexOf(v), PositionOf(v);
      Reports(optstring, argv, Reported(Moved(v, argv[i - 1], i, p + 1), e),
          Then(e, Letters(optstring, argv[i - 1][p + 1..], argv[i..])))
  {
    var i, p := IndexOf(v), PositionOf(v);
    MovedPending(optstring, argv, v, i, p + 1);
    ReportsThen(optstring, argv, Moved(v, argv[i - 1], i, p + 1), e,
        Letters(optstring, argv[i - 1][p + 1..], argv[i..]));
  }

  /** A letter with its argument, which ends before argument `next`. */
  lemma StepArgument(optstring: string, argv: seq<string>, v: Vars, e: Event, next: nat)
    requires 1 <= next <= |argv| + 1
    ensures Reports(optstring, argv, Reported(At(v, next, 1), e), Then(e, Batch(optstring, argv[next - 1..])))
  {
    NextPending(optstring, argv, v, next);
    ReportsThen(optstring, argv, At(v, next, 1), e, Batch(optstring, argv[next - 1..]));
  }

  lemma BatchOfNothing(optstring: string, argv: seq<string>)
    ensures argv[|argv|..] == [] && Batch(optstring, argv[|argv|..]) == Parsed([], [])
  {
  }

  lemma ThenNothing(e: Event)
    ensures Then(e, Parsed([], [])) == Parsed([e], [])
  {
  }

  lemma StepIsLetter(optstring: string, argv: seq<string>, v: Vars)
    requires Settled(argv, v) && OptionAt(argv, v)
    ensures Step(optstring, argv, v) == LetterStep(optstring, argv, v, IndexOf(v), PositionOf(v))
  {
  }

  /** A letter that takes an argument. */
  lemma StepTakes(optstring: string, argv: seq<string>, v: Vars, i: nat, p: nat)
    requires 1 <= i <= |argv| && p < |argv[i - 1]| && MeaningOf(optstring, argv[i - 1][p]).TakesArgument?
    ensures Reports(optstring, argv, LetterStep(optstring, argv, v, i, p),
        Letters(optstring, argv[i - 1][p..], argv[i..]))
  {
    var arg, rest := argv[i - 1], argv[i..];
    var c := arg[p];
    UnfoldLetter(optstring, arg, p, rest);
    if p + 1 < |arg| {
      StepArgument(optstring, argv, v, Event([c], Some(arg[p + 1..]), 0), i + 1);
    } else if i < |argv| {
      assert rest[0] == argv[i] && rest[1..] == argv[i + 1..];
      StepArgument(optstring, argv, v, Event([c], Some(argv[i]), 0), i + 2);
    } else {
      StepArgument(optstring, argv, v, MissingEvent(optstring, c), i + 1);
      BatchOfNothing(optstring, argv);
      ThenNothing(MissingEvent(optstring, c));
    }
  }

  lemma LettersThen(optstring: string, arg: string, p: nat, rest: seq<string>)
    requires p < |arg| && !MeaningOf(optstring, arg[p]).TakesArgument?
    ensures Letters(optstring, arg[p..], rest) ==
      Then(if MeaningOf(optstring, arg[p]).Unknown? then UnknownEvent(optstring, arg[p]) else Event([arg[p]], None, 0),
           Letters(optstring, arg[p + 1..], rest))
  {
    UnfoldLetter(optstring, arg, p, rest);
  }

  lemma StepLetter(optstring: string, argv: seq<string>, v: Vars)
    requires Settled(argv, v) && OptionAt(argv, v)
    ensures Reports(optstring, argv, Step(optstring, argv, v), Pending(optstring, argv, v))
  {
    var i, p := IndexOf(v), PositionOf(v);
    var c := argv[i - 1][p];
    PendingIsLetters(optstring, argv, v);
    StepIsLetter(optstring, argv, v);
    if MeaningOf(optstring, c).TakesArgument? {
      StepTakes(optstring, argv, v, i, p);
    } else {
      var e := if MeaningOf(optstring, c).Unknown? then UnknownEvent(optstring, c) else Event([c], None, 0);
      LettersThen(optstring, argv[i - 1], p, argv[i..]);
      StepFlag(optstring, argv, v, e);
    }
  }

  // ---------------------------------------------------------------- whole runs

  lemma {:induction false} CharsShrink(argv: seq<string>, i: nat)
    requires i < |argv|
    ensures CharsFrom(argv, i) == |argv[i]| + CharsFrom(argv, i + 1)
  {
  }

  /** OPTIND stays in range and never decreases, and every reported option leaves strictly
      fewer characters to come. */
  lemma StepAdvances(optstring: string, argv: seq<string>, v: Vars)
    requires Settled(argv, v)
    ensures var r := Step(optstring, argv, v);
      && Settled(argv, r.vars)
      && 1 <= IndexOf(v) <= IndexOf(r.vars) <= |argv| + 1
      && (!r.ended ==> 0 <= Remaining(argv, r.vars) < Remaining(argv, v))
  {
    StepMoves(optstring, argv, v);
    var r, i := Step(optstring, argv, v), IndexOf(v);
    StepParses(optstring, argv, v);
    if !r.ended {
      PlaceShrinks(argv, i, PositionOf(v), IndexOf(r.vars), PositionOf(r.vars));
    }
  }

  /** The places one call can move to. */
  predicate Moves(argv: seq<string>, i: int, p: int, i': int, p': int) {
    || (i' == i && p' == p + 1)
    || (i' == i + 1 && p' == 1)
    || (i' == i + 2 && p' == 1 && i < |argv|)
  }

  lemma StepMoves(optstring: string, argv: seq<string>, v: Vars)
    requires Settled(argv, v)
    ensures var r := Step(optstring, argv, v); var i, p := IndexOf(v), PositionOf(v);
      && (!r.ended ==> i <= |argv| && p < |argv[i - 1]| && Moves(argv, i, p, IndexOf(r.vars), PositionOf(r.vars)))
      && (r.ended ==> PositionOf(r.vars) == 1 && i <= IndexOf(r.vars) <= i + 1 && IndexOf(r.vars) <= |argv| + 1)
  {
  }

  lemma PlaceShrinks(argv: seq<string>, i: int, p: int, i': int, p': int)
    requires 1 <= i <= |argv| && 1 <= p < |argv[i - 1]| && Moves(argv, i, p, i', p') && (p' > 1 ==> p' < |argv[i - 1]|)
    requires i' <= |argv| + 1
    ensures 0 <= CharsFrom(argv, i' - 1) - (p' - 1) < CharsFrom(argv, i - 1) - (p - 1)
  {
    CharsShrink(argv, i - 1);
    if i < |argv| { CharsShrink(argv, i); }
  }

  /** The events of repeated calls up to the first that ends, and what that one leaves. */
  function Run(optstring: string, argv: seq<string>, v: Vars): (seq<Event>, Vars)
    requires Settled(argv, v)
    decreases if Remaining(argv, v) >= 0 then Remaining(argv, v) else 0
  {
    var r := Step(optstring, argv, v);
    StepAdvances(optstring, argv, v);
    if r.ended then ([], r.vars)
    else
      var rest := Run(optstring, argv, r.vars);
      ([Event(r.vars.name, r.vars.optarg, r.status)] + rest.0, rest.1)
  }

  lemma {:induction false} RunIsPending(optstring: string, argv: seq<string>, v: Vars)
    requires Settled(argv, v)
    ensures var run := Run(optstring, argv, v);
      && Settled(argv, run.1)
      && Pending(optstring, argv, v) == Parsed(run.0, argv[IndexOf(run.1) - 1..])
    decreases if Remaining(argv, v) >= 0 then Remaining(argv, v) else 0
  {
    var r := Step(optstring, argv, v);
    StepParses(optstring, argv, v);
    StepAdvances(optstring, argv, v);
    if !r.ended {
      RunIsPending(optstring, argv, r.vars);
      Uncons(Pending(optstring, argv, v).events);
    }
  }

  /** Repeated calls on a fixed argument list report, one by one, exactly the options, values
      and errors of the left-to-right parse, and leave OPTIND at its first operand. */
  lemma StepsAreBatch(optstring: string, argv: seq<string>)
    ensures Settled(argv, FRESH_START)
    ensures var run := Run(optstring, argv, FRESH_START);
      Settled(argv, run.1) && Batch(optstring, argv) == Parsed(run.0, argv[IndexOf(run.1) - 1..])
  {
    RunIsPending(optstring, argv, FRESH_START);
    assert argv[0..] == argv;
  }

  // ---------------------------------------------------------------- no recursive call

  /** The guard of the recursive call: the place is past the letters of its argument. */
  predicate Renormalises(argv: seq<string>, v: Vars) {
    OptionAt(argv, v) && PositionOf(v) >= |argv[IndexOf(v) - 1]|
  }

  /** The variables after `n` calls from a fresh start, those after an end included. */
  function AfterCalls(optstring: string, argv: seq<string>, n: nat): (v: Vars)
    ensures Settled(argv, v)
  {
    if n == 0 then FRESH_START
    else
      var v := AfterCalls(optstring, argv, n - 1);
      StepAdvances(optstring, argv, v);
      Step(optstring, argv, v).vars
  }

  /** However often it is called on one argument list, the recursive call is not reached. */
  lemma NeverRenormalises(optstring: string, argv: seq<string>, n: nat)
    ensures !Renormalises(argv, AfterCalls(optstring, argv, n))
  {
    RenormalisationUnreachable(argv, AfterCalls(optstring, argv, n));
  }

  // ---------------------------------------------------------------- the exit status

  /** The next letter is not in the option string, and errors are not silenced. */
  predicate Objects(optstring: string, argv: seq<string>, v: Vars)
    requires Settled(argv, v)
  {
    OptionAt(argv, v) && !Silent(optstring) && MeaningOf(optstring, argv[IndexOf(v) - 1][PositionOf(v)]).Unknown?
  }

  /** A call ends exactly when no option is left. Its exit status says so, 0 for an option and
      not 0 for the end, exactly when the next letter is known or errors are silenced. */
  lemma StatusTellsEnd(optstring: string, argv: seq<string>, v: Vars)
    requires Settled(argv, v)
    ensures var r := Step(optstring, argv, v);
      && (r.ended <==> !OptionAt(argv, v))
      && ((r.status == 0 <==> OptionAt(argv, v)) <==> !Objects(optstring, argv, v))
  {
  }

  /** An unknown option in a list that goes on: it is reported, with the exit status of the
      end. */
  lemma UnknownLooksLikeEnd()
    ensures Step("a", ["-z", "-a"], FRESH_START) == Outcome(Vars(Some(2), Some(1), "?", Some("z")), 1, false)
  {
    var argv := ["-z", "-a"];
    assert argv[0] == "-z" && argv[0][1] == 'z';
    FindMisses("a", 'z', 0);
  }

  // ---------------------------------------------------------------- starting again

  /** What a script does to parse another list: only OPTIND is set. */
  function Restarted(v: Vars): Vars {
    v.(optind := Some(1))
  }

  /** Two calls that do the same, up to the variables that a call at the end leaves alone. */
  predicate SameCall(r: Outcome, f: Outcome) {
    && r.ended == f.ended && r.status == f.status
    && r.vars.optind == f.vars.optind && r.vars.position == f.vars.position
    && (!r.ended ==> r.vars == f.vars)
  }

  /** The first call behaves as on a fresh start, whatever it is given. */
  ghost predicate StartsFresh(v: Vars)
    requires Readable(v)
  {
    forall optstring: string, argv: seq<string> ::
      SameCall(Step(optstring, argv, v), Step(optstring, argv, FRESH_START))
  }

  lemma SamePlaceSteps(optstring: string, argv: seq<string>, v: Vars, w: Vars)
    requires IndexOf(v) == IndexOf(w) == 1 && PositionOf(v) == PositionOf(w) == 1
    ensures SameCall(Step(optstring, argv, v), Step(optstring, argv, w))
  {
  }

  lemma OneOption(v: Vars)
    requires IndexOf(v) == 1 && PositionOf(v) >= 0
    ensures var r := Step("x", ["-x"], v);
      && (PositionOf(v) == 1 ==> r.vars.name == "x" && !r.ended)
      && (PositionOf(v) == 0 ==> r.vars.name == "?" && !r.ended)
      && (PositionOf(v) >= 2 ==> r.ended)
  {
    var argv := ["-x"];
    assert argv[0] == "-x" && argv[0][0] == '-' && argv[0][1] == 'x' && |argv[0]| == 2;
    FindMisses("x", '-', 0);
    FindAt("x", 'x', 0, 0);
  }

  /** Setting OPTIND to 1 starts afresh, for every option string and argument list, exactly
      when no place inside an argument was left over in GETOPTS_POS. */
  lemma RestartIsFresh(v: Vars)
    requires Readable(v)
    ensures StartsFresh(Restarted(v)) <==> PositionOf(v) == 1
  {
    var w := Restarted(v);
    if PositionOf(v) == 1 {
      forall optstring: string, argv: seq<string>
        ensures SameCall(Step(optstring, argv, w), Step(optstring, argv, FRESH_START))
      {
        SamePlaceSteps(optstring, argv, w, FRESH_START);
      }
    } else {
      OneOption(w);
      OneOption(FRESH_START);
      assert !SameCall(Step("x", ["-x"], w), Step("x", ["-x"], FRESH_START));
    }
  }

  /** Then the whole run is that of a fresh start too. */
  lemma RestartedRun(optstring: string, argv: seq<string>, v: Vars)
    requires PositionOf(v) == 1
    ensures Settled(argv, Restarted(v))
    ensures var run := Run(optstring, argv, Restarted(v));
      Settled(argv, run.1) && Batch(optstring, argv) == Parsed(run.0, argv[IndexOf(run.1) - 1..])
  {
    RunIsPending(optstring, argv, Restarted(v));
    assert argv[0..] == argv;
  }
}

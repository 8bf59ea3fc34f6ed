/** Which of the words before the cursor belong to the command: leading assignments and the
    transparent wrappers `sudo`, `env` and `command` are peeled off. */
module Wrappers {
  import opened Text
  import opened Sequences
  import opened Tokenizer
  import opened TokenizerSpans
  import opened AssignmentLhs
  import opened Quoting

  predicate IsWrapper(word: string) {
    word == "sudo" || word == "env" || word == "command"
  }

  // ---------------------------------------------------------------- options that take a value

  function ValueLetters(wrapper: string): string {
    if wrapper == "sudo" then "ugpCTrtDR" else "uCSa"
  }

  function LongOptions(wrapper: string): set<string> {
    if wrapper == "sudo" then
      {"--user", "--group", "--prompt", "--close-from", "--command-timeout", "--role", "--type", "--chdir",
          "--chroot", "--host"}
    else {"--unset", "--chdir", "--split-string", "--argv0"}
  }

  function RequiredOptions(wrapper: string): set<string> {
    if wrapper == "sudo" then
      {"-u", "--user", "-g", "--group", "-p", "--prompt", "-C", "--close-from", "-T", "--command-timeout", "-r",
          "--role", "-t", "--type", "-D", "--chdir", "-R", "--chroot", "--host"}
    else if wrapper == "env" then {"-u", "--unset", "-C", "--chdir", "-S", "--split-string", "-a", "--argv0"}
    else {}
  }

  /** The value of this option is the next word: it is a long option that takes a value, or a
      cluster of letters whose last one, and no earlier one, takes a value; and it holds no `=`. */
  predicate NeedsNextWord(wrapper: string, token: string) {
    && (wrapper == "sudo" || wrapper == "env")
    && '=' !in token
    && (token in LongOptions(wrapper) ||
        (|token| >= 2 && token[0] == '-' && token[1] != '-' &&
         token[|token| - 1] in ValueLetters(wrapper) &&
         forall k :: 1 <= k < |token| - 1 ==> token[k] !in ValueLetters(wrapper)))
  }

  lemma ShortRequired(wrapper: string, option: string)
    requires |option| == 2
    ensures option in RequiredOptions(wrapper) <==>
      (wrapper == "sudo" || wrapper == "env") && option[0] == '-' && option[1] in ValueLetters(wrapper)
  {
    assert option == [option[0], option[1]];
  }

  lemma LongRequired(wrapper: string, option: string)
    requires |option| != 2
    ensures option in RequiredOptions(wrapper)
        <==> (wrapper == "sudo" || wrapper == "env") && option in LongOptions(wrapper)
  {
  }

  lemma LongHasDashes(wrapper: string, option: string)
    requires option in LongOptions(wrapper)
    ensures |option| > 2 && option[1] == '-'
  {
  }

  /** `required_option_value`. */
  method RequiredOptionValue(token: string, wrapper: string) returns (required: bool, inlineValue: bool)
    ensures (required && !inlineValue) == NeedsNextWord(wrapper, token)
  {
    inlineValue := false;
    var option := token;
    var equals := Find(token, '=', 0);
    FindFinds(token, '=', 0);
    assert token[0..] == token;
    if equals != NPOS {
      option := token[..equals];
      inlineValue := true;
    }
    if !inlineValue && |token| > 2 && token[0] == '-' && token[1] != '-' {
      var letters := ValueLetters(wrapper);
      for index := 1 to |token|
        invariant option == token && !inlineValue
        invariant forall k :: 1 <= k < index ==> token[k] !in letters
      {
        if token[index] !in letters { continue; }
        option := ['-', token[index]];
        inlineValue := index + 1 < |token|;
        ShortRequired(wrapper, option);
        break;
      }
    }
    required := option in RequiredOptions(wrapper);
    if |option| == 2 { ShortRequired(wrapper, option); } else { LongRequired(wrapper, option); }
    if token in LongOptions(wrapper) { LongHasDashes(wrapper, token); }
  }

  // ---------------------------------------------------------------- what a word may be

  datatype Wrapper = Sudo | Env | Command

  function NameOf(w: Wrapper): string {
    match w
    case Sudo => "sudo"
    case Env => "env"
    case Command => "command"
  }

  /** All that peeling looks at in a word. */
  datatype Kind = Kind(
    assignment: bool,
    sudo: bool, env: bool, command: bool,
    endsOptions: bool,
    option: bool,
    describes: bool,
    sudoTakesNext: bool, envTakesNext: bool)
  {
    predicate IsWrapper() { sudo || env || command }

    function Wrapper(): Wrapper { if sudo then Sudo else if env then Env else Command }

    predicate TakesNext(w: Wrapper) { (w.Sudo? && sudoTakesNext) || (w.Env? && envTakesNext) }
  }

  function KindOf(token: string): Kind {
    Kind(IsAssignment(token), token == "sudo", token == "env", token == "command", token == "--",
         token != "" && token[0] == '-', 'v' in token || 'V' in token,
         NeedsNextWord("sudo", token), NeedsNextWord("env", token))
  }

  function Kinds(ts: seq<string>): (r: seq<Kind>)
    ensures |r| == |ts|
  {
    if ts == [] then [] else [KindOf(ts[0])] + Kinds(ts[1..])
  }

  lemma {:induction false} KindsAt(ts: seq<string>, k: nat)
    requires k < |ts|
    ensures Kinds(ts)[k] == KindOf(ts[k])
  {
    if k > 0 { KindsAt(ts[1..], k - 1); }
  }

  // ---------------------------------------------------------------- peeling

  /** Where peeling ends, or why it does not. */
  datatype Peeled = Found(at: nat) | Nothing | WaitingForValue | Suppressed

  /** What a word after a wrapper does: the command is here, or there is none to find, or the
      word is passed over, alone or with the value it takes. */
  datatype Lead = Here | Fails(why: Peeled) | Skip(two: bool, options: bool)

  function Leading(ks: seq<Kind>, w: Wrapper, atBoundary: bool, i: nat, options: bool): Lead {
    if i >= |ks| then Fails(Nothing)
    else if w.Env? && ks[i].assignment then Skip(false, options)
    else if options && ks[i].endsOptions then Skip(false, false)
    else if options && ks[i].option then
      if w.Command? && ks[i].describes then Fails(Suppressed)
      else if !ks[i].TakesNext(w) then Skip(false, options)
      else if i + 1 == |ks| || (i + 2 == |ks| && !atBoundary) then Fails(WaitingForValue)
      else Skip(true, options)
    else Here
  }

  type Leads = (nat, bool) -> Lead

  function LeadsOf(ks: seq<Kind>, w: Wrapper, atBoundary: bool): Leads {
    (i: nat, options: bool) => Leading(ks, w, atBoundary, i, options)
  }

  /** What follows the options of a wrapper, among `n` words. */
  function Peel(leads: Leads, n: nat, i: nat, options: bool): (r: Peeled)
    ensures r.Found? ==> i <= r.at < n
    decreases n - i
  {
    if i >= n then Nothing
    else
      match leads(i, options)
      case Here => Found(i)
      case Fails(why) => if why.Found? then Nothing else why
      case Skip(two, more) => Peel(leads, n, if two then i + 2 else i + 1, more)
  }

  function PastAssignments(ks: seq<Kind>, i: nat): (r: nat)
    requires i <= |ks|
    ensures i <= r <= |ks|
    ensures r < |ks| ==> !ks[r].assignment
    decreases |ks| - i
  {
    if i < |ks| && ks[i].assignment then PastAssignments(ks, i + 1) else i
  }

  /** What a word that is not an assignment is: the command, the end of the search, or a
      wrapper behind which the search goes on. */
  datatype Next = IsCommand | Ends(why: Peeled) | GoesOn(to: nat)

  function NextAt(ks: seq<Kind>, atBoundary: bool, i: nat): Next {
    if i >= |ks| then Ends(Nothing)
    else
      var p := Peel(LeadsOf(ks, ks[i].Wrapper(), atBoundary), |ks|, i + 1, true);
      NextFrom(ks[i], i + 1 == |ks| && !atBoundary, p, if p.Found? then PastAssignments(ks, p.at) else 0)
  }

  /** From the kind of the word, whether it is the last and unfinished, what follows its options
      as a wrapper, and where the assignments there end. */
  function NextFrom(k: Kind, unfinished: bool, p: Peeled, past: nat): Next {
    if !k.IsWrapper() || unfinished then IsCommand
    else if p.Found? then GoesOn(past)
    else Ends(p)
  }

  type Nexts = nat -> Next

  function NextsOf(ks: seq<Kind>, atBoundary: bool): Nexts {
    (i: nat) => NextAt(ks, atBoundary, i)
  }

  /** Where the command is among `n` words, from a position that is not an assignment. */
  function Unwrap(next: Nexts, n: nat, i: nat): (r: Peeled)
    ensures r.Found? ==> i <= r.at < n
    decreases n - i
  {
    if i >= n then Nothing
    else
      match next(i)
      case IsCommand => Found(i)
      case Ends(why) => if why.Found? then Nothing else why
      case GoesOn(to) => if i < to then Unwrap(next, n, to) else Nothing
  }

  function CommandAt(ks: seq<Kind>, atBoundary: bool): (r: Peeled)
    ensures r.Found? ==> r.at < |ks|
  {
    Unwrap(NextsOf(ks, atBoundary), |ks|, PastAssignments(ks, 0))
  }

  datatype Outcome = Outcome(effective: seq<string>, inCommandPosition: bool, inOptionValue: bool)

  function OutcomeOf(ts: seq<string>, p: Peeled, atBoundary: bool): Outcome {
    match p
    case Found(at) => Outcome(if at <= |ts| then ts[at..] else [], at + 1 == |ts| && !atBoundary, false)
    case Nothing => Outcome([], ts == [] || atBoundary, false)
    case WaitingForValue => Outcome([], false, true)
    case Suppressed => Outcome([], false, false)
  }

  function Resolve(ts: seq<string>, atBoundary: bool): Outcome {
    OutcomeOf(ts, CommandAt(Kinds(ts), atBoundary), atBoundary)
  }

  // ---------------------------------------------------------------- the loops

  datatype WrapperResult = WrapperResult(next: nat, foundCommand: bool, waitingForValue: bool, suppressUnwrap: bool)

  function ResultOf(p: Peeled): WrapperResult {
    match p
    case Found(at) => WrapperResult(at, true, false, false)
    case Nothing => WrapperResult(0, false, false, false)
    case WaitingForValue => WrapperResult(0, false, true, false)
    case Suppressed => WrapperResult(0, false, false, true)
  }

  /** `ks` are the kinds of the first `n` words. */
  ghost predicate Classifies(ks: seq<Kind>, words: seq<Word>, n: nat)
    requires n <= |words| && n <= |ks|
  {
    n > 0 ==> ks[n - 1] == KindOf(words[n - 1].text) && Classifies(ks, words, n - 1)
  }

  ghost predicate AreKinds(ks: seq<Kind>, words: seq<Word>) {
    |ks| == |words| && Classifies(ks, words, |words|)
  }

  lemma {:induction false} ClassifiesAt(ks: seq<Kind>, words: seq<Word>, n: nat, i: nat)
    requires i < n <= |words| && n <= |ks| && Classifies(ks, words, n)
    ensures ks[i] == KindOf(words[i].text)
  {
    if i < n - 1 { ClassifiesAt(ks, words, n - 1, i); }
  }

  lemma {:induction false} KindsClassify(words: seq<Word>, n: nat)
    requires n <= |words|
    ensures Classifies(Kinds(Texts(words)), words, n)
  {
    if n > 0 {
      KindsClassify(words, n - 1);
      KindsAt(Texts(words), n - 1);
    }
  }

  lemma KindFacts(ks: seq<Kind>, words: seq<Word>, i: nat, w: Wrapper)
    requires AreKinds(ks, words) && i < |words|
    ensures var token := words[i].text;
      && ks[i].assignment == IsAssignment(token)
      && ks[i].endsOptions == (token == "--")
      && ks[i].option == (token != "" && token[0] == '-')
      && ks[i].describes == ('v' in token || 'V' in token)
      && ks[i].TakesNext(w) == NeedsNextWord(NameOf(w), token)
  {
    ClassifiesAt(ks, words, |words|, i);
  }

  lemma AssignmentFact(ks: seq<Kind>, words: seq<Word>, i: nat)
    requires AreKinds(ks, words) && Flagged(words) && i < |words|
    ensures ks[i].assignment == words[i].assignment
  {
    ClassifiesAt(ks, words, |words|, i);
  }

  lemma PeelStep(leads: Leads, n: nat, i: nat, options: bool)
    requires i < n
    ensures Peel(leads, n, i, options) ==
      match leads(i, options)
      case Here => Found(i)
      case Fails(why) => if why.Found? then Nothing else why
      case Skip(two, more) => Peel(leads, n, if two then i + 2 else i + 1, more)
  {
  }

  /** The tests on one word after a wrapper. */
  method LeadAt(words: seq<Word>, index: nat, w: Wrapper, atBoundary: bool, options: bool, ghost ks: seq<Kind>)
      returns (lead: Lead)
    requires index < |words| && AreKinds(ks, words)
    ensures lead == Leading(ks, w, atBoundary, index, options)
  {
    var token := words[index].text;
    KindFacts(ks, words, index, w);
    var assignment := CheckAssignment(token);
    if w.Env? && assignment { return Skip(false, options); }
    if options && token == "--" { return Skip(false, false); }
    if options && token != "" && token[0] == '-' {
      if w.Command? && ('v' in token || 'V' in token) { return Fails(Suppressed); }
      var required, inlineValue := RequiredOptionValue(token, NameOf(w));
      if required && !inlineValue {
        if index + 1 >= |words| || (index + 2 == |words| && !atBoundary) { return Fails(WaitingForValue); }
        return Skip(true, options);
      }
      return Skip(false, options);
    }
    return Here;
  }

  /** `consume_wrapper`. */
  method ConsumeWrapper(words: seq<Word>, start: nat, w: Wrapper, atBoundary: bool, ghost ks: seq<Kind>)
      returns (result: WrapperResult)
    requires start <= |words| && AreKinds(ks, words)
    ensures result == ResultOf(Peel(LeadsOf(ks, w, atBoundary), |words|, start, true))
  {
    result := WrapperResult(0, false, false, false);
    ghost var leads := LeadsOf(ks, w, atBoundary);
    ghost var goal := Peel(leads, |words|, start, true);
    var index := start;
    var options := true;
    while index < |words|
      invariant start <= index
      invariant goal == Peel(leads, |words|, index, options)
    {
      PeelStep(leads, |words|, index, options);
      var lead := LeadAt(words, index, w, atBoundary, options, ks);
      match lead
      {
        case Here => return result.(next := index, foundCommand := true);
        case Fails(why) => return result.(waitingForValue := why.WaitingForValue?, suppressUnwrap := why.Suppressed?);
        case Skip(two, more) =>
          index := if two then index + 2 else index + 1;
          options := more;
      }
    }
  }

  predicate Flagged(words: seq<Word>) {
    forall k :: 0 <= k < |words| ==> words[k].assignment == IsAssignment(words[k].text)
  }

  method SkipAssignmentWords(words: seq<Word>, start: nat, ghost ks: seq<Kind>) returns (index: nat)
    requires start <= |words| && Flagged(words) && AreKinds(ks, words)
    ensures index == PastAssignments(ks, start)
  {
    index := start;
    while index < |words| && words[index].assignment
      invariant start <= index <= |words|
      invariant PastAssignments(ks, index) == PastAssignments(ks, start)
    {
      AssignmentFact(ks, words, index);
      index := index + 1;
    }
    if index < |words| { AssignmentFact(ks, words, index); }
  }

  method WrapperAt(words: seq<Word>, i: nat, ghost ks: seq<Kind>) returns (found: bool, w: Wrapper)
    requires AreKinds(ks, words) && i < |words|
    ensures found == ks[i].IsWrapper()
    ensures found ==> w == ks[i].Wrapper()
  {
    ClassifiesAt(ks, words, |words|, i);
    var word := words[i].text;
    found := IsWrapper(word);
    w := if word == "sudo" then Sudo else if word == "env" then Env else Command;
  }

  lemma UnwrapCommand(ks: seq<Kind>, atBoundary: bool, i: nat)
    requires i < |ks| && (!ks[i].IsWrapper() || (i + 1 == |ks| && !atBoundary))
    ensures Unwrap(NextsOf(ks, atBoundary), |ks|, i) == Found(i)
  {
  }

  /** A step of the search behind a wrapper; `p` is what follows its options. */
  lemma UnwrapWrapper(ks: seq<Kind>, atBoundary: bool, i: nat, p: Peeled)
    requires i < |ks| && ks[i].IsWrapper() && !(i + 1 == |ks| && !atBoundary)
    requires p == Peel(LeadsOf(ks, ks[i].Wrapper(), atBoundary), |ks|, i + 1, true)
    ensures p.Found? ==> i < p.at < |ks|
    ensures Unwrap(NextsOf(ks, atBoundary), |ks|, i) ==
      if p.Found? then Unwrap(NextsOf(ks, atBoundary), |ks|, PastAssignments(ks, p.at)) else p
  {
  }

  /** `resolve_effective_command`, up to the copying of the tokens. */
  method FindCommand(words: seq<Word>, atBoundary: bool, ghost ks: seq<Kind>) returns (p: Peeled)
    requires Flagged(words) && AreKinds(ks, words)
    ensures p == CommandAt(ks, atBoundary)
  {
    ghost var next := NextsOf(ks, atBoundary);
    ghost var goal := CommandAt(ks, atBoundary);
    var index := SkipAssignmentWords(words, 0, ks);
    while index < |words|
      invariant index <= |words|
      invariant goal == Unwrap(next, |words|, index)
      decreases |words| - index
    {
      var found, w := WrapperAt(words, index, ks);
      if !found || (index + 1 == |words| && !atBoundary) {
        UnwrapCommand(ks, atBoundary, index);
        return Found(index);
      }
      UnwrapWrapper(ks, atBoundary, index, Peel(LeadsOf(ks, w, atBoundary), |words|, index + 1, true));
      var wrapper := ConsumeWrapper(words, index + 1, w, atBoundary, ks);
      if wrapper.suppressUnwrap { return Suppressed; }
      if wrapper.waitingForValue { return WaitingForValue; }
      if !wrapper.foundCommand { return Nothing; }
      index := SkipAssignmentWords(words, wrapper.next, ks);
    }
    return Nothing;
  }

  method ResolveEffectiveCommand(words: seq<Word>, atBoundary: bool) returns (r: Outcome)
    requires Flagged(words)
    ensures r == Resolve(Texts(words), atBoundary)
  {
    KindsClassify(words, |words|);
    var p := FindCommand(words, atBoundary, Kinds(Texts(words)));
    match p
    case Suppressed => r := Outcome([], false, false);
    case WaitingForValue => r := Outcome([], false, true);
    case Nothing => r := Outcome([], words == [] || atBoundary, false);
    case Found(at) =>
      var tokens := TokensFrom(words, at);
      r := Outcome(tokens, at + 1 == |words| && !atBoundary, false);
  }

  method TokensFrom(words: seq<Word>, at: nat) returns (tokens: seq<string>)
    requires at <= |words|
    ensures tokens == Texts(words)[at..]
  {
    tokens := [];
    ghost var ts := Texts(words);
    for k := at to |words|
      invariant tokens == ts[at..k]
    {
      tokens := tokens + [words[k].text];
    }
    assert ts[at..|words|] == ts[at..];
  }

  // ---------------------------------------------------------------- the result is a suffix

  /** A command may start at `k`. */
  predicate IsHead(ks: seq<Kind>, k: nat, atBoundary: bool) {
    k < |ks| && !ks[k].assignment && (ks[k].IsWrapper() ==> k + 1 == |ks| && !atBoundary)
  }

  /** Every step onwards leads past the assignments. */
  lemma NextIsHead(ks: seq<Kind>, atBoundary: bool, i: nat)
    requires i < |ks| && !ks[i].assignment
    ensures var next := NextAt(ks, atBoundary, i);
      && (next.IsCommand? ==> IsHead(ks, i, atBoundary))
      && (next.GoesOn? ==> i < next.to <= |ks| && (next.to < |ks| ==> !ks[next.to].assignment))
      && (next.Ends? ==> !next.why.Found?)
  {
  }

  lemma {:induction false} UnwrapFindsHead(ks: seq<Kind>, i: nat, atBoundary: bool)
    requires i <= |ks| && (i < |ks| ==> !ks[i].assignment)
    ensures var r := Unwrap(NextsOf(ks, atBoundary), |ks|, i); r.Found? ==> IsHead(ks, r.at, atBoundary)
    decreases |ks| - i
  {
    if i < |ks| {
      NextIsHead(ks, atBoundary, i);
      var next := NextAt(ks, atBoundary, i);
      if next.GoesOn? { UnwrapFindsHead(ks, next.to, atBoundary); }
    }
  }

  /** The effective tokens, if any, are a suffix of the words. The first of them is not an
      assignment, and is a wrapper only while it is the last word and still being typed. */
  lemma EffectiveIsSuffix(ts: seq<string>, atBoundary: bool)
    ensures var e := Resolve(ts, atBoundary).effective;
      && |e| <= |ts| && e == ts[|ts| - |e|..]
      && (e != [] ==> !IsAssignment(e[0]) && (IsWrapper(e[0]) ==> |e| == 1 && !atBoundary))
  {
    CommandIsHead(ts, atBoundary);
    TailOutcome(ts, CommandAt(Kinds(ts), atBoundary), atBoundary);
  }

  lemma TailOutcome(ts: seq<string>, p: Peeled, atBoundary: bool)
    requires p.Found? ==> p.at < |ts|
    ensures var e := OutcomeOf(ts, p, atBoundary).effective;
      && |e| <= |ts| && e == ts[|ts| - |e|..]
      && (e != [] ==> p == Found(|ts| - |e|) && e[0] == ts[|ts| - |e|])
  {
  }

  lemma CommandIsHead(ts: seq<string>, atBoundary: bool)
    ensures var p := CommandAt(Kinds(ts), atBoundary); p.Found? ==>
      && !IsAssignment(ts[p.at]) && (IsWrapper(ts[p.at]) ==> p.at + 1 == |ts| && !atBoundary)
      && IsHead(Kinds(ts[p.at..]), 0, atBoundary)
  {
    var ks := Kinds(ts);
    UnwrapFindsHead(ks, PastAssignments(ks, 0), atBoundary);
    var p := CommandAt(ks, atBoundary);
    if p.Found? {
      HeadFacts(ts, p.at, atBoundary);
      HeadOfTail(ts, p.at, atBoundary);
    }
  }

  lemma KindAt(ts: seq<string>, k: nat)
    requires k < |ts|
    ensures Kinds(ts)[k].assignment == IsAssignment(ts[k]) && Kinds(ts)[k].IsWrapper() == IsWrapper(ts[k])
  {
    KindsAt(ts, k);
  }

  lemma HeadFacts(ts: seq<string>, k: nat, atBoundary: bool)
    requires k < |ts| && IsHead(Kinds(ts), k, atBoundary)
    ensures !IsAssignment(ts[k])
    ensures IsWrapper(ts[k]) ==> k + 1 == |ts| && !atBoundary
  {
    KindAt(ts, k);
  }

  lemma HeadOfTail(ts: seq<string>, k: nat, atBoundary: bool)
    requires IsHead(Kinds(ts), k, atBoundary)
    ensures IsHead(Kinds(ts[k..]), 0, atBoundary)
  {
    KindsAt(ts, k);
    KindsAt(ts[k..], 0);
    assert ts[k..][0] == ts[k];
  }

  lemma HeadIsCommand(ks: seq<Kind>, atBoundary: bool)
    requires IsHead(ks, 0, atBoundary)
    ensures CommandAt(ks, atBoundary) == Found(0)
  {
  }

  /** Peeling twice is peeling once. */
  lemma ResolveIdempotent(ts: seq<string>, atBoundary: bool)
    ensures var r := Resolve(ts, atBoundary); r.effective != [] ==> Resolve(r.effective, atBoundary) == r
  {
    CommandIsHead(ts, atBoundary);
    var p := CommandAt(Kinds(ts), atBoundary);
    if p.Found? {
      HeadIsCommand(Kinds(ts[p.at..]), atBoundary);
      assert ts[p.at..][0..] == ts[p.at..];
    }
  }

  // ---------------------------------------------------------------- transparency

  function Shifted(p: Peeled): Peeled {
    if p.Found? then Found(p.at + 1) else p
  }

  /** The word at `i + 1` of one list does what the word at `i` of the other does. */
  ghost predicate LeadsShift(after: Leads, before: Leads) {
    forall i: nat, options: bool :: after(i + 1, options) == before(i, options)
  }

  lemma {:induction false} PeelShifts(after: Leads, before: Leads, n: nat, i: nat, options: bool)
    requires LeadsShift(after, before)
    ensures Peel(after, n + 1, i + 1, options) == Shifted(Peel(before, n, i, options))
    decreases n - i
  {
    if i < n {
      var lead := before(i, options);
      assert after(i + 1, options) == lead;
      if lead.Skip? { PeelShifts(after, before, n, if lead.two then i + 2 else i + 1, lead.options); }
    }
  }

  lemma ConsShifts(head: Kind, ks: seq<Kind>, w: Wrapper, atBoundary: bool)
    ensures LeadsShift(LeadsOf([head] + ks, w, atBoundary), LeadsOf(ks, w, atBoundary))
  {
  }

  lemma {:induction false} PastShifts(head: Kind, ks: seq<Kind>, i: nat)
    requires i <= |ks|
    ensures PastAssignments([head] + ks, i + 1) == PastAssignments(ks, i) + 1
    decreases |ks| - i
  {
    if i < |ks| && ks[i].assignment { PastShifts(head, ks, i + 1); }
  }

  function ShiftedNext(next: Next): Next {
    if next.GoesOn? then GoesOn(next.to + 1) else next
  }

  lemma BehindShifts(head: Kind, ks: seq<Kind>, w: Wrapper, atBoundary: bool, i: nat)
    requires i <= |ks|
    ensures Peel(LeadsOf([head] + ks, w, atBoundary), |ks| + 1, i + 1, true)
        == Shifted(Peel(LeadsOf(ks, w, atBoundary), |ks|, i, true))
  {
    ConsShifts(head, ks, w, atBoundary);
    PeelShifts(LeadsOf([head] + ks, w, atBoundary), LeadsOf(ks, w, atBoundary), |ks|, i, true);
  }

  lemma NextShifts(head: Kind, ks: seq<Kind>, atBoundary: bool, i: nat)
    requires i < |ks|
    ensures NextAt([head] + ks, atBoundary, i + 1) == ShiftedNext(NextAt(ks, atBoundary, i))
  {
    var w := ks[i].Wrapper();
    BehindShifts(head, ks, w, atBoundary, i + 1);
    var p := Peel(LeadsOf(ks, w, atBoundary), |ks|, i + 1, true);
    if p.Found? { PastShifts(head, ks, p.at); }
    NextFromShifts(ks[i], i + 1 == |ks| && !atBoundary, p, if p.Found? then PastAssignments(ks, p.at) else 0);
  }

  lemma NextFromShifts(k: Kind, unfinished: bool, p: Peeled, past: nat)
    ensures NextFrom(k, unfinished, Shifted(p), if p.Found? then past + 1 else past)
        == ShiftedNext(NextFrom(k, unfinished, p, past))
  {
  }

  lemma {:induction false} UnwrapShifts(after: Nexts, before: Nexts, n: nat, i: nat)
    requires forall k: nat :: k < n ==> after(k + 1) == ShiftedNext(before(k))
    ensures Unwrap(after, n + 1, i + 1) == Shifted(Unwrap(before, n, i))
    decreases n - i
  {
    if i < n {
      var next := before(i);
      assert after(i + 1) == ShiftedNext(next);
      if next.GoesOn? && i < next.to { UnwrapShifts(after, before, n, next.to); }
    }
  }

  lemma ShiftedOutcome(head: string, ts: seq<string>, p: Peeled, atBoundary: bool)
    requires ts != [] && (p.Found? ==> p.at < |ts|)
    ensures OutcomeOf([head] + ts, Shifted(p), atBoundary) == OutcomeOf(ts, p, atBoundary)
  {
    if p.Found? { assert ([head] + ts)[p.at + 1..] == ts[p.at..]; }
  }

  lemma PeelHere(leads: Leads, n: nat, i: nat)
    requires i < n && leads(i, true) == Here
    ensures Peel(leads, n, i, true) == Found(i)
  {
  }

  lemma SkipsWrapper(head: Kind, ks: seq<Kind>, atBoundary: bool)
    requires head.IsWrapper() && ks != []
    requires !ks[0].option && !ks[0].endsOptions
    requires head.Wrapper().Env? ==> !ks[0].assignment
    ensures NextAt([head] + ks, atBoundary, 0) == GoesOn(PastAssignments(ks, 0) + 1)
  {
    var all, w := [head] + ks, head.Wrapper();
    assert all[0] == head && all[1] == ks[0];
    PeelHere(LeadsOf(all, w, atBoundary), |all|, 1);
    PastShifts(head, ks, 0);
  }

  lemma WrapperSkipped(head: Kind, ks: seq<Kind>, atBoundary: bool)
    requires head.IsWrapper() && !head.assignment && ks != []
    requires !ks[0].option && !ks[0].endsOptions
    requires head.Wrapper().Env? ==> !ks[0].assignment
    ensures CommandAt([head] + ks, atBoundary) == Shifted(CommandAt(ks, atBoundary))
  {
    var all := [head] + ks;
    SkipsWrapper(head, ks, atBoundary);
    assert all[0] == head && PastAssignments(all, 0) == 0;
    var after, before := NextsOf(all, atBoundary), NextsOf(ks, atBoundary);
    forall k: nat | k < |ks| ensures after(k + 1) == ShiftedNext(before(k)) { NextShifts(head, ks, atBoundary, k); }
    UnwrapShifts(after, before, |ks|, PastAssignments(ks, 0));
  }

  lemma KindsCons(head: string, ts: seq<string>)
    ensures Kinds([head] + ts) == [KindOf(head)] + Kinds(ts)
  {
    assert ([head] + ts)[1..] == ts;
  }

  /** A wrapper in front of a command that does not start with an option changes nothing:
      neither the effective tokens nor the flags. For `env` an assignment may not lead either,
      because options are still accepted after it. */
  lemma WrapperTransparent(wrapper: string, ts: seq<string>, atBoundary: bool)
    requires IsWrapper(wrapper) && ts != []
    requires ts[0] == "" || ts[0][0] != '-'
    requires wrapper == "env" ==> !IsAssignment(ts[0])
    ensures Resolve([wrapper] + ts, atBoundary) == Resolve(ts, atBoundary)
  {
    FindMisses(wrapper, '=', 0);
    KindsCons(wrapper, ts);
    KindsAt(ts, 0);
    WrapperSkipped(KindOf(wrapper), Kinds(ts), atBoundary);
    ShiftedOutcome(wrapper, ts, CommandAt(Kinds(ts), atBoundary), atBoundary);
  }

  // ---------------------------------------------------------------- the flags foretell the next word

  /** A word that is neither an assignment, nor an option, nor a wrapper. */
  predicate IsPlain(k: Kind) {
    !k.assignment && !k.option && !k.endsOptions && !k.IsWrapper()
  }

  function Typed(p: Peeled, n: nat): Peeled {
    if p.Nothing? then Found(n) else p
  }

  /** Up to position `n` the words do the same; at `n` the next word is the command. */
  ghost predicate LeadsTyped(after: Leads, before: Leads, n: nat) {
    (forall i: nat, options: bool :: i < n ==> after(i, options) == before(i, options)) &&
    (forall options: bool :: after(n, options) == Here)
  }

  lemma {:induction false} PeelTyped(after: Leads, before: Leads, n: nat, i: nat, options: bool)
    requires LeadsTyped(after, before, n) && i <= n
    requires forall k: nat, o: bool :: k < n && before(k, o).Skip? && before(k, o).two ==> k + 2 <= n
    requires forall k: nat, o: bool :: k < n && before(k, o).Fails? ==>
        !before(k, o).why.Nothing? && !before(k, o).why.Found?
    ensures Peel(after, n + 1, i, options) == Typed(Peel(before, n, i, options), n)
    decreases n - i
  {
    var lead := before(i, options);
    if i < n {
      assert after(i, options) == lead;
      if lead.Skip? { PeelTyped(after, before, n, if lead.two then i + 2 else i + 1, lead.options); }
    } else {
      assert after(n, options) == Here;
    }
  }

  lemma SnocTyped(ks: seq<Kind>, next: Kind, w: Wrapper)
    requires IsPlain(next)
    ensures LeadsTyped(LeadsOf(ks + [next], w, false), LeadsOf(ks, w, true), |ks|)
  {
  }

  lemma {:induction false} PastTyped(ks: seq<Kind>, i: nat, next: Kind)
    requires IsPlain(next) && i <= |ks|
    ensures PastAssignments(ks + [next], i) == PastAssignments(ks, i)
    decreases |ks| - i
  {
    if i < |ks| && ks[i].assignment { PastTyped(ks, i + 1, next); }
  }

  function TypedNext(next: Next, n: nat): Next {
    if next.Ends? && next.why.Nothing? then GoesOn(n) else next
  }

  lemma NextTyped(ks: seq<Kind>, next: Kind, i: nat)
    requires IsPlain(next) && i < |ks|
    ensures NextAt(ks + [next], false, i) == TypedNext(NextAt(ks, true, i), |ks|)
  {
    var w := ks[i].Wrapper();
    var leads := LeadsOf(ks, w, true);
    SnocTyped(ks, next, w);
    PeelTyped(LeadsOf(ks + [next], w, false), leads, |ks|, i + 1, true);
    var p := Peel(leads, |ks|, i + 1, true);
    PastTyped(ks, if p.Found? then p.at else |ks|, next);
  }

  lemma {:induction false} UnwrapTyped(after: Nexts, before: Nexts, n: nat, i: nat)
    requires i <= n && after(n) == IsCommand
    requires forall k: nat :: k < n ==> after(k) == TypedNext(before(k), n)
    requires forall k: nat :: k < n ==>
        (before(k).GoesOn? ==> k < before(k).to <= n) && (before(k).Ends? ==> !before(k).why.Found?)
    ensures Unwrap(after, n + 1, i) == Typed(Unwrap(before, n, i), n)
    decreases n - i
  {
    if i < n {
      var next := before(i);
      assert after(i) == TypedNext(next, n);
      if next.GoesOn? { UnwrapTyped(after, before, n, next.to); }
    }
  }

  lemma CommandTyped(ks: seq<Kind>, next: Kind)
    requires IsPlain(next)
    ensures CommandAt(ks + [next], false) == Typed(CommandAt(ks, true), |ks|)
  {
    var after, before := NextsOf(ks + [next], false), NextsOf(ks, true);
    forall k: nat | k < |ks|
      ensures after(k) == TypedNext(before(k), |ks|)
      ensures (before(k).GoesOn? ==> k < before(k).to <= |ks|) && (before(k).Ends? ==> !before(k).why.Found?)
    {
      NextTyped(ks, next, k);
      NextAdvances(ks, k);
    }
    PastTyped(ks, 0, next);
    UnwrapTyped(after, before, |ks|, PastAssignments(ks, 0));
  }

  lemma NextAdvances(ks: seq<Kind>, k: nat)
    requires k < |ks|
    ensures var next := NextAt(ks, true, k); (next.GoesOn? ==> k < next.to <= |ks|) && (next.Ends? ==> !next.why.Found?)
  {
  }

  lemma {:induction false} KindsSnoc(ts: seq<string>, w: string)
    ensures Kinds(ts + [w]) == Kinds(ts) + [KindOf(w)]
  {
    if ts == [] {
      NoneBefore([w]);
      NoneBefore([KindOf(w)]);
      assert [w][1..] == [];
    } else {
      KindsSnoc(ts[1..], w);
      assert (ts + [w])[1..] == ts[1..] + [w] && (ts + [w])[0] == ts[0];
      Assoc([KindOf(ts[0])], Kinds(ts[1..]), [KindOf(w)]);
    }
  }

  /** The outcome while the next word is being typed, from the outcome before it. */
  function AfterTyping(r: Outcome, w: string): Outcome {
    if r.inCommandPosition then Outcome([w], true, false)
    else if r.effective == [] then Outcome([], false, r.inOptionValue)
    else Outcome(r.effective + [w], false, false)
  }

  lemma TypedOutcome(ts: seq<string>, p: Peeled, w: string)
    requires p.Found? ==> p.at < |ts|
    ensures var after, before := OutcomeOf(ts + [w], Typed(p, |ts|), false), OutcomeOf(ts, p, true);
      && after == AfterTyping(before, w)
      && (after.effective == [w] <==> before.inCommandPosition)
      && (after.inOptionValue <==> before.inOptionValue)
  {
    if p.Found? {
      assert (ts + [w])[p.at..] == ts[p.at..] + [w];
    } else if p.Nothing? {
      assert (ts + [w])[|ts|..] == [w];
    }
  }

  /** At a word boundary the flags say what the next plain word will be: the command itself if
      and only if the cursor is in command position, the value of a wrapper's option if and
      only if the option flag is set, and otherwise one more token of the same command. */
  lemma FlagsForetellNextWord(ts: seq<string>, w: string)
    requires !IsAssignment(w) && (w == "" || w[0] != '-') && !IsWrapper(w)
    ensures Resolve(ts + [w], false) == AfterTyping(Resolve(ts, true), w)
    ensures Resolve(ts + [w], false).effective == [w] <==> Resolve(ts, true).inCommandPosition
    ensures Resolve(ts + [w], false).inOptionValue <==> Resolve(ts, true).inOptionValue
  {
    KindsSnoc(ts, w);
    CommandTyped(Kinds(ts), KindOf(w));
    TypedOutcome(ts, CommandAt(Kinds(ts), true), w);
  }

  // ---------------------------------------------------------------- the whole context

  datatype Context = Context(
    cursor: nat,
    segmentStart: nat,
    segmentPrefix: string,
    words: seq<Word>,
    effectiveTokens: seq<string>,
    currentPrefix: string,
    currentRawPrefix: string,
    atWordBoundary: bool,
    inCommandPosition: bool,
    inWrapperOptionValue: bool,
    inAssignmentLhs: bool,
    beforeExistingWord: bool)

  function CursorIn(input: string, cursor: int): (c: nat)
    ensures c <= |input|
  {
    if cursor == NPOS || cursor > |input| || cursor < 0 then |input| else cursor
  }

  function ContextOf(t: Segment, at: nat, prefix: string, inLhs: bool, beforeExistingWord: bool): Context {
    var r := Resolve(Texts(t.words), t.atBoundary);
    var typing := !t.atBoundary && t.words != [];
    Context(at, t.start, prefix, t.words, r.effective,
            if typing then t.words[|t.words| - 1].text else "", if typing then t.words[|t.words| - 1].raw else "",
            t.atBoundary, r.inCommandPosition, r.inOptionValue, inLhs, beforeExistingWord)
  }

  function SegmentPrefix(input: string, t: Segment): string {
    if t.start <= |input| then input[t.start..] else ""
  }

  predicate BeforeWord(input: string, at: nat, atBoundary: bool) {
    atBoundary && at < |input| && !IsControlOperator(input[at]) && !IsSpace(input[at])
  }

  function Parsed(input: string, cursor: int): Context {
    var at := CursorIn(input, cursor);
    var t := Tokens(input[..at]);
    ContextOf(t, at, SegmentPrefix(input[..at], t), InLhs(input, at, t), BeforeWord(input, at, t.atBoundary))
  }

  /** The context in terms of the line: a cursor out of range stands at its end; what is known of
      the text before the cursor is that of its words, and the text after the cursor matters for
      the assignment and for the word before which the cursor may stand. */
  lemma ContextMeans(input: string, cursor: int)
    ensures var c := Parsed(input, cursor);
      var at := if 0 <= cursor <= |input| then cursor else |input|;
      var t := Tokens(input[..at]);
      var n := |t.words|;
      && c.cursor == at && c.words == t.words && c.atWordBoundary == t.atBoundary
      && c.segmentStart == t.start <= at && c.segmentPrefix == input[t.start..at]
      && (t.atBoundary || n == 0 ==> c.currentPrefix == "" && c.currentRawPrefix == "")
      && (!t.atBoundary && n > 0 ==>
          && t.words[n - 1].begin <= at && c.currentPrefix == t.words[n - 1].text
          && c.currentRawPrefix == input[t.words[n - 1].begin..at])
      && c.effectiveTokens == Resolve(Texts(t.words), t.atBoundary).effective
      && c.inCommandPosition == Resolve(Texts(t.words), t.atBoundary).inCommandPosition
      && c.inWrapperOptionValue == Resolve(Texts(t.words), t.atBoundary).inOptionValue
      && (c.inAssignmentLhs <==> exists e: nat :: LhsAround(input, at, t, e))
      && (c.beforeExistingWord <==>
          t.atBoundary && at < |input| && input[at] !in "|&;\n\r" && !IsSpace(input[at]))
  {
    var at := CursorIn(input, cursor);
    var t := Tokens(input[..at]);
    SegmentFacts(input[..at]);
    assert input[..at][t.start..] == input[t.start..at];
    CursorWord(input, at);
    InLhsIff(input, at);
    if at < |input| { OperatorIs(input[at]); }
  }

  /** What the method that resolves the command needs of the words, and where they start. */
  lemma SegmentFacts(input: string)
    ensures Tokens(input).start <= |input| && Flagged(Tokens(input).words)
  {
    Restartable(input);
    WordsStandAlone(input);
  }

  method ContextFor(segment: Segment, at: nat, segmentPrefix: string, inLhs: bool, beforeExistingWord: bool)
      returns (context: Context)
    requires Flagged(segment.words)
    ensures context == ContextOf(segment, at, segmentPrefix, inLhs, beforeExistingWord)
  {
    var currentPrefix, currentRawPrefix := "", "";
    if !segment.atBoundary && segment.words != [] {
      currentPrefix := segment.words[|segment.words| - 1].text;
      currentRawPrefix := segment.words[|segment.words| - 1].raw;
    }
    var r := ResolveEffectiveCommand(segment.words, segment.atBoundary);
    context := Context(at, segment.start, segmentPrefix, segment.words, r.effective, currentPrefix, currentRawPrefix,
                       segment.atBoundary, r.inCommandPosition, r.inOptionValue, inLhs, beforeExistingWord);
  }

  lemma PrefixIs(input: string, at: nat, start: nat)
    requires start <= at <= |input|
    ensures input[start..][..at - start] == input[..at][start..]
  {
  }

  lemma ParsedIs(input: string, cursor: int, at: nat, t: Segment, prefix: string)
    requires at == CursorIn(input, cursor) && t == Tokens(input[..at]) && prefix == SegmentPrefix(input[..at], t)
    ensures Parsed(input, cursor)
         == ContextOf(t, at, prefix, InLhs(input, at, t), BeforeWord(input, at, t.atBoundary))
  {
  }

  /** `parse`. */
  method Parse(input: string, cursor: int) returns (context: Context)
    ensures context == Parsed(input, cursor)
  {
    var at := if cursor == NPOS || cursor < 0 then |input| else if cursor < |input| then cursor else |input|;
    var segment := TokenizeActiveSegment(input, at);
    SegmentFacts(input[..at]);
    PrefixIs(input, at, segment.start);
    var segmentPrefix := input[segment.start..][..at - segment.start];
    ParsedIs(input, cursor, at, segment, segmentPrefix);
    var inLhs := CursorIsInAssignmentLhs(input, at, segment);
    context := ContextFor(segment, at, segmentPrefix, inLhs, BeforeWord(input, at, segment.atBoundary));
  }

  lemma SameTexts(words: seq<Word>, again: seq<Word>, d: nat)
    requires words == AllLater(again, d)
    ensures Texts(words) == Texts(again)
    ensures |words| == |again| && forall k :: 0 <= k < |words| ==>
        words[k].raw == again[k].raw && words[k].text == again[k].text
  {
  }

  lemma ContextMoves(t: Segment, again: Segment, at: nat, prefix: string, inLhs: bool, before: bool)
    requires t.start <= at && again.start == 0 && again.atBoundary == t.atBoundary
        && t.words == AllLater(again.words, t.start)
    ensures ContextOf(again, at - t.start, prefix, false, false)
         == ContextOf(t, at, prefix, inLhs, before).(cursor := at - t.start, segmentStart := 0, words := again.words,
             inAssignmentLhs := false, beforeExistingWord := false)
  {
    SameTexts(t.words, again.words, t.start);
  }

  /** Parsing the segment alone gives the same context, moved to the segment's start. The two
      flags about the text after the cursor are gone with that text. */
  lemma ParseRestartable(input: string, cursor: int)
    ensures var c := Parsed(input, cursor); var again := Parsed(c.segmentPrefix, NPOS);
      && c.segmentStart <= c.cursor
      && again == c.(cursor := c.cursor - c.segmentStart, segmentStart := 0, words := again.words,
          inAssignmentLhs := false, beforeExistingWord := false)
      && c.words == AllLater(again.words, c.segmentStart)
  {
    var at := CursorIn(input, cursor);
    Restartable(input[..at]);
    var t := Tokens(input[..at]);
    var prefix := SegmentPrefix(input[..at], t);
    ContextMoves(t, Tokens(prefix), at, prefix, InLhs(input, at, t), BeforeWord(input, at, t.atBoundary));
    ParsedToEnd(prefix);
  }

  lemma ParsedToEnd(input: string)
    ensures Parsed(input, NPOS)
         == ContextOf(Tokens(input), |input|, SegmentPrefix(input, Tokens(input)), false, false)
    ensures Tokens(input).start == 0 ==> SegmentPrefix(input, Tokens(input)) == input
  {
    assert input[..|input|] == input;
  }
}

/** What each word in front of a command does, as laws about whole token lists: together they say
    for every list what the command is. */
module WrapperLaws {
  import opened Text
  import opened Sequences
  import opened Tokenizer
  import opened Wrappers

  // ---------------------------------------------------------------- the simplest lists

  lemma KindsOne(t: string)
    ensures Kinds([t]) == [KindOf(t)]
  {
    assert [t][1..] == [];
  }

  /** A word that is neither an assignment nor a wrapper is the command, and nothing is taken away
      from it. */
  lemma PlainCommand(c: string, ts: seq<string>, atBoundary: bool)
    requires !IsAssignment(c) && c != "sudo" && c != "env" && c != "command"
    ensures Resolve([c] + ts, atBoundary) == Outcome([c] + ts, ts == [] && !atBoundary, false)
  {
    KindsCons(c, ts);
    var ks := [KindOf(c)] + Kinds(ts);
    assert ks[0] == KindOf(c);
    UnwrapCommand(ks, atBoundary, 0);
    assert ([c] + ts)[0..] == [c] + ts;
  }

  /** Nothing typed, and a single assignment. */
  lemma NoCommand(a: string, atBoundary: bool)
    requires IsAssignment(a)
    ensures Resolve([], atBoundary) == Outcome([], true, false)
    ensures Resolve([a], atBoundary) == Outcome([], atBoundary, false)
  {
    KindsOne(a);
  }

  /** A wrapper alone: while it is being typed it is the command itself. */
  lemma WrapperAlone(w: string, atBoundary: bool)
    requires w == "sudo" || w == "env" || w == "command"
    ensures Resolve([w], atBoundary) == Outcome(if atBoundary then [] else [w], true, false)
  {
    FindMisses(w, '=', 0);
    KindsOne(w);
    var ks := [KindOf(w)];
    assert [w][0..] == [w];
    if atBoundary { UnwrapWrapper(ks, atBoundary, 0, Nothing); } else { UnwrapCommand(ks, atBoundary, 0); }
  }

  // ---------------------------------------------------------------- lists with a common end

  function ShiftedBy(p: Peeled, d: nat): Peeled {
    if p.Found? then Found(p.at + d) else p
  }

  lemma {:induction false} PeelBehind(pre: seq<Kind>, ks: seq<Kind>, w: Wrapper, atBoundary: bool, options: bool)
    ensures Peel(LeadsOf(pre + ks, w, atBoundary), |pre| + |ks|, |pre|, options)
         == ShiftedBy(Peel(LeadsOf(ks, w, atBoundary), |ks|, 0, options), |pre|)
    decreases |pre|
  {
    if pre == [] {
      NoneBefore(ks);
    } else {
      var rest := pre[1..];
      PeelBehind(rest, ks, w, atBoundary, options);
      ConsShifts(pre[0], rest + ks, w, atBoundary);
      PeelShifts(LeadsOf([pre[0]] + (rest + ks), w, atBoundary), LeadsOf(rest + ks, w, atBoundary), |rest| + |ks|,
          |rest|, options);
      assert pre + ks == [pre[0]] + (rest + ks);
    }
  }

  lemma {:induction false} PastBehind(pre: seq<Kind>, ks: seq<Kind>, i: nat)
    requires i <= |ks|
    ensures PastAssignments(pre + ks, |pre| + i) == PastAssignments(ks, i) + |pre|
    decreases |pre|
  {
    if pre == [] {
      NoneBefore(ks);
    } else {
      PastBehind(pre[1..], ks, i);
      PastShifts(pre[0], pre[1..] + ks, |pre[1..]| + i);
      assert pre + ks == [pre[0]] + (pre[1..] + ks);
    }
  }

  function MovedNext(next: Next, d: nat): Next {
    if next.GoesOn? then GoesOn(next.to + d) else next
  }

  lemma {:induction false} NextBehind(pre: seq<Kind>, ks: seq<Kind>, atBoundary: bool, k: nat)
    requires k < |ks|
    ensures NextAt(pre + ks, atBoundary, |pre| + k) == MovedNext(NextAt(ks, atBoundary, k), |pre|)
    decreases |pre|
  {
    if pre == [] {
      NoneBefore(ks);
    } else {
      var rest := pre[1..] + ks;
      NextBehind(pre[1..], ks, atBoundary, k);
      NextShifts(pre[0], rest, atBoundary, |pre| - 1 + k);
      assert pre + ks == [pre[0]] + rest;
    }
  }

  /** How the search goes on after the word at `i`, when `rest` is what it finds from there. */
  function Continued(next: Next, i: nat, rest: Peeled): Peeled {
    match next
    case IsCommand => Found(i)
    case Ends(why) => if why.Found? then Nothing else why
    case GoesOn(to) => if i < to then rest else Nothing
  }

  lemma UnwrapIs(ks: seq<Kind>, atBoundary: bool, i: nat, next: Next, rest: Peeled)
    requires i < |ks| && next == NextAt(ks, atBoundary, i)
    requires next.GoesOn? && i < next.to ==> rest == Unwrap(NextsOf(ks, atBoundary), |ks|, next.to)
    ensures Unwrap(NextsOf(ks, atBoundary), |ks|, i) == Continued(next, i, rest)
  {
  }

  lemma ContinuedMoves(next: Next, i: nat, rest: Peeled, d: nat)
    ensures Continued(MovedNext(next, d), i + d, ShiftedBy(rest, d)) == ShiftedBy(Continued(next, i, rest), d)
  {
  }

  /** One step of both searches. */
  lemma UnwrapBoth(all: seq<Kind>, pre: seq<Kind>, ks: seq<Kind>, atBoundary: bool, i: nat, next: Next, rest: Peeled)
    requires all == pre + ks && i < |ks| && next == NextAt(ks, atBoundary, i)
    requires next.GoesOn? && i < next.to ==>
      && rest == Unwrap(NextsOf(ks, atBoundary), |ks|, next.to)
      && ShiftedBy(rest, |pre|) == Unwrap(NextsOf(all, atBoundary), |all|, next.to + |pre|)
    ensures Unwrap(NextsOf(all, atBoundary), |all|, i + |pre|)
         == ShiftedBy(Unwrap(NextsOf(ks, atBoundary), |ks|, i), |pre|)
  {
    NextBehind(pre, ks, atBoundary, i);
    UnwrapIs(ks, atBoundary, i, next, rest);
    UnwrapIs(all, atBoundary, i + |pre|, MovedNext(next, |pre|), ShiftedBy(rest, |pre|));
    ContinuedMoves(next, i, rest, |pre|);
  }

  lemma {:induction false} UnwrapBehind(all: seq<Kind>, pre: seq<Kind>, ks: seq<Kind>, atBoundary: bool, i: nat,
      p: Peeled)
    requires all == pre + ks && p == Unwrap(NextsOf(ks, atBoundary), |ks|, i)
    ensures Unwrap(NextsOf(all, atBoundary), |all|, i + |pre|) == ShiftedBy(p, |pre|)
    decreases |ks| - i
  {
    if i < |ks| {
      var next, rest := NextAt(ks, atBoundary, i), Nothing;
      if next.GoesOn? && i < next.to {
        rest := Unwrap(NextsOf(ks, atBoundary), |ks|, next.to);
        UnwrapBehind(all, pre, ks, atBoundary, next.to, rest);
      }
      UnwrapBoth(all, pre, ks, atBoundary, i, next, rest);
    }
  }

  /** Where the command is among the words behind a wrapper. */
  function Behind(ks: seq<Kind>, w: Wrapper, atBoundary: bool, options: bool): (r: Peeled)
    ensures r.Found? ==> r.at < |ks|
  {
    var p := Peel(LeadsOf(ks, w, atBoundary), |ks|, 0, options);
    if p.Found? then Unwrap(NextsOf(ks, atBoundary), |ks|, PastAssignments(ks, p.at)) else p
  }

  lemma FirstNext(all: seq<Kind>, w: Wrapper, atBoundary: bool, p: Peeled, r: Peeled)
    requires |all| > 1 && all[0].IsWrapper() && !all[0].assignment && w == all[0].Wrapper()
    requires p == Peel(LeadsOf(all, w, atBoundary), |all|, 1, true)
    requires p.Found? ==> r == Unwrap(NextsOf(all, atBoundary), |all|, PastAssignments(all, p.at))
    ensures CommandAt(all, atBoundary) == if p.Found? then r else p
  {
    UnwrapWrapper(all, atBoundary, 0, p);
  }

  lemma FoundBehind(all: seq<Kind>, pre: seq<Kind>, ks: seq<Kind>, atBoundary: bool, at: nat, i: nat, r: Peeled)
    requires all == pre + ks && at < |ks| && i == PastAssignments(ks, at)
    requires r == Unwrap(NextsOf(ks, atBoundary), |ks|, i)
    ensures at + |pre| < |all|
    ensures Unwrap(NextsOf(all, atBoundary), |all|, PastAssignments(all, at + |pre|)) == ShiftedBy(r, |pre|)
  {
    PastBehind(pre, ks, at);
    UnwrapBehind(all, pre, ks, atBoundary, i, r);
  }

  lemma CommandFound(all: seq<Kind>, pre: seq<Kind>, ks: seq<Kind>, w: Wrapper, atBoundary: bool, p: Peeled, q: Peeled,
      r: Peeled)
    requires all == pre + ks && |all| > 1 && p == ShiftedBy(q, |pre|) && (q.Found? ==> q.at < |ks|)
    requires all[0].IsWrapper() && !all[0].assignment && w == all[0].Wrapper()
    requires p == Peel(LeadsOf(all, w, atBoundary), |all|, 1, true)
    requires if q.Found? then r == Unwrap(NextsOf(ks, atBoundary), |ks|, PastAssignments(ks, q.at)) else r == q
    ensures CommandAt(all, atBoundary) == ShiftedBy(r, |pre|)
  {
    if q.Found? { FoundBehind(all, pre, ks, atBoundary, q.at, PastAssignments(ks, q.at), r); }
    FirstNext(all, w, atBoundary, p, ShiftedBy(r, |pre|));
  }

  /** A wrapper whose options reach to the end of `pre`. */
  lemma CommandBehind(all: seq<Kind>, pre: seq<Kind>, ks: seq<Kind>, w: Wrapper, atBoundary: bool, options: bool)
    requires all == pre + ks && pre != [] && ks != []
    requires all[0].IsWrapper() && !all[0].assignment && w == all[0].Wrapper()
    requires var leads := LeadsOf(all, w, atBoundary); Peel(leads, |all|, 1, true) == Peel(leads, |all|, |pre|, options)
    ensures CommandAt(all, atBoundary) == ShiftedBy(Behind(ks, w, atBoundary, options), |pre|)
  {
    PeelBehind(pre, ks, w, atBoundary, options);
    CommandFound(all, pre, ks, w, atBoundary, Peel(LeadsOf(all, w, atBoundary), |all|, 1, true),
        Peel(LeadsOf(ks, w, atBoundary), |ks|, 0, options), Behind(ks, w, atBoundary, options));
  }

  lemma {:induction false} KindsAppend(a: seq<string>, b: seq<string>)
    ensures Kinds(a + b) == Kinds(a) + Kinds(b)
    decreases |a|
  {
    if a == [] {
      NoneBefore(b);
      NoneBefore(Kinds(b));
    } else {
      KindsAppend(a[1..], b);
      assert a + b == [a[0]] + (a[1..] + b);
      KindsCons(a[0], a[1..] + b);
      Assoc([KindOf(a[0])], Kinds(a[1..]), Kinds(b));
    }
  }

  lemma OutcomeBehind(pre: seq<string>, ts: seq<string>, p: Peeled, atBoundary: bool)
    requires ts != [] && (p.Found? ==> p.at < |ts|)
    ensures OutcomeOf(pre + ts, ShiftedBy(p, |pre|), atBoundary) == OutcomeOf(ts, p, atBoundary)
  {
    if p.Found? { assert (pre + ts)[|pre| + p.at..] == ts[p.at..]; }
  }

  /** What a wrapper and options of it in front of `ts` come to. */
  function ResolveBehind(ts: seq<string>, w: Wrapper, atBoundary: bool, options: bool): Outcome {
    OutcomeOf(ts, Behind(Kinds(ts), w, atBoundary, options), atBoundary)
  }

  predicate IsWrapperName(w: string) {
    w == "sudo" || w == "env" || w == "command"
  }

  function WrapperOf(w: string): Wrapper {
    if w == "sudo" then Sudo else if w == "env" then Env else Command
  }

  lemma FirstIsWrapper(pre: seq<string>)
    requires pre != [] && IsWrapperName(pre[0])
    ensures var k := Kinds(pre)[0]; k.IsWrapper() && !k.assignment && k.Wrapper() == WrapperOf(pre[0])
  {
    FindMisses(pre[0], '=', 0);
    KindsAt(pre, 0);
  }

  /** The words between a wrapper and `ts` are passed over. */
  lemma ResolvesBehind(pre: seq<string>, ts: seq<string>, all: seq<Kind>, w: Wrapper, atBoundary: bool, options: bool)
    requires pre != [] && IsWrapperName(pre[0]) && w == WrapperOf(pre[0]) && ts != []
    requires all == Kinds(pre) + Kinds(ts)
    requires var leads := LeadsOf(all, w, atBoundary); Peel(leads, |all|, 1, true) == Peel(leads, |all|, |pre|, options)
    ensures Resolve(pre + ts, atBoundary) == ResolveBehind(ts, w, atBoundary, options)
  {
    FirstIsWrapper(pre);
    KindsAppend(pre, ts);
    CommandBehind(all, Kinds(pre), Kinds(ts), w, atBoundary, options);
    OutcomeBehind(pre, ts, Behind(Kinds(ts), w, atBoundary, options), atBoundary);
  }

  // ---------------------------------------------------------------- options of a wrapper

  predicate IsDashed(o: string) {
    |o| > 0 && o[0] == '-' && o != "--"
  }

  lemma DashedFacts(o: string)
    requires o != "" && o[0] == '-'
    ensures !IsAssignment(o)
  {
  }

  lemma ValueOptionsDashed(w: string, o: string)
    requires NeedsNextWord(w, o)
    ensures IsDashed(o)
  {
    if o in LongOptions(w) { LongHasDashes(w, o); }
  }

  /** How peeling goes on after its first word. */
  function AfterLead(leads: Leads, n: nat, lead: Lead): Peeled {
    match lead
    case Here => Found(1)
    case Fails(why) => if why.Found? then Nothing else why
    case Skip(two, more) => Peel(leads, n, if two then 3 else 2, more)
  }

  /** The second word of a list, as the wrapper in front of it sees it. */
  lemma SecondWord(all: seq<Kind>, pre: seq<string>, ts: seq<string>, w: Wrapper, atBoundary: bool)
    requires all == Kinds(pre) + Kinds(ts) && |pre| >= 2
    ensures |all| == |pre| + |ts| && all[1] == KindOf(pre[1])
    ensures Peel(LeadsOf(all, w, atBoundary), |all|, 1, true)
         == AfterLead(LeadsOf(all, w, atBoundary), |all|, Leading(all, w, atBoundary, 1, true))
  {
    KindsAt(pre, 1);
    PeelStep(LeadsOf(all, w, atBoundary), |all|, 1, true);
  }

  lemma WrapperBefore(w: string, ts: seq<string>, atBoundary: bool)
    requires IsWrapperName(w) && ts != []
    ensures Resolve([w] + ts, atBoundary) == ResolveBehind(ts, WrapperOf(w), atBoundary, true)
  {
    ResolvesBehind([w], ts, Kinds([w]) + Kinds(ts), WrapperOf(w), atBoundary, true);
  }

  lemma TakesNextIs(w: string, o: string)
    requires IsWrapperName(w)
    ensures KindOf(o).TakesNext(WrapperOf(w)) == NeedsNextWord(w, o)
  {
  }

  /** An option that takes the next word as its value goes with it: the command is what it is
      without both. */
  lemma OptionWithValue(w: string, o: string, v: string, ts: seq<string>, atBoundary: bool)
    requires IsWrapperName(w) && NeedsNextWord(w, o) && ts != []
    ensures Resolve([w, o, v] + ts, atBoundary) == Resolve([w] + ts, atBoundary)
  {
    var pre, all := [w, o, v], Kinds([w, o, v]) + Kinds(ts);
    ValueOptionsDashed(w, o);
    DashedFacts(o);
    TakesNextIs(w, o);
    SecondWord(all, pre, ts, WrapperOf(w), atBoundary);
    ResolvesBehind(pre, ts, all, WrapperOf(w), atBoundary, true);
    WrapperBefore(w, ts, atBoundary);
  }

  /** Any other option goes alone, unless `command` is asked to describe something. */
  lemma OptionAlone(w: string, o: string, ts: seq<string>, atBoundary: bool)
    requires IsWrapperName(w) && IsDashed(o) && !NeedsNextWord(w, o) && ts != []
    requires w == "command" ==> 'v' !in o && 'V' !in o
    ensures Resolve([w, o] + ts, atBoundary) == Resolve([w] + ts, atBoundary)
  {
    var pre, all := [w, o], Kinds([w, o]) + Kinds(ts);
    DashedFacts(o);
    TakesNextIs(w, o);
    SecondWord(all, pre, ts, WrapperOf(w), atBoundary);
    ResolvesBehind(pre, ts, all, WrapperOf(w), atBoundary, true);
    WrapperBefore(w, ts, atBoundary);
  }

  /** `env` takes assignments too. */
  lemma EnvAssignment(a: string, ts: seq<string>, atBoundary: bool)
    requires IsAssignment(a) && ts != []
    ensures Resolve(["env", a] + ts, atBoundary) == Resolve(["env"] + ts, atBoundary)
  {
    var pre, all := ["env", a], Kinds(["env", a]) + Kinds(ts);
    SecondWord(all, pre, ts, Env, atBoundary);
    ResolvesBehind(pre, ts, all, Env, atBoundary, true);
    WrapperBefore("env", ts, atBoundary);
  }

  lemma {:induction false} PeelWithoutOptions(ks: seq<Kind>, w: Wrapper, atBoundary: bool, i: nat)
    requires i <= |ks|
    ensures var at := if w.Env? then PastAssignments(ks, i) else i;
      Peel(LeadsOf(ks, w, atBoundary), |ks|, i, false) == if at < |ks| then Found(at) else Nothing
    decreases |ks| - i
  {
    if i < |ks| && w.Env? && ks[i].assignment { PeelWithoutOptions(ks, w, atBoundary, i + 1); }
  }

  lemma {:induction false} PastIsPast(ks: seq<Kind>, i: nat)
    requires i <= |ks|
    ensures PastAssignments(ks, PastAssignments(ks, i)) == PastAssignments(ks, i)
    decreases |ks| - i
  {
    if i < |ks| && ks[i].assignment { PastIsPast(ks, i + 1); }
  }

  lemma BehindWithoutOptions(ks: seq<Kind>, w: Wrapper, atBoundary: bool)
    requires ks != []
    ensures Behind(ks, w, atBoundary, false) == CommandAt(ks, atBoundary)
  {
    PeelWithoutOptions(ks, w, atBoundary, 0);
    PastIsPast(ks, 0);
  }

  /** After `--` no word is an option any more: the command is that of the words behind it. */
  lemma DoubleDash(w: string, ts: seq<string>, atBoundary: bool)
    requires IsWrapperName(w) && ts != []
    ensures Resolve([w, "--"] + ts, atBoundary) == Resolve(ts, atBoundary)
  {
    var pre, all := [w, "--"], Kinds([w, "--"]) + Kinds(ts);
    DashedFacts("--");
    SecondWord(all, pre, ts, WrapperOf(w), atBoundary);
    ResolvesBehind(pre, ts, all, WrapperOf(w), atBoundary, false);
    BehindWithoutOptions(Kinds(ts), WrapperOf(w), atBoundary);
  }

  lemma CommandAfter(ks: seq<Kind>, k: Kind, atBoundary: bool)
    requires k.assignment
    ensures CommandAt([k] + ks, atBoundary) == ShiftedBy(CommandAt(ks, atBoundary), 1)
  {
    PastShifts(k, ks, 0);
    UnwrapBehind([k] + ks, [k], ks, atBoundary, PastAssignments(ks, 0), CommandAt(ks, atBoundary));
  }

  /** Assignments in front of a command do not belong to it. */
  lemma LeadingAssignment(a: string, ts: seq<string>, atBoundary: bool)
    requires IsAssignment(a) && ts != []
    ensures Resolve([a] + ts, atBoundary) == Resolve(ts, atBoundary)
  {
    KindsCons(a, ts);
    CommandAfter(Kinds(ts), KindOf(a), atBoundary);
    OutcomeBehind([a], ts, CommandAt(Kinds(ts), atBoundary), atBoundary);
  }

  // ---------------------------------------------------------------- lists without a command

  lemma Stops(w: string, pre: seq<string>, ts: seq<string>, all: seq<Kind>, atBoundary: bool, why: Peeled)
    requires IsWrapperName(w) && |pre| >= 2 && pre[0] == w && all == Kinds(pre) + Kinds(ts) && !why.Found?
    requires Peel(LeadsOf(all, WrapperOf(w), atBoundary), |all|, 1, true) == why
    ensures Resolve(pre + ts, atBoundary) == OutcomeOf(pre + ts, why, atBoundary)
  {
    FirstIsWrapper(pre);
    KindsAppend(pre, ts);
    FirstNext(all, WrapperOf(w), atBoundary, why, why);
  }

  /** `command` with an option that holds a `v` or `V` only describes, and completes nothing. */
  lemma Describes(o: string, ts: seq<string>, atBoundary: bool)
    requires IsDashed(o) && ('v' in o || 'V' in o)
    ensures Resolve(["command", o] + ts, atBoundary) == Outcome([], false, false)
  {
    var pre, all := ["command", o], Kinds(["command", o]) + Kinds(ts);
    DashedFacts(o);
    SecondWord(all, pre, ts, Command, atBoundary);
    Stops("command", pre, ts, all, atBoundary, Suppressed);
  }

  /** An option waits for its value until that is complete. */
  lemma WaitsForValue(w: string, o: string, v: string, atBoundary: bool)
    requires IsWrapperName(w) && NeedsNextWord(w, o)
    ensures Resolve([w, o], atBoundary) == Outcome([], false, true)
    ensures Resolve([w, o, v], atBoundary) == if atBoundary then Outcome([], true, false) else Outcome([], false, true)
  {
    ValueOptionsDashed(w, o);
    DashedFacts(o);
    TakesNextIs(w, o);
    Waits(w, o, [w, o], atBoundary);
    Waits(w, o, [w, o, v], atBoundary);
  }

  lemma Waits(w: string, o: string, pre: seq<string>, atBoundary: bool)
    requires IsWrapperName(w) && IsDashed(o) && NeedsNextWord(w, o) && 2 <= |pre| <= 3 && pre[0] == w && pre[1] == o
    ensures var why := if |pre| == 3 && atBoundary then Nothing else WaitingForValue;
      Resolve(pre, atBoundary) == OutcomeOf(pre, why, atBoundary)
  {
    var all, why := Kinds(pre) + Kinds([]), if |pre| == 3 && atBoundary then Nothing else WaitingForValue;
    DashedFacts(o);
    TakesNextIs(w, o);
    SecondWord(all, pre, [], WrapperOf(w), atBoundary);
    Stops(w, pre, [], all, atBoundary, why);
    NoneBefore(pre);
  }

  // ---------------------------------------------------------------- which options take a value

  /** A cluster of letters takes the next word as its value when its last letter does and no earlier
      one: an earlier one has the rest of the cluster as its value. */
  lemma Clusters(w: string, letters: string, last: char)
    requires w == "sudo" || w == "env"
    requires letters == "" || letters[0] != '-'
    requires '=' !in letters && last != '=' && last != '-'
    ensures NeedsNextWord(w, "-" + letters + [last]) <==>
      var taking := if w == "sudo" then "ugpCTrtDR" else "uCSa";
      last in taking && forall k :: 0 <= k < |letters| ==> letters[k] !in taking
  {
    var o := "-" + letters + [last];
    assert o[1] == if letters == "" then last else letters[0];
    if o in LongOptions(w) { LongHasDashes(w, o); }
    assert forall k :: 0 <= k < |letters| ==> o[k + 1] == letters[k];
  }

  /** Long options, written out. */
  lemma LongOptionsTake(w: string, o: string)
    requires |o| > 2 && o[0] == '-' && o[1] == '-' && '=' !in o
    ensures NeedsNextWord(w, o) <==>
      || (w == "sudo" && o in {"--user", "--group", "--prompt", "--close-from", "--command-timeout", "--role", "--type",
            "--chdir", "--chroot", "--host"})
      || (w == "env" && o in {"--unset", "--chdir", "--split-string", "--argv0"})
  {
  }

  /** A value behind an equals sign is not the next word, and `command` has no such options. */
  lemma NoNextWord(w: string, o: string)
    ensures '=' in o || w == "command" ==> !NeedsNextWord(w, o)
  {
  }
}

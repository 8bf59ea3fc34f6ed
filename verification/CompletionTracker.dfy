/** The completion session: which results were added, and how many more may be. */
module CompletionTracker {
  import opened Text

  const SIZE_MAX: nat := 0xFFFF_FFFF_FFFF_FFFF
  const MIN_COMPLETIONS: nat := 1
  const ENTRY_MULTIPLIER: nat := 2

  /** `configured_completion_limit`. */
  function Limit(configured: nat): nat {
    if configured < MIN_COMPLETIONS then MIN_COMPLETIONS else configured
  }

  /** `tracker_entry_cap`. */
  function EntryCap(configured: nat): nat {
    if Limit(configured) > SIZE_MAX / ENTRY_MULTIPLIER then SIZE_MAX else Limit(configured) * ENTRY_MULTIPLIER
  }

  /** The line after a completion is accepted. */
  function FinalResult(prefix: string, text: string, deleteBefore: int): string {
    (if 0 < deleteBefore <= |prefix| then prefix[..|prefix| - deleteBefore] else prefix) + text
  }

  /** Completing a word replaces it: deleting as many characters as the word has leaves what
      stood before it, followed by the new text. */
  lemma ReplacesWord(before: string, word: string, text: string)
    ensures FinalResult(before + word, text, |word|) == before + text
  {
    assert (before + word)[..|before|] == before;
    if word == "" { assert before + word == before; }
  }

  function Key(prefix: string, text: string, deleteBefore: int): string {
    TrimRight(FinalResult(prefix, text, deleteBefore))
  }

  datatype Tracked = Tracked(prefix: string, added: set<string>, preferred: set<string>, total: nat)

  predicate Full(t: Tracked, configured: nat) {
    t.total >= Limit(configured)
  }

  /** Whether a completion is taken, from the state alone. */
  predicate Takes(t: Tracked, configured: nat, text: string, deleteBefore: int) {
    !Full(t, configured) && |t.added| < EntryCap(configured) && Key(t.prefix, text, deleteBefore) !in t.added
  }

  function Add(t: Tracked, configured: nat, text: string, deleteBefore: int): Tracked {
    if Takes(t, configured, text, deleteBefore)
    then t.(added := t.added + {Key(t.prefix, text, deleteBefore)}, total := t.total + 1)
    else t
  }

  /** Every completion counted is in the set, and the other way round. */
  predicate Counted(t: Tracked) {
    t.total == |t.added|
  }

  /** Adding keeps the count. */
  lemma AddKeepsCount(t: Tracked, configured: nat, text: string, deleteBefore: int)
    requires Counted(t)
    ensures Counted(Add(t, configured, text, deleteBefore))
    ensures !Full(t, configured) ==> Add(t, configured, text, deleteBefore).total <= Limit(configured)
  {
  }

  /** While the limit is not reached the cap on the set cannot be, so a completion is refused
      for being a duplicate or for the limit, and for nothing else. */
  lemma CapUnreachable(t: Tracked, configured: nat, text: string, deleteBefore: int)
    requires Counted(t) && configured <= SIZE_MAX
    ensures !Full(t, configured) ==> |t.added| < EntryCap(configured)
    ensures Takes(t, configured, text, deleteBefore)
        <==> (!Full(t, configured) && Key(t.prefix, text, deleteBefore) !in t.added)
  {
  }

  /** A session that stays within a limit never meets the cap on the set, not even at the
      limit, so whether a result is a duplicate is always decided by membership. */
  lemma CapBeyondLimit(t: Tracked, configured: nat)
    requires Counted(t) && t.total <= Limit(configured) && configured < SIZE_MAX
    ensures |t.added| < EntryCap(configured)
  {
  }

  /** The cap is twice the limit, which is at least one, or the largest 64-bit number if that is
      smaller. */
  lemma CapIs(configured: nat)
    requires configured < 0x1_0000_0000_0000_0000
    ensures var limit := if configured == 0 then 1 else configured;
      EntryCap(configured) == if 2 * limit < 0x1_0000_0000_0000_0000 then 2 * limit else 0xFFFF_FFFF_FFFF_FFFF
  {
  }

  class CompletionTracker {
    const prefix: string
    var added: set<string>
    var preferred: set<string>
    var total: nat

    function State(): Tracked
      reads this
    {
      Tracked(prefix, added, preferred, total)
    }

    constructor (prefix: string)
      ensures State() == Tracked(prefix, {}, {}, 0) && Counted(State())
    {
      this.prefix, added, preferred, total := prefix, {}, {}, 0;
    }

    method CalculateFinalResult(text: string, deleteBefore: int) returns (result: string)
      ensures result == FinalResult(prefix, text, deleteBefore)
    {
      var kept := prefix;
      if deleteBefore > 0 && deleteBefore <= |kept| {
        kept := kept[..|kept| - deleteBefore];
      }
      return kept + text;
    }

    method WouldCreateDuplicate(text: string, deleteBefore: int, configured: nat) returns (duplicate: bool)
      ensures |added| < EntryCap(configured) ==> duplicate == (Key(prefix, text, deleteBefore) in added)
      ensures |added| >= EntryCap(configured) ==> duplicate
    {
      if |added| >= EntryCap(configured) { return true; }
      var result := CalculateFinalResult(text, deleteBefore);
      return TrimRight(result) in added;
    }

    /** `editor` is the editor's answer, should it be asked. */
    method AddIfUnique(text: string, deleteBefore: int, configured: nat, editor: bool)
        returns (goOn: bool, delivered: bool)
      modifies this`added, this`total
      ensures State() == Add(old(State()), configured, text, deleteBefore)
      ensures delivered == Takes(old(State()), configured, text, deleteBefore)
      ensures goOn == (!delivered || editor)
    {
      if total >= Limit(configured) { return true, false; }
      if |added| >= EntryCap(configured) { return true, false; }
      var result := CalculateFinalResult(text, deleteBefore);
      var key := TrimRight(result);
      if key in added { return true, false; }
      added := added + {key};
      total := total + 1;
      return editor, true;
    }

    method Prioritize(text: string, deleteBefore: int)
      modifies this`preferred
      ensures State() == old(State()).(preferred := old(preferred) + {Key(prefix, text, deleteBefore)})
    {
      var result := CalculateFinalResult(text, deleteBefore);
      preferred := preferred + {TrimRight(result)};
    }

    method IsPreferred(text: string, deleteBefore: int) returns (r: bool)
      ensures r == (Key(prefix, text, deleteBefore) in preferred)
    {
      if preferred == {} { return false; }
      var result := CalculateFinalResult(text, deleteBefore);
      return TrimRight(result) in preferred;
    }
  }
}

/** Whether the cursor stands in the left side of an assignment that is already there. */
module AssignmentLhs {
  import opened Text
  import opened Tokenizer
  import opened TokenizerSpans

  predicate IsIdentifier(name: string) {
    name != "" && (IsAlpha(name[0]) || name[0] == '_') && forall k :: 1 <= k < |name| ==> IsNameChar(name[k])
  }

  /** `name[index]`, with the brackets at the first `[` and at the end. */
  predicate IsElement(s: string) {
    var b := Find(s, '[', 0);
    b > 0 && s[|s| - 1] == ']' && IsIdentifier(s[..b]) && b + 2 < |s|
  }

  /** `[index]`, as inside an array literal. */
  predicate IsBareIndex(s: string) {
    |s| > 2 && s[0] == '[' && s[|s| - 1] == ']'
  }

  function WithoutPlus(s: string): string {
    if s != "" && s[|s| - 1] == '+' then s[..|s| - 1] else s
  }

  /** `is_assignment_lhs`: a variable, an element or an index, and perhaps a plus sign. */
  predicate IsLhs(s: string) {
    var c := WithoutPlus(s);
    IsIdentifier(c) || IsBareIndex(c) || IsElement(c)
  }

  lemma IdentifierHasNoBracket(name: string)
    requires IsIdentifier(name)
    ensures '[' !in name
  {
    forall k | 0 <= k < |name| ensures name[k] != '[' {
      if k > 0 { assert IsNameChar(name[k]); }
    }
  }

  lemma MadeElement(name: string, index: string)
    requires IsIdentifier(name) && index != ""
    ensures IsElement(name + ("[" + index + "]"))
  {
    var s := name + ("[" + index + "]");
    IdentifierHasNoBracket(name);
    assert s[|name|] == '[' && s[..|name|] == name && s[|s| - 1] == ']';
    FindAt(s, '[', 0, |name|);
  }

  /** An element is what it looks like. */
  lemma ElementForm(s: string)
    ensures IsElement(s) <==> exists name: string, index: string ::
      IsIdentifier(name) && index != "" && s == name + ("[" + index + "]")
  {
    FindFinds(s, '[', 0);
    if IsElement(s) {
      var b := Find(s, '[', 0);
      FindIs(s, '[', 0);
      var name, index := s[..b], s[b + 1..|s| - 1];
      assert s == name + ("[" + index + "]");
    }
    if name: string, index: string :| IsIdentifier(name) && index != "" && s == name + ("[" + index + "]") {
      MadeElement(name, index);
    }
  }

  /** A name as the shell knows it. */
  predicate IsShellName(name: string) {
    && name != "" && !('0' <= name[0] <= '9')
    && forall k :: 0 <= k < |name| ==>
      'a' <= name[k] <= 'z' || 'A' <= name[k] <= 'Z' || '0' <= name[k] <= '9' || name[k] == '_'
  }

  lemma IdentifierForm(name: string)
    ensures IsIdentifier(name) <==> IsShellName(name)
  {
    if IsIdentifier(name) {
      forall k | 0 <= k < |name|
        ensures 'a' <= name[k] <= 'z' || 'A' <= name[k] <= 'Z' || '0' <= name[k] <= '9' || name[k] == '_'
      {
        if k > 0 { assert IsNameChar(name[k]); }
      }
    }
  }

  /** A variable, an element of an array or, as in its list of values, an index alone. */
  ghost predicate IsTarget(s: string) {
    || IsShellName(s)
    || (exists index: string :: index != "" && s == "[" + index + "]")
    || (exists name: string, index: string :: IsShellName(name) && index != "" && s == name + ("[" + index + "]"))
  }

  lemma TargetForm(s: string)
    ensures IsIdentifier(s) || IsBareIndex(s) || IsElement(s) <==> IsTarget(s)
    ensures IsTarget(s) ==> s[|s| - 1] != '+'
  {
    IdentifierForm(s);
    ElementForm(s);
    if IsBareIndex(s) {
      var index := s[1..|s| - 1];
      assert s == "[" + index + "]";
    }
    forall name: string ensures IsIdentifier(name) <==> IsShellName(name) { IdentifierForm(name); }
  }

  /** The left side of an assignment is one of these, perhaps with a plus sign. */
  lemma LhsForm(s: string)
    ensures IsLhs(s) <==> IsTarget(s) || exists t: string :: IsTarget(t) && s == t + "+"
  {
    TargetForm(s);
    TargetForm(WithoutPlus(s));
    if s != "" && s[|s| - 1] == '+' { assert s == WithoutPlus(s) + "+"; }
    forall t: string | IsTarget(t) && s == t + "+" ensures WithoutPlus(s) == t { assert s[..|t|] == t; }
  }

  lemma MadeAssignment(name: string, value: string)
    requires IsShellName(name)
    ensures IsAssignment(name + "=" + value)
  {
    var word := name + "=" + value;
    assert word[|name|] == '=' && forall k :: 0 <= k < |name| ==> word[k] == name[k];
    FindAt(word, '=', 0, |name|);
  }

  /** The tokenizer takes a word for an assignment when it is a name, an equals sign and any
      value. */
  lemma AssignmentForm(word: string)
    ensures IsAssignment(word) <==> exists name: string, value: string ::
      IsShellName(name) && word == name + "=" + value
  {
    if IsAssignment(word) {
      var e := Find(word, '=', 0);
      FindIs(word, '=', 0);
      assert word == word[..e] + "=" + word[e + 1..];
      IdentifierForm(word[..e]);
      assert IsIdentifier(word[..e]);
    }
    if name: string, value: string :| IsShellName(name) && word == name + "=" + value { MadeAssignment(name, value); }
  }

  method CheckIdentifier(name: string) returns (r: bool)
    ensures r == IsIdentifier(name)
  {
    if name == "" || !(IsAlpha(name[0]) || name[0] == '_') { return false; }
    for i := 1 to |name|
      invariant forall k :: 1 <= k < i ==> IsNameChar(name[k])
    {
      if !(IsAlnum(name[i]) || name[i] == '_') { return false; }
    }
    return true;
  }

  method CheckLhs(lhs: string) returns (r: bool)
    ensures r == IsLhs(lhs)
  {
    if lhs == "" { return false; }
    var candidate := lhs;
    if candidate[|candidate| - 1] == '+' { candidate := candidate[..|candidate| - 1]; }
    if candidate == "" { return false; }
    var identifier := CheckIdentifier(candidate);
    if identifier { return true; }
    var b := Find(candidate, '[', 0);
    FindFinds(candidate, '[', 0);
    assert candidate[0..] == candidate;
    if candidate[0] == '[' {
      FindAt(candidate, '[', 0, 0);
      return candidate[|candidate| - 1] == ']' && |candidate| > 2;
    }
    if b == NPOS || candidate[|candidate| - 1] != ']' { return false; }
    var name := CheckIdentifier(candidate[..b]);
    return name && b + 2 < |candidate|;
  }

  /** `looks_like_assignment`. */
  predicate LooksLikeAssignment(value: string) {
    var e := Find(value, '=', 0);
    e > 0 && IsLhs(value[..e])
  }

  method CheckLooksLikeAssignment(value: string) returns (r: bool)
    ensures r == LooksLikeAssignment(value)
  {
    var e := Find(value, '=', 0);
    if e == NPOS || e == 0 { return false; }
    r := CheckLhs(value[..e]);
  }

  // ---------------------------------------------------------------- around the cursor

  predicate EndsScan(c: char) {
    IsControlOperator(c) || IsSpace(c)
  }

  /** The next equals sign, if no operator or whitespace comes first. */
  function EqualsAhead(input: string, i: nat): (e: int)
    ensures e == NPOS || i <= e < |input|
    decreases |input| - i
  {
    if i >= |input| || (input[i] != '=' && EndsScan(input[i])) then NPOS
    else if input[i] == '=' then i
    else EqualsAhead(input, i + 1)
  }

  /** Quotes in the word that the cursor ends are in the way. */
  predicate Bars(t: Segment) {
    !t.atBoundary && (t.words == [] || t.words[|t.words| - 1].quoted)
  }

  /** The raw text of the word that the cursor ends. */
  function PrefixOf(t: Segment): string {
    if t.atBoundary || t.words == [] then "" else t.words[|t.words| - 1].raw
  }

  /** `cursor_is_in_assignment_lhs`. */
  predicate InLhs(input: string, cursor: nat, t: Segment) {
    var e := EqualsAhead(input, cursor);
    && !Bars(t) && '=' !in PrefixOf(t)
    && e != NPOS && LooksLikeAssignment(PrefixOf(t) + input[cursor..e] + "=")
  }

  method CursorIsInAssignmentLhs(input: string, cursor: nat, t: Segment) returns (r: bool)
    requires cursor <= |input|
    ensures r == InLhs(input, cursor, t)
  {
    var prefix := "";
    if !t.atBoundary {
      if t.words == [] || t.words[|t.words| - 1].quoted { return false; }
      prefix := t.words[|t.words| - 1].raw;
    }
    FindFinds(prefix, '=', 0);
    assert prefix[0..] == prefix;
    if Find(prefix, '=', 0) != NPOS { return false; }
    var index := cursor;
    while index < |input|
      invariant cursor <= index && EqualsAhead(input, index) == EqualsAhead(input, cursor)
    {
      if input[index] == '=' {
        r := CheckLooksLikeAssignment(prefix + input[cursor..index] + "=");
        return;
      }
      if IsControlOperator(input[index]) || IsSpace(input[index]) { return false; }
      index := index + 1;
    }
    return false;
  }

  lemma {:induction false} EqualsAheadIs(input: string, i: nat, e: nat)
    ensures EqualsAhead(input, i) == e
      <==> i <= e < |input| && input[e] == '=' && forall k :: i <= k < e ==> input[k] != '=' && !EndsScan(input[k])
    decreases |input| - i
  {
    if i < |input| && input[i] != '=' && !EndsScan(input[i]) { EqualsAheadIs(input, i + 1, e); }
  }

  lemma OperatorIs(c: char)
    ensures IsControlOperator(c) <==> c in "|&;\n\r"
  {
    var s := "|&;\n\r";
    assert s[0] == '|' && s[1] == '&' && s[2] == ';' && s[3] == '\n' && s[4] == '\r';
  }

  lemma ScanEnds(input: string, from: nat, to: nat)
    requires to <= |input|
    ensures (forall k :: from <= k < to ==> !EndsScan(input[k]))
      <==> (forall k :: from <= k < to ==> input[k] !in "|&;\n\r" && !IsSpace(input[k]))
  {
    forall k | from <= k < to ensures EndsScan(input[k]) <==> input[k] in "|&;\n\r" || IsSpace(input[k]) {
      OperatorIs(input[k]);
    }
  }

  /** Where the word that the cursor ends begins. */
  function WordBegin(cursor: nat, t: Segment): nat {
    if t.atBoundary || t.words == [] then cursor else t.words[|t.words| - 1].begin
  }

  /** `lhs` stands around the cursor, from the beginning of its word to an equals sign, without
      quotes before the cursor, and without operators or whitespace after it. */
  predicate LhsAround(input: string, cursor: nat, t: Segment, e: nat) {
    && (t.atBoundary || (t.words != [] && !t.words[|t.words| - 1].quoted))
    && WordBegin(cursor, t) <= cursor <= e < |input| && input[e] == '='
    && (forall k :: WordBegin(cursor, t) <= k < e ==> input[k] != '=')
    && (forall k :: cursor <= k < e ==> input[k] !in "|&;\n\r" && !IsSpace(input[k]))
    && IsLhs(input[WordBegin(cursor, t)..e])
  }

  /** The word under the cursor ends there, and is the text from its beginning. */
  lemma {:induction false} CursorWord(input: string, cursor: nat)
    requires cursor <= |input|
    ensures var t := Tokens(input[..cursor]);
      WordBegin(cursor, t) <= cursor && PrefixOf(t) == input[WordBegin(cursor, t)..cursor]
  {
    var before := input[..cursor];
    var t := Tokens(before);
    Lossless(before);
    if !t.atBoundary && t.words != [] {
      var w := t.words[|t.words| - 1];
      assert w.end == cursor && w.raw == before[w.begin..w.end];
      assert before[w.begin..cursor] == input[w.begin..cursor];
    }
  }

  lemma LooksLike(lhs: string)
    requires '=' !in lhs
    ensures LooksLikeAssignment(lhs + "=") <==> IsLhs(lhs)
  {
    var value := lhs + "=";
    assert value[|lhs|] == '=' && value[..|lhs|] == lhs;
    FindAt(value, '=', 0, |lhs|);
  }

  lemma InLhsAround(input: string, cursor: nat, t: Segment, b: nat)
    requires cursor <= |input| && b == WordBegin(cursor, t) <= cursor && PrefixOf(t) == input[b..cursor]
    requires InLhs(input, cursor, t)
    ensures LhsAround(input, cursor, t, EqualsAhead(input, cursor))
  {
    var e := EqualsAhead(input, cursor);
    EqualsAheadIs(input, cursor, e);
    ScanEnds(input, cursor, e);
    LhsText(input, b, cursor, e);
    LooksLike(input[b..e]);
  }

  lemma AroundInLhs(input: string, cursor: nat, t: Segment, b: nat, e: nat)
    requires cursor <= |input| && b == WordBegin(cursor, t) <= cursor && PrefixOf(t) == input[b..cursor]
    requires LhsAround(input, cursor, t, e)
    ensures InLhs(input, cursor, t)
  {
    EqualsAheadIs(input, cursor, e);
    ScanEnds(input, cursor, e);
    LhsText(input, b, cursor, e);
    LooksLike(input[b..e]);
  }

  /** The flag is set exactly when the text around the cursor, from the beginning of its word to
      the next equals sign, is the left side of an assignment. */
  lemma InLhsIff(input: string, cursor: nat)
    requires cursor <= |input|
    ensures var t := Tokens(input[..cursor]);
      InLhs(input, cursor, t) <==> exists e: nat :: LhsAround(input, cursor, t, e)
  {
    var t := Tokens(input[..cursor]);
    CursorWord(input, cursor);
    if InLhs(input, cursor, t) { InLhsAround(input, cursor, t, WordBegin(cursor, t)); }
    if e: nat :| LhsAround(input, cursor, t, e) { AroundInLhs(input, cursor, t, WordBegin(cursor, t), e); }
  }

  lemma LhsText(input: string, b: nat, cursor: nat, e: nat)
    requires b <= cursor <= e <= |input|
    ensures input[b..cursor] + input[cursor..e] + "=" == input[b..e] + "="
    ensures '=' !in input[b..e] <==> forall k :: b <= k < e ==> input[k] != '='
    ensures '=' !in input[b..cursor] <==> forall k :: b <= k < cursor ==> input[k] != '='
  {
    assert input[b..cursor] + input[cursor..e] == input[b..e];
  }
}

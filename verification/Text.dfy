/** Characters and strings as the program sees them: one `char` is one byte, and the
    `<cctype>` tests are those of the "C" locale. */
module Text {

  const NPOS: int := -1

  predicate IsSpace(c: char) {
    c == ' ' || c == '\t' || c == '\n' || c == '\r' || c == 11 as char || c == 12 as char
  }

  predicate IsDigit(c: char) {
    '0' <= c <= '9'
  }

  predicate IsAlpha(c: char) {
    'a' <= c <= 'z' || 'A' <= c <= 'Z'
  }

  predicate IsAlnum(c: char) {
    IsAlpha(c) || IsDigit(c)
  }

  function ToLower(c: char): char {
    if 'A' <= c <= 'Z' then (c as int + 32) as char else c
  }

  /** `string_utils::to_lower_copy`. */
  function Lower(s: string): string {
    if s == "" then "" else [ToLower(s[0])] + Lower(s[1..])
  }

  /** `string_utils::trim_right_ascii_whitespace_copy`. */
  function TrimRight(s: string): string {
    if s == "" then ""
    else if IsTrimmed(s[|s| - 1]) then TrimRight(s[..|s| - 1])
    else s
  }

  predicate IsTrimmed(c: char) {
    c == ' ' || c == '\t' || c == '\n' || c == '\r'
  }

  /** `std::string::find(c, from)`, with `NPOS` for a miss. */
  function Find(s: string, c: char, from: nat): (r: int)
    ensures r == NPOS || from <= r < |s|
    decreases |s| - from
  {
    if from >= |s| then NPOS
    else if s[from] == c then from
    else Find(s, c, from + 1)
  }

  lemma {:induction false} FindAt(s: string, c: char, from: nat, k: nat)
    requires from <= k < |s| && s[k] == c && forall i :: from <= i < k ==> s[i] != c
    ensures Find(s, c, from) == k
    decreases k - from
  {
    if from < k { FindAt(s, c, from + 1, k); }
  }

  lemma {:induction false} FindMisses(s: string, c: char, from: nat)
    requires forall i :: from <= i < |s| ==> s[i] != c
    ensures Find(s, c, from) == NPOS
    decreases |s| - from
  {
    if from < |s| { FindMisses(s, c, from + 1); }
  }

  lemma {:induction false} FindFinds(s: string, c: char, from: nat)
    requires from <= |s|
    ensures Find(s, c, from) == NPOS <==> c !in s[from..]
    decreases |s| - from
  {
    if from < |s| {
      FindFinds(s, c, from + 1);
      assert s[from..] == [s[from]] + s[from + 1..];
    }
  }

  lemma {:induction false} FindIs(s: string, c: char, from: nat)
    requires Find(s, c, from) != NPOS
    ensures s[Find(s, c, from)] == c
    decreases |s| - from
  {
    if from < |s| && s[from] != c { FindIs(s, c, from + 1); }
  }

  /** The characters from `from` up to `to`, or nothing if there are no such positions. */
  function Slice(s: string, from: nat, to: nat): string {
    if from <= to <= |s| then s[from..to] else ""
  }

  /** The capitals of the alphabet become small letters, and nothing else changes. */
  lemma {:induction false} LowerMeans(s: string)
    ensures |Lower(s)| == |s|
    ensures forall k :: 0 <= k < |s| ==>
      Lower(s)[k] == if 'A' <= s[k] <= 'Z' then (s[k] as int - 'A' as int + 'a' as int) as char else s[k]
  {
    if s != "" { LowerMeans(s[1..]); }
  }

  /** Blanks, tabs and line ends go at the end of the string, and nothing else. */
  lemma {:induction false} TrimRightMeans(s: string)
    ensures var n := |TrimRight(s)|;
      && n <= |s| && TrimRight(s) == s[..n]
      && (forall k :: n <= k < |s| ==> s[k] in " \t\n\r")
      && (n > 0 ==> s[n - 1] !in " \t\n\r")
  {
    if s != "" && IsTrimmed(s[|s| - 1]) { TrimRightMeans(s[..|s| - 1]); }
  }
}

/** Field splitting of `read` in POSIX mode: removing the backslashes, cutting the text at IFS
    characters that were not escaped, and handing the fields to the variables. */
module FieldSplitting {
  import opened Sequences

  /** A character of the input and whether a backslash stood before it. */
  datatype Cell = Cell(c: char, quoted: bool)

  /** What a position is for the splitting: an IFS space, tab or newline; another IFS
      character; or text. Escaped characters are text. */
  datatype Kind = Space | Separator | Text

  predicate IsWhite(c: char) {
    c == ' ' || c == '\t' || c == '\n'
  }

  function KindOf(ifs: string, cell: Cell): Kind {
    if cell.quoted || cell.c !in ifs then Text
    else if IsWhite(cell.c) then Space
    else Separator
  }

  // ---------------------------------------------------------------- removing backslashes

  function Unescape(raw: string, rawMode: bool, i: nat): seq<Cell>
    decreases |raw| - i
  {
    if i >= |raw| then []
    else if !rawMode && raw[i] == '\\' && i + 1 < |raw| then
      (if raw[i + 1] == '\n' then [] else [Cell(raw[i + 1], true)]) + Unescape(raw, rawMode, i + 2)
    else [Cell(raw[i], false)] + Unescape(raw, rawMode, i + 1)
  }

  method RemoveBackslashes(raw: string, rawMode: bool) returns (cells: seq<Cell>)
    ensures cells == Unescape(raw, rawMode, 0)
  {
    cells := [];
    var i := 0;
    NoneBefore(Unescape(raw, rawMode, 0));
    while i < |raw|
      invariant Unescape(raw, rawMode, 0) == cells + Unescape(raw, rawMode, i)
    {
      if !rawMode && raw[i] == '\\' && i + 1 < |raw| {
        i := i + 1;
        NoneBefore(Unescape(raw, rawMode, i + 1));
        if raw[i] != '\n' {
          Assoc(cells, [Cell(raw[i], true)], Unescape(raw, rawMode, i + 1));
          cells := cells + [Cell(raw[i], true)];
        }
      } else {
        Assoc(cells, [Cell(raw[i], false)], Unescape(raw, rawMode, i + 1));
        cells := cells + [Cell(raw[i], false)];
      }
      i := i + 1;
    }
    NoneBefore(cells);
  }

  // ---------------------------------------------------------------- cutting

  datatype Field = Field(start: nat, end: nat)

  predicate IsDelimiterAt(ks: seq<Kind>, p: nat) {
    p < |ks| && ks[p] != Text
  }

  predicate IsSpaceAt(ks: seq<Kind>, p: nat) {
    p < |ks| && ks[p] == Space
  }

  function PastSpaces(ks: seq<Kind>, p: nat): (r: nat)
    ensures p <= r && (p <= |ks| ==> r <= |ks|)
    decreases |ks| - p
  {
    if IsSpaceAt(ks, p) then PastSpaces(ks, p + 1) else p
  }

  function PastText(ks: seq<Kind>, p: nat): (r: nat)
    requires p <= |ks|
    ensures p <= r <= |ks|
    ensures r < |ks| ==> IsDelimiterAt(ks, r)
    decreases |ks| - p
  {
    if p < |ks| && ks[p] == Text then PastText(ks, p + 1) else p
  }

  /** The end of the delimiter that starts at `p`: spaces, at most one other IFS character, and
      spaces. */
  function PastDelimiter(ks: seq<Kind>, p: nat): (r: nat)
    requires IsDelimiterAt(ks, p)
    ensures p < r <= |ks|
  {
    var q := PastSpaces(ks, p);
    PastSpaces(ks, if IsDelimiterAt(ks, q) then q + 1 else q)
  }

  function FieldsFrom(ks: seq<Kind>, start: nat): seq<Field>
    requires start <= |ks|
    decreases |ks| - start
  {
    if start == |ks| then []
    else
      var end := PastText(ks, start);
      if end == |ks| then [Field(start, end)]
      else [Field(start, end)] + FieldsFrom(ks, PastDelimiter(ks, end))
  }

  function Fields(ks: seq<Kind>): seq<Field> {
    FieldsFrom(ks, PastSpaces(ks, 0))
  }

  function TrimmedEnd(ks: seq<Kind>, end: nat): (r: nat)
    requires end <= |ks|
    ensures r <= end
  {
    if end > 0 && ks[end - 1] == Space then TrimmedEnd(ks, end - 1) else end
  }

  method SkipSpaces(ks: seq<Kind>, from: nat) returns (p: nat)
    requires from <= |ks|
    ensures p == PastSpaces(ks, from)
  {
    p := from;
    while IsSpaceAt(ks, p)
      invariant p <= |ks| && PastSpaces(ks, p) == PastSpaces(ks, from)
      decreases |ks| - p
    {
      p := p + 1;
    }
  }

  method SkipDelimiter(ks: seq<Kind>, from: nat) returns (p: nat)
    requires IsDelimiterAt(ks, from)
    ensures p == PastDelimiter(ks, from)
  {
    p := from;
    if IsSpaceAt(ks, p) {
      p := SkipSpaces(ks, p);
      if IsDelimiterAt(ks, p) { p := p + 1; }
    } else {
      p := p + 1;
    }
    p := SkipSpaces(ks, p);
  }

  method CutFields(ks: seq<Kind>) returns (fields: seq<Field>)
    ensures fields == Fields(ks)
  {
    fields := [];
    var pos := SkipSpaces(ks, 0);
    var start: nat := pos;
    ghost var all := Fields(ks);
    NoneBefore(all);
    while pos < |ks|
      invariant start <= pos <= |ks|
      invariant all == fields + FieldsFrom(ks, start)
      invariant pos > start ==> PastText(ks, start) == PastText(ks, pos)
    {
      if !IsDelimiterAt(ks, pos) {
        pos := pos + 1;
      } else {
        var next := SkipDelimiter(ks, pos);
        Assoc(fields, [Field(start, pos)], FieldsFrom(ks, next));
        fields := fields + [Field(start, pos)];
        pos := next;
        start := pos;
      }
    }
    if start < |ks| { fields := fields + [Field(start, |ks|)]; }
    NoneBefore(fields);
  }

  // ---------------------------------------------------------------- what a split is

  predicate AllText(ks: seq<Kind>, from: nat, to: nat)
    requires to <= |ks|
  {
    forall p :: from <= p < to ==> ks[p] == Text
  }

  predicate AllSpaces(ks: seq<Kind>, from: nat, to: nat)
    requires to <= |ks|
  {
    forall p :: from <= p < to ==> ks[p] == Space
  }

  predicate NoText(ks: seq<Kind>, from: nat, to: nat)
    requires to <= |ks|
  {
    forall p :: from <= p < to ==> ks[p] != Text
  }

  predicate NoSeparator(ks: seq<Kind>, from: nat, to: nat)
    requires to <= |ks|
  {
    forall p :: from <= p < to ==> ks[p] != Separator
  }

  predicate OneSeparator(ks: seq<Kind>, from: nat, to: nat)
    requires to <= |ks|
  {
    forall p, q :: from <= p < q < to ==> !(ks[p] == Separator && ks[q] == Separator)
  }

  /** One delimiter of section 2.6.5 of POSIX.1-2017 XCU: IFS white space, or one other IFS
      character with the IFS white space around it; as long as it can be. */
  predicate IsOneDelimiter(ks: seq<Kind>, from: nat, to: nat)
    requires to <= |ks|
  {
    && from < to
    && NoText(ks, from, to)
    && OneSeparator(ks, from, to)
    && (to < |ks| ==> ks[to] != Space && (ks[to] == Separator ==> !NoSeparator(ks, from, to)))
  }

  predicate Inside(ks: seq<Kind>, f: Field) {
    f.start <= f.end <= |ks| && f.start < |ks| && AllText(ks, f.start, f.end)
  }

  /** The declarative description of the split, whatever the way it is found. */
  predicate IsSplit(ks: seq<Kind>, fs: seq<Field>) {
    && (forall k :: 0 <= k < |fs| ==> Inside(ks, fs[k]))
    && (if fs == [] then AllSpaces(ks, 0, |ks|) else AllSpaces(ks, 0, fs[0].start) && ks[fs[0].start] != Space)
    && (forall k :: 0 <= k < |fs| - 1 ==> IsOneDelimiter(ks, fs[k].end, fs[k + 1].start))
    && (fs != [] ==> var end := fs[|fs| - 1].end; end == |ks| || IsOneDelimiter(ks, end, |ks|))
  }

  /** The same from a given start on. */
  predicate IsSplitFrom(ks: seq<Kind>, fs: seq<Field>, start: nat) {
    && (forall k :: 0 <= k < |fs| ==> Inside(ks, fs[k]))
    && (if fs == [] then start == |ks| else fs[0].start == start)
    && (forall k :: 0 <= k < |fs| - 1 ==> IsOneDelimiter(ks, fs[k].end, fs[k + 1].start))
    && (fs != [] ==> var end := fs[|fs| - 1].end; end == |ks| || IsOneDelimiter(ks, end, |ks|))
  }

  lemma {:induction false} PastSpacesMeans(ks: seq<Kind>, p: nat)
    requires p <= |ks|
    ensures AllSpaces(ks, p, PastSpaces(ks, p)) && !IsSpaceAt(ks, PastSpaces(ks, p))
    decreases |ks| - p
  {
    if IsSpaceAt(ks, p) { PastSpacesMeans(ks, p + 1); }
  }

  lemma {:induction false} PastTextMeans(ks: seq<Kind>, p: nat)
    requires p <= |ks|
    ensures AllText(ks, p, PastText(ks, p)) && (PastText(ks, p) < |ks| ==> IsDelimiterAt(ks, PastText(ks, p)))
    decreases |ks| - p
  {
    if p < |ks| && ks[p] == Text { PastTextMeans(ks, p + 1); }
  }

  lemma PastDelimiterMeans(ks: seq<Kind>, p: nat)
    requires IsDelimiterAt(ks, p)
    ensures IsOneDelimiter(ks, p, PastDelimiter(ks, p))
  {
    var q := PastSpaces(ks, p);
    PastSpacesMeans(ks, p);
    PastSpacesMeans(ks, if IsDelimiterAt(ks, q) then q + 1 else q);
    if IsDelimiterAt(ks, q) { assert ks[q] == Separator; }
  }

  lemma ConsSplit(ks: seq<Kind>, f: Field, rest: seq<Field>, next: nat)
    requires Inside(ks, f) && next <= |ks| && IsOneDelimiter(ks, f.end, next) && IsSplitFrom(ks, rest, next)
    ensures IsSplitFrom(ks, [f] + rest, f.start)
  {
    var fs := [f] + rest;
    forall k | 0 <= k < |fs| - 1 ensures IsOneDelimiter(ks, fs[k].end, fs[k + 1].start) {
      if k > 0 { assert fs[k] == rest[k - 1] && fs[k + 1] == rest[k]; }
    }
    if rest != [] { assert fs[|fs| - 1] == rest[|rest| - 1]; }
  }

  lemma {:induction false} FieldsFromSplit(ks: seq<Kind>, start: nat)
    requires start <= |ks|
    ensures IsSplitFrom(ks, FieldsFrom(ks, start), start)
    decreases |ks| - start
  {
    if start < |ks| {
      var end := PastText(ks, start);
      PastTextMeans(ks, start);
      if end < |ks| {
        PastDelimiterMeans(ks, end);
        FieldsFromSplit(ks, PastDelimiter(ks, end));
        ConsSplit(ks, Field(start, end), FieldsFrom(ks, PastDelimiter(ks, end)), PastDelimiter(ks, end));
      }
    }
  }

  /** The loop cuts as the standard says. */
  lemma FieldsSplit(ks: seq<Kind>)
    ensures IsSplit(ks, Fields(ks))
  {
    PastSpacesMeans(ks, 0);
    FieldsFromSplit(ks, PastSpaces(ks, 0));
  }

  // ---------------------------------------------------------------- only one split

  lemma NotLonger(ks: seq<Kind>, from: nat, a: nat, b: nat)
    requires a < b <= |ks| && IsOneDelimiter(ks, from, a)
    ensures !IsOneDelimiter(ks, from, b)
  {
    if ks[a] == Separator {
      var p :| from <= p < a && ks[p] == Separator;
    }
  }

  lemma EndUnique(ks: seq<Kind>, start: nat, a: nat, b: nat)
    requires a <= |ks| && b <= |ks| && start <= a && start <= b && AllText(ks, start, a) && AllText(ks, start, b)
    requires (a < |ks| ==> IsDelimiterAt(ks, a)) && (b < |ks| ==> IsDelimiterAt(ks, b))
    ensures a == b
  {
  }

  lemma EndsAtDelimiter(ks: seq<Kind>, fs: seq<Field>, k: nat)
    requires IsSplit(ks, fs) && k < |fs|
    ensures fs[k].end < |ks| ==> IsDelimiterAt(ks, fs[k].end)
  {
    if k < |fs| - 1 { assert IsOneDelimiter(ks, fs[k].end, fs[k + 1].start); }
  }

  lemma {:induction false} SameField(ks: seq<Kind>, fs: seq<Field>, gs: seq<Field>, k: nat)
    requires IsSplit(ks, fs) && IsSplit(ks, gs) && k < |fs| && k < |gs|
    ensures fs[k] == gs[k]
  {
    assert Inside(ks, fs[k]) && Inside(ks, gs[k]);
    if k == 0 {
      FirstUnique(ks, fs[0].start, gs[0].start);
    } else {
      SameField(ks, fs, gs, k - 1);
      assert IsOneDelimiter(ks, fs[k - 1].end, fs[k - 1 + 1].start)
          && IsOneDelimiter(ks, gs[k - 1].end, gs[k - 1 + 1].start);
      EitherUnique(ks, fs[k - 1].end, fs[k].start, gs[k].start);
    }
    EndsAtDelimiter(ks, fs, k);
    EndsAtDelimiter(ks, gs, k);
    EndUnique(ks, fs[k].start, fs[k].end, gs[k].end);
  }

  lemma FirstUnique(ks: seq<Kind>, a: nat, b: nat)
    requires a < |ks| && b < |ks| && AllSpaces(ks, 0, a) && AllSpaces(ks, 0, b) && ks[a] != Space && ks[b] != Space
    ensures a == b
  {
  }

  lemma EitherUnique(ks: seq<Kind>, from: nat, a: nat, b: nat)
    requires a <= |ks| && b <= |ks| && IsOneDelimiter(ks, from, a) && IsOneDelimiter(ks, from, b)
    ensures a == b
  {
    if a < b { NotLonger(ks, from, a, b); }
    if b < a { NotLonger(ks, from, b, a); }
  }

  lemma NoMoreFields(ks: seq<Kind>, fs: seq<Field>, gs: seq<Field>)
    requires IsSplit(ks, fs) && |fs| < |gs|
    ensures !IsSplit(ks, gs)
  {
    var n := |fs|;
    if IsSplit(ks, gs) {
      assert Inside(ks, gs[n]);
      if n > 0 {
        assert IsOneDelimiter(ks, gs[n - 1].end, gs[n - 1 + 1].start);
        SameField(ks, fs, gs, n - 1);
        if fs[n - 1].end < |ks| { EitherUnique(ks, fs[n - 1].end, |ks|, gs[n].start); }
      }
    }
  }

  /** There is no other way to cut. */
  lemma SplitIsUnique(ks: seq<Kind>, fs: seq<Field>)
    ensures IsSplit(ks, fs) <==> fs == Fields(ks)
  {
    FieldsSplit(ks);
    if IsSplit(ks, fs) {
      var gs := Fields(ks);
      if |fs| < |gs| { NoMoreFields(ks, fs, gs); }
      if |gs| < |fs| { NoMoreFields(ks, gs, fs); }
      forall k | 0 <= k < |fs| ensures fs[k] == gs[k] { SameField(ks, fs, gs, k); }
    }
  }

  // ---------------------------------------------------------------- the fields partition the text

  predicate Covered(fs: seq<Field>, p: nat) {
    exists k :: 0 <= k < |fs| && fs[k].start <= p < fs[k].end
  }

  lemma {:induction false} SplitOrdered(ks: seq<Kind>, fs: seq<Field>, j: nat, k: nat)
    requires IsSplit(ks, fs) && j < k < |fs|
    ensures fs[j].end < fs[k].start
    decreases k - j
  {
    assert IsOneDelimiter(ks, fs[j].end, fs[j + 1].start);
    if j + 1 < k {
      assert Inside(ks, fs[j + 1]);
      SplitOrdered(ks, fs, j + 1, k);
    }
  }

  lemma {:induction false} TextCovered(ks: seq<Kind>, fs: seq<Field>, p: nat, k: nat)
    requires IsSplit(ks, fs) && p < |ks| && ks[p] == Text
    requires k < |fs| && fs[k].start <= p
    ensures Covered(fs, p)
    decreases |fs| - k
  {
    if p >= fs[k].end && k + 1 < |fs| {
      assert IsOneDelimiter(ks, fs[k].end, fs[k + 1].start);
      TextCovered(ks, fs, p, k + 1);
    }
  }

  /** A position lies in a field if and only if it is text: no escaped character and no
      character outside IFS is lost, none of the fields holds an unescaped IFS character. The
      fields are in order and apart. */
  lemma FieldsPartition(ks: seq<Kind>)
    ensures forall p :: 0 <= p < |ks| ==> (Covered(Fields(ks), p) <==> ks[p] == Text)
    ensures forall j, k :: 0 <= j < k < |Fields(ks)| ==> Fields(ks)[j].end < Fields(ks)[k].start
  {
    var fs := Fields(ks);
    FieldsSplit(ks);
    forall p | 0 <= p < |ks| ensures Covered(fs, p) <==> ks[p] == Text {
      if Covered(fs, p) {
        var k :| 0 <= k < |fs| && fs[k].start <= p < fs[k].end;
        assert Inside(ks, fs[k]);
      }
      if ks[p] == Text { TextCovered(ks, fs, p, 0); }
    }
    forall j, k | 0 <= j < k < |fs| ensures fs[j].end < fs[k].start { SplitOrdered(ks, fs, j, k); }
  }

  // ---------------------------------------------------------------- the variables

  function Chars(cells: seq<Cell>): (r: string)
    ensures |r| == |cells|
    ensures forall k :: 0 <= k < |cells| ==> r[k] == cells[k].c
  {
    seq(|cells|, k requires 0 <= k < |cells| => cells[k].c)
  }

  function KindsOf(ifs: string, cells: seq<Cell>): (r: seq<Kind>)
    ensures |r| == |cells|
    ensures forall k :: 0 <= k < |cells| ==> r[k] == KindOf(ifs, cells[k])
  {
    seq(|cells|, k requires 0 <= k < |cells| => KindOf(ifs, cells[k]))
  }

  /** Where the value of variable `i` of `n` ends. */
  function ValueEnd(ks: seq<Kind>, n: nat, i: nat): nat
    requires i < |Fields(ks)|
  {
    if i + 1 == n && i + 1 < |Fields(ks)| then TrimmedEnd(ks, |ks|) else Fields(ks)[i].end
  }

  lemma {:induction false} TrimmedMeans(ks: seq<Kind>, end: nat)
    requires end <= |ks|
    ensures AllSpaces(ks, TrimmedEnd(ks, end), end)
    ensures TrimmedEnd(ks, end) > 0 ==> ks[TrimmedEnd(ks, end) - 1] != Space
  {
    if end > 0 && ks[end - 1] == Space { TrimmedMeans(ks, end - 1); }
  }

  /** The value of a variable never ends before it starts. When fields are left over, the last
      variable's value goes from its field to the last character that is not IFS white space,
      so it holds all the remaining fields. */
  lemma LastValueEnds(ks: seq<Kind>, n: nat, i: nat)
    requires i < |Fields(ks)|
    ensures Fields(ks)[i].start <= ValueEnd(ks, n, i) <= |ks|
    ensures i + 1 == n && n < |Fields(ks)| ==>
      && AllSpaces(ks, ValueEnd(ks, n, i), |ks|)
      && forall k :: i < k < |Fields(ks)| ==>
          Fields(ks)[k].start < ValueEnd(ks, n, i) && Fields(ks)[k].end <= ValueEnd(ks, n, i)
  {
    var fs := Fields(ks);
    FieldsSplit(ks);
    assert Inside(ks, fs[i]);
    if i + 1 == n && n < |fs| {
      TrimmedMeans(ks, |ks|);
      var end := ValueEnd(ks, n, i);
      forall k | i < k < |fs| ensures fs[k].start < end && fs[k].end <= end {
        assert Inside(ks, fs[k]);
        StartsAtNonSpace(ks, fs, k);
        if fs[k].start < fs[k].end { assert ks[fs[k].end - 1] == Text; }
      }
      assert fs[n].start < end;
      SplitOrdered(ks, fs, i, n);
    }
  }

  lemma StartsAtNonSpace(ks: seq<Kind>, fs: seq<Field>, k: nat)
    requires IsSplit(ks, fs) && k < |fs|
    ensures fs[k].start < |ks| && ks[fs[k].start] != Space
  {
    assert Inside(ks, fs[k]);
    if k > 0 { assert IsOneDelimiter(ks, fs[k - 1].end, fs[k - 1 + 1].start); }
  }

  function Value(cells: seq<Cell>, ks: seq<Kind>, n: nat, i: nat): string
    requires |cells| == |ks|
  {
    if i >= |Fields(ks)| then ""
    else
      var from, to := Fields(ks)[i].start, ValueEnd(ks, n, i);
      if from <= to <= |cells| then Chars(cells)[from..to] else ""
  }

  /** The values of `n` variables. */
  function Values(raw: string, rawMode: bool, ifs: string, n: nat): (r: seq<string>)
    ensures |r| == n
  {
    var cells := Unescape(raw, rawMode, 0);
    seq(n, i requires 0 <= i < n => Value(cells, KindsOf(ifs, cells), n, i))
  }

  method TrimEnd(ks: seq<Kind>) returns (end: nat)
    ensures end == TrimmedEnd(ks, |ks|)
  {
    end := |ks|;
    while end > 0 && IsSpaceAt(ks, end - 1)
      invariant end <= |ks| && TrimmedEnd(ks, end) == TrimmedEnd(ks, |ks|)
    {
      end := end - 1;
    }
  }

  /** `assign_posix_fields`, up to the assignment of the values. */
  method AssignPosixFields(raw: string, rawMode: bool, ifs: string, n: nat) returns (values: seq<string>)
    ensures values == Values(raw, rawMode, ifs, n)
  {
    var cells := RemoveBackslashes(raw, rawMode);
    var ks := KindsOf(ifs, cells);
    var fields := CutFields(ks);
    var end := TrimEnd(ks);
    var input := Chars(cells);
    values := [];
    for i := 0 to n
      invariant values == Values(raw, rawMode, ifs, n)[..i]
    {
      var value := "";
      if i < |fields| {
        var fieldEnd := if i + 1 == n && i + 1 < |fields| then end else fields[i].end;
        LastValueEnds(ks, n, i);
        value := input[fields[i].start..fieldEnd];
      }
      values := values + [value];
    }
  }

  // ---------------------------------------------------------------- escaping protects

  /** A backslash before every character. */
  function Protect(s: string): string {
    if s == "" then "" else ['\\', s[0]] + Protect(s[1..])
  }

  /** What is left of a protected string: an escaped newline joins lines. */
  function WithoutNewlines(s: string): string {
    if s == "" then "" else (if s[0] == '\n' then "" else [s[0]]) + WithoutNewlines(s[1..])
  }

  function AllQuoted(s: string): (r: seq<Cell>)
    ensures |r| == |s|
    ensures forall k :: 0 <= k < |s| ==> r[k] == Cell(s[k], true)
  {
    seq(|s|, k requires 0 <= k < |s| => Cell(s[k], true))
  }

  lemma {:induction false} ProtectAt(s: string, k: nat)
    requires k < |s|
    ensures |Protect(s)| == 2 * |s|
    ensures Protect(s)[2 * k] == '\\' && Protect(s)[2 * k + 1] == s[k]
    decreases |s|
  {
    if |s| == 1 {
      assert Protect(s[1..]) == "";
    } else {
      ProtectAt(s[1..], if k > 0 then k - 1 else 0);
    }
  }

  lemma AllQuotedCons(c: char, s: string)
    ensures AllQuoted([c] + s) == [Cell(c, true)] + AllQuoted(s)
  {
  }

  lemma {:induction false} ProtectedUnescapes(s: string, k: nat)
    requires k <= |s|
    ensures Unescape(Protect(s), false, 2 * k) == AllQuoted(WithoutNewlines(s[k..]))
    decreases |s| - k
  {
    if k < |s| {
      ProtectAt(s, k);
      ProtectedUnescapes(s, k + 1);
      assert s[k..][1..] == s[k + 1..] && s[k..][0] == s[k];
      var rest := WithoutNewlines(s[k + 1..]);
      if s[k] == '\n' {
        NoneBefore(rest);
        NoneBefore(AllQuoted(rest));
      } else {
        AllQuotedCons(s[k], rest);
      }
    } else if s != "" {
      ProtectAt(s, 0);
      assert s[k..] == "";
    }
  }

  lemma {:induction false} TextToEnd(ks: seq<Kind>, p: nat)
    requires p <= |ks| && AllText(ks, p, |ks|)
    ensures PastText(ks, p) == |ks|
    decreases |ks| - p
  {
    if p < |ks| { TextToEnd(ks, p + 1); }
  }

  /** Text that is all escaped is one field. */
  lemma OnlyText(ks: seq<Kind>)
    requires AllText(ks, 0, |ks|)
    ensures Fields(ks) == if ks == [] then [] else [Field(0, |ks|)]
  {
    TextToEnd(ks, 0);
  }

  /** A backslash before every character protects any string from IFS: the first variable gets
      it whole, except that escaped newlines disappear, and the others get nothing. */
  lemma {:induction false} ProtectedValue(s: string, ifs: string, n: nat)
    requires n > 0
    ensures Values(Protect(s), false, ifs, n)[0] == WithoutNewlines(s)
    ensures forall i :: 0 < i < n ==> Values(Protect(s), false, ifs, n)[i] == ""
  {
    ProtectedUnescapes(s, 0);
    assert s[0..] == s;
    var cells := AllQuoted(WithoutNewlines(s));
    OnlyText(KindsOf(ifs, cells));
    assert Chars(cells) == WithoutNewlines(s);
    assert Chars(cells)[0..|cells|] == Chars(cells);
  }
}

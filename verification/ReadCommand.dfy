/** The `read` builtin in POSIX mode: collecting the input and splitting it, together. */
module ReadCommand {
  import opened Sequences
  import opened ReadInput
  import opened FieldSplitting

  // ---------------------------------------------------------------- the variables

  /** How many names can be assigned, from the front, before one that is readonly. */
  function Writable(names: seq<string>, readonly: set<string>): (n: nat)
    ensures n <= |names|
  {
    if names == [] || names[0] in readonly then 0 else 1 + Writable(names[1..], readonly)
  }

  /** The variables after the first `n` names were given their values; a name given twice holds
      the later value. */
  function Assigned(vars: map<string, string>, names: seq<string>, values: seq<string>, n: nat): map<string, string>
    requires n <= |names| && n <= |values|
  {
    if n == 0 then vars else Assigned(vars, names, values, n - 1)[names[n - 1] := values[n - 1]]
  }

  lemma {:induction false} WritableFrom(names: seq<string>, readonly: set<string>, i: nat)
    requires i <= |names| && forall k :: 0 <= k < i ==> names[k] !in readonly
    ensures Writable(names, readonly) == i + Writable(names[i..], readonly)
    decreases i
  {
    if i == 0 {
      assert names[0..] == names;
    } else {
      WritableFrom(names[1..], readonly, i - 1);
      assert names[1..][i - 1..] == names[i..];
    }
  }

  /** The fields from `start` on, with a space between. */
  function Joined(fields: seq<string>, start: nat): string
    decreases |fields| - start
  {
    if start >= |fields| then ""
    else if start + 1 == |fields| then fields[start]
    else fields[start] + " " + Joined(fields, start + 1)
  }

  lemma {:induction false} JoinedSnoc(fields: seq<string>, start: nat, i: nat)
    requires start < i < |fields|
    ensures Joined(fields[..i + 1], start) == Joined(fields[..i], start) + " " + fields[i]
    decreases i - start
  {
    if start + 1 < i {
      JoinedSnoc(fields, start + 1, i);
      Assoc(fields[start] + " ", Joined(fields[..i], start + 1), " ");
      Assoc(fields[start] + " ", Joined(fields[..i], start + 1) + " ", fields[i]);
    }
  }

  /** `join_remaining_fields`. */
  method JoinRemaining(fields: seq<string>, start: nat) returns (joined: string)
    requires start < |fields|
    ensures joined == Joined(fields, start)
  {
    joined := "";
    for i := start to |fields|
      invariant joined == if i == start then "" else Joined(fields[..i], start)
    {
      if i > start {
        JoinedSnoc(fields, start, i);
        joined := joined + " ";
      }
      ghost var before := joined;
      joined := joined + fields[i];
      if i == start { NoneBefore(fields[i]); }
    }
    assert fields[..|fields|] == fields;
  }

  /** What `n` names get of some fields: one each, the last one all that are left, and those
      without a field nothing. */
  function Shared(fields: seq<string>, n: nat): (r: seq<string>)
    ensures |r| == n
    ensures |fields| == n ==> r == fields
  {
    seq(n, i requires 0 <= i < n =>
      if i >= |fields| then "" else if i == n - 1 && |fields| > n then Joined(fields, i) else fields[i])
  }

  /** All of a list of different names get their own values. */
  lemma {:induction false} AssignedAt(vars: map<string, string>, names: seq<string>, values: seq<string>, n: nat,
      k: nat)
    requires k < n <= |names| && n <= |values|
    requires forall i, j :: 0 <= i < j < n ==> names[i] != names[j]
    ensures names[k] in Assigned(vars, names, values, n) && Assigned(vars, names, values, n)[names[k]] == values[k]
  {
    if k < n - 1 { AssignedAt(vars, names, values, n - 1, k); }
  }

  lemma {:induction false} WritableIs(names: seq<string>, readonly: set<string>)
    ensures var n := Writable(names, readonly);
      (forall k :: 0 <= k < n ==> names[k] !in readonly) && (n < |names| ==> names[n] in readonly)
  {
    if names != [] && names[0] !in readonly {
      WritableIs(names[1..], readonly);
      forall k | 0 < k < Writable(names, readonly) ensures names[k] !in readonly {
        assert names[1..][k - 1] == names[k];
      }
    }
  }

  /** Fields with one space between each two. */
  function Spaced(fields: seq<string>): string {
    if fields == [] then ""
    else if |fields| == 1 then fields[0]
    else fields[0] + " " + Spaced(fields[1..])
  }

  lemma {:induction false} JoinedSpaced(fields: seq<string>, start: nat)
    requires start <= |fields|
    ensures Joined(fields, start) == Spaced(fields[start..])
    decreases |fields| - start
  {
    if start + 1 < |fields| {
      JoinedSpaced(fields, start + 1);
      assert fields[start..][1..] == fields[start + 1..];
    }
  }

  lemma {:induction false} OthersKept(vars: map<string, string>, names: seq<string>, values: seq<string>, n: nat,
      x: string)
    requires n <= |names| && n <= |values| && forall k :: 0 <= k < n ==> names[k] != x
    ensures x in Assigned(vars, names, values, n) <==> x in vars
    ensures x in vars ==> Assigned(vars, names, values, n)[x] == vars[x]
  {
    if n > 0 { OthersKept(vars, names, values, n - 1, x); }
  }

  /** The name is given a value: no name up to it is readonly. */
  predicate IsGiven(names: seq<string>, readonly: set<string>, k: nat) {
    k < |names| && forall j :: 0 <= j <= k ==> names[j] !in readonly
  }

  /** Of different names, those before the first readonly one get a field each, or nothing when
      there are too few; the last name gets all fields that are left, with spaces between. No
      other variable changes. */
  lemma NamesGet(vars: map<string, string>, names: seq<string>, fields: seq<string>, readonly: set<string>,
      result: map<string, string>)
    requires forall i, j :: 0 <= i < j < |names| ==> names[i] != names[j]
    requires result == Assigned(vars, names, Shared(fields, |names|), Writable(names, readonly))
    ensures forall k: nat :: IsGiven(names, readonly, k) ==>
      names[k] in result
      && result[names[k]] == if k >= |fields| then ""
                             else if k + 1 < |names| then fields[k]
                             else Spaced(fields[k..])
    ensures forall x :: (forall k: nat :: IsGiven(names, readonly, k) ==> names[k] != x) ==>
      (x in result <==> x in vars) && (x in vars ==> result[x] == vars[x])
  {
    var n, values := Writable(names, readonly), Shared(fields, |names|);
    WritableIs(names, readonly);
    forall k: nat | IsGiven(names, readonly, k)
      ensures names[k] in result
      ensures result[names[k]] == if k >= |fields| then ""
                                  else if k + 1 < |names| then fields[k]
                                  else Spaced(fields[k..])
    {
      assert k < n;
      AssignedAt(vars, names, values, n, k);
      if k < |fields| { JoinedSpaced(fields, k); }
    }
    forall x | forall k: nat :: IsGiven(names, readonly, k) ==> names[k] != x
      ensures (x in result <==> x in vars) && (x in vars ==> result[x] == vars[x])
    {
      forall k | 0 <= k < n ensures names[k] != x { assert IsGiven(names, readonly, k); }
      OthersKept(vars, names, values, n, x);
    }
  }

  class Variables {
    const readonly: set<string>
    var values: map<string, string>

    constructor (readonly: set<string>)
      ensures this.readonly == readonly && values == map[]
    {
      this.readonly, values := readonly, map[];
    }

    /** `assign_fields_to_variables`. */
    method AssignFields(names: seq<string>, fields: seq<string>) returns (ok: bool)
      modifies this`values
      ensures values == Assigned(old(values), names, Shared(fields, |names|), Writable(names, readonly))
      ensures ok <==> Writable(names, readonly) == |names|
    {
      for i := 0 to |names|
        invariant values == Assigned(old(values), names, Shared(fields, |names|), i)
        invariant forall k :: 0 <= k < i ==> names[k] !in readonly
      {
        WritableFrom(names, readonly, i);
        if names[i] in readonly { return false; }
        var value := "";
        if i < |fields| {
          if i == |names| - 1 && |fields| > |names| {
            value := JoinRemaining(fields, i);
          } else {
            value := fields[i];
          }
        }
        values := values[names[i] := value];
      }
      WritableFrom(names, readonly, |names|);
      return true;
    }
  }

  /** `collect_variable_names`. */
  function Names(operands: seq<string>): (names: seq<string>)
    ensures names != []
  {
    if operands == [] then ["REPLY"] else operands
  }

  /** The builtin after its options: the variables, the file offset and the exit status. At the
      end of the file the variables are still assigned. */
  method ReadPosix(file: File, o: Options, bufferedFile: bool, ifs: string, operands: seq<string>, vars: Variables)
      returns (exit: nat)
    requires o.posix
    modifies file`offset, vars`values
    ensures var c := Collect(file.bytes, o, old(file.offset));
      var names := if operands == [] then ["REPLY"] else operands;
      && file.offset == c.offset
      && vars.values
          == Assigned(old(vars.values), names, Values(c.input, o.rawMode, ifs, |names|), Writable(names, vars.readonly))
      && exit == (if c.status == Success && Writable(names, vars.readonly) == |names| then 0 else 1)
  {
    var names := Names(operands);
    var input, status := CollectInput(file, o, bufferedFile);
    var values := AssignPosixFields(input, o.rawMode, ifs, |names|);
    var ok := vars.AssignFields(names, values);
    exit := if status == Success && ok then 0 else 1;
  }

  // ---------------------------------------------------------------- protected strings

  /** `text` stands in `bytes` at `at`. */
  predicate StandsAt(text: string, bytes: string, at: nat) {
    at + |text| <= |bytes| && bytes[at..at + |text|] == text
  }

  lemma StandsAtIndex(text: string, bytes: string, at: nat, k: nat)
    requires StandsAt(text, bytes, at) && k < |text|
    ensures bytes[at + k] == text[k]
  {
    assert bytes[at..at + |text|][k] == text[k];
  }

  lemma {:induction false} ScanSkipsProtected(bytes: string, o: Options, at: nat, s: string, k: nat)
    requires o.posix && !o.rawMode && '\\' !in o.delim
    requires k <= |s| && |Protect(s)| == 2 * |s| && StandsAt(Protect(s), bytes, at)
    ensures at + 2 * |s| <= |bytes|
    ensures Scan(bytes, o, at + 2 * k, false) == Scan(bytes, o, at + 2 * |s|, false)
    decreases |s| - k
  {
    if k < |s| {
      ProtectAt(s, k);
      StandsAtIndex(Protect(s), bytes, at, 2 * k);
      StandsAtIndex(Protect(s), bytes, at, 2 * k + 1);
      ScanSkipsProtected(bytes, o, at, s, k + 1);
    }
  }

  lemma {:induction false} ProtectLength(s: string)
    ensures |Protect(s)| == 2 * |s|
  {
    if s != "" { ProtectAt(s, 0); }
  }

  lemma PrefixStands(p: string, d: char, bytes: string, at: nat)
    requires StandsAt(p + [d], bytes, at)
    ensures StandsAt(p, bytes, at) && at + |p| < |bytes| && bytes[at + |p|] == d
  {
    assert bytes[at..at + |p| + 1][..|p|] == bytes[at..at + |p|];
    assert (p + [d])[..|p|] == p;
    StandsAtIndex(p + [d], bytes, at, |p|);
  }

  lemma ScanStops(bytes: string, o: Options, at: nat, s: string, p: string, d: char)
    requires o.posix && !o.rawMode && '\\' !in o.delim && d in o.delim
    requires p == Protect(s) && StandsAt(p, bytes, at) && at + |p| < |bytes| && bytes[at + |p|] == d
    ensures Scan(bytes, o, at, false) == at + |p|
  {
    ProtectLength(s);
    ScanSkipsProtected(bytes, o, at, s, 0);
  }

  lemma CollectsText(bytes: string, o: Options, at: nat, p: string)
    requires o.nchars <= 0 && Scan(bytes, o, at, false) == at + |p| < |bytes| && StandsAt(p, bytes, at)
    ensures Collect(bytes, o, at) == Collected(p, Success, at + |p| + 1)
  {
  }

  lemma CollectsProtected(bytes: string, o: Options, at: nat, s: string, p: string, d: char)
    requires o.posix && !o.rawMode && o.nchars <= 0 && '\\' !in o.delim && d in o.delim
    requires p == Protect(s) && StandsAt(p + [d], bytes, at)
    ensures Collect(bytes, o, at) == Collected(p, Success, at + |p| + 1)
  {
    PrefixStands(p, d, bytes, at);
    ScanStops(bytes, o, at, s, p, d);
    CollectsText(bytes, o, at, p);
  }

  /** A string written with a backslash before every character and ended by a delimiter is read
      back, whatever the string, IFS and the delimiters are (backslash not being one of them);
      the read stops right after the delimiter. Escaped newlines alone disappear. */
  lemma ProtectedReadBack(bytes: string, o: Options, at: nat, s: string, d: char, ifs: string, n: nat)
    requires o.posix && !o.rawMode && o.nchars <= 0 && '\\' !in o.delim && d in o.delim
    requires StandsAt(Protect(s) + [d], bytes, at) && n > 0
    ensures var c := Collect(bytes, o, at);
      && c.status == Success && c.offset == at + 2 * |s| + 1
      && Values(c.input, o.rawMode, ifs, n)[0] == WithoutNewlines(s)
      && forall i :: 0 < i < n ==> Values(c.input, o.rawMode, ifs, n)[i] == ""
  {
    CollectsProtected(bytes, o, at, s, Protect(s), d);
    ProtectLength(s);
    ProtectedValue(s, ifs, n);
  }
}

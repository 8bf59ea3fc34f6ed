/** The edit distance with a limit, computed row by row and cut off early. */
module EditDistance {
  import opened Arithmetic

  const INT_MAX: int := 0x7FFF_FFFF

  /** The distance of the first `i` characters of `a` and the first `j` of `b`. */
  function PrefixDistance(a: string, b: string, i: nat, j: nat): nat
    requires i <= |a| && j <= |b|
  {
    if i == 0 then j
    else if j == 0 then i
    else
      Best(PrefixDistance(a, b, i - 1, j), PrefixDistance(a, b, i, j - 1), PrefixDistance(a, b, i - 1, j - 1),
           a[i - 1] == b[j - 1])
  }

  /** An entry of the table from the ones above it, before it and across. */
  function Best(above: nat, left: nat, across: nat, same: bool): nat {
    Min(Min(above, left) + 1, if same then across else across + 1)
  }

  function Distance(a: string, b: string): nat {
    PrefixDistance(a, b, |a|, |b|)
  }

  // ---------------------------------------------------------------- what the distance is

  /** What may be done with a character, from left to right. */
  datatype Edit = Keep | Replace | Insert | Delete

  /** The edits turn the first `i` characters of `a` into the first `j` of `b`. */
  predicate Turns(edits: seq<Edit>, a: string, b: string, i: nat, j: nat)
    requires i <= |a| && j <= |b|
  {
    if edits == [] then i == 0 && j == 0
    else
      var before := edits[..|edits| - 1];
      match edits[|edits| - 1]
      case Keep => i > 0 && j > 0 && a[i - 1] == b[j - 1] && Turns(before, a, b, i - 1, j - 1)
      case Replace => i > 0 && j > 0 && Turns(before, a, b, i - 1, j - 1)
      case Insert => j > 0 && Turns(before, a, b, i, j - 1)
      case Delete => i > 0 && Turns(before, a, b, i - 1, j)
  }

  /** The number of edits that change something. */
  function Cost(edits: seq<Edit>): nat {
    if edits == [] then 0 else Cost(edits[..|edits| - 1]) + if edits[|edits| - 1].Keep? then 0 else 1
  }

  lemma {:induction false} NoneCheaper(edits: seq<Edit>, a: string, b: string, i: nat, j: nat)
    requires i <= |a| && j <= |b| && Turns(edits, a, b, i, j)
    ensures Cost(edits) >= PrefixDistance(a, b, i, j)
  {
    if edits != [] {
      var before := edits[..|edits| - 1];
      match edits[|edits| - 1]
      case Keep => NoneCheaper(before, a, b, i - 1, j - 1);
      case Replace => NoneCheaper(before, a, b, i - 1, j - 1);
      case Insert =>
        NoneCheaper(before, a, b, i, j - 1);
        NeighboursClose(a, b, i, j);
      case Delete =>
        NoneCheaper(before, a, b, i - 1, j);
        NeighboursClose(a, b, i, j);
    }
  }

  /** One character more changes the distance by at most one upwards. */
  lemma {:induction false} NeighboursClose(a: string, b: string, i: nat, j: nat)
    requires i <= |a| && j <= |b|
    ensures j > 0 ==> PrefixDistance(a, b, i, j) <= PrefixDistance(a, b, i, j - 1) + 1
    ensures i > 0 ==> PrefixDistance(a, b, i, j) <= PrefixDistance(a, b, i - 1, j) + 1
  {
  }

  lemma ExtendEdits(edits: seq<Edit>, e: Edit)
    ensures (edits + [e])[..|edits|] == edits
    ensures Cost(edits + [e]) == Cost(edits) + if e.Keep? then 0 else 1
  {
    assert (edits + [e])[..|edits|] == edits;
  }

  lemma {:induction false} SomeCheapest(a: string, b: string, i: nat, j: nat) returns (edits: seq<Edit>)
    requires i <= |a| && j <= |b|
    ensures Turns(edits, a, b, i, j) && Cost(edits) == PrefixDistance(a, b, i, j)
  {
    if i == 0 && j == 0 { return []; }
    var d := PrefixDistance(a, b, i, j);
    var before: seq<Edit>, e: Edit;
    if j > 0 && d == PrefixDistance(a, b, i, j - 1) + 1 {
      before := SomeCheapest(a, b, i, j - 1);
      e := Insert;
    } else if i > 0 && d == PrefixDistance(a, b, i - 1, j) + 1 {
      before := SomeCheapest(a, b, i - 1, j);
      e := Delete;
    } else {
      before := SomeCheapest(a, b, i - 1, j - 1);
      e := if a[i - 1] == b[j - 1] then Keep else Replace;
    }
    ExtendEdits(before, e);
    edits := before + [e];
  }

  /** The distance is the least number of insertions, deletions and replacements of characters
      that turns the one string into the other. */
  lemma DistanceIsLeast(a: string, b: string)
    ensures forall edits :: Turns(edits, a, b, |a|, |b|) ==> Cost(edits) >= Distance(a, b)
    ensures exists edits :: Turns(edits, a, b, |a|, |b|) && Cost(edits) == Distance(a, b)
  {
    forall edits | Turns(edits, a, b, |a|, |b|) ensures Cost(edits) >= Distance(a, b) {
      NoneCheaper(edits, a, b, |a|, |b|);
    }
    var edits := SomeCheapest(a, b, |a|, |b|);
  }

  lemma BestSymmetric(above: nat, left: nat, across: nat, same: bool)
    ensures Best(above, left, across, same) == Best(left, above, across, same)
  {
  }

  /** A table entry, and the entry of the transposed table, whose neighbours are the same. */
  lemma TransposedStep(a: string, b: string, i: nat, j: nat)
    requires 0 < i <= |a| && 0 < j <= |b|
    requires PrefixDistance(a, b, i - 1, j) == PrefixDistance(b, a, j, i - 1)
    requires PrefixDistance(a, b, i, j - 1) == PrefixDistance(b, a, j - 1, i)
    requires PrefixDistance(a, b, i - 1, j - 1) == PrefixDistance(b, a, j - 1, i - 1)
    ensures PrefixDistance(a, b, i, j) == PrefixDistance(b, a, j, i)
  {
    BestSymmetric(PrefixDistance(a, b, i - 1, j), PrefixDistance(a, b, i, j - 1), PrefixDistance(a, b, i - 1, j - 1),
                  a[i - 1] == b[j - 1]);
  }

  lemma {:induction false} PrefixSymmetric(a: string, b: string, i: nat, j: nat)
    requires i <= |a| && j <= |b|
    ensures PrefixDistance(a, b, i, j) == PrefixDistance(b, a, j, i)
  {
    if i > 0 && j > 0 {
      PrefixSymmetric(a, b, i - 1, j);
      PrefixSymmetric(a, b, i, j - 1);
      PrefixSymmetric(a, b, i - 1, j - 1);
      TransposedStep(a, b, i, j);
    }
  }

  lemma {:induction false} PrefixZero(a: string, b: string, i: nat, j: nat)
    requires i <= |a| && j <= |b|
    ensures PrefixDistance(a, b, i, j) == 0 <==> i == j && forall k :: 0 <= k < i ==> a[k] == b[k]
  {
    if i > 0 && j > 0 { PrefixZero(a, b, i - 1, j - 1); }
  }

  /** It does not depend on the direction, and is 0 for equal strings only. */
  lemma {:induction false} DistanceSymmetric(a: string, b: string)
    ensures Distance(a, b) == Distance(b, a)
    ensures Distance(a, b) == 0 <==> a == b
  {
    PrefixSymmetric(a, b, |a|, |b|);
    PrefixZero(a, b, |a|, |b|);
  }

  // ---------------------------------------------------------------- the cuts

  lemma {:induction false} AtLeastDifference(a: string, b: string, i: nat, j: nat)
    requires i <= |a| && j <= |b|
    ensures PrefixDistance(a, b, i, j) >= i - j && PrefixDistance(a, b, i, j) >= j - i
  {
    if i > 0 && j > 0 {
      AtLeastDifference(a, b, i - 1, j);
      AtLeastDifference(a, b, i, j - 1);
      AtLeastDifference(a, b, i - 1, j - 1);
    }
  }

  ghost predicate RowAbove(a: string, b: string, i: nat, limit: int)
    requires i <= |a|
  {
    forall j :: 0 <= j <= |b| ==> PrefixDistance(a, b, i, j) > limit
  }

  lemma {:induction false} NextAbove(a: string, b: string, i: nat, j: nat, limit: int)
    requires i < |a| && j <= |b| && RowAbove(a, b, i, limit)
    ensures PrefixDistance(a, b, i + 1, j) > limit
  {
    assert PrefixDistance(a, b, i, j) > limit;
    if j > 0 {
      NextAbove(a, b, i, j - 1, limit);
      assert PrefixDistance(a, b, i, j - 1) > limit;
    }
  }

  /** Once a whole row is above the limit, so are all rows below it. */
  lemma {:induction false} RowsStayAbove(a: string, b: string, i: nat, limit: int)
    requires i <= |a| && RowAbove(a, b, i, limit)
    ensures Distance(a, b) > limit
    decreases |a| - i
  {
    if i < |a| {
      var next := i + 1;
      forall j | 0 <= j <= |b| ensures PrefixDistance(a, b, next, j) > limit { NextAbove(a, b, i, j, limit); }
      RowsStayAbove(a, b, next, limit);
    } else {
      assert PrefixDistance(a, b, i, |b|) > limit;
    }
  }

  // ---------------------------------------------------------------- the computation

  ghost predicate IsRow(a: string, b: string, i: nat, row: array<int>, to: nat)
    requires i <= |a| && to <= |b| + 1
    reads row
  {
    row.Length == |b| + 1 && forall j :: 0 <= j < to ==> row[j] == PrefixDistance(a, b, i, j)
  }

  /** The inner loop: row `i` from the row before it, and its least entry. */
  method FillRow(a: string, b: string, i: nat, previous: array<int>, current: array<int>) returns (rowMin: int)
    requires 0 < i <= |a| && IsRow(a, b, i - 1, previous, |b| + 1) && current.Length == |b| + 1 && previous != current
    modifies current
    ensures IsRow(a, b, i, current, |b| + 1)
    ensures forall j :: 0 <= j <= |b| ==> rowMin <= PrefixDistance(a, b, i, j)
  {
    current[0] := i;
    rowMin := current[0];
    for j := 1 to |b| + 1
      invariant IsRow(a, b, i - 1, previous, |b| + 1) && IsRow(a, b, i, current, j)
      invariant forall k :: 0 <= k < j ==> rowMin <= PrefixDistance(a, b, i, k)
    {
      var cost := if a[i - 1] == b[j - 1] then 0 else 1;
      var least := previous[j] + 1;
      if current[j - 1] + 1 < least { least := current[j - 1] + 1; }
      if previous[j - 1] + cost < least { least := previous[j - 1] + cost; }
      assert least == PrefixDistance(a, b, i, j);
      current[j] := least;
      if least < rowMin { rowMin := least; }
    }
  }

  /** `levenshtein_distance_with_limit`: the distance, when it is within the limit; otherwise
      some number above the limit. */
  method DistanceWithLimit(a: string, b: string, limit: int) returns (d: int)
    ensures limit < 0 ==> d == INT_MAX
    ensures limit >= 0 && Distance(a, b) <= limit ==> d == Distance(a, b)
    ensures limit >= 0 && Distance(a, b) > limit ==> d > limit
  {
    if limit < 0 { return INT_MAX; }
    AtLeastDifference(a, b, |a|, |b|);
    if |a| - |b| > limit || |b| - |a| > limit { return limit + 1; }
    var previous, current := new int[|b| + 1], new int[|b| + 1];
    for j := 0 to |b| + 1
      invariant IsRow(a, b, 0, previous, j)
    {
      previous[j] := j;
    }
    for i := 1 to |a| + 1
      invariant previous != current && current.Length == |b| + 1 && fresh(previous) && fresh(current)
      invariant IsRow(a, b, i - 1, previous, |b| + 1)
    {
      var rowMin := FillRow(a, b, i, previous, current);
      if rowMin > limit {
        RowsStayAbove(a, b, i, limit);
        return limit + 1;
      }
      previous, current := current, previous;
    }
    return previous[|b|];
  }
}

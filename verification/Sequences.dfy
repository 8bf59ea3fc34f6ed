/** Sequence functions shared by the models, and the theory of stable sorting they need.

    `std::stable_sort` is a library routine of the program. Here it is the function
    `Sort`; `IsStableSort` says what the library promises and `StableSortIsUnique` that
    the promise has only one answer. */
module Sequences {

  function Filter<T>(p: T -> bool, xs: seq<T>): (r: seq<T>)
    ensures |r| <= |xs|
  {
    if xs == [] then []
    else if p(xs[0]) then [xs[0]] + Filter(p, xs[1..])
    else Filter(p, xs[1..])
  }

  function Map<A, B>(f: A -> B, xs: seq<A>): (r: seq<B>)
    ensures |r| == |xs|
    ensures forall i :: 0 <= i < |xs| ==> r[i] == f(xs[i])
  {
    if xs == [] then [] else [f(xs[0])] + Map(f, xs[1..])
  }

  function Reverse<T>(xs: seq<T>): (r: seq<T>)
    ensures |r| == |xs|
  {
    if xs == [] then [] else Reverse(xs[1..]) + [xs[0]]
  }

  function Take<T>(xs: seq<T>, n: nat): (r: seq<T>)
    ensures |r| <= n
  {
    if |xs| <= n then xs else xs[..n]
  }

  lemma {:induction false} FilterAppend<T>(p: T -> bool, xs: seq<T>, ys: seq<T>)
    ensures Filter(p, xs + ys) == Filter(p, xs) + Filter(p, ys)
  {
    if xs == [] {
      assert xs + ys == ys;
    } else {
      FilterAppend(p, xs[1..], ys);
      assert (xs + ys)[1..] == xs[1..] + ys && (xs + ys)[0] == xs[0];
      Assoc([xs[0]], Filter(p, xs[1..]), Filter(p, ys));
    }
  }

  lemma NoneBefore<T>(xs: seq<T>)
    ensures [] + xs == xs && xs + [] == xs
  {
  }

  lemma Uncons<T>(xs: seq<T>)
    requires xs != []
    ensures [xs[0]] + xs[1..] == xs
  {
  }

  lemma Assoc<T>(a: seq<T>, b: seq<T>, c: seq<T>)
    ensures (a + b) + c == a + (b + c)
  {
  }

  lemma Assoc4<T>(a: seq<T>, b: seq<T>, c: seq<T>, d: seq<T>)
    ensures a + (b + c + d) == (a + b + c) + d
  {
  }

  lemma {:induction false} FilterMembers<T>(p: T -> bool, xs: seq<T>)
    ensures forall x :: x in Filter(p, xs) <==> x in xs && p(x)
  {
    if xs != [] {
      FilterMembers(p, xs[1..]);
      assert xs == [xs[0]] + xs[1..];
    }
  }

  lemma {:induction false} FilterFilter<T>(p: T -> bool, q: T -> bool, xs: seq<T>)
    ensures Filter(p, Filter(q, xs)) == Filter((x: T) => q(x) && p(x), xs)
  {
    if xs != [] {
      FilterFilter(p, q, xs[1..]);
      if q(xs[0]) {
        assert ([xs[0]] + Filter(q, xs[1..]))[1..] == Filter(q, xs[1..]);
      }
    }
  }

  lemma {:induction false} FilterCongruent<T>(p: T -> bool, q: T -> bool, xs: seq<T>)
    requires forall x :: x in xs ==> p(x) == q(x)
    ensures Filter(p, xs) == Filter(q, xs)
  {
    if xs != [] {
      FilterCongruent(p, q, xs[1..]);
    }
  }

  lemma {:induction false} FilterAll<T>(p: T -> bool, xs: seq<T>)
    requires forall x :: x in xs ==> p(x)
    ensures Filter(p, xs) == xs
  {
    if xs != [] {
      FilterAll(p, xs[1..]);
      assert xs == [xs[0]] + xs[1..];
    }
  }

  lemma {:induction false} FilterNone<T>(p: T -> bool, xs: seq<T>)
    requires forall x :: x in xs ==> !p(x)
    ensures Filter(p, xs) == []
  {
    if xs != [] {
      FilterNone(p, xs[1..]);
    }
  }

  lemma {:induction false} FilterReverse<T>(p: T -> bool, xs: seq<T>)
    ensures Filter(p, Reverse(xs)) == Reverse(Filter(p, xs))
  {
    if xs != [] {
      FilterReverse(p, xs[1..]);
      FilterAppend(p, Reverse(xs[1..]), [xs[0]]);
      if p(xs[0]) {
        assert ([xs[0]] + Filter(p, xs[1..]))[1..] == Filter(p, xs[1..]);
      }
    }
  }

  lemma {:induction false} MapAppend<A, B>(f: A -> B, xs: seq<A>, ys: seq<A>)
    ensures Map(f, xs + ys) == Map(f, xs) + Map(f, ys)
  {
  }

  lemma {:induction false} MapReverse<A, B>(f: A -> B, xs: seq<A>)
    ensures Map(f, Reverse(xs)) == Reverse(Map(f, xs))
  {
    if xs != [] {
      MapReverse(f, xs[1..]);
      MapAppend(f, Reverse(xs[1..]), [xs[0]]);
      assert ([f(xs[0])] + Map(f, xs[1..]))[1..] == Map(f, xs[1..]);
    }
  }

  lemma {:induction false} ReverseAt<T>(xs: seq<T>, k: nat)
    requires k < |xs|
    ensures Reverse(xs)[k] == xs[|xs| - 1 - k]
  {
    if k < |xs| - 1 {
      ReverseAt(xs[1..], k);
    }
  }

  /** A left fold whose step also sees the position, counted from `i`. */
  function Fold<S, T>(step: (S, nat, T) -> S, s: S, i: nat, xs: seq<T>): S {
    if xs == [] then s else step(Fold(step, s, i, xs[..|xs| - 1]), i + |xs| - 1, xs[|xs| - 1])
  }

  lemma {:induction false} FoldAppend<S, T>(step: (S, nat, T) -> S, s: S, i: nat, a: seq<T>, b: seq<T>)
    ensures Fold(step, s, i, a + b) == Fold(step, Fold(step, s, i, a), i + |a|, b)
    decreases |b|
  {
    if b == [] {
      NoneBefore(a);
    } else {
      FoldAppend(step, s, i, a, b[..|b| - 1]);
      assert (a + b)[..|a + b| - 1] == a + b[..|b| - 1];
    }
  }

  // ---------------------------------------------------------------- stable sorting

  /** What `std::stable_sort` asks of its comparison. */
  ghost predicate StrictWeakOrder<T(!new)>(less: (T, T) -> bool) {
    && (forall a :: !less(a, a))
    && (forall a, b, c :: less(a, b) && less(b, c) ==> less(a, c))
    && (forall a, b, c :: !less(a, b) && !less(b, c) ==> !less(a, c))
  }

  function Insert<T>(less: (T, T) -> bool, x: T, xs: seq<T>): (r: seq<T>)
    ensures |r| == |xs| + 1
  {
    if xs == [] || !less(xs[0], x) then [x] + xs else [xs[0]] + Insert(less, x, xs[1..])
  }

  function Sort<T>(less: (T, T) -> bool, xs: seq<T>): (r: seq<T>)
    ensures |r| == |xs|
  {
    if xs == [] then [] else Insert(less, xs[0], Sort(less, xs[1..]))
  }

  ghost predicate Sorted<T>(less: (T, T) -> bool, xs: seq<T>) {
    forall i, j :: 0 <= i < j < |xs| ==> !less(xs[j], xs[i])
  }

  function Equivalent<T>(less: (T, T) -> bool, t: T): T -> bool {
    x => !less(x, t) && !less(t, x)
  }

  /** The result is ordered and, within each class of elements the comparison does not
      tell apart, holds the same elements in the same order as the input. */
  ghost predicate IsStableSort<T(!new)>(less: (T, T) -> bool, xs: seq<T>, ys: seq<T>) {
    && Sorted(less, ys)
    && forall t :: Filter(Equivalent(less, t), ys) == Filter(Equivalent(less, t), xs)
  }

  lemma {:induction false} InsertMembers<T>(less: (T, T) -> bool, x: T, xs: seq<T>)
    ensures multiset(Insert(less, x, xs)) == multiset(xs) + multiset{x}
  {
    if xs != [] && less(xs[0], x) {
      InsertMembers(less, x, xs[1..]);
      assert xs == [xs[0]] + xs[1..];
    }
  }

  lemma ConsSorted<T>(less: (T, T) -> bool, x: T, xs: seq<T>)
    requires Sorted(less, xs)
    requires forall k :: 0 <= k < |xs| ==> !less(xs[k], x)
    ensures Sorted(less, [x] + xs)
  {
  }

  lemma {:induction false} InsertSorted<T(!new)>(less: (T, T) -> bool, x: T, xs: seq<T>)
    requires StrictWeakOrder(less) && Sorted(less, xs)
    ensures Sorted(less, Insert(less, x, xs))
  {
    if xs == [] || !less(xs[0], x) {
      forall k | 0 <= k < |xs| ensures !less(xs[k], x) {
        if k > 0 { assert !less(xs[k], xs[0]); }
      }
      ConsSorted(less, x, xs);
    } else {
      InsertSorted(less, x, xs[1..]);
      var r := Insert(less, x, xs[1..]);
      InsertMembers(less, x, xs[1..]);
      forall k | 0 <= k < |r| ensures !less(r[k], xs[0]) {
        assert r[k] in multiset(r);
        if r[k] != x {
          assert r[k] in multiset(xs[1..]);
        }
      }
      ConsSorted(less, xs[0], r);
    }
  }

  lemma {:induction false} SortSorted<T(!new)>(less: (T, T) -> bool, xs: seq<T>)
    requires StrictWeakOrder(less)
    ensures Sorted(less, Sort(less, xs))
    ensures multiset(Sort(less, xs)) == multiset(xs)
  {
    if xs != [] {
      SortSorted(less, xs[1..]);
      InsertSorted(less, xs[0], Sort(less, xs[1..]));
      InsertMembers(less, xs[0], Sort(less, xs[1..]));
      assert xs == [xs[0]] + xs[1..];
    }
  }

  lemma {:induction false} InsertFilter<T(!new)>(less: (T, T) -> bool, p: T -> bool, x: T, xs: seq<T>)
    requires StrictWeakOrder(less) && Sorted(less, xs)
    ensures Filter(p, Insert(less, x, xs))
         == if p(x) then Insert(less, x, Filter(p, xs)) else Filter(p, xs)
  {
    if xs == [] || !less(xs[0], x) {
      var ys := Filter(p, xs);
      assert ([x] + xs)[1..] == xs;
      if p(x) && ys != [] {
        FilterMembers(p, xs);
        assert ys[0] in ys;
        var k :| 0 <= k < |xs| && xs[k] == ys[0];
        assert !less(ys[0], x) by {
          if k > 0 { assert !less(xs[k], xs[0]); }
        }
      }
    } else {
      InsertFilter(less, p, x, xs[1..]);
      var r := Insert(less, x, xs[1..]);
      assert ([xs[0]] + r)[1..] == r;
      if p(xs[0]) {
        assert ([xs[0]] + Filter(p, xs[1..]))[1..] == Filter(p, xs[1..]);
      }
    }
  }

  /** Filtering before or after a stable sort is the same. */
  lemma {:induction false} SortFilter<T(!new)>(less: (T, T) -> bool, p: T -> bool, xs: seq<T>)
    requires StrictWeakOrder(less)
    ensures Filter(p, Sort(less, xs)) == Sort(less, Filter(p, xs))
  {
    if xs != [] {
      SortFilter(less, p, xs[1..]);
      SortSorted(less, xs[1..]);
      InsertFilter(less, p, xs[0], Sort(less, xs[1..]));
      if p(xs[0]) {
        assert ([xs[0]] + Filter(p, xs[1..]))[1..] == Filter(p, xs[1..]);
      }
    }
  }

  /** `f` keeps the comparison on the elements of `xs`. */
  ghost predicate KeepsOrder<A, B>(lessA: (A, A) -> bool, lessB: (B, B) -> bool, f: A -> B, xs: seq<A>) {
    forall i, j :: 0 <= i < |xs| && 0 <= j < |xs| ==> lessA(xs[i], xs[j]) == lessB(f(xs[i]), f(xs[j]))
  }

  lemma KeepsOrderOn<A, B>(lessA: (A, A) -> bool, lessB: (B, B) -> bool, f: A -> B, xs: seq<A>, ys: seq<A>)
    requires KeepsOrder(lessA, lessB, f, xs)
    requires forall k :: 0 <= k < |ys| ==> ys[k] in xs
    ensures KeepsOrder(lessA, lessB, f, ys)
  {
    forall i, j | 0 <= i < |ys| && 0 <= j < |ys| ensures lessA(ys[i], ys[j]) == lessB(f(ys[i]), f(ys[j])) {
      assert ys[i] in xs && ys[j] in xs;
    }
  }

  lemma {:induction false} InsertMap<A, B>(lessA: (A, A) -> bool, lessB: (B, B) -> bool, f: A -> B, x: A, xs: seq<A>)
    requires KeepsOrder(lessA, lessB, f, [x] + xs)
    ensures Map(f, Insert(lessA, x, xs)) == Insert(lessB, f(x), Map(f, xs))
  {
    if xs != [] {
      var all := [x] + xs;
      assert lessA(all[1], all[0]) == lessB(f(all[1]), f(all[0]));
      if lessA(xs[0], x) {
        assert forall k :: 0 <= k < |[x] + xs[1..]| ==> ([x] + xs[1..])[k] in all;
        KeepsOrderOn(lessA, lessB, f, all, [x] + xs[1..]);
        InsertMap(lessA, lessB, f, x, xs[1..]);
        assert Map(f, xs)[1..] == Map(f, xs[1..]);
        assert ([xs[0]] + Insert(lessA, x, xs[1..]))[1..] == Insert(lessA, x, xs[1..]);
      } else {
        assert ([x] + xs)[1..] == xs;
      }
    }
  }

  lemma {:induction false} SortMembers<T>(less: (T, T) -> bool, xs: seq<T>)
    ensures multiset(Sort(less, xs)) == multiset(xs)
    ensures forall x :: x in Sort(less, xs) <==> x in xs
  {
    if xs != [] {
      SortMembers(less, xs[1..]);
      InsertMembers(less, xs[0], Sort(less, xs[1..]));
      assert xs == [xs[0]] + xs[1..];
    }
    forall x ensures x in Sort(less, xs) <==> x in xs {
      assert x in Sort(less, xs) <==> x in multiset(Sort(less, xs));
    }
  }

  lemma SortWithin<T>(less: (T, T) -> bool, xs: seq<T>)
    requires xs != []
    ensures forall k :: 0 <= k < |xs| ==> ([xs[0]] + Sort(less, xs[1..]))[k] in xs
  {
    var rest := Sort(less, xs[1..]);
    SortMembers(less, xs[1..]);
    forall k | 0 <= k < |xs| ensures ([xs[0]] + rest)[k] in xs {
      if k > 0 {
        assert rest[k - 1] in multiset(rest);
        assert rest[k - 1] in multiset(xs[1..]);
        assert rest[k - 1] in xs[1..];
      }
    }
  }

  /** A map that keeps the comparison commutes with the sort. */
  lemma {:induction false} SortMap<A, B>(lessA: (A, A) -> bool, lessB: (B, B) -> bool, f: A -> B, xs: seq<A>)
    requires KeepsOrder(lessA, lessB, f, xs)
    ensures Map(f, Sort(lessA, xs)) == Sort(lessB, Map(f, xs))
  {
    if xs != [] {
      KeepsOrderOn(lessA, lessB, f, xs, xs[1..]);
      SortMap(lessA, lessB, f, xs[1..]);
      SortWithin(lessA, xs);
      var rest := Sort(lessA, xs[1..]);
      KeepsOrderOn(lessA, lessB, f, xs, [xs[0]] + rest);
      InsertMap(lessA, lessB, f, xs[0], rest);
      MapTail(f, xs);
    }
  }

  lemma MapTail<A, B>(f: A -> B, xs: seq<A>)
    requires xs != []
    ensures Map(f, xs) == [f(xs[0])] + Map(f, xs[1..])
  {
  }

  lemma {:induction false} SortIsStable<T(!new)>(less: (T, T) -> bool, xs: seq<T>)
    requires StrictWeakOrder(less)
    ensures IsStableSort(less, xs, Sort(less, xs))
  {
    SortSorted(less, xs);
    forall t ensures Filter(Equivalent(less, t), Sort(less, xs)) == Filter(Equivalent(less, t), xs) {
      SortFilter(less, Equivalent(less, t), xs);
      var ys := Filter(Equivalent(less, t), xs);
      FilterMembers(Equivalent(less, t), xs);
      SortTied(less, t, ys);
    }
  }

  lemma {:induction false} SortTied<T(!new)>(less: (T, T) -> bool, t: T, xs: seq<T>)
    requires StrictWeakOrder(less)
    requires forall x :: x in xs ==> Equivalent(less, t)(x)
    ensures Sort(less, xs) == xs
  {
    if xs != [] {
      SortTied(less, t, xs[1..]);
      assert xs == [xs[0]] + xs[1..];
      if |xs| > 1 {
        assert xs[1] in xs && xs[0] in xs;
      }
    }
  }

  /** Two stable sorts of one sequence are equal. */
  lemma {:induction false} StableSortIsUnique<T(!new)>(less: (T, T) -> bool, xs: seq<T>, ys: seq<T>)
    requires StrictWeakOrder(less) && IsStableSort(less, xs, ys)
    ensures ys == Sort(less, xs)
  {
    SortIsStable(less, xs);
    SortedByClassesUnique(less, ys, Sort(less, xs));
  }

  lemma {:induction false} SortedByClassesUnique<T(!new)>(less: (T, T) -> bool, ys: seq<T>, zs: seq<T>)
    requires StrictWeakOrder(less) && Sorted(less, ys) && Sorted(less, zs)
    requires forall t :: Filter(Equivalent(less, t), ys) == Filter(Equivalent(less, t), zs)
    ensures ys == zs
  {
    if ys != [] { BothOccupied(less, zs, ys); }
    if zs != [] {
      BothOccupied(less, ys, zs);
      HeadAtMost(less, ys, zs);
      HeadAtMost(less, zs, ys);
      assert Equivalent(less, ys[0])(zs[0]);
      assert Filter(Equivalent(less, ys[0]), ys)[0] == ys[0];
      assert Filter(Equivalent(less, ys[0]), zs)[0] == zs[0];
      forall t ensures Filter(Equivalent(less, t), ys[1..]) == Filter(Equivalent(less, t), zs[1..]) {
        if Equivalent(less, t)(ys[0]) {
          assert Filter(Equivalent(less, t), ys)[1..] == Filter(Equivalent(less, t), ys[1..]);
          assert Filter(Equivalent(less, t), zs)[1..] == Filter(Equivalent(less, t), zs[1..]);
        }
      }
      SortedByClassesUnique(less, ys[1..], zs[1..]);
      assert ys == [ys[0]] + ys[1..] && zs == [zs[0]] + zs[1..];
    }
  }

  lemma BothOccupied<T(!new)>(less: (T, T) -> bool, ys: seq<T>, zs: seq<T>)
    requires StrictWeakOrder(less) && zs != []
    requires forall t :: Filter(Equivalent(less, t), ys) == Filter(Equivalent(less, t), zs)
    ensures ys != []
  {
    assert Filter(Equivalent(less, zs[0]), zs)[0] == zs[0];
    assert Filter(Equivalent(less, zs[0]), ys) != [];
  }

  lemma HeadAtMost<T(!new)>(less: (T, T) -> bool, ys: seq<T>, zs: seq<T>)
    requires StrictWeakOrder(less) && Sorted(less, zs) && ys != [] && zs != []
    requires forall t :: Filter(Equivalent(less, t), ys) == Filter(Equivalent(less, t), zs)
    ensures !less(ys[0], zs[0])
  {
    var t := ys[0];
    FilterMembers(Equivalent(less, t), zs);
    assert Filter(Equivalent(less, t), ys)[0] == t;
    assert t in Filter(Equivalent(less, t), zs);
    var k :| 0 <= k < |zs| && zs[k] == t;
    if k > 0 { assert !less(zs[k], zs[0]); }
  }
}

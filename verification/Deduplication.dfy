/** Dropping the elements whose key was seen before. */
module Deduplication {
  import opened Sequences

  /** Drop every element whose key was seen before. */
  function DedupeBy<T>(key: T -> string, seen: set<string>, xs: seq<T>): (r: seq<T>)
    ensures |r| <= |xs|
    decreases |xs|
  {
    if xs == [] then []
    else if key(xs[0]) in seen then DedupeBy(key, seen, xs[1..])
    else [xs[0]] + DedupeBy(key, seen + {key(xs[0])}, xs[1..])
  }

  ghost predicate DistinctKeys<T>(key: T -> string, xs: seq<T>) {
    forall k, l :: 0 <= k < l < |xs| ==> key(xs[k]) != key(xs[l])
  }

  lemma {:induction false} DedupeDistinct<T>(key: T -> string, seen: set<string>, xs: seq<T>)
    ensures DistinctKeys(key, DedupeBy(key, seen, xs))
    ensures forall k :: 0 <= k < |DedupeBy(key, seen, xs)| ==> key(DedupeBy(key, seen, xs)[k]) !in seen
    decreases |xs|
  {
    if xs != [] {
      if key(xs[0]) in seen {
        DedupeDistinct(key, seen, xs[1..]);
      } else {
        DedupeDistinct(key, seen + {key(xs[0])}, xs[1..]);
      }
    }
  }

  lemma {:induction false} DedupeCongruent<T>(key: T -> string, other: T -> string, seen: set<string>, xs: seq<T>)
    requires forall x :: x in xs ==> key(x) == other(x)
    ensures DedupeBy(key, seen, xs) == DedupeBy(other, seen, xs)
    decreases |xs|
  {
    if xs != [] {
      DedupeCongruent(key, other, seen, xs[1..]);
      DedupeCongruent(key, other, seen + {key(xs[0])}, xs[1..]);
    }
  }

  /** A kept element is the first of its kind, for every kind on which the key is constant. */
  lemma {:induction false} KeptIsFirst<T>(key: T -> string, seen: set<string>, xs: seq<T>, p: T -> bool, c: T)
    requires c in DedupeBy(key, seen, xs) && p(c)
    requires forall x :: x in xs && p(x) ==> key(x) == key(c)
    ensures Filter(p, xs) != [] && Filter(p, xs)[0] == c
    decreases |xs|
  {
    DedupeDistinct(key, seen, xs);
    if key(xs[0]) in seen {
      KeptIsFirst(key, seen, xs[1..], p, c);
    } else if c != xs[0] {
      DedupeDistinct(key, seen + {key(xs[0])}, xs[1..]);
      KeptIsFirst(key, seen + {key(xs[0])}, xs[1..], p, c);
    }
  }

  lemma {:induction false} FilterSorted<T>(less: (T, T) -> bool, p: T -> bool, xs: seq<T>)
    requires Sorted(less, xs)
    ensures Sorted(less, Filter(p, xs))
  {
    if xs != [] {
      FilterSorted(less, p, xs[1..]);
      forall y | y in Filter(p, xs[1..]) ensures y in xs[1..] { FilterMember(p, xs[1..], y); }
      StillFirst(less, xs, Filter(p, xs[1..]));
    }
  }

  lemma {:induction false} FilterMember<T>(p: T -> bool, xs: seq<T>, y: T)
    requires y in Filter(p, xs)
    ensures y in xs
  {
    if xs != [] && !(p(xs[0]) && y == xs[0]) { FilterMember(p, xs[1..], y); }
  }

  lemma StillFirst<T>(less: (T, T) -> bool, xs: seq<T>, ys: seq<T>)
    requires xs != [] && Sorted(less, xs) && Sorted(less, ys) && forall y :: y in ys ==> y in xs[1..]
    ensures Sorted(less, [xs[0]] + ys)
  {
    forall k | 0 <= k < |ys| ensures !less(ys[k], xs[0]) {
      assert ys[k] in ys;
      var j :| 0 <= j < |xs[1..]| && xs[1..][j] == ys[k];
      assert xs[j + 1] == ys[k];
    }
    ConsSorted(less, xs[0], ys);
  }

  lemma {:induction false} DedupeSorted<T>(less: (T, T) -> bool, key: T -> string, seen: set<string>, xs: seq<T>)
    requires Sorted(less, xs)
    ensures Sorted(less, DedupeBy(key, seen, xs))
    ensures forall x :: x in DedupeBy(key, seen, xs) ==> x in xs
    decreases |xs|
  {
    if xs != [] {
      var seen' := if key(xs[0]) in seen then seen else seen + {key(xs[0])};
      DedupeSorted(less, key, seen', xs[1..]);
      StillFirst(less, xs, DedupeBy(key, seen', xs[1..]));
      forall x | x in DedupeBy(key, seen', xs[1..]) ensures x in xs { assert x in xs[1..]; }
    }
  }

  /** Some element has the same key and is not behind `x`. */
  ghost predicate Covered<T(!new)>(less: (T, T) -> bool, key: T -> string, ys: seq<T>, x: T) {
    exists y :: y in ys && key(y) == key(x) && !less(x, y)
  }

  /** An element with a new key is kept, or one with the same key that is not behind it. */
  lemma {:induction false} DedupeCovers<T(!new)>(less: (T, T) -> bool, key: T -> string, seen: set<string>, xs: seq<T>,
      x: T)
    requires !less(x, x) && Sorted(less, xs) && x in xs && key(x) !in seen
    ensures Covered(less, key, DedupeBy(key, seen, xs), x)
    decreases |xs|
  {
    var rest, seen' := xs[1..], if key(xs[0]) in seen then seen else seen + {key(xs[0])};
    var ys := DedupeBy(key, seen, xs);
    var j :| 0 <= j < |xs| && xs[j] == x;
    if key(xs[0]) == key(x) {
      assert ys[0] == xs[0] && xs[0] in ys;
      assert !less(x, xs[0]);
    } else {
      assert rest[j - 1] == x;
      DedupeCovers(less, key, seen', rest, x);
      var y :| y in DedupeBy(key, seen', rest) && key(y) == key(x) && !less(x, y);
      assert y in ys;
    }
  }
}

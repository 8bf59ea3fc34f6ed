/** The order of `std::string`: by bytes, a prefix before what it is a prefix of. */
module Lexicographic {

  predicate Less(a: string, b: string) {
    b != "" && (a == "" || a[0] < b[0] || (a[0] == b[0] && Less(a[1..], b[1..])))
  }

  lemma {:induction false} Irreflexive(a: string)
    ensures !Less(a, a)
  {
    if a != "" { Irreflexive(a[1..]); }
  }

  lemma {:induction false} Transitive(a: string, b: string, c: string)
    requires Less(a, b) && Less(b, c)
    ensures Less(a, c)
  {
    if a != "" && a[0] == b[0] && b[0] == c[0] { Transitive(a[1..], b[1..], c[1..]); }
  }

  lemma {:induction false} Trichotomy(a: string, b: string)
    ensures Less(a, b) || a == b || Less(b, a)
  {
    if a != "" && b != "" && a[0] == b[0] {
      Trichotomy(a[1..], b[1..]);
      assert a == [a[0]] + a[1..] && b == [b[0]] + b[1..];
    }
  }

  /** A strict total order. */
  lemma {:induction false} LessIsTotal()
    ensures forall a :: !Less(a, a)
    ensures forall a, b, c :: Less(a, b) && Less(b, c) ==> Less(a, c)
    ensures forall a, b :: Less(a, b) || a == b || Less(b, a)
  {
    forall a ensures !Less(a, a) { Irreflexive(a); }
    forall a, b, c | Less(a, b) && Less(b, c) ensures Less(a, c) { Transitive(a, b, c); }
    forall a, b ensures Less(a, b) || a == b || Less(b, a) { Trichotomy(a, b); }
  }

  /** Up to `n` the strings are the same; there `a` ends or has the smaller character. */
  predicate DifferAt(a: string, b: string, n: nat) {
    n <= |a| && n < |b| && a[..n] == b[..n] && (n == |a| || a[n] < b[n])
  }

  /** One string comes before another exactly when it is its beginning, and shorter, or has the
      smaller character at the first place where they differ. */
  lemma {:induction false} LessMeans(a: string, b: string)
    ensures Less(a, b) <==> exists n: nat :: DifferAt(a, b, n)
  {
    if a != "" && b != "" && a[0] == b[0] {
      LessMeans(a[1..], b[1..]);
      if n: nat :| DifferAt(a[1..], b[1..], n) {
        assert a[..n + 1] == [a[0]] + a[1..][..n] == b[..n + 1];
        assert DifferAt(a, b, n + 1);
      }
      if n: nat :| DifferAt(a, b, n) {
        assert a[1..][..n - 1] == a[..n][1..] == b[1..][..n - 1];
        assert DifferAt(a[1..], b[1..], n - 1);
      }
    } else if Less(a, b) {
      assert DifferAt(a, b, 0);
    } else if b != "" {
      forall n: nat ensures !DifferAt(a, b, n) {
        if 0 < n <= |a| && n < |b| { assert a[..n][0] == a[0] && b[..n][0] == b[0]; }
      }
    }
  }
}

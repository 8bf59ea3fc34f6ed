/** The lesser of two numbers; and division, remainder and rounding up by repeated subtraction,
    with the proof that they are the arithmetic ones. */
module Arithmetic {

  function Min(a: nat, b: nat): nat {
    if a < b then a else b
  }

  function Quotient(n: nat, k: nat): nat
    requires k > 0
  {
    if n < k then 0 else 1 + Quotient(n - k, k)
  }

  function Remainder(n: nat, k: nat): (r: nat)
    requires k > 0
    ensures r < k
  {
    if n < k then n else Remainder(n - k, k)
  }

  /** `p` times `k`. */
  function Times(p: nat, k: nat): nat {
    if p == 0 then 0 else Times(p - 1, k) + k
  }

  /** How many groups of `k` hold `n` things; one group even when there are none. */
  function Groups(n: nat, k: nat): nat
    requires k > 0
  {
    if n <= k then 1 else 1 + Groups(n - k, k)
  }

  lemma {:induction false} TimesStep(p: nat, k: nat)
    ensures Times(p + 1, k) == k + Times(p, k)
  {
  }

  lemma {:induction false} Divides(n: nat, k: nat)
    requires k > 0
    ensures Times(Quotient(n, k), k) + Remainder(n, k) == n
  {
    if n >= k { Divides(n - k, k); }
  }

  lemma {:induction false} DividesOnce(n: nat, k: nat, p: nat, s: nat)
    requires s < k && Times(p, k) + s == n
    ensures p == Quotient(n, k) && s == Remainder(n, k)
    decreases p
  {
    if p > 0 { DividesOnce(n - k, k, p - 1, s); }
  }

  lemma {:induction false} InSomeGroup(n: nat, k: nat, j: nat)
    requires k > 0 && j < n
    ensures Quotient(j, k) < Groups(n, k)
  {
    if n > k && j >= k { InSomeGroup(n - k, k, j - k); }
  }

  lemma Distribute(a: int, b: int, k: int)
    ensures (a + b) * k == a * k + b * k
  {
  }

  lemma {:induction false} TimesIsProduct(p: nat, k: nat)
    ensures Times(p, k) == p * k
  {
    if p > 0 {
      TimesIsProduct(p - 1, k);
      Distribute(p - 1, 1, k);
    }
  }

  /** The functions are the arithmetic operations. */
  lemma {:induction false} ArithmeticDivision(n: nat, k: nat)
    requires k > 0
    ensures n / k == Quotient(n, k) && n % k == Remainder(n, k)
  {
    var q, r := n / k, n % k;
    assert n == q * k + r by { assert n == k * q + r; }
    TimesIsProduct(q, k);
    DividesOnce(n, k, q, r);
  }

  /** `Groups` is `max(1, ceil(n / k))`. */
  lemma {:induction false} GroupsRoundUp(n: nat, k: nat)
    requires k > 0
    ensures Groups(n, k) == if n == 0 then 1 else 1 + (n - 1) / k
  {
    if n > 0 {
      ArithmeticDivision(n - 1, k);
      GroupsFromQuotient(n, k);
    }
  }

  lemma {:induction false} GroupsFromQuotient(n: nat, k: nat)
    requires k > 0 && n > 0
    ensures Groups(n, k) == 1 + Quotient(n - 1, k)
  {
    if n > k { GroupsFromQuotient(n - k, k); }
  }
}

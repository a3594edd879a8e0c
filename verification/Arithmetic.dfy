/** Facts about multiplication, division and remainder that the solver needs spelled out. */
module Arithmetic {

  lemma MulMonotone(a: int, b: int, c: int)
    requires a <= b && c >= 0
    ensures a * c <= b * c
  {
  }

  lemma MulDistributes(a: int, b: int, c: int)
    ensures (a + b) * c == a * c + b * c
  {
  }

  /** Quotient and remainder are determined by what they add up to. */
  lemma DivModUnique(n: int, d: int, q: int, r: int)
    requires 0 <= r < d
    requires n == q * d + r
    ensures n / d == q && n % d == r
  {
    var q', r' := n / d, n % d;
    assert n == q' * d + r';
    if q < q' {
      MulMonotone(q + 1, q', d);
      MulDistributes(q, 1, d);
      assert false;
    } else if q' < q {
      MulMonotone(q' + 1, q, d);
      MulDistributes(q', 1, d);
      assert false;
    }
  }

  lemma ModSmall(n: int, d: int)
    requires 0 <= n < d
    ensures n % d == n && n / d == 0
  {
    DivModUnique(n, d, 0, n);
  }

  /** Adding a multiple of the divisor does not change the remainder. */
  lemma ModAddMultiple(n: int, k: int, d: int)
    requires d > 0
    ensures (n + k * d) % d == n % d
  {
    MulDistributes(n / d, k, d);
    DivModUnique(n + k * d, d, n / d + k, n % d);
  }

  /** The remainder of a sum only depends on the remainders of its parts. */
  lemma ModAdd(a: int, b: int, d: int)
    requires d > 0
    ensures (a % d + b) % d == (a + b) % d
  {
    assert a + b == (a % d + b) + (a / d) * d;
    ModAddMultiple(a % d + b, a / d, d);
  }

  lemma DivBounded(n: nat, d: nat, q: nat)
    requires d > 0 && n <= q * d
    ensures n / d <= q
  {
    if n / d > q {
      MulMonotone(q + 1, n / d, d);
      MulDistributes(q, 1, d);
    }
  }
}

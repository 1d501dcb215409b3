/** Facts about multiplication and Euclidean division that the solver does not find unaided. */
module Arith {

  /** Multiplying both sides of p <= q by a natural number keeps the order. */
  lemma MulMonotone(p: int, q: int, n: nat)
    requires p <= q
    ensures p * n <= q * n
  {
  }

  /** Euclidean division has exactly one quotient and remainder. */
  lemma DivModUnique(n: int, d: int, q: int, r: int)
    requires 0 < d && 0 <= r < d && n == q * d + r
    ensures n / d == q && n % d == r
  {
    var q' := n / d;
    if q' < q {
      MulMonotone(q' + 1, q, d);
    } else if q' > q {
      MulMonotone(q + 1, q', d);
    }
  }

  /** The remainder of a + 1 is the remainder of a moved on by one, wrapping at d. */
  lemma ModSucc(a: int, d: int)
    requires 0 < d
    ensures (a + 1) % d == if a % d == d - 1 then 0 else a % d + 1
  {
    var q, r := a / d, a % d;
    if r == d - 1 {
      DivModUnique(a + 1, d, q + 1, 0);
    } else {
      DivModUnique(a + 1, d, q, r + 1);
    }
  }
}

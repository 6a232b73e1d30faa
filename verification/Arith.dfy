/** Facts about products and remainders that the solver does not find by itself. */
module Arith {
  lemma MulMonotone(a: int, b: int, c: nat)
    requires a <= b
    ensures a * c <= b * c
  {
  }

  /** Quotient and remainder are determined by w == q * d + r. */
  lemma {:induction false} ModUnique(w: int, d: nat, q: int, r: int)
    requires 0 <= r < d && w == q * d + r
    ensures w % d == r && w / d == q
  {
    var p, s := w / d, w % d;
    assert w == p * d + s;
    assert (q + 1) * d == q * d + d && (p + 1) * d == p * d + d;
    if p > q { MulMonotone(q + 1, p, d); }
    if p < q { MulMonotone(p + 1, q, d); }
  }
}

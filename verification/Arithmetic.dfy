/** The nonlinear facts that schedules, rates, batches and address blocks need. */
module Arithmetic {
  lemma MulMonotone(a: int, b: int, c: nat)
    requires a <= b
    ensures a * c <= b * c
  {
  }

  lemma QuotientOf(n: nat, b: nat, q: nat, r: nat)
    requires b >= 1 && n == q * b + r && r < b
    ensures n / b == q
  {
    var p := n / b;
    assert n == p * b + n % b;
    if p < q { MulMonotone(p + 1, q, b); }
    if p > q { MulMonotone(q + 1, p, b); }
  }
}

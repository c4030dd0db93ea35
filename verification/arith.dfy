/** Quotients and products of integers. */
module Arith {

  lemma Scaled(a: int, b: int, d: nat)
    ensures a <= b ==> a * d <= b * d
  {}

  lemma Divided(n: int, d: nat)
    requires d > 0
    ensures n / d * d <= n < (n / d + 1) * d
  {
    assert n == n / d * d + n % d;
  }

  lemma Quotient(n: int, d: nat, q: int)
    requires q * d <= n < (q + 1) * d
    ensures n / d == q && n % d == n - q * d
  {
    Divided(n, d);
    if n / d < q { Scaled(n / d + 1, q, d); }
    if n / d > q { Scaled(q + 1, n / d, d); }
  }
}

/** Products and remainders of natural numbers. */
module Arith {

  lemma Scaled(a: nat, b: nat, n: nat)
    requires a <= b
    ensures a * n <= b * n
  {
  }

  lemma Cancel(a: nat, b: nat, n: nat)
    requires a * n < b * n
    ensures a < b
  {
    if b <= a { Scaled(b, a, n); }
  }

  // Quotient and remainder are unique.
  lemma Unique(a: nat, q: nat, r: nat, n: nat)
    requires r < n && a == q * n + r
    ensures a % n == r && a / n == q
  {
    assert a == (a / n) * n + a % n;
    if a / n < q {
      Scaled(a / n + 1, q, n);
    } else if a / n > q {
      Scaled(q + 1, a / n, n);
    }
  }
}

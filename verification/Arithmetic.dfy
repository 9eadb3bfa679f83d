/** Facts about products and remainders with a divisor that is not a constant. */
module Arithmetic {
  lemma Distribute(b: nat, n: nat)
    ensures (b + 1) * n == b * n + n
  {
  }

  lemma MulMono(a: nat, b: nat, n: nat)
    ensures a <= b ==> a * n <= b * n
  {
  }

  lemma QuotientIs(r: nat, s: nat, q: nat, m: nat, n: nat)
    requires r * n + s == q * n + m && s < n && m < n
    ensures r == q
  {
    MulMono(r + 1, q, n);
    MulMono(q + 1, r, n);
    Distribute(r, n);
    Distribute(q, n);
  }

  lemma ModIs(x: nat, n: nat, q: nat, m: nat)
    requires n > 0 && x == q * n + m && m < n
    ensures x % n == m && x / n == q
  {
    QuotientIs(x / n, x % n, q, m, n);
  }
}

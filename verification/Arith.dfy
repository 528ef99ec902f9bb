/** Products, quotients and remainders by a symbolic divisor. */
module Arith {

  lemma Monotone(a: nat, b: nat, m: nat)
    requires a <= b
    ensures a * m <= b * m
  {
  }

  lemma Cancel(a: nat, b: nat, m: nat)
    requires a * m < b * m
    ensures a < b
  {
    if b <= a {
      Monotone(b, a, m);
    }
  }

  lemma OneMore(i: nat, m: nat)
    ensures (i + 1) * m == i * m + m
  {
  }

  lemma Distribute(a: nat, b: nat, m: nat)
    ensures (a + b) * m == a * m + b * m
  {
  }

  lemma DivMod(n: nat, m: nat)
    requires m > 0
    ensures n == n / m * m + n % m && 0 <= n % m < m
  {
  }

  /** A quotient and a remainder determine each other. */
  lemma Quotient(n: nat, q: nat, r: nat, m: nat)
    requires n == q * m + r && r < m
    ensures n / m == q && n % m == r
  {
    DivMod(n, m);
    OneMore(q, m);
    OneMore(n / m, m);
    Cancel(q, n / m + 1, m);
    Cancel(n / m, q + 1, m);
  }

  lemma SamePlace(i: nat, j: nat, m: nat)
    requires m > 0
    ensures i / m == j / m && i % m == j % m <==> i == j
  {
    DivMod(i, m);
    DivMod(j, m);
  }

  lemma AtLeastOne(a: nat, m: nat)
    requires m > 0
    ensures a * m >= a
  {
  }
}

/** Facts about products, quotients and remainders of integers. */
module Arithmetic {

  lemma {:induction false} MulAtLeast(m: int, d: int)
    requires m >= 0 && d >= 1
    ensures m * d >= m
  {
    assert m * d == m + m * (d - 1);
    Nonnegative(m, d - 1);
  }

  lemma {:induction false} Nonnegative(a: int, b: int)
    requires a >= 0 && b >= 0
    ensures a * b >= 0
  {
  }

  lemma {:induction false} Distribute(m: int, a: int, b: int)
    ensures m * (a - b) == m * a - m * b
    ensures m * (a + b) == m * a + m * b
    ensures (a - b) * m == a * m - b * m
    ensures (a + b) * m == a * m + b * m
  {
  }

  lemma {:induction false} MulMonotone(m: int, a: int, b: int)
    requires m >= 0 && a <= b
    ensures m * a <= m * b && a * m <= b * m
  {
    Nonnegative(m, b - a);
    Distribute(m, b, a);
  }

  lemma {:induction false} QuotientUnique(m: int, q: int, r: int, q': int, r': int)
    requires 0 <= r < m && 0 <= r' < m && m * q + r == m * q' + r'
    ensures q == q' && r == r'
  {
    Distribute(m, q, q');
    if q > q' {
      MulAtLeast(m, q - q');
    } else if q < q' {
      Distribute(m, q', q);
      MulAtLeast(m, q' - q);
    }
  }

  lemma {:induction false} DivMod(x: int, m: int)
    requires m > 0
    ensures x == m * (x / m) + x % m && 0 <= x % m < m
  {
  }

  // x divided by m is q with remainder r.
  lemma {:induction false} DivModIs(x: int, m: int, q: int, r: int)
    requires 0 <= r < m && x == m * q + r
    ensures x / m == q && x % m == r
  {
    DivMod(x, m);
    QuotientUnique(m, x / m, x % m, q, r);
  }

  lemma {:induction false} ModAdd(a: nat, b: nat, m: nat)
    requires m > 0
    ensures (a % m + b) % m == (a + b) % m
  {
    DivMod(a, m);
    DivMod(a % m + b, m);
    Distribute(m, a / m, (a % m + b) / m);
    DivModIs(a + b, m, a / m + (a % m + b) / m, (a % m + b) % m);
  }
}

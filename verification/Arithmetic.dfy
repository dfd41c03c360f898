/** Products, quotients and remainders of integers, for the proofs of the other modules. */
module Arithmetic {
  lemma NotNegative(p: nat, q: nat)
    ensures p * q >= 0
  {}

  lemma Signs(q: int, m: int)
    ensures -q * m == -(q * m) == q * -m && -q * -m == q * m && q * m == m * q
  {}

  /** A product with a positive number is no nearer to 0. */
  lemma Grows(p: int, q: int)
    requires p > 0
    ensures q >= 0 ==> p * q >= q
    ensures q < 0 ==> p * q <= q
  {
    Signs(q, p);
    if q >= 0 { NotNegative(p - 1, q); } else { NotNegative(p - 1, -q); }
  }

  lemma Distribute(p: int, q: int)
    ensures p * (q + 1) == p * q + p
  {}

  lemma Subtract(a: int, b: int, m: int)
    ensures m * (a - b) == a * m - b * m
  {}

  lemma DivisionIdentity(n: int, m: int)
    requires m > 0
    ensures n == n / m * m + n % m && 0 <= n % m < m && (n >= 0 ==> n / m >= 0)
  {}

  lemma RemainderIs(x: int, m: int, q: int, r: int)
    requires 0 <= r < m && x == q * m + r
    ensures x % m == r
  {
    DivisionIdentity(x, m);
    var k := q - x / m;
    Subtract(q, x / m, m);
    Grows(m, k);
    Grows(m, k - 1);
    Grows(m, k + 1);
    Distribute(m, k);
    Distribute(m, k - 1);
  }

  lemma MultipleOf(k: nat, a: nat)
    requires a > 0
    ensures (k * a) % a == 0
  {
    var q, r := k * a / a, (k * a) % a;
    assert k * a == q * a + r;
    assert (k - q) * a == r;
    FarFromZero(k - q, a);
  }

  /** Two multiples nearer to each other than a are equal. */
  lemma SameMultiple(m: int, n: int, a: nat)
    requires a > 0 && m % a == 0 && n % a == 0 && m - n < a && n - m < a
    ensures m == n
  {
    var k := m / a - n / a;
    assert k * a == m - n;
    FarFromZero(k, a);
  }

  /** A multiple of a other than 0 is no nearer to 0 than a. */
  lemma FarFromZero(k: int, a: int)
    requires a > 0
    ensures (k > 0 ==> k * a >= a) && (k < 0 ==> k * a <= 0 - a)
  {
    if k > 0 {
      var d: nat := k - 1;
      assert k * a == a + d * a;
      NotNegative(d, a);
    } else if k < 0 {
      var d: nat := 0 - k - 1;
      assert k * a == 0 - a - d * a;
      NotNegative(d, a);
    }
  }
}

/** Uniqueness of quotient and remainder, and what follows for products. */
module Arithmetic {

  lemma AtLeast(k: int, n: int)
    requires n > 0
    ensures k >= 1 ==> k * n >= n
    ensures k <= -1 ==> k * n <= -n
  {
    if k >= 1 {
      assert k * n == (k - 1) * n + n && (k - 1) * n >= 0;
    } else if k <= -1 {
      assert k * n == (k + 1) * n - n && (k + 1) * n <= 0;
    }
  }

  lemma DivModUnique(a: int, n: int, q: int, m: int)
    requires 0 <= m < n && a == q * n + m
    ensures a % n == m
  {
    var d, e := a / n, a % n;
    assert a == d * n + e;
    assert (q - d) * n == q * n - d * n;
    AtLeast(q - d, n);
  }

  lemma Distribute(a: int, b: int, c: int)
    ensures (a + b) * c == a * c + b * c
  {
  }

  lemma Associate(a: int, b: int, c: int)
    ensures a * b * c == a * c * b
  {
  }

  /** Reducing a factor first does not change a remainder. */
  lemma MultiplyMod(a: int, b: int, n: int)
    requires n > 0
    ensures (a % n) * b % n == a * b % n
  {
    var q, r := a / n, a % n;
    var d, e := r * b / n, r * b % n;
    Distribute(q * n, r, b);
    Associate(q, n, b);
    Distribute(q * b, d, n);
    assert a * b == (q * b + d) * n + e by {
      assert a == q * n + r && r * b == d * n + e;
    }
    DivModUnique(a * b, n, q * b + d, e);
  }
}

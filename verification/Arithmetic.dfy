/** Facts about products, quotients and remainders. */
module Arithmetic {

  lemma MulNonNegative(a: int, b: int)
    requires a >= 0 && b >= 0
    ensures a * b >= 0
  {
  }

  lemma MulMonotone(n: int, a: int, b: int)
    requires n >= 0 && a <= b
    ensures n * a <= n * b
  {
    MulNonNegative(n, b - a);
    assert n * (b - a) == n * b - n * a;
  }

  lemma QuotientUnique(n: int, q: int, r: int, q': int, r': int)
    requires 0 <= r < n && 0 <= r' < n
    requires n * q + r == n * q' + r'
    ensures q <= q'
  {
    if q > q' {
      MulMonotone(n, q' + 1, q);
    }
  }

  lemma ModUnique(x: int, n: int, q: int, r: int)
    requires 0 <= r < n
    requires x == n * q + r
    ensures x % n == r && x / n == q
  {
    var q', r' := x / n, x % n;
    assert n * q' + r' == x;
    QuotientUnique(n, q, r, q', r');
    QuotientUnique(n, q', r', q, r);
  }

  lemma ModAddMultiple(x: int, n: int, k: int)
    requires n > 0
    ensures (x + n * k) % n == x % n
  {
    assert x + n * k == n * (x / n + k) + x % n;
    ModUnique(x + n * k, n, x / n + k, x % n);
  }

  /** Reducing modulo a multiple of `n` first makes no difference modulo `n`. */
  lemma ModMod(x: int, m: int, n: int)
    requires m > 0 && n > 0 && m % n == 0
    ensures (x % m) % n == x % n
  {
    var k := m / n;
    assert m == n * k;
    var q := x / m;
    assert x == m * q + x % m;
    assert m * q == n * (k * q) by { assert n * (k * q) == (n * k) * q; }
    ModAddMultiple(x % m, n, k * q);
  }

  lemma ModAddMod(x: int, y: int, n: int)
    requires n > 0
    ensures (x % n + y) % n == (x + y) % n
  {
    assert x + y == (x % n + y) + n * (x / n);
    ModAddMultiple(x % n + y, n, x / n);
  }

  lemma ModAddMod2(x: int, y: int, n: int)
    requires n > 0
    ensures (x + y % n) % n == (x + y) % n
  {
    ModAddMod(y, x, n);
  }
}

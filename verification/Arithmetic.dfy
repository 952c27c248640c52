/** Division with remainder by a variable divisor. */
module Arithmetic {

  lemma MulAtLeast(d: int, n: int)
    requires 1 <= d && 0 <= n
    ensures d * n >= n
  {
  }

  /** A number has one quotient and one remainder in 0..n-1. */
  lemma QuotientUnique(n: int, a: int, b: int, r: int, s: int)
    requires 0 < n && a * n + r == b * n + s && 0 <= r < n && 0 <= s < n
    ensures a == b && r == s
  {
    assert (a - b) * n == s - r;
    if a > b {
      MulAtLeast(a - b, n);
    } else if a < b {
      MulAtLeast(b - a, n);
    }
  }

  lemma ModUnique(a: int, n: int, q: int, r: int)
    requires 0 < n && a == q * n + r && 0 <= r < n
    ensures a / n == q && a % n == r
  {
    QuotientUnique(n, q, a / n, r, a % n);
  }
}

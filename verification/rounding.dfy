/** JavaScript `Math.round` applied to an exact quotient. */
module Rounding {

  /** `Math.round(n / d)` for a positive divisor: the integer nearest to `n / d`, with an
      exact half rounded up (towards positive infinity), which is `floor(n / d + 1/2)`. */
  function Round(n: int, d: int): (r: int)
    requires d > 0
    ensures 2 * n - d < 2 * d * r <= 2 * n + d
  {
    var q := (2 * n + d) / (2 * d);
    assert 2 * n + d == 2 * d * q + (2 * n + d) % (2 * d);
    q
  }

  /** The rounding contract pins the result down: only one integer lies that close. */
  lemma RoundUnique(n: int, d: int, r: int)
    requires d > 0
    requires 2 * n - d < 2 * d * r <= 2 * n + d
    ensures r == Round(n, d)
  {
    var q := Round(n, d);
    if r < q {
      MulLe(2 * d, r, q - 1);
    } else if r > q {
      MulLe(2 * d, q, r - 1);
    }
  }

  /** Multiplying by a non-negative factor preserves order. */
  lemma MulLe(a: int, x: int, y: int)
    requires a >= 0 && x <= y
    ensures a * x <= a * y
  {
    assert a * y - a * x == a * (y - x);
  }

  /** Rounding is monotone in the numerator. */
  lemma RoundMonotone(a: int, b: int, d: int)
    requires d > 0 && a <= b
    ensures Round(a, d) <= Round(b, d)
  {
    var ra, rb := Round(a, d), Round(b, d);
    if ra > rb {
      MulLe(2 * d, rb, ra - 1);
    }
  }

  /** Rounding a quotient that is already an integer gives that integer. */
  lemma RoundExact(k: int, d: int)
    requires d > 0
    ensures Round(k * d, d) == k
  {
    RoundUnique(k * d, d, k);
  }

  /** The rounded quotient stays within integer bounds that enclose the exact quotient. */
  lemma RoundBetween(n: int, d: int, lo: int, hi: int)
    requires d > 0
    requires d * lo <= n <= d * hi
    ensures lo <= Round(n, d) <= hi
  {
    RoundExact(lo, d);
    RoundExact(hi, d);
    assert lo * d == d * lo && hi * d == d * hi;
    RoundMonotone(lo * d, n, d);
    RoundMonotone(n, hi * d, d);
  }
}

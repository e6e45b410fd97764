/** Decimal quantisation: ROUND_HALF_UP on non-negative rationals, and the half-even `round`. */
module Rounding {
  /** `num / den` rounded to the nearest integer, ties upwards. */
  function RoundHalfUp(num: nat, den: nat): (r: nat)
    requires den > 0
  {
    (2 * num + den) / (2 * den)
  }

  /** The result is the only integer within half a unit of the exact quotient, ties upwards. */
  lemma RoundHalfUpNearest(num: nat, den: nat)
    requires den > 0
    ensures 2 * den * RoundHalfUp(num, den) <= 2 * num + den < 2 * den * RoundHalfUp(num, den) + 2 * den
  {
    var q := (2 * num + den) / (2 * den);
    assert 2 * num + den == (2 * den) * q + (2 * num + den) % (2 * den);
  }

  /** A share of at most the whole stays at most the whole, and a whole share is exact. */
  lemma RoundHalfUpShare(whole: nat, part: nat, parts: nat)
    requires part <= parts && parts > 0
    ensures RoundHalfUp(whole * part, parts) <= whole
  {
    var r := RoundHalfUp(whole * part, parts);
    RoundHalfUpNearest(whole * part, parts);
    MulMonotone(whole, part, parts);
    MulStrict(2 * parts, r, whole + 1);
  }

  /** Nearest integer, ties to even, as the built-in `round` does. */
  function RoundHalfEven(y: real): int {
    var f := y.Floor;
    var d := y - f as real;
    if d < 0.5 then f else if d > 0.5 then f + 1 else if f % 2 == 0 then f else f + 1
  }

  /** The result is within half of the argument, and even when it is exactly half away. */
  lemma RoundHalfEvenNearest(y: real)
    ensures var n := RoundHalfEven(y);
            && n as real - 0.5 <= y <= n as real + 0.5
            && (y == n as real - 0.5 || y == n as real + 0.5 ==> n % 2 == 0)
  {
  }

  /** `round` to a number of decimal places, `scale` being that power of ten. */
  function RoundTo(x: real, scale: real): real
    requires scale > 0.0
  {
    RoundHalfEven(x * scale) as real / scale
  }

  /** A rounded number is within half a unit of the last place kept. */
  lemma RoundToNearest(x: real, scale: real)
    requires scale > 0.0
    ensures x * scale - 0.5 <= RoundTo(x, scale) * scale <= x * scale + 0.5
  {
    RoundHalfEvenNearest(x * scale);
    var n := RoundHalfEven(x * scale);
    hide RoundHalfEven;
    MultiplyBack(n as real, scale);
  }

  /** A rounded quotient multiplied back: as near to the dividend as the rounding was, times the divisor. */
  lemma NearQuotient(exact: real, rounded: real, divisor: real, dividend: real, k: real)
    requires divisor > 0.0 && exact * divisor == dividend && -1.0 <= k * (rounded - exact) <= 1.0
    ensures -divisor <= k * (rounded * divisor - dividend) <= divisor
  {
    var off := k * (rounded - exact);
    assert off * divisor == k * (rounded * divisor - exact * divisor);
    NotNegative(1.0 - off, divisor);
    NotNegative(1.0 + off, divisor);
    assert (1.0 - off) * divisor == divisor - off * divisor;
    assert (1.0 + off) * divisor == divisor + off * divisor;
  }

  /** A share in per cent, multiplied back. */
  lemma ShareTimes(part: real, whole: real)
    requires whole > 0.0 && 0.0 <= part <= whole
    ensures var share := part / whole * 100.0;
            share * whole == 100.0 * part && 0.0 <= share <= 100.0
  {
    var q := part / whole;
    MultiplyBack(part, whole);
    assert 0.0 <= q <= 1.0 by { QuotientBounds(q, whole); }
    assert q * 100.0 * whole == 100.0 * (q * whole);
  }

  lemma QuotientBounds(q: real, whole: real)
    requires whole > 0.0 && 0.0 <= q * whole <= whole
    ensures 0.0 <= q <= 1.0
  {
  }

  lemma NotNegative(x: real, y: real)
    requires x >= 0.0 && y >= 0.0
    ensures x * y >= 0.0
  {
  }

  lemma MultiplyBack(a: real, b: real)
    requires b > 0.0
    ensures a / b * b == a
  {
  }

  /** Rounding to two places keeps a percentage one. */
  lemma RoundKeepsBounds(x: real)
    requires 0.0 <= x <= 100.0
    ensures 0.0 <= RoundTo(x, 100.0) <= 100.0
  {
    var n := RoundHalfEven(x * 100.0);
    assert 0 <= n <= 10000;
    assert RoundTo(x, 100.0) == n as real / 100.0;
  }

  lemma MulStrict(a: nat, b: int, c: int)
    requires a * b < a * c
    ensures b < c
  {
    if c <= b {
      MulMonotone(a, c, b);
      assert false;
    }
  }

  lemma MulMonotone(a: int, b: int, c: int)
    requires 0 <= a && b <= c
    ensures a * b <= a * c
  {
  }

  function Abs(x: int): nat {
    if x < 0 then -x else x
  }

  /**
   * One pro-rata step. A position of `n` certificates carries `e` units of energy, bought as
   * `total` certificates carrying `energy`; after `m` partial burns its drift from the exact
   * pro-rata share is at most m/2 units. Burning `c < n` more adds at most half a unit.
   */
  lemma DriftStep(total: nat, energy: nat, n: nat, e: nat, c: nat, m: nat)
    requires 0 < c < n <= total
    requires 2 * Abs(e * total - energy * n) <= m * total
    ensures RoundHalfUp(e * c, n) <= e
    ensures 2 * Abs((e - RoundHalfUp(e * c, n)) * total - energy * (n - c)) <= (m + 1) * total
  {
    var r := RoundHalfUp(e * c, n);
    RoundHalfUpShare(e, c, n);
    RoundHalfUpNearest(e * c, n);
    assert 2 * n * r == 2 * (r * n);
    Expand(total, energy, n, e, c, r);
    DriftBound(n, n - c, (e - r) * total - energy * (n - c), e * total - energy * n, e * c - r * n, total, m * total);
  }

  /** If n*y = d*k + x*total with 0 <= k <= n, 2|d| <= bound and 2|x| <= n, then 2|y| <= bound + total. */
  lemma DriftBound(n: int, k: int, y: int, d: int, x: int, total: int, bound: int)
    requires n > 0 && 0 <= k <= n && total >= 0
    requires n * y == d * k + x * total
    requires 2 * Abs(d) <= bound && 2 * Abs(x) <= n
    ensures 2 * Abs(y) <= bound + total
  {
    BoundProduct(2 * d, k, bound);
    BoundProduct(2 * x, total, n);
    MulMonotone(bound, k, n);
    Scale(d, k);
    Scale(x, total);
    assert n * (2 * y) == 2 * (n * y);
    assert n * (bound + total) == n * bound + n * total;
    CancelFactor(n, 2 * y, bound + total);
  }

  lemma Expand(total: int, energy: int, n: int, e: int, c: int, r: int)
    ensures n * ((e - r) * total - energy * (n - c))
         == (e * total - energy * n) * (n - c) + (e * c - r * n) * total
  {
    var a, b := e * total, energy * n;
    assert n * ((e - r) * total) == n * a - n * r * total;
    assert n * (energy * (n - c)) == b * (n - c);
    assert (a - b) * (n - c) == a * n - a * c - b * (n - c);
    assert (e * c - r * n) * total == a * c - n * r * total;
  }

  lemma Scale(a: int, b: int)
    ensures 2 * (a * b) == (2 * a) * b
  {
  }

  lemma BoundProduct(x: int, k: int, bound: int)
    requires k >= 0 && -bound <= x <= bound
    ensures -(bound * k) <= x * k <= bound * k
  {
    MulMonotone(k, x, bound);
    MulMonotone(k, -bound, x);
    assert k * -bound == -(bound * k);
  }

  lemma CancelFactor(n: int, y: int, bound: int)
    requires n > 0
    requires -(n * bound) <= n * y <= n * bound
    ensures -bound <= y <= bound
  {
    if y > bound { MulMonotone(n, bound + 1, y); }
    if y < -bound { MulMonotone(n, y, -bound - 1); }
  }
}

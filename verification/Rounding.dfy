/** Exact ratios rounded once to the nearest integer, ties to even. */
module Rounding {

  function Abs(x: int): nat { if x < 0 then -x else x }

  /**
   Of two non-negative numbers: the quotient, moved up when the remainder is past half, or at half and the
   quotient odd.
   */
  function Nearest(n: nat, d: nat): nat
    requires d > 0
  {
    var quotient, remainder := n / d, n % d;
    if 2 * remainder > d || (2 * remainder == d && quotient % 2 == 1) then quotient + 1 else quotient
  }

  /** The sign is put back after rounding the magnitudes. */
  function RoundRatio(numerator: int, denominator: int): int
    requires denominator != 0
  {
    var quotient: int := Nearest(Abs(numerator), Abs(denominator));
    if (numerator < 0) != (denominator < 0) then -quotient else quotient
  }

  /** r is within half of n / d, and even when exactly half away. */
  ghost predicate HalfEven(n: int, d: int, r: int) {
    && -d <= 2 * (n - r * d) <= d
    && (2 * (n - r * d) == d || 2 * (n - r * d) == -d ==> r % 2 == 0)
  }

  lemma NearestHalfEven(n: nat, d: nat)
    requires d > 0
    ensures HalfEven(n, d, Nearest(n, d))
  {
    var q, rem := n / d, n % d;
    assert n == q * d + rem;
    assert (q + 1) * d == q * d + d;
  }

  lemma TimesAtLeast(x: int, k: nat, d: int)
    requires d > 0 && x >= k
    ensures x * d >= k * d
  {
  }

  /** Distinct multiples of d lie at least d apart, and all but neighbours at least twice d. */
  lemma Multiples(r: int, s: int, d: int)
    requires d > 0
    ensures r > s ==> r * d >= s * d + d
    ensures r > s + 1 ==> r * d >= s * d + 2 * d
    ensures r == s + 1 ==> r * d == s * d + d
  {
    assert r * d - s * d == (r - s) * d;
    if r > s + 1 {
      TimesAtLeast(r - s, 2, d);
    } else if r > s {
      assert r - s == 1;
    }
  }

  /** No other integer is: the rule fixes the result. */
  lemma HalfEvenUnique(n: int, d: int, r: int, s: int)
    requires d > 0 && HalfEven(n, d, r) && HalfEven(n, d, s)
    ensures r == s
  {
    Multiples(r, s, d);
    Multiples(s, r, d);
    OneNearest(n, d, r, s, r * d, s * d);
  }

  lemma OneNearest(n: int, d: int, r: int, s: int, a: int, b: int)
    requires d > 0 && -d <= 2 * (n - a) <= d && -d <= 2 * (n - b) <= d
    requires (2 * (n - a) == d || 2 * (n - a) == -d ==> r % 2 == 0)
        && (2 * (n - b) == d || 2 * (n - b) == -d ==> s % 2 == 0)
    requires (r > s + 1 ==> a >= b + 2 * d) && (r == s + 1 ==> a == b + d)
    requires (s > r + 1 ==> b >= a + 2 * d) && (s == r + 1 ==> b == a + d)
    ensures r == s
  {
  }

  /** Negating the ratio negates the result. */
  lemma HalfEvenNegated(n: int, d: int, r: int)
    ensures HalfEven(-n, d, -r) <==> HalfEven(n, d, r)
  {
    assert (-r) * d == -(r * d);
  }

  /** For every sign of either number, the result is the one integer nearest the ratio, ties to even. */
  lemma RoundRatioExactly(numerator: int, denominator: int, r: int)
    requires denominator != 0
    ensures r == RoundRatio(numerator, denominator)
        <==> HalfEven(if denominator < 0 then -numerator else numerator, Abs(denominator), r)
  {
    var n, d := if denominator < 0 then -numerator else numerator, Abs(denominator);
    NearestHalfEven(Abs(n), d);
    HalfEvenNegated(Abs(n), d, Nearest(Abs(n), d));
    assert HalfEven(n, d, RoundRatio(numerator, denominator));
    if HalfEven(n, d, r) { HalfEvenUnique(n, d, r, RoundRatio(numerator, denominator)); }
  }

  /** A larger number never rounds lower, of either sign. */
  lemma HalfEvenMonotone(n: int, m: int, d: int, r: int, s: int)
    requires d > 0 && n <= m && HalfEven(n, d, r) && HalfEven(m, d, s)
    ensures r <= s
  {
    Multiples(r, s, d);
    if n == m { HalfEvenUnique(n, d, r, s); }
  }

  /** Rounding looks at the ratio alone. */
  lemma HalfEvenScaled(n: int, d: int, r: int, k: int)
    requires d > 0 && k > 0 && HalfEven(n, d, r)
    ensures HalfEven(n * k, d * k, r)
  {
    var gap := 2 * (n - r * d);
    assert 2 * (n * k - r * (d * k)) == gap * k;
    ScaledGap(gap, d, k);
  }

  lemma ScaledGap(gap: int, d: int, k: int)
    requires k > 0
    ensures gap <= d ==> gap * k <= d * k
    ensures -d <= gap ==> -(d * k) <= gap * k
    ensures gap * k == d * k ==> gap == d
    ensures gap * k == -(d * k) ==> gap == -d
  {
    assert (d - gap) * k == d * k - gap * k;
    assert (d + gap) * k == d * k + gap * k;
  }

  lemma ProductPositive(x: int, y: int)
    requires x > 0 && y > 0
    ensures x * y > 0
  {
  }

  /** Of two ratios over positive numbers the larger rounds no lower. */
  lemma RatioMonotone(n: int, d: int, r: int, m: int, e: int, s: int)
    requires d > 0 && e > 0 && HalfEven(n, d, r) && HalfEven(m, e, s) && n * e <= m * d
    ensures r <= s
  {
    hide HalfEven;
    HalfEvenScaled(n, d, r, e);
    HalfEvenScaled(m, e, s, d);
    ProductPositive(d, e);
    assert d * e == e * d;
    HalfEvenMonotone(n * e, m * d, d * e, r, s);
  }

  /** A larger number never rounds lower. */
  lemma NearestMonotone(n: nat, m: nat, d: nat)
    requires d > 0 && n <= m
    ensures Nearest(n, d) <= Nearest(m, d)
  {
    hide Nearest;
    NearestHalfEven(n, d);
    NearestHalfEven(m, d);
    Multiples(Nearest(n, d), Nearest(m, d), d);
    if n == m { HalfEvenUnique(n, d, Nearest(n, d), Nearest(m, d)); }
  }

  /** Whole multiples round to themselves. */
  lemma NearestWhole(k: nat, d: nat)
    requires d > 0
    ensures Nearest(k * d, d) == k
  {
    hide Nearest;
    NearestHalfEven(k * d, d);
    HalfEvenUnique(k * d, d, k, Nearest(k * d, d));
  }

  /** Between two multiples the result stays between them. */
  lemma NearestBetween(n: nat, d: nat, low: nat, high: nat)
    requires d > 0 && low * d <= n <= high * d
    ensures low <= Nearest(n, d) <= high
  {
    NearestWhole(low, d);
    NearestWhole(high, d);
    NearestMonotone(low * d, n, d);
    NearestMonotone(n, high * d, d);
  }
}

/** The level payment as it is stored: one half-even rounding of an exact ratio of whole numbers. */
module LevelPayments {
  import opened Rounding

  /** Percent held in millionths. */
  const RATE_SCALE := 100 * 1000000

  // ---------------------------------------------------------------- the exact level payment

  function Growth(r: real, n: nat): real { if n == 0 then 1.0 else Growth(r, n - 1) * (1.0 + r) }

  /** The balance after n equal payments, interest unrounded. */
  function Amortized(principal: real, r: real, payment: real, n: nat): real {
    if n == 0 then principal else Amortized(principal, r, payment, n - 1) * (1.0 + r) - payment
  }

  lemma {:induction false} GrowthAboveOne(r: real, n: nat)
    requires r > 0.0 && n >= 1
    ensures Growth(r, n) > 1.0
  {
    if n == 1 {
      assert Growth(r, 1) == Growth(r, 0) * (1.0 + r);
    } else {
      GrowthAboveOne(r, n - 1);
      assert Growth(r, n - 1) * (1.0 + r) > 1.0 * (1.0 + r);
    }
  }

  /** The level payment that brings a principal to a balloon after n payments, before it is rounded. */
  function LevelPayment(principal: real, r: real, n: nat, balloon: real): real
    requires r >= 0.0 && n >= 1
  {
    if r == 0.0 then (principal - balloon) / n as real
    else
      GrowthAboveOne(r, n);
      (principal * Growth(r, n) - balloon) * r / (Growth(r, n) - 1.0)
  }

  lemma CompoundOnce(b: real, g: real, c: real, r: real, payment: real)
    requires b * r == c * g + payment
    ensures (b * (1.0 + r) - payment) * r == c * (g * (1.0 + r)) + payment
  {
    assert (b * (1.0 + r) - payment) * r == (b * r) * (1.0 + r) - payment * r;
    assert (c * g + payment) * (1.0 + r) == (c * g) * (1.0 + r) + payment + payment * r;
    assert (c * g) * (1.0 + r) == c * (g * (1.0 + r));
  }

  lemma OnePaymentMore(principal: real, r: real, payment: real, n: nat)
    ensures Amortized(principal, r, payment, 0) == principal && Growth(r, 0) == 1.0
    ensures Amortized(principal, r, payment, n + 1) == Amortized(principal, r, payment, n) * (1.0 + r) - payment
    ensures Growth(r, n + 1) == Growth(r, n) * (1.0 + r)
  {
  }

  /** The balance in closed form. */
  lemma {:induction false} AmortizedClosed(principal: real, r: real, payment: real, n: nat)
    ensures Amortized(principal, r, payment, n) * r == (principal * r - payment) * Growth(r, n) + payment
  {
    hide Amortized, Growth;
    if n == 0 {
      OnePaymentMore(principal, r, payment, 0);
    } else {
      AmortizedClosed(principal, r, payment, n - 1);
      OnePaymentMore(principal, r, payment, n - 1);
      CompoundOnce(Amortized(principal, r, payment, n - 1), Growth(r, n - 1), principal * r - payment, r, payment);
    }
  }

  lemma {:induction false} AmortizedFree(principal: real, payment: real, n: nat)
    ensures Amortized(principal, 0.0, payment, n) == principal - payment * n as real
  {
    if n > 0 { AmortizedFree(principal, payment, n - 1); }
  }

  lemma SettleAlgebra(principal: real, r: real, payment: real, g: real, balloon: real, end: real)
    requires r > 0.0 && g > 1.0 && payment * (g - 1.0) == (principal * g - balloon) * r
    requires end * r == (principal * r - payment) * g + payment
    ensures end == balloon
    ensures balloon < principal ==> payment > principal * r
  {
    assert (principal * r - payment) * g + payment == principal * r * g - payment * (g - 1.0);
    assert (principal * g - balloon) * r == principal * r * g - balloon * r;
    Cancel(end, balloon, r);
    assert (payment - principal * r) * (g - 1.0) == payment * (g - 1.0) - principal * r * g + principal * r;
    assert (principal - balloon) * r == principal * r - balloon * r;
    if balloon < principal { PositiveFactor(payment - principal * r, g - 1.0, (principal - balloon) * r); }
  }

  /**
   The unrounded level payment leaves exactly the balloon after the last payment, and covers interest whenever
   there is principal to pay.
   */
  lemma LevelPaymentSettles(principal: real, r: real, n: nat, balloon: real)
    requires r >= 0.0 && n >= 1
    ensures var payment := LevelPayment(principal, r, n, balloon);
      && Amortized(principal, r, payment, n) == balloon
      && (balloon < principal ==> payment > principal * r)
  {
    hide Growth, Amortized;
    var payment := LevelPayment(principal, r, n, balloon);
    if r == 0.0 {
      AmortizedFree(principal, payment, n);
      RealQuotient(principal - balloon, n as real);
    } else {
      var g := Growth(r, n);
      GrowthAboveOne(r, n);
      AmortizedClosed(principal, r, payment, n);
      RealQuotient((principal * g - balloon) * r, g - 1.0);
      SettleAlgebra(principal, r, payment, g, balloon, Amortized(principal, r, payment, n));
    }
  }

  lemma Cancel(a: real, b: real, r: real)
    requires r > 0.0 && a * r == b * r
    ensures a == b
  {
    assert (a - b) * r == 0.0;
  }

  lemma PositiveFactor(x: real, y: real, z: real)
    requires y > 0.0 && z > 0.0 && x * y == z
    ensures x > 0.0
  {
  }

  function Power(b: nat, n: nat): nat { if n == 0 then 1 else Power(b, n - 1) * b }

  lemma {:induction false} PowerPositive(b: nat, n: nat)
    requires b > 0
    ensures Power(b, n) > 0
  {
    if n > 0 {
      PowerPositive(b, n - 1);
      Positive(Power(b, n - 1), b);
    }
  }

  lemma Positive(x: int, y: int)
    requires x > 0 && y > 0
    ensures x * y > 0
  {
  }

  lemma {:induction false} PowerGrows(b: nat, c: nat, n: nat)
    requires 0 < b < c && n >= 1
    ensures Power(b, n) < Power(c, n)
  {
    if n > 1 {
      PowerGrows(b, c, n - 1);
      PowerPositive(b, n - 1);
      Products(Power(b, n - 1), Power(c, n - 1), b, c);
    } else {
      assert Power(b, 1) == Power(b, 0) * b && Power(c, 1) == Power(c, 0) * c;
    }
  }

  lemma Products(x: nat, y: nat, b: nat, c: nat)
    requires 0 < x < y && 0 < b < c
    ensures x * b < y * c
  {
    Positive(x, c - b);
    Positive(y - x, c);
    assert x * (c - b) == x * c - x * b;
    assert (y - x) * c == y * c - x * c;
  }

  /** The unit the periodic rate is a multiple of. */
  function Scale(perYear: nat): (d: nat)
    requires perYear > 0
    ensures d > 0
  {
    RATE_SCALE * perYear
  }

  /** The level payment's exact ratio, over and under. */
  function Over(principal: nat, rate: nat, d: nat, count: nat, balloon: nat): int {
    (principal * Power(d + rate, count) - balloon * Power(d, count)) * rate
  }

  function Under(rate: nat, d: nat, count: nat): (under: int)
    requires d > 0 && rate > 0 && count >= 1
    ensures under > 0
  {
    PowerGrows(d, d + rate, count);
    Positive(d, Power(d + rate, count) - Power(d, count));
    d * (Power(d + rate, count) - Power(d, count))
  }

  /** The level payment in minor units, rounded once. */
  function LevelMinor(principal: nat, rate: nat, perYear: nat, count: nat, balloon: nat): int
    requires perYear > 0 && count >= 1
  {
    if rate == 0 then RoundRatio(principal - balloon, count)
    else RoundRatio(Over(principal, rate, Scale(perYear), count, balloon), Under(rate, Scale(perYear), count))
  }

  // ---------------------------------------------------------------- whole numbers as reals

  lemma RealProduct(x: int, y: int)
    ensures (x * y) as real == x as real * y as real
  {
  }

  lemma RealQuotient(x: real, y: real)
    requires y > 0.0
    ensures x / y * y == x
    ensures x > 0.0 ==> x / y > 0.0
  {
  }

  lemma PowerStep(b: nat, n: nat)
    ensures Power(b, 0) == 1 && Power(b, n + 1) == Power(b, n) * b
  {
  }

  lemma GrowthStep(r: real, n: nat)
    ensures Growth(r, 0) == 1.0 && Growth(r, n + 1) == Growth(r, n) * (1.0 + r)
  {
  }

  /** Growth at a periodic rate is a ratio of whole powers. */
  lemma {:induction false} GrowthIsRatio(rate: nat, d: nat, n: nat)
    requires d > 0
    ensures Growth(rate as real / d as real, n) * Power(d, n) as real == Power(d + rate, n) as real
  {
    hide Power, Growth;
    var r, k := rate as real / d as real, if n == 0 then 0 else n - 1;
    GrowthStep(r, k);
    PowerStep(d, k);
    PowerStep(d + rate, k);
    if n > 0 {
      GrowthIsRatio(rate, d, k);
      RealQuotient(rate as real, d as real);
      GrowOnce(Growth(r, k), r, rate as real, d as real, Power(d, k) as real, Power(d + rate, k) as real);
      RealProduct(Power(d, k), d);
      RealProduct(Power(d + rate, k), d + rate);
    }
  }

  lemma GrowOnce(g: real, r: real, y: real, x: real, q: real, p: real)
    requires r * x == y && g * q == p
    ensures (g * (1.0 + r)) * (q * x) == p * (x + y)
  {
    assert (1.0 + r) * x == x + y;
    assert (g * (1.0 + r)) * (q * x) == (g * q) * ((1.0 + r) * x);
  }

  lemma ClearDenominators(exact: real, g: real, r: real, principal: real, balloon: real, x: real, y: real, q: real,
                          p: real)
    requires exact * (g - 1.0) == (principal * g - balloon) * r && r * x == y && g * q == p
    ensures exact * (x * (p - q)) == (principal * p - balloon * q) * y
  {
    var left, right := exact * (g - 1.0), principal * g - balloon;
    assert (g - 1.0) * q == p - q;
    assert exact * (x * (p - q)) == left * (q * x);
    assert right * q == principal * p - balloon * q;
    assert (right * r) * (q * x) == (right * q) * (r * x);
  }

  lemma OverAsReal(principal: nat, rate: nat, d: nat, count: nat, balloon: nat)
    ensures Over(principal, rate, d, count, balloon) as real
         == (principal as real * Power(d + rate, count) as real - balloon as real * Power(d, count) as real)
            * rate as real
  {
    var p, q := Power(d + rate, count), Power(d, count);
    RealProduct(principal, p);
    RealProduct(balloon, q);
    RealProduct(principal * p - balloon * q, rate);
  }

  lemma UnderAsReal(rate: nat, d: nat, count: nat)
    requires d > 0 && rate > 0 && count >= 1
    ensures Under(rate, d, count) as real == d as real * (Power(d + rate, count) as real - Power(d, count) as real)
  {
    RealProduct(d, Power(d + rate, count) - Power(d, count));
  }

  /** The ratio is the exact level payment. */
  lemma LevelIsRatio(principal: nat, rate: nat, d: nat, count: nat, balloon: nat)
    requires d > 0 && rate > 0 && count >= 1
    ensures var exact := LevelPayment(principal as real, rate as real / d as real, count, balloon as real);
      exact * Under(rate, d, count) as real == Over(principal, rate, d, count, balloon) as real
  {
    hide Over, Under, Power, Growth;
    var r := rate as real / d as real;
    RealQuotient(rate as real, d as real);
    GrowthAboveOne(r, count);
    GrowthIsRatio(rate, d, count);
    var g := Growth(r, count);
    RealQuotient((principal as real * g - balloon as real) * r, g - 1.0);
    ClearDenominators(LevelPayment(principal as real, r, count, balloon as real), g, r, principal as real,
                      balloon as real,
                      d as real, rate as real, Power(d, count) as real, Power(d + rate, count) as real);
    OverAsReal(principal, rate, d, count, balloon);
    UnderAsReal(rate, d, count);
  }

  /** The payment a loan is given is the exact level payment to within half a minor unit. */
  lemma LevelMinorNearest(principal: nat, rate: nat, perYear: nat, count: nat, balloon: nat)
    requires perYear > 0 && count >= 1
    ensures var exact := LevelPayment(principal as real, rate as real / Scale(perYear) as real, count,
                                        balloon as real);
      -0.5 <= exact - LevelMinor(principal, rate, perYear, count, balloon) as real <= 0.5
  {
    hide RoundRatio, Over, Under, Scale, HalfEven, LevelPayment;
    var d, m := Scale(perYear), LevelMinor(principal, rate, perYear, count, balloon);
    var exact := LevelPayment(principal as real, rate as real / d as real, count, balloon as real);
    if rate == 0 {
      RoundRatioExactly(principal - balloon, count, m);
      FreeIsRatio(principal, d, count, balloon);
      WithinHalf(exact, principal - balloon, count, m);
    } else {
      LevelIsRatio(principal, rate, d, count, balloon);
      RoundRatioExactly(Over(principal, rate, d, count, balloon), Under(rate, d, count), m);
      WithinHalf(exact, Over(principal, rate, d, count, balloon), Under(rate, d, count), m);
    }
  }

  lemma FreeIsRatio(principal: nat, d: nat, count: nat, balloon: nat)
    requires d > 0 && count >= 1
    ensures LevelPayment(principal as real, 0 as real / d as real, count, balloon as real) * count as real
        == (principal - balloon) as real
  {
    RealQuotient((principal - balloon) as real, count as real);
  }

  lemma WithinHalf(exact: real, n: int, d: int, m: int)
    requires d > 0 && exact * d as real == n as real && HalfEven(n, d, m)
    ensures -0.5 <= exact - m as real <= 0.5
  {
    hide HalfEven;
    var gap := n - m * d;
    HalfEvenGap(n, d, m);
    GapAsReal(exact, n, d, m);
    HalfAsReal(gap, d);
    HalfAsReal(-gap, d);
    AtMostHalf(exact - m as real, d as real, gap as real);
    AtMostHalf(m as real - exact, d as real, (-gap) as real);
  }

  lemma HalfEvenGap(n: int, d: int, m: int)
    requires d > 0 && HalfEven(n, d, m)
    ensures -d <= 2 * (n - m * d) <= d
  {
  }

  lemma GapAsReal(exact: real, n: int, d: int, m: int)
    requires exact * d as real == n as real
    ensures (exact - m as real) * d as real == (n - m * d) as real
    ensures (m as real - exact) * d as real == (-(n - m * d)) as real
  {
    RealProduct(m, d);
    Distributes(exact, m as real, d as real);
  }

  lemma Distributes(a: real, b: real, x: real)
    ensures (a - b) * x == a * x - b * x && (b - a) * x == b * x - a * x
  {
  }

  lemma HalfAsReal(k: int, d: int)
    requires 2 * k <= d
    ensures k as real <= 0.5 * d as real
  {
  }

  /** What is at most half of x, in multiples of x, is at most a half. */
  lemma AtMostHalf(y: real, x: real, k: real)
    requires x > 0.0 && y * x == k && k <= 0.5 * x
    ensures y <= 0.5
  {
    HalfScaled(y, x);
  }

  lemma HalfScaled(y: real, x: real)
    requires x > 0.0
    ensures y > 0.5 ==> y * x > 0.5 * x
  {
    if y > 0.5 { assert (y - 0.5) * x > 0.0; }
  }

  // ---------------------------------------------------------------- the stored payment and the first interest

  /**
   The exact payment is never below the exact interest on the principal, and is that interest when all of it is
   balloon.
   */
  lemma OverCovers(principal: int, balloon: int, p: int, q: int, rate: int, d: int)
    requires balloon <= principal && q > 0 && rate > 0 && d > 0
    ensures (principal * rate) * (d * (p - q)) <= ((principal * p - balloon * q) * rate) * d
    ensures balloon == principal ==> (principal * rate) * (d * (p - q)) == ((principal * p - balloon * q) * rate) * d
  {
    var paid, interest, unit := principal * p - balloon * q, principal * (p - q), rate * d;
    assert paid - interest == (principal - balloon) * q;
    NotNegative(principal - balloon, q);
    Positive(rate, d);
    NotNegative(paid - interest, unit);
    assert (paid - interest) * unit == paid * unit - interest * unit;
    assert (principal * rate) * (d * (p - q)) == interest * unit;
    assert (paid * rate) * d == paid * unit;
  }

  /** The stored payment is what the exact one rounds to. */
  lemma LevelMinorRounds(principal: nat, rate: nat, perYear: nat, count: nat, balloon: nat)
    requires perYear > 0 && count >= 1
    ensures var m, d := LevelMinor(principal, rate, perYear, count, balloon), Scale(perYear);
      if rate == 0 then HalfEven(principal - balloon, count, m)
      else HalfEven(Over(principal, rate, d, count, balloon), Under(rate, d, count), m)
  {
    hide RoundRatio, HalfEven, Over, Under;
    var m, d := LevelMinor(principal, rate, perYear, count, balloon), Scale(perYear);
    if rate == 0 {
      RoundRatioExactly(principal - balloon, count, m);
    } else {
      RoundRatioExactly(Over(principal, rate, d, count, balloon), Under(rate, d, count), m);
    }
  }

  /** The stored payment never falls below the first row's interest, and is that interest when all is balloon. */
  lemma AtLeastInterest(principal: nat, rate: nat, perYear: nat, count: nat, balloon: nat)
    requires perYear > 0 && count >= 1 && balloon <= principal
    ensures LevelMinor(principal, rate, perYear, count, balloon) >= Nearest(principal * rate, Scale(perYear))
    ensures balloon == principal ==>
      LevelMinor(principal, rate, perYear, count, balloon) == Nearest(principal * rate, Scale(perYear))
  {
    hide HalfEven, Nearest, LevelMinor, Scale, Power, Over, Under;
    var m, d := LevelMinor(principal, rate, perYear, count, balloon), Scale(perYear);
    var owed := Nearest(principal * rate, d);
    LevelMinorRounds(principal, rate, perYear, count, balloon);
    NearestHalfEven(principal * rate, d);
    if rate == 0 {
      NotNegative(principal - balloon, d);
      RatioMonotone(0, d, owed, principal - balloon, count, m);
      if balloon == principal { RatioMonotone(0, count, m, 0, d, owed); }
    } else {
      var over, under := Over(principal, rate, d, count, balloon), Under(rate, d, count);
      RatioCovers(principal, rate, d, count, balloon);
      RatioMonotone(principal * rate, d, owed, over, under, m);
      if balloon == principal { RatioMonotone(over, under, m, principal * rate, d, owed); }
    }
  }

  lemma RatioCovers(principal: nat, rate: nat, d: nat, count: nat, balloon: nat)
    requires d > 0 && rate > 0 && count >= 1 && balloon <= principal
    ensures (principal * rate) * Under(rate, d, count) <= Over(principal, rate, d, count, balloon) * d
    ensures balloon == principal ==>
      (principal * rate) * Under(rate, d, count) == Over(principal, rate, d, count, balloon) * d
  {
    hide Power;
    PowerPositive(d, count);
    OverCovers(principal, balloon, Power(d + rate, count), Power(d, count), rate, d);
  }

  lemma OnePaymentRatio(principal: int, balloon: int, rate: int, d: int)
    requires 0 <= balloon < principal && rate > 0 && d > 0
    ensures (principal * (d + rate) - balloon * d) * rate >= d * rate
  {
    var borrowed := principal - balloon;
    assert principal * (d + rate) - balloon * d == borrowed * d + principal * rate;
    Positive(principal, rate);
    if borrowed > 1 { Positive(borrowed - 1, d); }
    assert (borrowed - 1) * d == borrowed * d - d;
    assert (principal * (d + rate) - balloon * d - d) * rate
      == (principal * (d + rate) - balloon * d) * rate - d * rate;
    NotNegative(principal * (d + rate) - balloon * d - d, rate);
  }

  lemma NotNegative(x: int, y: int)
    requires x >= 0 && y >= 0
    ensures x * y >= 0
  {
  }

  lemma RatioOfOne(principal: nat, rate: nat, d: nat, balloon: nat)
    requires d > 0 && rate > 0
    ensures Over(principal, rate, d, 1, balloon) == (principal * (d + rate) - balloon * d) * rate
    ensures Under(rate, d, 1) == d * rate
  {
    hide Power;
    PowerStep(d, 0);
    PowerStep(d + rate, 0);
  }

  /** What rounds from a ratio of at least one is at least one. */
  lemma AtLeastOne(n: int, d: int, m: int)
    requires d > 0 && n >= d && HalfEven(n, d, m)
    ensures m >= 1
  {
    RatioMonotone(1, 1, 1, n, d, m);
  }

  /** A single payment is never worked out as nothing. */
  lemma OnePaymentPositive(principal: nat, rate: nat, perYear: nat, balloon: nat)
    requires perYear > 0 && balloon < principal
    ensures LevelMinor(principal, rate, perYear, 1, balloon) >= 1
  {
    hide LevelMinor, Scale, Over, Under, HalfEven;
    var m, d := LevelMinor(principal, rate, perYear, 1, balloon), Scale(perYear);
    LevelMinorRounds(principal, rate, perYear, 1, balloon);
    if rate == 0 {
      AtLeastOne(principal - balloon, 1, m);
    } else {
      RatioOfOne(principal, rate, d, balloon);
      OnePaymentRatio(principal, balloon, rate, d);
      AtLeastOne(Over(principal, rate, d, 1, balloon), Under(rate, d, 1), m);
    }
  }
}

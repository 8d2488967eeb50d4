/**
 Money is a whole number of cents. `money()` rounds half away from zero (roundTiesToAway,
 section 4.3.1 of IEEE 754-2008); a division first rounds to 28 significant digits, ties to even,
 as the default decimal context does.
 */
module Money {

  function Abs(x: int): nat { if x < 0 then -x else x }

  /** `r` is the integer nearest to n/d, a tie going away from zero. */
  ghost predicate NearestTiesAway(r: int, n: int, d: int)
    requires d > 0
  {
    && 2 * Abs(r * d - n) <= d
    && (2 * Abs(r * d - n) == d ==> Abs(r * d) > Abs(n))
  }

  /** n/d quantized to a whole number, ROUND_HALF_UP. */
  function RoundHalfUp(n: int, d: int): int
    requires d > 0
  {
    if n >= 0 then (2 * n + d) / (2 * d) else -((-2 * n + d) / (2 * d))
  }

  /** n/d rounded to a whole number, ties to even. */
  function RoundHalfEven(n: nat, d: nat): nat
    requires d > 0
  {
    var q, r := n / d, n % d;
    if 2 * r < d || (2 * r == d && q % 2 == 0) then q else q + 1
  }

  lemma MulOrder(a: int, b: int, d: int)
    requires a <= b && 0 <= d
    ensures d * a <= d * b
  {}

  lemma DivBounds(n: int, d: int)
    requires d > 0
    ensures d * (n / d) <= n < d * (n / d) + d
  {}

  lemma QuotientUnique(q: int, n: int, d: int)
    requires d > 0 && d * q <= n < d * q + d
    ensures n / d == q
  {
    DivBounds(n, d);
    var k := n / d;
    if k < q {
      MulOrder(k + 1, q, d);
    } else if q < k {
      MulOrder(q + 1, k, d);
    }
  }

  lemma HalfUpBounds(n: nat, d: int)
    requires d > 0
    ensures var r := RoundHalfUp(n, d); r >= 0 && (2 * r - 1) * d <= 2 * n < (2 * r + 1) * d
  {}

  lemma HalfUpUnique(r: int, n: nat, d: int)
    requires d > 0 && (2 * r - 1) * d <= 2 * n < (2 * r + 1) * d
    ensures RoundHalfUp(n, d) == r
  {
    assert (2 * d) * r == 2 * r * d;
    assert (2 * r - 1) * d == 2 * r * d - d && (2 * r + 1) * d == 2 * r * d + d;
    QuotientUnique(r, 2 * n + d, 2 * d);
  }

  /** The rounding gate returns the nearest cent with ties away from zero, and nothing else does. */
  lemma HalfUpIsNearest(r: int, n: int, d: int)
    requires d > 0
    ensures r == RoundHalfUp(n, d) <==> NearestTiesAway(r, n, d)
  {
    if n >= 0 {
      NearestOfNonNegative(r, n, d);
    } else {
      NearestOfNonNegative(-r, -n, d);
      assert (-r) * d == -(r * d);
      assert RoundHalfUp(n, d) == -RoundHalfUp(-n, d);
    }
  }

  lemma NearestOfNonNegative(r: int, n: nat, d: int)
    requires d > 0
    ensures r == RoundHalfUp(n, d) <==> NearestTiesAway(r, n, d)
  {
    HalfUpBounds(n, d);
    var rd := r * d;
    assert (2 * r - 1) * d == 2 * rd - d && (2 * r + 1) * d == 2 * rd + d;
    if NearestTiesAway(r, n, d) {
      if r < 0 {
        assert rd <= -d;
      }
      HalfUpUnique(r, n, d);
    }
  }

  lemma HalfUpOfWhole(k: int, d: int)
    requires d > 0
    ensures RoundHalfUp(k * d, d) == k
  {
    HalfUpIsNearest(k, k * d, d);
  }

  lemma HalfUpMonotone(n: int, n': int, d: int)
    requires d > 0 && n <= n'
    ensures RoundHalfUp(n, d) <= RoundHalfUp(n', d)
  {
    if n >= 0 {
      DivMonotone(2 * n + d, 2 * n' + d, 2 * d);
    } else if n' < 0 {
      DivMonotone(-2 * n' + d, -2 * n + d, 2 * d);
    } else {
      HalfUpBounds(n', d);
      HalfUpBounds(-n, d);
    }
  }

  lemma DivMonotone(n: int, n': int, d: int)
    requires d > 0 && n <= n'
    ensures n / d <= n' / d
  {
    DivBounds(n, d);
    DivBounds(n', d);
    if n' / d < n / d {
      MulOrder(n' / d + 1, n / d, d);
    }
  }

  // ----- Proration -----

  /** `amount * covered / period`, rounded once. */
  function Prorate(amount: int, coveredDays: int, periodDays: int): int {
    if periodDays <= 0 || coveredDays >= periodDays then amount
    else RoundHalfUp(amount * coveredDays, periodDays)
  }

  /** A part period never bills more than the full one, in absolute value, and more covered days
      never bill less. */
  lemma ProrateIsMonotone(amount: int, c1: int, c2: int, periodDays: int)
    requires periodDays > 0 && 0 <= c1 <= c2
    ensures Abs(Prorate(amount, c1, periodDays)) <= Abs(Prorate(amount, c2, periodDays)) <= Abs(amount)
    ensures amount >= 0 ==> 0 <= Prorate(amount, c1, periodDays)
    ensures amount <= 0 ==> Prorate(amount, c1, periodDays) <= 0
  {
    if amount >= 0 {
      PartOrder(amount, c1, c2, periodDays);
    } else {
      PartOrder(-amount, c1, c2, periodDays);
      ProrateIsOdd(-amount, c1, periodDays);
      ProrateIsOdd(-amount, c2, periodDays);
    }
  }

  lemma ProrateIsOdd(amount: int, c: int, d: int)
    requires 0 <= amount && 0 <= c
    ensures Prorate(-amount, c, d) == -Prorate(amount, c, d)
  {}

  lemma PartOrder(amount: int, c1: int, c2: int, d: int)
    requires d > 0 && 0 <= amount && 0 <= c1 <= c2
    ensures 0 <= Prorate(amount, c1, d) <= Prorate(amount, c2, d) <= amount
  {
    MulOrder(0, c1, amount);
    MulOrder(c1, c2, amount);
    PartOfWhole(amount, c1, d);
    PartOfWhole(amount, c2, d);
    HalfUpMonotone(amount * c1, amount * c2, d);
  }

  lemma PartOfWhole(amount: int, c: int, d: int)
    requires d > 0 && 0 <= amount && 0 <= c
    ensures 0 <= Prorate(amount, c, d) <= amount
  {
    if c < d {
      MulOrder(0, c, amount);
      MulOrder(c, d, amount);
      HalfUpOfWhole(amount, d);
      HalfUpMonotone(amount * c, amount * d, d);
    }
  }

  // ----- Decimal division: 28 significant digits, then the quantize -----

  const PRECISION_27 := 1_000_000_000_000_000_000_000_000_000

  function Pow10(e: nat): (p: nat)
    ensures p >= 1 && (e >= 1 ==> p % 2 == 0) && (e >= 3 ==> p >= 1000)
  {
    if e == 0 then 1 else 10 * Pow10(e - 1)
  }

  /** The number of decimal places at which n/d has 28 significant digits. */
  function Places(n: nat, d: nat): nat
    requires 0 < n && 0 < d
    decreases PRECISION_27 * d - n
  {
    if n >= PRECISION_27 * d then 0 else 1 + Places(10 * n, d)
  }

  /** n/d as the decimal context computes it: a coefficient and its number of decimal places. */
  function DecimalDivide(n: nat, d: nat): (nat, nat)
    requires 0 < d
  {
    if n == 0 then (0, 0)
    else
      var e := Places(n, d);
      (RoundHalfEven(n * Pow10(e), d), e)
  }

  /** `_prorate`'s and `monthly_amount`'s two roundings in a row: divide, then quantize. */
  function DivideThenQuantize(n: int, d: nat): int
    requires 0 < d
  {
    var (q, e) := DecimalDivide(Abs(n), d);
    var cents := RoundHalfUp(q, Pow10(e));
    if n < 0 then -cents else cents
  }

  lemma {:induction false} PlacesGrow(n: nat, d: nat, k: nat)
    requires 0 < n && 0 < d
    requires n * Pow10(k) < 10 * PRECISION_27 * d
    ensures Places(n, d) >= k
    decreases k
  {
    if k > 0 {
      hide Pow10;
      PowerSplit(n, k);
      MulOrder(1, Pow10(k - 1), 10 * n);
      PlacesGrow(10 * n, d, k - 1);
    }
  }

  lemma {:induction false} PowerSplit(n: nat, e: nat)
    requires e > 0
    ensures n * Pow10(e) == (10 * n) * Pow10(e - 1)
  {
    assert Pow10(e) == 10 * Pow10(e - 1);
    Regroup(n, 10, Pow10(e - 1));
  }

  lemma HalfEvenBounds(n: nat, d: nat)
    requires d > 0
    ensures var q := RoundHalfEven(n, d); 2 * n <= 2 * (q * d) + d && 2 * (q * d) <= 2 * n + d
  {}

  /** `r` is the integer nearest to n/d, a tie going to the even one. */
  ghost predicate NearestTiesEven(r: int, n: int, d: int)
    requires d > 0
  {
    2 * Abs(r * d - n) < d || (2 * Abs(r * d - n) == d && r % 2 == 0)
  }

  lemma DistanceFrom(r: int, q: int, rem: int, d: int)
    requires 0 <= rem < d
    ensures r == q ==> r * d - (q * d + rem) == -rem
    ensures r == q + 1 ==> r * d - (q * d + rem) == d - rem
    ensures r < q ==> r * d - (q * d + rem) <= -d
    ensures q + 1 < r ==> r * d - (q * d + rem) > d
  {
    if r < q {
      MulOrder(r + 1, q, d);
    } else if q + 1 < r {
      MulOrder(q + 2, r, d);
    }
  }

  lemma HalfEvenIsNearest(r: int, n: nat, d: nat)
    requires d > 0
    ensures r == RoundHalfEven(n, d) <==> NearestTiesEven(r, n, d)
  {
    hide RoundHalfEven;
    var q: int, rem: int := HalfEvenUnfolds(n, d);
    DistanceFrom(r, q, rem, d);
    RoundsTo(q, rem, d, r, r * d - n);
  }

  lemma HalfEvenUnfolds(n: nat, d: nat) returns (q: int, rem: int)
    requires d > 0
    ensures 0 <= rem < d && n == q * d + rem
    ensures RoundHalfEven(n, d) == if 2 * rem < d || (2 * rem == d && q % 2 == 0) then q else q + 1
  {
    q, rem := n / d, n % d;
  }

  lemma RoundsTo(q: int, rem: int, d: int, r: int, gap: int)
    requires 0 <= rem < d
    requires r == q ==> gap == -rem
    requires r == q + 1 ==> gap == d - rem
    requires r < q ==> gap <= -d
    requires q + 1 < r ==> gap > d
    ensures r == (if 2 * rem < d || (2 * rem == d && q % 2 == 0) then q else q + 1)
            <==> 2 * Abs(gap) < d || (2 * Abs(gap) == d && r % 2 == 0)
  {}

  lemma HalfEvenOfWhole(k: nat, d: nat)
    requires d > 0
    ensures RoundHalfEven(k * d, d) == k
  {}

  /** One correctly rounded coefficient with more decimal places than the divisor has digits
      falls on the same side of every half cent as the exact quotient. */
  lemma SameSideOfEveryHalf(n: nat, d: nat, t: nat)
    requires 0 < d < t && t % 2 == 0
    ensures RoundHalfUp(RoundHalfEven(n * t, d), t) == RoundHalfUp(n, d)
  {
    var r, q := RoundHalfUp(n, d), RoundHalfEven(n * t, d);
    HalfUpBounds(n, d);
    BelowTheUpperHalf(n, d, t, 2 * r + 1);
    if 2 * n == (2 * r - 1) * d {
      HalfCentIsExact(n, d, t, r);
    } else {
      AboveTheLowerHalf(n, d, t, 2 * r - 1);
    }
    HalfUpUnique(r, q, t);
  }

  lemma BelowTheUpperHalf(n: nat, d: nat, t: nat, hi: int)
    requires 0 < d < t && 2 * n < hi * d
    ensures 2 * RoundHalfEven(n * t, d) < hi * t
  {
    hide RoundHalfEven;
    var q := RoundHalfEven(n * t, d);
    HalfEvenBounds(n * t, d);
    ScaleGap(2 * n, hi * d, t);
    Regroup(t, 2, n);
    Regroup(t, hi, d);
    Regroup(d, 2, q);
    CancelStrict(2 * q, hi * t, d);
  }

  lemma AboveTheLowerHalf(n: nat, d: nat, t: nat, lo: int)
    requires 0 < d < t && lo * d < 2 * n
    ensures lo * t < 2 * RoundHalfEven(n * t, d)
  {
    hide RoundHalfEven;
    var q := RoundHalfEven(n * t, d);
    HalfEvenBounds(n * t, d);
    ScaleGap(lo * d, 2 * n, t);
    Regroup(t, 2, n);
    Regroup(t, lo, d);
    Regroup(d, 2, q);
    CancelStrict(lo * t, 2 * q, d);
  }

  lemma Regroup(a: int, b: int, c: int)
    ensures a * (b * c) == b * (c * a) == (b * a) * c == (b * c) * a
  {}

  lemma ScaleGap(a: int, b: int, t: int)
    requires a < b && 0 < t
    ensures t * a + t <= t * b
  {
    MulOrder(a + 1, b, t);
    assert t * (a + 1) == t * a + t;
  }

  lemma HalfCentIsExact(n: nat, d: nat, t: nat, r: int)
    requires 0 < d && t % 2 == 0 && 2 * n == (2 * r - 1) * d
    requires r >= 0
    ensures 2 * RoundHalfEven(n * t, d) == (2 * r - 1) * t
  {
    var h := t / 2;
    assert n * t == (2 * n) * h;
    assert (2 * n) * h == ((2 * r - 1) * h) * d;
    assert r >= 1;
    assert (2 * r - 1) * h >= 0;
    HalfEvenOfWhole((2 * r - 1) * h, d);
  }

  lemma CancelFactor(a: int, b: int, d: int)
    requires 0 < d && a * d <= b * d
    ensures a <= b
  {}

  lemma CancelStrict(a: int, b: int, d: int)
    requires 0 < d && a * d < b * d
    ensures a < b
  {}

  /** The same for a quantize that rounds ties to even. */
  lemma SameSideOfEveryHalfEven(n: nat, d: nat, t: nat)
    requires 0 < d < t && t % 2 == 0
    ensures RoundHalfEven(RoundHalfEven(n * t, d), t) == RoundHalfEven(n, d)
  {
    hide RoundHalfEven;
    var r, q := RoundHalfEven(n, d), RoundHalfEven(n * t, d);
    HalfEvenIsNearest(r, n, d);
    HalfStep(r, d);
    HalfStep(r, t);
    if 2 * n == (2 * r + 1) * d {
      HalfCentIsExact(n, d, t, r + 1);
    } else if 2 * n == (2 * r - 1) * d {
      HalfCentIsExact(n, d, t, r);
    } else {
      BelowTheUpperHalf(n, d, t, 2 * r + 1);
      AboveTheLowerHalf(n, d, t, 2 * r - 1);
    }
    HalfEvenIsNearest(r, q, t);
  }

  lemma HalfStep(r: int, d: int)
    ensures (2 * r + 1) * d == 2 * (r * d) + d && (2 * r - 1) * d == 2 * (r * d) - d
  {}

  const AMOUNT_LIMIT := 10_000_000_000_000_000_000_000_000

  /** The coefficient really has 28 significant digits (or is 10^28, one unit up). */
  lemma CoefficientHas28Digits(n: nat, d: nat)
    requires 0 < d && 0 < n < 10 * PRECISION_27 * d
    ensures PRECISION_27 <= DecimalDivide(n, d).0 <= 10 * PRECISION_27
  {
    var m := n * Pow10(Places(n, d));
    PlacesBracket(n, d);
    DivMonotone(PRECISION_27 * d, m, d);
    QuotientUnique(PRECISION_27, PRECISION_27 * d, d);
    DivBounds(m, d);
    if m / d >= 10 * PRECISION_27 {
      MulOrder(10 * PRECISION_27, m / d, d);
    }
  }

  lemma {:induction false} PlacesBracket(n: nat, d: nat)
    requires 0 < d && 0 < n < 10 * PRECISION_27 * d
    ensures PRECISION_27 * d <= n * Pow10(Places(n, d)) < 10 * PRECISION_27 * d
    decreases PRECISION_27 * d - n
  {
    if n < PRECISION_27 * d {
      PlacesBracket(10 * n, d);
      PowerSplit(n, Places(n, d));
    }
  }

  /** Dividing at 28 significant digits and then quantizing gives the one exact rounding, for
      every divisor below 1000 and every quotient below 10^25 cents. */
  lemma DoubleRoundingIsHarmless(n: int, d: nat)
    requires 0 < d < 1000
    requires Abs(n) < AMOUNT_LIMIT * d
    ensures DivideThenQuantize(n, d) == RoundHalfUp(n, d)
  {
    var a: nat := Abs(n);
    if a == 0 {
      QuotientUnique(0, d, 2 * d);
    } else {
      assert Pow10(3) == 1000;
      PlacesGrow(a, d, 3);
      SameSideOfEveryHalf(a, d, Pow10(Places(a, d)));
    }
  }

  /** `_prorate` as the code computes it, with both roundings, is the single exact rounding. Below
      the limit the product amount * covered has at most 28 digits, so it is not rounded itself. */
  lemma ProrateAsComputed(amount: int, coveredDays: nat, periodDays: nat)
    requires coveredDays < periodDays < 1000 && Abs(amount) < AMOUNT_LIMIT
    ensures DivideThenQuantize(amount * coveredDays, periodDays) == Prorate(amount, coveredDays, periodDays)
  {
    var a: nat := Abs(amount);
    assert Abs(amount * coveredDays) == a * coveredDays;
    MulOrder(coveredDays, periodDays, a);
    MulOrder(a + 1, AMOUNT_LIMIT, periodDays);
    assert periodDays * (a + 1) == a * periodDays + periodDays;
    DoubleRoundingIsHarmless(amount * coveredDays, periodDays);
  }

  // ----- A percentage: divide, multiply by 100, quantize to hundredths -----

  const PERCENT_LIMIT := 100_000_000_000_000_000_000_000

  /** `(n / d * 100).quantize(0.01)` in hundredths of a percent. The product by 100 only moves the
      decimal point, so it is exact. */
  function PercentThenQuantize(n: nat, d: nat): nat
    requires 0 < d
  {
    var (q, e) := DecimalDivide(n, d);
    RoundHalfEven(q * 10000, Pow10(e))
  }

  lemma HalfEvenCancels(n: nat, d: nat, k: nat)
    requires 0 < d && 0 < k
    ensures 0 < d * k && RoundHalfEven(n * k, d * k) == RoundHalfEven(n, d)
  {
    hide RoundHalfEven;
    var r := RoundHalfEven(n, d);
    MulOrder(1, d, k);
    HalfEvenIsNearest(r, n, d);
    var gap := r * d - n;
    assert r * (d * k) - n * k == gap * k;
    ScaledGap(gap, d, k);
    HalfEvenIsNearest(r, n * k, d * k);
  }

  lemma ScaledGap(gap: int, d: nat, k: nat)
    requires 0 < k
    ensures 2 * Abs(gap * k) < d * k <==> 2 * Abs(gap) < d
    ensures 2 * Abs(gap * k) == d * k <==> 2 * Abs(gap) == d
  {
    var a: int := Abs(gap);
    assert gap * k == (if gap < 0 then -(a * k) else a * k);
    MulOrder(0, a, k);
    if 2 * a < d {
      MulOrder(2 * a + 1, d, k);
    } else {
      MulOrder(d, 2 * a, k);
      if d < 2 * a {
        MulOrder(d + 1, 2 * a, k);
      }
    }
  }

  lemma EnoughPlaces(n: nat, d: nat)
    requires 0 < d && 0 < n < PERCENT_LIMIT
    ensures Places(n, d) > 4 && Pow10(Places(n, d)) == 10000 * Pow10(Places(n, d) - 4)
    ensures d < Pow10(Places(n, d) - 4)
  {
    hide Pow10, Places;
    var e := Places(n, d);
    MulOrder(1, d, PRECISION_27);
    PlacesBracket(n, d);
    if e <= 4 {
      SmallPower(e);
      MulOrder(Pow10(e), 10000, n);
    }
    TenThousand(e);
    BeyondTheDivisor(n, d, Pow10(e - 4));
  }

  lemma BeyondTheDivisor(n: nat, d: nat, t: nat)
    requires 0 < d && 0 < n < PERCENT_LIMIT && PRECISION_27 * d <= n * (10000 * t)
    ensures d < t
  {
    assert n * (10000 * t) == 10000 * (n * t);
    assert d * (n + 1) == n * d + d;
    MulOrder(n + 1, PERCENT_LIMIT, d);
    if t <= d {
      MulOrder(t, d, n);
    }
  }

  lemma SmallPower(e: nat)
    requires e <= 4
    ensures Pow10(e) <= 10000
  {
    assert Pow10(0) == 1 && Pow10(1) == 10 && Pow10(2) == 100 && Pow10(3) == 1000 && Pow10(4) == 10000;
  }

  lemma TenThousand(e: nat)
    requires e >= 4
    ensures Pow10(e) == 10000 * Pow10(e - 4)
  {
    assert Pow10(e - 2) == 10 * (10 * Pow10(e - 4));
  }

  /** Dividing at 28 significant digits, multiplying by 100 and quantizing gives the one exact
      rounding, ties to even, of the percentage. */
  lemma PercentAsComputed(n: nat, d: nat)
    requires 0 < d && n < PERCENT_LIMIT
    ensures PercentThenQuantize(n, d) == RoundHalfEven(n * 10000, d)
  {
    hide RoundHalfEven, Pow10;
    if n == 0 {
      HalfEvenOfWhole(0, d);
      HalfEvenOfWhole(0, Pow10(0));
    } else {
      EnoughPlaces(n, d);
      var t := Pow10(Places(n, d) - 4);
      var q := RoundHalfEven(n * (10000 * t), d);
      Regroup(n, 10000, t);
      assert n * (10000 * t) == (n * 10000) * t;
      EvenPower(Places(n, d) - 4);
      SameSideOfEveryHalfEven(n * 10000, d, t);
      HalfEvenCancels(q, t, 10000);
    }
  }

  lemma EvenPower(e: nat)
    requires e >= 1
    ensures Pow10(e) % 2 == 0
  {}
}

/** Currency conversion on integer minor units (src/recon/fx/convert.py, src/recon/domain/money.py)
    and the whole-number window that stands in for the relative tolerance when groups are searched
    (src/recon/matching/strategies/group.py). Decimals are exact rationals here. */
module FxConvert {
  import opened Ledger

  /** Minor-unit exponents; a currency that is not listed is an error. */
  const EXPONENTS: map<string, nat> := map[
    "INR" := 2, "USD" := 2, "GBP" := 2, "EUR" := 2, "SGD" := 2, "AED" := 2,
    "JPY" := 0, "KWD" := 3, "BHD" := 3, "OMR" := 3]

  function Pow10(n: nat): (p: real)
    ensures p >= 1.0
  {
    if n == 0 then 1.0 else 10.0 * Pow10(n - 1)
  }

  function Abs(x: real): real { if x < 0.0 then -x else x }

  /** ROUND_HALF_EVEN to a whole number. */
  function HalfEven(x: real): (r: int)
    ensures Abs(x - r as real) <= 0.5
    ensures Abs(x - r as real) == 0.5 ==> r % 2 == 0
  {
    var down := x.Floor;
    var rest := x - down as real;
    if rest < 0.5 then down
    else if rest > 0.5 then down + 1
    else if down % 2 == 0 then down else down + 1
  }

  /** Nothing else rounds half to even: the two clauses above determine the result. */
  lemma HalfEvenIsUnique(x: real, r: int)
    requires Abs(x - r as real) <= 0.5 && (Abs(x - r as real) == 0.5 ==> r % 2 == 0)
    ensures r == HalfEven(x)
  {
    var h := HalfEven(x);
    assert -1.0 <= h as real - r as real <= 1.0;
  }

  lemma HalfEvenMonotone(x: real, y: real)
    requires x <= y
    ensures HalfEven(x) <= HalfEven(y)
  {
    var a, b := HalfEven(x), HalfEven(y);
    assert a as real - b as real <= 1.0;
  }

  // --------------------------------------------------- products and quotients, by name

  function Times(a: real, b: real): real { a * b }

  function Over(a: real, b: real): real
    requires b != 0.0
  {
    a / b
  }

  lemma Quotient(a: real, b: real, x: real)
    requires b > 0.0
    ensures Over(a, b) <= x <==> a <= Times(x, b)
    ensures x <= Over(a, b) <==> Times(x, b) <= a
  {
    var q := a / b;
    assert q * b == a;
    if q < x {
      assert (x - q) * b > 0.0;
    }
    if x < q {
      assert (q - x) * b > 0.0;
    }
  }

  lemma Distributes(a: real, b: real, k: real)
    ensures Times(a + b, k) == Times(a, k) + Times(b, k) && Times(a - b, k) == Times(a, k) - Times(b, k)
    ensures Times(-a, k) == -Times(a, k)
  {
  }

  lemma Undivided(a: real, b: real)
    requires b != 0.0
    ensures Times(Over(a, b), b) == a
  {
  }

  /** The value in paise of one minor unit of a currency with the given exponent. */
  function PaisePerMinor(rate: real, exponent: nat): (k: real)
    requires rate > 0.0
    ensures k > 0.0
  {
    rate * 100.0 / Pow10(exponent)
  }

  /** to_inr_minor; None for a currency without an exponent. */
  function ToInrMinor(amount: int, currency: string, rate: real): Option<int>
    requires rate > 0.0
  {
    if currency == "INR" then Some(amount)
    else if currency !in EXPONENTS then None
    else Some(HalfEven(Times(amount as real, PaisePerMinor(rate, EXPONENTS[currency]))))
  }

  /** from_inr_minor. */
  function FromInrMinor(inr: int, currency: string, rate: real): Option<int>
    requires rate > 0.0
  {
    if currency == "INR" then Some(inr)
    else if currency !in EXPONENTS then None
    else Some(HalfEven(Over(inr as real, PaisePerMinor(rate, EXPONENTS[currency]))))
  }

  type Rate = r: real | r > 0.0 witness 1.0

  /** FxService.quote: the INR rate of a currency on a day, if there is one. */
  type Quotes = (string, int) -> Option<Rate>

  /** The INR value of one leg at the rate of its own day; None when the rate is missing. */
  function LegInr(quotes: Quotes, txn: Txn): Option<int> {
    var quote := quotes(txn.currency, txn.date);
    if quote == None then None else ToInrMinor(txn.amount, txn.currency, quote.value)
  }

  /** There and back: x minor units to paise and to minor units again. */
  function ThereAndBack(x: int, k: real): int
    requires k > 0.0
  {
    HalfEven(Over(HalfEven(Times(x as real, k)) as real, k))
  }

  lemma Scaled(x: real, y: real, k: real)
    requires k > 0.0 && Abs(y - Times(x, k)) <= 0.5
    ensures Abs(Over(y, k) - x) <= Over(0.5, k)
  {
    hide Times, Over;
    var d := Over(y, k) - x;
    Distributes(Over(y, k), x, k);
    Distributes(d, 0.0, k);
    Undivided(y, k);
    Quotient(0.5, k, d);
    Quotient(0.5, k, -d);
  }

  lemma RoundTripBound(x: int, k: real)
    requires k > 0.0
    ensures Abs(ThereAndBack(x, k) as real - x as real) <= 0.5 + Over(0.5, k)
  {
    hide Times, Over;
    var y := HalfEven(Times(x as real, k));
    Scaled(x as real, y as real, k);
  }

  lemma HalfOver(k: real)
    requires k > 1.0
    ensures Over(0.5, k) < 0.5
  {
  }

  lemma ByOne(x: real)
    ensures Times(x, 1.0) == x && Over(x, 1.0) == x
  {
  }

  lemma RoundTripExact(x: int, k: real)
    requires k >= 1.0
    ensures ThereAndBack(x, k) == x
  {
    hide Times, Over;
    if k == 1.0 {
      ByOne(x as real);
      HalfEvenIsUnique(x as real, x);
    } else {
      var y := HalfEven(Times(x as real, k));
      Scaled(x as real, y as real, k);
      HalfOver(k);
      HalfEvenIsUnique(Over(y as real, k), x);
    }
  }

  lemma OneMoreUnit(n: nat, k: real)
    requires n > 0 && k > 0.0
    ensures Times((n - 1) as real, k) <= Times(n as real, k)
  {
    Distributes((n - 1) as real, 1.0, k);
  }

  /** If every amount came back, n minor units would be worth at least n paise. */
  lemma {:induction false} NeverLosingMeansGrowing(k: real, n: nat)
    requires k > 0.0 && forall x: int :: ThereAndBack(x, k) == x
    ensures HalfEven(Times(n as real, k)) >= n
  {
    if n == 0 {
      assert Times(0.0, k) == 0.0;
      HalfEvenIsUnique(0.0, 0);
    } else {
      hide Times, Over, HalfEven;
      NeverLosingMeansGrowing(k, n - 1);
      OneMoreUnit(n, k);
      HalfEvenMonotone(Times((n - 1) as real, k), Times(n as real, k));
      assert ThereAndBack(n, k) == n && ThereAndBack(n - 1, k) == n - 1;
    }
  }

  lemma Inverse(gap: real) returns (inverse: real)
    requires 0.0 < gap
    ensures Times(inverse, gap) == 1.0 && inverse > 0.0
  {
    inverse := 1.0 / gap;
    assert inverse * gap == 1.0;
  }

  lemma PositiveProduct(a: real, b: real)
    requires a > 0.0 && b > 0.0
    ensures Times(a, b) > 0.0
  {
  }

  lemma Commutes(a: real, b: real)
    ensures Times(a, b) == Times(b, a) && Times(a, 1.0) == a
  {
  }

  lemma LargeEnough(k: real) returns (n: nat)
    requires 0.0 < k < 1.0
    ensures Times(n as real, k) < n as real - 1.0
  {
    hide Times;
    var gap := 1.0 - k;
    var inverse := Inverse(gap);
    n := inverse.Floor + 1;
    var excess := n as real - inverse;
    PositiveProduct(excess, gap);
    Distributes(excess, inverse, gap);
    assert excess + inverse == n as real;
    Distributes(1.0, gap, n as real);
    Commutes(n as real, gap);
    Commutes(n as real, k);
    Commutes(n as real, 1.0);
    assert 1.0 - gap == k;
  }

  /** Below one paisa per minor unit some amount is lost. */
  lemma SmallUnitsLose(k: real)
    requires 0.0 < k < 1.0
    ensures exists x: int :: ThereAndBack(x, k) != x
  {
    hide ThereAndBack, Times;
    if forall x: int :: ThereAndBack(x, k) == x {
      var n := LargeEnough(k);
      NeverLosingMeansGrowing(k, n);
      assert false;
    }
  }

  /** to_inr_minor followed by from_inr_minor at the same rate. */
  function Returned(x: int, currency: string, rate: real): Option<int>
    requires rate > 0.0
  {
    var inr := ToInrMinor(x, currency, rate);
    if inr == None then None else FromInrMinor(inr.value, currency, rate)
  }

  /** The value in paise of one minor unit. */
  function UnitInPaise(currency: string, rate: real): (k: real)
    requires rate > 0.0 && currency in EXPONENTS
    ensures k > 0.0
  {
    if currency == "INR" then 1.0 else PaisePerMinor(rate, EXPONENTS[currency])
  }

  lemma ReturnedByUnit(x: int, currency: string, rate: real)
    requires rate > 0.0 && currency in EXPONENTS
    ensures Returned(x, currency, rate) == Some(ThereAndBack(x, UnitInPaise(currency, rate)))
  {
    hide Times, Over, HalfEven, PaisePerMinor, EXPONENTS;
    if currency == "INR" {
      RoundTripExact(x, 1.0);
    }
  }

  /** Converting to INR and back with the same rate is never further off than 1/2 + 1/(2k) minor
      units, k being the value of one of them in paise, and returns every amount exactly when k is
      at least 1. */
  lemma ConversionRoundTrip(currency: string, rate: real)
    requires rate > 0.0 && currency in EXPONENTS
    ensures forall x: int ::
              && Returned(x, currency, rate).Some?
              && Abs(Returned(x, currency, rate).value as real - x as real)
                 <= 0.5 + Over(0.5, UnitInPaise(currency, rate))
    ensures (forall x: int :: Returned(x, currency, rate) == Some(x)) <==> UnitInPaise(currency, rate) >= 1.0
  {
    hide *;
    var k := UnitInPaise(currency, rate);
    forall x: int
      ensures Returned(x, currency, rate) == Some(ThereAndBack(x, k))
      ensures Abs(ThereAndBack(x, k) as real - x as real) <= 0.5 + Over(0.5, k)
      ensures k >= 1.0 ==> ThereAndBack(x, k) == x
    {
      ReturnedByUnit(x, currency, rate);
      RoundTripBound(x, k);
      if k >= 1.0 {
        RoundTripExact(x, k);
      }
    }
    if k < 1.0 {
      SmallUnitsLose(k);
      var x: int :| ThereAndBack(x, k) != x;
      assert Returned(x, currency, rate) != Some(x);
    }
  }

  /** One whole unit of a foreign currency, in its own minor units, is worth the rate in rupees. */
  lemma OneUnitIsWorthTheRate(currency: string, rate: real)
    requires rate > 0.0 && currency != "INR" && MinorUnits(currency).Some?
    ensures ToInrMinor(MinorUnits(currency).value, currency, rate) == Some(HalfEven(rate * 100.0))
  {
    UnitsArePowers(currency);
    hide EXPONENTS, HalfEven, Pow10, MinorUnits;
    ScaleCancels(Pow10(EXPONENTS[currency]), rate * 100.0);
  }

  lemma ScaleCancels(p: real, x: real)
    requires p != 0.0
    ensures Times(p, x / p) == x
  {
  }

  // ------------------------------------------------------------------- what a leg is worth

  /** Minor units in one unit of a currency. */
  function MinorUnits(currency: string): Option<nat> {
    if currency in {"INR", "USD", "GBP", "EUR", "SGD", "AED"} then Some(100)
    else if currency in {"KWD", "BHD", "OMR"} then Some(1000)
    else if currency == "JPY" then Some(1)
    else None
  }

  lemma UnitsArePowers(currency: string)
    ensures MinorUnits(currency) == None <==> currency !in EXPONENTS
    ensures currency in EXPONENTS ==> Pow10(EXPONENTS[currency]) == MinorUnits(currency).value as real
  {
    assert Pow10(0) == 1.0 && Pow10(1) == 10.0 && Pow10(2) == 100.0 && Pow10(3) == 1000.0;
  }

  /** v paise are what the transaction is worth: a rupee amount is worth itself; any other is worth its units
      at the rate of its own day, to the nearest paisa and to the even one of two. */
  predicate WorthInr(quotes: Quotes, txn: Txn, v: int) {
    var quote := quotes(txn.currency, txn.date);
    && quote.Some?
    && if txn.currency == "INR" then v == txn.amount
       else
         && MinorUnits(txn.currency).Some?
         && var units := MinorUnits(txn.currency).value as real;
            var gap := Abs(Times(txn.amount as real, quote.value * 100.0) - Times(v as real, units));
            2.0 * gap <= units && (2.0 * gap == units ==> v % 2 == 0)
  }

  lemma LegIsWorth(quotes: Quotes, txn: Txn, v: int)
    ensures LegInr(quotes, txn) == Some(v) <==> WorthInr(quotes, txn, v)
  {
    hide EXPONENTS, HalfEven, Times;
    var quote := quotes(txn.currency, txn.date);
    UnitsArePowers(txn.currency);
    if quote.Some? && txn.currency != "INR" && txn.currency in EXPONENTS {
      var units := MinorUnits(txn.currency).value as real;
      var x := Times(txn.amount as real, PaisePerMinor(quote.value, EXPONENTS[txn.currency]));
      PaiseByUnits(txn.amount as real, quote.value * 100.0, units);
      hide PaisePerMinor;
      GapByUnits(x, v as real, units);
      if HalfEven(x) != v {
        if Abs(x - v as real) <= 0.5 && (Abs(x - v as real) == 0.5 ==> v % 2 == 0) {
          HalfEvenIsUnique(x, v);
        }
      }
    }
  }

  lemma PaiseByUnits(amount: real, paise: real, units: real)
    requires units > 0.0
    ensures Times(Times(amount, paise / units), units) == Times(amount, paise)
  {
    assert (paise / units) * units == paise;
    assert amount * (paise / units) * units == amount * ((paise / units) * units);
  }

  lemma GapByUnits(x: real, v: real, units: real)
    requires units > 0.0
    ensures 2.0 * Abs(Times(x, units) - Times(v, units)) <= units <==> Abs(x - v) <= 0.5
    ensures 2.0 * Abs(Times(x, units) - Times(v, units)) == units <==> Abs(x - v) == 0.5
  {
    hide Times;
    Distributes(x, v, units);
    AbsByUnits(x - v, units);
    HalfByUnits(Abs(x - v), units);
  }

  lemma AbsByUnits(d: real, units: real)
    requires units > 0.0
    ensures Abs(Times(d, units)) == Times(Abs(d), units)
  {
    if d >= 0.0 {
      assert d * units >= 0.0;
    } else {
      assert -d * units > 0.0;
    }
  }

  lemma HalfByUnits(gap: real, units: real)
    requires units > 0.0
    ensures 2.0 * Times(gap, units) <= units <==> gap <= 0.5
    ensures 2.0 * Times(gap, units) == units <==> gap == 0.5
  {
    if gap < 0.5 {
      assert (0.5 - gap) * units > 0.0;
    } else if gap > 0.5 {
      assert (gap - 0.5) * units > 0.0;
    }
  }

  // ------------------------------------------------------------------- the tolerance window

  /** relative_difference_percent: |a - b| / mean(a, b) in percent. */
  function RelativeDifference(a: int, b: int): real {
    if a + b == 0 then 0.0 else Abs((a - b) as real) / ((a + b) as real / 2.0) * 100.0
  }

  function Ceiling(x: real): int { -((-x).Floor) }

  function Low(target: real, t: real): real
    requires 2.0 + t != 0.0
  {
    Over(Times(target, 2.0 - t), 2.0 + t)
  }

  function High(target: real, t: real): real
    requires 2.0 - t != 0.0
  {
    Over(Times(target, 2.0 + t), 2.0 - t)
  }

  /** The whole-number window for a target and a tolerance in percent; None when the tolerance is
      200 and the code divides by zero. */
  function Window(target: int, percent: real): Option<(int, int)>
    requires percent >= 0.0
  {
    var t := percent / 100.0;
    if t == 2.0 then None
    else Some((Ceiling(Low(target as real, t)), High(target as real, t).Floor))
  }

  predicate InWindow(target: int, percent: real, m: int)
    requires percent >= 0.0
  {
    var w := Window(target, percent);
    w.Some? && w.value.0 <= m <= w.value.1
  }

  lemma CeilingBelow(x: real, m: int)
    ensures Ceiling(x) <= m <==> x <= m as real
  {
  }

  lemma FloorAbove(x: real, m: int)
    ensures m <= x.Floor <==> m as real <= x
  {
  }

  /** In terms of the tolerance t as a fraction of the mean. */
  predicate Close(a: real, b: real, t: real) {
    2.0 * (a - b) <= Times(t, a + b) && 2.0 * (b - a) <= Times(t, a + b)
  }

  lemma WindowMeansClose(target: nat, percent: real, m: nat)
    requires 0.0 <= percent && percent / 100.0 < 2.0
    ensures InWindow(target, percent, m) <==> Close(target as real, m as real, percent / 100.0)
  {
    hide Times, Over, Ceiling;
    var t := percent / 100.0;
    var a, b := target as real, m as real;
    CeilingBelow(Low(a, t), m);
    FloorAbove(High(a, t), m);
    Quotient(Times(a, 2.0 - t), 2.0 + t, b);
    Quotient(Times(a, 2.0 + t), 2.0 - t, b);
    Products(a, b, t);
  }

  lemma Products(a: real, b: real, t: real)
    ensures Times(a, 2.0 - t) <= Times(b, 2.0 + t) <==> 2.0 * (a - b) <= Times(t, a + b)
    ensures Times(b, 2.0 - t) <= Times(a, 2.0 + t) <==> 2.0 * (b - a) <= Times(t, a + b)
  {
    assert a * (2.0 - t) == 2.0 * a - a * t && b * (2.0 + t) == 2.0 * b + b * t;
    assert b * (2.0 - t) == 2.0 * b - b * t && a * (2.0 + t) == 2.0 * a + a * t;
    assert t * (a + b) == a * t + b * t;
  }

  lemma ToleranceMeansClose(a: nat, b: nat, percent: real)
    requires percent >= 0.0
    ensures RelativeDifference(a, b) <= percent <==> Close(a as real, b as real, percent / 100.0)
  {
    var t := percent / 100.0;
    if a + b == 0 {
      assert a as real == 0.0 && b as real == 0.0;
    } else {
      var mean, gap := (a + b) as real / 2.0, Abs((a - b) as real);
      Quotient(gap, mean, t);
      hide Times, Over;
      assert RelativeDifference(a, b) == Over(gap, mean) * 100.0 by {
        OverMeans(gap, mean);
      }
      Doubled(t, a as real, b as real);
    }
  }

  lemma OverMeans(a: real, b: real)
    requires b != 0.0
    ensures Over(a, b) == a / b
  {
  }

  lemma Doubled(t: real, a: real, b: real)
    ensures 2.0 * Times(t, (a + b) / 2.0) == Times(t, a + b)
  {
  }

  /** a and b differ by at most the given percentage of their mean. */
  predicate WithinPercent(a: int, b: int, percent: real) {
    var gap, limit := 200.0 * Abs((a - b) as real), Times(percent, (a + b) as real);
    if a + b > 0 then gap <= limit else if a + b < 0 then limit <= gap else percent >= 0.0
  }

  lemma DifferenceMeans(a: int, b: int, percent: real)
    ensures RelativeDifference(a, b) <= percent <==> WithinPercent(a, b, percent)
  {
    if a + b != 0 {
      var gap, sum := Abs((a - b) as real), (a + b) as real;
      HalfOfSum(gap, sum);
      if sum > 0.0 {
        Quotient(200.0 * gap, sum, percent);
      } else {
        Quotient(-200.0 * gap, -sum, percent);
        Distributes(percent, 0.0, sum);
        Negated(200.0 * gap, percent, sum);
      }
    }
  }

  lemma HalfOfSum(gap: real, sum: real)
    requires sum != 0.0
    ensures gap / (sum / 2.0) * 100.0 == Over(200.0 * gap, sum)
  {
    var q := gap / sum;
    assert q * sum == gap;
    assert (2.0 * q) * (sum / 2.0) == gap;
    assert gap / (sum / 2.0) == 2.0 * q;
    assert (200.0 * q) * sum == 200.0 * gap;
  }

  lemma Negated(a: real, percent: real, sum: real)
    requires sum != 0.0
    ensures Over(-a, -sum) == Over(a, sum) && Times(percent, -sum) == -Times(percent, sum)
  {
    var q := a / sum;
    assert q * sum == a;
    assert q * (-sum) == -a;
  }

  /** Below 200 percent the window is exact, rounding included. */
  lemma WindowIsExact(target: nat, percent: real, m: nat)
    requires 0.0 <= percent < 200.0
    ensures InWindow(target, percent, m) <==> RelativeDifference(target, m) <= percent
  {
    hide InWindow, RelativeDifference, Close;
    WindowMeansClose(target, percent, m);
    ToleranceMeansClose(target, m, percent);
  }

  lemma WideTolerance(a: real, b: real, t: real)
    requires t >= 2.0 && a >= 0.0 && b >= 0.0
    ensures Close(a, b, t)
  {
    assert t * (a + b) == 2.0 * (a + b) + (t - 2.0) * (a + b);
    assert (t - 2.0) * (a + b) >= 0.0;
  }

  /** From 200 percent on it is not: the tolerance then admits everything and the window nothing but
      zero, or the division fails. The configuration only asks for a positive tolerance. */
  lemma WideWindowIsWrong(target: nat, percent: real)
    requires percent >= 200.0
    ensures var m: nat := if target == 0 then 1 else target;
            RelativeDifference(target, m) <= percent && !InWindow(target, percent, m)
  {
    hide Close, RelativeDifference, High, Low;
    var t := percent / 100.0;
    var m: nat := if target == 0 then 1 else target;
    WideTolerance(target as real, m as real, t);
    ToleranceMeansClose(target, m, percent);
    if percent > 200.0 {
      if target == 0 {
        BoundsOfZero(t);
      } else {
        HighLies(target as real, t);
      }
    }
  }

  /** Hence the window says what the tolerance says exactly below 200 percent. */
  lemma WindowExactIff(target: nat, percent: real)
    requires percent >= 0.0
    ensures (forall m: nat :: InWindow(target, percent, m) <==> RelativeDifference(target, m) <= percent)
            <==> percent < 200.0
  {
    hide InWindow, RelativeDifference;
    if percent < 200.0 {
      forall m: nat ensures InWindow(target, percent, m) <==> RelativeDifference(target, m) <= percent {
        WindowIsExact(target, percent, m);
      }
    } else {
      WideWindowIsWrong(target, percent);
    }
  }

  // ------------------------------------------------------------------- when the window is reversed

  lemma SignOfProduct(a: real, t: real)
    requires t > 0.0
    ensures a > 0.0 ==> Times(a, t) > 0.0
    ensures a < 0.0 ==> Times(a, t) < 0.0
  {
  }

  lemma FourProducts(a: real, t: real)
    ensures Times(a, 2.0 + t) == 2.0 * a + Times(a, t) && Times(a, 2.0 - t) == 2.0 * a - Times(a, t)
    ensures Times(-a, 2.0 + t) == -2.0 * a - Times(a, t) && Times(-a, 2.0 - t) == -2.0 * a + Times(a, t)
  {
  }

  lemma BothNegated(a: real, b: real)
    requires b != 0.0
    ensures Over(a, b) == Over(-a, -b)
  {
    var q := a / b;
    assert q * b == a;
    assert q * -b == -a;
  }

  /** For a positive tolerance the lower bound lies strictly between -|a| and |a|. */
  lemma LowLies(a: real, t: real)
    requires t > 0.0
    ensures a > 0.0 ==> -a < Low(a, t) < a
    ensures a < 0.0 ==> a < Low(a, t) < -a
  {
    hide Times, Over;
    FourProducts(a, t);
    SignOfProduct(a, t);
    Quotient(Times(a, 2.0 - t), 2.0 + t, a);
    Quotient(Times(a, 2.0 - t), 2.0 + t, -a);
  }

  /** The upper bound lies beyond a, and beyond -a once the tolerance passes 200 percent. */
  lemma HighLies(a: real, t: real)
    requires t > 0.0 && t != 2.0
    ensures t < 2.0 ==> (a > 0.0 ==> High(a, t) > a) && (a < 0.0 ==> High(a, t) < a)
    ensures t > 2.0 ==> (a > 0.0 ==> High(a, t) < -a) && (a < 0.0 ==> High(a, t) > -a)
  {
    hide Times, Over;
    FourProducts(a, t);
    SignOfProduct(a, t);
    if t < 2.0 {
      Quotient(Times(a, 2.0 + t), 2.0 - t, a);
    } else {
      BothNegated(Times(a, 2.0 + t), 2.0 - t);
      Quotient(-Times(a, 2.0 + t), t - 2.0, -a);
      assert -(2.0 - t) == t - 2.0;
      Opposite(-a, 2.0 - t);
    }
  }

  lemma Opposite(a: real, b: real)
    ensures Times(a, -b) == -Times(a, b)
  {
  }

  lemma BoundsOfZero(t: real)
    requires t > 0.0 && t != 2.0
    ensures Low(0.0, t) == 0.0 && High(0.0, t) == 0.0
  {
    ZeroOver(2.0 + t);
    ZeroOver(2.0 - t);
    hide Over;
    assert Times(0.0, 2.0 + t) == 0.0 && Times(0.0, 2.0 - t) == 0.0;
  }

  lemma ZeroOver(b: real)
    requires b != 0.0
    ensures Over(0.0, b) == 0.0
  {
  }

  /** The window the search is called with is reversed, and the search raises, exactly when a positive
      target meets a tolerance above 200 percent or a negative one a tolerance below. */
  lemma WindowReversedIff(target: int, percent: real)
    requires percent > 0.0 && percent != 200.0
    ensures Window(target, percent).Some?
    ensures Window(target, percent).value.0 > Window(target, percent).value.1
            <==> (target > 0 && percent > 200.0) || (target < 0 && percent < 200.0)
  {
    hide Low, High;
    var a, t := target as real, percent / 100.0;
    LowLies(a, t);
    HighLies(a, t);
    BoundsOfZero(t);
    var low, high := Low(a, t), High(a, t);
    CeilingBelow(low, target);
    CeilingBelow(low, -target);
    FloorAbove(high, target);
    FloorAbove(high, -target);
  }
}

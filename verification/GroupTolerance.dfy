/** How far apart a recorded group may be in its own currency. The promise that same-currency sums agree
    within tolerance_minor is kept when all linked candidates are in one currency; when they are not,
    the comparison is in rupees with the FX tolerance, whatever is chosen, and the promise holds exactly
    as long as the FX window is no wider. */
module GroupTolerance {
  import opened Ledger
  import opened FxConvert
  import opened GroupMatching
  import opened GroupLaws
  import opened GroupRaises
  import SubsetSum

  function AmountSum(txns: Txns, ids: seq<TxnId>): int {
    if ids == [] then 0
    else
      var last := ids[|ids| - 1];
      AmountSum(txns, ids[..|ids| - 1]) + (if last in txns then txns[last].amount else 0)
  }

  function Gap(a: int, b: int): int {
    if a < b then b - a else a - b
  }

  // ------------------------------------------------------------------- one currency

  /** The legs at positions w are k times the amounts of the selected transactions. */
  lemma {:induction false} SumOfSelected(txns: Txns, candidates: seq<TxnId>, amounts: seq<int>, w: seq<nat>, k: int)
    requires |amounts| == |candidates| && forall j :: 0 <= j < |w| ==> w[j] < |candidates|
    requires forall j :: 0 <= j < |w| ==>
               candidates[w[j]] in txns && amounts[w[j]] == k * txns[candidates[w[j]]].amount
    ensures SubsetSum.Sum(amounts, w) == k * AmountSum(txns, Select(candidates, w))
  {
    if w != [] {
      var n := |w| - 1;
      SumOfSelected(txns, candidates, amounts, w[..n], k);
      assert Select(candidates, w)[..n] == Select(candidates, w[..n]);
      var last := candidates[w[n]];
      Spread(k, AmountSum(txns, Select(candidates, w[..n])), txns[last].amount);
    }
  }

  lemma Spread(k: int, a: int, b: int)
    ensures k * (a + b) == k * a + k * b
  {
  }

  /** When all linked candidates are in the single side's currency, every group is within
      tolerance_minor, to the minor unit. */
  lemma OneCurrencyIsClose(config: Config, max: nat, quotes: Quotes, txns: Txns, single: TxnId, candidates: seq<TxnId>)
    requires single in txns && (forall t :: t in candidates ==> t in txns)
    requires OneCurrency(txns, single, candidates)
    requires Fit(config, max, quotes, txns, single, candidates).Chosen?
    ensures var members := Fit(config, max, quotes, txns, single, candidates).members;
            Gap(AmountSum(txns, members), txns[single].amount) <= config.toleranceMinor
  {
    hide Fit, Increasing, SubsetSum.OnlyFit;
    var w := FitSettles(config, max, quotes, txns, single, candidates);
    var legs := LegsOf(config, quotes, txns, single, candidates);
    InRange(w, |candidates|);
    assert forall j :: 0 <= j < |candidates| ==> candidates[j] in candidates;
    SumOfSelected(txns, candidates, legs.amounts, w, 1);
  }

  lemma InRange(w: seq<nat>, n: nat)
    requires Increasing(w, n)
    ensures forall j :: 0 <= j < |w| ==> w[j] < n
  {
  }

  // ------------------------------------------------------------------- several currencies

  /** A group of a single amount in one foreign currency, out of candidates in several. */
  ghost predicate ForeignGroup(config: Config, max: nat, quotes: Quotes, txns: Txns, single: TxnId,
                               candidates: seq<TxnId>, currency: string, amount: int) {
    && NoNegativeAmounts(txns)
    && single in txns && (forall t :: t in candidates ==> t in txns)
    && !OneCurrency(txns, single, candidates)
    && txns[single].currency == currency && txns[single].amount == amount
    && var f := Fit(config, max, quotes, txns, single, candidates);
       f.Chosen? && forall m :: m in f.members ==> m in txns && txns[m].currency == currency
  }

  /** If a group is recorded, its amounts are within tolerance_minor of the single amount. */
  ghost predicate Stays(config: Config, max: nat, quotes: Quotes, txns: Txns, single: TxnId, candidates: seq<TxnId>) {
    single in txns && (forall t :: t in candidates ==> t in txns) ==>
      var f := Fit(config, max, quotes, txns, single, candidates);
      f.Chosen? ==> Gap(AmountSum(txns, f.members), txns[single].amount) <= config.toleranceMinor
  }

  /** The FX window around the amount, in the amount's own minor units, does not reach beyond
      tolerance_minor. */
  predicate NoWider(config: Config, amount: nat) {
    config.toleranceMinor >= 0 && !InWindow(amount, config.fxTolerance, amount + config.toleranceMinor + 1)
  }

  /** All quotes of the currency are the same, rupees are quoted, and a minor unit is worth k whole paise. */
  ghost predicate WholePaise(quotes: Quotes, currency: string, k: int) {
    && currency != "INR" && currency in EXPONENTS && k >= 1
    && (forall day: int ::
          quotes(currency, day).Some? && UnitInPaise(currency, quotes(currency, day).value) == k as real)
    && (forall day: int :: quotes("INR", day).Some?)
  }

  lemma WholeLeg(quotes: Quotes, currency: string, k: int, txn: Txn)
    requires WholePaise(quotes, currency, k) && txn.currency == currency
    ensures LegInr(quotes, txn) == Some(k * txn.amount)
  {
    hide HalfEven, PaisePerMinor, EXPONENTS;
    var rate := quotes(currency, txn.date).value;
    assert UnitInPaise(currency, rate) == k as real;
    WholeProduct(txn.amount, k);
    HalfEvenIsUnique((k * txn.amount) as real, k * txn.amount);
  }

  lemma WholeProduct(a: int, k: int)
    ensures Times(a as real, k as real) == (k * a) as real
  {
  }

  lemma CloseScales(a: real, b: real, t: real, k: real)
    requires k > 0.0
    ensures Close(Times(k, a), Times(k, b), t) <==> Close(a, b, t)
  {
    var sum := t * (a + b);
    assert t * (k * a + k * b) == k * sum;
    assert k * a - k * b == k * (a - b);
    Cancel(k, 2.0 * (a - b), sum);
    Cancel(k, 2.0 * (b - a), sum);
    assert 2.0 * (k * (a - b)) == k * (2.0 * (a - b)) && 2.0 * (k * (b - a)) == k * (2.0 * (b - a));
  }

  lemma Cancel(k: real, x: real, y: real)
    requires k > 0.0
    ensures k * x <= k * y <==> x <= y
  {
    if x < y {
      assert k * (y - x) > 0.0;
    }
    if y < x {
      assert k * (x - y) > 0.0;
    }
  }

  /** Two amounts further apart than d and close in relation: then a and a + d are close too. */
  lemma FarMeansWide(a: real, b: real, d: real, t: real)
    requires a >= 0.0 && b >= 0.0 && d >= 0.0 && 0.0 < t < 2.0
    requires b >= a + d || b <= a - d
    requires Close(a, b, t)
    ensures Close(a, a + d, t)
  {
    hide Times;
    var e := if b >= a + d then b - a else a - b;
    AroundTwice(a, e, t);
    AroundTwice(a, d, t);
    assert b == a + e || b == a - e;
    Shrinks(d, e, t);
    NonNegativeTimes(t, a);
    NonNegativeTimes(t, d);
    NonNegativeTimes(t, e);
  }

  lemma AroundTwice(a: real, e: real, t: real)
    ensures Times(t, a + (a + e)) == 2.0 * Times(t, a) + Times(t, e)
    ensures Times(t, a + (a - e)) == 2.0 * Times(t, a) - Times(t, e)
  {
  }

  lemma Shrinks(d: real, e: real, t: real)
    requires d <= e && t < 2.0
    ensures 2.0 * d - Times(t, d) <= 2.0 * e - Times(t, e)
  {
    NonNegativeTimes(2.0 - t, e - d);
    assert Times(2.0 - t, e - d) == 2.0 * e - 2.0 * d - (Times(t, e) - Times(t, d));
  }

  lemma NonNegativeTimes(a: real, b: real)
    requires a >= 0.0 && b >= 0.0
    ensures Times(a, b) >= 0.0
  {
  }

  /** A group in one foreign currency out of several: its amounts relate as their rupee values do. */
  lemma ForeignSums(config: Config, max: nat, quotes: Quotes, txns: Txns, single: TxnId, candidates: seq<TxnId>,
                    currency: string, amount: nat, k: int)
    requires Workable(config) && WholePaise(quotes, currency, k)
    requires ForeignGroup(config, max, quotes, txns, single, candidates, currency, amount)
    ensures var members := Fit(config, max, quotes, txns, single, candidates).members;
            AmountSum(txns, members) >= 0 && InWindow(k * amount, config.fxTolerance, k * AmountSum(txns, members))
  {
    hide Fit, Increasing, SubsetSum.OnlyFit, LegInr, Window, NoNegativeAmounts;
    var members := Fit(config, max, quotes, txns, single, candidates).members;
    var w := FitSettles(config, max, quotes, txns, single, candidates);
    var legs := LegsOf(config, quotes, txns, single, candidates);
    InRange(w, |candidates|);
    WholeLeg(quotes, currency, k, txns[single]);
    forall j | 0 <= j < |w|
      ensures candidates[w[j]] in txns && legs.amounts[w[j]] == k * txns[candidates[w[j]]].amount
    {
      assert members[j] in members;
      WholeLeg(quotes, currency, k, txns[candidates[w[j]]]);
    }
    SumOfSelected(txns, candidates, legs.amounts, w, k);
    SumIsNonNegative(txns, members);
  }

  lemma {:induction false} SumIsNonNegative(txns: Txns, ids: seq<TxnId>)
    requires NoNegativeAmounts(txns)
    ensures AmountSum(txns, ids) >= 0
  {
    if ids != [] {
      SumIsNonNegative(txns, ids[..|ids| - 1]);
    }
  }

  lemma PositiveTimes(k: int, a: int)
    requires k >= 1 && a >= 0
    ensures k * a >= 0
  {
  }

  lemma WindowScales(k: int, a: nat, b: nat, percent: real)
    requires k >= 1 && 0.0 <= percent < 200.0
    ensures InWindow(k * a, percent, k * b) <==> InWindow(a, percent, b)
  {
    hide InWindow, Close;
    PositiveTimes(k, a);
    PositiveTimes(k, b);
    WindowMeansClose(k * a, percent, k * b);
    WindowMeansClose(a, percent, b);
    WholeProduct(k, a);
    WholeProduct(k, b);
    Swap(k, a);
    Swap(k, b);
    CloseScales(a as real, b as real, percent / 100.0, k as real);
  }

  lemma Swap(k: int, a: int)
    ensures Times(k as real, a as real) == (k * a) as real
  {
  }

  /** As long as the FX window is no wider, a foreign group stays within tolerance_minor. */
  lemma NarrowMeansStays(config: Config, max: nat, quotes: Quotes, txns: Txns, single: TxnId, candidates: seq<TxnId>,
                         currency: string, amount: nat, k: int)
    requires Workable(config) && WholePaise(quotes, currency, k) && NoWider(config, amount)
    requires ForeignGroup(config, max, quotes, txns, single, candidates, currency, amount)
    ensures Stays(config, max, quotes, txns, single, candidates)
  {
    hide Fit, InWindow, WholePaise, Close;
    ForeignSums(config, max, quotes, txns, single, candidates, currency, amount, k);
    var sum := AmountSum(txns, Fit(config, max, quotes, txns, single, candidates).members);
    var beyond := config.toleranceMinor + 1;
    KIsPositive(quotes, currency, k);
    WindowScales(k, amount, sum, config.fxTolerance);
    WindowMeansClose(amount, config.fxTolerance, sum);
    WindowMeansClose(amount, config.fxTolerance, amount + beyond);
    if Gap(sum, amount) >= beyond {
      FarMeansWide(amount as real, sum as real, beyond as real, config.fxTolerance / 100.0);
    }
  }

  lemma KIsPositive(quotes: Quotes, currency: string, k: int)
    requires WholePaise(quotes, currency, k)
    ensures k >= 1
  {
  }

  // ------------------------------------------------------------------- a ledger with a loose group

  /** A transaction linked to all others of its kind by its counterparty. */
  function Linked(source: Source, currency: string, amount: int): Txn {
    Txn(source, "BANK", 0, 0, "", "", amount, currency, CR, "ACME", Unmatched, None)
  }

  /** A single amount, two candidates in its currency and one in rupees. */
  function LooseLedger(currency: string, amount: int, x: int, y: int, rupees: int): Txns {
    map[0 := Linked(Internal, currency, amount), 1 := Linked(External, currency, x),
        2 := Linked(External, currency, y), 3 := Linked(External, "INR", rupees)]
  }

  lemma TotalMore(front: seq<int>, x: int)
    ensures Total(front + [x]) == Total(front) + x
  {
    assert (front + [x])[..|front|] == front;
  }

  lemma TotalOfThree(x: int, y: int, z: int)
    ensures Total([x, y, z]) == x + y + z
  {
    hide Total;
    TotalOfNone();
    TotalMore([], x);
    TotalMore([x], y);
    TotalMore([x, y], z);
    assert [] + [x] == [x] && [x] + [y] == [x, y] && [x, y] + [z] == [x, y, z];
  }

  lemma TotalOfNone()
    ensures Total([]) == 0
  {
  }

  /** Two amounts that fit together and a third that is too large for the window. */
  lemma TwoAndOneTooLarge(x: int, y: int, z: int, low: int, high: int, max: nat, maxStates: nat)
    requires 0 < x && 0 < y && low <= x + y <= high < z && max >= 2 && maxStates >= 3
    ensures var amounts := [x, y, z];
            && SubsetSum.OnlyFit(amounts, low, high, 2, max, [0, 1])
            && !SubsetSum.ReachesMoreThan(amounts, high, max, maxStates)
            && !WholeSettles(amounts, low, high, max)
  {
    var amounts := [x, y, z];
    OnlyZeroOne(x, y, z, low, high, max);
    FewReached(x, y, z, high, max, maxStates);
    TotalOfThree(x, y, z);
  }

  lemma SumsOfThree(x: int, y: int, z: int)
    ensures var amounts := [x, y, z];
            && SubsetSum.Sum(amounts, [0]) == x && SubsetSum.Sum(amounts, [1]) == y
            && SubsetSum.Sum(amounts, [0, 1]) == x + y
    ensures x > 0 && y > 0 ==> SubsetSum.IndexSet([x, y, z], 3, [0, 1])
  {
    var amounts := [x, y, z];
    SubsetSum.SumOfOne(amounts, 0);
    SubsetSum.SumOfOne(amounts, 1);
    var w: seq<nat> := [0, 1];
    assert w[..1] == [0];
    SubsetSum.IndexSetMeans(amounts, 3, w);
  }

  /** An index set of three amounts that does not reach the third. */
  lemma WithoutThird(x: int, y: int, z: int, high: int, w: seq<nat>)
    requires SubsetSum.IndexSet([x, y, z], 3, w) && SubsetSum.Sum([x, y, z], w) <= high < z
    ensures w == [0] || w == [1] || w == [0, 1]
  {
    hide SubsetSum.Sum;
    SubsetSum.SumOfPositiveIsPositive([x, y, z], 3, w);
    SubsetSum.IndexSetMeans([x, y, z], 3, w);
    assert w[|w| - 1] != 2;
    AtMost(w, 2);
  }

  lemma OnlyZeroOne(x: int, y: int, z: int, low: int, high: int, max: nat)
    requires 0 < x && 0 < y && low <= x + y <= high < z && max >= 2
    ensures SubsetSum.OnlyFit([x, y, z], low, high, 2, max, [0, 1])
  {
    hide SubsetSum.Sum, SubsetSum.IndexSet;
    SumsOfThree(x, y, z);
    forall w | SubsetSum.Fits([x, y, z], low, high, 2, max, w) ensures w == [0, 1] {
      WithoutThird(x, y, z, high, w);
    }
  }

  lemma FewReached(x: int, y: int, z: int, high: int, max: nat, maxStates: nat)
    requires high < z && maxStates >= 3
    ensures !SubsetSum.ReachesMoreThan([x, y, z], high, max, maxStates)
  {
    hide SubsetSum.Sum, SubsetSum.IndexSet;
    var amounts := [x, y, z];
    var three := {SubsetSum.KeyOf(amounts, [0]), SubsetSum.KeyOf(amounts, [1]), SubsetSum.KeyOf(amounts, [0, 1])};
    forall keys: set<SubsetSum.Key> | forall k :: k in keys ==> SubsetSum.Reached(amounts, high, max, k)
      ensures |keys| <= 3
    {
      forall k | k in keys ensures k in three {
        var w :| SubsetSum.IndexSet(amounts, 3, w) && SubsetSum.KeyOf(amounts, w) == k;
        WithoutThird(x, y, z, high, w);
      }
      SubsetSum.SubsetIsSmaller(keys, three);
    }
  }

  /** The fit of such a ledger, given its legs: the two fitting candidates are selected. */
  lemma TwoAreSelected(config: Config, max: nat, quotes: Quotes, txns: Txns, x: int, y: int, z: int)
    requires max >= 2 && config.maxSearch >= 3 && config.maxStates >= 3
    requires 0 in txns && 1 in txns && 2 in txns && 3 in txns
    requires var legs := LegsOf(config, quotes, txns, 0, [1, 2, 3]);
             legs.Legs? && legs.amounts == [x, y, z] && 0 < x && 0 < y && legs.low <= x + y <= legs.high < z
    ensures Selection(config, max, quotes, txns, 0, [1, 2, 3]) == Chosen([1, 2])
  {
    hide LegsOf, SubsetSum.OnlyFit, SubsetSum.ReachesMoreThan, WholeSettles, SearchFor;
    var legs := LegsOf(config, quotes, txns, 0, [1, 2, 3]);
    TwoAndOneTooLarge(x, y, z, legs.low, legs.high, max, config.maxStates);
    SearchMeans(legs.amounts, legs.low, legs.high, max, config.maxStates, [1, 2, 3], [0, 1]);
    assert Select([1, 2, 3], [0, 1]) == [1, 2];
  }

  /** The legs of a loose ledger. */
  lemma LooseLegs(config: Config, quotes: Quotes, currency: string, k: int, amount: int, x: int, y: int, rupees: int)
    requires WholePaise(quotes, currency, k) && config.fxTolerance != 200.0
    ensures var txns := LooseLedger(currency, amount, x, y, rupees);
            var legs := LegsOf(config, quotes, txns, 0, [1, 2, 3]);
            && !OneCurrency(txns, 0, [1, 2, 3])
            && Window(k * amount, config.fxTolerance).Some?
            && legs == Legs(k * amount, [k * x, k * y, rupees],
                            Window(k * amount, config.fxTolerance).value.0,
                            Window(k * amount, config.fxTolerance).value.1)
  {
    hide LegInr, Low, High, Ceiling;
    var txns := LooseLedger(currency, amount, x, y, rupees);
    var ids: seq<TxnId> := [1, 2, 3];
    assert ids[0] == 1 && ids[1] == 2 && ids[2] == 3 && 3 in ids;
    assert txns[0].currency == currency && txns[3].currency == "INR";
    WholeLeg(quotes, currency, k, txns[0]);
    WholeLeg(quotes, currency, k, txns[1]);
    WholeLeg(quotes, currency, k, txns[2]);
    RupeeLeg(quotes, currency, k, txns[3]);
    PercentOfTwo(config.fxTolerance);
  }

  lemma RupeeLeg(quotes: Quotes, currency: string, k: int, txn: Txn)
    requires WholePaise(quotes, currency, k) && txn.currency == "INR"
    ensures LegInr(quotes, txn) == Some(txn.amount)
  {
    hide EXPONENTS, UnitInPaise;
  }

  /** In the window, and beyond it: in terms of the window of the single side. */
  lemma Beyond(target: int, percent: real, sum: int, far: int)
    requires 0.0 <= percent && percent != 200.0
    requires InWindow(target, percent, sum) && sum <= far && !InWindow(target, percent, far)
    ensures var w := Window(target, percent).value; w.0 <= sum <= w.1 < far
  {
  }

  /** A foreign group of such a ledger is recorded whatever the distance between its amounts, as long as
      their rupee values are close. */
  lemma LooseGroup(config: Config, max: nat, quotes: Quotes, currency: string, k: int, amount: nat, x: int, y: int,
                   rupees: int)
    requires WholePaise(quotes, currency, k) && config.fxTolerance < 200.0
    requires max >= 2 && config.maxSearch >= 3 && config.maxStates >= 3
    requires x > 0 && y > 0 && InWindow(k * amount, config.fxTolerance, k * x + k * y)
    requires k * x + k * y <= rupees && !InWindow(k * amount, config.fxTolerance, rupees)
    ensures var txns := LooseLedger(currency, amount, x, y, rupees);
            && Fit(config, max, quotes, txns, 0, [1, 2, 3]) == Chosen([1, 2])
            && AmountSum(txns, [1, 2]) == x + y
            && ForeignGroup(config, max, quotes, txns, 0, [1, 2, 3], currency, amount)
  {
    hide LegsOf, Selection, InWindow, Window, WholePaise;
    var txns := LooseLedger(currency, amount, x, y, rupees);
    LooseLegs(config, quotes, currency, k, amount, x, y, rupees);
    Beyond(k * amount, config.fxTolerance, k * x + k * y, rupees);
    KIsPositive(quotes, currency, k);
    Positive(k, x);
    Positive(k, y);
    TwoAreSelected(config, max, quotes, txns, k * x, k * y, rupees);
    IsForeign(quotes, currency, k);
    assert [0] + [1, 2] == [0, 1, 2] && 0 in [0, 1, 2];
    assert [1, 2][..1] == [1] && [1][..0] == [];
    assert AmountSum(txns, [1]) == x;
  }

  lemma Positive(k: int, x: int)
    requires k >= 1 && x >= 1
    ensures k * x >= 1
  {
  }

  lemma IsForeign(quotes: Quotes, currency: string, k: int)
    requires WholePaise(quotes, currency, k)
    ensures currency != "INR"
  {
  }

  /** Every window ends. */
  lemma SomewhereOutside(target: nat, percent: real, least: nat) returns (far: nat)
    requires 0.0 <= percent < 200.0
    ensures far >= least && !InWindow(target, percent, far)
  {
    hide Low, High;
    var w := Window(target, percent).value;
    far := if w.1 < least then least else w.1 + 1;
  }

  lemma WiderHasLoose(config: Config, max: nat, quotes: Quotes, currency: string, amount: nat, k: int)
    requires Workable(config) && WholePaise(quotes, currency, k)
    requires max >= 2 && config.maxSearch >= 3 && config.maxStates >= 3
    requires !NoWider(config, amount)
    ensures exists txns: Txns, single: TxnId, candidates: seq<TxnId> ::
              && ForeignGroup(config, max, quotes, txns, single, candidates, currency, amount)
              && !Stays(config, max, quotes, txns, single, candidates)
  {
    hide Fit, InWindow, WholePaise, LooseLedger, ForeignGroup;
    var y := amount + config.toleranceMinor;
    KIsPositive(quotes, currency, k);
    ZeroIsNarrow(config, amount);
    WindowScales(k, amount, y + 1, config.fxTolerance);
    Spread(k, 1, y);
    PositiveTimes(k, amount);
    PositiveTimes(k, y + 1);
    var rupees := SomewhereOutside(k * amount, config.fxTolerance, k * (y + 1));
    LooseGroup(config, max, quotes, currency, k, amount, 1, y, rupees);
    var txns := LooseLedger(currency, amount, 1, y, rupees);
    LooseAmounts(currency, amount, 1, y, rupees);
    assert !Stays(config, max, quotes, txns, 0, [1, 2, 3]);
  }

  /** Nothing but zero is close to zero. */
  lemma ZeroIsNarrow(config: Config, amount: nat)
    requires Workable(config) && !NoWider(config, amount)
    ensures amount >= 1
  {
    if amount == 0 {
      ToleranceMeansClose(0, config.toleranceMinor + 1, config.fxTolerance);
      WindowMeansClose(0, config.fxTolerance, config.toleranceMinor + 1);
      NothingCloseToZero((config.toleranceMinor + 1) as real, config.fxTolerance / 100.0);
    }
  }

  lemma NothingCloseToZero(b: real, t: real)
    requires b > 0.0 && t < 2.0
    ensures !Close(0.0, b, t)
  {
    assert (2.0 - t) * b > 0.0;
  }

  lemma LooseAmounts(currency: string, amount: int, x: int, y: int, rupees: int)
    ensures var txns := LooseLedger(currency, amount, x, y, rupees);
            0 in txns && 1 in txns && 2 in txns && 3 in txns && txns[0].amount == amount
  {
  }

  /** In a foreign currency whose minor unit is worth whole paise, every group recorded out of candidates in
      several currencies stays within tolerance_minor if and only if the FX window around the single
      amount does not reach beyond tolerance_minor. */
  lemma ForeignGroupsStayIff(config: Config, max: nat, quotes: Quotes, currency: string, amount: nat, k: int)
    requires Workable(config) && WholePaise(quotes, currency, k)
    requires max >= 2 && config.maxSearch >= 3 && config.maxStates >= 3
    ensures (forall txns: Txns, single: TxnId, candidates: seq<TxnId> ::
               ForeignGroup(config, max, quotes, txns, single, candidates, currency, amount) ==>
                 Stays(config, max, quotes, txns, single, candidates))
            <==> NoWider(config, amount)
  {
    hide Fit, InWindow, WholePaise, LooseLedger, Stays, ForeignGroup;
    if NoWider(config, amount) {
      forall txns: Txns, single: TxnId, candidates: seq<TxnId>
        | ForeignGroup(config, max, quotes, txns, single, candidates, currency, amount)
        ensures Stays(config, max, quotes, txns, single, candidates)
      {
        NarrowMeansStays(config, max, quotes, txns, single, candidates, currency, amount, k);
      }
    } else {
      WiderHasLoose(config, max, quotes, currency, amount, k);
    }
  }

  // ------------------------------------------------------------------- at any rate

  /** All quotes of the currency are the same: a minor unit is worth k paise, not necessarily whole ones. */
  ghost predicate SteadyRate(quotes: Quotes, currency: string, k: real) {
    && currency != "INR" && currency in EXPONENTS && k > 0.0
    && forall day: int :: quotes(currency, day).Some? && UnitInPaise(currency, quotes(currency, day).value) == k
  }

  lemma SteadyLeg(quotes: Quotes, currency: string, k: real, txn: Txn)
    requires SteadyRate(quotes, currency, k) && txn.currency == currency
    ensures LegInr(quotes, txn).Some? && Abs(LegInr(quotes, txn).value as real - Times(k, txn.amount as real)) <= 0.5
  {
    hide PaisePerMinor, EXPONENTS;
    var rate := quotes(currency, txn.date).value;
    assert UnitInPaise(currency, rate) == k;
    Commutes(txn.amount as real, k);
  }

  /** Each leg is rounded once, so the sum is off by at most half a paisa a leg. */
  lemma {:induction false} RoundedSum(txns: Txns, candidates: seq<TxnId>, amounts: seq<int>, w: seq<nat>, k: real)
    requires |amounts| == |candidates| && forall j :: 0 <= j < |w| ==> w[j] < |candidates|
    requires forall j :: 0 <= j < |w| ==>
               && candidates[w[j]] in txns
               && Abs(amounts[w[j]] as real - Times(k, txns[candidates[w[j]]].amount as real)) <= 0.5
    ensures Abs(SubsetSum.Sum(amounts, w) as real - Times(k, AmountSum(txns, Select(candidates, w)) as real))
            <= |w| as real / 2.0
  {
    hide Times;
    if w == [] {
      NoProduct(k);
    } else {
      var n := |w| - 1;
      RoundedSum(txns, candidates, amounts, w[..n], k);
      assert Select(candidates, w)[..n] == Select(candidates, w[..n]);
      SpreadReal(k, AmountSum(txns, Select(candidates, w[..n])), txns[candidates[w[n]]].amount);
    }
  }

  lemma NoProduct(k: real)
    ensures Times(k, 0.0) == 0.0
  {
  }

  lemma SpreadReal(k: real, a: int, b: int)
    ensures Times(k, (a + b) as real) == Times(k, a as real) + Times(k, b as real)
  {
  }

  /** The same condition with half a paisa of room a leg on either side. */
  predicate NoWiderRounded(config: Config, max: nat, amount: nat, k: real) {
    var t, beyond, room := config.fxTolerance / 100.0, config.toleranceMinor + 1, max as real / 2.0;
    && Times(Times(k, amount as real) + 0.5, 2.0 + t) < Times(Times(k, (amount + beyond) as real) - room, 2.0 - t)
    && Times(Times(k, (amount - beyond) as real) + room, 2.0 + t) < Times(Times(k, amount as real) - 0.5, 2.0 - t)
  }

  lemma TimesGrows(a: real, b: real, c: real)
    requires a <= b && c >= 0.0
    ensures Times(a, c) <= Times(b, c) && Times(c, a) <= Times(c, b)
  {
    assert (b - a) * c >= 0.0;
  }

  lemma ForeignRoundedSums(config: Config, max: nat, quotes: Quotes, txns: Txns, single: TxnId, candidates: seq<TxnId>,
                           currency: string, amount: nat, k: real) returns (target: nat, sum: nat)
    requires Workable(config) && SteadyRate(quotes, currency, k)
    requires ForeignGroup(config, max, quotes, txns, single, candidates, currency, amount)
    ensures var members := Fit(config, max, quotes, txns, single, candidates).members;
            && InWindow(target, config.fxTolerance, sum)
            && Abs(target as real - Times(k, amount as real)) <= 0.5
            && Abs(sum as real - Times(k, AmountSum(txns, members) as real)) <= max as real / 2.0
  {
    hide Fit, Increasing, SubsetSum.OnlyFit, LegInr, Window, Times, SubsetSum.Sum;
    var members := Fit(config, max, quotes, txns, single, candidates).members;
    var w := FitSettles(config, max, quotes, txns, single, candidates);
    var legs := LegsOf(config, quotes, txns, single, candidates);
    InRange(w, |candidates|);
    SteadyLeg(quotes, currency, k, txns[single]);
    LegIsNonNegative(quotes, txns[single]);
    forall j | 0 <= j < |w|
      ensures candidates[w[j]] in txns && legs.amounts[w[j]] >= 0
      ensures Abs(legs.amounts[w[j]] as real - Times(k, txns[candidates[w[j]]].amount as real)) <= 0.5
    {
      assert members[j] in members;
      SteadyLeg(quotes, currency, k, txns[candidates[w[j]]]);
      LegIsNonNegative(quotes, txns[candidates[w[j]]]);
    }
    RoundedSum(txns, candidates, legs.amounts, w, k);
    NonNegativeSum(legs.amounts, w);
    target, sum := legs.target, SubsetSum.Sum(legs.amounts, w);
  }

  lemma {:induction false} NonNegativeSum(amounts: seq<int>, w: seq<nat>)
    requires forall j :: 0 <= j < |w| ==> w[j] < |amounts| && amounts[w[j]] >= 0
    ensures SubsetSum.Sum(amounts, w) >= 0
  {
    if w != [] {
      NonNegativeSum(amounts, w[..|w| - 1]);
    }
  }

  /** At any steady rate a foreign group stays within tolerance_minor when the window leaves that room. */
  lemma RoundedGroupsStay(config: Config, max: nat, quotes: Quotes, txns: Txns, single: TxnId, candidates: seq<TxnId>,
                          currency: string, amount: nat, k: real)
    requires Workable(config) && SteadyRate(quotes, currency, k) && NoWiderRounded(config, max, amount, k)
    requires ForeignGroup(config, max, quotes, txns, single, candidates, currency, amount)
    ensures Stays(config, max, quotes, txns, single, candidates)
  {
    hide Fit, InWindow, Times;
    var t, beyond, room := config.fxTolerance / 100.0, config.toleranceMinor + 1, max as real / 2.0;
    var target, sum := ForeignRoundedSums(config, max, quotes, txns, single, candidates, currency, amount, k);
    var own := AmountSum(txns, Fit(config, max, quotes, txns, single, candidates).members);
    WindowMeansClose(target, config.fxTolerance, sum);
    Products(target as real, sum as real, t);
    if own >= amount + beyond {
      TimesGrows((amount + beyond) as real, own as real, k);
      TimesGrows(Times(k, (amount + beyond) as real) - room, sum as real, 2.0 - t);
      TimesGrows(target as real, Times(k, amount as real) + 0.5, 2.0 + t);
    } else if own <= amount - beyond {
      TimesGrows(own as real, (amount - beyond) as real, k);
      TimesGrows(sum as real, Times(k, (amount - beyond) as real) + room, 2.0 + t);
      TimesGrows(Times(k, amount as real) - 0.5, target as real, 2.0 - t);
    }
  }
}

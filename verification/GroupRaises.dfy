/** When the group strategy raises and so ends the run: exactly at a turn whose linked candidates meet
    one of its failing guards. */
module GroupRaises {
  import opened Ledger
  import opened FxConvert
  import opened GroupMatching
  import SubsetSum

  predicate RatesKnown(quotes: Quotes, txns: Txns, single: TxnId, candidates: seq<TxnId>)
    requires single in txns && forall t :: t in candidates ==> t in txns
  {
    LegInr(quotes, txns[single]).Some? && forall t :: t in candidates ==> LegInr(quotes, txns[t]).Some?
  }

  /** The candidates are in several currencies and can all be valued in rupees. */
  predicate Exchanged(quotes: Quotes, txns: Txns, single: TxnId, candidates: seq<TxnId>)
    requires single in txns && forall t :: t in candidates ==> t in txns
  {
    !OneCurrency(txns, single, candidates) && RatesKnown(quotes, txns, single, candidates)
  }

  /** The subset search is called: the whole set does not settle and is not too large to search. */
  predicate Searches(config: Config, max: nat, quotes: Quotes, txns: Txns, single: TxnId, candidates: seq<TxnId>)
    requires single in txns && forall t :: t in candidates ==> t in txns
  {
    var legs := LegsOf(config, quotes, txns, single, candidates);
    legs.Legs? && !WholeSettles(legs.amounts, legs.low, legs.high, max) && |candidates| <= config.maxSearch
  }

  /** The window is worked out with a division by zero. */
  predicate DivisionFails(config: Config, quotes: Quotes, txns: Txns, single: TxnId, candidates: seq<TxnId>)
    requires single in txns && forall t :: t in candidates ==> t in txns
  {
    Exchanged(quotes, txns, single, candidates) && config.fxTolerance == 200.0
  }

  /** The search is called with a maximum below two or a reversed window: a negative tolerance in one
      currency, or in rupees a positive target above 200 percent or a negative one below. */
  predicate SearchFails(config: Config, max: nat, quotes: Quotes, txns: Txns, single: TxnId, candidates: seq<TxnId>)
    requires single in txns && forall t :: t in candidates ==> t in txns
  {
    && Searches(config, max, quotes, txns, single, candidates)
    && (|| max < 2
        || (OneCurrency(txns, single, candidates) && config.toleranceMinor < 0)
        || (Exchanged(quotes, txns, single, candidates)
            && var target := LegInr(quotes, txns[single]).value;
               (target > 0 && config.fxTolerance > 200.0) || (target < 0 && config.fxTolerance < 200.0)))
  }

  /** A transaction in rupees is settled by candidates in rupees, and by no others, although some linked
      candidate is in another currency. */
  ghost predicate RupeeSubset(config: Config, max: nat, quotes: Quotes, txns: Txns, single: TxnId,
                              candidates: seq<TxnId>)
    requires single in txns && forall t :: t in candidates ==> t in txns
  {
    && txns[single].currency == "INR" && Exchanged(quotes, txns, single, candidates)
    && Searches(config, max, quotes, txns, single, candidates)
    && var legs := LegsOf(config, quotes, txns, single, candidates);
       && !SubsetSum.ReachesMoreThan(legs.amounts, legs.high, max, config.maxStates)
       && exists w :: && SubsetSum.OnlyFit(legs.amounts, legs.low, legs.high, 2, max, w)
                      && forall k :: 0 <= k < |w| ==> w[k] < |candidates| && txns[candidates[w[k]]].currency == "INR"
  }

  /** Some guard of the fit fails for these candidates. */
  ghost predicate FitFails(config: Config, max: nat, quotes: Quotes, txns: Txns, single: TxnId,
                           candidates: seq<TxnId>)
    requires single in txns && forall t :: t in candidates ==> t in txns
  {
    || DivisionFails(config, quotes, txns, single, candidates)
    || SearchFails(config, max, quotes, txns, single, candidates)
    || (max >= 2 && RupeeSubset(config, max, quotes, txns, single, candidates))
  }

  lemma LegsMean(config: Config, quotes: Quotes, txns: Txns, single: TxnId, candidates: seq<TxnId>)
    requires single in txns && forall t :: t in candidates ==> t in txns
    ensures var legs := LegsOf(config, quotes, txns, single, candidates);
            && (legs.MissingRate? <==>
                 !OneCurrency(txns, single, candidates) && !RatesKnown(quotes, txns, single, candidates))
            && (legs.NoWindow? <==> DivisionFails(config, quotes, txns, single, candidates))
            && (legs.Legs? ==>
                  (legs.low > legs.high <==>
                   if OneCurrency(txns, single, candidates) then config.toleranceMinor < 0
                   else var target := LegInr(quotes, txns[single]).value;
                        (target > 0 && config.fxTolerance > 200.0) || (target < 0 && config.fxTolerance < 200.0)))
  {
    hide LegInr, Low, High, Ceiling;
    if Exchanged(quotes, txns, single, candidates) {
      PercentOfTwo(config.fxTolerance);
      if config.fxTolerance != 200.0 {
        WindowReversedIff(LegInr(quotes, txns[single]).value, config.fxTolerance);
      }
    }
  }

  lemma PercentOfTwo(percent: real)
    ensures percent / 100.0 == 2.0 <==> percent == 200.0
  {
  }

  /** A whole set in several currencies has a foreign leg. */
  lemma WholeHasForeign(txns: Txns, single: TxnId, candidates: seq<TxnId>)
    requires single in txns && forall t :: t in candidates ==> t in txns
    ensures !DetailsFail(txns, single, candidates, candidates)
  {
    if InRupees(txns, [single] + candidates) {
      assert single in [single] + candidates;
      assert forall t :: t in candidates ==> t in [single] + candidates;
    }
  }

  lemma ChosenInRupees(txns: Txns, single: TxnId, candidates: seq<TxnId>, w: seq<nat>)
    requires single in txns && (forall t :: t in candidates ==> t in txns)
    requires forall k :: 0 <= k < |w| ==> w[k] < |candidates|
    ensures DetailsFail(txns, single, candidates, Select(candidates, w)) <==>
            && !OneCurrency(txns, single, candidates) && txns[single].currency == "INR"
            && forall k :: 0 <= k < |w| ==> txns[candidates[w[k]]].currency == "INR"
  {
    hide OneCurrency, InRupees;
    var members := Select(candidates, w);
    SingleFirst(txns, single, members);
    if InRupees(txns, members) {
      InRupeesAt(txns, members);
    }
    if forall k :: 0 <= k < |w| ==> txns[candidates[w[k]]].currency == "INR" {
      AllInRupees(txns, members);
    }
  }

  lemma SingleFirst(txns: Txns, single: TxnId, members: seq<TxnId>)
    requires single in txns
    ensures InRupees(txns, [single] + members) <==> txns[single].currency == "INR" && InRupees(txns, members)
  {
    assert forall t :: t in [single] + members <==> t == single || t in members;
  }

  lemma InRupeesAt(txns: Txns, ids: seq<TxnId>)
    requires InRupees(txns, ids)
    ensures forall k :: 0 <= k < |ids| ==> ids[k] in txns && txns[ids[k]].currency == "INR"
  {
  }

  lemma AllInRupees(txns: Txns, ids: seq<TxnId>)
    requires forall k :: 0 <= k < |ids| ==> ids[k] in txns && txns[ids[k]].currency == "INR"
    ensures InRupees(txns, ids)
  {
  }

  lemma OnlyFitInRange(amounts: seq<int>, low: int, high: int, max: nat)
    ensures forall w :: SubsetSum.OnlyFit(amounts, low, high, 2, max, w) ==>
              forall k :: 0 <= k < |w| ==> w[k] < |amounts|
  {
    forall w | SubsetSum.OnlyFit(amounts, low, high, 2, max, w)
      ensures forall k :: 0 <= k < |w| ==> w[k] < |amounts|
    {
      SubsetSum.IndexSetMeans(amounts, |amounts|, w);
    }
  }

  /** _fit raises exactly when one of these guards fails. */
  lemma FitRaisesIff(config: Config, max: nat, quotes: Quotes, txns: Txns, single: TxnId, candidates: seq<TxnId>)
    requires single in txns && forall t :: t in candidates ==> t in txns
    ensures Fit(config, max, quotes, txns, single, candidates).Raises?
            <==> FitFails(config, max, quotes, txns, single, candidates)
  {
    hide LegsOf, DetailsFail, SubsetSum.ReachesMoreThan, OneCurrency, RatesKnown, DivisionFails, LegInr;
    LegsMean(config, quotes, txns, single, candidates);
    var legs := LegsOf(config, quotes, txns, single, candidates);
    if legs.Legs? {
      if WholeSettles(legs.amounts, legs.low, legs.high, max) {
        WholeHasForeign(txns, single, candidates);
      } else {
        OnlyFitInRange(legs.amounts, legs.low, legs.high, max);
        SearchedRaisesIff(config, max, quotes, txns, single, candidates);
      }
    }
  }

  /** The three ways the search ends that matter here. */
  lemma SearchMeans(amounts: seq<int>, low: int, high: int, max: nat, maxStates: nat, candidates: seq<TxnId>,
                    w: seq<nat>)
    requires |amounts| == |candidates|
    ensures var f := SearchFor(amounts, low, high, max, maxStates, candidates);
            && (f.Raises? <==> low > high || max < 2)
            && (f.Chosen? <==> low <= high && max >= 2 && !SubsetSum.ReachesMoreThan(amounts, high, max, maxStates)
                               && exists v :: SubsetSum.OnlyFit(amounts, low, high, 2, max, v))
            && (f.Chosen? && SubsetSum.OnlyFit(amounts, low, high, 2, max, w) ==>
                  (forall k :: 0 <= k < |w| ==> w[k] < |candidates|) && f.members == Select(candidates, w))
  {
    hide SubsetSum.ReachesMoreThan, SubsetSum.Fits;
    OnlyFitInRange(amounts, low, high, max);
  }

  lemma SearchedRaisesIff(config: Config, max: nat, quotes: Quotes, txns: Txns, single: TxnId, candidates: seq<TxnId>)
    requires single in txns && forall t :: t in candidates ==> t in txns
    requires var legs := LegsOf(config, quotes, txns, single, candidates);
             legs.Legs? && !WholeSettles(legs.amounts, legs.low, legs.high, max)
    ensures var legs := LegsOf(config, quotes, txns, single, candidates);
            Fit(config, max, quotes, txns, single, candidates).Raises? <==>
            || (Searches(config, max, quotes, txns, single, candidates) && (legs.low > legs.high || max < 2))
            || (legs.low <= legs.high && max >= 2 && RupeeSubset(config, max, quotes, txns, single, candidates))
  {
    hide LegsOf, DetailsFail, SubsetSum.ReachesMoreThan, SubsetSum.OnlyFit, OneCurrency, RatesKnown, DivisionFails,
         SearchFor, WholeSettles, LegInr;
    LegsMean(config, quotes, txns, single, candidates);
    var legs := LegsOf(config, quotes, txns, single, candidates);
    SearchMeans(legs.amounts, legs.low, legs.high, max, config.maxStates, candidates, []);
    if w :| SubsetSum.OnlyFit(legs.amounts, legs.low, legs.high, 2, max, w) {
      OnlyFitInRange(legs.amounts, legs.low, legs.high, max);
      SearchMeans(legs.amounts, legs.low, legs.high, max, config.maxStates, candidates, w);
      OnlyOneFits(legs.amounts, legs.low, legs.high, max, w);
      ChosenInRupees(txns, single, candidates, w);
    }
  }

  lemma OnlyOneFits(amounts: seq<int>, low: int, high: int, max: nat, w: seq<nat>)
    requires SubsetSum.OnlyFit(amounts, low, high, 2, max, w)
    ensures forall v :: SubsetSum.OnlyFit(amounts, low, high, 2, max, v) ==> v == w
  {
  }

  // ------------------------------------------------------------------- a whole run

  /** The candidates linked to a single transaction in one way meet a failing guard. */
  ghost predicate AttemptFails(config: Config, quotes: Quotes, txns: Txns, rejected: Rejections, link: Link,
                               kind: MatchKind, pool: seq<TxnId>, consumed: set<TxnId>, single: TxnId) {
    var candidates := CandidateList(config, txns, rejected, link, consumed, pool, single);
    |candidates| >= 2 && single in txns && FitFails(config, MaxMembers(config, kind), quotes, txns, single, candidates)
  }

  lemma AttemptRaisesIff(config: Config, quotes: Quotes, txns: Txns, rejected: Rejections, link: Link,
                         kind: MatchKind, pool: seq<TxnId>, consumed: set<TxnId>, single: TxnId)
    ensures Attempt(config, quotes, txns, rejected, link, kind, pool, consumed, single).Raises?
            <==> AttemptFails(config, quotes, txns, rejected, link, kind, pool, consumed, single)
  {
    hide Candidate, CandidateList, Fit, FitFails;
    var candidates := CandidateList(config, txns, rejected, link, consumed, pool, single);
    if |candidates| >= 2 {
      assert candidates[0] in candidates;
      FitRaisesIff(config, MaxMembers(config, kind), quotes, txns, single, candidates);
    }
  }

  /** A single transaction whose turn comes after progress p meets a failing guard: by its stem, or, if
      its stem does not settle it, by its counterparty. */
  ghost predicate TurnFails(config: Config, quotes: Quotes, txns: Txns, rejected: Rejections, kind: MatchKind,
                            pool: seq<TxnId>, p: Progress, single: TxnId) {
    var consumed := Consumed(p.groups);
    && !p.raised && single !in consumed
    && (|| AttemptFails(config, quotes, txns, rejected, Stem, kind, pool, consumed, single)
        || (!Attempt(config, quotes, txns, rejected, Stem, kind, pool, consumed, single).Chosen?
            && AttemptFails(config, quotes, txns, rejected, Party, kind, pool, consumed, single)))
  }

  lemma TurnRaisesIff(config: Config, quotes: Quotes, txns: Txns, rejected: Rejections, claimed: set<TxnId>,
                      kind: MatchKind, pool: seq<TxnId>, p: Progress, single: TxnId)
    requires !p.raised
    ensures Turn(config, quotes, txns, rejected, claimed, kind, pool, p, single).raised
            <==> TurnFails(config, quotes, txns, rejected, kind, pool, p, single)
  {
    hide Attempt, AttemptFails, Consumed;
    AttemptRaisesIff(config, quotes, txns, rejected, Stem, kind, pool, Consumed(p.groups), single);
    AttemptRaisesIff(config, quotes, txns, rejected, Party, kind, pool, Consumed(p.groups), single);
  }

  lemma {:induction false} PassRaisesIff(config: Config, quotes: Quotes, txns: Txns, rejected: Rejections,
                                         claimed: set<TxnId>, kind: MatchKind, singles: seq<TxnId>,
                                         pool: seq<TxnId>, p: Progress)
    requires !p.raised
    ensures Pass(config, quotes, txns, rejected, claimed, kind, singles, pool, p).raised
            <==> PassFails(config, quotes, txns, rejected, claimed, kind, singles, pool, p)
    decreases singles
  {
    hide Turn, TurnFails;
    if singles != [] {
      var n := |singles| - 1;
      var front := singles[..n];
      var before := Pass(config, quotes, txns, rejected, claimed, kind, front, pool, p);
      PassRaisesIff(config, quotes, txns, rejected, claimed, kind, front, pool, p);
      forall k: nat | k < n
        ensures TurnFailsAt(config, quotes, txns, rejected, claimed, kind, front, pool, p, k)
                <==> TurnFailsAt(config, quotes, txns, rejected, claimed, kind, singles, pool, p, k)
      {
        assert front[..k] == singles[..k];
      }
      if before.raised {
        RaisedStays(config, quotes, txns, rejected, claimed, kind, pool, before, singles[n]);
      } else {
        TurnRaisesIff(config, quotes, txns, rejected, claimed, kind, pool, before, singles[n]);
        assert TurnFailsAt(config, quotes, txns, rejected, claimed, kind, singles, pool, p, n)
               <==> TurnFails(config, quotes, txns, rejected, kind, pool, before, singles[n]);
      }
    }
  }

  lemma RaisedStays(config: Config, quotes: Quotes, txns: Txns, rejected: Rejections, claimed: set<TxnId>,
                    kind: MatchKind, pool: seq<TxnId>, p: Progress, single: TxnId)
    requires p.raised
    ensures Turn(config, quotes, txns, rejected, claimed, kind, pool, p, single) == p
  {
    hide Attempt;
  }

  ghost predicate TurnFailsAt(config: Config, quotes: Quotes, txns: Txns, rejected: Rejections, claimed: set<TxnId>,
                              kind: MatchKind, singles: seq<TxnId>, pool: seq<TxnId>, p: Progress, k: nat)
    requires k < |singles|
  {
    TurnFails(config, quotes, txns, rejected, kind, pool,
              Pass(config, quotes, txns, rejected, claimed, kind, singles[..k], pool, p), singles[k])
  }

  ghost predicate PassFails(config: Config, quotes: Quotes, txns: Txns, rejected: Rejections, claimed: set<TxnId>,
                            kind: MatchKind, singles: seq<TxnId>, pool: seq<TxnId>, p: Progress) {
    exists k :: 0 <= k < |singles|
                && TurnFailsAt(config, quotes, txns, rejected, claimed, kind, singles, pool, p, k)
  }

  /** A run raises exactly when, in one of the two passes, the turn of some transaction meets a failing
      guard. */
  lemma RunRaisesIff(config: Config, quotes: Quotes, txns: Txns, rejected: Rejections, claimed: set<TxnId>,
                     internals: seq<TxnId>, externals: seq<TxnId>)
    ensures var split := Pass(config, quotes, txns, rejected, claimed, Split, internals, externals, BEGIN);
            TwoPasses(config, quotes, txns, rejected, claimed, internals, externals).raised
            <==> (|| PassFails(config, quotes, txns, rejected, claimed, Split, internals, externals, BEGIN)
                  || PassFails(config, quotes, txns, rejected, claimed, Netted, externals, internals, split))
  {
    hide Pass, TurnFails, PassFails;
    var split := Pass(config, quotes, txns, rejected, claimed, Split, internals, externals, BEGIN);
    PassRaisesIff(config, quotes, txns, rejected, claimed, Split, internals, externals, BEGIN);
    if split.raised {
      PassKeepsRaised(config, quotes, txns, rejected, claimed, Netted, externals, internals, split);
    } else {
      PassRaisesIff(config, quotes, txns, rejected, claimed, Netted, externals, internals, split);
    }
  }

  lemma {:induction false} PassKeepsRaised(config: Config, quotes: Quotes, txns: Txns, rejected: Rejections,
                                           claimed: set<TxnId>, kind: MatchKind, singles: seq<TxnId>,
                                           pool: seq<TxnId>, p: Progress)
    requires p.raised
    ensures Pass(config, quotes, txns, rejected, claimed, kind, singles, pool, p) == p
    decreases singles
  {
    hide Turn;
    if singles != [] {
      PassKeepsRaised(config, quotes, txns, rejected, claimed, kind, singles[..|singles| - 1], pool, p);
      RaisedStays(config, quotes, txns, rejected, claimed, kind, pool, p, singles[|singles| - 1]);
    }
  }

  // ------------------------------------------------------------------- under the usual settings

  /** Settings under which neither the division nor the search can fail on amounts that are not negative. */
  predicate Workable(config: Config) {
    config.toleranceMinor >= 0 && config.fxTolerance < 200.0 && config.maxSplit >= 2 && config.maxNetted >= 2
  }

  predicate NoNegativeAmounts(txns: Txns) {
    forall t :: t in txns ==> txns[t].amount >= 0
  }

  lemma LegIsNonNegative(quotes: Quotes, txn: Txn)
    requires txn.amount >= 0 && LegInr(quotes, txn).Some?
    ensures LegInr(quotes, txn).value >= 0
  {
    hide HalfEven, PaisePerMinor, EXPONENTS;
    if txn.currency != "INR" {
      var k := PaisePerMinor(quotes(txn.currency, txn.date).value, EXPONENTS[txn.currency]);
      NonNegativeProduct(txn.amount as real, k);
      HalfEvenMonotone(0.0, Times(txn.amount as real, k));
      HalfEvenIsUnique(0.0, 0);
    }
  }

  lemma NonNegativeProduct(a: real, b: real)
    requires a >= 0.0 && b > 0.0
    ensures Times(a, b) >= 0.0
  {
  }

  /** Then the one guard that can fail is the look-up of a foreign leg in a group in rupees. */
  lemma OnlyRupeesFail(config: Config, kind: MatchKind, quotes: Quotes, txns: Txns, single: TxnId,
                       candidates: seq<TxnId>)
    requires Workable(config) && NoNegativeAmounts(txns)
    requires single in txns && forall t :: t in candidates ==> t in txns
    ensures var max := MaxMembers(config, kind);
            FitFails(config, max, quotes, txns, single, candidates)
            <==> RupeeSubset(config, max, quotes, txns, single, candidates)
  {
    hide LegInr, Searches, RupeeSubset;
    if Exchanged(quotes, txns, single, candidates) {
      LegIsNonNegative(quotes, txns[single]);
    }
  }

  ghost predicate AttemptOnRupees(config: Config, quotes: Quotes, txns: Txns, rejected: Rejections, link: Link,
                                  kind: MatchKind, pool: seq<TxnId>, consumed: set<TxnId>, single: TxnId) {
    var candidates := CandidateList(config, txns, rejected, link, consumed, pool, single);
    && |candidates| >= 2 && single in txns
    && RupeeSubset(config, MaxMembers(config, kind), quotes, txns, single, candidates)
  }

  /** The turn of a transaction in rupees that candidates in rupees settle, out of a linked set in several
      currencies. */
  ghost predicate RupeeTurn(config: Config, quotes: Quotes, txns: Txns, rejected: Rejections, claimed: set<TxnId>,
                            kind: MatchKind, singles: seq<TxnId>, pool: seq<TxnId>, p: Progress, k: nat)
    requires k < |singles|
  {
    var before := Pass(config, quotes, txns, rejected, claimed, kind, singles[..k], pool, p);
    var consumed := Consumed(before.groups);
    && !before.raised && singles[k] !in consumed
    && (|| AttemptOnRupees(config, quotes, txns, rejected, Stem, kind, pool, consumed, singles[k])
        || (!Attempt(config, quotes, txns, rejected, Stem, kind, pool, consumed, singles[k]).Chosen?
            && AttemptOnRupees(config, quotes, txns, rejected, Party, kind, pool, consumed, singles[k])))
  }

  lemma TurnsFailOnRupees(config: Config, quotes: Quotes, txns: Txns, rejected: Rejections, claimed: set<TxnId>,
                          kind: MatchKind, singles: seq<TxnId>, pool: seq<TxnId>, p: Progress, k: nat)
    requires Workable(config) && NoNegativeAmounts(txns) && k < |singles|
    ensures TurnFailsAt(config, quotes, txns, rejected, claimed, kind, singles, pool, p, k)
            <==> RupeeTurn(config, quotes, txns, rejected, claimed, kind, singles, pool, p, k)
  {
    hide Pass, Attempt, CandidateList, FitFails, RupeeSubset, Consumed, Candidate, Workable, NoNegativeAmounts;
    var consumed := Consumed(Pass(config, quotes, txns, rejected, claimed, kind, singles[..k], pool, p).groups);
    if singles[k] in txns {
      forall link {:trigger CandidateList(config, txns, rejected, link, consumed, pool, singles[k])}
        ensures var candidates := CandidateList(config, txns, rejected, link, consumed, pool, singles[k]);
                FitFails(config, MaxMembers(config, kind), quotes, txns, singles[k], candidates)
                <==> RupeeSubset(config, MaxMembers(config, kind), quotes, txns, singles[k], candidates)
      {
        OnlyRupeesFail(config, kind, quotes, txns, singles[k],
                       CandidateList(config, txns, rejected, link, consumed, pool, singles[k]));
      }
    }
  }

  /** With a tolerance below 200 percent, room for two members, no negative tolerance and no negative
      amount a run goes through both passes, unless, and only unless, the turn comes of a transaction in
      rupees that candidates in rupees settle out of a linked set in several currencies. */
  lemma GroupsGoThrough(config: Config, quotes: Quotes, txns: Txns, rejected: Rejections, claimed: set<TxnId>,
                        internals: seq<TxnId>, externals: seq<TxnId>)
    requires Workable(config) && NoNegativeAmounts(txns)
    ensures var split := Pass(config, quotes, txns, rejected, claimed, Split, internals, externals, BEGIN);
            TwoPasses(config, quotes, txns, rejected, claimed, internals, externals).raised <==>
            || (exists k :: 0 <= k < |internals|
                  && RupeeTurn(config, quotes, txns, rejected, claimed, Split, internals, externals, BEGIN, k))
            || (exists k :: 0 <= k < |externals|
                  && RupeeTurn(config, quotes, txns, rejected, claimed, Netted, externals, internals, split, k))
  {
    hide Pass, TurnFailsAt, RupeeTurn, TwoPasses, Workable, NoNegativeAmounts;
    var split := Pass(config, quotes, txns, rejected, claimed, Split, internals, externals, BEGIN);
    RunRaisesIff(config, quotes, txns, rejected, claimed, internals, externals);
    forall k: nat | k < |internals|
      ensures TurnFailsAt(config, quotes, txns, rejected, claimed, Split, internals, externals, BEGIN, k)
              <==> RupeeTurn(config, quotes, txns, rejected, claimed, Split, internals, externals, BEGIN, k)
    {
      TurnsFailOnRupees(config, quotes, txns, rejected, claimed, Split, internals, externals, BEGIN, k);
    }
    forall k: nat | k < |externals|
      ensures TurnFailsAt(config, quotes, txns, rejected, claimed, Netted, externals, internals, split, k)
              <==> RupeeTurn(config, quotes, txns, rejected, claimed, Netted, externals, internals, split, k)
    {
      TurnsFailOnRupees(config, quotes, txns, rejected, claimed, Netted, externals, internals, split, k);
    }
  }
}

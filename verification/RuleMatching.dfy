/** Rule-based matching (src/recon/matching/strategies/rule_based.py): an external is paired with the
    one blocked candidate a rule accepts; more than one, or a truncated candidate list, is ambiguous. */
module RuleMatching {
  import opened Ledger
  import opened Stages
  import opened FxConvert
  import opened FuzzyMatching
  import Blocking

  /** RuleRegistry.evaluate, taken as given: the confidence of the first rule that accepts the pair. */
  type Registry = (TxnId, TxnId) -> Option<real>

  datatype Config = Config(blocking: Blocking.Config, registry: Registry, threshold: real)

  /** Confidence to three decimals, half to even, strictly above the threshold. */
  function RuleStatus(config: Config, confidence: real): ResultStatus {
    if HalfEven(confidence * 1000.0) as real / 1000.0 > config.threshold then AutoMatched else PendingReview
  }

  /** _evaluate: the candidates some rule accepts. */
  function Hits(registry: Registry, available: seq<TxnId>, e: TxnId): (hits: seq<TxnId>)
    ensures forall i :: i in hits <==> i in available && registry(i, e).Some?
  {
    if available == [] then []
    else
      var front, i := Hits(registry, available[..|available| - 1], e), available[|available| - 1];
      if registry(i, e).Some? then front + [i] else front
  }

  predicate Truncated(config: Blocking.Config, txns: Txns, internals: seq<TxnId>, e: TxnId)
    requires Blocking.Usable(config)
  {
    |Blocking.Union(config, txns, internals, e)| > config.cap
  }

  datatype Verdict = NoHit | Ambiguous | Take(item: Choice)

  function Judge(config: Config, txns: Txns, rejected: Rejections, internals: seq<TxnId>, consumed: set<TxnId>,
                 e: TxnId): Verdict
    requires Blocking.Usable(config.blocking)
  {
    var offered := Offered(config.blocking, txns, internals, e);
    var hits := Hits(config.registry, StillAvailable(offered, rejected, consumed, e), e);
    if hits == [] then NoHit
    else if |hits| > 1 || Truncated(config.blocking, txns, internals, e) then Ambiguous
    else
      assert hits[0] in hits;
      Take(Choice(hits[0], e, RuleStatus(config, config.registry(hits[0], e).value)))
  }

  datatype Outcome = Outcome(auto: nat, review: nat, ambiguous: nat, conflicts: nat)

  const NOTHING := Outcome(0, 0, 0, 0)

  function Written(outcome: Outcome, status: ResultStatus): Outcome {
    if status == AutoMatched then outcome.(auto := outcome.auto + 1) else outcome.(review := outcome.review + 1)
  }

  /** What the stage does, external by external: the pairs made and the counts. */
  function RulePairs(config: Config, txns: Txns, rejected: Rejections, claimed: set<TxnId>,
                     internals: seq<TxnId>, externals: seq<TxnId>): (seq<Choice>, Outcome)
    requires Blocking.Usable(config.blocking)
  {
    if externals == [] then ([], NOTHING)
    else
      var (made, outcome) := RulePairs(config, txns, rejected, claimed, internals, externals[..|externals| - 1]);
      var e := externals[|externals| - 1];
      match Judge(config, txns, rejected, internals, Internals(made), e)
      case NoHit => (made, outcome)
      case Ambiguous => (made, outcome.(ambiguous := outcome.ambiguous + 1))
      case Take(item) =>
        if item.internal in claimed || e in claimed then (made, outcome.(conflicts := outcome.conflicts + 1))
        else (made + [item], Written(outcome, item.status))
  }

  // ------------------------------------------------------------------- what the pairs are

  /** After the pairs made before, i is the only candidate of e that a rule accepts, out of a list
      that was not cut. */
  ghost predicate SoleHit(config: Config, txns: Txns, rejected: Rejections, internals: seq<TxnId>,
                          before: seq<Choice>, i: TxnId, e: TxnId)
    requires Blocking.Usable(config.blocking)
  {
    var blocked := Blocking.BlockedSet(config.blocking, txns, internals, e);
    && |blocked| <= config.blocking.cap
    && i in blocked && i !in Internals(before) && (i, e) !in rejected && config.registry(i, e).Some?
    && (forall t ::
          t in blocked && t !in Internals(before) && (t, e) !in rejected && config.registry(t, e).Some? ==> t == i)
  }

  lemma {:induction false} AvailableDistinct(rejected: Rejections, consumed: set<TxnId>,
                                             offered: seq<TxnId>, e: TxnId)
    requires Distinct(offered)
    ensures Distinct(StillAvailable(offered, rejected, consumed, e))
  {
    if offered != [] {
      AvailableDistinct(rejected, consumed, offered[..|offered| - 1], e);
    }
  }

  lemma {:induction false} HitsDistinct(registry: Registry, available: seq<TxnId>, e: TxnId)
    requires Distinct(available)
    ensures Distinct(Hits(registry, available, e))
  {
    if available != [] {
      HitsDistinct(registry, available[..|available| - 1], e);
    }
  }

  lemma TakesSoleHit(config: Config, txns: Txns, rejected: Rejections, internals: seq<TxnId>,
                     before: seq<Choice>, i: TxnId, e: TxnId)
    requires Blocking.Usable(config.blocking)
    ensures var verdict := Judge(config, txns, rejected, internals, Internals(before), e);
            && (verdict.Take? && verdict.item.internal == i
                <==> SoleHit(config, txns, rejected, internals, before, i, e))
            && (verdict.Take? ==>
                 && verdict.item.external == e
                 && config.registry(verdict.item.internal, e).Some?
                 && verdict.item.status == RuleStatus(config, config.registry(verdict.item.internal, e).value))
  {
    hide Blocking.Union, Blocking.BlockedSet, Internals, RuleStatus;
    var union := Blocking.Union(config.blocking, txns, internals, e);
    Blocking.UnionIsTheFilter(config.blocking, txns, internals, e);
    DistinctCount(union);
    assert forall t :: t in union <==> t in ToSet(union);
    var offered := Offered(config.blocking, txns, internals, e);
    var available := StillAvailable(offered, rejected, Internals(before), e);
    AvailableDistinct(rejected, Internals(before), offered, e);
    HitsDistinct(config.registry, available, e);
    OneOnly(Hits(config.registry, available, e), i);
  }

  lemma RuleNext(config: Config, txns: Txns, rejected: Rejections, claimed: set<TxnId>,
                 internals: seq<TxnId>, externals: seq<TxnId>, k: nat)
    requires Blocking.Usable(config.blocking) && k < |externals|
    ensures var before := RulePairs(config, txns, rejected, claimed, internals, externals[..k]).0;
            var verdict := Judge(config, txns, rejected, internals, Internals(before), externals[k]);
            RulePairs(config, txns, rejected, claimed, internals, externals[..k + 1]).0
            == if verdict.Take? && verdict.item.internal !in claimed && externals[k] !in claimed
               then before + [verdict.item] else before
    ensures RulePairs(config, txns, rejected, claimed, internals, externals[..0]).0 == []
  {
    hide Judge, Internals;
    assert externals[..k + 1][..k] == externals[..k];
  }

  /** The pairs made for the externals up to m, and which externals they belong to. */
  lemma {:induction false} RuleGrows(config: Config, txns: Txns, rejected: Rejections, claimed: set<TxnId>,
                                     internals: seq<TxnId>, externals: seq<TxnId>, k: nat, m: nat)
    requires Blocking.Usable(config.blocking) && k <= m <= |externals|
    ensures var before := RulePairs(config, txns, rejected, claimed, internals, externals[..k]).0;
            var after := RulePairs(config, txns, rejected, claimed, internals, externals[..m]).0;
            forall c :: c in after ==> c in before || c.external in externals[k..m]
    ensures var before := RulePairs(config, txns, rejected, claimed, internals, externals[..k]).0;
            var after := RulePairs(config, txns, rejected, claimed, internals, externals[..m]).0;
            before <= after
    decreases m - k
  {
    hide RulePairs, Judge, Internals;
    if k < m {
      RuleGrows(config, txns, rejected, claimed, internals, externals, k, m - 1);
      RuleNext(config, txns, rejected, claimed, internals, externals, m - 1);
      var before := RulePairs(config, txns, rejected, claimed, internals, externals[..m - 1]).0;
      VerdictExternal(config, txns, rejected, internals, Internals(before), externals[m - 1]);
      assert externals[k..m][m - 1 - k] == externals[m - 1];
      assert forall t :: t in externals[k..m - 1] ==> t in externals[k..m];
    }
  }

  lemma VerdictExternal(config: Config, txns: Txns, rejected: Rejections, internals: seq<TxnId>,
                        consumed: set<TxnId>, e: TxnId)
    requires Blocking.Usable(config.blocking)
    ensures var verdict := Judge(config, txns, rejected, internals, consumed, e);
            verdict.Take? ==> verdict.item.external == e
  {
  }

  /** m thousandths is the confidence to three decimals, half to even. */
  predicate Thousandths(confidence: real, m: int) {
    var gap := Abs(confidence * 1000.0 - m as real);
    gap <= 0.5 && (gap == 0.5 ==> m % 2 == 0)
  }

  /** A rule accepts the pair, and its status is AUTO_MATCHED exactly when its confidence, to three decimals, is
      above the threshold; otherwise it is held for review. */
  ghost predicate AsRated(config: Config, c: Choice) {
    var rated := config.registry(c.internal, c.external);
    && rated.Some?
    && (exists m :: Thousandths(rated.value, m)
                    && (c.status == AutoMatched <==> m as real > config.threshold * 1000.0))
    && (c.status == AutoMatched || c.status == PendingReview)
  }

  lemma StatusIsAsRated(config: Config, i: TxnId, e: TxnId)
    requires config.registry(i, e).Some?
    ensures AsRated(config, Choice(i, e, RuleStatus(config, config.registry(i, e).value)))
  {
    var confidence := config.registry(i, e).value;
    assert Thousandths(confidence, HalfEven(confidence * 1000.0));
  }

  /** Every pair made is rated so, and each is counted once. */
  lemma {:induction false} PairsAreAsRated(config: Config, txns: Txns, rejected: Rejections, claimed: set<TxnId>,
                                           internals: seq<TxnId>, externals: seq<TxnId>)
    requires Blocking.Usable(config.blocking)
    ensures var (made, outcome) := RulePairs(config, txns, rejected, claimed, internals, externals);
            && (forall c :: c in made ==> AsRated(config, c) && c.external in externals)
            && outcome.auto == |AutoOnes(made)| && outcome.auto + outcome.review == |made|
    decreases externals
  {
    hide Judge, AsRated, RuleStatus;
    if externals != [] {
      var n := |externals| - 1;
      PairsAreAsRated(config, txns, rejected, claimed, internals, externals[..n]);
      var before := RulePairs(config, txns, rejected, claimed, internals, externals[..n]).0;
      var verdict := Judge(config, txns, rejected, internals, Internals(before), externals[n]);
      if verdict.Take? {
        TakesSoleHit(config, txns, rejected, internals, before, verdict.item.internal, externals[n]);
        StatusIsAsRated(config, verdict.item.internal, externals[n]);
        AutoOnesMore(before, verdict.item);
      }
    }
  }

  /** The AUTO_MATCHED ones. */
  function AutoOnes(items: seq<Choice>): (r: seq<Choice>)
    ensures |r| <= |items|
  {
    if items == [] then []
    else
      var last := items[|items| - 1];
      AutoOnes(items[..|items| - 1]) + (if last.status == AutoMatched then [last] else [])
  }

  lemma AutoOnesMore(items: seq<Choice>, c: Choice)
    ensures AutoOnes(items + [c]) == AutoOnes(items) + (if c.status == AutoMatched then [c] else [])
  {
    assert (items + [c])[..|items|] == items;
  }

  /** A pair is made exactly when neither side is claimed and, after the externals before it, the internal is the only
      accepted candidate of an uncut list; and then it is rated by its confidence. */
  lemma PairedIffSoleHit(config: Config, txns: Txns, rejected: Rejections, claimed: set<TxnId>,
                         internals: seq<TxnId>, externals: seq<TxnId>, k: nat, i: TxnId)
    requires Blocking.Usable(config.blocking) && Distinct(externals) && k < |externals|
    ensures var before := RulePairs(config, txns, rejected, claimed, internals, externals[..k]).0;
            (exists c :: c in RulePairs(config, txns, rejected, claimed, internals, externals).0
                         && c.internal == i && c.external == externals[k] && AsRated(config, c))
            <==>
              && i !in claimed && externals[k] !in claimed
              && SoleHit(config, txns, rejected, internals, before, i, externals[k])
  {
    hide RulePairs, Judge, Internals, SoleHit, AsRated;
    PairsAreAsRated(config, txns, rejected, claimed, internals, externals);
    var e := externals[k];
    var before := RulePairs(config, txns, rejected, claimed, internals, externals[..k]).0;
    var after := RulePairs(config, txns, rejected, claimed, internals, externals[..k + 1]).0;
    assert externals[..|externals|] == externals;
    RuleNext(config, txns, rejected, claimed, internals, externals, k);
    TakesSoleHit(config, txns, rejected, internals, before, i, e);
    RuleGrows(config, txns, rejected, claimed, internals, externals, 0, k);
    RuleGrows(config, txns, rejected, claimed, internals, externals, k + 1, |externals|);
    assert e !in externals[0..k] && e !in externals[k + 1..|externals|];
    assert forall c :: c in before ==> c.external != e;
    var made := RulePairs(config, txns, rejected, claimed, internals, externals).0;
    var verdict := Judge(config, txns, rejected, internals, Internals(before), e);
    if c :| c in made && c.internal == i && c.external == e {
      assert c in after;
      assert c == verdict.item;
    }
    if i !in claimed && e !in claimed && SoleHit(config, txns, rejected, internals, before, i, e) {
      assert verdict.item in after;
      assert verdict.item in made;
    }
  }

  /** The candidates of e that a rule accepts, among those offered, not used by an earlier pair and not rejected. */
  ghost function Accepted(config: Config, txns: Txns, rejected: Rejections, internals: seq<TxnId>,
                          before: seq<Choice>, e: TxnId): set<TxnId>
    requires Blocking.Usable(config.blocking)
  {
    set t | t in Offered(config.blocking, txns, internals, e) && (forall c :: c in before ==> c.internal != t)
            && (t, e) !in rejected && config.registry(t, e).Some?
  }

  lemma HitsAreAccepted(config: Config, txns: Txns, rejected: Rejections, internals: seq<TxnId>, before: seq<Choice>,
                        e: TxnId)
    requires Blocking.Usable(config.blocking)
    ensures var hits := Hits(config.registry,
                             StillAvailable(Offered(config.blocking, txns, internals, e), rejected, Internals(before),
                                            e), e);
            ToSet(hits) == Accepted(config, txns, rejected, internals, before, e) && |ToSet(hits)| == |hits|
  {
    hide Blocking.Union, Blocking.BlockedSet;
    Blocking.UnionIsTheFilter(config.blocking, txns, internals, e);
    var offered := Offered(config.blocking, txns, internals, e);
    var available := StillAvailable(offered, rejected, Internals(before), e);
    AvailableDistinct(rejected, Internals(before), offered, e);
    HitsDistinct(config.registry, available, e);
    DistinctCount(Hits(config.registry, available, e));
  }

  /** How each external is counted: not at all when nothing is accepted, as ambiguous when several are or the list of
      candidates was cut, and otherwise as a conflict, matched or held for review. */
  lemma EachExternalIsCounted(config: Config, txns: Txns, rejected: Rejections, claimed: set<TxnId>,
                              internals: seq<TxnId>, externals: seq<TxnId>, k: nat)
    requires Blocking.Usable(config.blocking) && k < |externals|
    ensures var (before, o) := RulePairs(config, txns, rejected, claimed, internals, externals[..k]);
            var (after, o') := RulePairs(config, txns, rejected, claimed, internals, externals[..k + 1]);
            var e := externals[k];
            var accepted := Accepted(config, txns, rejected, internals, before, e);
            var cut := |Blocking.BlockedSet(config.blocking, txns, internals, e)| > config.blocking.cap;
            && (accepted == {} ==> after == before && o' == o)
            && (accepted != {} && (|accepted| > 1 || cut) ==> after == before && o' == o.(ambiguous := o.ambiguous + 1))
            && (forall i :: accepted == {i} && !cut ==>
                  if i in claimed || e in claimed then after == before && o' == o.(conflicts := o.conflicts + 1)
                  else
                    && |after| == |before| + 1 && before <= after
                    && after[|before|].internal == i && after[|before|].external == e
                    && o' == if after[|before|].status == AutoMatched then o.(auto := o.auto + 1)
                             else o.(review := o.review + 1))
  {
    hide Blocking.Union, Blocking.BlockedSet, Internals, RuleStatus, Accepted, Offered, StillAvailable, Hits;
    assert externals[..k + 1][..k] == externals[..k];
    var e := externals[k];
    var before := RulePairs(config, txns, rejected, claimed, internals, externals[..k]).0;
    HitsAreAccepted(config, txns, rejected, internals, before, e);
    Blocking.UnionIsTheFilter(config.blocking, txns, internals, e);
    DistinctCount(Blocking.Union(config.blocking, txns, internals, e));
    var hits := Hits(config.registry,
                     StillAvailable(Offered(config.blocking, txns, internals, e), rejected, Internals(before), e), e);
    assert |hits| > 0 ==> hits[0] in ToSet(hits);
    assert |hits| == 1 ==> ToSet(hits) == {hits[0]};
  }
}

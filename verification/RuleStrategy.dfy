/** The rule-based strategy at work (src/recon/matching/strategies/rule_based.py). */
module RuleStrategy {
  import opened Ledger
  import opened LedgerInvariant
  import opened Database
  import opened Repository
  import opened Stages
  import opened FuzzyMatching
  import opened RuleMatching
  import Blocking

  function RuleSteps(items: seq<Choice>): (steps: seq<Step>)
    ensures |steps| == |items|
  {
    seq(|items|, k requires 0 <= k < |items| => Pair(items[k].internal, items[k].external, Rule, items[k].status))
  }

  /** Where the stage is after k externals. */
  ghost predicate Ruling(config: Config, start: Db, db: Db, internals: seq<TxnId>, externals: seq<TxnId>,
                         k: nat, made: seq<Choice>, outcome: Outcome) {
    && Blocking.Usable(config.blocking) && k <= |externals|
    && (forall t :: t in internals ==> t !in externals) && Distinct(externals)
    && StageRun(start, db, RuleSteps(made), internals, externals)
    && StageOk(start, db, internals, externals)
    && (forall t :: (t in internals && t !in Internals(made)) || t in externals[k..] ==>
          (Claimed(db, t) <==> Claimed(start, t)))
    && (made, outcome) == RulePairs(config, start.txns, RejectedRows(start, internals),
                                    ClaimedAmong(start, internals + externals), internals, externals[..k])
  }

  lemma RulingStarts(config: Config, start: Db, internals: seq<TxnId>, externals: seq<TxnId>)
    requires Blocking.Usable(config.blocking)
    requires Valid(start) && Candidates(start, internals) && Candidates(start, externals)
    requires forall t :: t in internals ==> t !in externals
    ensures Ruling(config, start, start, internals, externals, 0, [], NOTHING)
  {
    hide Valid, Claimed, StageRun, StageOk;
    StageBegins(start, internals, externals);
    assert RuleSteps([]) == [];
    assert externals[..0] == [];
  }

  lemma RulingEnds(config: Config, start: Db, db: Db, internals: seq<TxnId>, externals: seq<TxnId>,
                   made: seq<Choice>, outcome: Outcome)
    requires Ruling(config, start, db, internals, externals, |externals|, made, outcome)
    ensures (made, outcome) == RulePairs(config, start.txns, RejectedRows(start, internals),
                                         ClaimedAmong(start, internals + externals), internals, externals)
    ensures StageRun(start, db, RuleSteps(made), internals, externals)
    ensures StageOk(start, db, internals, externals)
  {
    hide StageRun, StageOk, RulePairs;
    assert externals[..|externals|] == externals;
  }

  function CountedFor(outcome: Outcome, verdict: Verdict): Outcome {
    match verdict
    case NoHit => outcome
    case Ambiguous => outcome.(ambiguous := outcome.ambiguous + 1)
    case Take(_) => outcome.(conflicts := outcome.conflicts + 1)
  }

  lemma RulingSkips(config: Config, start: Db, db: Db, internals: seq<TxnId>, externals: seq<TxnId>,
                    k: nat, made: seq<Choice>, outcome: Outcome, verdict: Verdict)
    requires Ruling(config, start, db, internals, externals, k, made, outcome) && k < |externals|
    requires verdict == Judge(config, start.txns, RejectedRows(start, internals), internals, Internals(made),
                              externals[k])
    requires verdict.Take? ==>
               && verdict.item.internal in internals
               && (Claimed(start, verdict.item.internal) || Claimed(start, externals[k]))
    ensures Ruling(config, start, db, internals, externals, k + 1, made, CountedFor(outcome, verdict))
  {
    hide StageRun, StageOk, Judge, RejectedRows, Claimed, Internals, Distinct;
    assert externals[..k + 1][..k] == externals[..k];
    assert externals[k] in externals;
    assert forall t :: t in externals[k + 1..] ==> t in externals[k..];
  }

  /** What the loop knows of the pair it is about to claim. */
  lemma RulingTake(config: Config, start: Db, db: Db, internals: seq<TxnId>, externals: seq<TxnId>,
                   k: nat, made: seq<Choice>, outcome: Outcome)
    requires Ruling(config, start, db, internals, externals, k, made, outcome) && k < |externals|
    ensures var verdict := Judge(config, start.txns, RejectedRows(start, internals), internals, Internals(made),
                                 externals[k]);
            verdict.Take? ==>
              var i, e := verdict.item.internal, externals[k];
              && verdict.item.external == e
              && i in internals && i !in Internals(made) && i != e && i in db.txns && e in db.txns
              && !RejectedPair(start, i, e)
              && (Claimed(db, i) <==> Claimed(start, i)) && (Claimed(db, e) <==> Claimed(start, e))
              && (verdict.item.status == AutoMatched || verdict.item.status == PendingReview)
  {
    hide StageRun, Claimed, Distinct, Valid, RulePairs, ClaimedAmong, RejectedPair, Blocking.BlockedSet, Blocking.Union;
    var rejected, e := RejectedRows(start, internals), externals[k];
    var verdict := Judge(config, start.txns, rejected, internals, Internals(made), e);
    assert e in externals && e == externals[k..][0];
    if verdict.Take? {
      TakesSoleHit(config, start.txns, rejected, internals, made, verdict.item.internal, e);
      BlockedAreInternals(config.blocking, start.txns, internals, e);
    }
  }

  lemma BlockedAreInternals(config: Blocking.Config, txns: Txns, internals: seq<TxnId>, e: TxnId)
    requires Blocking.Usable(config)
    ensures forall i :: i in Blocking.BlockedSet(config, txns, internals, e) ==> i in internals
  {
  }

  lemma RulingWrites(config: Config, start: Db, db: Db, internals: seq<TxnId>, externals: seq<TxnId>,
                     k: nat, made: seq<Choice>, outcome: Outcome, item: Choice)
    requires Ruling(config, start, db, internals, externals, k, made, outcome) && k < |externals|
    requires Judge(config, start.txns, RejectedRows(start, internals), internals, Internals(made), externals[k])
             == Take(item)
    requires item.external == externals[k] && item.internal in internals
             && !RejectedPair(start, item.internal, item.external)
    requires item.status == AutoMatched || item.status == PendingReview
    requires !Claimed(db, item.internal) && !Claimed(db, item.external)
    requires !Claimed(start, item.internal) && !Claimed(start, item.external)
    ensures Ruling(config, start, WithPair(db, item.internal, item.external, Rule, item.status), internals, externals,
                   k + 1, made + [item], Written(outcome, item.status))
  {
    hide StageRun, StageOk, Judge, RejectedRows, Claimed, RejectedPair;
    var i, e := item.internal, externals[k];
    var db' := WithPair(db, i, e, Rule, item.status);
    assert e in externals && externals[..k + 1][..k] == externals[..k];
    StagePair(start, db, RuleSteps(made), internals, externals, i, e, Rule, item.status);
    assert RuleSteps(made + [item]) == RuleSteps(made) + [Pair(i, e, Rule, item.status)];
    InternalsMore(made, item);
    forall t | (t in internals && t !in Internals(made + [item])) || t in externals[k + 1..]
      ensures Claimed(db', t) <==> Claimed(start, t)
    {
      PairClaims(db, i, e, Rule, item.status, t);
      assert t in externals[k + 1..] ==> t in externals[k..] && t in externals && t != e;
    }
  }

  /** The verdict on one external, from the generated candidates. */
  method JudgeOne(config: Config, txns: Txns, rejected: Rejections, indexes: Blocking.Indexes,
                  ghost internals: seq<TxnId>, consumed: set<TxnId>, e: TxnId)
    returns (verdict: Verdict)
    requires Blocking.Usable(config.blocking) && e in txns
    requires Blocking.IndexesOf(config.blocking, txns, indexes, internals)
    ensures verdict == Judge(config, txns, rejected, internals, consumed, e)
  {
    hide Blocking.IndexesOf, Blocking.Union, Blocking.BlockedSet;
    Blocking.UnionIsTheFilter(config.blocking, txns, internals, e);
    DistinctCount(Blocking.Union(config.blocking, txns, internals, e));
    var offered := Blocking.Generate(config.blocking, txns, indexes, internals, e);
    var hits := Hits(config.registry, StillAvailable(offered.value.ids, rejected, consumed, e), e);
    if hits == [] {
      return NoHit;
    }
    if |hits| > 1 || offered.value.truncated {
      return Verdict.Ambiguous;
    }
    assert hits[0] in hits;
    return Take(Choice(hits[0], e, RuleStatus(config, config.registry(hits[0], e).value)));
  }

  /** RuleBasedMatchingStrategy.run. None when the blocking settings raise, before anything is written. */
  method RunRules(s: Session, config: Config, internals: seq<TxnId>, externals: seq<TxnId>)
    returns (r: Option<Outcome>, ghost made: seq<Choice>)
    requires Valid(s.State()) && Candidates(s.State(), internals) && Candidates(s.State(), externals)
    requires forall t :: t in internals ==> t !in externals
    modifies s
    ensures r == None <==> (internals != [] || externals != []) && !Blocking.Usable(config.blocking)
    ensures Blocking.Usable(config.blocking) ==>
              (made, r.value) == RulePairs(config, old(s.txns), RejectedRows(old(s.State()), internals),
                                           ClaimedAmong(old(s.State()), internals + externals), internals, externals)
    ensures !Blocking.Usable(config.blocking) ==> made == [] && (r == None || r == Some(NOTHING))
    ensures StageRun(old(s.State()), s.State(), RuleSteps(made), internals, externals)
    ensures StageOk(old(s.State()), s.State(), internals, externals)
  {
    hide Ruling, StageRun, StageOk, RulePairs, Claimed, RejectedPair, Valid, RejectedRows, WithPair, Internals,
         Distinct, ClaimedAmong, Judge, Blocking.IndexesOf, RuleStatus;
    ghost var start := s.State();
    var txns := s.txns;
    var indexes := Blocking.BuildIndexes(config.blocking, txns, internals);
    made, r := [], None;
    StageBegins(start, internals, externals);
    assert RuleSteps([]) == [];
    if indexes == None {
      return;
    }
    if !Blocking.Usable(config.blocking) {
      if externals == [] {
        r := Some(NOTHING);
      }
      return;
    }
    var rejected := RejectedPairs(s, internals);
    var consumed: set<TxnId>, outcome := {}, NOTHING;
    RulingStarts(config, start, internals, externals);
    InternalsMore([], Choice(0, 0, AutoMatched));
    for k := 0 to |externals|
      invariant Ruling(config, start, s.State(), internals, externals, k, made, outcome)
      invariant consumed == Internals(made)
    {
      var e := externals[k];
      ghost var before := s.State();
      assert e in externals;
      var verdict := JudgeOne(config, txns, rejected, indexes.value, internals, consumed, e);
      RulingTake(config, start, before, internals, externals, k, made, outcome);
      if verdict.Take? {
        var item := verdict.item;
        var written := WritePair(s, item.internal, e, Rule, item.status);
        if written {
          RulingWrites(config, start, before, internals, externals, k, made, outcome, item);
          InternalsMore(made, item);
          made := made + [item];
          consumed := consumed + {item.internal};
          outcome := Written(outcome, item.status);
        } else {
          RulingSkips(config, start, before, internals, externals, k, made, outcome, verdict);
          outcome := CountedFor(outcome, verdict);
        }
      } else {
        RulingSkips(config, start, before, internals, externals, k, made, outcome, verdict);
        outcome := CountedFor(outcome, verdict);
      }
    }
    RulingEnds(config, start, s.State(), internals, externals, made, outcome);
    r := Some(outcome);
  }
}

/** A matching run as one run of ledger steps, and what its counters mean (the accounting at the end of
    src/recon/matching/orchestrator.py). */
module RunAccounting {
  import opened Ledger
  import opened LedgerInvariant
  import opened LedgerLaws
  import opened Database
  import opened Repository
  import opened Stages
  import GroupStrategy
  import FuzzyMatching
  import FuzzyStrategy
  import RuleMatching
  import RuleStrategy
  import Blocking

  // ------------------------------------------------------------------- stages in a row

  /** From start to db by the given steps, all among the pools the run began with. */
  ghost predicate RunSoFar(start: Db, db: Db, steps: seq<Step>, internals: seq<TxnId>, externals: seq<TxnId>) {
    StageRun(start, db, steps, internals, externals) && StageOk(start, db, internals, externals)
  }

  lemma {:induction false} RunKeepsStage(start: Db, db: Db, steps: seq<Step>,
                                         internals: seq<TxnId>, externals: seq<TxnId>)
    requires StageRun(start, db, steps, internals, externals)
    requires Valid(start) && Candidates(start, internals) && Candidates(start, externals)
    ensures StageOk(start, db, internals, externals)
    decreases |steps|
  {
    hide StageOk, Valid, Candidates, Enabled, Within, Apply;
    if steps == [] {
      StageBegins(start, internals, externals);
    } else {
      var front, s := steps[..|steps| - 1], steps[|steps| - 1];
      assert s in steps && forall x :: x in front ==> x in steps;
      RunKeepsStage(start, ApplyAll(start, front), front, internals, externals);
      StepKeepsStage(start, ApplyAll(start, front), s, internals, externals);
    }
  }

  lemma WithinMore(s: Step, fewInternals: seq<TxnId>, fewExternals: seq<TxnId>,
                   internals: seq<TxnId>, externals: seq<TxnId>)
    requires Within(s, fewInternals, fewExternals)
    requires (forall t :: t in fewInternals ==> t in internals) && (forall t :: t in fewExternals ==> t in externals)
    ensures Within(s, internals, externals)
  {
  }

  /** A stage on smaller pools extends the run. */
  lemma StagesCompose(start: Db, mid: Db, db: Db, first: seq<Step>, second: seq<Step>,
                      internals: seq<TxnId>, externals: seq<TxnId>,
                      fewInternals: seq<TxnId>, fewExternals: seq<TxnId>)
    requires RunSoFar(start, mid, first, internals, externals)
    requires Valid(start) && Candidates(start, internals) && Candidates(start, externals)
    requires StageRun(mid, db, second, fewInternals, fewExternals)
    requires (forall t :: t in fewInternals ==> t in internals) && (forall t :: t in fewExternals ==> t in externals)
    ensures RunSoFar(start, db, first + second, internals, externals)
  {
    hide Valid, Candidates, Within, AllEnabled, ApplyAll, StageOk;
    StepsCompose(start, first, second);
    forall s | s in second ensures Within(s, internals, externals) {
      WithinMore(s, fewInternals, fewExternals, internals, externals);
    }
    RunKeepsStage(start, db, first + second, internals, externals);
  }

  /** The first part of a run is a run. */
  lemma RunBefore(start: Db, db: Db, first: seq<Step>, second: seq<Step>, internals: seq<TxnId>, externals: seq<TxnId>)
    requires RunSoFar(start, db, first + second, internals, externals)
    requires Valid(start) && Candidates(start, internals) && Candidates(start, externals)
    ensures RunSoFar(start, ApplyAll(start, first), first, internals, externals)
  {
    hide Valid, Candidates, Within, AllEnabled, ApplyAll, StageOk;
    StepsCompose(start, first, second);
    assert forall s :: s in first ==> s in first + second;
    RunKeepsStage(start, ApplyAll(start, first), first, internals, externals);
  }

  /** The pools of one bank and date range. */
  datatype Range = Range(bank: string, from: Option<int>, to: Option<int>)

  function Internals(r: Range): Query { Query(r.bank, Internal, r.from, r.to) }

  function Externals(r: Range): Query { Query(r.bank, External, r.from, r.to) }

  ghost predicate ArePools(db: Db, r: Range, internals: seq<TxnId>, externals: seq<TxnId>) {
    && IsPool(db, Internals(r), internals) && IsPool(db, Externals(r), externals)
    && Candidates(db, internals) && Candidates(db, externals)
    && GroupStrategy.Sourced(db.txns, internals, externals)
    && (forall t :: t in internals ==> t !in externals)
    && (forall t :: t in internals || t in externals ==> Free(db, t))
  }

  lemma PoolsAre(db: Db, r: Range, internals: seq<TxnId>, externals: seq<TxnId>)
    requires IsPool(db, Internals(r), internals) && IsPool(db, Externals(r), externals)
    ensures ArePools(db, r, internals, externals)
  {
    hide Claimed, IsPool, Candidates;
    PoolIsCandidates(db, Internals(r), internals);
    PoolIsCandidates(db, Externals(r), externals);
  }

  /** What is listed later was listed at the beginning. */
  lemma PoolsShrink(start: Db, db: Db, steps: seq<Step>, r: Range, internals: seq<TxnId>, externals: seq<TxnId>,
                    laterInternals: seq<TxnId>, laterExternals: seq<TxnId>)
    requires RunSoFar(start, db, steps, internals, externals)
    requires ArePools(start, r, internals, externals) && ArePools(db, r, laterInternals, laterExternals)
    ensures forall t :: t in laterInternals ==> t in internals
    ensures forall t :: t in laterExternals ==> t in externals
  {
    hide Valid, Candidates, StageRun, Pool, Claimed, TouchedBy, SameRecords;
    PoolAfter(start, db, steps, internals, externals, Internals(r));
    PoolAfter(start, db, steps, internals, externals, Externals(r));
  }

  /** _pools: both pools, fetched fresh. */
  method Pools(s: Session, r: Range) returns (internals: seq<TxnId>, externals: seq<TxnId>)
    ensures ArePools(s.State(), r, internals, externals)
  {
    hide IsPool, Candidates, Claimed;
    internals := FindUnmatched(s, Internals(r));
    externals := FindUnmatched(s, Externals(r));
    PoolsAre(s.State(), r, internals, externals);
  }

  /** One stage done: the run so far grows by its steps. */
  lemma StageDone(start: Db, mid: Db, db: Db, steps: seq<Step>, more: seq<Step>, r: Range,
                  internals: seq<TxnId>, externals: seq<TxnId>,
                  laterInternals: seq<TxnId>, laterExternals: seq<TxnId>)
    requires Valid(start) && ArePools(start, r, internals, externals)
    requires RunSoFar(start, mid, steps, internals, externals)
    requires ArePools(mid, r, laterInternals, laterExternals)
    requires StageRun(mid, db, more, laterInternals, laterExternals)
    ensures RunSoFar(start, db, steps + more, internals, externals)
  {
    hide RunSoFar, Valid, Candidates, StageRun, IsPool, Claimed;
    PoolsShrink(start, mid, steps, r, internals, externals, laterInternals, laterExternals);
    StagesCompose(start, mid, db, steps, more, internals, externals, laterInternals, laterExternals);
  }

  // ------------------------------------------------------------------- what the counters mean

  predicate AwaitsReview(s: Step) {
    s.Pair? && s.status == PendingReview
  }

  /** How many of the steps are pairs left for review. */
  function ReviewCount(steps: seq<Step>): nat {
    if steps == [] then 0
    else ReviewCount(steps[..|steps| - 1]) + (if AwaitsReview(steps[|steps| - 1]) then 1 else 0)
  }

  lemma {:induction false} ReviewCountAppend(a: seq<Step>, b: seq<Step>)
    ensures ReviewCount(a + b) == ReviewCount(a) + ReviewCount(b)
    decreases b
  {
    if b == [] {
      assert a + b == a;
    } else {
      ReviewCountAppend(a, b[..|b| - 1]);
      assert (a + b)[..|a + b| - 1] == a + b[..|b| - 1];
    }
  }

  lemma {:induction false} NoReviews(steps: seq<Step>)
    requires forall s :: s in steps ==> !AwaitsReview(s)
    ensures ReviewCount(steps) == 0
  {
    if steps != [] {
      NoReviews(steps[..|steps| - 1]);
    }
  }

  lemma {:induction false} FuzzyReviews(items: seq<FuzzyMatching.Choice>)
    requires forall c :: c in items ==> c.status == AutoMatched || c.status == PendingReview
    ensures ReviewCount(FuzzyMatching.FuzzySteps(items)) == |items| - FuzzyStrategy.AutoCount(items)
  {
    if items != [] {
      var front, last := items[..|items| - 1], items[|items| - 1];
      assert items == front + [last] && last in items;
      FuzzyReviews(front);
      FuzzyMatching.FuzzyStepsMore(front, last);
      var steps := FuzzyMatching.FuzzySteps(items);
      assert steps[..|steps| - 1] == FuzzyMatching.FuzzySteps(front);
    }
  }

  lemma {:induction false} RuleReviews(config: RuleMatching.Config, txns: map<TxnId, Txn>,
                                       rejected: set<(TxnId, TxnId)>, claimed: set<TxnId>,
                                       internals: seq<TxnId>, externals: seq<TxnId>)
    requires Blocking.Usable(config.blocking)
    ensures var (made, outcome) := RuleMatching.RulePairs(config, txns, rejected, claimed, internals, externals);
            ReviewCount(RuleStrategy.RuleSteps(made)) == outcome.review
    decreases externals
  {
    hide Blocking.Union, FuzzyMatching.Internals, FuzzyMatching.StillAvailable, FuzzyMatching.Offered,
         RuleMatching.Hits, RuleMatching.Truncated;
    if externals == [] {
      assert RuleStrategy.RuleSteps([]) == [];
    } else {
      var n := |externals| - 1;
      RuleReviews(config, txns, rejected, claimed, internals, externals[..n]);
      var (before, _) := RuleMatching.RulePairs(config, txns, rejected, claimed, internals, externals[..n]);
      var verdict := RuleMatching.Judge(config, txns, rejected, internals, FuzzyMatching.Internals(before),
                                        externals[n]);
      if verdict.Take? {
        var steps := RuleStrategy.RuleSteps(before + [verdict.item]);
        assert steps[..|steps| - 1] == RuleStrategy.RuleSteps(before);
      }
    }
  }

  /** The external sides of the pairs left for review. */
  function ReviewExternals(steps: seq<Step>): set<TxnId> {
    set s | s in steps && AwaitsReview(s) :: s.external
  }

  lemma ReviewExternalsMore(steps: seq<Step>, s: Step)
    ensures ReviewExternals(steps + [s]) == ReviewExternals(steps) + (if AwaitsReview(s) then {s.external} else {})
  {
    assert forall x :: x in steps + [s] <==> x in steps || x == s;
  }

  lemma ReviewsAreTouched(steps: seq<Step>)
    ensures ReviewExternals(steps) <= TouchedBy(steps)
  {
    forall t | t in ReviewExternals(steps) ensures t in TouchedBy(steps) {
      var s :| s in steps && AwaitsReview(s) && s.external == t;
      var k :| 0 <= k < |steps| && steps[k] == s;
      TouchedByEach(steps, k);
    }
  }

  /** One review, one external: no two steps of a run share a transaction. */
  lemma {:induction false} ReviewsAreCounted(start: Db, db: Db, steps: seq<Step>,
                                             internals: seq<TxnId>, externals: seq<TxnId>)
    requires StageRun(start, db, steps, internals, externals)
    ensures |ReviewExternals(steps)| == ReviewCount(steps)
    decreases |steps|
  {
    hide Enabled, Within, Apply, Takes, ReviewExternals;
    if steps == [] {
      NoReviewExternals();
    } else {
      var front, s := steps[..|steps| - 1], steps[|steps| - 1];
      assert steps == front + [s];
      assert s in steps && forall x :: x in front ==> x in steps;
      ReviewsAreCounted(start, ApplyAll(start, front), front, internals, externals);
      ReviewExternalsMore(front, s);
      ReviewsAreTouched(front);
      LastIsNew(start, steps, internals, externals);
    }
  }

  lemma NoReviewExternals()
    ensures ReviewExternals([]) == {}
  {
  }

  lemma LastIsNew(start: Db, steps: seq<Step>, internals: seq<TxnId>, externals: seq<TxnId>)
    requires steps != [] && StageRun(start, ApplyAll(start, steps), steps, internals, externals)
    ensures Touched(steps[|steps| - 1]) !! TouchedBy(steps[..|steps| - 1])
  {
    hide Enabled, Within, Apply;
    var front, s := steps[..|steps| - 1], steps[|steps| - 1];
    var before := ApplyAll(start, front);
    assert s in steps && forall x :: x in front ==> x in steps;
    RunTouches(start, before, front, internals, externals);
    hide TouchedBy, Touched;
    forall t | t in Touched(s) && t in TouchedBy(front) ensures false {
      StepTouches(before, s, internals, externals, t);
    }
  }

  /** What became of a transaction over a run: untouched, awaiting review, or MATCHED. */
  lemma {:induction false} RunSettles(start: Db, db: Db, steps: seq<Step>, internals: seq<TxnId>,
                                      externals: seq<TxnId>, e: TxnId)
    requires StageRun(start, db, steps, internals, externals)
    requires e in start.txns && e !in internals
    ensures e in db.txns
    ensures db.txns[e] == if e !in TouchedBy(steps) || e in ReviewExternals(steps) then start.txns[e]
                          else start.txns[e].(status := Matched)
    decreases |steps|
  {
    hide Enabled, TouchedBy, ReviewExternals, Claimed;
    if steps == [] {
      assert TouchedBy(steps) == {} by { NothingTouched(); }
    } else {
      var front, s := steps[..|steps| - 1], steps[|steps| - 1];
      assert steps == front + [s] && s in steps && forall x :: x in front ==> x in steps;
      RunSettles(start, ApplyAll(start, front), front, internals, externals, e);
      TouchedByMore(front, s);
      ReviewExternalsMore(front, s);
      ReviewsAreTouched(front);
      LastIsNew(start, steps, internals, externals);
      StepSettles(ApplyAll(start, front), s, internals, externals, e);
    }
  }

  lemma NothingTouched()
    ensures TouchedBy([]) == {}
  {
  }

  lemma StepSettles(db: Db, s: Step, internals: seq<TxnId>, externals: seq<TxnId>, e: TxnId)
    requires Within(s, internals, externals) && e in db.txns && e !in internals
    ensures e in Apply(db, s).txns
    ensures Apply(db, s).txns[e]
            == if e !in Touched(s) || (AwaitsReview(s) && s.external == e) then db.txns[e]
               else db.txns[e].(status := Matched)
  {
  }

  /** Pool members that are MATCHED now. */
  ghost function MatchedNow(start: Db, db: Db, q: Query): set<TxnId> {
    set t | t in Pool(start, q) && t in db.txns && db.txns[t].status == Matched
  }

  /** Pool members claimed but not matched now: their pair awaits review. */
  ghost function AwaitingNow(start: Db, db: Db, q: Query): set<TxnId> {
    set t | t in Pool(start, q) && t in db.txns && db.txns[t].status == Unmatched && Claimed(db, t)
  }

  lemma Partition(whole: set<TxnId>, a: set<TxnId>, b: set<TxnId>, c: set<TxnId>)
    requires whole == a + b + c && a !! b && a !! c && b !! c
    ensures |whole| == |a| + |b| + |c|
  {
    assert whole == (a + b) + c;
  }

  /** Where every external of the initial pool is after a run. */
  lemma ExternalFate(start: Db, db: Db, steps: seq<Step>, r: Range, internals: seq<TxnId>, externals: seq<TxnId>,
                     e: TxnId)
    requires ArePools(start, r, internals, externals) && RunSoFar(start, db, steps, internals, externals)
    requires e in Pool(start, Externals(r))
    ensures e in db.txns && (Claimed(db, e) <==> e in TouchedBy(steps))
    ensures db.txns[e].status
            == if e in TouchedBy(steps) && e !in ReviewExternals(steps) then Matched else Unmatched
  {
    hide Valid, Candidates, StageOk, TouchedBy, ReviewExternals, Ordered, Claimed;
    RunTouches(start, db, steps, internals, externals);
    RunSettles(start, db, steps, internals, externals, e);
  }

  lemma ReviewsComeFromThePool(start: Db, db: Db, steps: seq<Step>, r: Range, internals: seq<TxnId>,
                               externals: seq<TxnId>)
    requires ArePools(start, r, internals, externals) && RunSoFar(start, db, steps, internals, externals)
    ensures ReviewExternals(steps) <= Pool(start, Externals(r))
  {
    hide Valid, Candidates, StageOk, Ordered, AllEnabled, ApplyAll, Pool;
  }

  /** Conservation: the initial external pool is what the run matched, what it left for review and
      what is still available; the counter of matched externals is exact. */
  lemma Accounting(start: Db, db: Db, steps: seq<Step>, r: Range, internals: seq<TxnId>, externals: seq<TxnId>)
    requires ArePools(start, r, internals, externals) && RunSoFar(start, db, steps, internals, externals)
    ensures |Pool(start, Externals(r))|
            == |MatchedNow(start, db, Externals(r))| + |AwaitingNow(start, db, Externals(r))| + |Pool(db, Externals(r))|
    ensures |AwaitingNow(start, db, Externals(r))| == ReviewCount(steps)
  {
    hide ArePools, StageRun, StageOk, TouchedBy, ReviewExternals, Claimed, Pool;
    var pool := Pool(start, Externals(r));
    PoolAfter(start, db, steps, internals, externals, Externals(r)) by {
      assert SameRecords(start.txns, db.txns) by { RecordsStay(start, db, steps, internals, externals); }
    }
    ReviewsComeFromThePool(start, db, steps, r, internals, externals);
    ReviewsAreTouched(steps);
    ReviewsAreCounted(start, db, steps, internals, externals);
    forall e | e in pool
      ensures e in db.txns && (Claimed(db, e) <==> e in TouchedBy(steps))
      ensures db.txns[e].status == if e in TouchedBy(steps) && e !in ReviewExternals(steps) then Matched else Unmatched
    {
      ExternalFate(start, db, steps, r, internals, externals, e);
    }
    assert AwaitingNow(start, db, Externals(r)) == ReviewExternals(steps);
    Partition(pool, MatchedNow(start, db, Externals(r)), ReviewExternals(steps), Pool(db, Externals(r)));
  }

  lemma RecordsStay(start: Db, db: Db, steps: seq<Step>, internals: seq<TxnId>, externals: seq<TxnId>)
    requires RunSoFar(start, db, steps, internals, externals)
    ensures SameRecords(start.txns, db.txns)
  {
    hide Valid, Candidates, SameRecords;
  }

  /** No stage of a run repeats a pairing that had been rejected when the run began. */
  lemma NoStageRepeatsARejection(start: Db, db: Db, steps: seq<Step>, internals: seq<TxnId>, externals: seq<TxnId>,
                                 k: nat, i: TxnId, e: TxnId)
    requires Valid(start) && RunSoFar(start, db, steps, internals, externals) && k < |steps|
    requires RejectedPair(start, i, e)
    ensures !Makes(ApplyAll(start, steps[..k]), steps[k], i, e)
  {
    hide Valid, Enabled, Apply, Extends, Makes, RejectedPair, Within, StageOk;
    PrefixEnabled(start, steps, k);
    EveryRunExtends(start, steps[..k]);
    ExtendsKeepsRejections(start, ApplyAll(start, steps[..k]), i, e);
    RunKeeps(start, steps[..k]);
    MakesNoRejectedPair(ApplyAll(start, steps[..k]), steps[k], i, e);
  }

  /** No two steps of a run, whatever their stages, touch the same transaction, and none touches one
      that was not free when the run began. */
  lemma StagesShareNothing(start: Db, db: Db, steps: seq<Step>, internals: seq<TxnId>, externals: seq<TxnId>,
                           j: nat, k: nat)
    requires RunSoFar(start, db, steps, internals, externals) && j < k < |steps|
    ensures Touched(steps[j]) !! Touched(steps[k])
    ensures forall t: TxnId :: t in Touched(steps[j]) ==> Free(start, t)
  {
    hide Free, StageOk, Claimed;
    RunTouches(start, db, steps, internals, externals);
    TouchedByEach(steps, j);
  }
}

/** The matching run (src/recon/matching/orchestrator.py): the stages in order, each on the pools the one
    before left. */
module Orchestrator {
  import opened Ledger
  import opened LedgerInvariant
  import opened Database
  import opened Repository
  import opened Stages
  import opened RunAccounting
  import opened RunSpec
  import E = ExactMatching
  import SetBasedExact
  import SqlEquivalence
  import Cross = CrossCurrency
  import GroupMatching
  import GroupStrategy
  import FuzzyMatching
  import FuzzyStrategy
  import RuleMatching
  import RuleStrategy
  import Blocking

  // ------------------------------------------------------------------- the exact stage

  lemma PoolIsUnclaimed(db: Db, r: Range, internals: seq<TxnId>, externals: seq<TxnId>)
    requires ArePools(db, r, internals, externals)
    ensures ClaimedAmong(db, internals + externals) == {}
    ensures internals == PoolList(db, Internals(r)) && externals == PoolList(db, Externals(r))
  {
    hide Claimed, IsPool, Candidates;
    PoolListIs(db, Internals(r), internals);
    PoolListIs(db, Externals(r), externals);
  }

  lemma RunIsValid(start: Db, db: Db, steps: seq<Step>, internals: seq<TxnId>, externals: seq<TxnId>)
    requires RunSoFar(start, db, steps, internals, externals)
    ensures Valid(db) && db == ApplyAll(start, steps)
  {
    hide Valid, Candidates;
  }

  lemma NothingDone(start: Db, r: Range, internals: seq<TxnId>, externals: seq<TxnId>)
    requires Valid(start) && ArePools(start, r, internals, externals)
    ensures E.PairSteps([], Exact) == [] && RunSoFar(start, start, [], internals, externals)
  {
    hide Valid, Candidates, StageRun, StageOk, IsPool, Claimed;
    StageBegins(start, internals, externals);
  }

  lemma PairStepsAppend(a: E.Pairs, b: E.Pairs)
    ensures E.PairSteps(a + b, Exact) == E.PairSteps(a, Exact) + E.PairSteps(b, Exact)
    ensures ToSet(a + b) == ToSet(a) + ToSet(b)
    ensures forall s :: s in E.PairSteps(a, Exact) ==> !AwaitsReview(s)
  {
    assert forall p :: p in a + b <==> p in a || p in b;
  }

  /** No pair of a run is written twice. */
  lemma PairsAreDistinct(start: Db, db: Db, pairs: E.Pairs, internals: seq<TxnId>, externals: seq<TxnId>)
    requires RunSoFar(start, db, E.PairSteps(pairs, Exact), internals, externals)
    ensures Distinct(pairs)
  {
    hide StageOk, StageRun, Takes, TouchedBy;
    RunTouches(start, db, E.PairSteps(pairs, Exact), internals, externals);
    forall j, k | 0 <= j < k < |pairs| ensures pairs[j] != pairs[k] {
      assert pairs[j].0 in Touched(E.PairSteps(pairs, Exact)[j]);
      assert pairs[k].0 in Touched(E.PairSteps(pairs, Exact)[k]);
    }
  }

  lemma KeylessLast(txns: map<TxnId, Txn>, front: seq<TxnId>, last: TxnId)
    ensures E.Keyless(txns, front + [last])
            == E.Keyless(txns, front) + (if E.KeyAt(txns, last) == None then 1 else 0)
  {
    hide E.KeyAt;
    assert (front + [last])[..|front|] == front;
  }

  lemma OutsideLast(txns: map<TxnId, Txn>, ids: seq<TxnId>, keys: set<E.Key>)
    requires ids != []
    ensures var front, last := ids[..|ids| - 1], ids[|ids| - 1];
            SqlEquivalence.Outside(txns, ids, keys) == SqlEquivalence.Outside(txns, front, keys)
              + (if E.KeyAt(txns, last).Some? && E.KeyAt(txns, last).value in keys then [] else [last])
  {
    hide E.KeyAt;
  }

  lemma NoneKeyless(a: map<TxnId, Txn>, b: map<TxnId, Txn>, keys: set<E.Key>)
    ensures E.Keyless(b, SqlEquivalence.Outside(a, [], keys)) == E.Keyless(a, [])
  {
  }

  /** Rows without a key are passed over by the set-based stage and so are counted the same after it. */
  lemma {:induction false} KeylessOutside(a: map<TxnId, Txn>, b: map<TxnId, Txn>, ids: seq<TxnId>, keys: set<E.Key>)
    requires forall t: TxnId :: E.KeyAt(a, t) == E.KeyAt(b, t)
    ensures E.Keyless(b, SqlEquivalence.Outside(a, ids, keys)) == E.Keyless(a, ids)
    decreases |ids|
  {
    hide *;
    if ids == [] {
      NoneKeyless(a, b, keys);
    } else {
      var front, last := ids[..|ids| - 1], ids[|ids| - 1];
      assert ids == front + [last];
      KeylessOutside(a, b, front, keys);
      KeylessLast(a, front, last);
      OutsideLast(a, ids, keys);
      var rest := SqlEquivalence.Outside(a, front, keys);
      if E.KeyAt(a, last).Some? && E.KeyAt(a, last).value in keys {
        assert rest + [] == rest;
      } else {
        KeylessLast(b, rest, last);
      }
    }
  }

  lemma SameKeys(start: Db, db: Db, internals: seq<TxnId>, externals: seq<TxnId>)
    requires StageOk(start, db, internals, externals)
    ensures forall t: TxnId :: E.KeyAt(start.txns, t) == E.KeyAt(db.txns, t)
  {
    hide Valid, Candidates, RejectedPair;
  }

  /** The pools after the set-based stage, as far as the keyed stage needs to know them. */
  lemma AfterSetBased(start: Db, mid: Db, r: Range, internals: seq<TxnId>, externals: seq<TxnId>, sql: E.Pairs,
                      ints: seq<TxnId>, exts: seq<TxnId>)
    requires ArePools(start, r, internals, externals) && ArePools(mid, r, ints, exts)
    requires ToSet(sql) == SetBasedExact.SqlPairs(start, ToSet(internals), ToSet(externals))
    requires StageRun(start, mid, E.PairSteps(sql, Exact), internals, externals)
             && StageOk(start, mid, internals, externals)
    ensures E.Keyless(mid.txns, ints) + E.Keyless(mid.txns, exts)
            == E.Keyless(start.txns, internals) + E.Keyless(start.txns, externals)
    ensures ToSet(E.ExactPairs(start.txns, RejectedRows(start, internals), {}, internals, externals))
            == ToSet(sql) + ToSet(E.ExactPairs(mid.txns, RejectedRows(mid, ints), {}, ints, exts))
  {
    hide Valid, StageRun, E.ExactPairs, IsPool, RejectedRows, Claimed, SetBasedExact.SqlPairs, E.Keyless,
         SqlEquivalence.Outside, SqlEquivalence.SqlKeys, SameRecords;
    SqlEquivalence.SqlThenExactIsExact(start, mid, r.bank, r.from, r.to, internals, externals, sql, ints, exts);
    SqlEquivalence.PoolOutside(start, mid, Internals(r), internals, externals, sql, internals, ints);
    SqlEquivalence.PoolOutside(start, mid, Externals(r), internals, externals, sql, externals, exts);
    SameKeys(start, mid, internals, externals);
    KeylessOutside(start.txns, mid.txns, internals, SqlEquivalence.SqlKeys(start, sql));
    KeylessOutside(start.txns, mid.txns, externals, SqlEquivalence.SqlKeys(start, sql));
  }

  /** The first stage: set-based if configured, then keyed, with fresh pools. The steps are the pairs, the pairs
      those of the keyed strategy alone. */
  method ExactStages(s: Session, r: Range, setBased: bool, ghost internals: seq<TxnId>, ghost externals: seq<TxnId>)
    returns (matched: nat, skipped: nat, ghost pairs: E.Pairs)
    requires Valid(s.State()) && ArePools(s.State(), r, internals, externals)
    modifies s
    ensures RunSoFar(old(s.State()), s.State(), E.PairSteps(pairs, Exact), internals, externals)
    ensures s.State() == ApplyAll(old(s.State()), E.PairSteps(pairs, Exact))
    ensures ExactlyThese(old(s.State()), r, pairs) && matched == |pairs|
    ensures !setBased ==> pairs == KeyedPairs(old(s.State()), r)
    ensures skipped == KeylessIn(old(s.State()), r)
    ensures ReviewCount(E.PairSteps(pairs, Exact)) == 0
  {
    hide Valid, Candidates, StageRun, StageOk, E.ExactPairs, IsPool, RejectedRows, Claimed, SetBasedExact.SqlPairs,
         Distinct, E.PairSteps, E.Keyless, PoolList;
    ghost var start := s.State();
    ghost var sql: E.Pairs := [];
    var sqlMatched: nat := 0;
    NothingDone(start, r, internals, externals);
    if setBased {
      sqlMatched, sql := SetBasedExact.RunSetBased(s, r.bank, r.from, r.to, internals, externals);
    }
    ghost var mid := s.State();
    var ints, exts := Pools(s, r);
    RunIsValid(start, mid, E.PairSteps(sql, Exact), internals, externals);
    PoolIsUnclaimed(start, r, internals, externals);
    PoolIsUnclaimed(mid, r, ints, exts);
    ghost var made: E.Pairs;
    var outcome;
    outcome, made := E.RunExact(s, ints, exts);
    matched, skipped := sqlMatched + outcome.matched, outcome.skippedNoKey;
    pairs := sql + made;
    PairStepsAppend(sql, made);
    StageDone(start, mid, s.State(), E.PairSteps(sql, Exact), E.PairSteps(made, Exact), r, internals, externals, ints,
              exts);
    if setBased {
      AfterSetBased(start, mid, r, internals, externals, sql, ints, exts);
    }
    PairsAreDistinct(start, s.State(), pairs, internals, externals);
    RunIsValid(start, s.State(), E.PairSteps(pairs, Exact), internals, externals);
    PairStepsAppend(pairs, []);
    NoReviews(E.PairSteps(pairs, Exact));
  }

  // ------------------------------------------------------------------- the stages after it

  /** A run that began at start has taken the steps `done` and stands at st. */
  ghost predicate StandsAt(start: Db, r: Range, internals: seq<TxnId>, externals: seq<TxnId>, done: seq<Step>,
                           st: Stand) {
    && Valid(start) && ArePools(start, r, internals, externals)
    && RunSoFar(start, st.db, done + st.steps, internals, externals)
    && (!st.raised ==> ReviewCount(st.steps) == PendingOf(st))
  }

  /** One more stage: its steps, on the pools as they are now. */
  lemma StageTaken(start: Db, r: Range, internals: seq<TxnId>, externals: seq<TxnId>, done: seq<Step>, st: Stand,
                   ints: seq<TxnId>, exts: seq<TxnId>, db: Db, more: seq<Step>, after: Stand)
    requires StandsAt(start, r, internals, externals, done, st) && ArePools(st.db, r, ints, exts) && !st.raised
    requires StageRun(st.db, db, more, ints, exts)
    requires after.db == db && after.steps == st.steps + more
    requires !after.raised ==> PendingOf(st) + ReviewCount(more) == PendingOf(after)
    ensures after.db == ApplyAll(st.db, more)
    ensures StandsAt(start, r, internals, externals, done, after)
  {
    hide Valid, ArePools, RunSoFar, ReviewCount;
    StageDone(start, st.db, db, done + st.steps, more, r, internals, externals, ints, exts);
    ReviewCountAppend(st.steps, more);
    assert done + (st.steps + more) == done + st.steps + more;
    StageIsSteps(st.db, db, more, ints, exts);
  }

  lemma StageIsSteps(start: Db, db: Db, steps: seq<Step>, internals: seq<TxnId>, externals: seq<TxnId>)
    requires StageRun(start, db, steps, internals, externals)
    ensures db == ApplyAll(start, steps)
  {
  }

  lemma StandIsValid(start: Db, r: Range, internals: seq<TxnId>, externals: seq<TxnId>, done: seq<Step>, st: Stand)
    requires StandsAt(start, r, internals, externals, done, st)
    ensures Valid(st.db)
  {
    hide Valid, Candidates, ArePools;
  }

  /** Cross-currency matching, if there are rules and rates. */
  method CrossStage(s: Session, r: Range, settings: Settings, ghost start: Db, ghost internals: seq<TxnId>,
                    ghost externals: seq<TxnId>, ghost done: seq<Step>, ghost st: Stand)
    returns (outcome: Option<Cross.Outcome>)
    requires StandsAt(start, r, internals, externals, done, st) && st.db == s.State()
    requires !st.raised && st.cross == None
    modifies s
    ensures var after := AfterCross(st, r, settings);
            && s.State() == after.db && outcome == after.cross && !after.raised
            && StandsAt(start, r, internals, externals, done, after)
  {
    hide StandsAt, Valid, Candidates, StageRun, StageOk, IsPool, Claimed, Cross.CrossPairs, RejectedRows, PoolList,
         ApplyAll, ReviewCount, Cross.CrossSteps;
    if !WithRules(settings) || settings.quotes == None {
      return None;
    }
    StandIsValid(start, r, internals, externals, done, st);
    var ints, exts := Pools(s, r);
    PoolIsUnclaimed(st.db, r, ints, exts);
    ghost var pairs;
    var counts;
    counts, pairs := Cross.RunCrossCurrency(s, CrossConfig(settings.rules.value), settings.quotes.value, ints, exts);
    outcome := Some(counts);
    CrossIsReviewed(pairs);
    ghost var after := Stand(s.State(), st.steps + Cross.CrossSteps(pairs), outcome, st.group, st.fuzzy, st.rule,
                             st.internalsLeft, st.externalsLeft, st.raised);
    StageTaken(start, r, internals, externals, done, st, ints, exts, s.State(), Cross.CrossSteps(pairs), after);
  }

  lemma CrossIsReviewed(pairs: Cross.Pairs)
    ensures ReviewCount(Cross.CrossSteps(pairs)) == 0
  {
    NoReviews(Cross.CrossSteps(pairs));
  }

  /** Group matching, if there are rules. */
  method GroupStage(s: Session, r: Range, settings: Settings, ghost start: Db, ghost internals: seq<TxnId>,
                    ghost externals: seq<TxnId>, ghost done: seq<Step>, ghost st: Stand)
    returns (counts: Option<GroupMatching.Counts>, raised: bool)
    requires StandsAt(start, r, internals, externals, done, st) && st.db == s.State()
    requires !st.raised && st.group == None
    modifies s
    ensures var after := AfterGroups(st, r, settings);
            && s.State() == after.db && counts == after.group && raised == after.raised
            && StandsAt(start, r, internals, externals, done, after)
  {
    hide StandsAt, Valid, Candidates, StageRun, StageOk, IsPool, Claimed, GroupMatching.TwoPasses, RejectedRows,
         PoolList, ApplyAll, ReviewCount, GroupStrategy.GroupSteps;
    if !WithRules(settings) {
      return None, false;
    }
    StandIsValid(start, r, internals, externals, done, st);
    var ints, exts := Pools(s, r);
    PoolIsUnclaimed(st.db, r, ints, exts);
    SourcedPools(st.db, r, ints, exts);
    var p := GroupStrategy.RunGroups(s, settings.rules.value.group, QuotesOf(settings), ints, exts);
    raised := p.raised;
    counts := if p.raised then None else Some(p.counts);
    GroupsAreReviewed(p.groups);
    ghost var after := Stand(s.State(), st.steps + GroupStrategy.GroupSteps(p.groups), st.cross, counts, st.fuzzy,
                             st.rule, st.internalsLeft, st.externalsLeft, raised);
    StageTaken(start, r, internals, externals, done, st, ints, exts, s.State(), GroupStrategy.GroupSteps(p.groups),
               after);
  }

  lemma SourcedPools(db: Db, r: Range, internals: seq<TxnId>, externals: seq<TxnId>)
    requires ArePools(db, r, internals, externals)
    ensures GroupStrategy.Sourced(db.txns, internals, externals)
  {
  }

  lemma GroupsAreReviewed(groups: seq<GroupMatching.Grouped>)
    ensures ReviewCount(GroupStrategy.GroupSteps(groups)) == 0
  {
    NoReviews(GroupStrategy.GroupSteps(groups));
  }

  /** Fuzzy matching; in FAST mode only its pools are fetched. */
  method FuzzyStage(s: Session, r: Range, settings: Settings, ghost start: Db, ghost internals: seq<TxnId>,
                    ghost externals: seq<TxnId>, ghost done: seq<Step>, ghost st: Stand)
    returns (outcome: FuzzyStrategy.Outcome, internalsLeft: nat, externalsLeft: nat, raised: bool)
    requires StandsAt(start, r, internals, externals, done, st) && st.db == s.State()
    requires !st.raised && st.fuzzy == FuzzyStrategy.Outcome(0, 0, 0) && st.rule == None
    modifies s
    ensures var after := AfterFuzzy(st, r, settings);
            && s.State() == after.db && raised == after.raised && outcome == after.fuzzy
            && internalsLeft == after.internalsLeft && externalsLeft == after.externalsLeft
            && StandsAt(start, r, internals, externals, done, after)
  {
    hide StandsAt, Valid, Candidates, StageRun, StageOk, IsPool, Claimed, FuzzyMatching.Chosen, FuzzyMatching.Unclaimed,
         RejectedRows, FuzzyMatching.FuzzySteps, PoolList, ApplyAll, ReviewCount, FuzzyStrategy.Tally;
    StandIsValid(start, r, internals, externals, done, st);
    var ints, exts := Pools(s, r);
    PoolIsUnclaimed(st.db, r, ints, exts);
    internalsLeft, externalsLeft := |ints|, |exts|;
    outcome, raised := FuzzyStrategy.Outcome(0, 0, 0), false;
    if settings.mode == FAST {
      SizedStand(start, r, internals, externals, done, st, |ints|, |exts|, false);
      return;
    }
    ghost var written;
    var chosen, counts;
    counts, chosen, written := FuzzyStrategy.RunFuzzy(s, settings.blocking, settings.score, FuzzyStrategy.WRITE_CHUNK,
                                                      ints, exts);
    ChosenIsWritten(settings, st.db, r, ints, exts, chosen);
    if counts == None {
      raised := true;
      StageIsSteps(st.db, s.State(), FuzzyMatching.FuzzySteps(written), ints, exts);
      NothingWritten(st.db);
      SizedStand(start, r, internals, externals, done, st, |ints|, |exts|, true);
      return;
    }
    outcome := counts.value;
    if !Blocking.Usable(settings.blocking) {
      StageIsSteps(st.db, s.State(), FuzzyMatching.FuzzySteps(written), ints, exts);
      NothingWritten(st.db);
      SizedStand(start, r, internals, externals, done, st, |ints|, |exts|, false);
      return;
    }
    ghost var after := Stand(s.State(), st.steps + FuzzyMatching.FuzzySteps(written), st.cross, st.group, outcome,
                             st.rule, |ints|, |exts|, false);
    StageTaken(start, r, internals, externals, done, st, ints, exts, s.State(), FuzzyMatching.FuzzySteps(written),
               after);
  }

  lemma NothingWritten(db: Db)
    ensures ApplyAll(db, FuzzyMatching.FuzzySteps([])) == db
    ensures FuzzyStrategy.Tally(0, []) == FuzzyStrategy.Outcome(0, 0, 0)
  {
    assert FuzzyMatching.FuzzySteps([]) == [];
  }

  /** Noting the sizes of the pools, or an exception, changes nothing else. */
  lemma SizedStand(start: Db, r: Range, internals: seq<TxnId>, externals: seq<TxnId>, done: seq<Step>, st: Stand,
                   internalsLeft: nat, externalsLeft: nat, raised: bool)
    requires StandsAt(start, r, internals, externals, done, st) && !st.raised
    ensures StandsAt(start, r, internals, externals, done,
                     st.(internalsLeft := internalsLeft, externalsLeft := externalsLeft, raised := raised))
  {
    hide Valid, ArePools, RunSoFar, ReviewCount;
  }

  /** On fresh pools every choice is written, and its review count is the number left for review. */
  lemma ChosenIsWritten(settings: Settings, db: Db, r: Range, internals: seq<TxnId>, externals: seq<TxnId>,
                        chosen: seq<FuzzyMatching.Choice>)
    requires ArePools(db, r, internals, externals)
    requires chosen == if Blocking.Usable(settings.blocking)
                       then FuzzyMatching.Chosen(settings.blocking, settings.score, db.txns,
                                                 RejectedRows(db, internals), internals, externals)
                       else []
    ensures FuzzyMatching.Unclaimed(db, chosen) == chosen
    ensures ReviewCount(FuzzyMatching.FuzzySteps(chosen)) == FuzzyStrategy.Tally(|chosen|, chosen).review
  {
    hide FuzzyMatching.Chosen, RejectedRows, Claimed, IsPool, FuzzyMatching.Unclaimed;
    if Blocking.Usable(settings.blocking) {
      FuzzyMatching.ChoicesAreApart(settings.blocking, settings.score, db.txns, RejectedRows(db, internals),
                                    internals, externals, |externals|);
      assert externals[..|externals|] == externals;
    }
    assert forall t :: t in FuzzyMatching.SidesOf(chosen) ==> t in internals || t in externals;
    FuzzyStrategy.AllUnclaimed(db, chosen);
    FuzzyReviews(chosen);
  }

  /** Rule-based matching, if there are rules. */
  method RuleBasedStage(s: Session, r: Range, settings: Settings, ghost start: Db, ghost internals: seq<TxnId>,
                        ghost externals: seq<TxnId>, ghost done: seq<Step>, ghost st: Stand)
    returns (outcome: Option<RuleMatching.Outcome>, raised: bool)
    requires StandsAt(start, r, internals, externals, done, st) && st.db == s.State()
    requires !st.raised && st.rule == None
    modifies s
    ensures var after := AfterRules(st, r, settings);
            && s.State() == after.db && raised == after.raised && outcome == after.rule
            && StandsAt(start, r, internals, externals, done, after)
  {
    hide StandsAt, Valid, Candidates, StageRun, StageOk, IsPool, Claimed, RuleMatching.RulePairs, RejectedRows,
         PoolList, ApplyAll, ReviewCount, RuleStrategy.RuleSteps;
    if !WithRules(settings) {
      return None, false;
    }
    StandIsValid(start, r, internals, externals, done, st);
    var ints, exts := Pools(s, r);
    PoolIsUnclaimed(st.db, r, ints, exts);
    ghost var made;
    outcome, made := RuleStrategy.RunRules(s, RuleConfig(settings, settings.rules.value), ints, exts);
    raised := outcome == None;
    ghost var more := RuleStrategy.RuleSteps(made);
    RulesAreReviewed(settings, st.db, ints, exts, made, outcome);
    ghost var after := Stand(s.State(), st.steps + more, st.cross, st.group, st.fuzzy, outcome,
                             st.internalsLeft, st.externalsLeft, raised);
    StageTaken(start, r, internals, externals, done, st, ints, exts, s.State(), more, after);
    if !Blocking.Usable(settings.blocking) {
      NoRuleSteps(st.db);
      assert st.steps + [] == st.steps;
    }
  }

  lemma NoRuleSteps(db: Db)
    ensures RuleStrategy.RuleSteps([]) == [] && ApplyAll(db, []) == db
  {
  }

  lemma RulesAreReviewed(settings: Settings, db: Db, internals: seq<TxnId>, externals: seq<TxnId>,
                         made: seq<FuzzyMatching.Choice>, outcome: Option<RuleMatching.Outcome>)
    requires settings.rules.Some?
    requires Blocking.Usable(settings.blocking) ==>
               && outcome.Some?
               && (made, outcome.value) == RuleMatching.RulePairs(RuleConfig(settings, settings.rules.value), db.txns,
                                                                  RejectedRows(db, internals), {}, internals, externals)
    requires !Blocking.Usable(settings.blocking) ==>
               made == [] && (outcome == None || outcome == Some(RuleMatching.NOTHING))
    ensures outcome.Some? ==> ReviewCount(RuleStrategy.RuleSteps(made)) == outcome.value.review
  {
    hide RuleMatching.RulePairs, RejectedRows;
    if Blocking.Usable(settings.blocking) {
      RuleReviews(RuleConfig(settings, settings.rules.value), db.txns, RejectedRows(db, internals), {}, internals,
                  externals);
    } else {
      NoReviews(RuleStrategy.RuleSteps(made));
    }
  }

  // ------------------------------------------------------------------- the run

  /** Before its later stages, a run stands where the exact pairs led. */
  lemma RunBegins(start: Db, r: Range, internals: seq<TxnId>, externals: seq<TxnId>, exact: seq<Step>, db: Db)
    requires Valid(start) && ArePools(start, r, internals, externals)
    requires RunSoFar(start, db, exact, internals, externals)
    ensures StandsAt(start, r, internals, externals, exact, Begin(db))
  {
    hide Valid, ArePools, RunSoFar;
    assert exact + [] == exact;
  }

  /** A stage reports only its own part, and only the last two can follow an exception with nothing. */
  lemma StagesKeep(db: Db, r: Range, settings: Settings)
    ensures var a := AfterCross(Begin(db), r, settings);
            !a.raised && a.group == None && a.fuzzy == FuzzyStrategy.Outcome(0, 0, 0) && a.rule == None
    ensures var b := AfterGroups(AfterCross(Begin(db), r, settings), r, settings);
            b.fuzzy == FuzzyStrategy.Outcome(0, 0, 0) && b.rule == None
    ensures AfterFuzzy(AfterGroups(AfterCross(Begin(db), r, settings), r, settings), r, settings).rule == None
  {
    hide PoolList, Cross.CrossPairs, GroupMatching.TwoPasses, FuzzyMatching.Chosen, RejectedRows, ApplyAll;
  }

  /** A stage leaves what the others have reported. */
  lemma ReportsStay(st: Stand, r: Range, settings: Settings)
    ensures AfterGroups(st, r, settings).cross == st.cross
    ensures var b := AfterFuzzy(st, r, settings);
            b.cross == st.cross && b.group == st.group
    ensures var c := AfterRules(st, r, settings);
            && c.cross == st.cross && c.group == st.group && c.fuzzy == st.fuzzy
            && c.internalsLeft == st.internalsLeft && c.externalsLeft == st.externalsLeft
  {
    hide PoolList, GroupMatching.TwoPasses, FuzzyMatching.Chosen, RuleMatching.RulePairs, RejectedRows, ApplyAll;
  }

  /** After an exception nothing more is done. */
  lemma RaisedIsLast(st: Stand, r: Range, settings: Settings)
    requires st.raised
    ensures AfterFuzzy(st, r, settings) == st && AfterRules(st, r, settings) == st
  {
  }

  lemma FastIsExactOnly(db: Db, r: Range, settings: Settings)
    requires settings.mode == FAST
    ensures var end := Later(db, r, settings);
            !end.raised && end.steps == [] && end.db == db
  {
  }

  /** The pending and the matched of a report are counted right. */
  ghost predicate CountsAreExact(start: Db, db: Db, r: Range, report: Report) {
    && report.pendingReview == |AwaitingNow(start, db, Externals(r))|
    && report.externalsMatched == |MatchedNow(start, db, Externals(r))|
    && report.externalTotal == report.externalsMatched + report.pendingReview + report.remaining
  }

  lemma EndOfRun(start: Db, r: Range, internals: seq<TxnId>, externals: seq<TxnId>, exact: seq<Step>, st: Stand,
                 matched: nat)
    requires StandsAt(start, r, internals, externals, exact, st) && ReviewCount(exact) == 0
    requires internals == PoolList(start, Internals(r)) && externals == PoolList(start, Externals(r))
    ensures RunSoFar(start, st.db, exact + st.steps, PoolList(start, Internals(r)), PoolList(start, Externals(r)))
    ensures !st.raised ==> CountsAreExact(start, st.db, r, ReportOf(start, r, matched, st).value)
  {
    hide Valid, ArePools, RunSoFar, ReviewCount, PoolList, Pool, MatchedNow, AwaitingNow, KeylessIn;
    Accounting(start, st.db, exact + st.steps, r, internals, externals);
    ReviewCountAppend(exact, st.steps);
  }

  /** MatchingOrchestrator.run. Its steps are the exact pairs and then the steps of the later stages, each on
      the store it finds; the store at the end is where they lead, and the report is theirs. None when a
      stage raises; the caller then rolls the session back. */
  method RunMatching(s: Session, r: Range, settings: Settings)
    returns (report: Option<Report>, ghost pairs: E.Pairs)
    requires Valid(s.State())
    modifies s
    ensures RunsTo(old(s.State()), r, settings, pairs, s.State(), report)
    ensures report.Some? ==> CountsAreExact(old(s.State()), s.State(), r, report.value)
    ensures settings.mode == FAST ==>
              report.Some? && s.State() == ApplyAll(old(s.State()), E.PairSteps(pairs, Exact))
  {
    hide Valid, Candidates, StageRun, StageOk, IsPool, Claimed, ArePools, RunSoFar, ReviewCount, ExactlyThese,
         MatchedNow, AwaitingNow, AfterCross, AfterGroups, AfterFuzzy, AfterRules, ApplyAll, PoolList, KeylessIn,
         E.PairSteps, StandsAt, Pool, CountsAreExact, KeyedPairs;
    ghost var start := s.State();
    ghost var internals, externals;
    internals, externals := Pools(s, r);
    PoolIsUnclaimed(start, r, internals, externals);
    var internalTotal, externalTotal := |Pool(s.State(), Internals(r))|, |Pool(s.State(), Externals(r))|;
    var exactMatched, exactSkipped: nat;
    exactMatched, exactSkipped, pairs := ExactStages(s, r, settings.setBased, internals, externals);
    ghost var exact := E.PairSteps(pairs, Exact);
    ghost var st := Begin(s.State());
    RunBegins(start, r, internals, externals, exact, s.State());
    StagesKeep(s.State(), r, settings);
    if settings.mode == FAST {
      FastIsExactOnly(s.State(), r, settings);
    }
    var cross := CrossStage(s, r, settings, start, internals, externals, exact, st);
    st := AfterCross(st, r, settings);
    var group, raised := GroupStage(s, r, settings, start, internals, externals, exact, st);
    ReportsStay(st, r, settings);
    st := AfterGroups(st, r, settings);
    if raised {
      RaisedIsLast(st, r, settings);
      EndOfRun(start, r, internals, externals, exact, st, |pairs|);
      return None, pairs;
    }
    var fuzzy, internalsLeft, externalsLeft;
    fuzzy, internalsLeft, externalsLeft, raised := FuzzyStage(s, r, settings, start, internals, externals, exact, st);
    ReportsStay(st, r, settings);
    st := AfterFuzzy(st, r, settings);
    if raised {
      RaisedIsLast(st, r, settings);
      EndOfRun(start, r, internals, externals, exact, st, |pairs|);
      return None, pairs;
    }
    var rule: Option<RuleMatching.Outcome>;
    rule, raised := RuleBasedStage(s, r, settings, start, internals, externals, exact, st);
    ReportsStay(st, r, settings);
    st := AfterRules(st, r, settings);
    EndOfRun(start, r, internals, externals, exact, st, |pairs|);
    if raised {
      return None, pairs;
    }
    var remaining := |Pool(s.State(), Externals(r))|;
    var pendingReview := fuzzy.review + (if rule.Some? then rule.value.review else 0);
    report := Some(Report(internalTotal, externalTotal, exactMatched, exactSkipped, internalsLeft, externalsLeft,
                          cross, group, fuzzy, rule, remaining, pendingReview,
                          externalTotal - remaining - pendingReview));
  }
}

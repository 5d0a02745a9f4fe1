/** What a matching run does (src/recon/matching/orchestrator.py), stage by stage, as functions of the store
    each stage finds; and that only what a stage reads of the store matters, so that a run with the
    set-based exact stage and one without it do the same. */
module RunSpec {
  import opened Ledger
  import opened LedgerInvariant
  import opened Repository
  import opened Stages
  import opened FxConvert
  import opened RunAccounting
  import E = ExactMatching
  import Cross = CrossCurrency
  import GroupMatching
  import GroupStrategy
  import FuzzyMatching
  import FuzzyStrategy
  import RuleMatching
  import RuleStrategy
  import SqlEquivalence
  import Blocking

  datatype Mode = FAST | FULL

  datatype RuleStage = RuleStage(registry: RuleMatching.Registry, group: GroupMatching.Config, fxTolerance: real)

  const MAX_DAYS_APART := 3

  datatype Settings = Settings(
    blocking: Blocking.Config,
    score: FuzzyMatching.Scorer,
    threshold: real,
    setBased: bool,
    mode: Mode,
    rules: Option<RuleStage>,
    quotes: Option<Quotes>)

  predicate WithRules(settings: Settings) {
    settings.mode == FULL && settings.rules.Some?
  }

  const NO_QUOTES: Quotes := (currency, day) => None

  function QuotesOf(settings: Settings): Quotes {
    if settings.quotes.Some? then settings.quotes.value else NO_QUOTES
  }

  function CrossConfig(rules: RuleStage): Cross.Config {
    Cross.Config(rules.fxTolerance, MAX_DAYS_APART)
  }

  function RuleConfig(settings: Settings, rules: RuleStage): RuleMatching.Config {
    RuleMatching.Config(settings.blocking, rules.registry, settings.threshold)
  }

  // ------------------------------------------------------------------- the stages after the exact one

  /** How far a run has got: the store, the steps taken, and what the stages have reported. */
  datatype Stand = Stand(
    db: Db,
    steps: seq<Step>,
    cross: Option<Cross.Outcome>,
    group: Option<GroupMatching.Counts>,
    fuzzy: FuzzyStrategy.Outcome,
    rule: Option<RuleMatching.Outcome>,
    internalsLeft: nat,
    externalsLeft: nat,
    raised: bool)

  function Begin(db: Db): Stand {
    Stand(db, [], None, None, FuzzyStrategy.Outcome(0, 0, 0), None, 0, 0, false)
  }

  function Take(st: Stand, more: seq<Step>): Stand {
    st.(db := ApplyAll(st.db, more), steps := st.steps + more)
  }

  /** Cross-currency pairs, when there are rules and rates. */
  ghost function AfterCross(st: Stand, r: Range, settings: Settings): Stand {
    if st.raised || !WithRules(settings) || settings.quotes == None then st
    else
      var ints, exts := PoolList(st.db, Internals(r)), PoolList(st.db, Externals(r));
      var (pairs, outcome) := Cross.CrossPairs(CrossConfig(settings.rules.value), settings.quotes.value, st.db.txns,
                                               RejectedRows(st.db, ints), {}, ints, exts);
      Take(st, Cross.CrossSteps(pairs)).(cross := Some(outcome))
  }

  /** Groups, when there are rules. */
  ghost function AfterGroups(st: Stand, r: Range, settings: Settings): Stand {
    if st.raised || !WithRules(settings) then st
    else
      var ints, exts := PoolList(st.db, Internals(r)), PoolList(st.db, Externals(r));
      var p := GroupMatching.TwoPasses(settings.rules.value.group, QuotesOf(settings), st.db.txns,
                                       RejectedRows(st.db, ints), {}, ints, exts);
      Take(st, GroupStrategy.GroupSteps(p.groups)).(group := if p.raised then None else Some(p.counts),
                                                    raised := p.raised)
  }

  /** Fuzzy matching in FULL mode; the sizes of its pools are reported in either mode. */
  ghost function AfterFuzzy(st: Stand, r: Range, settings: Settings): Stand {
    if st.raised then st
    else
      var ints, exts := PoolList(st.db, Internals(r)), PoolList(st.db, Externals(r));
      var sized := st.(internalsLeft := |ints|, externalsLeft := |exts|);
      if settings.mode == FAST then sized
      else if !Blocking.Usable(settings.blocking) then sized.(raised := ints != [] || exts != [])
      else
        var chosen := FuzzyMatching.Chosen(settings.blocking, settings.score, st.db.txns, RejectedRows(st.db, ints),
                                           ints, exts);
        Take(sized, FuzzyMatching.FuzzySteps(chosen)).(fuzzy := FuzzyStrategy.Tally(|chosen|, chosen))
  }

  /** Rules, when there are any. */
  ghost function AfterRules(st: Stand, r: Range, settings: Settings): Stand {
    if st.raised || !WithRules(settings) then st
    else
      var ints, exts := PoolList(st.db, Internals(r)), PoolList(st.db, Externals(r));
      if !Blocking.Usable(settings.blocking) then
        if ints == [] && exts == [] then st.(rule := Some(RuleMatching.NOTHING)) else st.(raised := true)
      else
        var (made, outcome) := RuleMatching.RulePairs(RuleConfig(settings, settings.rules.value), st.db.txns,
                                                      RejectedRows(st.db, ints), {}, ints, exts);
        Take(st, RuleStrategy.RuleSteps(made)).(rule := Some(outcome))
  }

  /** All stages after the exact one, on the store it leaves. */
  ghost function Later(db: Db, r: Range, settings: Settings): Stand {
    AfterRules(AfterFuzzy(AfterGroups(AfterCross(Begin(db), r, settings), r, settings), r, settings), r, settings)
  }

  // ------------------------------------------------------------------- the report

  datatype Report = Report(
    internalTotal: nat,
    externalTotal: nat,
    exactMatched: nat,
    exactSkipped: nat,
    internalsBeforeFuzzy: nat,
    externalsBeforeFuzzy: nat,
    cross: Option<Cross.Outcome>,
    group: Option<GroupMatching.Counts>,
    fuzzy: FuzzyStrategy.Outcome,
    rule: Option<RuleMatching.Outcome>,
    remaining: nat,
    pendingReview: nat,
    externalsMatched: int)

  function PendingOf(st: Stand): nat {
    st.fuzzy.review + (if st.rule.Some? then st.rule.value.review else 0)
  }

  /** The rows without a usable key among both pools. */
  ghost function KeylessIn(db: Db, r: Range): nat {
    E.Keyless(db.txns, PoolList(db, Internals(r))) + E.Keyless(db.txns, PoolList(db, Externals(r)))
  }

  /** The report of a run that began at start, paired exactly `matched` keys and then went on to st; None when
      a stage raised. */
  ghost function ReportOf(start: Db, r: Range, matched: nat, st: Stand): Option<Report> {
    if st.raised then None
    else
      var total, remaining := |Pool(start, Externals(r))|, |Pool(st.db, Externals(r))|;
      Some(Report(|Pool(start, Internals(r))|, total, matched, KeylessIn(start, r), st.internalsLeft, st.externalsLeft,
                  st.cross, st.group, st.fuzzy, st.rule, remaining, PendingOf(st), total - remaining - PendingOf(st)))
  }

  // ------------------------------------------------------------------- what a stage reads

  /** The two stores hold the same transactions, the same are claimed, and the same pairings are rejected;
      the rows and claims may have been written in another order. */
  ghost predicate SameView(a: Db, b: Db) {
    && a.txns == b.txns
    && (forall t: TxnId :: Claimed(a, t) <==> Claimed(b, t))
    && (forall i: TxnId, e: TxnId :: RejectedPair(a, i, e) <==> RejectedPair(b, i, e))
  }

  lemma SamePoolList(a: Db, b: Db, q: Query)
    requires SameView(a, b)
    ensures PoolList(a, q) == PoolList(b, q) && Pool(a, q) == Pool(b, q)
    ensures RejectedRows(a, PoolList(a, q)) == RejectedRows(b, PoolList(b, q))
  {
    hide Claimed, RejectedPair, Before;
    assert Pool(a, q) == Pool(b, q);
    PoolListIs(b, q, PoolList(a, q));
    var ids := PoolList(a, q);
    forall p ensures p in RejectedRows(a, ids) <==> p in RejectedRows(b, ids) {
      assert p == (p.0, p.1);
    }
  }

  /** A step a stage writes. */
  predicate Writes(s: Step) {
    (s.Pair? && s.status != Rejected) || s.Group?
  }

  lemma StepKeepsView(a: Db, b: Db, s: Step)
    requires SameView(a, b) && Writes(s)
    ensures SameView(Apply(a, s), Apply(b, s))
  {
    hide Claimed, RejectedPair;
    forall t: TxnId ensures Claimed(Apply(a, s), t) <==> Claimed(Apply(b, s), t) {
      if s.Pair? {
        PairClaims(a, s.internal, s.external, s.kind, s.status, t);
        PairClaims(b, s.internal, s.external, s.kind, s.status, t);
      } else {
        GroupClaims(a, s.kind, s.single, s.members, t);
        GroupClaims(b, s.kind, s.single, s.members, t);
      }
    }
    forall i: TxnId, e: TxnId ensures RejectedPair(Apply(a, s), i, e) <==> RejectedPair(Apply(b, s), i, e) {
      WritesNoRejection(a, s, i, e);
      WritesNoRejection(b, s, i, e);
    }
  }

  lemma WritesNoRejection(db: Db, s: Step, i: TxnId, e: TxnId)
    requires Writes(s)
    ensures RejectedPair(Apply(db, s), i, e) <==> RejectedPair(db, i, e)
  {
    if s.Group? {
      GroupShape(db, s.kind, s.single, s.members);
    }
    hide WithGroup;
    var after := Apply(db, s);
    assert db.results <= after.results;
    assert forall r :: |db.results| <= r < |after.results| ==> after.results[r].status != Rejected;
    if RejectedPair(db, i, e) {
      var r :| 0 <= r < |db.results| && db.results[r].status == Rejected
               && db.results[r].internal == i && db.results[r].external == e;
      assert after.results[r] == db.results[r];
    }
  }

  lemma {:induction false} StepsKeepView(a: Db, b: Db, steps: seq<Step>)
    requires SameView(a, b) && forall s :: s in steps ==> Writes(s)
    ensures SameView(ApplyAll(a, steps), ApplyAll(b, steps))
    decreases |steps|
  {
    hide SameView, Apply, Writes;
    if steps != [] {
      var front, s := steps[..|steps| - 1], steps[|steps| - 1];
      assert s in steps && forall x :: x in front ==> x in steps;
      StepsKeepView(a, b, front);
      StepKeepsView(ApplyAll(a, front), ApplyAll(b, front), s);
    }
  }

  /** The two runs stand at the same point, up to the order of rows. */
  ghost predicate SameStand(a: Stand, b: Stand) {
    SameView(a.db, b.db) && a.(db := b.db) == b
  }

  lemma TakeKeepsStand(a: Stand, b: Stand, more: seq<Step>)
    requires SameStand(a, b) && forall s :: s in more ==> Writes(s)
    ensures SameStand(Take(a, more), Take(b, more))
  {
    hide SameView;
    StepsKeepView(a.db, b.db, more);
  }

  lemma CrossKeepsStand(a: Stand, b: Stand, r: Range, settings: Settings)
    requires SameStand(a, b)
    ensures SameStand(AfterCross(a, r, settings), AfterCross(b, r, settings))
  {
    hide SameView, PoolList, RejectedRows, Cross.CrossPairs, IsPool;
    if !a.raised && WithRules(settings) && settings.quotes.Some? {
      SamePoolList(a.db, b.db, Internals(r));
      SamePoolList(a.db, b.db, Externals(r));
      SameTxns(a.db, b.db);
      var ints, exts := PoolList(a.db, Internals(r)), PoolList(a.db, Externals(r));
      PoolListKnown(a.db, Internals(r));
      PoolListKnown(a.db, Externals(r));
      var pairs := Cross.CrossPairs(CrossConfig(settings.rules.value), settings.quotes.value, a.db.txns,
                                    RejectedRows(a.db, ints), {}, ints, exts).0;
      TakeKeepsStand(a, b, Cross.CrossSteps(pairs));
    }
  }

  lemma SameTxns(a: Db, b: Db)
    requires SameView(a, b)
    ensures a.txns == b.txns
  {
  }

  lemma PoolListKnown(db: Db, q: Query)
    ensures forall t :: t in PoolList(db, q) ==> t in db.txns
  {
  }

  lemma GroupsKeepStand(a: Stand, b: Stand, r: Range, settings: Settings)
    requires SameStand(a, b)
    ensures SameStand(AfterGroups(a, r, settings), AfterGroups(b, r, settings))
  {
    hide SameView, PoolList, RejectedRows, GroupMatching.TwoPasses, IsPool;
    if !a.raised && WithRules(settings) {
      SamePoolList(a.db, b.db, Internals(r));
      SamePoolList(a.db, b.db, Externals(r));
      SameTxns(a.db, b.db);
      var ints, exts := PoolList(a.db, Internals(r)), PoolList(a.db, Externals(r));
      var p := GroupMatching.TwoPasses(settings.rules.value.group, QuotesOf(settings), a.db.txns,
                                       RejectedRows(a.db, ints), {}, ints, exts);
      TakeKeepsStand(a, b, GroupStrategy.GroupSteps(p.groups));
    }
  }

  lemma FuzzyKeepsStand(a: Stand, b: Stand, r: Range, settings: Settings)
    requires SameStand(a, b)
    ensures SameStand(AfterFuzzy(a, r, settings), AfterFuzzy(b, r, settings))
  {
    hide SameView, PoolList, RejectedRows, FuzzyMatching.Chosen, IsPool, FuzzyStrategy.Tally;
    if !a.raised {
      SamePoolList(a.db, b.db, Internals(r));
      SamePoolList(a.db, b.db, Externals(r));
      SameTxns(a.db, b.db);
      var ints, exts := PoolList(a.db, Internals(r)), PoolList(a.db, Externals(r));
      if settings.mode == FULL && Blocking.Usable(settings.blocking) {
        var chosen := FuzzyMatching.Chosen(settings.blocking, settings.score, a.db.txns, RejectedRows(a.db, ints),
                                           ints, exts);
        PoolListDistinct(a.db, Externals(r));
        FuzzyMatching.ChoicesAreApart(settings.blocking, settings.score, a.db.txns, RejectedRows(a.db, ints), ints,
                                      exts, |exts|);
        assert exts[..|exts|] == exts;
        FuzzyWrites(chosen);
        TakeKeepsStand(a.(internalsLeft := |ints|, externalsLeft := |exts|),
                       b.(internalsLeft := |ints|, externalsLeft := |exts|),
                       FuzzyMatching.FuzzySteps(chosen));
      }
    }
  }

  lemma PoolListDistinct(db: Db, q: Query)
    ensures Distinct(PoolList(db, q))
  {
    PoolIsDistinct(db, q, PoolList(db, q));
  }

  lemma FuzzyWrites(chosen: seq<FuzzyMatching.Choice>)
    requires forall c :: c in chosen ==> c.status == AutoMatched || c.status == PendingReview
    ensures forall s :: s in FuzzyMatching.FuzzySteps(chosen) ==> Writes(s)
  {
    assert forall k :: 0 <= k < |chosen| ==> chosen[k] in chosen;
  }

  lemma RulesKeepStand(a: Stand, b: Stand, r: Range, settings: Settings)
    requires SameStand(a, b)
    ensures SameStand(AfterRules(a, r, settings), AfterRules(b, r, settings))
  {
    hide SameView, PoolList, RejectedRows, RuleMatching.RulePairs, IsPool;
    if !a.raised && WithRules(settings) {
      SamePoolList(a.db, b.db, Internals(r));
      SamePoolList(a.db, b.db, Externals(r));
      SameTxns(a.db, b.db);
      var ints, exts := PoolList(a.db, Internals(r)), PoolList(a.db, Externals(r));
      if Blocking.Usable(settings.blocking) {
        var config := RuleConfig(settings, settings.rules.value);
        var made := RuleMatching.RulePairs(config, a.db.txns, RejectedRows(a.db, ints), {}, ints, exts).0;
        RuleWrites(config, a.db.txns, RejectedRows(a.db, ints), ints, exts);
        TakeKeepsStand(a, b, RuleStrategy.RuleSteps(made));
      }
    }
  }

  lemma {:induction false} RuleWrites(config: RuleMatching.Config, txns: map<TxnId, Txn>,
                                      rejected: set<(TxnId, TxnId)>, internals: seq<TxnId>, externals: seq<TxnId>)
    requires Blocking.Usable(config.blocking)
    ensures var made := RuleMatching.RulePairs(config, txns, rejected, {}, internals, externals).0;
            forall c :: c in made ==> c.status == AutoMatched || c.status == PendingReview
    decreases externals
  {
    hide Blocking.Union, FuzzyMatching.Internals, FuzzyMatching.StillAvailable, FuzzyMatching.Offered,
         RuleMatching.Hits, RuleMatching.Truncated;
    if externals != [] {
      RuleWrites(config, txns, rejected, internals, externals[..|externals| - 1]);
    }
  }

  /** Stores that look the same are led to the same end, by the same steps and with the same reports. */
  lemma LaterKeepsView(a: Db, b: Db, r: Range, settings: Settings)
    requires SameView(a, b)
    ensures SameStand(Later(a, r, settings), Later(b, r, settings))
  {
    hide SameStand, AfterCross, AfterGroups, AfterFuzzy, AfterRules;
    SameBegin(a, b);
    CrossKeepsStand(Begin(a), Begin(b), r, settings);
    var a1, b1 := AfterCross(Begin(a), r, settings), AfterCross(Begin(b), r, settings);
    GroupsKeepStand(a1, b1, r, settings);
    var a2, b2 := AfterGroups(a1, r, settings), AfterGroups(b1, r, settings);
    FuzzyKeepsStand(a2, b2, r, settings);
    RulesKeepStand(AfterFuzzy(a2, r, settings), AfterFuzzy(b2, r, settings), r, settings);
  }

  lemma SameBegin(a: Db, b: Db)
    requires SameView(a, b)
    ensures SameStand(Begin(a), Begin(b))
  {
  }

  // ------------------------------------------------------------------- the exact pairs in any order

  /** The pairs of the keyed strategy alone. */
  ghost function KeyedPairs(start: Db, r: Range): E.Pairs {
    var ints, exts := PoolList(start, Internals(r)), PoolList(start, Externals(r));
    E.ExactPairs(start.txns, RejectedRows(start, ints), {}, ints, exts)
  }

  /** The given pairs are, in some order and each once, those of the keyed strategy alone. */
  ghost predicate ExactlyThese(start: Db, r: Range, pairs: E.Pairs) {
    Distinct(pairs) && ToSet(pairs) == ToSet(KeyedPairs(start, r))
  }

  ghost predicate Side(pairs: set<(TxnId, TxnId)>, t: TxnId) {
    exists p :: p in pairs && (p.0 == t || p.1 == t)
  }

  /** Of the transactions of `before`, those on a side are MATCHED and the others as they were. */
  ghost predicate Marked(before: map<TxnId, Txn>, after: map<TxnId, Txn>, pairs: set<(TxnId, TxnId)>) {
    && after.Keys == before.Keys
    && forall t :: t in before ==> after[t] == if Side(pairs, t) then before[t].(status := Matched) else before[t]
  }

  lemma MarkOne(before: map<TxnId, Txn>, db: Db, front: E.Pairs, p: (TxnId, TxnId))
    requires Marked(before, db.txns, ToSet(front))
    ensures Marked(before, Apply(db, Pair(p.0, p.1, Exact, AutoMatched)).txns, ToSet(front + [p]))
  {
    hide Side;
    SideMore(front, p);
  }

  lemma MarkNone(txns: map<TxnId, Txn>)
    ensures Marked(txns, txns, ToSet([])) && E.PairSteps([], Exact) == []
  {
  }

  lemma PairStepsMore(front: E.Pairs, p: (TxnId, TxnId))
    ensures E.PairSteps(front + [p], Exact) == E.PairSteps(front, Exact) + [Pair(p.0, p.1, Exact, AutoMatched)]
  {
  }

  /** Writing pairs marks exactly their sides. */
  lemma {:induction false} PairsMark(start: Db, pairs: E.Pairs)
    ensures Marked(start.txns, ApplyAll(start, E.PairSteps(pairs, Exact)).txns, ToSet(pairs))
    decreases |pairs|
  {
    hide Marked, E.PairSteps, Side, ToSet, Apply;
    if pairs == [] {
      MarkNone(start.txns);
    } else {
      var front, p := pairs[..|pairs| - 1], pairs[|pairs| - 1];
      assert pairs == front + [p];
      PairsMark(start, front);
      PairStepsMore(front, p);
      OneMore(start, E.PairSteps(front, Exact), Pair(p.0, p.1, Exact, AutoMatched));
      MarkOne(start.txns, ApplyAll(start, E.PairSteps(front, Exact)), front, p);
    }
  }

  lemma SideMore(front: E.Pairs, p: (TxnId, TxnId))
    ensures forall t :: Side(ToSet(front + [p]), t) <==> Side(ToSet(front), t) || t == p.0 || t == p.1
  {
    assert forall q :: q in front + [p] <==> q in front || q == p;
    assert p in ToSet(front + [p]);
  }

  lemma SidesAreTouched(pairs: E.Pairs, t: TxnId)
    ensures Side(ToSet(pairs), t) <==> t in TouchedBy(E.PairSteps(pairs, Exact))
  {
    SqlEquivalence.PairsTouch(pairs, t);
  }

  /** The same pairs written in any order leave stores that look the same. */
  lemma OrderDoesNotMatter(start: Db, a: E.Pairs, b: E.Pairs, internals: seq<TxnId>, externals: seq<TxnId>)
    requires ToSet(a) == ToSet(b)
    requires RunSoFar(start, ApplyAll(start, E.PairSteps(a, Exact)), E.PairSteps(a, Exact), internals, externals)
    requires RunSoFar(start, ApplyAll(start, E.PairSteps(b, Exact)), E.PairSteps(b, Exact), internals, externals)
    ensures SameView(ApplyAll(start, E.PairSteps(a, Exact)), ApplyAll(start, E.PairSteps(b, Exact)))
  {
    hide Valid, Candidates, StageRun, Claimed, RejectedPair, SameRecords, TouchedBy, E.PairSteps, Side, Free;
    var dbA, dbB := ApplyAll(start, E.PairSteps(a, Exact)), ApplyAll(start, E.PairSteps(b, Exact));
    hide ApplyAll;
    PairsMark(start, a);
    PairsMark(start, b);
    RunTouches(start, dbA, E.PairSteps(a, Exact), internals, externals);
    RunTouches(start, dbB, E.PairSteps(b, Exact), internals, externals);
    forall t: TxnId ensures Claimed(dbA, t) <==> Claimed(dbB, t) {
      SidesAreTouched(a, t);
      SidesAreTouched(b, t);
    }
  }

  // ------------------------------------------------------------------- the run

  /** What a run from `start` comes to: it writes the exact pairs, in some order and, without the set-based
      stage, in the order of the keyed strategy; then the later stages take their steps, each on the store it
      finds; the store is where all these enabled steps lead; and the report is that of the stages. */
  ghost predicate RunsTo(start: Db, r: Range, settings: Settings, pairs: E.Pairs, db: Db, report: Option<Report>) {
    var exact := E.PairSteps(pairs, Exact);
    var later := Later(ApplyAll(start, exact), r, settings);
    && ExactlyThese(start, r, pairs)
    && (!settings.setBased ==> pairs == KeyedPairs(start, r))
    && db == later.db
    && RunSoFar(start, db, exact + later.steps, PoolList(start, Internals(r)), PoolList(start, Externals(r)))
    && report == ReportOf(start, r, |pairs|, later)
  }

  lemma PoolListsAreCandidates(db: Db, r: Range)
    ensures Candidates(db, PoolList(db, Internals(r))) && Candidates(db, PoolList(db, Externals(r)))
  {
    hide IsPool, PoolList, Candidates;
    PoolIsCandidates(db, Internals(r), PoolList(db, Internals(r)));
    PoolIsCandidates(db, Externals(r), PoolList(db, Externals(r)));
  }

  lemma ExactPart(start: Db, r: Range, settings: Settings, pairs: E.Pairs, db: Db, report: Option<Report>)
    requires Valid(start) && RunsTo(start, r, settings, pairs, db, report)
    ensures RunSoFar(start, ApplyAll(start, E.PairSteps(pairs, Exact)), E.PairSteps(pairs, Exact),
                     PoolList(start, Internals(r)), PoolList(start, Externals(r)))
  {
    hide RunSoFar, Valid, Candidates, PoolList, Later, KeyedPairs, ExactlyThese, ReportOf, E.PairSteps, ApplyAll;
    PoolListsAreCandidates(start, r);
    var exact := E.PairSteps(pairs, Exact);
    RunBefore(start, db, exact, Later(ApplyAll(start, exact), r, settings).steps,
              PoolList(start, Internals(r)), PoolList(start, Externals(r)));
  }

  /** A run with the set-based stage and a run without it: the later stages take the same steps, the stores at
      the end look the same (every transaction, every claim, every rejection), and the whole report is the same. */
  lemma SetBasedMakesNoDifference(start: Db, r: Range, settings: Settings, other: Settings,
                                  a: E.Pairs, dbA: Db, reportA: Option<Report>,
                                  b: E.Pairs, dbB: Db, reportB: Option<Report>)
    requires Valid(start) && other == settings.(setBased := !settings.setBased)
    requires RunsTo(start, r, settings, a, dbA, reportA) && RunsTo(start, r, other, b, dbB, reportB)
    ensures SameView(dbA, dbB) && reportA == reportB && ToSet(a) == ToSet(b)
    ensures Later(ApplyAll(start, E.PairSteps(a, Exact)), r, settings).steps
            == Later(ApplyAll(start, E.PairSteps(b, Exact)), r, other).steps
  {
    hide RunSoFar, SameView, ApplyAll, Later, PoolList, Pool, KeylessIn, KeyedPairs, Valid, E.PairSteps;
    var midA, midB := ApplyAll(start, E.PairSteps(a, Exact)), ApplyAll(start, E.PairSteps(b, Exact));
    ExactPart(start, r, settings, a, dbA, reportA);
    ExactPart(start, r, other, b, dbB, reportB);
    OrderDoesNotMatter(start, a, b, PoolList(start, Internals(r)), PoolList(start, Externals(r)));
    LaterKeepsView(midA, midB, r, settings);
    LaterIgnoresSetBased(midB, r, settings, other);
    SamePoolList(dbA, dbB, Externals(r));
    DistinctCount(a);
    DistinctCount(b);
  }

  lemma LaterIgnoresSetBased(db: Db, r: Range, settings: Settings, other: Settings)
    requires other == settings.(setBased := !settings.setBased)
    ensures Later(db, r, other) == Later(db, r, settings)
  {
    hide PoolList, Cross.CrossPairs, GroupMatching.TwoPasses, FuzzyMatching.Chosen, RuleMatching.RulePairs,
         RejectedRows, ApplyAll;
    var st := Begin(db);
    assert AfterCross(st, r, other) == AfterCross(st, r, settings);
    st := AfterCross(st, r, settings);
    assert AfterGroups(st, r, other) == AfterGroups(st, r, settings);
    st := AfterGroups(st, r, settings);
    assert AfterFuzzy(st, r, other) == AfterFuzzy(st, r, settings);
    st := AfterFuzzy(st, r, settings);
    assert AfterRules(st, r, other) == AfterRules(st, r, settings);
  }
}

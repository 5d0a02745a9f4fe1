/** What a matching run that returns a report has done (src/recon/matching/orchestrator.py): which stages took part,
    in which order, on which store and with which settings; and what every step of it rests on, in terms of the
    transactions as they were when the run began. */
module RunMeaning {
  import opened Ledger
  import opened Repository
  import opened Stages
  import opened FxConvert
  import opened RunAccounting
  import opened RunSpec
  import E = ExactMatching
  import Cross = CrossCurrency
  import GroupMatching
  import GroupStrategy
  import FuzzyMatching
  import FuzzyStrategy
  import RuleMatching
  import RuleStrategy
  import Blocking

  // ------------------------------------------------------------------- stage by stage

  /** The pools of a store, as lists. */
  ghost function Ints(db: Db, r: Range): seq<TxnId> {
    PoolList(db, Query(r.bank, Internal, r.from, r.to))
  }

  ghost function Exts(db: Db, r: Range): seq<TxnId> {
    PoolList(db, Query(r.bank, External, r.from, r.to))
  }

  /** What the later stages did, beginning with the store the exact pairs led to. */
  datatype Parts = Parts(
    cross: E.Pairs,
    groups: seq<GroupMatching.Grouped>,
    fuzzy: seq<FuzzyMatching.Choice>,
    rules: seq<FuzzyMatching.Choice>)

  function StepsOf(p: Parts): seq<Step> {
    Cross.CrossSteps(p.cross) + GroupStrategy.GroupSteps(p.groups) + FuzzyMatching.FuzzySteps(p.fuzzy)
    + RuleStrategy.RuleSteps(p.rules)
  }

  /** Cross-currency matching takes part in a FULL run with rules and rates; at most three days apart. */
  ghost predicate CrossPart(db: Db, r: Range, settings: Settings, cross: E.Pairs, reported: Option<Cross.Outcome>) {
    if settings.mode == FULL && settings.rules.Some? && settings.quotes.Some? then
      var config := Cross.Config(settings.rules.value.fxTolerance, 3);
      && reported.Some?
      && (cross, reported.value)
         == Cross.CrossPairs(config, settings.quotes.value, db.txns, RejectedRows(db, Ints(db, r)), {},
                             Ints(db, r), Exts(db, r))
    else cross == [] && reported == None
  }

  /** Group matching takes part in a FULL run with rules, with no rates at all when there is no FX service. */
  ghost predicate GroupPart(db: Db, r: Range, settings: Settings, groups: seq<GroupMatching.Grouped>,
                            reported: Option<GroupMatching.Counts>) {
    if settings.mode == FULL && settings.rules.Some? then
      var quotes := QuotesOf(settings);
      var p := GroupMatching.TwoPasses(settings.rules.value.group, quotes, db.txns, RejectedRows(db, Ints(db, r)), {},
                                       Ints(db, r), Exts(db, r));
      && (settings.quotes.Some? ==> quotes == settings.quotes.value)
      && (settings.quotes == None ==> forall currency: string, day: int :: quotes(currency, day) == None)
      && !p.raised && groups == p.groups && reported == Some(p.counts)
    else groups == [] && reported == None
  }

  /** Fuzzy matching takes part in every FULL run; its counters count decisions. */
  ghost predicate FuzzyPart(db: Db, r: Range, settings: Settings, fuzzy: seq<FuzzyMatching.Choice>,
                            reported: FuzzyStrategy.Outcome) {
    if settings.mode == FULL && (Ints(db, r) != [] || Exts(db, r) != []) then
      && Blocking.Usable(settings.blocking)
      && fuzzy == FuzzyMatching.Chosen(settings.blocking, settings.score, db.txns, RejectedRows(db, Ints(db, r)),
                                       Ints(db, r), Exts(db, r))
      && reported.auto == FuzzyMatching.CountOf(settings.score, fuzzy, FuzzyMatching.AutoMatch)
      && reported.review == FuzzyMatching.CountOf(settings.score, fuzzy, FuzzyMatching.Review)
      && reported.conflicts == 0
    else fuzzy == [] && reported == FuzzyStrategy.Outcome(0, 0, 0)
  }

  /** Rules take part in a FULL run with rules. */
  ghost predicate RulePart(db: Db, r: Range, settings: Settings, rules: seq<FuzzyMatching.Choice>,
                           reported: Option<RuleMatching.Outcome>) {
    if settings.mode == FULL && settings.rules.Some? then
      && reported.Some?
      && if Ints(db, r) != [] || Exts(db, r) != [] then
           var config := RuleMatching.Config(settings.blocking, settings.rules.value.registry, settings.threshold);
           && Blocking.Usable(settings.blocking)
           && (rules, reported.value)
              == RuleMatching.RulePairs(config, db.txns, RejectedRows(db, Ints(db, r)), {}, Ints(db, r), Exts(db, r))
         else rules == [] && reported.value == RuleMatching.Outcome(0, 0, 0, 0)
    else rules == [] && reported == None
  }

  /** The stages in their order, each on the store the one before leaves, and the report. */
  ghost predicate StageByStage(start: Db, mid: Db, r: Range, settings: Settings, p: Parts, db: Db, report: Report) {
    var afterCross := ApplyAll(mid, Cross.CrossSteps(p.cross));
    var afterGroups := ApplyAll(afterCross, GroupStrategy.GroupSteps(p.groups));
    var afterFuzzy := ApplyAll(afterGroups, FuzzyMatching.FuzzySteps(p.fuzzy));
    && db == ApplyAll(afterFuzzy, RuleStrategy.RuleSteps(p.rules))
    && CrossPart(mid, r, settings, p.cross, report.cross)
    && GroupPart(afterCross, r, settings, p.groups, report.group)
    && FuzzyPart(afterGroups, r, settings, p.fuzzy, report.fuzzy)
    && RulePart(afterFuzzy, r, settings, p.rules, report.rule)
    && report.internalTotal == |Ints(start, r)| && report.externalTotal == |Exts(start, r)|
    && report.internalsBeforeFuzzy == |Ints(afterGroups, r)| && report.externalsBeforeFuzzy == |Exts(afterGroups, r)|
    && report.remaining == |Exts(db, r)|
  }

  lemma CrossStageIs(db: Db, r: Range, settings: Settings) returns (cross: E.Pairs)
    ensures var after := AfterCross(Begin(db), r, settings);
            && CrossPart(db, r, settings, cross, after.cross)
            && after.db == ApplyAll(db, Cross.CrossSteps(cross)) && after.steps == Cross.CrossSteps(cross)
            && !after.raised && after.fuzzy == FuzzyStrategy.Outcome(0, 0, 0) && after.group == None
            && after.rule == None
  {
    hide PoolList, Cross.CrossPairs, RejectedRows, IsPool;
    cross := [];
    NoSteps(db);
    if settings.mode == FULL && settings.rules.Some? && settings.quotes.Some? {
      PoolListKnown(db, Query(r.bank, Internal, r.from, r.to));
      PoolListKnown(db, Query(r.bank, External, r.from, r.to));
      var config := Cross.Config(settings.rules.value.fxTolerance, 3);
      cross := Cross.CrossPairs(config, settings.quotes.value, db.txns, RejectedRows(db, Ints(db, r)), {},
                                Ints(db, r), Exts(db, r)).0;
      assert [] + Cross.CrossSteps(cross) == Cross.CrossSteps(cross);
    }
  }

  lemma GroupStageIs(st: Stand, r: Range, settings: Settings) returns (groups: seq<GroupMatching.Grouped>)
    requires !st.raised && st.group == None
    ensures var after := AfterGroups(st, r, settings);
            && (!after.raised ==> GroupPart(st.db, r, settings, groups, after.group))
            && after.db == ApplyAll(st.db, GroupStrategy.GroupSteps(groups))
            && after.steps == st.steps + GroupStrategy.GroupSteps(groups)
            && after.cross == st.cross && after.fuzzy == st.fuzzy && after.rule == st.rule
  {
    hide PoolList, GroupMatching.TwoPasses, RejectedRows, IsPool;
    groups := [];
    NoSteps(st.db);
    assert st.steps + [] == st.steps;
    if settings.mode == FULL && settings.rules.Some? {
      groups := GroupMatching.TwoPasses(settings.rules.value.group, QuotesOf(settings), st.db.txns,
                                        RejectedRows(st.db, Ints(st.db, r)), {}, Ints(st.db, r), Exts(st.db, r)).groups;
    }
  }

  lemma FuzzyStageIs(st: Stand, r: Range, settings: Settings) returns (fuzzy: seq<FuzzyMatching.Choice>)
    requires !st.raised && st.fuzzy == FuzzyStrategy.Outcome(0, 0, 0)
    ensures var after := AfterFuzzy(st, r, settings);
            && (!after.raised ==> FuzzyPart(st.db, r, settings, fuzzy, after.fuzzy))
            && (!after.raised ==> after.db == ApplyAll(st.db, FuzzyMatching.FuzzySteps(fuzzy)))
            && (!after.raised ==> after.steps == st.steps + FuzzyMatching.FuzzySteps(fuzzy))
            && after.cross == st.cross && after.group == st.group && after.rule == st.rule
            && after.internalsLeft == |Ints(st.db, r)| && after.externalsLeft == |Exts(st.db, r)|
  {
    hide PoolList, FuzzyMatching.Chosen, RejectedRows, IsPool, FuzzyStrategy.Tally;
    fuzzy := [];
    NoSteps(st.db);
    assert st.steps + [] == st.steps;
    NoTally();
    if settings.mode == FULL && Blocking.Usable(settings.blocking) {
      var rejected := RejectedRows(st.db, Ints(st.db, r));
      fuzzy := FuzzyMatching.Chosen(settings.blocking, settings.score, st.db.txns, rejected, Ints(st.db, r),
                                    Exts(st.db, r));
      FuzzyMatching.ChoicesAreAsDecided(settings.blocking, settings.score, st.db.txns, rejected, Ints(st.db, r),
                                        Exts(st.db, r));
      FuzzyStrategy.CountsByDecision(settings.score, |fuzzy|, fuzzy);
      TallyOfAll(fuzzy);
      NoneChosen(settings, st.db.txns, rejected, Ints(st.db, r), Exts(st.db, r));
    }
  }

  lemma NoTally()
    ensures FuzzyStrategy.Tally(0, []) == FuzzyStrategy.Outcome(0, 0, 0)
  {
  }

  lemma TallyOfAll(fuzzy: seq<FuzzyMatching.Choice>)
    ensures FuzzyStrategy.Tally(|fuzzy|, fuzzy).conflicts == 0
  {
  }

  lemma NoneChosen(settings: Settings, txns: map<TxnId, Txn>, rejected: set<(TxnId, TxnId)>, ints: seq<TxnId>,
                   exts: seq<TxnId>)
    requires Blocking.Usable(settings.blocking)
    ensures exts == [] ==>
              FuzzyMatching.Chosen(settings.blocking, settings.score, txns, rejected, ints, exts) == []
  {
  }

  lemma RuleStageIs(st: Stand, r: Range, settings: Settings) returns (rules: seq<FuzzyMatching.Choice>)
    requires !st.raised && st.rule == None
    ensures var after := AfterRules(st, r, settings);
            && (!after.raised ==> RulePart(st.db, r, settings, rules, after.rule))
            && (!after.raised ==> after.db == ApplyAll(st.db, RuleStrategy.RuleSteps(rules)))
            && (!after.raised ==> after.steps == st.steps + RuleStrategy.RuleSteps(rules))
            && after.cross == st.cross && after.group == st.group && after.fuzzy == st.fuzzy
            && after.internalsLeft == st.internalsLeft && after.externalsLeft == st.externalsLeft
  {
    hide PoolList, RuleMatching.RulePairs, RejectedRows, IsPool;
    rules := [];
    NoSteps(st.db);
    assert st.steps + [] == st.steps;
    if settings.mode == FULL && settings.rules.Some? && Blocking.Usable(settings.blocking) {
      var config := RuleMatching.Config(settings.blocking, settings.rules.value.registry, settings.threshold);
      rules := RuleMatching.RulePairs(config, st.db.txns, RejectedRows(st.db, Ints(st.db, r)), {}, Ints(st.db, r),
                                      Exts(st.db, r)).0;
      NoRulePairs(config, st.db.txns, RejectedRows(st.db, Ints(st.db, r)), Ints(st.db, r), Exts(st.db, r));
    }
  }

  lemma NoRulePairs(config: RuleMatching.Config, txns: map<TxnId, Txn>, rejected: set<(TxnId, TxnId)>,
                    ints: seq<TxnId>, exts: seq<TxnId>)
    requires Blocking.Usable(config.blocking)
    ensures exts == [] ==>
              RuleMatching.RulePairs(config, txns, rejected, {}, ints, exts) == ([], RuleMatching.Outcome(0, 0, 0, 0))
  {
  }

  /** A run that returns a report: after the exact pairs each later stage took part or not as the mode, the rules and
      the rates say, in the fixed order, on the pools then available, with the configured limits; its steps are
      theirs and so is the report. */
  lemma StagesOfARun(start: Db, r: Range, settings: Settings, pairs: E.Pairs, db: Db, report: Option<Report>)
    returns (p: Parts)
    requires RunsTo(start, r, settings, pairs, db, report) && report.Some?
    ensures var mid := ApplyAll(start, E.PairSteps(pairs, Exact));
            && StageByStage(start, mid, r, settings, p, db, report.value)
            && Later(mid, r, settings).steps == StepsOf(p)
            && (report.value.cross.Some? <==> settings.mode == FULL && settings.rules.Some? && settings.quotes.Some?)
            && (report.value.group.Some? <==> settings.mode == FULL && settings.rules.Some?)
            && (report.value.rule.Some? <==> settings.mode == FULL && settings.rules.Some?)
            && report.value.exactMatched == |pairs|
            && report.value.exactSkipped
               == E.Keyless(start.txns, Ints(start, r)) + E.Keyless(start.txns, Exts(start, r))
  {
    hide AfterCross, AfterGroups, AfterFuzzy, AfterRules, ApplyAll, RunSoFar, PoolList, Pool, E.PairSteps, CrossPart,
         GroupPart, FuzzyPart, RulePart, KeyedPairs, ExactlyThese;
    var mid := ApplyAll(start, E.PairSteps(pairs, Exact));
    var cross := CrossStageIs(mid, r, settings);
    var a := AfterCross(Begin(mid), r, settings);
    var groups := GroupStageIs(a, r, settings);
    var b := AfterGroups(a, r, settings);
    if b.raised {
      RaisedStays(b, r, settings);
      RaisedStays(AfterFuzzy(b, r, settings), r, settings);
    }
    var fuzzy := FuzzyStageIs(b, r, settings);
    var c := AfterFuzzy(b, r, settings);
    if c.raised {
      RaisedStays(c, r, settings);
    }
    var rules := RuleStageIs(c, r, settings);
    p := Parts(cross, groups, fuzzy, rules);
    PoolSizes(start, r);
    PoolSizes(db, r);
    PartsReported(mid, r, settings, p, report.value);
  }

  lemma PartsReported(mid: Db, r: Range, settings: Settings, p: Parts, report: Report)
    requires CrossPart(mid, r, settings, p.cross, report.cross)
    requires exists db :: GroupPart(db, r, settings, p.groups, report.group)
    requires exists db :: RulePart(db, r, settings, p.rules, report.rule)
    ensures report.cross.Some? <==> settings.mode == FULL && settings.rules.Some? && settings.quotes.Some?
    ensures report.group.Some? <==> settings.mode == FULL && settings.rules.Some?
    ensures report.rule.Some? <==> settings.mode == FULL && settings.rules.Some?
  {
    hide PoolList, Cross.CrossPairs, GroupMatching.TwoPasses, RuleMatching.RulePairs, RejectedRows;
  }

  lemma RaisedStays(st: Stand, r: Range, settings: Settings)
    requires st.raised
    ensures AfterFuzzy(st, r, settings).raised && AfterRules(st, r, settings).raised
  {
  }

  lemma PoolSizes(db: Db, r: Range)
    ensures |Pool(db, Internals(r))| == |Ints(db, r)| && |Pool(db, Externals(r))| == |Exts(db, r)|
  {
    hide PoolList, Pool;
    PoolIsDistinct(db, Internals(r), Ints(db, r));
    PoolIsDistinct(db, Externals(r), Exts(db, r));
    DistinctCount(Ints(db, r));
    DistinctCount(Exts(db, r));
  }

  lemma NoSteps(db: Db)
    ensures ApplyAll(db, []) == db && Cross.CrossSteps([]) == [] && GroupStrategy.GroupSteps([]) == []
    ensures FuzzyMatching.FuzzySteps([]) == [] && RuleStrategy.RuleSteps([]) == []
  {
  }
}

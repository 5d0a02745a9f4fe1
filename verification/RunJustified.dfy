/** What every step of a matching run rests on, said of the transactions as they were when the run began: whatever
    the stage, both sides were waiting in the pools of the run and nobody had rejected their pairing; and beyond
    that each kind of match has its own grounds. */
module RunJustified {
  import opened Ledger
  import opened LedgerInvariant
  import opened Repository
  import opened Stages
  import opened References
  import opened FxConvert
  import opened RunAccounting
  import opened RunSpec
  import opened RunMeaning
  import E = ExactMatching
  import ExactLaws
  import Cross = CrossCurrency
  import GroupMatching
  import GroupStrategy
  import GroupLaws
  import FuzzyMatching
  import FuzzyStrategy
  import RuleMatching
  import RuleStrategy
  import Blocking

  // ------------------------------------------------------------------- the grounds

  /** The transaction was in a pool of the run: of its bank and dates, of the given source, UNMATCHED and with no
      ACTIVE claim. */
  ghost predicate Waiting(start: Db, r: Range, t: TxnId, source: Source) {
    && t in start.txns
    && var txn := start.txns[t];
       && txn.source == source && txn.bank == r.bank && txn.status == Unmatched
       && (r.from.Some? ==> r.from.value <= txn.date) && (r.to.Some? ==> txn.date <= r.to.value)
       && forall c :: 0 <= c < |start.claims| && start.claims[c].active ==> start.claims[c].txn != t
  }

  ghost predicate NeverRejected(start: Db, i: TxnId, e: TxnId) {
    forall q :: 0 <= q < |start.results| && start.results[q].internal == i && start.results[q].external == e ==>
                  start.results[q].status != Rejected
  }

  predicate InCell(cell: int, x: int, width: int) {
    cell * width <= x < (cell + 1) * width
  }

  ghost predicate ShareCell(x: int, y: int, width: int) {
    exists cell :: InCell(cell, x, width) && InCell(cell, y, width)
  }

  /** Near enough to be compared: bank, currency and direction in common, and amount and date, or the beginning of
      the reference, or the beginning of the counterparty and the date. */
  ghost predicate Comparable(config: Blocking.Config, a: Txn, b: Txn) {
    && a.bank == b.bank && a.currency == b.currency && a.direction == b.direction
    && (|| (ShareCell(a.amount, b.amount, config.width) && ShareCell(a.date, b.date, config.window))
        || (a.reference != "" && b.reference != ""
            && Prefix(a.reference, config.referencePrefix) == Prefix(b.reference, config.referencePrefix))
        || (a.counterparty != "" && b.counterparty != "" && ShareCell(a.date, b.date, config.window)
            && Prefix(a.counterparty, config.partyPrefix) == Prefix(b.counterparty, config.partyPrefix)))
  }

  ghost predicate ExactGrounds(a: Txn, b: Txn, status: ResultStatus) {
    && status == AutoMatched
    && ExactLaws.Inked(a.reference) && a.reference == b.reference
    && a.amount == b.amount && a.currency == b.currency && a.direction == b.direction
  }

  ghost predicate CrossGrounds(settings: Settings, a: Txn, b: Txn, status: ResultStatus) {
    && settings.mode == FULL && settings.rules.Some? && settings.quotes.Some?
    && status == AutoMatched
    && b.reference != "" && a.reference == b.reference
    && a.currency != b.currency && a.direction == b.direction && -3 <= a.date - b.date <= 3
    && exists x, y :: WorthInr(settings.quotes.value, a, x) && WorthInr(settings.quotes.value, b, y)
                      && WithinPercent(x, y, settings.rules.value.fxTolerance)
  }

  ghost predicate FuzzyGrounds(settings: Settings, a: Txn, b: Txn, i: TxnId, e: TxnId, status: ResultStatus) {
    && settings.mode == FULL
    && Comparable(settings.blocking, a, b)
    && (if status == AutoMatched then settings.score(i, e).decision == FuzzyMatching.AutoMatch
        else status == PendingReview && settings.score(i, e).decision == FuzzyMatching.Review)
  }

  ghost predicate RuleGrounds(settings: Settings, a: Txn, b: Txn, i: TxnId, e: TxnId, status: ResultStatus) {
    && settings.mode == FULL && settings.rules.Some?
    && Comparable(settings.blocking, a, b)
    && var rated := settings.rules.value.registry(i, e);
       && rated.Some?
       && (exists m :: RuleMatching.Thousandths(rated.value, m)
                       && (status == AutoMatched <==> m as real > settings.threshold * 1000.0))
       && (status == AutoMatched || status == PendingReview)
  }

  ghost predicate MemberGrounds(config: GroupMatching.Config, a: Txn, b: Txn) {
    && a.direction == b.direction && -config.dateWindow <= b.date - a.date <= config.dateWindow
    && exists link :: GroupLaws.LinkedBy(config, a, b, link)
  }

  /** The step pairs what it may pair. */
  ghost predicate Justified(start: Db, r: Range, settings: Settings, s: Step) {
    match s
    case Pair(i, e, kind, status) =>
      && Waiting(start, r, i, Internal) && Waiting(start, r, e, External) && NeverRejected(start, i, e)
      && var a, b := start.txns[i], start.txns[e];
         (match kind
          case Exact => ExactGrounds(a, b, status)
          case CrossCurrency => CrossGrounds(settings, a, b, status)
          case Fuzzy => FuzzyGrounds(settings, a, b, i, e, status)
          case Rule => RuleGrounds(settings, a, b, i, e, status)
          case _ => false)
    case Group(kind, single, members) =>
      && settings.mode == FULL && settings.rules.Some?
      && var config := settings.rules.value.group;
         && 2 <= |members| && Distinct(members)
         && Waiting(start, r, single, if kind == Split then Internal else External)
         && (if kind == Split then |members| <= config.maxSplit else kind == Netted && |members| <= config.maxNetted)
         && forall m :: m in members ==>
              && Waiting(start, r, m, if kind == Split then External else Internal)
              && (if kind == Split then NeverRejected(start, single, m) else NeverRejected(start, m, single))
              && MemberGrounds(config, start.txns[single], start.txns[m])
    case _ => false
  }

  // ------------------------------------------------------------------- what all steps have in common

  lemma PooledIsWaiting(start: Db, r: Range, t: TxnId, source: Source)
    requires t in PoolList(start, Query(r.bank, source, r.from, r.to))
    ensures Waiting(start, r, t, source)
  {
    assert t in Pool(start, Query(r.bank, source, r.from, r.to));
  }

  lemma MadeMeansNeverRejected(start: Db, db: Db, steps: seq<Step>, r: Range, k: nat, i: TxnId, e: TxnId)
    requires Valid(start) && RunSoFar(start, db, steps, Ints(start, r), Exts(start, r)) && k < |steps|
    requires match steps[k]
             case Pair(x, y, kind, _) => kind != Manual && x == i && y == e
             case Group(kind, single, members) =>
               if kind == Split then single == i && e in members else single == e && i in members
             case _ => false
    ensures NeverRejected(start, i, e)
  {
    hide Valid, RunSoFar;
    if RejectedPair(start, i, e) {
      NoStageRepeatsARejection(start, db, steps, Ints(start, r), Exts(start, r), k, i, e);
    }
  }

  // ------------------------------------------------------------------- each kind of match

  lemma ExactIsJustified(start: Db, r: Range, pairs: E.Pairs, p: (TxnId, TxnId))
    requires ExactlyThese(start, r, pairs) && p in pairs
    ensures p.0 in start.txns && p.1 in start.txns
    ensures ExactGrounds(start.txns[p.0], start.txns[p.1], AutoMatched)
  {
    hide E.ExactPairs, PoolList, RejectedRows, ExactLaws.Inked, ExactLaws.Nearer;
    PoolListDistinct(start, Externals(r));
    assert p in ToSet(pairs);
    var k: nat :| k < |KeyedPairs(start, r)| && KeyedPairs(start, r)[k] == p;
    ExactLaws.ChosenIsClosest(start.txns, RejectedRows(start, PoolList(start, Internals(r))), {},
                              PoolList(start, Internals(r)), PoolList(start, Externals(r)), k);
  }

  lemma SameWorth(quotes: Quotes, a: Txn, b: Txn, v: int)
    requires b == a.(status := b.status)
    ensures WorthInr(quotes, a, v) <==> WorthInr(quotes, b, v)
  {
  }

  lemma CrossIsJustified(start: Db, db: Db, r: Range, settings: Settings, cross: E.Pairs,
                         reported: Option<Cross.Outcome>, p: (TxnId, TxnId))
    requires CrossPart(db, r, settings, cross, reported) && SameRecords(start.txns, db.txns) && p in cross
    ensures p.0 in start.txns && p.1 in start.txns
    ensures CrossGrounds(settings, start.txns[p.0], start.txns[p.1], AutoMatched)
  {
    hide Cross.CrossPairs, PoolList, RejectedRows, WorthInr, WithinPercent;
    var config, quotes := Cross.Config(settings.rules.value.fxTolerance, 3), settings.quotes.value;
    var ints, exts, rejected := Ints(db, r), Exts(db, r), RejectedRows(db, Ints(db, r));
    PoolListKnown(db, Internals(r));
    PoolListKnown(db, Externals(r));
    PoolListDistinct(db, Internals(r));
    PoolListDistinct(db, Externals(r));
    Cross.PairsAreAmong(config, quotes, db.txns, rejected, {}, ints, exts);
    var k: nat :| k < |exts| && exts[k] == p.1;
    assert p == (p.0, exts[k]);
    Cross.PairedIffSolePeer(config, quotes, db.txns, rejected, {}, ints, exts, k, p.0);
    var a, b := start.txns[p.0], start.txns[p.1];
    var x, y :| WorthInr(quotes, db.txns[p.0], x) && WorthInr(quotes, db.txns[p.1], y)
                && WithinPercent(x, y, config.tolerancePercent);
    SameWorth(quotes, a, db.txns[p.0], x);
    SameWorth(quotes, b, db.txns[p.1], y);
  }

  lemma SameLinks(config: GroupMatching.Config, a: Txn, b: Txn, a': Txn, b': Txn)
    requires a' == a.(status := a'.status) && b' == b.(status := b'.status)
    ensures forall link :: GroupLaws.LinkedBy(config, a, b, link) <==> GroupLaws.LinkedBy(config, a', b', link)
  {
  }

  lemma GroupIsJustified(start: Db, db: Db, r: Range, settings: Settings, groups: seq<GroupMatching.Grouped>,
                         reported: Option<GroupMatching.Counts>, k: nat)
    requires GroupPart(db, r, settings, groups, reported) && SameRecords(start.txns, db.txns) && k < |groups|
    ensures settings.mode == FULL && settings.rules.Some?
    ensures var g, config := groups[k], settings.rules.value.group;
            && 2 <= |g.members| && Distinct(g.members)
            && (if g.kind == Split then |g.members| <= config.maxSplit
                else g.kind == Netted && |g.members| <= config.maxNetted)
            && g.single in start.txns
            && forall m :: m in g.members ==>
                 m in start.txns && MemberGrounds(config, start.txns[g.single], start.txns[m])
  {
    hide GroupMatching.TwoPasses, PoolList, RejectedRows, GroupLaws.LinkedBy;
    var config, quotes := settings.rules.value.group, QuotesOf(settings);
    var ints, exts, rejected := Ints(db, r), Exts(db, r), RejectedRows(db, Ints(db, r));
    PooledAreSourced(db, r);
    GroupIsDistinct(config, quotes, db.txns, rejected, ints, exts, k);
    var g := groups[k];
    assert g.members[0] in g.members;
    GroupLaws.EveryMemberQualifies(config, quotes, db.txns, rejected, {}, ints, exts, k, g.members[0]);
    forall m | m in g.members
      ensures m in start.txns && MemberGrounds(config, start.txns[g.single], start.txns[m])
    {
      GroupLaws.EveryMemberQualifies(config, quotes, db.txns, rejected, {}, ints, exts, k, m);
      SameLinks(config, start.txns[g.single], start.txns[m], db.txns[g.single], db.txns[m]);
    }
  }

  lemma PooledAreSourced(db: Db, r: Range)
    ensures forall t :: t in Ints(db, r) ==> t in db.txns && db.txns[t].source == Internal
    ensures forall t :: t in Exts(db, r) ==> t in db.txns && db.txns[t].source == External
  {
    hide PoolList, IsPool;
    PoolIsCandidates(db, Internals(r), Ints(db, r));
    PoolIsCandidates(db, Externals(r), Exts(db, r));
  }

  lemma GroupIsDistinct(config: GroupMatching.Config, quotes: Quotes, txns: map<TxnId, Txn>,
                        rejected: set<(TxnId, TxnId)>, ints: seq<TxnId>, exts: seq<TxnId>, k: nat)
    requires k < |GroupMatching.TwoPasses(config, quotes, txns, rejected, {}, ints, exts).groups|
    ensures var g := GroupMatching.TwoPasses(config, quotes, txns, rejected, {}, ints, exts).groups[k];
            2 <= |g.members| && Distinct(g.members)
  {
    GroupLaws.EveryGroupIsSound(config, quotes, txns, rejected, {}, ints, exts);
    hide GroupMatching.TwoPasses, GroupLaws.Belongs, GroupLaws.AllCandidates, GroupLaws.Compared, GroupLaws.Settles,
         GroupMatching.Consumed;
    var groups := GroupMatching.TwoPasses(config, quotes, txns, rejected, {}, ints, exts).groups;
    assert GroupLaws.Sound(config, quotes, txns, rejected, ints, exts, groups[..k], groups[k]);
  }

  /** Comparable are exactly those that share a block. */
  lemma BlockedIsComparable(config: Blocking.Config, a: Txn, b: Txn)
    requires Blocking.Usable(config)
    ensures Blocking.BlockedBySome(config, a, b) <==> Comparable(config, a, b)
  {
    hide Prefix;
    CellsAreShared(a.amount, b.amount, config.width);
    CellsAreShared(a.date, b.date, config.window);
    hide Blocking.SameCell, ShareCell;
  }

  lemma CellsAreShared(x: int, y: int, width: int)
    requires width > 0
    ensures Blocking.SameCell(x, y, width) <==> ShareCell(x, y, width)
  {
    var cell := y / width;
    Blocking.QuotientIsCell(y, width, cell);
    if Blocking.SameCell(x, y, width) {
      assert InCell(cell, x, width) && InCell(cell, y, width);
    }
    if c :| InCell(c, x, width) && InCell(c, y, width) {
      Blocking.QuotientIsCell(y, width, c);
      assert c == y / width;
    }
  }

  lemma SameComparable(config: Blocking.Config, a: Txn, b: Txn, a': Txn, b': Txn)
    requires a' == a.(status := a'.status) && b' == b.(status := b'.status)
    ensures Comparable(config, a, b) <==> Comparable(config, a', b')
  {
    hide ShareCell, Prefix;
  }

  lemma OfferedIsComparable(config: Blocking.Config, txns: map<TxnId, Txn>, internals: seq<TxnId>, i: TxnId, e: TxnId)
    requires Blocking.Usable(config) && i in FuzzyMatching.Offered(config, txns, internals, e)
    ensures i in txns && e in txns && Comparable(config, txns[i], txns[e])
  {
    hide Comparable, Blocking.BlockedBySome;
    Blocking.UnionIsTheFilter(config, txns, internals, e);
    hide Blocking.Union;
    assert i in ToSet(Blocking.Union(config, txns, internals, e));
    BlockedIsComparable(config, txns[i], txns[e]);
  }

  lemma FuzzyIsJustified(start: Db, db: Db, r: Range, settings: Settings, fuzzy: seq<FuzzyMatching.Choice>,
                         reported: FuzzyStrategy.Outcome, c: FuzzyMatching.Choice)
    requires FuzzyPart(db, r, settings, fuzzy, reported) && SameRecords(start.txns, db.txns) && c in fuzzy
    ensures c.internal in start.txns && c.external in start.txns
    ensures FuzzyGrounds(settings, start.txns[c.internal], start.txns[c.external], c.internal, c.external, c.status)
  {
    hide FuzzyMatching.Chosen, PoolList, RejectedRows, FuzzyMatching.Offered, Comparable, FuzzyMatching.Internals;
    var ints, exts, rejected := Ints(db, r), Exts(db, r), RejectedRows(db, Ints(db, r));
    PoolListDistinct(db, Externals(r));
    FuzzyMatching.ChoicesAreApart(settings.blocking, settings.score, db.txns, rejected, ints, exts, |exts|);
    assert exts[..|exts|] == exts;
    var k: nat :| k < |exts| && exts[k] == c.external;
    FuzzyMatching.EachGetsTheBestLeft(settings.blocking, settings.score, db.txns, rejected, ints, exts, k);
    OfferedIsComparable(settings.blocking, db.txns, ints, c.internal, c.external);
    SameComparable(settings.blocking, start.txns[c.internal], start.txns[c.external],
                   db.txns[c.internal], db.txns[c.external]);
  }

  lemma RuleIsJustified(start: Db, db: Db, r: Range, settings: Settings, rules: seq<FuzzyMatching.Choice>,
                        reported: Option<RuleMatching.Outcome>, c: FuzzyMatching.Choice)
    requires RulePart(db, r, settings, rules, reported) && SameRecords(start.txns, db.txns) && c in rules
    ensures c.internal in start.txns && c.external in start.txns
    ensures RuleGrounds(settings, start.txns[c.internal], start.txns[c.external], c.internal, c.external, c.status)
  {
    hide RuleMatching.RulePairs, PoolList, RejectedRows, Comparable, FuzzyMatching.Internals, Blocking.BlockedBySome,
         RuleMatching.Thousandths;
    var config := RuleMatching.Config(settings.blocking, settings.rules.value.registry, settings.threshold);
    var ints, exts, rejected := Ints(db, r), Exts(db, r), RejectedRows(db, Ints(db, r));
    PoolListDistinct(db, Externals(r));
    RuleMatching.PairsAreAsRated(config, db.txns, rejected, {}, ints, exts);
    var k: nat :| k < |exts| && exts[k] == c.external;
    RuleMatching.PairedIffSoleHit(config, db.txns, rejected, {}, ints, exts, k, c.internal);
    BlockedIsComparable(settings.blocking, db.txns[c.internal], db.txns[c.external]);
    SameComparable(settings.blocking, start.txns[c.internal], start.txns[c.external],
                   db.txns[c.internal], db.txns[c.external]);
  }

  // ------------------------------------------------------------------- every step of a run

  /** Both sides were waiting and their pairing had not been rejected. */
  ghost predicate InOrder(start: Db, r: Range, s: Step) {
    match s
    case Pair(i, e, kind, _) =>
      kind != Manual && Waiting(start, r, i, Internal) && Waiting(start, r, e, External) && NeverRejected(start, i, e)
    case Group(kind, single, members) =>
      && Waiting(start, r, single, if kind == Split then Internal else External)
      && forall m :: m in members ==>
           && Waiting(start, r, m, if kind == Split then External else Internal)
           && (if kind == Split then NeverRejected(start, single, m) else NeverRejected(start, m, single))
    case _ => false
  }

  lemma StepIsInOrder(start: Db, db: Db, steps: seq<Step>, r: Range, k: nat)
    requires Valid(start) && RunSoFar(start, db, steps, Ints(start, r), Exts(start, r)) && k < |steps|
    ensures InOrder(start, r, steps[k])
  {
    hide Valid, AllEnabled, ApplyAll, StageOk, Waiting, NeverRejected, PoolList;
    var s := steps[k];
    assert s in steps && Within(s, Ints(start, r), Exts(start, r));
    forall t | t in Ints(start, r) ensures Waiting(start, r, t, Internal) {
      PooledIsWaiting(start, r, t, Internal);
    }
    forall t | t in Exts(start, r) ensures Waiting(start, r, t, External) {
      PooledIsWaiting(start, r, t, External);
    }
    match s {
      case Pair(i, e, kind, _) => MadeMeansNeverRejected(start, db, steps, r, k, i, e);
      case Group(kind, single, members) =>
        forall m | m in members
          ensures if kind == Split then NeverRejected(start, single, m) else NeverRejected(start, m, single)
        {
          MadeMeansNeverRejected(start, db, steps, r, k, if kind == Split then single else m,
                                 if kind == Split then m else single);
        }
      case _ =>
    }
  }

  /** The grounds of the step's own kind. */
  ghost predicate Grounded(start: Db, settings: Settings, s: Step) {
    match s
    case Pair(i, e, kind, status) =>
      && i in start.txns && e in start.txns
      && var a, b := start.txns[i], start.txns[e];
         (match kind
          case Exact => ExactGrounds(a, b, status)
          case CrossCurrency => CrossGrounds(settings, a, b, status)
          case Fuzzy => FuzzyGrounds(settings, a, b, i, e, status)
          case Rule => RuleGrounds(settings, a, b, i, e, status)
          case _ => false)
    case Group(kind, single, members) =>
      && settings.mode == FULL && settings.rules.Some?
      && var config := settings.rules.value.group;
         && 2 <= |members| && Distinct(members) && single in start.txns
         && (if kind == Split then |members| <= config.maxSplit else kind == Netted && |members| <= config.maxNetted)
         && forall m :: m in members ==>
              m in start.txns && MemberGrounds(config, start.txns[single], start.txns[m])
    case _ => false
  }

  lemma InOrderAndGrounded(start: Db, r: Range, settings: Settings, s: Step)
    requires InOrder(start, r, s) && Grounded(start, settings, s)
    ensures Justified(start, r, settings, s)
  {
    hide Waiting, NeverRejected, ExactGrounds, CrossGrounds, FuzzyGrounds, RuleGrounds, MemberGrounds;
  }

  lemma RecordsAfter(start: Db, db: Db, r: Range, first: seq<Step>, second: seq<Step>)
    requires Valid(start) && RunSoFar(start, db, first + second, Ints(start, r), Exts(start, r))
    ensures SameRecords(start.txns, ApplyAll(start, first).txns)
  {
    hide Valid, RunSoFar, Candidates, PoolList, SameRecords, ApplyAll;
    PoolListsAreCandidates(start, r);
    RunBefore(start, db, first, second, Ints(start, r), Exts(start, r));
    RecordsStay(start, ApplyAll(start, first), first, Ints(start, r), Exts(start, r));
  }

  /** Wherever a stage of the run stands, the transactions are those of the beginning but for their status. */
  lemma RecordsAlong(start: Db, db: Db, r: Range, exact: seq<Step>, a: seq<Step>, b: seq<Step>, c: seq<Step>,
                     d: seq<Step>)
    requires Valid(start) && RunSoFar(start, db, exact + (a + b + c + d), Ints(start, r), Exts(start, r))
    ensures var mid := ApplyAll(start, exact);
            && SameRecords(start.txns, mid.txns)
            && SameRecords(start.txns, ApplyAll(mid, a).txns)
            && SameRecords(start.txns, ApplyAll(ApplyAll(mid, a), b).txns)
            && SameRecords(start.txns, ApplyAll(ApplyAll(ApplyAll(mid, a), b), c).txns)
  {
    hide Valid, RunSoFar, SameRecords, ApplyAll, AllEnabled;
    assert exact + (a + b + c + d) == (exact + a) + (b + c + d) == (exact + a + b) + (c + d) == (exact + a + b + c) + d;
    RecordsAfter(start, db, r, exact, a + b + c + d);
    RecordsAfter(start, db, r, exact + a, b + c + d);
    RecordsAfter(start, db, r, exact + a + b, c + d);
    RecordsAfter(start, db, r, exact + a + b + c, d);
    StepsCompose(start, exact, a);
    StepsCompose(start, exact + a, b);
    StepsCompose(start, exact + a + b, c);
  }

  /** Every step of a run that returns a report is justified, by the transactions, claims and rejections as they were
      when it began and by the settings. */
  lemma EveryStepIsJustified(start: Db, r: Range, settings: Settings, pairs: E.Pairs, db: Db, report: Option<Report>,
                             k: nat)
    requires Valid(start) && RunsTo(start, r, settings, pairs, db, report) && report.Some?
    requires k < |E.PairSteps(pairs, Exact) + Later(ApplyAll(start, E.PairSteps(pairs, Exact)), r, settings).steps|
    ensures var steps := E.PairSteps(pairs, Exact)
                         + Later(ApplyAll(start, E.PairSteps(pairs, Exact)), r, settings).steps;
            Justified(start, r, settings, steps[k])
  {
    hide Valid, RunSoFar, Later, KeyedPairs, ReportOf, ApplyAll, InOrder, Grounded, Justified, CrossPart, GroupPart,
         FuzzyPart, RulePart, SameRecords, PoolList;
    var exact := E.PairSteps(pairs, Exact);
    var mid := ApplyAll(start, exact);
    var p := StagesOfARun(start, r, settings, pairs, db, report);
    var steps := exact + StepsOf(p);
    StepIsInOrder(start, db, steps, r, k);
    RecordsAlong(start, db, r, exact, Cross.CrossSteps(p.cross), GroupStrategy.GroupSteps(p.groups),
                 FuzzyMatching.FuzzySteps(p.fuzzy), RuleStrategy.RuleSteps(p.rules));
    StepIsGrounded(start, mid, r, settings, pairs, p, db, report.value, k);
    InOrderAndGrounded(start, r, settings, steps[k]);
  }

  lemma StepIsGrounded(start: Db, mid: Db, r: Range, settings: Settings, pairs: E.Pairs, p: Parts, db: Db,
                       report: Report, k: nat)
    requires ExactlyThese(start, r, pairs) && StageByStage(start, mid, r, settings, p, db, report)
    requires k < |E.PairSteps(pairs, Exact) + StepsOf(p)|
    requires var afterCross := ApplyAll(mid, Cross.CrossSteps(p.cross));
             var afterGroups := ApplyAll(afterCross, GroupStrategy.GroupSteps(p.groups));
             && SameRecords(start.txns, mid.txns) && SameRecords(start.txns, afterCross.txns)
             && SameRecords(start.txns, afterGroups.txns)
             && SameRecords(start.txns, ApplyAll(afterGroups, FuzzyMatching.FuzzySteps(p.fuzzy)).txns)
    ensures Grounded(start, settings, (E.PairSteps(pairs, Exact) + StepsOf(p))[k])
  {
    hide ExactlyThese, CrossPart, GroupPart, FuzzyPart, RulePart, SameRecords, ApplyAll, ExactGrounds, CrossGrounds,
         FuzzyGrounds, RuleGrounds, MemberGrounds, PoolList;
    var afterCross := ApplyAll(mid, Cross.CrossSteps(p.cross));
    var afterGroups := ApplyAll(afterCross, GroupStrategy.GroupSteps(p.groups));
    var afterFuzzy := ApplyAll(afterGroups, FuzzyMatching.FuzzySteps(p.fuzzy));
    var n, a, b, c := |pairs|, |p.cross|, |p.groups|, |p.fuzzy|;
    if k < n {
      assert pairs[k] in pairs;
      ExactIsJustified(start, r, pairs, pairs[k]);
    } else if k < n + a {
      assert p.cross[k - n] in p.cross;
      CrossIsJustified(start, mid, r, settings, p.cross, report.cross, p.cross[k - n]);
    } else if k < n + a + b {
      GroupIsJustified(start, afterCross, r, settings, p.groups, report.group, k - n - a);
    } else if k < n + a + b + c {
      assert p.fuzzy[k - n - a - b] in p.fuzzy;
      FuzzyIsJustified(start, afterGroups, r, settings, p.fuzzy, report.fuzzy, p.fuzzy[k - n - a - b]);
    } else {
      assert p.rules[k - n - a - b - c] in p.rules;
      RuleIsJustified(start, afterFuzzy, r, settings, p.rules, report.rule, p.rules[k - n - a - b - c]);
    }
  }
}

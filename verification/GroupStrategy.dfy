/** The group strategy at work (src/recon/matching/strategies/group.py): the link indexes, the fit of
    one candidate set, the all-or-nothing record and the two passes over the ledger. */
module GroupStrategy {
  import opened Ledger
  import opened LedgerInvariant
  import opened Database
  import opened Repository
  import opened Stages
  import opened FxConvert
  import opened GroupMatching
  import SubsetSum

  // ------------------------------------------------------------------- one attempt

  /** The search's answer is the specified one. */
  lemma SearchIsRight(amounts: seq<int>, low: int, high: int, max: nat, maxStates: nat, candidates: seq<TxnId>,
                      s: SubsetSum.Search)
    requires |amounts| == |candidates| && low <= high && max >= 2
    requires s.outcome == SubsetSum.TooComplex <==> SubsetSum.ReachesMoreThan(amounts, high, max, maxStates)
    requires s.outcome != SubsetSum.TooComplex ==> SubsetSum.Right(amounts, low, high, 2, max, s)
    ensures s.outcome == SubsetSum.Unique ==> forall k :: 0 <= k < |s.indices| ==> s.indices[k] < |candidates|
    ensures SearchFor(amounts, low, high, max, maxStates, candidates)
            == match s.outcome
               case Unique => Chosen(Select(candidates, s.indices))
               case NoGroup => NoFit
               case Ambiguous => GroupMatching.Ambiguous
               case TooComplex => GroupMatching.TooComplex
  {
    hide SubsetSum.ReachesMoreThan, SubsetSum.Fits;
    if s.outcome == SubsetSum.Unique {
      UniqueIsInRange(amounts, low, high, max, s.indices);
    }
  }

  lemma UniqueIsInRange(amounts: seq<int>, low: int, high: int, max: nat, w: seq<nat>)
    requires SubsetSum.OnlyFit(amounts, low, high, 2, max, w)
    ensures forall k :: 0 <= k < |w| ==> w[k] < |amounts|
  {
    SubsetSum.IndexSetMeans(amounts, |amounts|, w);
  }

  /** The part of _fit that chooses. */
  method SelectCandidates(config: Config, max: nat, quotes: Quotes, txns: Txns, single: TxnId,
                          candidates: seq<TxnId>)
    returns (f: Fitting)
    requires single in txns && forall t :: t in candidates ==> t in txns
    ensures f == Selection(config, max, quotes, txns, single, candidates)
  {
    hide SubsetSum.ReachesMoreThan, SubsetSum.Right, SearchFor, LegsOf;
    var legs := LegsOf(config, quotes, txns, single, candidates);
    match legs {
      case MissingRate =>
        return MissingFx;
      case NoWindow =>
        return Raises;
      case Legs(_, amounts, low, high) =>
        if WholeSettles(amounts, low, high, max) {
          return Chosen(candidates);
        }
        if |candidates| > config.maxSearch {
          return TooComplex;
        }
        var answer := SubsetSum.FindUniqueSubset(amounts, low, high, 2, max, config.maxStates);
        if !answer.Answer? {
          BadSearch(amounts, low, high, max, config.maxStates, candidates);
          return Raises;
        }
        SearchIsRight(amounts, low, high, max, config.maxStates, candidates, answer.search);
        match answer.search.outcome {
          case Unique => return Chosen(Select(candidates, answer.search.indices));
          case NoGroup => return NoFit;
          case Ambiguous => return GroupMatching.Ambiguous;
          case TooComplex => return GroupMatching.TooComplex;
        }
    }
  }

  /** _fit: the choice, and then the details of the exchange if the candidates are in several
      currencies. */
  method FitCandidates(config: Config, max: nat, quotes: Quotes, txns: Txns, single: TxnId, candidates: seq<TxnId>)
    returns (f: Fitting)
    requires single in txns && forall t :: t in candidates ==> t in txns
    ensures f == Fit(config, max, quotes, txns, single, candidates)
  {
    hide Selection;
    f := SelectCandidates(config, max, quotes, txns, single, candidates);
    if f.Chosen? && !OneCurrency(txns, single, candidates) {
      var foreign := Foreign(txns, [single] + f.members);
      if foreign == [] {
        f := Raises;
      }
    }
  }

  /** foreign_legs. */
  function Foreign(txns: Txns, ids: seq<TxnId>): (legs: seq<TxnId>)
    ensures legs == [] <==> InRupees(txns, ids)
  {
    if ids == [] then []
    else
      var front, t := Foreign(txns, ids[..|ids| - 1]), ids[|ids| - 1];
      assert ids == ids[..|ids| - 1] + [t];
      if t in txns && txns[t].currency == "INR" then front else front + [t]
  }

  lemma BadSearch(amounts: seq<int>, low: int, high: int, max: nat, maxStates: nat, candidates: seq<TxnId>)
    requires |amounts| == |candidates| && (low > high || max < 2)
    ensures SearchFor(amounts, low, high, max, maxStates, candidates) == Raises
  {
  }

  // ------------------------------------------------------------------- the link indexes

  type Index = map<string, seq<TxnId>>

  ghost predicate IndexOf(config: Config, txns: Txns, link: Link, index: Index, pool: seq<TxnId>) {
    forall key: string, t: TxnId ::
      t in Listed(index, key) <==> t in pool && t in txns && key in LinkKeys(config, txns[t], link)
  }

  method AddToIndex(index: Index, keys: set<string>, t: TxnId) returns (more: Index)
    ensures forall key: string, x: TxnId ::
              x in Listed(more, key) <==> x in Listed(index, key) || (x == t && key in keys)
  {
    more := index;
    var todo, done := keys, {};
    while todo != {}
      invariant done + todo == keys && done !! todo
      invariant forall key: string, x: TxnId ::
                  x in Listed(more, key) <==> x in Listed(index, key) || (x == t && key in done)
      decreases todo
    {
      var key :| key in todo;
      more := more[key := Listed(more, key) + [t]];
      todo, done := todo - {key}, done + {key};
    }
    assert done == keys;
  }

  lemma NothingIndexed(config: Config, txns: Txns, link: Link, pool: seq<TxnId>)
    requires pool == []
    ensures IndexOf(config, txns, link, map[], pool)
  {
  }

  /** _index, for one of the two links. */
  method BuildIndex(config: Config, txns: Txns, link: Link, pool: seq<TxnId>) returns (index: Index)
    requires forall t :: t in pool ==> t in txns
    ensures IndexOf(config, txns, link, index, pool)
  {
    hide LinkKeys, IndexOf;
    index := map[];
    NothingIndexed(config, txns, link, pool[..0]);
    for k := 0 to |pool|
      invariant IndexOf(config, txns, link, index, pool[..k])
    {
      var t := pool[k];
      ghost var was := index;
      index := AddToIndex(index, LinkKeys(config, txns[t], link), t);
      IndexMore(config, txns, link, was, index, pool, k);
    }
    assert pool[..|pool|] == pool;
  }

  lemma IndexMore(config: Config, txns: Txns, link: Link, was: Index, index: Index, pool: seq<TxnId>, k: nat)
    requires k < |pool| && pool[k] in txns && IndexOf(config, txns, link, was, pool[..k])
    requires forall key: string, x: TxnId :: x in Listed(index, key)
               <==> x in Listed(was, key) || (x == pool[k] && key in LinkKeys(config, txns[pool[k]], link))
    ensures IndexOf(config, txns, link, index, pool[..k + 1])
  {
    hide LinkKeys, Listed;
    LongerPrefix(pool, k);
    hide IndexOf;
    IndexedByKey(config, txns, link, was, pool[..k]);
    IndexFrom(config, txns, link, index, pool[..k + 1]);
  }

  lemma LongerPrefix(pool: seq<TxnId>, k: nat)
    requires k < |pool|
    ensures forall x :: x in pool[..k + 1] <==> x in pool[..k] || x == pool[k]
  {
  }

  lemma IndexedByKey(config: Config, txns: Txns, link: Link, index: Index, pool: seq<TxnId>)
    requires IndexOf(config, txns, link, index, pool)
    ensures forall key: string, t: TxnId {:trigger t in Listed(index, key)} ::
              t in Listed(index, key) <==> t in pool && t in txns && key in LinkKeys(config, txns[t], link)
  {
    hide LinkKeys;
  }

  lemma IndexFrom(config: Config, txns: Txns, link: Link, index: Index, pool: seq<TxnId>)
    requires forall key: string, t: TxnId {:trigger t in Listed(index, key)} ::
               t in Listed(index, key) <==> t in pool && t in txns && key in LinkKeys(config, txns[t], link)
    ensures IndexOf(config, txns, link, index, pool)
  {
    hide LinkKeys;
  }

  /** _candidates: probes the index with the single side's keys, filters and sorts. */
  method FindCandidates(config: Config, txns: Txns, rejected: Rejections, link: Link, index: Index,
                        consumed: set<TxnId>, pool: seq<TxnId>, single: TxnId)
    returns (ids: seq<TxnId>)
    requires single in txns && (forall t :: t in pool ==> t in txns)
    requires IndexOf(config, txns, link, index, pool)
    ensures ids == CandidateList(config, txns, rejected, link, consumed, pool, single)
  {
    hide LinkKeys, Barred;
    var keys := LinkKeys(config, txns[single], link);
    var seen: set<TxnId>, todo, done := {}, keys, {};
    while todo != {}
      invariant done + todo == keys && done !! todo
      invariant forall t :: t in seen <==>
                  t in pool && (exists key :: key in done && key in LinkKeys(config, txns[t], link))
                  && Passes(config, txns, rejected, consumed, single, t)
      decreases todo
    {
      var key :| key in todo;
      var bucket := Listed(index, key);
      seen := seen + set t | t in bucket && Passes(config, txns, rejected, consumed, single, t);
      todo, done := todo - {key}, done + {key};
    }
    assert done == keys;
    assert seen == CandidateSet(config, txns, rejected, link, consumed, pool, single) by {
      LinkedByKey(config, txns, link, single, pool);
    }
    ids := InOrder(WithoutLines(txns), seen);
    ListingIs(WithoutLines(txns), seen, ids);
  }

  /** The filter inside the loop. */
  predicate Passes(config: Config, txns: Txns, rejected: Rejections, consumed: set<TxnId>, single: TxnId, t: TxnId)
  {
    && single in txns && t in txns
    && t !in consumed && !Barred(txns, rejected, single, t)
    && txns[t].direction == txns[single].direction
    && DaysBetween(txns[t], txns[single]) <= config.dateWindow
  }

  lemma LinkedByKey(config: Config, txns: Txns, link: Link, single: TxnId, pool: seq<TxnId>)
    requires single in txns && forall t :: t in pool ==> t in txns
    ensures forall t :: t in pool ==>
              ((exists key :: key in LinkKeys(config, txns[single], link) && key in LinkKeys(config, txns[t], link))
               <==> LinkKeys(config, txns[single], link) * LinkKeys(config, txns[t], link) != {})
  {
    hide LinkKeys;
    forall t | t in pool
      ensures (exists key :: key in LinkKeys(config, txns[single], link) && key in LinkKeys(config, txns[t], link))
              <==> LinkKeys(config, txns[single], link) * LinkKeys(config, txns[t], link) != {}
    {
      var common := LinkKeys(config, txns[single], link) * LinkKeys(config, txns[t], link);
      if common != {} {
        var key :| key in common;
        assert key in LinkKeys(config, txns[single], link) && key in LinkKeys(config, txns[t], link);
      }
      if key: string :| key in LinkKeys(config, txns[single], link) && key in LinkKeys(config, txns[t], link) {
        assert key in common;
      }
    }
  }

  // ------------------------------------------------------------------- recording a group

  function Wanted(kind: MatchKind, single: TxnId, members: seq<TxnId>): (w: seq<(TxnId, Source)>)
    ensures |w| == |members| + 1
    ensures Ids(w) == [single] + members
  {
    [(single, SingleRole(kind))] + seq(|members|, k requires 0 <= k < |members| => (members[k], MemberRole(kind)))
  }

  /** The claims of the group once its first k rows are written. */
  function ClaimsAfter(kind: MatchKind, single: TxnId, members: seq<TxnId>, first: nat, k: nat): (c: seq<Claim>)
    ensures |c| == |members| + 1
  {
    [Claim(single, if k > 0 then Some(first) else None, SingleRole(kind), true)]
    + seq(|members|, j requires 0 <= j < |members| =>
        Claim(members[j], if j < k then Some(first + j) else None, MemberRole(kind), true))
  }

  function RowsAfter(kind: MatchKind, single: TxnId, members: seq<TxnId>, first: nat, k: nat): seq<MatchResult>
    requires k <= |members|
  {
    seq(k, j requires 0 <= j < k => GroupRow(kind, single, members[j], first))
  }

  lemma ClaimsStep(kind: MatchKind, single: TxnId, members: seq<TxnId>, first: nat, k: nat)
    requires k < |members|
    ensures ClaimsAfter(kind, single, members, first, k + 1)
            == var c := ClaimsAfter(kind, single, members, first, k)
                        [k + 1 := Claim(members[k], Some(first + k), MemberRole(kind), true)];
               if k == 0 then c[0 := Claim(single, Some(first), SingleRole(kind), true)] else c
  {
  }

  lemma ClaimsWritten(db: Db, kind: MatchKind, single: TxnId, members: seq<TxnId>)
    requires |members| >= 1
    ensures var after, first := WithGroup(db, kind, single, members), |db.results|;
            && after.claims == db.claims + ClaimsAfter(kind, single, members, first, |members|)
            && after.results == db.results + RowsAfter(kind, single, members, first, |members|)
            && NewClaims(Wanted(kind, single, members)) == ClaimsAfter(kind, single, members, first, 0)
  {
  }

  /** _record: the claims of the whole group, one row per member, all marked MATCHED; on a conflict
      nothing changes. */
  method RecordGroup(s: Session, kind: MatchKind, single: TxnId, members: seq<TxnId>) returns (recorded: bool)
    requires |members| >= 1 && single in s.txns && forall m :: m in members ==> m in s.txns
    modifies s
    ensures recorded <==> !Conflicts(old(s.State()), [single] + members)
    ensures s.State() == if recorded then WithGroup(old(s.State()), kind, single, members) else old(s.State())
  {
    hide Conflicts, ClaimsAfter, NewClaims, WithStatus, RowsAfter, GroupRow, Wanted;
    ghost var start := s.State();
    var base, first := |s.claims|, |s.results|;
    ClaimsWritten(start, kind, single, members);
    hide WithGroup;
    recorded := ClaimAll(s, Wanted(kind, single, members));
    if !recorded {
      return;
    }
    RowsStart(kind, single, members, first);
    for k := 0 to |members|
      invariant s.txns == start.txns
      invariant s.results == start.results + RowsAfter(kind, single, members, first, k)
      invariant s.claims == start.claims + ClaimsAfter(kind, single, members, first, k)
    {
      ClaimsStep(kind, single, members, first, k);
      RowsStep(kind, single, members, first, k);
      ClaimShape(kind, single, members, first, k);
      s.results := s.results + [GroupRow(kind, single, members[k], first)];
      Finalise(s, base + 1 + k, first + k);
      if k == 0 {
        Finalise(s, base, first);
      }
    }
    SetStatuses(s, {single} + ToSet(members), Matched);
    GroupStatuses(start, kind, single, members);
  }

  lemma RowsStart(kind: MatchKind, single: TxnId, members: seq<TxnId>, first: nat)
    ensures RowsAfter(kind, single, members, first, 0) == []
  {
  }

  lemma RowsStep(kind: MatchKind, single: TxnId, members: seq<TxnId>, first: nat, k: nat)
    requires k < |members|
    ensures RowsAfter(kind, single, members, first, k + 1)
            == RowsAfter(kind, single, members, first, k) + [GroupRow(kind, single, members[k], first)]
    ensures |RowsAfter(kind, single, members, first, k)| == k
  {
  }

  lemma ClaimShape(kind: MatchKind, single: TxnId, members: seq<TxnId>, first: nat, k: nat)
    requires k < |members|
    ensures var c := ClaimsAfter(kind, single, members, first, k);
            && c[k + 1].(result := Some(first + k)) == Claim(members[k], Some(first + k), MemberRole(kind), true)
            && c[0].(result := Some(first)) == Claim(single, Some(first), SingleRole(kind), true)
  {
  }

  lemma GroupStatuses(db: Db, kind: MatchKind, single: TxnId, members: seq<TxnId>)
    ensures WithGroup(db, kind, single, members).txns == WithStatus(db.txns, {single} + ToSet(members), Matched)
  {
  }

  // ------------------------------------------------------------------- the two passes

  function GroupSteps(groups: seq<Grouped>): (steps: seq<Step>)
    ensures |steps| == |groups|
  {
    seq(|groups|, k requires 0 <= k < |groups| => Group(groups[k].kind, groups[k].single, groups[k].members))
  }

  /** The two lists come from the two sources. */
  ghost predicate Sourced(txns: Txns, internals: seq<TxnId>, externals: seq<TxnId>) {
    && (forall t :: t in internals ==> t in txns && txns[t].source == Internal)
    && (forall t :: t in externals ==> t in txns && txns[t].source == External)
  }

  /** Where the strategy has got to when it has recorded the given groups. */
  ghost predicate Grouping(start: Db, db: Db, internals: seq<TxnId>, externals: seq<TxnId>, groups: seq<Grouped>) {
    && Sourced(start.txns, internals, externals)
    && StageRun(start, db, GroupSteps(groups), internals, externals)
    && StageOk(start, db, internals, externals)
    && (forall t: TxnId :: Claimed(db, t) <==> Claimed(start, t) || t in Consumed(groups))
  }

  lemma GroupingStarts(start: Db, internals: seq<TxnId>, externals: seq<TxnId>)
    requires Valid(start) && Candidates(start, internals) && Candidates(start, externals)
    requires Sourced(start.txns, internals, externals)
    ensures Grouping(start, start, internals, externals, [])
  {
    hide Valid, Claimed;
    StageBegins(start, internals, externals);
    assert GroupSteps([]) == [];
  }

  /** A chosen group, unclaimed as a whole, is one more step of the stage. */
  lemma GroupingRecords(config: Config, start: Db, db: Db, internals: seq<TxnId>, externals: seq<TxnId>,
                        groups: seq<Grouped>, link: Link, kind: MatchKind, single: TxnId, members: seq<TxnId>)
    requires Grouping(start, db, internals, externals, groups) && (kind == Split || kind == Netted)
    requires single in SinglesOf(kind, internals, externals) && |members| >= 2 && Distinct(members)
    requires forall m :: m in members ==>
               && m in PoolOf(kind, internals, externals)
               && Candidate(config, start.txns, RejectedRows(start, internals), link, Consumed(groups), single, m)
    requires !Conflicts(db, [single] + members)
    ensures Grouping(start, WithGroup(db, kind, single, members), internals, externals,
                     groups + [Grouped(kind, single, members)])
  {
    hide StageRun, StageOk, Valid, RejectedPair, Claimed, WithGroup, LinkKeys;
    assert ([single] + members)[0] == single;
    assert forall k :: 0 <= k < |members| ==> ([single] + members)[k + 1] == members[k];
    assert GroupSteps(groups + [Grouped(kind, single, members)])
           == GroupSteps(groups) + [Group(kind, single, members)];
    StageGroup(start, db, GroupSteps(groups), internals, externals, kind, single, members);
    forall t: TxnId
      ensures Claimed(WithGroup(db, kind, single, members), t) <==> Claimed(db, t) || t == single || t in members
    {
      GroupClaims(db, kind, single, members, t);
    }
    ConsumedMore(groups, Grouped(kind, single, members));
  }

  lemma ConsumedMore(groups: seq<Grouped>, g: Grouped)
    ensures Consumed(groups + [g]) == Consumed(groups) + {g.single} + ToSet(g.members)
  {
    assert (groups + [g])[..|groups|] == groups;
  }

  /** Neither the single side nor a candidate is used yet, and they are different transactions. */
  lemma ChosenAreUnused(config: Config, start: Db, internals: seq<TxnId>, externals: seq<TxnId>,
                        consumed: set<TxnId>, link: Link, kind: MatchKind, single: TxnId, members: seq<TxnId>)
    requires Sourced(start.txns, internals, externals) && (kind == Split || kind == Netted)
    requires single in SinglesOf(kind, internals, externals) && single !in consumed && Distinct(members)
    requires forall m :: m in members ==>
               && m in PoolOf(kind, internals, externals)
               && Candidate(config, start.txns, RejectedRows(start, internals), link, consumed, single, m)
    ensures Distinct([single] + members)
    ensures forall t :: t in [single] + members ==> t in internals + externals && t !in consumed
  {
    hide LinkKeys;
    assert single !in members;
  }

  /** Whether a chosen group conflicts was settled before the stage began. */
  lemma GroupingConflicts(config: Config, start: Db, db: Db, internals: seq<TxnId>, externals: seq<TxnId>,
                          groups: seq<Grouped>, link: Link, kind: MatchKind, single: TxnId, members: seq<TxnId>)
    requires Grouping(start, db, internals, externals, groups) && (kind == Split || kind == Netted)
    requires single in SinglesOf(kind, internals, externals) && single !in Consumed(groups) && Distinct(members)
    requires forall m :: m in members ==>
               && m in PoolOf(kind, internals, externals)
               && Candidate(config, start.txns, RejectedRows(start, internals), link, Consumed(groups), single, m)
    ensures var claimed := ClaimedAmong(start, internals + externals);
            Conflicts(db, [single] + members) <==> single in claimed || exists m :: m in members && m in claimed
    ensures single in db.txns && forall m :: m in members ==> m in db.txns
  {
    hide StageRun, Valid, RejectedPair, Claimed, LinkKeys, Distinct, Consumed;
    ChosenAreUnused(config, start, internals, externals, Consumed(groups), link, kind, single, members);
    var ids, claimed := [single] + members, ClaimedAmong(start, internals + externals);
    hide Candidate, SinglesOf, PoolOf, Sourced;
    assert forall t :: t in ids ==> t in db.txns && (Claimed(db, t) <==> t in claimed);
    SomeClaimed(db, ids, claimed);
    assert single in ids && forall t :: t in ids <==> t == single || t in members;
  }

  lemma SomeClaimed(db: Db, ids: seq<TxnId>, claimed: set<TxnId>)
    requires Distinct(ids) && forall t :: t in ids ==> (Claimed(db, t) <==> t in claimed)
    ensures Conflicts(db, ids) <==> exists t :: t in ids && t in claimed
  {
    hide Claimed;
    if t :| t in ids && t in claimed {
      var k :| 0 <= k < |ids| && ids[k] == t;
      assert Claimed(db, ids[k]);
    }
    if k :| 0 <= k < |ids| && Claimed(db, ids[k]) {
      assert ids[k] in ids;
    }
  }

  /** One link tried for one single transaction. */
  method TryLink(config: Config, quotes: Quotes, txns: Txns, rejected: Rejections, link: Link, index: Index,
                 kind: MatchKind, pool: seq<TxnId>, consumed: set<TxnId>, single: TxnId)
    returns (f: Fitting)
    requires single in txns && (forall t :: t in pool ==> t in txns) && IndexOf(config, txns, link, index, pool)
    ensures f == Attempt(config, quotes, txns, rejected, link, kind, pool, consumed, single)
  {
    hide IndexOf, Fit;
    var candidates := FindCandidates(config, txns, rejected, link, index, consumed, pool, single);
    if |candidates| < 2 {
      return NoFit;
    }
    f := FitCandidates(config, MaxMembers(config, kind), quotes, txns, single, candidates);
  }

  /** _record for a chosen group. */
  method SettleGroup(s: Session, config: Config, ghost quotes: Quotes, ghost start: Db, link: Link, kind: MatchKind,
                     ghost internals: seq<TxnId>, ghost externals: seq<TxnId>,
                     p: Progress, single: TxnId, members: seq<TxnId>)
    returns (more: Progress, recorded: bool)
    requires Grouping(start, s.State(), internals, externals, p.groups) && (kind == Split || kind == Netted)
    requires single in SinglesOf(kind, internals, externals) && single !in Consumed(p.groups)
    requires Attempt(config, quotes, start.txns, RejectedRows(start, internals), link, kind,
                     PoolOf(kind, internals, externals), Consumed(p.groups), single) == Chosen(members)
    modifies s
    ensures more == Settle(p, kind, single, members, ClaimedAmong(start, internals + externals))
    ensures more == if recorded then Recorded(p, kind, single, members)
                    else p.(counts := p.counts.(conflicts := p.counts.conflicts + 1))
    ensures Grouping(start, s.State(), internals, externals, more.groups)
  {
    hide Grouping, Attempt, Candidate, Conflicts, WithGroup, ClaimedAmong, Distinct;
    AttemptChooses(config, quotes, start.txns, RejectedRows(start, internals), link, kind,
                   PoolOf(kind, internals, externals), Consumed(p.groups), single);
    ghost var before := s.State();
    GroupingConflicts(config, start, before, internals, externals, p.groups, link, kind, single, members);
    recorded := RecordGroup(s, kind, single, members);
    if !recorded {
      more := p.(counts := p.counts.(conflicts := p.counts.conflicts + 1));
    } else {
      GroupingRecords(config, start, before, internals, externals, p.groups, link, kind, single, members);
      more := Recorded(p, kind, single, members);
    }
  }

  /** One single transaction of a pass: its reference stem first, its counterparty second. */
  method TakeTurn(s: Session, config: Config, quotes: Quotes, txns: Txns, rejected: Rejections, ghost start: Db,
                  stems: Index, parties: Index, kind: MatchKind, pool: seq<TxnId>,
                  ghost internals: seq<TxnId>, ghost externals: seq<TxnId>, consumed: set<TxnId>,
                  p: Progress, single: TxnId)
    returns (more: Progress, used: set<TxnId>)
    requires Grouping(start, s.State(), internals, externals, p.groups) && (kind == Split || kind == Netted)
    requires txns == start.txns && rejected == RejectedRows(start, internals)
    requires single in txns && single in SinglesOf(kind, internals, externals)
    requires pool == PoolOf(kind, internals, externals) && (forall t :: t in pool ==> t in txns)
    requires IndexOf(config, txns, Stem, stems, pool) && IndexOf(config, txns, Party, parties, pool)
    requires consumed == Consumed(p.groups) && !p.raised
    modifies s
    ensures more == Turn(config, quotes, txns, rejected, ClaimedAmong(start, internals + externals), kind, pool, p,
                         single)
    ensures used == Consumed(more.groups)
    ensures Grouping(start, s.State(), internals, externals, more.groups)
  {
    hide Grouping, Attempt, IndexOf, Settle, Consumed, ClaimedAmong, RejectedRows;
    if single in consumed {
      return p, consumed;
    }
    var byStem := TryLink(config, quotes, txns, rejected, Stem, stems, kind, pool, consumed, single);
    var recorded: bool;
    if byStem.Chosen? {
      more, recorded := SettleGroup(s, config, quotes, start, Stem, kind, internals, externals, p, single,
                                    byStem.members);
      used := UseUp(p, consumed, kind, single, byStem.members, recorded, more);
      return;
    }
    var noted := Note(p, byStem);
    if byStem.Raises? {
      return noted, consumed;
    }
    var byParty := TryLink(config, quotes, txns, rejected, Party, parties, kind, pool, consumed, single);
    if byParty.Chosen? {
      more, recorded := SettleGroup(s, config, quotes, start, Party, kind, internals, externals, noted, single,
                                    byParty.members);
      used := UseUp(noted, consumed, kind, single, byParty.members, recorded, more);
      return;
    }
    return Note(noted, byParty), consumed;
  }

  /** consumed.add and consumed.update after a recorded group. */
  method UseUp(p: Progress, consumed: set<TxnId>, kind: MatchKind, single: TxnId, members: seq<TxnId>,
               recorded: bool, ghost more: Progress)
    returns (used: set<TxnId>)
    requires consumed == Consumed(p.groups)
    requires more == if recorded then Recorded(p, kind, single, members)
                     else p.(counts := p.counts.(conflicts := p.counts.conflicts + 1))
    ensures used == Consumed(more.groups)
  {
    hide Consumed;
    if recorded {
      ConsumedMore(p.groups, Grouped(kind, single, members));
      return consumed + {single} + ToSet(members);
    }
    return consumed;
  }

  /** _pass. An exception ends the pass where it is. */
  method RunPass(s: Session, config: Config, quotes: Quotes, txns: Txns, rejected: Rejections, ghost start: Db,
                 kind: MatchKind, singles: seq<TxnId>, pool: seq<TxnId>,
                 ghost internals: seq<TxnId>, ghost externals: seq<TxnId>, consumed: set<TxnId>, p: Progress)
    returns (more: Progress, used: set<TxnId>)
    requires Grouping(start, s.State(), internals, externals, p.groups) && (kind == Split || kind == Netted)
    requires txns == start.txns && rejected == RejectedRows(start, internals)
    requires singles == SinglesOf(kind, internals, externals) && (forall t :: t in singles ==> t in txns)
    requires pool == PoolOf(kind, internals, externals) && (forall t :: t in pool ==> t in txns)
    requires consumed == Consumed(p.groups) && !p.raised
    modifies s
    ensures more == Pass(config, quotes, txns, rejected, ClaimedAmong(start, internals + externals), kind, singles,
                         pool, p)
    ensures used == Consumed(more.groups)
    ensures Grouping(start, s.State(), internals, externals, more.groups)
  {
    hide Grouping, IndexOf, Consumed, Turn, Pass, ClaimedAmong, RejectedRows;
    ghost var claimed := ClaimedAmong(start, internals + externals);
    var stems := BuildIndex(config, txns, Stem, pool);
    var parties := BuildIndex(config, txns, Party, pool);
    more, used := p, consumed;
    PassStarts(config, quotes, txns, rejected, claimed, kind, singles[..0], pool, p);
    for k := 0 to |singles|
      invariant more == Pass(config, quotes, txns, rejected, claimed, kind, singles[..k], pool, p)
      invariant used == Consumed(more.groups) && !more.raised
      invariant Grouping(start, s.State(), internals, externals, more.groups)
    {
      PassNext(config, quotes, txns, rejected, claimed, kind, singles, pool, p, k);
      more, used := TakeTurn(s, config, quotes, txns, rejected, start, stems, parties, kind, pool,
                             internals, externals, used, more, singles[k]);
      if more.raised {
        PassStays(config, quotes, txns, rejected, claimed, kind, singles, pool, p, k + 1);
        return;
      }
    }
    assert singles[..|singles|] == singles;
  }

  lemma PassStarts(config: Config, quotes: Quotes, txns: Txns, rejected: Rejections, claimed: set<TxnId>,
                   kind: MatchKind, singles: seq<TxnId>, pool: seq<TxnId>, p: Progress)
    requires singles == []
    ensures Pass(config, quotes, txns, rejected, claimed, kind, singles, pool, p) == p
  {
  }

  lemma PassNext(config: Config, quotes: Quotes, txns: Txns, rejected: Rejections, claimed: set<TxnId>,
                 kind: MatchKind, singles: seq<TxnId>, pool: seq<TxnId>, p: Progress, k: nat)
    requires k < |singles|
    ensures Pass(config, quotes, txns, rejected, claimed, kind, singles[..k + 1], pool, p)
            == Turn(config, quotes, txns, rejected, claimed, kind, pool,
                    Pass(config, quotes, txns, rejected, claimed, kind, singles[..k], pool, p), singles[k])
  {
    hide Turn;
    assert singles[..k + 1][..k] == singles[..k];
  }

  lemma {:induction false} PassStays(config: Config, quotes: Quotes, txns: Txns, rejected: Rejections,
                                     claimed: set<TxnId>, kind: MatchKind, singles: seq<TxnId>, pool: seq<TxnId>,
                                     p: Progress, k: nat)
    requires k <= |singles| && Pass(config, quotes, txns, rejected, claimed, kind, singles[..k], pool, p).raised
    ensures Pass(config, quotes, txns, rejected, claimed, kind, singles, pool, p)
            == Pass(config, quotes, txns, rejected, claimed, kind, singles[..k], pool, p)
    decreases |singles| - k
  {
    hide Attempt, Pass;
    if k < |singles| {
      PassNext(config, quotes, txns, rejected, claimed, kind, singles, pool, p, k);
      PassStays(config, quotes, txns, rejected, claimed, kind, singles, pool, p, k + 1);
    } else {
      assert singles[..k] == singles;
    }
  }

  /** GroupMatchingStrategy.run: the split pass, then the netted pass on what it left. */
  method RunGroups(s: Session, config: Config, quotes: Quotes, internals: seq<TxnId>, externals: seq<TxnId>)
    returns (p: Progress)
    requires Valid(s.State()) && Candidates(s.State(), internals) && Candidates(s.State(), externals)
    requires Sourced(s.txns, internals, externals)
    modifies s
    ensures p == TwoPasses(config, quotes, old(s.txns), RejectedRows(old(s.State()), internals),
                           ClaimedAmong(old(s.State()), internals + externals), internals, externals)
    ensures StageRun(old(s.State()), s.State(), GroupSteps(p.groups), internals, externals)
    ensures StageOk(old(s.State()), s.State(), internals, externals)
  {
    hide Consumed, ClaimedAmong, RejectedRows, Valid, StageRun, StageOk, Candidates, Claimed, Pass;
    ghost var start := s.State();
    var txns := s.txns;
    var rejected := RejectedPairs(s, internals);
    GroupingStarts(start, internals, externals);
    NothingConsumed();
    var used: set<TxnId>;
    p, used := RunPass(s, config, quotes, txns, rejected, start, Split, internals, externals, internals, externals, {},
                       BEGIN);
    if p.raised {
      assert externals[..0] == [];
      PassStarts(config, quotes, txns, rejected, ClaimedAmong(start, internals + externals), Netted, externals[..0],
                 internals, p);
      PassStays(config, quotes, txns, rejected, ClaimedAmong(start, internals + externals), Netted, externals,
                internals, p, 0);
      return;
    }
    p, used := RunPass(s, config, quotes, txns, rejected, start, Netted, externals, internals, internals, externals,
                       used, p);
  }

  lemma NothingConsumed()
    ensures Consumed([]) == {}
  {
  }
}

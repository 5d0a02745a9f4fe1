/** What the group strategy does not miss: a transaction left without a group had no linked set that settles it,
    neither whole nor as the only fitting subset the search could find. */
module GroupCompleteness {
  import opened Ledger
  import opened Repository
  import opened FxConvert
  import opened GroupMatching
  import opened GroupLaws
  import SubsetSum

  /** These candidates settle the amount: all together, or a subset the search is allowed to look for and finds to
      be the only one that fits. */
  ghost predicate Settleable(config: Config, max: nat, candidates: seq<TxnId>, legs: Legs) {
    && legs.Legs?
    && (|| (2 <= |candidates| <= max && legs.low <= Total(legs.amounts) <= legs.high)
        || (|candidates| <= config.maxSearch
            && !SubsetSum.ReachesMoreThan(legs.amounts, legs.high, max, config.maxStates)
            && exists w :: SubsetSum.OnlyFit(legs.amounts, legs.low, legs.high, 2, max, w)))
  }

  /** No set of candidates linked to the single side in one way, out of those not used yet, settles it. */
  ghost predicate NothingSettles(config: Config, max: nat, quotes: Quotes, txns: Txns, rejected: Rejections, link: Link,
                                 used: set<TxnId>, pool: seq<TxnId>, single: TxnId) {
    forall candidates, legs ::
      AllCandidates(config, txns, rejected, link, used, pool, single, candidates) && |candidates| >= 2
      && Compared(config, quotes, txns, single, candidates, legs) ==>
        !Settleable(config, max, candidates, legs)
  }

  lemma CandidatesAreTheList(config: Config, txns: Txns, rejected: Rejections, link: Link, used: set<TxnId>,
                             pool: seq<TxnId>, single: TxnId, candidates: seq<TxnId>)
    requires AllCandidates(config, txns, rejected, link, used, pool, single, candidates)
    ensures candidates == CandidateList(config, txns, rejected, link, used, pool, single)
  {
    hide Belongs, Candidate;
    ListHasAllCandidates(config, txns, rejected, link, used, pool, single);
    var ids := CandidateList(config, txns, rejected, link, used, pool, single);
    OrderedByDate(txns, candidates);
    OrderedByDate(txns, ids);
    PoolIsUnique(WithoutLines(txns), candidates, ids);
  }

  lemma OrderedByDate(txns: Txns, ids: seq<TxnId>)
    requires forall t :: t in ids ==> t in txns
    requires forall j, k :: 0 <= j < k < |ids| ==>
               || txns[ids[j]].date < txns[ids[k]].date
               || (txns[ids[j]].date == txns[ids[k]].date && ids[j] < ids[k])
    ensures Ordered(WithoutLines(txns), ids)
  {
  }

  lemma SettleableIsSelected(config: Config, max: nat, quotes: Quotes, txns: Txns, single: TxnId,
                             candidates: seq<TxnId>, legs: Legs)
    requires single in txns && forall t :: t in candidates ==> t in txns
    requires legs == LegsOf(config, quotes, txns, single, candidates) && legs.Legs?
    requires Settleable(config, max, candidates, legs)
    ensures var f := Fit(config, max, quotes, txns, single, candidates);
            f.Chosen? || f.Raises?
  {
    hide LegsOf, SubsetSum.ReachesMoreThan, DetailsFail;
    if w :| SubsetSum.OnlyFit(legs.amounts, legs.low, legs.high, 2, max, w) {
      assert !SubsetSum.NoneFit(legs.amounts, legs.low, legs.high, 2, max);
    }
  }

  /** An attempt that neither chooses nor raises found nothing that settles. */
  lemma FailedAttempt(config: Config, quotes: Quotes, txns: Txns, rejected: Rejections, link: Link, kind: MatchKind,
                      pool: seq<TxnId>, used: set<TxnId>, single: TxnId)
    requires var f := Attempt(config, quotes, txns, rejected, link, kind, pool, used, single);
             !f.Chosen? && !f.Raises?
    ensures NothingSettles(config, MaxMembers(config, kind), quotes, txns, rejected, link, used, pool, single)
  {
    hide Fit, CandidateList, LegsOf, Compared, AllCandidates, Settleable;
    forall candidates, legs
      | AllCandidates(config, txns, rejected, link, used, pool, single, candidates) && |candidates| >= 2
        && Compared(config, quotes, txns, single, candidates, legs)
      ensures !Settleable(config, MaxMembers(config, kind), candidates, legs)
    {
      CandidatesAreTheList(config, txns, rejected, link, used, pool, single, candidates);
      CandidatesKnown(config, txns, rejected, link, used, pool, single, candidates);
      LegsAreCompared(config, quotes, txns, single, candidates, legs);
      if Settleable(config, MaxMembers(config, kind), candidates, legs) {
        SettleableIsSelected(config, MaxMembers(config, kind), quotes, txns, single, candidates, legs);
      }
    }
  }

  lemma CandidatesKnown(config: Config, txns: Txns, rejected: Rejections, link: Link, used: set<TxnId>,
                        pool: seq<TxnId>, single: TxnId, candidates: seq<TxnId>)
    requires AllCandidates(config, txns, rejected, link, used, pool, single, candidates)
    ensures single in txns && forall t :: t in candidates ==> t in txns
  {
  }

  /** The turn of a single side that stays without a group, nobody else having claimed anything. */
  lemma FailedTurn(config: Config, quotes: Quotes, txns: Txns, rejected: Rejections, kind: MatchKind,
                   pool: seq<TxnId>, p: Progress, single: TxnId)
    requires var after := Turn(config, quotes, txns, rejected, {}, kind, pool, p, single);
             !after.raised && single !in Consumed(after.groups)
    requires single !in Consumed(p.groups)
    ensures forall link ::
              NothingSettles(config, MaxMembers(config, kind), quotes, txns, rejected, link, Consumed(p.groups), pool,
                             single)
  {
    hide Attempt, NothingSettles;
    var byStem := Attempt(config, quotes, txns, rejected, Stem, kind, pool, Consumed(p.groups), single);
    var byParty := Attempt(config, quotes, txns, rejected, Party, kind, pool, Consumed(p.groups), single);
    if byStem.Chosen? {
      RecordedIsConsumed(p, kind, single, byStem.members);
    } else if byParty.Chosen? {
      RecordedIsConsumed(Note(p, byStem), kind, single, byParty.members);
    }
    FailedAttempt(config, quotes, txns, rejected, Stem, kind, pool, Consumed(p.groups), single);
    FailedAttempt(config, quotes, txns, rejected, Party, kind, pool, Consumed(p.groups), single);
    forall link
      ensures NothingSettles(config, MaxMembers(config, kind), quotes, txns, rejected, link, Consumed(p.groups), pool,
                             single)
    {
      assert link == Stem || link == Party;
    }
  }

  lemma RecordedIsConsumed(p: Progress, kind: MatchKind, single: TxnId, members: seq<TxnId>)
    ensures single in Consumed(Settle(p, kind, single, members, {}).groups)
  {
    var g := Grouped(kind, single, members);
    assert (p.groups + [g])[..|p.groups|] == p.groups;
  }

  /** A turn records at most one group, of its kind and for its single side; when that is linked by counterparty,
      nothing linked by a stem settled. */
  lemma TurnGrows(config: Config, quotes: Quotes, txns: Txns, rejected: Rejections, claimed: set<TxnId>,
                  kind: MatchKind, pool: seq<TxnId>, p: Progress, single: TxnId)
    ensures var after := Turn(config, quotes, txns, rejected, claimed, kind, pool, p, single);
            && p.groups <= after.groups && |after.groups| <= |p.groups| + 1 && (p.raised ==> after.raised)
            && (|after.groups| > |p.groups| ==>
                  var g, used := after.groups[|p.groups|], Consumed(p.groups);
                  && g.kind == kind && g.single == single
                  && var byStem := Attempt(config, quotes, txns, rejected, Stem, kind, pool, used, single);
                     if byStem.Chosen? then g.members == byStem.members else !byStem.Raises?)
  {
    hide Attempt;
  }

  lemma {:induction false} PassGrows(config: Config, quotes: Quotes, txns: Txns, rejected: Rejections,
                                     claimed: set<TxnId>, kind: MatchKind, singles: seq<TxnId>, pool: seq<TxnId>,
                                     p: Progress)
    ensures var after := Pass(config, quotes, txns, rejected, claimed, kind, singles, pool, p);
            p.groups <= after.groups && (p.raised ==> after.raised)
    decreases singles
  {
    hide Turn;
    if singles != [] {
      var n := |singles| - 1;
      PassGrows(config, quotes, txns, rejected, claimed, kind, singles[..n], pool, p);
      TurnGrows(config, quotes, txns, rejected, claimed, kind, pool,
                Pass(config, quotes, txns, rejected, claimed, kind, singles[..n], pool, p), singles[n]);
    }
  }

  lemma {:induction false} ConsumedGrows(few: seq<Grouped>, more: seq<Grouped>)
    requires few <= more
    ensures Consumed(few) <= Consumed(more)
    decreases |more|
  {
    if few != more {
      assert few <= more[..|more| - 1];
      ConsumedGrows(few, more[..|more| - 1]);
    } else {
      assert few == more;
    }
  }

  // ------------------------------------------------------------------- whose turn it is

  /** The group was recorded in a turn before that of the single side: in the first of the two passes, or in the same
      pass for a side further ahead. */
  ghost predicate Earlier(kind: MatchKind, singles: seq<TxnId>, g: Grouped, single: TxnId) {
    (g.kind == Split && kind == Netted) || (g.kind == kind && Precedes(singles, g.single, single))
  }

  ghost predicate AllEarlier(kind: MatchKind, singles: seq<TxnId>, groups: seq<Grouped>, single: TxnId) {
    forall k :: 0 <= k < |groups| ==> Earlier(kind, singles, groups[k], single)
  }

  ghost predicate Later(kind: MatchKind, singles: seq<TxnId>, g: Grouped, single: TxnId) {
    (kind == Split && g.kind == Netted) || (g.kind == kind && Precedes(singles, single, g.single))
  }

  lemma PassNext(config: Config, quotes: Quotes, txns: Txns, rejected: Rejections, claimed: set<TxnId>,
                 kind: MatchKind, singles: seq<TxnId>, pool: seq<TxnId>, p: Progress)
    requires singles != []
    ensures Pass(config, quotes, txns, rejected, claimed, kind, singles, pool, p)
            == Turn(config, quotes, txns, rejected, claimed, kind, pool,
                    Pass(config, quotes, txns, rejected, claimed, kind, singles[..|singles| - 1], pool, p),
                    singles[|singles| - 1])
  {
  }

  lemma NoTurns(config: Config, quotes: Quotes, txns: Txns, rejected: Rejections, claimed: set<TxnId>,
                kind: MatchKind, pool: seq<TxnId>, p: Progress)
    ensures Pass(config, quotes, txns, rejected, claimed, kind, [], pool, p) == p
  {
  }

  /** Each group a pass adds was recorded in one of its turns. */
  lemma {:induction false} PassMakes(config: Config, quotes: Quotes, txns: Txns, rejected: Rejections,
                                     claimed: set<TxnId>, kind: MatchKind, singles: seq<TxnId>, pool: seq<TxnId>,
                                     p: Progress, k: nat)
    returns (n: nat)
    requires |p.groups| <= k < |Pass(config, quotes, txns, rejected, claimed, kind, singles, pool, p).groups|
    ensures n < |singles|
    ensures var before := Pass(config, quotes, txns, rejected, claimed, kind, singles[..n], pool, p);
            var after := Turn(config, quotes, txns, rejected, claimed, kind, pool, before, singles[n]);
            && before.groups == Pass(config, quotes, txns, rejected, claimed, kind, singles, pool, p).groups[..k]
            && |after.groups| > k
            && after.groups[k] == Pass(config, quotes, txns, rejected, claimed, kind, singles, pool, p).groups[k]
    decreases singles
  {
    hide *;
    NoTurns(config, quotes, txns, rejected, claimed, kind, pool, p);
    n := |singles| - 1;
    PassNext(config, quotes, txns, rejected, claimed, kind, singles, pool, p);
    var before := Pass(config, quotes, txns, rejected, claimed, kind, singles[..n], pool, p);
    TurnGrows(config, quotes, txns, rejected, claimed, kind, pool, before, singles[n]);
    if k < |before.groups| {
      var m := PassMakes(config, quotes, txns, rejected, claimed, kind, singles[..n], pool, p, k);
      assert singles[..n][..m] == singles[..m];
      n := m;
    }
  }

  /** In a pass the single sides take their turns in the order of their pool. */
  lemma {:induction false} PassInOrder(config: Config, quotes: Quotes, txns: Txns, rejected: Rejections,
                                       claimed: set<TxnId>, kind: MatchKind, singles: seq<TxnId>, pool: seq<TxnId>,
                                       p: Progress, j: nat, k: nat)
    requires |p.groups| <= j < k
    requires k < |Pass(config, quotes, txns, rejected, claimed, kind, singles, pool, p).groups|
    ensures var groups := Pass(config, quotes, txns, rejected, claimed, kind, singles, pool, p).groups;
            groups[j].kind == groups[k].kind == kind && Precedes(singles, groups[j].single, groups[k].single)
  {
    hide Turn, Pass;
    var groups := Pass(config, quotes, txns, rejected, claimed, kind, singles, pool, p).groups;
    var n := PassMakes(config, quotes, txns, rejected, claimed, kind, singles, pool, p, k);
    var before := Pass(config, quotes, txns, rejected, claimed, kind, singles[..n], pool, p);
    TurnGrows(config, quotes, txns, rejected, claimed, kind, pool, before, singles[n]);
    var m := PassMakes(config, quotes, txns, rejected, claimed, kind, singles[..n], pool, p, j);
    assert singles[..n][..m] == singles[..m];
    TurnGrows(config, quotes, txns, rejected, claimed, kind, pool,
              Pass(config, quotes, txns, rejected, claimed, kind, singles[..m], pool, p), singles[m]);
    assert groups[j] == before.groups[j];
    assert singles[m] == groups[j].single && singles[n] == groups[k].single;
  }

  /** The groups of a run in the order of their turns: first those with an internal single side, in the order of the
      internals, then those with an external one, in the order of the externals. */
  lemma GroupsAreInOrder(config: Config, quotes: Quotes, txns: Txns, rejected: Rejections, claimed: set<TxnId>,
                         internals: seq<TxnId>, externals: seq<TxnId>, j: nat, k: nat)
    requires j < k < |TwoPasses(config, quotes, txns, rejected, claimed, internals, externals).groups|
    ensures var groups := TwoPasses(config, quotes, txns, rejected, claimed, internals, externals).groups;
            var a, b := groups[j], groups[k];
            || (a.kind == Split && b.kind == Netted)
            || (a.kind == Split && b.kind == Split && Precedes(internals, a.single, b.single))
            || (a.kind == Netted && b.kind == Netted && Precedes(externals, a.single, b.single))
  {
    hide Pass, Turn, Precedes;
    var first := Pass(config, quotes, txns, rejected, claimed, Split, internals, externals, BEGIN);
    PassGrows(config, quotes, txns, rejected, claimed, Netted, externals, internals, first);
    if k < |first.groups| {
      PassInOrder(config, quotes, txns, rejected, claimed, Split, internals, externals, BEGIN, j, k);
    } else {
      PassKind(config, quotes, txns, rejected, claimed, Netted, externals, internals, first, k);
      if j < |first.groups| {
        PassKind(config, quotes, txns, rejected, claimed, Split, internals, externals, BEGIN, j);
      } else {
        PassInOrder(config, quotes, txns, rejected, claimed, Netted, externals, internals, first, j, k);
      }
    }
  }

  lemma PassKind(config: Config, quotes: Quotes, txns: Txns, rejected: Rejections, claimed: set<TxnId>,
                 kind: MatchKind, singles: seq<TxnId>, pool: seq<TxnId>, p: Progress, k: nat)
    requires |p.groups| <= k < |Pass(config, quotes, txns, rejected, claimed, kind, singles, pool, p).groups|
    ensures Pass(config, quotes, txns, rejected, claimed, kind, singles, pool, p).groups[k].kind == kind
  {
    hide Turn, Pass;
    var n := PassMakes(config, quotes, txns, rejected, claimed, kind, singles, pool, p, k);
    TurnGrows(config, quotes, txns, rejected, claimed, kind, pool,
              Pass(config, quotes, txns, rejected, claimed, kind, singles[..n], pool, p), singles[n]);
  }

  /** A stem goes before a counterparty: a group whose members share no stem with its single side was recorded only
      because nothing that did settled. */
  lemma StemGoesFirst(config: Config, quotes: Quotes, txns: Txns, rejected: Rejections, claimed: set<TxnId>,
                      internals: seq<TxnId>, externals: seq<TxnId>, k: nat)
    requires k < |TwoPasses(config, quotes, txns, rejected, claimed, internals, externals).groups|
    ensures var groups := TwoPasses(config, quotes, txns, rejected, claimed, internals, externals).groups;
            var g, before := groups[k], groups[..k];
            var pool, max := if g.kind == Split then externals else internals,
                             if g.kind == Split then config.maxSplit else config.maxNetted;
            || SoundBy(config, quotes, txns, rejected, pool, before, g, Stem)
            || NothingSettles(config, max, quotes, txns, rejected, Stem, Consumed(before), pool, g.single)
  {
    hide Pass;
    var first := Pass(config, quotes, txns, rejected, claimed, Split, internals, externals, BEGIN);
    PassGrows(config, quotes, txns, rejected, claimed, Netted, externals, internals, first);
    if k < |first.groups| {
      StemFirstInPass(config, quotes, txns, rejected, claimed, Split, internals, externals, BEGIN, k);
    } else {
      StemFirstInPass(config, quotes, txns, rejected, claimed, Netted, externals, internals, first, k);
    }
    hide *;
    var groups := TwoPasses(config, quotes, txns, rejected, claimed, internals, externals).groups;
    assert k < |first.groups| ==> groups[..k] == first.groups[..k] && groups[k] == first.groups[k];
  }

  lemma StemFirstInPass(config: Config, quotes: Quotes, txns: Txns, rejected: Rejections, claimed: set<TxnId>,
                        kind: MatchKind, singles: seq<TxnId>, pool: seq<TxnId>, p: Progress, k: nat)
    requires |p.groups| <= k < |Pass(config, quotes, txns, rejected, claimed, kind, singles, pool, p).groups|
    ensures var groups := Pass(config, quotes, txns, rejected, claimed, kind, singles, pool, p).groups;
            var g, before := groups[k], groups[..k];
            && g.kind == kind
            && (|| SoundBy(config, quotes, txns, rejected, pool, before, g, Stem)
                || NothingSettles(config, MaxMembers(config, kind), quotes, txns, rejected, Stem, Consumed(before),
                                  pool, g.single))
  {
    hide Turn, Pass, Attempt, SoundBy, NothingSettles, Consumed;
    var n := PassMakes(config, quotes, txns, rejected, claimed, kind, singles, pool, p, k);
    var before := Pass(config, quotes, txns, rejected, claimed, kind, singles[..n], pool, p);
    TurnGrows(config, quotes, txns, rejected, claimed, kind, pool, before, singles[n]);
    var used, single := Consumed(before.groups), singles[n];
    if Attempt(config, quotes, txns, rejected, Stem, kind, pool, used, single).Chosen? {
      AttemptIsSound(config, quotes, txns, rejected, Stem, kind, pool, before.groups, single);
    } else {
      FailedAttempt(config, quotes, txns, rejected, Stem, kind, pool, used, single);
    }
  }

  // ------------------------------------------------------------------- nothing is missed

  /** The turn of the single side, with the first m groups of the run recorded before it and the others after it:
      nothing that was left settled it. */
  ghost predicate HadNothing(config: Config, quotes: Quotes, txns: Txns, rejected: Rejections, kind: MatchKind,
                             singles: seq<TxnId>, pool: seq<TxnId>, groups: seq<Grouped>, single: TxnId) {
    var max := if kind == Split then config.maxSplit else config.maxNetted;
    exists m: nat :: m <= |groups|
                     && AllEarlier(kind, singles, groups[..m], single)
                     && (forall k :: m <= k < |groups| ==> Later(kind, singles, groups[k], single))
                     && NothingSettles(config, max, quotes, txns, rejected, Stem, Consumed(groups[..m]), pool, single)
                     && NothingSettles(config, max, quotes, txns, rejected, Party, Consumed(groups[..m]), pool, single)
  }

  lemma FoundNothing(config: Config, quotes: Quotes, txns: Txns, rejected: Rejections, kind: MatchKind,
                     singles: seq<TxnId>, pool: seq<TxnId>, groups: seq<Grouped>, single: TxnId, m: nat)
    requires m <= |groups|
    requires AllEarlier(kind, singles, groups[..m], single)
    requires forall k :: m <= k < |groups| ==> Later(kind, singles, groups[k], single)
    requires forall link ::
               NothingSettles(config, MaxMembers(config, kind), quotes, txns, rejected, link, Consumed(groups[..m]),
                              pool, single)
    ensures HadNothing(config, quotes, txns, rejected, kind, singles, pool, groups, single)
  {
    hide NothingSettles, Consumed, AllEarlier, Later;
    var max := MaxMembers(config, kind);
    assert NothingSettles(config, max, quotes, txns, rejected, Stem, Consumed(groups[..m]), pool, single);
    assert NothingSettles(config, max, quotes, txns, rejected, Party, Consumed(groups[..m]), pool, single);
  }

  ghost predicate AllSplit(groups: seq<Grouped>) {
    forall k :: 0 <= k < |groups| ==> groups[k].kind == Split
  }

  /** What the turns before the n-th recorded came earlier. */
  lemma AddedEarlier(config: Config, quotes: Quotes, txns: Txns, rejected: Rejections, kind: MatchKind,
                     singles: seq<TxnId>, n: nat, pool: seq<TxnId>, p: Progress)
    requires n < |singles|
    requires p.groups != [] ==> kind == Netted && AllSplit(p.groups)
    ensures var before := Pass(config, quotes, txns, rejected, {}, kind, singles[..n], pool, p);
            AllEarlier(kind, singles, before.groups, singles[n])
  {
    hide Turn, Pass;
    var before := Pass(config, quotes, txns, rejected, {}, kind, singles[..n], pool, p);
    PassGrows(config, quotes, txns, rejected, {}, kind, singles[..n], pool, p);
    forall k | 0 <= k < |before.groups| ensures Earlier(kind, singles, before.groups[k], singles[n]) {
      if k >= |p.groups| {
        var m := PassMakes(config, quotes, txns, rejected, {}, kind, singles[..n], pool, p, k);
        TurnGrows(config, quotes, txns, rejected, {}, kind, pool,
                  Pass(config, quotes, txns, rejected, {}, kind, singles[..n][..m], pool, p), singles[..n][m]);
        assert singles[m] == before.groups[k].single;
      }
    }
  }

  lemma RecordedLater(kind: MatchKind, singles: seq<TxnId>, g: Grouped, x: nat, y: nat)
    requires x < y < |singles| && g.kind == kind && g.single == singles[y]
    ensures Later(kind, singles, g, singles[x])
  {
  }

  lemma TurnMissesNothing(config: Config, quotes: Quotes, txns: Txns, rejected: Rejections, kind: MatchKind,
                          singles: seq<TxnId>, pool: seq<TxnId>, before: Progress, final: seq<Grouped>, x: nat)
    requires x < |singles| && AllEarlier(kind, singles, before.groups, singles[x])
    requires var after := Turn(config, quotes, txns, rejected, {}, kind, pool, before, singles[x]);
             && !after.raised && after.groups <= final
             && forall k :: |after.groups| <= k < |final| ==> Later(kind, singles, final[k], singles[x])
    requires singles[x] !in Consumed(final)
    ensures HadNothing(config, quotes, txns, rejected, kind, singles, pool, final, singles[x])
  {
    hide *;
    var after, single := Turn(config, quotes, txns, rejected, {}, kind, pool, before, singles[x]), singles[x];
    var m := |before.groups|;
    TurnGrows(config, quotes, txns, rejected, {}, kind, pool, before, single);
    ConsumedGrows(after.groups, final);
    ConsumedGrows(before.groups, final);
    FailedTurn(config, quotes, txns, rejected, kind, pool, before, single);
    if |after.groups| > m {
      ConsumedHolds(after.groups, m);
    }
    assert final[..m] == before.groups;
    FoundNothing(config, quotes, txns, rejected, kind, singles, pool, final, single, m);
  }

  lemma {:induction false} PassMissesNothing(config: Config, quotes: Quotes, txns: Txns, rejected: Rejections,
                                             kind: MatchKind, singles: seq<TxnId>, n: nat, pool: seq<TxnId>,
                                             p: Progress, final: seq<Grouped>, x: nat)
    requires x < n <= |singles| && (kind == Split || kind == Netted)
    requires p.groups != [] ==> kind == Netted && AllSplit(p.groups)
    requires var after := Pass(config, quotes, txns, rejected, {}, kind, singles[..n], pool, p);
             && !after.raised && after.groups <= final
             && forall k :: |after.groups| <= k < |final| ==> Later(kind, singles, final[k], singles[x])
    requires singles[x] !in Consumed(final)
    ensures HadNothing(config, quotes, txns, rejected, kind, singles, pool, final, singles[x])
    decreases n
  {
    hide *;
    var single := singles[n - 1];
    assert singles[..n][..n - 1] == singles[..n - 1];
    var before := Pass(config, quotes, txns, rejected, {}, kind, singles[..n - 1], pool, p);
    var after := Pass(config, quotes, txns, rejected, {}, kind, singles[..n], pool, p);
    PassNext(config, quotes, txns, rejected, {}, kind, singles[..n], pool, p);
    TurnGrows(config, quotes, txns, rejected, {}, kind, pool, before, single);
    if x == n - 1 {
      AddedEarlier(config, quotes, txns, rejected, kind, singles, n - 1, pool, p);
      TurnMissesNothing(config, quotes, txns, rejected, kind, singles, pool, before, final, x);
    } else {
      forall k | |before.groups| <= k < |final| ensures Later(kind, singles, final[k], singles[x]) {
        if k < |after.groups| {
          assert final[k] == after.groups[k];
          RecordedLater(kind, singles, final[k], x, n - 1);
        }
      }
      PassMissesNothing(config, quotes, txns, rejected, kind, singles, n - 1, pool, p, final, x);
    }
  }

  /** No settlement is missed: when a run with nothing claimed beside it goes through, every transaction of either
      side that is in none of its groups had, when its turn came, no linked set left that settles it. */
  lemma UngroupedHadNothing(config: Config, quotes: Quotes, txns: Txns, rejected: Rejections,
                            internals: seq<TxnId>, externals: seq<TxnId>, single: TxnId)
    requires !TwoPasses(config, quotes, txns, rejected, {}, internals, externals).raised
    requires forall g :: g in TwoPasses(config, quotes, txns, rejected, {}, internals, externals).groups ==>
               g.single != single && single !in g.members
    ensures var groups := TwoPasses(config, quotes, txns, rejected, {}, internals, externals).groups;
            && (single in internals ==>
                  HadNothing(config, quotes, txns, rejected, Split, internals, externals, groups, single))
            && (single in externals ==>
                  HadNothing(config, quotes, txns, rejected, Netted, externals, internals, groups, single))
  {
    hide Pass, HadNothing;
    var first := Pass(config, quotes, txns, rejected, {}, Split, internals, externals, BEGIN);
    var groups := TwoPasses(config, quotes, txns, rejected, {}, internals, externals).groups;
    PassGrows(config, quotes, txns, rejected, {}, Netted, externals, internals, first);
    NotConsumed(groups, single);
    FirstPassIsSplit(config, quotes, txns, rejected, internals, externals);
    if single in internals {
      var x :| 0 <= x < |internals| && internals[x] == single;
      assert internals[..|internals|] == internals;
      PassMissesNothing(config, quotes, txns, rejected, Split, internals, |internals|, externals, BEGIN, groups, x);
    }
    if single in externals {
      var x :| 0 <= x < |externals| && externals[x] == single;
      assert externals[..|externals|] == externals;
      PassMissesNothing(config, quotes, txns, rejected, Netted, externals, |externals|, internals, first, groups, x);
    }
  }

  lemma FirstPassIsSplit(config: Config, quotes: Quotes, txns: Txns, rejected: Rejections, internals: seq<TxnId>,
                         externals: seq<TxnId>)
    ensures var first := Pass(config, quotes, txns, rejected, {}, Split, internals, externals, BEGIN);
            var groups := TwoPasses(config, quotes, txns, rejected, {}, internals, externals).groups;
            && |first.groups| <= |groups|
            && AllSplit(first.groups)
            && (forall k :: |first.groups| <= k < |groups| ==> groups[k].kind == Netted)
  {
    hide Pass;
    var first := Pass(config, quotes, txns, rejected, {}, Split, internals, externals, BEGIN);
    var groups := TwoPasses(config, quotes, txns, rejected, {}, internals, externals).groups;
    PassGrows(config, quotes, txns, rejected, {}, Netted, externals, internals, first);
    forall k | 0 <= k < |first.groups| ensures first.groups[k].kind == Split {
      PassKind(config, quotes, txns, rejected, {}, Split, internals, externals, BEGIN, k);
    }
    forall k | |first.groups| <= k < |groups| ensures groups[k].kind == Netted {
      PassKind(config, quotes, txns, rejected, {}, Netted, externals, internals, first, k);
    }
  }

  lemma {:induction false} NotConsumed(groups: seq<Grouped>, t: TxnId)
    requires forall g :: g in groups ==> g.single != t && t !in g.members
    ensures t !in Consumed(groups)
  {
    if groups != [] {
      assert groups[|groups| - 1] in groups;
      NotConsumed(groups[..|groups| - 1], t);
    }
  }

  // ------------------------------------------------------------------- what else a fit answers

  /** A rate is missing: the legs are in several currencies and one of them cannot be valued. */
  ghost predicate RateIsMissing(quotes: Quotes, txns: Txns, single: TxnId, candidates: seq<TxnId>)
    requires single in txns && forall t :: t in candidates ==> t in txns
  {
    && (exists t :: t in candidates && txns[t].currency != txns[single].currency)
    && (|| (forall v :: !WorthInr(quotes, txns[single], v))
        || (exists t :: t in candidates && forall v :: !WorthInr(quotes, txns[t], v)))
  }

  lemma MissingIsNoWorth(quotes: Quotes, txn: Txn)
    ensures LegInr(quotes, txn) == None <==> forall v :: !WorthInr(quotes, txn, v)
  {
    hide LegInr, WorthInr;
    if LegInr(quotes, txn).Some? {
      LegIsWorth(quotes, txn, LegInr(quotes, txn).value);
    }
    if v :| WorthInr(quotes, txn, v) {
      LegIsWorth(quotes, txn, v);
    }
  }

  /** A fit lacks a rate exactly when one is missing. */
  lemma MissingFxIff(config: Config, max: nat, quotes: Quotes, txns: Txns, single: TxnId, candidates: seq<TxnId>)
    requires single in txns && forall t :: t in candidates ==> t in txns
    ensures Fit(config, max, quotes, txns, single, candidates) == MissingFx
            <==> RateIsMissing(quotes, txns, single, candidates)
  {
    hide LegInr, WorthInr, Window, WholeSettles, SearchFor, DetailsFail;
    MissingIsNoWorth(quotes, txns[single]);
    forall t | t in candidates ensures LegInr(quotes, txns[t]) == None <==> forall v :: !WorthInr(quotes, txns[t], v) {
      MissingIsNoWorth(quotes, txns[t]);
    }
    hide Selection;
    SelectionMissing(config, max, quotes, txns, single, candidates);
  }

  lemma SelectionMissing(config: Config, max: nat, quotes: Quotes, txns: Txns, single: TxnId, candidates: seq<TxnId>)
    requires single in txns && forall t :: t in candidates ==> t in txns
    ensures Selection(config, max, quotes, txns, single, candidates) == MissingFx
            <==> LegsOf(config, quotes, txns, single, candidates) == MissingRate
  {
    hide LegsOf, SubsetSum.ReachesMoreThan;
  }

  /** With the legs known and the search able to run, a fit that does not take the whole set answers: too complex when
      there are more candidates than may be searched or more sums than may be kept; ambiguous when several subsets fit;
      and nothing when none does. */
  lemma SearchAnswers(config: Config, max: nat, quotes: Quotes, txns: Txns, single: TxnId, candidates: seq<TxnId>,
                      legs: Legs)
    requires Compared(config, quotes, txns, single, candidates, legs)
    requires legs.low <= legs.high && max >= 2
    requires !(2 <= |candidates| <= max && legs.low <= Total(legs.amounts) <= legs.high)
    ensures var f := Fit(config, max, quotes, txns, single, candidates);
            var tooMany := |candidates| > config.maxSearch
                           || SubsetSum.ReachesMoreThan(legs.amounts, legs.high, max, config.maxStates);
            && (f == TooComplex <==> tooMany)
            && (f == Ambiguous <==> !tooMany && SubsetSum.SeveralFit(legs.amounts, legs.low, legs.high, 2, max))
            && (f == NoFit <==> !tooMany && SubsetSum.NoneFit(legs.amounts, legs.low, legs.high, 2, max))
  {
    LegsAreCompared(config, quotes, txns, single, candidates, legs);
    OneOrSeveral(legs.amounts, legs.low, legs.high, max);
    hide LegsOf, Compared, SubsetSum.ReachesMoreThan, SubsetSum.Fits, DetailsFail;
  }

  lemma OneOrSeveral(amounts: seq<int>, low: int, high: int, max: nat)
    ensures SubsetSum.SeveralFit(amounts, low, high, 2, max) <==>
            && !SubsetSum.NoneFit(amounts, low, high, 2, max)
            && !exists w :: SubsetSum.OnlyFit(amounts, low, high, 2, max, w)
  {
    hide SubsetSum.Fits;
    if w :| SubsetSum.Fits(amounts, low, high, 2, max, w) {
      if !SubsetSum.OnlyFit(amounts, low, high, 2, max, w) {
        var v :| v != w && SubsetSum.Fits(amounts, low, high, 2, max, v);
      }
    }
  }

  // ------------------------------------------------------------------- the groups are counted

  function OfKind(groups: seq<Grouped>, kind: MatchKind): nat {
    if groups == [] then 0
    else OfKind(groups[..|groups| - 1], kind) + (if groups[|groups| - 1].kind == kind then 1 else 0)
  }

  ghost predicate Counted(p: Progress) {
    p.counts.split == OfKind(p.groups, Split) && p.counts.netted == OfKind(p.groups, Netted)
  }

  lemma TurnCounts(config: Config, quotes: Quotes, txns: Txns, rejected: Rejections, claimed: set<TxnId>,
                   kind: MatchKind, pool: seq<TxnId>, p: Progress, single: TxnId)
    requires Counted(p) && (kind == Split || kind == Netted)
    ensures Counted(Turn(config, quotes, txns, rejected, claimed, kind, pool, p, single))
  {
    hide Attempt;
    var after := Turn(config, quotes, txns, rejected, claimed, kind, pool, p, single);
    if after.groups != p.groups {
      var g := after.groups[|p.groups|];
      assert after.groups == p.groups + [g];
      assert after.groups[..|p.groups|] == p.groups;
    }
  }

  lemma {:induction false} PassCounts(config: Config, quotes: Quotes, txns: Txns, rejected: Rejections,
                                      claimed: set<TxnId>, kind: MatchKind, singles: seq<TxnId>, pool: seq<TxnId>,
                                      p: Progress)
    requires Counted(p) && (kind == Split || kind == Netted)
    ensures Counted(Pass(config, quotes, txns, rejected, claimed, kind, singles, pool, p))
    decreases singles
  {
    hide Turn, Counted;
    if singles != [] {
      var n := |singles| - 1;
      PassCounts(config, quotes, txns, rejected, claimed, kind, singles[..n], pool, p);
      TurnCounts(config, quotes, txns, rejected, claimed, kind, pool,
                 Pass(config, quotes, txns, rejected, claimed, kind, singles[..n], pool, p), singles[n]);
    }
  }

  /** The two counters of a run are the numbers of its split and its netted groups. */
  lemma GroupsAreCounted(config: Config, quotes: Quotes, txns: Txns, rejected: Rejections, claimed: set<TxnId>,
                         internals: seq<TxnId>, externals: seq<TxnId>)
    ensures var p := TwoPasses(config, quotes, txns, rejected, claimed, internals, externals);
            p.counts.split == OfKind(p.groups, Split) && p.counts.netted == OfKind(p.groups, Netted)
  {
    hide Pass;
    PassCounts(config, quotes, txns, rejected, claimed, Split, internals, externals, BEGIN);
    PassCounts(config, quotes, txns, rejected, claimed, Netted, externals, internals,
               Pass(config, quotes, txns, rejected, claimed, Split, internals, externals, BEGIN));
  }
}

/** Fuzzy matching (src/recon/matching/strategies/fuzzy.py), what it decides: the best candidate of each
    external, chosen before anything is written, and which of the chosen pairs get written. */
module FuzzyMatching {
  import opened Ledger
  import opened LedgerInvariant
  import opened Stages
  import Blocking

  type Txns = map<TxnId, Txn>
  type Rejections = set<(TxnId, TxnId)>

  datatype Decision = AutoMatch | Review | NoMatch

  datatype Score = Score(decision: Decision, confidence: real)

  /** score_candidate, taken as given. */
  type Scorer = (TxnId, TxnId) -> Score

  datatype Choice = Choice(internal: TxnId, external: TxnId, status: ResultStatus)

  function Internals(chosen: seq<Choice>): set<TxnId> {
    set c | c in chosen :: c.internal
  }

  lemma InternalsMore(chosen: seq<Choice>, c: Choice)
    ensures Internals(chosen + [c]) == Internals(chosen) + {c.internal}
    ensures Internals([]) == {}
  {
    assert forall d :: d in chosen + [c] <==> d in chosen || d == c;
  }

  /** The candidates not consumed by an earlier choice and not rejected. */
  function StillAvailable(offered: seq<TxnId>, rejected: Rejections, consumed: set<TxnId>, e: TxnId): (r: seq<TxnId>)
    ensures forall i :: i in r <==> i in offered && i !in consumed && (i, e) !in rejected
  {
    if offered == [] then []
    else
      var front := StillAvailable(offered[..|offered| - 1], rejected, consumed, e);
      var i := offered[|offered| - 1];
      if i !in consumed && (i, e) !in rejected then front + [i] else front
  }

  /** _best_candidate: the first of those with the highest confidence, leaving out NO_MATCH. */
  function Best(score: Scorer, available: seq<TxnId>, e: TxnId): (best: Option<TxnId>)
    ensures best == None <==> forall i :: i in available ==> score(i, e).decision == NoMatch
    ensures best.Some? ==>
              && best.value in available && score(best.value, e).decision != NoMatch
              && forall i :: i in available && score(i, e).decision != NoMatch ==>
                               score(i, e).confidence <= score(best.value, e).confidence
  {
    if available == [] then None
    else
      var front := Best(score, available[..|available| - 1], e);
      var i := available[|available| - 1];
      if score(i, e).decision == NoMatch then front
      else if front == None || score(i, e).confidence > score(front.value, e).confidence then Some(i)
      else front
  }

  /** Among equals the one offered first wins. */
  lemma {:induction false} BestIsFirst(score: Scorer, available: seq<TxnId>, e: TxnId, k: nat)
    requires Best(score, available, e).Some? && k < |available|
    requires score(available[k], e).decision != NoMatch
    requires score(available[k], e).confidence == score(Best(score, available, e).value, e).confidence
    ensures exists j :: 0 <= j <= k && available[j] == Best(score, available, e).value
  {
    var n := |available| - 1;
    var front := available[..n];
    if k < n {
      assert front[k] == available[k] && front[k] in front;
      BestIsFirst(score, front, e, k);
      var j :| 0 <= j <= k && front[j] == Best(score, front, e).value;
      assert available[j] == front[j];
    } else {
      var best := Best(score, available, e).value;
      assert best in available;
      var j :| 0 <= j < |available| && available[j] == best;
    }
  }

  function DecidedStatus(decision: Decision): ResultStatus {
    if decision == AutoMatch then AutoMatched else PendingReview
  }

  /** What external e is offered. */
  function Offered(config: Blocking.Config, txns: Txns, internals: seq<TxnId>, e: TxnId): (r: seq<TxnId>)
    requires Blocking.Usable(config)
  {
    Blocking.Cut(Blocking.Union(config, txns, internals, e), config.cap)
  }

  function Pick(config: Blocking.Config, score: Scorer, txns: Txns, rejected: Rejections,
                internals: seq<TxnId>, before: seq<Choice>, e: TxnId): Option<TxnId>
    requires Blocking.Usable(config)
  {
    Best(score, StillAvailable(Offered(config, txns, internals, e), rejected, Internals(before), e), e)
  }

  /** Phase 1: the choices, external by external. */
  function Chosen(config: Blocking.Config, score: Scorer, txns: Txns, rejected: Rejections,
                  internals: seq<TxnId>, externals: seq<TxnId>): seq<Choice>
    requires Blocking.Usable(config)
  {
    if externals == [] then []
    else
      var front := Chosen(config, score, txns, rejected, internals, externals[..|externals| - 1]);
      var e := externals[|externals| - 1];
      match Pick(config, score, txns, rejected, internals, front, e)
      case None => front
      case Some(i) => front + [Choice(i, e, DecidedStatus(score(i, e).decision))]
  }

  lemma ChosenMore(config: Blocking.Config, score: Scorer, txns: Txns, rejected: Rejections,
                   internals: seq<TxnId>, externals: seq<TxnId>, k: nat)
    requires Blocking.Usable(config) && k < |externals|
    ensures var before, e := Chosen(config, score, txns, rejected, internals, externals[..k]), externals[k];
            var pick := Pick(config, score, txns, rejected, internals, before, e);
            Chosen(config, score, txns, rejected, internals, externals[..k + 1])
            == if pick == None then before
               else before + [Choice(pick.value, e, DecidedStatus(score(pick.value, e).decision))]
  {
    hide Pick;
    assert externals[..k + 1][..k] == externals[..k];
  }

  // ------------------------------------------------------------------- what is chosen

  /** After the choices in `before`, internal i is the best that external e is offered. */
  ghost predicate BestLeft(config: Blocking.Config, score: Scorer, txns: Txns, rejected: Rejections,
                           internals: seq<TxnId>, before: seq<Choice>, i: TxnId, e: TxnId)
    requires Blocking.Usable(config)
  {
    var offered := Offered(config, txns, internals, e);
    && i in offered && i !in Internals(before) && (i, e) !in rejected && score(i, e).decision != NoMatch
    && forall t :: t in offered && t !in Internals(before) && (t, e) !in rejected && score(t, e).decision != NoMatch ==>
                     score(t, e).confidence <= score(i, e).confidence
  }

  lemma PickIsBest(config: Blocking.Config, score: Scorer, txns: Txns, rejected: Rejections,
                   internals: seq<TxnId>, before: seq<Choice>, e: TxnId)
    requires Blocking.Usable(config)
    ensures match Pick(config, score, txns, rejected, internals, before, e)
            case Some(i) => i in internals && BestLeft(config, score, txns, rejected, internals, before, i, e)
            case None => forall i: TxnId :: !BestLeft(config, score, txns, rejected, internals, before, i, e)
  {
    OfferedAreInternals(config, txns, internals, e);
    hide Offered, Internals;
  }

  lemma OfferedAreInternals(config: Blocking.Config, txns: Txns, internals: seq<TxnId>, e: TxnId)
    requires Blocking.Usable(config)
    ensures forall i :: i in Offered(config, txns, internals, e) ==> i in internals
  {
    Blocking.UnionIsTheFilter(config, txns, internals, e);
    hide Blocking.Union;
    forall i | i in Offered(config, txns, internals, e) ensures i in internals {
      assert i in ToSet(Blocking.Union(config, txns, internals, e));
    }
  }

  /** Internal a comes before b among what an external is offered: a pass earlier, or in the same pass by the pool. */
  ghost predicate OfferedFirst(config: Blocking.Config, txns: Txns, internals: seq<TxnId>, a: TxnId, b: TxnId, e: TxnId)
    requires Blocking.Usable(config)
  {
    && a in txns && b in txns && e in txns
    && var x, y := Blocking.FirstPass(config, txns[a], txns[e]), Blocking.FirstPass(config, txns[b], txns[e]);
       x < y || (x == y && Precedes(internals, a, b))
  }

  lemma InFrontOrBehind(ids: seq<TxnId>, n: nat, k: nat)
    requires n <= |ids| && k < |ids|
    ensures k >= n || ids[k] in ids[..n]
  {
    if k < n {
      assert ids[..n][k] == ids[k];
    }
  }

  /** What an external is offered: all internals it blocks with if they are at most as many as the cap, else so many of
      them, and no other comes before one of those. */
  lemma OfferedAreTheFirst(config: Blocking.Config, txns: Txns, internals: seq<TxnId>, e: TxnId)
    requires Blocking.Usable(config)
    ensures var offered, blocked := Offered(config, txns, internals, e),
                                    Blocking.BlockedSet(config, txns, internals, e);
            && Distinct(offered) && ToSet(offered) <= blocked
            && (|blocked| <= config.cap ==> ToSet(offered) == blocked)
            && (|blocked| > config.cap ==>
                  && |offered| == config.cap
                  && forall a, b :: a in offered && b in blocked && b !in offered ==>
                                      OfferedFirst(config, txns, internals, a, b, e))
  {
    hide Blocking.Union, Blocking.BlockedSet, Blocking.FirstPass, Precedes;
    var offered, blocked := Offered(config, txns, internals, e), Blocking.BlockedSet(config, txns, internals, e);
    var all := Blocking.Union(config, txns, internals, e);
    Blocking.UnionIsTheFilter(config, txns, internals, e);
    DistinctCount(all);
    assert forall t :: t in all <==> t in blocked;
    if |blocked| > config.cap {
      assert offered == all[..config.cap];
      forall a, b | a in offered && b in blocked && b !in offered
        ensures OfferedFirst(config, txns, internals, a, b, e)
      {
        var j :| 0 <= j < config.cap && offered[j] == a;
        var k :| 0 <= k < |all| && all[k] == b;
        assert all[j] == a;
        InFrontOrBehind(all, config.cap, k);
        Blocking.UnionIsOrdered(config, txns, internals, e, j, k);
      }
    }
  }

  /** No two choices share an internal or an external. */
  ghost predicate Apart(chosen: seq<Choice>) {
    forall j, k :: 0 <= j < k < |chosen| ==>
                     chosen[j].internal != chosen[k].internal && chosen[j].external != chosen[k].external
  }

  /** A choice that may be written: from the two lists, not rejected, decided either way. */
  predicate Writable(c: Choice, internals: seq<TxnId>, externals: seq<TxnId>, rejected: Rejections) {
    && c.internal in internals && c.external in externals && (c.internal, c.external) !in rejected
    && (c.status == AutoMatched || c.status == PendingReview)
  }

  /** Choices are pairwise apart and writable. */
  lemma {:induction false} ChoicesAreApart(config: Blocking.Config, score: Scorer, txns: Txns, rejected: Rejections,
                                           internals: seq<TxnId>, externals: seq<TxnId>, k: nat)
    requires Blocking.Usable(config) && Distinct(externals) && k <= |externals|
    ensures var chosen := Chosen(config, score, txns, rejected, internals, externals[..k]);
            && Apart(chosen) && (forall c :: c in chosen ==> Writable(c, internals, externals, rejected))
            && (forall c :: c in chosen ==> c.external in externals[..k])
  {
    hide Pick, Chosen, Offered;
    if k == 0 {
      NothingChosen(config, score, txns, rejected, internals, externals[..0]);
    } else {
      ChoicesAreApart(config, score, txns, rejected, internals, externals, k - 1);
      ChosenMore(config, score, txns, rejected, internals, externals, k - 1);
      var before := Chosen(config, score, txns, rejected, internals, externals[..k - 1]);
      PickIsBest(config, score, txns, rejected, internals, before, externals[k - 1]);
      var pick := Pick(config, score, txns, rejected, internals, before, externals[k - 1]);
      EarlierExternals(externals, k);
      if pick.Some? {
        var c := Choice(pick.value, externals[k - 1], DecidedStatus(score(pick.value, externals[k - 1]).decision));
        hide BestLeft, Internals;
        NotChosenYet(config, score, txns, rejected, internals, before, pick.value, externals[k - 1]);
        ApartMore(before, c);
      }
    }
  }

  lemma EarlierExternals(externals: seq<TxnId>, k: nat)
    requires 0 < k <= |externals| && Distinct(externals)
    ensures externals[k - 1] !in externals[..k - 1]
    ensures forall t :: t in externals[..k] <==> t in externals[..k - 1] || t == externals[k - 1]
    ensures externals[k - 1] in externals
  {
  }

  lemma NotChosenYet(config: Blocking.Config, score: Scorer, txns: Txns, rejected: Rejections,
                     internals: seq<TxnId>, before: seq<Choice>, i: TxnId, e: TxnId)
    requires Blocking.Usable(config) && BestLeft(config, score, txns, rejected, internals, before, i, e)
    ensures i !in Internals(before) && (i, e) !in rejected
  {
  }

  lemma ApartMore(before: seq<Choice>, c: Choice)
    requires Apart(before) && c.internal !in Internals(before)
    requires forall d :: d in before ==> d.external != c.external
    ensures Apart(before + [c])
  {
    forall d | d in before ensures d.internal != c.internal {
      assert d.internal in Internals(before);
    }
  }

  lemma NothingChosen(config: Blocking.Config, score: Scorer, txns: Txns, rejected: Rejections,
                      internals: seq<TxnId>, externals: seq<TxnId>)
    requires Blocking.Usable(config) && externals == []
    ensures Chosen(config, score, txns, rejected, internals, externals) == []
  {
  }

  lemma {:induction false} ChosenGrows(config: Blocking.Config, score: Scorer, txns: Txns, rejected: Rejections,
                                       internals: seq<TxnId>, externals: seq<TxnId>, k: nat, m: nat)
    requires Blocking.Usable(config) && Distinct(externals) && k <= m <= |externals|
    ensures var before := Chosen(config, score, txns, rejected, internals, externals[..k]);
            var after := Chosen(config, score, txns, rejected, internals, externals[..m]);
            before <= after && forall c :: c in after ==> c in before || c.external in externals[k..]
    decreases m - k
  {
    hide Pick, Chosen;
    if k < m {
      ChosenGrows(config, score, txns, rejected, internals, externals, k, m - 1);
      ChosenMore(config, score, txns, rejected, internals, externals, m - 1);
      assert externals[k..][m - 1 - k] == externals[m - 1];
    }
  }

  /** The status follows the decision on the score, either way. */
  predicate AsDecided(score: Scorer, c: Choice) {
    && (c.status == AutoMatched <==> score(c.internal, c.external).decision == AutoMatch)
    && (c.status == PendingReview <==> score(c.internal, c.external).decision == Review)
    && (c.status == AutoMatched || c.status == PendingReview)
  }

  /** The choice for the k-th external is the best left at that point, AUTO_MATCHED if its score says so and
      PENDING_REVIEW if its score asks for review; there is none only when nothing offered can match. */
  lemma EachGetsTheBestLeft(config: Blocking.Config, score: Scorer, txns: Txns, rejected: Rejections,
                            internals: seq<TxnId>, externals: seq<TxnId>, k: nat)
    requires Blocking.Usable(config) && Distinct(externals) && k < |externals|
    ensures var before := Chosen(config, score, txns, rejected, internals, externals[..k]);
            var chosen := Chosen(config, score, txns, rejected, internals, externals);
            && (forall c :: c in chosen && c.external == externals[k] ==>
                  && BestLeft(config, score, txns, rejected, internals, before, c.internal, externals[k])
                  && AsDecided(score, c))
            && ((forall c :: c in chosen ==> c.external != externals[k]) ==>
                  forall i: TxnId :: !BestLeft(config, score, txns, rejected, internals, before, i, externals[k]))
  {
    hide Pick, Chosen, BestLeft, Offered;
    var e := externals[k];
    var before := Chosen(config, score, txns, rejected, internals, externals[..k]);
    var after := Chosen(config, score, txns, rejected, internals, externals[..k + 1]);
    assert externals[..|externals|] == externals;
    ChosenMore(config, score, txns, rejected, internals, externals, k);
    PickIsBest(config, score, txns, rejected, internals, before, e);
    ChoicesAreApart(config, score, txns, rejected, internals, externals, k);
    ChosenGrows(config, score, txns, rejected, internals, externals, k + 1, |externals|);
    assert e !in externals[k + 1..];
    assert e !in externals[..k];
    assert after == before || (after == before + [after[|before|]] && after[|before|] in after);
    BestCanMatch(config, score, txns, rejected, internals, before, e);
  }

  lemma BestCanMatch(config: Blocking.Config, score: Scorer, txns: Txns, rejected: Rejections,
                     internals: seq<TxnId>, before: seq<Choice>, e: TxnId)
    requires Blocking.Usable(config)
    ensures forall i: TxnId :: BestLeft(config, score, txns, rejected, internals, before, i, e) ==>
              score(i, e).decision != NoMatch
  {
    hide Offered;
  }

  lemma {:induction false} ChoicesAreAsDecided(config: Blocking.Config, score: Scorer, txns: Txns,
                                               rejected: Rejections, internals: seq<TxnId>, externals: seq<TxnId>)
    requires Blocking.Usable(config)
    ensures forall c :: c in Chosen(config, score, txns, rejected, internals, externals) ==> AsDecided(score, c)
    decreases |externals|
  {
    hide Pick, Offered;
    if externals != [] {
      var n := |externals| - 1;
      ChoicesAreAsDecided(config, score, txns, rejected, internals, externals[..n]);
      var before := Chosen(config, score, txns, rejected, internals, externals[..n]);
      PickIsBest(config, score, txns, rejected, internals, before, externals[n]);
      BestCanMatch(config, score, txns, rejected, internals, before, externals[n]);
    }
  }

  /** How many of the pairs have the given decision. */
  function CountOf(score: Scorer, items: seq<Choice>, decision: Decision): nat {
    if items == [] then 0
    else
      var last := items[|items| - 1];
      CountOf(score, items[..|items| - 1], decision)
      + (if score(last.internal, last.external).decision == decision then 1 else 0)
  }

  // ------------------------------------------------------------------- what is written

  function SidesOf(items: seq<Choice>): set<TxnId> {
    (set c | c in items :: c.internal) + (set c | c in items :: c.external)
  }

  /** The pairs of which neither side is claimed. */
  ghost function Unclaimed(db: Db, items: seq<Choice>): (r: seq<Choice>)
    ensures forall c :: c in r <==> c in items && !Claimed(db, c.internal) && !Claimed(db, c.external)
  {
    if items == [] then []
    else
      var front, last := Unclaimed(db, items[..|items| - 1]), items[|items| - 1];
      if Claimed(db, last.internal) || Claimed(db, last.external) then front else front + [last]
  }

  function FuzzySteps(items: seq<Choice>): (steps: seq<Step>)
    ensures |steps| == |items|
  {
    seq(|items|, k requires 0 <= k < |items| => Pair(items[k].internal, items[k].external, Fuzzy, items[k].status))
  }

  lemma FuzzyStepsMore(items: seq<Choice>, c: Choice)
    ensures FuzzySteps(items + [c]) == FuzzySteps(items) + [Pair(c.internal, c.external, Fuzzy, c.status)]
    ensures FuzzySteps([]) == []
  {
  }

  lemma {:induction false} UnclaimedApart(db: Db, items: seq<Choice>)
    requires Apart(items)
    ensures Apart(Unclaimed(db, items))
  {
    hide Claimed;
    if items != [] {
      var front, last := items[..|items| - 1], items[|items| - 1];
      UnclaimedApart(db, front);
      assert forall c :: c in front ==> c.internal != last.internal && c.external != last.external;
      assert forall c :: c in Unclaimed(db, front) ==> c in front;
    }
  }

  /** Pairs with both sides free, apart from each other, are steps of the stage one after the other. */
  lemma {:induction false} WriteAll(start: Db, internals: seq<TxnId>, externals: seq<TxnId>, items: seq<Choice>)
    requires Valid(start) && Candidates(start, internals) && Candidates(start, externals)
    requires forall t :: t in internals ==> t !in externals
    requires Apart(items)
    requires forall c :: c in items ==>
               && c.internal in internals && c.external in externals && !RejectedPair(start, c.internal, c.external)
               && (c.status == AutoMatched || c.status == PendingReview)
               && !Claimed(start, c.internal) && !Claimed(start, c.external)
    ensures var db := ApplyAll(start, FuzzySteps(items));
            && StageRun(start, db, FuzzySteps(items), internals, externals)
            && StageOk(start, db, internals, externals)
            && (forall t: TxnId :: Claimed(db, t) <==> Claimed(start, t) || t in SidesOf(items))
    decreases |items|
  {
    hide StageRun, StageOk, Valid, Candidates, Claimed, RejectedPair;
    if items == [] {
      StageBegins(start, internals, externals);
      assert FuzzySteps(items) == [];
    } else {
      var front, last := items[..|items| - 1], items[|items| - 1];
      assert items == front + [last] && last in items && forall c :: c in front ==> c in items;
      LastIsApart(front, last);
      WriteAll(start, internals, externals, front);
      WriteOneMore(start, internals, externals, front, last);
    }
  }

  lemma WriteOneMore(start: Db, internals: seq<TxnId>, externals: seq<TxnId>, front: seq<Choice>, last: Choice)
    requires var db := ApplyAll(start, FuzzySteps(front));
             && StageRun(start, db, FuzzySteps(front), internals, externals)
             && StageOk(start, db, internals, externals)
             && (forall t: TxnId :: Claimed(db, t) <==> Claimed(start, t) || t in SidesOf(front))
    requires forall t :: t in internals ==> t !in externals
    requires Apart(front + [last]) && forall c :: c in front ==> c.internal in internals && c.external in externals
    requires last.internal in internals && last.external in externals
    requires !RejectedPair(start, last.internal, last.external)
    requires last.status == AutoMatched || last.status == PendingReview
    requires !Claimed(start, last.internal) && !Claimed(start, last.external)
    ensures var items := front + [last];
            var db := ApplyAll(start, FuzzySteps(items));
            && StageRun(start, db, FuzzySteps(items), internals, externals)
            && StageOk(start, db, internals, externals)
            && (forall t: TxnId :: Claimed(db, t) <==> Claimed(start, t) || t in SidesOf(items))
  {
    hide StageRun, StageOk, Claimed, RejectedPair, WithPair;
    var before := ApplyAll(start, FuzzySteps(front));
    LastIsApart(front, last);
    assert last.internal !in SidesOf(front) && last.external !in SidesOf(front);
    StagePair(start, before, FuzzySteps(front), internals, externals, last.internal, last.external, Fuzzy, last.status);
    FuzzyStepsMore(front, last);
    OneMore(start, FuzzySteps(front), Pair(last.internal, last.external, Fuzzy, last.status));
    SidesMore(front, last);
    forall t: TxnId
      ensures Claimed(ApplyAll(start, FuzzySteps(front + [last])), t)
              <==> Claimed(start, t) || t in SidesOf(front + [last])
    {
      PairClaims(before, last.internal, last.external, Fuzzy, last.status, t);
    }
  }

  lemma LastIsApart(front: seq<Choice>, last: Choice)
    requires Apart(front + [last])
    ensures Apart(front) && forall c :: c in front ==> c.internal != last.internal && c.external != last.external
  {
    var items := front + [last];
    assert items[|front|] == last && forall k :: 0 <= k < |front| ==> items[k] == front[k];
  }

  lemma SidesMore(front: seq<Choice>, last: Choice)
    ensures SidesOf(front + [last]) == SidesOf(front) + {last.internal, last.external}
    ensures SidesOf([]) == {}
  {
    assert forall c :: c in front + [last] <==> c in front || c == last;
  }
}

/** What every matching stage has in common: it takes one list of internals and one of externals
    and moves the ledger by writing pairs and groups among them. */
module Stages {
  import opened Ledger
  import opened LedgerInvariant
  import opened Repository

  /** The candidates a stage may be given: known, listed once, not voided. The pools are such lists;
      a transaction claimed meanwhile may still be listed and shows up as a claim conflict. */
  ghost predicate Candidates(db: Db, ids: seq<TxnId>) {
    Distinct(ids) && forall t :: t in ids ==> t in db.txns && db.txns[t].status != Voided
  }

  lemma OneOnly(ids: seq<TxnId>, i: TxnId)
    requires Distinct(ids)
    ensures ids == [i] <==> i in ids && forall t :: t in ids ==> t == i
  {
    if |ids| > 1 {
      FirstTwo(ids);
    }
    if |ids| == 1 {
      assert ids == [ids[0]];
    }
  }

  lemma FirstTwo(ids: seq<TxnId>)
    requires Distinct(ids) && |ids| > 1
    ensures ids[0] in ids && ids[1] in ids && ids[0] != ids[1]
  {
  }

  ghost function ClaimedAmong(db: Db, ids: seq<TxnId>): set<TxnId> {
    set t | t in ids && Claimed(db, t)
  }

  /** Step s writes an automatic pair or group among the candidates. */
  predicate Within(s: Step, internals: seq<TxnId>, externals: seq<TxnId>) {
    match s
    case Pair(i, e, kind, _) => kind != Manual && i in internals && e in externals
    case Group(kind, single, members) =>
      if kind == Split then single in internals && forall m :: m in members ==> m in externals
      else single in externals && forall m :: m in members ==> m in internals
    case _ => false
  }

  /** Everything but status is as it was. */
  ghost predicate SameRecords(before: map<TxnId, Txn>, after: map<TxnId, Txn>) {
    && (forall t :: t in after <==> t in before)
    && (forall t :: t in before ==> after[t] == before[t].(status := after[t].status))
  }

  /** `db` is where a stage has got to from `start` by the given steps. */
  ghost predicate StageRun(start: Db, db: Db, steps: seq<Step>, internals: seq<TxnId>, externals: seq<TxnId>) {
    && db == ApplyAll(start, steps) && AllEnabled(start, steps)
    && (forall s :: s in steps ==> Within(s, internals, externals))
  }

  /** What a stage can rely on at every point: the ledger is valid, its candidates are still
      candidates, and the rejected pairings are those it read at the start. */
  ghost predicate StageOk(start: Db, db: Db, internals: seq<TxnId>, externals: seq<TxnId>) {
    && Valid(db) && Candidates(db, internals) && Candidates(db, externals)
    && SameRecords(start.txns, db.txns)
    && (forall i: TxnId, e: TxnId :: RejectedPair(db, i, e) <==> RejectedPair(start, i, e))
  }

  lemma StageBegins(start: Db, internals: seq<TxnId>, externals: seq<TxnId>)
    requires Valid(start) && Candidates(start, internals) && Candidates(start, externals)
    ensures StageRun(start, start, [], internals, externals) && StageOk(start, start, internals, externals)
  {
    hide Valid;
  }

  lemma UnclaimedIsFree(db: Db, t: TxnId)
    requires Valid(db) && t in db.txns && db.txns[t].status != Voided && !Claimed(db, t)
    ensures Free(db, t)
  {
    hide Valid, Claimed;
    if db.txns[t].status == Matched {
      var c := HolderOf(db, t);
      ActiveMeansClaimed(db, c);
    }
  }

  lemma ActiveMeansClaimed(db: Db, c: nat)
    requires c < |db.claims| && db.claims[c].active
    ensures Claimed(db, db.claims[c].txn)
  {
  }

  lemma StepKeepsStage(start: Db, db: Db, s: Step, internals: seq<TxnId>, externals: seq<TxnId>)
    requires StageOk(start, db, internals, externals) && Enabled(db, s) && Within(s, internals, externals)
    ensures StageOk(start, Apply(db, s), internals, externals)
  {
    hide Valid;
    StepKeeps(db, s);
    WithinKeepsRejections(db, s, internals, externals);
    WithinKeepsRecords(db, s, internals, externals);
  }

  lemma WithinKeepsRejections(db: Db, s: Step, internals: seq<TxnId>, externals: seq<TxnId>)
    requires Within(s, internals, externals) && Enabled(db, s)
    ensures forall i: TxnId, e: TxnId :: RejectedPair(Apply(db, s), i, e) <==> RejectedPair(db, i, e)
  {
    var db' := Apply(db, s);
    if s.Group? {
      GroupShape(db, s.kind, s.single, s.members);
    }
    hide WithGroup;
    assert db.results <= db'.results;
    assert forall r :: |db.results| <= r < |db'.results| ==> db'.results[r].status != Rejected;
    forall i: TxnId, e: TxnId ensures RejectedPair(db', i, e) <==> RejectedPair(db, i, e) {
      if RejectedPair(db, i, e) {
        var r :| 0 <= r < |db.results| && db.results[r].status == Rejected
                 && db.results[r].internal == i && db.results[r].external == e;
        assert db'.results[r] == db.results[r];
      }
    }
  }

  lemma WithinKeepsRecords(db: Db, s: Step, internals: seq<TxnId>, externals: seq<TxnId>)
    requires Within(s, internals, externals)
    ensures SameRecords(db.txns, Apply(db, s).txns)
    ensures forall t :: t in db.txns && db.txns[t].status != Voided ==> Apply(db, s).txns[t].status != Voided
  {
  }

  /** One more pair: claimed on both sides, not rejected when the stage began. */
  lemma StagePair(start: Db, db: Db, steps: seq<Step>, internals: seq<TxnId>, externals: seq<TxnId>,
                  i: TxnId, e: TxnId, kind: MatchKind, status: ResultStatus)
    requires StageRun(start, db, steps, internals, externals) && StageOk(start, db, internals, externals)
    requires i in internals && e in externals && i != e && !Claimed(db, i) && !Claimed(db, e)
    requires !RejectedPair(start, i, e)
    requires kind != Manual && kind != Split && kind != Netted && (status == AutoMatched || status == PendingReview)
    ensures var s := Pair(i, e, kind, status);
            && Enabled(db, s)
            && StageRun(start, WithPair(db, i, e, kind, status), steps + [s], internals, externals)
            && StageOk(start, WithPair(db, i, e, kind, status), internals, externals)
  {
    hide Valid, RejectedPair, Claimed, AllEnabled, SameRecords;
    UnclaimedIsFree(db, i);
    UnclaimedIsFree(db, e);
    var s := Pair(i, e, kind, status);
    assert Enabled(db, s);
    OneMore(start, steps, s);
    StepKeepsStage(start, db, s, internals, externals);
  }

  lemma StageGroup(start: Db, db: Db, steps: seq<Step>, internals: seq<TxnId>, externals: seq<TxnId>,
                   kind: MatchKind, single: TxnId, members: seq<TxnId>)
    requires StageRun(start, db, steps, internals, externals) && StageOk(start, db, internals, externals)
    requires kind == Split || kind == Netted
    requires Within(Group(kind, single, members), internals, externals)
    requires single !in members && Distinct(members) && |members| >= 1
    requires !Claimed(db, single) && forall m :: m in members ==> !Claimed(db, m)
    requires forall m :: m in members ==>
               if kind == Split then !RejectedPair(start, single, m) else !RejectedPair(start, m, single)
    ensures var s := Group(kind, single, members);
            && Enabled(db, s)
            && StageRun(start, WithGroup(db, kind, single, members), steps + [s], internals, externals)
            && StageOk(start, WithGroup(db, kind, single, members), internals, externals)
  {
    hide Valid, RejectedPair, Claimed, AllEnabled, SameRecords, WithGroup;
    UnclaimedIsFree(db, single);
    forall m | m in members ensures Free(db, m) {
      UnclaimedIsFree(db, m);
    }
    var s := Group(kind, single, members);
    assert Enabled(db, s);
    OneMore(start, steps, s);
    StepKeepsStage(start, db, s, internals, externals);
  }

  // -------------------------------------------------------------- what a stage takes

  /** The transactions a matching step claims. */
  function Touched(s: Step): set<TxnId> {
    match s
    case Pair(i, e, _, _) => {i, e}
    case Group(_, single, members) => {single} + ToSet(members)
    case _ => {}
  }

  function TouchedBy(steps: seq<Step>): set<TxnId> {
    if steps == [] then {} else TouchedBy(steps[..|steps| - 1]) + Touched(steps[|steps| - 1])
  }

  lemma TouchedByMore(steps: seq<Step>, s: Step)
    ensures TouchedBy(steps + [s]) == TouchedBy(steps) + Touched(s)
  {
    assert (steps + [s])[..|steps|] == steps;
  }

  lemma {:induction false} TouchedByEach(steps: seq<Step>, k: nat)
    requires k < |steps|
    ensures Touched(steps[k]) <= TouchedBy(steps)
  {
    if k < |steps| - 1 {
      TouchedByEach(steps[..|steps| - 1], k);
    }
  }

  lemma GroupClaims(db: Db, kind: MatchKind, single: TxnId, members: seq<TxnId>, t: TxnId)
    ensures Claimed(WithGroup(db, kind, single, members), t) <==> Claimed(db, t) || t == single || t in members
  {
    var db' := WithGroup(db, kind, single, members);
    var n := |db.claims|;
    assert db'.claims[n].txn == single && db'.claims[n].active;
    assert forall k :: 0 <= k < |members| ==> db'.claims[n + 1 + k].txn == members[k];
    if Claimed(db, t) {
      var c :| 0 <= c < n && db.claims[c].active && db.claims[c].txn == t;
      assert db'.claims[c] == db.claims[c];
    }
    if t in members {
      var k :| 0 <= k < |members| && members[k] == t;
      assert db'.claims[n + 1 + k].txn == t && db'.claims[n + 1 + k].active;
    }
    if Claimed(db', t) {
      var c :| 0 <= c < |db'.claims| && db'.claims[c].active && db'.claims[c].txn == t;
      if c < n {
        assert db.claims[c] == db'.claims[c];
      } else if c > n {
        assert members[c - n - 1] == t;
      }
    }
  }

  lemma PairClaims(db: Db, i: TxnId, e: TxnId, kind: MatchKind, status: ResultStatus, t: TxnId)
    ensures Claimed(WithPair(db, i, e, kind, status), t) <==> Claimed(db, t) || t == i || t == e
  {
    var db' := WithPair(db, i, e, kind, status);
    assert db'.claims[|db.claims|].txn == i && db'.claims[|db.claims| + 1].txn == e;
    if Claimed(db, t) {
      var c :| 0 <= c < |db.claims| && db.claims[c].active && db.claims[c].txn == t;
      assert db'.claims[c] == db.claims[c];
    }
  }

  /** One matching step claims what it touches and nothing else, and leaves every other row alone. */
  lemma StepTouches(db: Db, s: Step, internals: seq<TxnId>, externals: seq<TxnId>, t: TxnId)
    requires Enabled(db, s) && Within(s, internals, externals)
    ensures t in Touched(s) ==> Free(db, t)
    ensures Claimed(Apply(db, s), t) <==> Claimed(db, t) || t in Touched(s)
    ensures Free(Apply(db, s), t) <==> Free(db, t) && t !in Touched(s)
    ensures t in db.txns && t !in Touched(s) ==> t in Apply(db, s).txns && Apply(db, s).txns[t] == db.txns[t]
  {
    if s.Pair? {
      PairClaims(db, s.internal, s.external, s.kind, s.status, t);
    } else {
      GroupClaims(db, s.kind, s.single, s.members, t);
    }
    hide Claimed, RejectedPair, Distinct;
  }

  /** Between start and db exactly `taken` was claimed, all of it free at the start. */
  ghost predicate Takes(start: Db, db: Db, taken: set<TxnId>) {
    && (forall t: TxnId :: t in taken ==> Free(start, t))
    && (forall t: TxnId :: Claimed(db, t) <==> Claimed(start, t) || t in taken)
    && (forall t: TxnId :: Free(db, t) <==> Free(start, t) && t !in taken)
  }

  lemma TakesMore(start: Db, before: Db, taken: set<TxnId>, s: Step, internals: seq<TxnId>, externals: seq<TxnId>)
    requires Takes(start, before, taken) && Enabled(before, s) && Within(s, internals, externals)
    ensures Takes(start, Apply(before, s), taken + Touched(s)) && taken !! Touched(s)
  {
    hide Free, Claimed, Touched, Enabled, Within, Apply;
    forall t: TxnId
      ensures t in Touched(s) ==> Free(before, t)
      ensures Claimed(Apply(before, s), t) <==> Claimed(before, t) || t in Touched(s)
      ensures Free(Apply(before, s), t) <==> Free(before, t) && t !in Touched(s)
    {
      StepTouches(before, s, internals, externals, t);
    }
  }

  /** Over a whole stage: the transactions taken were free when it began, no two steps share one,
      and exactly the rest is free afterwards. */
  lemma {:induction false} RunTouches(start: Db, db: Db, steps: seq<Step>,
                                      internals: seq<TxnId>, externals: seq<TxnId>)
    requires StageRun(start, db, steps, internals, externals)
    ensures Takes(start, db, TouchedBy(steps))
    ensures forall j, k :: 0 <= j < k < |steps| ==> Touched(steps[j]) !! Touched(steps[k])
    decreases |steps|
  {
    hide Takes, Free, Claimed, Touched, Enabled, Within, Apply;
    if steps == [] {
      NothingTaken(start);
    } else {
      var n := |steps| - 1;
      var front, s := steps[..n], steps[n];
      var before := ApplyAll(start, front);
      assert s in steps && forall x :: x in front ==> x in steps;
      RunTouches(start, before, front, internals, externals);
      TakesMore(start, before, TouchedBy(front), s, internals, externals);
      forall j, k | 0 <= j < k < |steps| ensures Touched(steps[j]) !! Touched(steps[k]) {
        assert front[j] == steps[j];
        if k < n {
          assert front[k] == steps[k];
        } else {
          TouchedByEach(front, j);
        }
      }
    }
  }

  lemma NothingTaken(start: Db)
    ensures Takes(start, start, {})
  {
  }

  // ------------------------------------------------------------------- pools and stages

  lemma PoolIsCandidates(db: Db, q: Query, ids: seq<TxnId>)
    requires IsPool(db, q, ids)
    ensures Candidates(db, ids) && forall t :: t in ids ==> Free(db, t) && db.txns[t].source == q.source
  {
    hide Claimed;
    PoolIsDistinct(db, q, ids);
  }

  /** Fetching a pool again after a stage gives what the stage left of it. */
  lemma PoolAfter(start: Db, db: Db, steps: seq<Step>, internals: seq<TxnId>, externals: seq<TxnId>, q: Query)
    requires StageRun(start, db, steps, internals, externals) && SameRecords(start.txns, db.txns)
    ensures Pool(db, q) == Pool(start, q) - TouchedBy(steps)
  {
    RunTouches(start, db, steps, internals, externals);
    hide StageRun, TouchedBy, Claimed;
    forall t: TxnId ensures t in Pool(db, q) <==> t in Pool(start, q) - TouchedBy(steps) {
      assert Free(db, t) <==> Free(start, t) && t !in TouchedBy(steps);
    }
  }
}

/** The promises of the match ledger, over every run of its steps. */
module LedgerLaws {
  import opened Ledger
  import opened LedgerInvariant

  // --------------------------------------------------- exclusivity and status, in every state

  /** Claim c is an ACTIVE claim on t, held for a row with one of the given statuses. */
  ghost predicate ActiveFor(db: Db, c: nat, t: TxnId, statuses: set<ResultStatus>) {
    && c < |db.claims| && db.claims[c].active && db.claims[c].txn == t
    && db.claims[c].result.Some? && db.claims[c].result.value < |db.results|
    && db.results[db.claims[c].result.value].status in statuses
  }

  /** The exclusivity promise, transaction by transaction. */
  ghost predicate ClaimLaw(db: Db, t: TxnId)
    requires t in db.txns
  {
    && (forall c, d | 0 <= c < d < |db.claims| && db.claims[c].active && db.claims[d].active ::
          !(db.claims[c].txn == t && db.claims[d].txn == t))
    && (db.txns[t].status == Matched <==> exists c :: ActiveFor(db, c, t, {AutoMatched, Confirmed}))
    && (db.txns[t].status == Unmatched && Claimed(db, t) <==> exists c :: ActiveFor(db, c, t, {PendingReview}))
    && (db.txns[t].status == Voided ==> !Claimed(db, t))
  }

  lemma ValidMeansClaimLaw(db: Db, t: TxnId)
    requires Valid(db) && t in db.txns
    ensures ClaimLaw(db, t)
  {
    hide Valid;
    forall c, d | 0 <= c < d < |db.claims| && db.claims[c].active && db.claims[d].active
      ensures !(db.claims[c].txn == t && db.claims[d].txn == t)
    {
      if db.claims[c].txn == t && db.claims[d].txn == t {
        OneHolder(db, c, d);
      }
    }
    if Claimed(db, t) {
      var c: nat :| 0 <= c < |db.claims| && db.claims[c].active && db.claims[c].txn == t;
      ClaimOf(db, c);
      var s := db.results[db.claims[c].result.value].status;
      assert ActiveFor(db, c, t, {s});
      assert ActiveFor(db, c, t, if s == PendingReview then {PendingReview} else {AutoMatched, Confirmed});
    } else if db.txns[t].status == Matched {
      var c := HolderOf(db, t);
      assert false;
    }
    forall c | ActiveFor(db, c, t, {AutoMatched, Confirmed}) ensures db.txns[t].status == Matched {
      ClaimOf(db, c);
    }
    forall c | ActiveFor(db, c, t, {PendingReview}) ensures db.txns[t].status == Unmatched && Claimed(db, t) {
      ClaimOf(db, c);
    }
  }

  /** In every state reached by any run of matching, review, manual, auto-resolve, void and ingest
      steps, the exclusivity promise holds of every transaction. */
  lemma EveryRunKeepsTheClaimLaw(start: Db, steps: seq<Step>)
    requires Fresh(start) && AllEnabled(start, steps)
    ensures var db := ApplyAll(start, steps); forall t :: t in db.txns ==> ClaimLaw(db, t)
  {
    hide Valid, ClaimLaw, Enabled, Apply;
    FreshIsValid(start);
    RunKeeps(start, steps);
    forall t | t in ApplyAll(start, steps).txns ensures ClaimLaw(ApplyAll(start, steps), t) {
      ValidMeansClaimLaw(ApplyAll(start, steps), t);
    }
  }

  // --------------------------------------------------------------- history is never rewritten

  predicate MayBecome(before: ResultStatus, after: ResultStatus) {
    before == after || (before == PendingReview && after == Confirmed) || after == Rejected
  }

  /** Rows and claims are kept: a row keeps its pair, kind and group and its status only moves
      forward; a claim keeps its transaction, row and role and is released at most once; a
      transaction keeps everything but its status. */
  ghost predicate Extends(db: Db, db': Db) {
    && |db.results| <= |db'.results| && |db.claims| <= |db'.claims|
    && (forall r :: 0 <= r < |db.results| ==> RowMoved(db.results[r], db'.results[r]))
    && (forall c :: 0 <= c < |db.claims| ==> ClaimMoved(db.claims[c], db'.claims[c]))
    && (forall t :: t in db.txns ==> t in db'.txns && TxnMoved(db.txns[t], db'.txns[t]))
  }

  predicate RowMoved(before: MatchResult, after: MatchResult) {
    after == before.(status := after.status) && MayBecome(before.status, after.status)
  }

  predicate ClaimMoved(before: Claim, after: Claim) {
    after == before.(active := after.active) && (after.active ==> before.active)
  }

  predicate TxnMoved(before: Txn, after: Txn) {
    && after == before.(status := after.status, voidedOriginal := after.voidedOriginal)
    && (before.status == Voided ==> after == before)
  }

  lemma StepExtends(db: Db, s: Step)
    requires Valid(db) && Enabled(db, s)
    ensures Extends(db, Apply(db, s))
  {
    hide Valid, WithGroup, WithUnmatch;
    match s
    case Pair(i, e, kind, status) =>
    case Group(kind, single, members) => GroupShape(db, kind, single, members);
    case Confirm(r) => PendingSidesUnmatched(db, r);
    case Reject(r) =>
    case Unmatch(r) => UnmatchExtends(db, r);
    case Void(t, original) =>
    case Ingest(t, row) =>
  }

  lemma UnmatchExtends(db: Db, r: nat)
    requires Valid(db) && Enabled(db, Unmatch(r))
    ensures Extends(db, WithUnmatch(db, r))
  {
    hide Valid, WithUnmatch, Sides;
    UnmatchShape(db, r);
    forall t | t in Sides(db, MatchRows(db, r)) && t in db.txns ensures db.txns[t].status == Matched {
      var q := MatchOfSide(db, r, t);
      assert q in MatchRows(db, r);
      var c, d := HoldersOf(db, q);
      var held := if t == db.results[q].internal then c else d;
      ClaimOf(db, held);
      StatusOf(db, q, db.claims[held].result.value);
    }
  }

  lemma ExtendsTransitive(a: Db, b: Db, c: Db)
    requires Extends(a, b) && Extends(b, c)
    ensures Extends(a, c)
  {
    forall r | 0 <= r < |a.results| ensures RowMoved(a.results[r], c.results[r]) {
      assert RowMoved(a.results[r], b.results[r]) && RowMoved(b.results[r], c.results[r]);
    }
    forall k | 0 <= k < |a.claims| ensures ClaimMoved(a.claims[k], c.claims[k]) {
      assert ClaimMoved(a.claims[k], b.claims[k]) && ClaimMoved(b.claims[k], c.claims[k]);
    }
  }

  /** No run deletes, reassigns or revives anything: REJECTED rows, released claims and VOIDED
      transactions stay as they are. */
  lemma {:induction false} EveryRunExtends(start: Db, steps: seq<Step>)
    requires Valid(start) && AllEnabled(start, steps)
    ensures Extends(start, ApplyAll(start, steps))
  {
    if steps != [] {
      hide Valid, Enabled, Apply, Extends;
      var front := steps[..|steps| - 1];
      EveryRunExtends(start, front);
      RunKeeps(start, front);
      StepExtends(ApplyAll(start, front), steps[|steps| - 1]);
      ExtendsTransitive(start, ApplyAll(start, front), ApplyAll(start, steps));
    } else {
      assert ApplyAll(start, steps) == start;
    }
  }

  // ------------------------------------------------ a rejected pairing is not made again

  /** Step s makes, or confirms, a match of internal i with external e other than by hand. */
  ghost predicate Makes(db: Db, s: Step, i: TxnId, e: TxnId) {
    match s
    case Pair(x, y, kind, _) => kind != Manual && x == i && y == e
    case Group(kind, single, members) =>
      if kind == Split then single == i && e in members else single == e && i in members
    case Confirm(r) => r < |db.results| && db.results[r].internal == i && db.results[r].external == e
                       && db.results[r].kind != Manual
    case _ => false
  }

  lemma MakesNoRejectedPair(db: Db, s: Step, i: TxnId, e: TxnId)
    requires Valid(db) && Enabled(db, s) && RejectedPair(db, i, e)
    ensures !Makes(db, s, i, e)
  {
    hide Valid;
    if s.Confirm? && db.results[s.result].kind != Manual {
      NotRejected(db, s.result);
    }
  }

  lemma ExtendsKeepsRejections(db: Db, db': Db, i: TxnId, e: TxnId)
    requires Extends(db, db') && RejectedPair(db, i, e)
    ensures RejectedPair(db', i, e)
  {
    var r :| 0 <= r < |db.results| && db.results[r].status == Rejected
             && db.results[r].internal == i && db.results[r].external == e;
    assert RowMoved(db.results[r], db'.results[r]);
  }

  lemma {:induction false} PrefixEnabled(db: Db, steps: seq<Step>, k: nat)
    requires AllEnabled(db, steps) && k < |steps|
    ensures AllEnabled(db, steps[..k]) && Enabled(ApplyAll(db, steps[..k]), steps[k])
    decreases steps
  {
    var front := steps[..|steps| - 1];
    if k < |front| {
      PrefixEnabled(db, front, k);
      assert front[..k] == steps[..k];
    } else {
      assert front == steps[..k];
    }
  }

  /** Once a person has rejected or unmatched a pairing, no automatic step of the rest of the run
      makes it or confirms it. */
  lemma RejectedForGood(start: Db, steps: seq<Step>, j: nat, k: nat, i: TxnId, e: TxnId)
    requires Fresh(start) && AllEnabled(start, steps) && j <= k < |steps|
    requires RejectedPair(ApplyAll(start, steps[..j]), i, e)
    ensures !Makes(ApplyAll(start, steps[..k]), steps[k], i, e)
  {
    hide Valid, Enabled, Apply, Extends, Makes, RejectedPair;
    FreshIsValid(start);
    PrefixEnabled(start, steps, k);
    assert steps[..j] + steps[j..k] == steps[..k];
    StepsCompose(start, steps[..j], steps[j..k]);
    RunKeeps(start, steps[..j]);
    EveryRunExtends(ApplyAll(start, steps[..j]), steps[j..k]);
    ExtendsKeepsRejections(ApplyAll(start, steps[..j]), ApplyAll(start, steps[..k]), i, e);
    RunKeeps(start, steps[..k]);
    MakesNoRejectedPair(ApplyAll(start, steps[..k]), steps[k], i, e);
  }

  /** The manual service is exempt: a person may re-make the pairing a person rejected. */
  lemma ManualMayRepeatARejection(start: Db, i: TxnId, e: TxnId)
    requires Fresh(start) && i in start.txns && e in start.txns && i != e
    ensures var steps := [Pair(i, e, Fuzzy, PendingReview), Reject(0), Pair(i, e, Manual, Confirmed)];
            && AllEnabled(start, steps)
            && RejectedPair(ApplyAll(start, steps[..2]), i, e)
  {
    hide Enabled, Apply, RejectedPair;
    var s1, s2, s3 := Pair(i, e, Fuzzy, PendingReview), Reject(0), Pair(i, e, Manual, Confirmed);
    assert ApplyAll(start, []) == start && AllEnabled(start, []);
    OneMore(start, [], s1);
    OneMore(start, [s1], s2);
    OneMore(start, [s1, s2], s3);
    assert [] + [s1] == [s1] && [s1] + [s2] == [s1, s2] && [s1, s2] + [s3] == [s1, s2, s3];
    assert [s1, s2, s3][..2] == [s1, s2];
    RejectThenManual(start, i, e);
  }

  lemma RejectThenManual(start: Db, i: TxnId, e: TxnId)
    requires Fresh(start) && i in start.txns && e in start.txns && i != e
    ensures var db1 := Apply(start, Pair(i, e, Fuzzy, PendingReview));
            var db2 := Apply(db1, Reject(0));
            && Enabled(start, Pair(i, e, Fuzzy, PendingReview)) && Enabled(db1, Reject(0))
            && Enabled(db2, Pair(i, e, Manual, Confirmed)) && RejectedPair(db2, i, e)
  {
    var db1 := WithPair(start, i, e, Fuzzy, PendingReview);
    var db2 := WithReject(db1, 0);
    assert db1.results == [MatchResult(Fuzzy, PendingReview, i, e, None)];
    assert db2.results[0] == MatchResult(Fuzzy, Rejected, i, e, None);
    assert |db2.claims| == 2 && !db2.claims[0].active && !db2.claims[1].active;
  }

  // ----------------------------------------------------------------------- undo

  /** Undoing a match puts back every transaction and every vacancy; all that stays behind is the
      memory of the rejected pairings. */
  ghost predicate Undone(db: Db, db': Db, pairs: set<(TxnId, TxnId)>) {
    && db'.txns == db.txns
    && (forall t: TxnId :: Free(db', t) <==> Free(db, t))
    && (forall i: TxnId, e: TxnId :: RejectedPair(db', i, e) <==> RejectedPair(db, i, e) || (i, e) in pairs)
  }

  /** Writing a pair and then unmatching it (or rejecting it, if it was held for review). */
  lemma UnmatchUndoesPair(db: Db, i: TxnId, e: TxnId, kind: MatchKind, status: ResultStatus)
    requires Valid(db) && Enabled(db, Pair(i, e, kind, status))
    ensures var made, r := WithPair(db, i, e, kind, status), |db.results|;
            var undo := if status == PendingReview then Reject(r) else Unmatch(r);
            Enabled(made, undo) && Undone(db, Apply(made, undo), {(i, e)})
  {
    hide Valid, Undone;
    var r, made := |db.results|, WithPair(db, i, e, kind, status);
    PairKeeps(db, Pair(i, e, kind, status));
    PairAddedSince(db, i, e, kind, status);
    if status == PendingReview {
      RejectIsUnmatch(made, r);
    }
    UndoRestores(db, made, r, {i, e}, {(i, e)});
  }

  lemma PairAddedSince(db: Db, i: TxnId, e: TxnId, kind: MatchKind, status: ResultStatus)
    requires Valid(db) && Enabled(db, Pair(i, e, kind, status))
    ensures var made, r := WithPair(db, i, e, kind, status), |db.results|;
            && r < |made.results| && made.results[r].status == status && MatchRows(made, r) == {r}
            && AddedSince(db, made, r, {i, e}, {(i, e)})
  {
    hide Valid;
    var r, made := |db.results|, WithPair(db, i, e, kind, status);
    assert made.results[r] == MatchResult(kind, status, i, e, None);
    assert MatchRows(made, r) == {r};
    assert Sides(made, {r}) == {i, e};
    forall c | 0 <= c < |db.claims| && db.claims[c].active
      ensures db.claims[c].result.Some? && db.claims[c].result.value < |db.results|
    {
      ClaimOf(db, c);
    }
    assert RowIs(made, r, r, (i, e));
  }

  /** Writing a group and then unmatching any one of its rows undoes the whole group. */
  lemma UnmatchUndoesGroup(db: Db, kind: MatchKind, single: TxnId, members: seq<TxnId>, r: nat)
    requires Valid(db) && Enabled(db, Group(kind, single, members))
    requires |db.results| <= r < |db.results| + |members|
    ensures var made := WithGroup(db, kind, single, members);
            Enabled(made, Unmatch(r)) && Undone(db, Apply(made, Unmatch(r)), GroupPairs(kind, single, members))
  {
    hide Valid, WithGroup, Undone;
    var made := WithGroup(db, kind, single, members);
    GroupAddedSince(db, kind, single, members, r);
    UndoRestores(db, made, r, {single} + ToSet(members), GroupPairs(kind, single, members));
  }

  function GroupPairs(kind: MatchKind, single: TxnId, members: seq<TxnId>): set<(TxnId, TxnId)> {
    set m | m in members :: if kind == Split then (single, m) else (m, single)
  }

  lemma GroupAddedSince(db: Db, kind: MatchKind, single: TxnId, members: seq<TxnId>, r: nat)
    requires Valid(db) && Enabled(db, Group(kind, single, members))
    requires |db.results| <= r < |db.results| + |members|
    ensures var made := WithGroup(db, kind, single, members);
            && r < |made.results|
            && (forall q :: q in MatchRows(made, r) ==> made.results[q].status == AutoMatched)
            && AddedSince(db, made, r, {single} + ToSet(members), GroupPairs(kind, single, members))
  {
    hide Valid, WithGroup, MatchRows, Sides;
    var made, first := WithGroup(db, kind, single, members), |db.results|;
    GroupShape(db, kind, single, members);
    GroupMatchRows(db, kind, single, members, r);
    forall c | 0 <= c < |db.claims| && db.claims[c].active
      ensures db.claims[c].result.Some? && db.claims[c].result.value < |db.results|
    {
      ClaimOf(db, c);
    }
    GroupRowsPair(made, kind, single, members, first);
  }

  lemma GroupRowsPair(made: Db, kind: MatchKind, single: TxnId, members: seq<TxnId>, first: nat)
    requires |made.results| == first + |members|
    requires forall q :: first <= q < |made.results| ==>
               made.results[q] == GroupRow(kind, single, members[q - first], first)
    ensures RowsPair(made, first, GroupPairs(kind, single, members))
  {
    forall p | p in GroupPairs(kind, single, members) ensures exists q :: RowIs(made, first, q, p) {
      var k :| 0 <= k < |members| && p == if kind == Split then (single, members[k]) else (members[k], single);
      assert RowIs(made, first, first + k, p);
    }
  }

  /** Unmatching any row of a group reaches exactly the group's rows. */
  lemma GroupMatchRows(db: Db, kind: MatchKind, single: TxnId, members: seq<TxnId>, r: nat)
    requires Valid(db) && Enabled(db, Group(kind, single, members))
    requires |db.results| <= r < |db.results| + |members|
    ensures var made, first := WithGroup(db, kind, single, members), |db.results|;
            && r < |made.results|
            && (forall q :: q in MatchRows(made, r) <==> first <= q < first + |members|)
            && Sides(made, MatchRows(made, r)) == {single} + ToSet(members)
  {
    hide Valid, WithGroup, Sides;
    var made, first := WithGroup(db, kind, single, members), |db.results|;
    GroupShape(db, kind, single, members);
    forall q: nat | q < first ensures !SameMatch(made, r, q) {
      RowOf(db, q);
      assert made.results[q] == db.results[q];
    }
    var rows := MatchRows(made, r);
    assert forall q :: q in rows <==> first <= q < first + |members|;
    GroupSides(made, rows, kind, single, members, first);
  }

  lemma GroupSides(made: Db, rows: set<nat>, kind: MatchKind, single: TxnId, members: seq<TxnId>, first: nat)
    requires first + |members| <= |made.results| && |members| >= 1
    requires forall q :: q in rows <==> first <= q < first + |members|
    requires forall q :: first <= q < first + |members| ==>
               made.results[q] == GroupRow(kind, single, members[q - first], first)
    ensures Sides(made, rows) == {single} + ToSet(members)
  {
    forall t | t in {single} + ToSet(members) ensures t in Sides(made, rows) {
      var k := if t == single then 0 else var k :| 0 <= k < |members| && members[k] == t; k;
      assert first + k in rows && made.results[first + k] == GroupRow(kind, single, members[k], first);
    }
  }

  ghost predicate RowIs(made: Db, first: nat, q: nat, pair: (TxnId, TxnId)) {
    first <= q < |made.results| && (made.results[q].internal, made.results[q].external) == pair
  }

  /** The rows from `first` on are live and name exactly the given pairings. */
  ghost predicate RowsPair(made: Db, first: nat, pairs: set<(TxnId, TxnId)>) {
    && (forall q :: first <= q < |made.results| ==>
          Live(made.results[q].status) && (made.results[q].internal, made.results[q].external) in pairs)
    && (forall p :: p in pairs ==> exists q :: RowIs(made, first, q, p))
  }

  /** `made` is `db` with one match written on the `taken` transactions, r being one of its rows. */
  ghost predicate AddedSince(db: Db, made: Db, r: nat, taken: set<TxnId>, pairs: set<(TxnId, TxnId)>)
    requires r < |made.results|
  {
    && db.results <= made.results && db.claims <= made.claims
    && (forall t :: t in taken ==> Free(db, t))
    && (made.txns == WithStatus(db.txns, taken, Matched) || made.txns == db.txns)
    && (forall q :: q in MatchRows(made, r) <==> |db.results| <= q < |made.results|)
    && Sides(made, MatchRows(made, r)) == taken
    && RowsPair(made, |db.results|, pairs)
    && (forall c :: |db.claims| <= c < |made.claims| ==>
          made.claims[c].result.Some? && |db.results| <= made.claims[c].result.value < |made.results|)
    && (forall c :: 0 <= c < |db.claims| && db.claims[c].active ==>
          db.claims[c].result.Some? && db.claims[c].result.value < |db.results|)
  }

  lemma UndoRestores(db: Db, made: Db, r: nat, taken: set<TxnId>, pairs: set<(TxnId, TxnId)>)
    requires r < |made.results| && AddedSince(db, made, r, taken, pairs)
    ensures Undone(db, WithUnmatch(made, r), pairs)
  {
    UndoRestoresTxns(db, made, r, taken, pairs);
    UndoRestoresClaims(db, made, r, taken, pairs);
    UndoRemembers(db, made, r, taken, pairs);
    hide AddedSince, WithUnmatch, Claimed, RejectedPair;
  }

  lemma UndoRestoresTxns(db: Db, made: Db, r: nat, taken: set<TxnId>, pairs: set<(TxnId, TxnId)>)
    requires r < |made.results| && AddedSince(db, made, r, taken, pairs)
    ensures WithUnmatch(made, r).txns == db.txns
  {
    hide RowsPair, MatchRows, SameMatch;
  }

  lemma UndoRestoresClaims(db: Db, made: Db, r: nat, taken: set<TxnId>, pairs: set<(TxnId, TxnId)>)
    requires r < |made.results| && AddedSince(db, made, r, taken, pairs)
    ensures forall t: TxnId :: Claimed(WithUnmatch(made, r), t) <==> Claimed(db, t)
  {
    hide RowsPair, Sides, WithStatus, Free;
    var back := WithUnmatch(made, r);
    assert |back.claims| == |made.claims|;
    forall c | 0 <= c < |made.claims|
      ensures back.claims[c].txn == made.claims[c].txn
      ensures back.claims[c].active <==> c < |db.claims| && db.claims[c].active
    {
      if c < |db.claims| {
        assert made.claims[c] == db.claims[c];
      }
    }
    forall t: TxnId ensures Claimed(back, t) <==> Claimed(db, t) {
      if Claimed(db, t) {
        var c :| 0 <= c < |db.claims| && db.claims[c].active && db.claims[c].txn == t;
        assert back.claims[c].active && back.claims[c].txn == t;
      }
    }
  }

  lemma UndoRows(db: Db, made: Db, r: nat, taken: set<TxnId>, pairs: set<(TxnId, TxnId)>)
    requires r < |made.results| && AddedSince(db, made, r, taken, pairs)
    ensures |WithUnmatch(made, r).results| == |made.results|
    ensures forall q :: 0 <= q < |made.results| ==>
              WithUnmatch(made, r).results[q]
              == made.results[q].(status := if q < |db.results| then db.results[q].status else Rejected)
  {
    hide Sides, WithStatus, Free, Claimed, RowsPair;
    forall q | 0 <= q < |made.results|
      ensures WithUnmatch(made, r).results[q]
              == made.results[q].(status := if q < |db.results| then db.results[q].status else Rejected)
    {
      if q < |db.results| {
        assert made.results[q] == db.results[q];
      }
    }
  }

  lemma UndoRemembers(db: Db, made: Db, r: nat, taken: set<TxnId>, pairs: set<(TxnId, TxnId)>)
    requires r < |made.results| && AddedSince(db, made, r, taken, pairs)
    ensures forall i: TxnId, e: TxnId ::
              RejectedPair(WithUnmatch(made, r), i, e) <==> RejectedPair(db, i, e) || (i, e) in pairs
  {
    hide WithUnmatch, MatchRows, Sides, WithStatus, Free, Claimed;
    var back := WithUnmatch(made, r);
    UndoRows(db, made, r, taken, pairs);
    assert forall q :: 0 <= q < |db.results| ==> made.results[q] == db.results[q];
    forall i: TxnId, e: TxnId
      ensures RejectedPair(back, i, e) <==> RejectedPair(db, i, e) || (i, e) in pairs
    {
      if RejectedPair(db, i, e) {
        var q :| 0 <= q < |db.results| && db.results[q].status == Rejected
                 && db.results[q].internal == i && db.results[q].external == e;
        assert back.results[q].status == Rejected && back.results[q].internal == i;
      }
      if (i, e) in pairs {
        var q: nat :| RowIs(made, |db.results|, q, (i, e));
        assert back.results[q].status == Rejected;
      }
    }
  }

  // --------------------------------------------- reviewing what the ledger holds for review

  /** The ACTIVE claims attached to row r. */
  function ActiveClaims(db: Db, r: nat): set<nat> {
    set c | 0 <= c < |db.claims| && db.claims[c].active && db.claims[c].result == Some(r)
  }

  /** What confirm checks before it decides. */
  predicate ReviewConsistent(db: Db, r: nat)
    requires r < |db.results|
  {
    var i, e := db.results[r].internal, db.results[r].external;
    && |ActiveClaims(db, r)| == 2
    && (set c | c in ActiveClaims(db, r) :: db.claims[c].txn) == {i, e}
    && i in db.txns && e in db.txns && i != e
    && db.txns[i].status == Unmatched && db.txns[e].status == Unmatched
  }

  /** Confirm's consistency check never fails in a state a run can reach. */
  lemma PendingIsConsistent(db: Db, r: nat)
    requires Valid(db) && r < |db.results| && db.results[r].status == PendingReview
    ensures ReviewConsistent(db, r)
  {
    hide Valid;
    RowOf(db, r);
    PendingSidesUnmatched(db, r);
    var c, d := HoldersOf(db, r);
    assert db.claims[c].result == Some(r) && db.claims[d].result == Some(r);
    forall a | a in ActiveClaims(db, r) ensures a == c || a == d {
      ClaimOf(db, a);
      if db.claims[a].txn == db.results[r].internal {
        OneHolder(db, a, c);
      } else {
        OneHolder(db, a, d);
      }
    }
    assert ActiveClaims(db, r) == {c, d};
  }

  // ------------------------------------------------------------------- every step, row by row

  /** Transactions keep everything but their status; those of `changed` get the given status. */
  ghost predicate OnlyStatus(before: map<TxnId, Txn>, after: map<TxnId, Txn>, changed: set<TxnId>, status: TxnStatus) {
    && after.Keys == before.Keys
    && forall t :: t in before ==> after[t] == if t in changed then before[t].(status := status) else before[t]
  }

  /** Row r belongs to the match of row q. */
  predicate InMatch(db: Db, q: nat, r: nat)
    requires q < |db.results| && r < |db.results|
  {
    q == r || (db.results[q].group.Some? && db.results[q].group == db.results[r].group)
  }

  ghost predicate PairInDetail(db: Db, after: Db, i: TxnId, e: TxnId, kind: MatchKind, status: ResultStatus) {
    var row := |db.results|;
    && after.results == db.results + [MatchResult(kind, status, i, e, None)]
    && after.claims == db.claims + [Claim(i, Some(row), Internal, true), Claim(e, Some(row), External, true)]
    && OnlyStatus(db.txns, after.txns, if status == PendingReview then {} else {i, e}, Matched)
  }

  /** The row and the claim of the k-th member of a group. */
  predicate MemberInDetail(db: Db, after: Db, kind: MatchKind, single: TxnId, members: seq<TxnId>, k: nat)
    requires k < |members|
    requires |after.results| == |db.results| + |members| && |after.claims| == |db.claims| + 1 + |members|
  {
    var row, claim, m := |db.results|, |db.claims|, members[k];
    && after.results[row + k] == (if kind == Split then MatchResult(kind, AutoMatched, single, m, Some(row))
                                  else MatchResult(kind, AutoMatched, m, single, Some(row)))
    && after.claims[claim + 1 + k] == Claim(m, Some(row + k), if kind == Split then External else Internal, true)
  }

  ghost predicate GroupInDetail(db: Db, after: Db, kind: MatchKind, single: TxnId, members: seq<TxnId>) {
    && db.results <= after.results && |after.results| == |db.results| + |members|
    && db.claims <= after.claims && |after.claims| == |db.claims| + 1 + |members|
    && after.claims[|db.claims|]
       == Claim(single, Some(|db.results|), if kind == Split then Internal else External, true)
    && (forall k :: 0 <= k < |members| ==> MemberInDetail(db, after, kind, single, members, k))
    && OnlyStatus(db.txns, after.txns, {single} + ToSet(members), Matched)
  }

  ghost predicate UndoneInDetail(db: Db, after: Db, r: nat)
    requires r < |db.results|
  {
    && |after.results| == |db.results| && |after.claims| == |db.claims|
    && (forall q :: 0 <= q < |db.results| ==>
          after.results[q] == if InMatch(db, r, q) then db.results[q].(status := Rejected) else db.results[q])
    && (forall c :: 0 <= c < |db.claims| ==>
          var row := db.claims[c].result;
          after.claims[c] == if row.Some? && row.value < |db.results| && InMatch(db, r, row.value)
                             then db.claims[c].(active := false) else db.claims[c])
    && after.txns.Keys == db.txns.Keys
    && (forall t :: t in db.txns ==>
          after.txns[t] == if exists q :: 0 <= q < |db.results| && InMatch(db, r, q)
                                          && (db.results[q].internal == t || db.results[q].external == t)
                           then db.txns[t].(status := Unmatched) else db.txns[t])
  }

  /** What each step writes, and that it writes nothing else. */
  lemma StepInDetail(db: Db, s: Step)
    requires Enabled(db, s)
    ensures var after := Apply(db, s);
            match s
            case Pair(i, e, kind, status) => PairInDetail(db, after, i, e, kind, status)
            case Group(kind, single, members) => GroupInDetail(db, after, kind, single, members)
            case Confirm(r) =>
              && r < |db.results| && after.claims == db.claims
              && after.results == db.results[r := db.results[r].(status := Confirmed)]
              && OnlyStatus(db.txns, after.txns, {db.results[r].internal, db.results[r].external}, Matched)
            case Reject(r) =>
              && r < |db.results| && after.txns == db.txns && |after.claims| == |db.claims|
              && after.results == db.results[r := db.results[r].(status := Rejected)]
              && forall c :: 0 <= c < |db.claims| ==>
                   after.claims[c] == if db.claims[c].result == Some(r) then db.claims[c].(active := false)
                                      else db.claims[c]
            case Unmatch(r) => r < |db.results| && UndoneInDetail(db, after, r)
            case Void(copy, original) =>
              && copy in db.txns && after.results == db.results && after.claims == db.claims
              && after.txns == db.txns[copy := db.txns[copy].(status := Voided, voidedOriginal := Some(original))]
            case Ingest(t, row) =>
              after.results == db.results && after.claims == db.claims && after.txns == db.txns[t := row]
  {
    match s
    case Group(kind, single, members) => GroupedInDetail(db, kind, single, members);
    case Unmatch(r) => UnmatchInDetail(db, r);
    case _ =>
  }

  lemma GroupedInDetail(db: Db, kind: MatchKind, single: TxnId, members: seq<TxnId>)
    requires kind == Split || kind == Netted
    ensures GroupInDetail(db, WithGroup(db, kind, single, members), kind, single, members)
  {
    forall k | 0 <= k < |members|
      ensures MemberInDetail(db, WithGroup(db, kind, single, members), kind, single, members, k)
    {
      GroupedMember(db, kind, single, members, k);
    }
    hide MemberInDetail;
  }

  lemma GroupedMember(db: Db, kind: MatchKind, single: TxnId, members: seq<TxnId>, k: nat)
    requires k < |members| && (kind == Split || kind == Netted)
    ensures MemberInDetail(db, WithGroup(db, kind, single, members), kind, single, members, k)
  {
    var after, first := WithGroup(db, kind, single, members), |db.results|;
    var rows := seq(|members|, j requires 0 <= j < |members| => GroupRow(kind, single, members[j], first));
    var held := seq(|members|, j requires 0 <= j < |members| =>
      Claim(members[j], Some(first + j), MemberRole(kind), true));
    var front := db.claims + [Claim(single, Some(first), SingleRole(kind), true)];
    assert after.results == db.results + rows && after.claims == front + held;
    var at := |db.claims| + 1 + k;
    assert |front| == |db.claims| + 1 && at - |front| == k;
    assert after.results[first + k] == rows[k] && after.claims[at] == held[at - |front|];
    assert held[k] == Claim(members[k], Some(first + k), MemberRole(kind), true);
  }

  lemma UnmatchInDetail(db: Db, r: nat)
    requires r < |db.results|
    ensures UndoneInDetail(db, WithUnmatch(db, r), r)
  {
    var rows := MatchRows(db, r);
    assert forall q :: q in rows <==> 0 <= q < |db.results| && InMatch(db, r, q);
    forall t
      ensures t in Sides(db, rows) <==> exists q :: 0 <= q < |db.results| && InMatch(db, r, q)
                                                    && (db.results[q].internal == t || db.results[q].external == t)
    {
    }
  }
}

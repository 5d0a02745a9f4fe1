/** People deciding matches: review of the pending band (src/recon/matching/review.py), manual
    matches and unmatching (src/recon/matching/manual.py). */
module Review {
  import opened Ledger
  import opened LedgerInvariant
  import opened LedgerLaws
  import opened Database

  datatype Decision = Decided | NotFound | NotPending(status: ResultStatus) | Inconsistent

  /** confirm. In a ledger a run can reach, the consistency check never fails: the decision is
      refused only for an unknown row or one that is no longer pending. */
  method ConfirmMatch(s: Session, r: nat) returns (d: Decision)
    modifies s
    ensures d == Decided ==> r < |old(s.results)| && Enabled(old(s.State()), Confirm(r))
                             && s.State() == Apply(old(s.State()), Confirm(r))
    ensures d != Decided ==> s.State() == old(s.State())
    ensures d == NotFound <==> r >= |old(s.results)|
    ensures d.NotPending? <==> r < |old(s.results)| && old(s.results)[r].status != PendingReview
    ensures d.NotPending? ==> d.status == old(s.results)[r].status
    ensures d == Inconsistent <==> r < |old(s.results)| && old(s.results)[r].status == PendingReview
                                   && !ReviewConsistent(old(s.State()), r)
    ensures Valid(old(s.State())) ==> d != Inconsistent
  {
    if Valid(s.State()) && r < |s.results| && s.results[r].status == PendingReview {
      PendingIsConsistent(s.State(), r);
    }
    hide Valid;
    if r >= |s.results| {
      return NotFound;
    }
    var row := s.results[r];
    if row.status != PendingReview {
      return NotPending(row.status);
    }
    if row.internal !in s.txns || row.external !in s.txns || row.internal == row.external {
      return Inconsistent;
    }
    var claims := ActiveClaims(s.State(), r);
    if |claims| != 2 || (set c | c in claims :: s.claims[c].txn) != {row.internal, row.external} {
      return Inconsistent;
    }
    if s.txns[row.internal].status != Unmatched || s.txns[row.external].status != Unmatched {
      return Inconsistent;
    }
    SetStatuses(s, {row.internal, row.external}, Matched);
    s.results := s.results[r := row.(status := Confirmed)];
    return Decided;
  }

  /** reject: the row becomes REJECTED and its claims are released; the transactions, never marked
      MATCHED, are back in the pool. */
  method RejectMatch(s: Session, r: nat) returns (d: Decision)
    modifies s
    ensures d == Decided ==> r < |old(s.results)| && Enabled(old(s.State()), Reject(r))
                             && s.State() == Apply(old(s.State()), Reject(r))
    ensures d != Decided ==> s.State() == old(s.State())
    ensures d == NotFound <==> r >= |old(s.results)|
    ensures d.NotPending? <==> r < |old(s.results)| && old(s.results)[r].status != PendingReview
    ensures d.NotPending? ==> d.status == old(s.results)[r].status
    ensures d != Inconsistent
    ensures d == Decided && Valid(old(s.State())) ==>
              Free(s.State(), old(s.results)[r].internal) && Free(s.State(), old(s.results)[r].external)
  {
    if r >= |s.results| {
      return NotFound;
    }
    if s.results[r].status != PendingReview {
      return NotPending(s.results[r].status);
    }
    ReleaseAll(s, {r});
    s.results := s.results[r := s.results[r].(status := Rejected)];
    if Valid(old(s.State())) {
      RejectFrees(old(s.State()), r);
    }
    return Decided;
  }

  lemma RejectFrees(db: Db, r: nat)
    requires Valid(db) && r < |db.results| && db.results[r].status == PendingReview
    ensures Free(WithReject(db, r), db.results[r].internal) && Free(WithReject(db, r), db.results[r].external)
  {
    hide Valid, WithUnmatch;
    RejectIsUnmatch(db, r);
    PendingSidesUnmatched(db, r);
    UnmatchVacates(db, r, db.results[r].internal);
    UnmatchVacates(db, r, db.results[r].external);
  }

  /** After an undo, the sides of the match are unclaimed and UNMATCHED. */
  lemma UnmatchVacates(db: Db, r: nat, t: TxnId)
    requires Valid(db) && r < |db.results| && Live(db.results[r].status)
    requires t in Sides(db, MatchRows(db, r))
    ensures Free(WithUnmatch(db, r), t)
  {
    hide Valid, WithUnmatch, MatchRows, Sides;
    var back := WithUnmatch(db, r);
    UnmatchShape(db, r);
    var q := MatchOfSide(db, r, t);
    RowOf(db, q);
    forall c | 0 <= c < |back.claims| && back.claims[c].active ensures back.claims[c].txn != t {
      UnmatchFrees(db, r, c);
    }
  }

  // -------------------------------------------------------------------- manual service

  datatype Creation = Created(row: nat) | TransactionNotFound | InvalidPair | Unavailable

  /** create: pairs two free transactions of one bank, one of each source. */
  method CreateManual(s: Session, internal: TxnId, external: TxnId) returns (c: Creation)
    modifies s
    ensures c.Created? ==> c.row == |old(s.results)|
                           && Enabled(old(s.State()), Pair(internal, external, Manual, Confirmed))
                           && s.State() == Apply(old(s.State()), Pair(internal, external, Manual, Confirmed))
    ensures !c.Created? ==> s.State() == old(s.State())
    ensures c == TransactionNotFound <==> internal !in old(s.txns) || external !in old(s.txns)
    ensures c == InvalidPair <==>
              && internal in old(s.txns) && external in old(s.txns)
              && (old(s.txns)[internal].source != Internal || old(s.txns)[external].source != External
                  || old(s.txns)[internal].bank != old(s.txns)[external].bank)
    ensures c == Unavailable <==>
              && internal in old(s.txns) && external in old(s.txns)
              && old(s.txns)[internal].source == Internal && old(s.txns)[external].source == External
              && old(s.txns)[internal].bank == old(s.txns)[external].bank
              && !(Free(old(s.State()), internal) && Free(old(s.State()), external))
  {
    if internal !in s.txns || external !in s.txns {
      return TransactionNotFound;
    }
    if s.txns[internal].source != Internal || s.txns[external].source != External
       || s.txns[internal].bank != s.txns[external].bank {
      return InvalidPair;
    }
    if s.txns[internal].status != Unmatched || Claimed(s.State(), internal)
       || s.txns[external].status != Unmatched || Claimed(s.State(), external) {
      return Unavailable;
    }
    var row := |s.results|;
    var written := WritePair(s, internal, external, Manual, Confirmed);
    if !written {
      return Unavailable;
    }
    return Created(row);
  }

  datatype Undoing = Undone(rows: set<nat>) | MatchNotFound | NotUnmatchable

  /** unmatch: marks every row of the match REJECTED, releases its claims and returns its
      transactions to the pool, or changes nothing. */
  method UnmatchMatch(s: Session, r: nat) returns (u: Undoing)
    requires Valid(s.State())
    modifies s
    ensures u.Undone? ==> r < |old(s.results)| && u.rows == MatchRows(old(s.State()), r)
                          && Enabled(old(s.State()), Unmatch(r))
                          && s.State() == Apply(old(s.State()), Unmatch(r))
                          && forall t :: t in Sides(old(s.State()), u.rows) ==> Free(s.State(), t)
    ensures !u.Undone? ==> s.State() == old(s.State())
    ensures u == MatchNotFound <==> r >= |old(s.results)|
    ensures u == NotUnmatchable <==> r < |old(s.results)| && old(s.results)[r].status != AutoMatched
                                     && old(s.results)[r].status != Confirmed
  {
    hide Valid, SameMatch;
    if r >= |s.results| {
      return MatchNotFound;
    }
    var db := s.State();
    var rows := MatchRows(db, r);
    SameFate(db, r);
    if exists q :: q in rows && !Unmatchable(s.results[q].status) {
      return NotUnmatchable;
    }
    ReleaseAll(s, rows);
    forall t | t in Sides(db, rows) ensures t in db.txns {
      var q := MatchOfSide(db, r, t);
      RowOf(db, q);
    }
    SetStatuses(s, Sides(db, rows), Unmatched);
    MarkRejected(s, rows);
    forall t | t in Sides(db, rows) ensures Free(WithUnmatch(db, r), t) {
      UnmatchVacates(db, r, t);
    }
    return Undone(rows);
  }

  /** The rows of one match share their status, so asking one is asking all. */
  lemma SameFate(db: Db, r: nat)
    requires Valid(db) && r < |db.results|
    ensures r in MatchRows(db, r)
    ensures forall q :: q in MatchRows(db, r) ==> q < |db.results| && db.results[q].status == db.results[r].status
  {
    hide Valid;
    forall q | q in MatchRows(db, r) ensures db.results[q].status == db.results[r].status {
      StatusOf(db, r, q);
    }
  }

  method MarkRejected(s: Session, rows: set<nat>)
    modifies s`results
    ensures |s.results| == |old(s.results)|
    ensures forall q :: 0 <= q < |s.results| ==>
              s.results[q] == if q in rows then old(s.results)[q].(status := Rejected) else old(s.results)[q]
  {
    for q := 0 to |s.results|
      invariant |s.results| == |old(s.results)|
      invariant forall p :: 0 <= p < |s.results| ==>
                  s.results[p] == if p < q && p in rows
                                  then old(s.results)[p].(status := Rejected)
                                  else old(s.results)[p]
    {
      if q in rows {
        s.results := s.results[q := s.results[q].(status := Rejected)];
      }
    }
  }
}

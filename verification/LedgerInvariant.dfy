/** What holds of the match ledger in every state any run of steps can reach. */
module LedgerInvariant {
  import opened Ledger

  // ----------------------------------------------------------------- the invariant

  /** Rows name two different known transactions; only automatic groups have a group id. */
  ghost predicate RowsSound(db: Db) {
    forall r :: 0 <= r < |db.results| ==>
      && db.results[r].internal in db.txns && db.results[r].external in db.txns
      && db.results[r].internal != db.results[r].external
      && (db.results[r].group.Some? ==> db.results[r].group.value <= r && db.results[r].status != PendingReview)
  }

  /** The rows of one group are decided together. */
  ghost predicate GroupsAgree(db: Db) {
    forall r, q :: 0 <= r < |db.results| && 0 <= q < |db.results| && SameMatch(db, r, q) ==>
      db.results[r].status == db.results[q].status
  }

  /** An ACTIVE claim belongs to a live row, and its transaction is a side of that row. */
  ghost predicate ClaimsSound(db: Db) {
    forall c :: 0 <= c < |db.claims| && db.claims[c].active ==> ClaimSound(db, db.claims[c])
  }

  ghost predicate ClaimSound(db: Db, claim: Claim) {
    && claim.result.Some? && claim.result.value < |db.results|
    && var row := db.results[claim.result.value];
       && Live(row.status)
       && (claim.txn == row.internal || claim.txn == row.external)
       && claim.txn in db.txns
       && db.txns[claim.txn].status == (if row.status == PendingReview then Unmatched else Matched)
  }

  /** A transaction has at most one ACTIVE claim. */
  ghost predicate OneActiveClaim(db: Db) {
    forall c, d | 0 <= c < d < |db.claims| && db.claims[c].active && db.claims[d].active ::
      db.claims[c].txn != db.claims[d].txn
  }

  /** Claim c holds transaction t for the match of row r. */
  ghost predicate Holds(db: Db, c: nat, t: TxnId, r: nat)
    requires r < |db.results|
  {
    && c < |db.claims| && db.claims[c].active && db.claims[c].txn == t
    && db.claims[c].result.Some? && db.claims[c].result.value < |db.results|
    && SameMatch(db, r, db.claims[c].result.value)
  }

  /** Both sides of a live row are held for its match. */
  ghost predicate LiveRowsHold(db: Db) {
    forall r :: 0 <= r < |db.results| && Live(db.results[r].status) ==>
      && (exists c :: Holds(db, c, db.results[r].internal, r))
      && (exists c :: Holds(db, c, db.results[r].external, r))
  }

  /** A MATCHED transaction has an ACTIVE claim. */
  ghost predicate MatchedAreClaimed(db: Db) {
    forall t :: t in db.txns && db.txns[t].status == Matched ==> Claimed(db, t)
  }

  /** No live row other than a manual one repeats a rejected pairing. */
  ghost predicate RejectionsKept(db: Db) {
    forall r :: 0 <= r < |db.results| && Live(db.results[r].status) && db.results[r].kind != Manual ==>
      !RejectedPair(db, db.results[r].internal, db.results[r].external)
  }

  ghost predicate Valid(db: Db) {
    && RowsSound(db) && GroupsAgree(db) && ClaimsSound(db) && OneActiveClaim(db)
    && LiveRowsHold(db) && MatchedAreClaimed(db) && RejectionsKept(db)
  }

  // ------------------------------------------------------------------- every step keeps it

  lemma FreshIsValid(db: Db)
    requires Fresh(db)
    ensures Valid(db)
  {
  }

  /** What writing a pair or a group has in common: rows and claims are added, and only the
      `taken` transactions, all free before, change status. */
  ghost predicate Adds(db: Db, db': Db, taken: set<TxnId>) {
    && db.results <= db'.results && db.claims <= db'.claims
    && (forall t :: t in db'.txns <==> t in db.txns)
    && (forall t :: t in db.txns && t !in taken ==> db'.txns[t] == db.txns[t])
    && (forall t :: t in taken ==> Free(db, t))
    && NewRowsSound(db, db', taken) && NewClaimsSound(db, db', taken)
  }

  ghost predicate NewRowsSound(db: Db, db': Db, taken: set<TxnId>)
    requires db.results <= db'.results
  {
    && (forall r :: |db.results| <= r < |db'.results| ==> NewRowSound(db, db', taken, r))
    && (forall r, q ::
          |db.results| <= r < |db'.results| && |db.results| <= q < |db'.results| && SameMatch(db', r, q) ==>
          db'.results[r].status == db'.results[q].status)
  }

  ghost predicate NewRowSound(db: Db, db': Db, taken: set<TxnId>, r: nat)
    requires r < |db'.results|
  {
    var row := db'.results[r];
    && Live(row.status) && row.internal in taken && row.external in taken && row.internal != row.external
    && (row.group.Some? ==> |db.results| <= row.group.value <= r && row.status != PendingReview)
    && (row.kind != Manual ==> !RejectedPair(db, row.internal, row.external))
    && (exists c :: Holds(db', c, row.internal, r))
    && (exists c :: Holds(db', c, row.external, r))
  }

  ghost predicate NewClaimsSound(db: Db, db': Db, taken: set<TxnId>)
    requires db.claims <= db'.claims
  {
    && (forall c :: |db.claims| <= c < |db'.claims| ==>
          db'.claims[c].active && db'.claims[c].txn in taken && ClaimSound(db', db'.claims[c]))
    && (forall c, d :: |db.claims| <= c < d < |db'.claims| ==> db'.claims[c].txn != db'.claims[d].txn)
    && (forall t :: t in taken ==> Claimed(db', t))
  }

  lemma NewRowsAreNew(db: Db, db': Db, taken: set<TxnId>)
    requires Adds(db, db', taken)
    ensures forall r :: 0 <= r < |db.results| ==> db'.results[r] == db.results[r]
    ensures forall r :: |db.results| <= r < |db'.results| ==>
              && Live(db'.results[r].status)
              && (db'.results[r].group.Some? ==> |db.results| <= db'.results[r].group.value)
  {
    forall r | |db.results| <= r < |db'.results|
      ensures Live(db'.results[r].status)
      ensures db'.results[r].group.Some? ==> |db.results| <= db'.results[r].group.value
    {
      assert NewRowSound(db, db', taken, r);
    }
  }

  lemma AddsKeepsRows(db: Db, db': Db, taken: set<TxnId>)
    requires RowsSound(db) && GroupsAgree(db) && Adds(db, db', taken)
    ensures RowsSound(db') && GroupsAgree(db')
  {
    assert forall q :: 0 <= q < |db.results| ==> db'.results[q] == db.results[q];
    forall r | 0 <= r < |db'.results|
      ensures db'.results[r].internal in db'.txns && db'.results[r].external in db'.txns
              && db'.results[r].internal != db'.results[r].external
      ensures db'.results[r].group.Some? ==> db'.results[r].group.value <= r && db'.results[r].status != PendingReview
    {
      if r >= |db.results| {
        assert NewRowSound(db, db', taken, r);
      }
    }
    NewRowsAreNew(db, db', taken);
    forall r, q | 0 <= r < |db'.results| && 0 <= q < |db'.results| && SameMatch(db', r, q)
      ensures db'.results[r].status == db'.results[q].status
    {
      if r < |db.results| && q < |db.results| {
        assert SameMatch(db, r, q);
      }
    }
  }

  lemma AddsKeepsClaims(db: Db, db': Db, taken: set<TxnId>)
    requires ClaimsSound(db) && OneActiveClaim(db) && Adds(db, db', taken)
    ensures ClaimsSound(db') && OneActiveClaim(db')
  {
    assert forall q :: 0 <= q < |db.results| ==> db'.results[q] == db.results[q];
    assert forall c :: 0 <= c < |db.claims| ==> db'.claims[c] == db.claims[c];
    assert forall t :: t in taken ==> !Claimed(db, t);
    assert forall c :: 0 <= c < |db.claims| && db.claims[c].active ==> db.claims[c].txn !in taken;
    forall c | 0 <= c < |db'.claims| && db'.claims[c].active ensures ClaimSound(db', db'.claims[c]) {
      if c < |db.claims| {
        assert ClaimSound(db, db.claims[c]);
      }
    }
  }

  lemma AddsKeepsHolds(db: Db, db': Db, taken: set<TxnId>)
    requires LiveRowsHold(db) && MatchedAreClaimed(db) && Adds(db, db', taken)
    ensures LiveRowsHold(db') && MatchedAreClaimed(db')
  {
    assert forall q :: 0 <= q < |db.results| ==> db'.results[q] == db.results[q];
    assert forall c :: 0 <= c < |db.claims| ==> db'.claims[c] == db.claims[c];
    forall r | 0 <= r < |db'.results| && Live(db'.results[r].status)
      ensures exists c :: Holds(db', c, db'.results[r].internal, r)
      ensures exists c :: Holds(db', c, db'.results[r].external, r)
    {
      if r < |db.results| {
        var c :| Holds(db, c, db.results[r].internal, r);
        var d :| Holds(db, d, db.results[r].external, r);
        assert Holds(db', c, db'.results[r].internal, r) && Holds(db', d, db'.results[r].external, r);
      } else {
        assert NewRowSound(db, db', taken, r);
      }
    }
    forall t | t in db'.txns && db'.txns[t].status == Matched ensures Claimed(db', t) {
      if t !in taken {
        var c :| 0 <= c < |db.claims| && db.claims[c].active && db.claims[c].txn == t;
        assert db'.claims[c].active && db'.claims[c].txn == t;
      }
    }
  }

  /** A taken transaction was free, so no earlier live row names it. */
  lemma AddsKeepsRejections(db: Db, db': Db, taken: set<TxnId>)
    requires RejectionsKept(db) && Adds(db, db', taken)
    ensures RejectionsKept(db')
  {
    NewRowsAreNew(db, db', taken);
    forall r | 0 <= r < |db'.results| && Live(db'.results[r].status) && db'.results[r].kind != Manual
      ensures !RejectedPair(db', db'.results[r].internal, db'.results[r].external)
    {
      var row := db'.results[r];
      assert !RejectedPair(db, row.internal, row.external) by {
        if r < |db.results| {
          assert db.results[r] == row;
        } else {
          assert NewRowSound(db, db', taken, r);
        }
      }
    }
  }

  lemma AddsKeeps(db: Db, db': Db, taken: set<TxnId>)
    requires Valid(db) && Adds(db, db', taken)
    ensures Valid(db')
  {
    hide Adds, RowsSound, GroupsAgree, ClaimsSound, OneActiveClaim, LiveRowsHold, MatchedAreClaimed, RejectionsKept;
    AddsKeepsRows(db, db', taken);
    AddsKeepsClaims(db, db', taken);
    AddsKeepsHolds(db, db', taken);
    AddsKeepsRejections(db, db', taken);
  }

  lemma PairAdds(db: Db, s: Step)
    requires s.Pair? && Enabled(db, s)
    ensures Adds(db, Apply(db, s), {s.internal, s.external})
  {
    var db', taken := Apply(db, s), {s.internal, s.external};
    var r, c := |db.results|, |db.claims|;
    assert db'.claims[c] == Claim(s.internal, Some(r), Internal, true);
    assert db'.claims[c + 1] == Claim(s.external, Some(r), External, true);
    assert Holds(db', c, s.internal, r) && Holds(db', c + 1, s.external, r);
    assert NewRowSound(db, db', taken, r);
    assert NewClaimsSound(db, db', taken);
  }

  lemma PairKeeps(db: Db, s: Step)
    requires Valid(db) && s.Pair? && Enabled(db, s)
    ensures Valid(Apply(db, s))
  {
    hide *;
    PairAdds(db, s);
    AddsKeeps(db, Apply(db, s), {s.internal, s.external});
  }

  /** The rows and claims of a written group, by position. */
  lemma GroupShape(db: Db, kind: MatchKind, single: TxnId, members: seq<TxnId>)
    ensures var db' := WithGroup(db, kind, single, members);
            && db.results <= db'.results && |db'.results| == |db.results| + |members|
            && db.claims <= db'.claims && |db'.claims| == |db.claims| + 1 + |members|
            && (forall q :: |db.results| <= q < |db'.results| ==>
                  db'.results[q] == GroupRow(kind, single, members[q - |db.results|], |db.results|))
            && db'.claims[|db.claims|] == Claim(single, Some(|db.results|), SingleRole(kind), true)
            && (forall d :: |db.claims| < d < |db'.claims| ==>
                  db'.claims[d] == Claim(members[d - |db.claims| - 1], Some(|db.results| + d - |db.claims| - 1),
                                         MemberRole(kind), true))
            && db'.txns == WithStatus(db.txns, {single} + ToSet(members), Matched)
  {
  }

  lemma GroupAdds(db: Db, s: Step)
    requires s.Group? && Enabled(db, s)
    ensures Adds(db, Apply(db, s), {s.single} + ToSet(s.members))
  {
    var db', taken := Apply(db, s), {s.single} + ToSet(s.members);
    GroupShape(db, s.kind, s.single, s.members);
    GroupRowsSound(db, s);
    GroupClaimsSound(db, s);
    hide WithGroup, NewRowsSound, NewClaimsSound, SameMatch, RejectedPair;
    assert forall t :: t in taken ==> t == s.single || t in s.members;
  }

  lemma GroupRowsSound(db: Db, s: Step)
    requires s.Group? && Enabled(db, s)
    ensures db.results <= Apply(db, s).results
    ensures NewRowsSound(db, Apply(db, s), {s.single} + ToSet(s.members))
  {
    var db', taken := Apply(db, s), {s.single} + ToSet(s.members);
    GroupShape(db, s.kind, s.single, s.members);
    hide WithGroup, ClaimSound, RejectedPair;
    var r, c, n := |db.results|, |db.claims|, |s.members|;
    forall q | r <= q < |db'.results| ensures NewRowSound(db, db', taken, q) {
      var m := s.members[q - r];
      assert db'.results[q] == GroupRow(s.kind, s.single, m, r);
      assert db'.results[r] == GroupRow(s.kind, s.single, s.members[0], r);
      assert Holds(db', c, s.single, q);
      assert Holds(db', c + 1 + q - r, m, q);
    }
  }

  lemma GroupClaimsSound(db: Db, s: Step)
    requires s.Group? && Enabled(db, s)
    ensures db.claims <= Apply(db, s).claims
    ensures NewClaimsSound(db, Apply(db, s), {s.single} + ToSet(s.members))
  {
    var db', taken := Apply(db, s), {s.single} + ToSet(s.members);
    GroupShape(db, s.kind, s.single, s.members);
    hide WithGroup, SameMatch, RejectedPair;
    var r, c, n := |db.results|, |db.claims|, |s.members|;
    assert db'.results[r] == GroupRow(s.kind, s.single, s.members[0], r);
    forall d | c <= d < |db'.claims|
      ensures db'.claims[d].active && db'.claims[d].txn in taken && ClaimSound(db', db'.claims[d])
    {
      if d > c {
        assert db'.results[r + d - c - 1] == GroupRow(s.kind, s.single, s.members[d - c - 1], r);
      }
    }
    forall t | t in taken ensures Claimed(db', t) {
      if t == s.single {
        assert db'.claims[c].txn == t;
      } else {
        var k :| 0 <= k < n && s.members[k] == t;
        assert db'.claims[c + 1 + k].txn == t;
      }
    }
  }

  lemma GroupKeeps(db: Db, s: Step)
    requires Valid(db) && s.Group? && Enabled(db, s)
    ensures Valid(Apply(db, s))
  {
    hide *;
    GroupAdds(db, s);
    AddsKeeps(db, Apply(db, s), {s.single} + ToSet(s.members));
  }

  // ------------------------------------------------- what the invariant says of one row or claim

  lemma RowOf(db: Db, r: nat)
    requires Valid(db) && r < |db.results|
    ensures db.results[r].internal in db.txns && db.results[r].external in db.txns
    ensures db.results[r].internal != db.results[r].external
    ensures db.results[r].group.Some? ==> db.results[r].group.value <= r && db.results[r].status != PendingReview
  {
  }

  lemma StatusOf(db: Db, r: nat, q: nat)
    requires Valid(db) && r < |db.results| && q < |db.results| && SameMatch(db, r, q)
    ensures db.results[r].status == db.results[q].status
  {
  }

  lemma ClaimOf(db: Db, c: nat)
    requires Valid(db) && c < |db.claims| && db.claims[c].active
    ensures ClaimSound(db, db.claims[c])
  {
  }

  lemma OneHolder(db: Db, c: nat, d: nat)
    requires Valid(db) && c < |db.claims| && d < |db.claims|
    requires db.claims[c].active && db.claims[d].active && db.claims[c].txn == db.claims[d].txn
    ensures c == d
  {
  }

  lemma HoldersOf(db: Db, r: nat) returns (c: nat, d: nat)
    requires Valid(db) && r < |db.results| && Live(db.results[r].status)
    ensures Holds(db, c, db.results[r].internal, r) && Holds(db, d, db.results[r].external, r)
  {
    c :| Holds(db, c, db.results[r].internal, r);
    d :| Holds(db, d, db.results[r].external, r);
  }

  lemma HolderOf(db: Db, t: TxnId) returns (c: nat)
    requires Valid(db) && t in db.txns && db.txns[t].status == Matched
    ensures c < |db.claims| && db.claims[c].active && db.claims[c].txn == t
  {
    assert Claimed(db, t);
    c :| 0 <= c < |db.claims| && db.claims[c].active && db.claims[c].txn == t;
  }

  lemma NotRejected(db: Db, r: nat)
    requires Valid(db) && r < |db.results| && Live(db.results[r].status) && db.results[r].kind != Manual
    ensures !RejectedPair(db, db.results[r].internal, db.results[r].external)
  {
  }

  /** Whoever holds a side of a live row does so for that row's match. */
  lemma HolderIsOwnMatch(db: Db, r: nat, c: nat)
    requires Valid(db) && r < |db.results| && Live(db.results[r].status)
    requires c < |db.claims| && db.claims[c].active
    requires db.claims[c].txn == db.results[r].internal || db.claims[c].txn == db.results[r].external
    ensures Holds(db, c, db.claims[c].txn, r)
  {
    hide Valid;
    var d, e := HoldersOf(db, r);
    OneHolder(db, c, if db.claims[c].txn == db.results[r].internal then d else e);
  }

  lemma FoldValid(db: Db)
    requires RowsSound(db) && GroupsAgree(db) && ClaimsSound(db) && OneActiveClaim(db)
    requires LiveRowsHold(db) && MatchedAreClaimed(db) && RejectionsKept(db)
    ensures Valid(db)
  {
  }

  // ------------------------------------------------------------- undoing and deciding

  /** Undoing a match: what changes, row by row and claim by claim. */
  lemma UnmatchShape(db: Db, r: nat)
    requires r < |db.results|
    ensures var db', rows := WithUnmatch(db, r), MatchRows(db, r);
            && |db'.results| == |db.results| && |db'.claims| == |db.claims|
            && (forall q :: 0 <= q < |db.results| ==>
                  db'.results[q] == if SameMatch(db, r, q) then db.results[q].(status := Rejected) else db.results[q])
            && (forall c ::
                  0 <= c < |db.claims| && db.claims[c].result.Some? && db.claims[c].result.value < |db.results| ==>
                  db'.claims[c] == if SameMatch(db, r, db.claims[c].result.value)
                                   then db.claims[c].(active := false) else db.claims[c])
            && (forall c :: 0 <= c < |db.claims| ==>
                  db'.claims[c] == if db'.claims[c].active then db.claims[c] else db.claims[c].(active := false))
            && db'.txns == WithStatus(db.txns, Sides(db, rows), Unmatched)
  {
  }

  lemma SideOfMatch(db: Db, r: nat, q: nat)
    requires r < |db.results| && q < |db.results| && SameMatch(db, r, q)
    ensures db.results[q].internal in Sides(db, MatchRows(db, r))
    ensures db.results[q].external in Sides(db, MatchRows(db, r))
  {
    assert q in MatchRows(db, r);
  }

  lemma MatchOfSide(db: Db, r: nat, t: TxnId) returns (q: nat)
    requires r < |db.results| && t in Sides(db, MatchRows(db, r))
    ensures q < |db.results| && SameMatch(db, r, q)
    ensures t == db.results[q].internal || t == db.results[q].external
  {
    q :| q in MatchRows(db, r) && (db.results[q].internal == t || db.results[q].external == t);
  }

  /** The claims that survive an undo are on other transactions, for other matches. */
  lemma UnmatchFrees(db: Db, r: nat, c: nat)
    requires Valid(db) && r < |db.results| && Live(db.results[r].status)
    requires c < |db.claims| && db.claims[c].active
    ensures ClaimSound(db, db.claims[c])
    ensures SameMatch(db, r, db.claims[c].result.value) <==> db.claims[c].txn in Sides(db, MatchRows(db, r))
  {
    hide Valid, Sides;
    ClaimOf(db, c);
    var v := db.claims[c].result.value;
    if SameMatch(db, r, v) {
      SideOfMatch(db, r, v);
    }
    if db.claims[c].txn in Sides(db, MatchRows(db, r)) {
      var q := MatchOfSide(db, r, db.claims[c].txn);
      StatusOf(db, r, q);
      HolderIsOwnMatch(db, q, c);
    }
  }

  lemma UnmatchKeepsRows(db: Db, r: nat)
    requires Valid(db) && r < |db.results|
    ensures RowsSound(WithUnmatch(db, r)) && GroupsAgree(WithUnmatch(db, r))
  {
    hide Valid, WithUnmatch, MatchRows, Sides;
    var db' := WithUnmatch(db, r);
    UnmatchShape(db, r);
    forall q | 0 <= q < |db'.results|
      ensures db'.results[q].internal in db'.txns && db'.results[q].external in db'.txns
      ensures db'.results[q].internal != db'.results[q].external
      ensures db'.results[q].group.Some? ==> db'.results[q].group.value <= q && db'.results[q].status != PendingReview
    {
      RowOf(db, q);
    }
    forall p, q | 0 <= p < |db'.results| && 0 <= q < |db'.results| && SameMatch(db', p, q)
      ensures db'.results[p].status == db'.results[q].status
    {
      StatusOf(db, p, q);
    }
  }

  lemma UnmatchKeepsClaims(db: Db, r: nat)
    requires Valid(db) && r < |db.results| && Live(db.results[r].status)
    ensures ClaimsSound(WithUnmatch(db, r)) && OneActiveClaim(WithUnmatch(db, r))
  {
    hide Valid, WithUnmatch, MatchRows, Sides;
    var db' := WithUnmatch(db, r);
    UnmatchShape(db, r);
    forall c | 0 <= c < |db'.claims| && db'.claims[c].active ensures ClaimSound(db', db'.claims[c]) {
      UnmatchFrees(db, r, c);
    }
    forall c, d | 0 <= c < d < |db'.claims| && db'.claims[c].active && db'.claims[d].active
      ensures db'.claims[c].txn != db'.claims[d].txn
    {
      if db'.claims[c].txn == db'.claims[d].txn {
        OneHolder(db, c, d);
      }
    }
  }

  lemma UnmatchKeepsHolds(db: Db, r: nat)
    requires Valid(db) && r < |db.results| && Live(db.results[r].status)
    ensures LiveRowsHold(WithUnmatch(db, r))
  {
    hide Valid, WithUnmatch, MatchRows, Sides;
    var db' := WithUnmatch(db, r);
    UnmatchShape(db, r);
    forall q | 0 <= q < |db'.results| && Live(db'.results[q].status)
      ensures exists c :: Holds(db', c, db'.results[q].internal, q)
      ensures exists c :: Holds(db', c, db'.results[q].external, q)
    {
      var c, d := HoldersOf(db, q);
      assert Holds(db', c, db'.results[q].internal, q) && Holds(db', d, db'.results[q].external, q);
    }
  }

  lemma UnmatchKeepsMatched(db: Db, r: nat)
    requires Valid(db) && r < |db.results| && Live(db.results[r].status)
    ensures MatchedAreClaimed(WithUnmatch(db, r))
  {
    hide Valid, WithUnmatch, MatchRows, Sides;
    var db' := WithUnmatch(db, r);
    UnmatchShape(db, r);
    forall t | t in db'.txns && db'.txns[t].status == Matched ensures Claimed(db', t) {
      var c := HolderOf(db, t);
      UnmatchFrees(db, r, c);
      assert db'.claims[c].active && db'.claims[c].txn == t;
    }
  }

  /** Two live rows naming the same transaction belong to one match. */
  lemma SharedSideIsSameMatch(db: Db, p: nat, q: nat, t: TxnId)
    requires Valid(db) && p < |db.results| && q < |db.results|
    requires Live(db.results[p].status) && Live(db.results[q].status)
    requires t == db.results[p].internal || t == db.results[p].external
    requires t == db.results[q].internal || t == db.results[q].external
    ensures SameMatch(db, p, q)
  {
    hide Valid;
    var c, d := HoldersOf(db, p);
    HolderIsOwnMatch(db, q, if t == db.results[p].internal then c else d);
  }

  /** The pairings an undo rejects belong to no other live row. */
  lemma UnmatchKeepsRejections(db: Db, r: nat)
    requires Valid(db) && r < |db.results| && Live(db.results[r].status)
    ensures RejectionsKept(WithUnmatch(db, r))
  {
    hide Valid, WithUnmatch, MatchRows, Sides;
    var db' := WithUnmatch(db, r);
    UnmatchShape(db, r);
    forall q, p | 0 <= q < |db'.results| && Live(db'.results[q].status) && db'.results[q].kind != Manual
                  && 0 <= p < |db'.results| && db'.results[p].status == Rejected
                  && db'.results[p].internal == db'.results[q].internal
      ensures db'.results[p].external != db'.results[q].external
    {
      NotRejected(db, q);
      if SameMatch(db, r, p) {
        StatusOf(db, r, p);
        assert !SameMatch(db, p, q);
        if db'.results[p].external == db'.results[q].external {
          SharedSideIsSameMatch(db, p, q, db.results[q].internal);
        }
      }
    }
  }

  lemma UnmatchKeeps(db: Db, r: nat)
    requires Valid(db) && r < |db.results| && Live(db.results[r].status)
    ensures Valid(WithUnmatch(db, r))
  {
    hide *;
    UnmatchKeepsRows(db, r);
    UnmatchKeepsClaims(db, r);
    UnmatchKeepsHolds(db, r);
    UnmatchKeepsMatched(db, r);
    UnmatchKeepsRejections(db, r);
    FoldValid(WithUnmatch(db, r));
  }

  lemma PendingSidesUnmatched(db: Db, r: nat)
    requires Valid(db) && r < |db.results| && db.results[r].status == PendingReview
    ensures db.results[r].internal in db.txns && db.txns[db.results[r].internal].status == Unmatched
    ensures db.results[r].external in db.txns && db.txns[db.results[r].external].status == Unmatched
    ensures MatchRows(db, r) == {r}
  {
    hide Valid;
    var c, d := HoldersOf(db, r);
    ClaimOf(db, c);
    ClaimOf(db, d);
    RowOf(db, r);
  }

  /** In a valid ledger, rejecting a pair under review is undoing it: its transactions were never
      MATCHED, so returning them to the pool changes nothing. */
  lemma RejectIsUnmatch(db: Db, r: nat)
    requires Valid(db) && r < |db.results| && db.results[r].status == PendingReview
    ensures WithReject(db, r) == WithUnmatch(db, r)
  {
    hide Valid;
    var i, e := db.results[r].internal, db.results[r].external;
    PendingSidesUnmatched(db, r);
    assert Sides(db, {r}) == {i, e};
    assert WithStatus(db.txns, {i, e}, Unmatched) == db.txns;
    assert WithReject(db, r).results == WithUnmatch(db, r).results;
  }

  lemma ConfirmKeepsRowsAndClaims(db: Db, r: nat)
    requires Valid(db) && r < |db.results| && db.results[r].status == PendingReview
    ensures var db' := WithConfirm(db, r);
            RowsSound(db') && GroupsAgree(db') && ClaimsSound(db') && OneActiveClaim(db')
  {
    hide Valid;
    var db' := WithConfirm(db, r);
    RowOf(db, r);
    forall q | 0 <= q < |db'.results|
      ensures db'.results[q].internal in db'.txns && db'.results[q].external in db'.txns
      ensures db'.results[q].internal != db'.results[q].external
      ensures db'.results[q].group.Some? ==> db'.results[q].group.value <= q && db'.results[q].status != PendingReview
    {
      RowOf(db, q);
    }
    forall p, q | 0 <= p < |db'.results| && 0 <= q < |db'.results| && SameMatch(db', p, q)
      ensures db'.results[p].status == db'.results[q].status
    {
      StatusOf(db, p, q);
    }
    forall c | 0 <= c < |db'.claims| && db'.claims[c].active ensures ClaimSound(db', db'.claims[c]) {
      ClaimOf(db, c);
      if db.claims[c].txn == db.results[r].internal || db.claims[c].txn == db.results[r].external {
        HolderIsOwnMatch(db, r, c);
      }
    }
    forall c, d | 0 <= c < d < |db'.claims| && db'.claims[c].active && db'.claims[d].active
      ensures db'.claims[c].txn != db'.claims[d].txn
    {
      if db'.claims[c].txn == db'.claims[d].txn {
        OneHolder(db, c, d);
      }
    }
  }

  lemma ConfirmKeepsHolds(db: Db, r: nat)
    requires Valid(db) && r < |db.results| && db.results[r].status == PendingReview
    ensures var db' := WithConfirm(db, r);
            LiveRowsHold(db') && MatchedAreClaimed(db') && RejectionsKept(db')
  {
    hide Valid;
    var db' := WithConfirm(db, r);
    var i, e := HoldersOf(db, r);
    forall q | 0 <= q < |db'.results| && Live(db'.results[q].status)
      ensures exists c :: Holds(db', c, db'.results[q].internal, q)
      ensures exists c :: Holds(db', c, db'.results[q].external, q)
    {
      var c, d := HoldersOf(db, q);
      assert Holds(db', c, db'.results[q].internal, q) && Holds(db', d, db'.results[q].external, q);
    }
    forall t | t in db'.txns && db'.txns[t].status == Matched ensures Claimed(db', t) {
      if t == db.results[r].internal {
        assert db'.claims[i].active && db'.claims[i].txn == t;
      } else if t == db.results[r].external {
        assert db'.claims[e].active && db'.claims[e].txn == t;
      } else {
        var c := HolderOf(db, t);
        assert db'.claims[c].active && db'.claims[c].txn == t;
      }
    }
    forall q | 0 <= q < |db'.results| && Live(db'.results[q].status) && db'.results[q].kind != Manual
      ensures !RejectedPair(db', db'.results[q].internal, db'.results[q].external)
    {
      NotRejected(db, q);
    }
  }

  lemma ConfirmKeeps(db: Db, r: nat)
    requires Valid(db) && r < |db.results| && db.results[r].status == PendingReview
    ensures Valid(WithConfirm(db, r))
  {
    hide *;
    ConfirmKeepsRowsAndClaims(db, r);
    ConfirmKeepsHolds(db, r);
    FoldValid(WithConfirm(db, r));
  }

  /** Only transactions without an ACTIVE claim changed, and none of them became MATCHED. */
  lemma TxnsOnlyKeeps(db: Db, db': Db)
    requires Valid(db) && db'.results == db.results && db'.claims == db.claims
    requires forall t :: t in db.txns ==> t in db'.txns
    requires forall t :: t in db.txns && Claimed(db, t) ==> db'.txns[t].status == db.txns[t].status
    requires forall t :: t in db'.txns && db'.txns[t].status == Matched ==>
               t in db.txns && db.txns[t].status == Matched
    ensures Valid(db')
  {
    hide *;
    TxnsOnlyKeepsRows(db, db');
    TxnsOnlyKeepsClaims(db, db');
    TxnsOnlyKeepsHolds(db, db');
    FoldValid(db');
  }

  lemma TxnsOnlyKeepsRows(db: Db, db': Db)
    requires Valid(db) && db'.results == db.results && db'.claims == db.claims
    requires forall t :: t in db.txns ==> t in db'.txns
    ensures RowsSound(db') && GroupsAgree(db') && OneActiveClaim(db')
  {
    hide Valid;
    forall r | 0 <= r < |db'.results|
      ensures db'.results[r].internal in db'.txns && db'.results[r].external in db'.txns
      ensures db'.results[r].internal != db'.results[r].external
      ensures db'.results[r].group.Some? ==> db'.results[r].group.value <= r && db'.results[r].status != PendingReview
    {
      RowOf(db, r);
    }
    forall p, q | 0 <= p < |db'.results| && 0 <= q < |db'.results| && SameMatch(db', p, q)
      ensures db'.results[p].status == db'.results[q].status
    {
      StatusOf(db, p, q);
    }
    forall c, d | 0 <= c < d < |db'.claims| && db'.claims[c].active && db'.claims[d].active
      ensures db'.claims[c].txn != db'.claims[d].txn
    {
      if db'.claims[c].txn == db'.claims[d].txn {
        OneHolder(db, c, d);
      }
    }
  }

  lemma TxnsOnlyKeepsClaims(db: Db, db': Db)
    requires Valid(db) && db'.results == db.results && db'.claims == db.claims
    requires forall t :: t in db.txns ==> t in db'.txns
    requires forall t :: t in db.txns && Claimed(db, t) ==> db'.txns[t].status == db.txns[t].status
    ensures ClaimsSound(db')
  {
    hide Valid;
    forall c | 0 <= c < |db'.claims| && db'.claims[c].active ensures ClaimSound(db', db'.claims[c]) {
      ClaimOf(db, c);
      assert Claimed(db, db.claims[c].txn);
    }
  }

  lemma TxnsOnlyKeepsHolds(db: Db, db': Db)
    requires Valid(db) && db'.results == db.results && db'.claims == db.claims
    requires forall t :: t in db'.txns && db'.txns[t].status == Matched ==>
               t in db.txns && db.txns[t].status == Matched
    ensures LiveRowsHold(db') && MatchedAreClaimed(db') && RejectionsKept(db')
  {
    hide Valid;
    forall r | 0 <= r < |db'.results| && Live(db'.results[r].status)
      ensures exists c :: Holds(db', c, db'.results[r].internal, r)
      ensures exists c :: Holds(db', c, db'.results[r].external, r)
    {
      var c, d := HoldersOf(db, r);
      assert Holds(db', c, db'.results[r].internal, r) && Holds(db', d, db'.results[r].external, r);
    }
    forall t | t in db'.txns && db'.txns[t].status == Matched ensures Claimed(db', t) {
      var c := HolderOf(db, t);
      assert db'.claims[c].active;
    }
    forall r | 0 <= r < |db'.results| && Live(db'.results[r].status) && db'.results[r].kind != Manual
      ensures !RejectedPair(db', db'.results[r].internal, db'.results[r].external)
    {
      NotRejected(db, r);
    }
  }

  lemma VoidKeeps(db: Db, t: TxnId, original: TxnId)
    requires Valid(db) && Free(db, t)
    ensures Valid(WithVoid(db, t, original))
  {
    hide Valid;
    TxnsOnlyKeeps(db, WithVoid(db, t, original));
  }

  lemma IngestKeeps(db: Db, t: TxnId, row: Txn)
    requires Valid(db) && t !in db.txns && row.status == Unmatched
    ensures Valid(db.(txns := db.txns[t := row]))
  {
    hide Valid;
    TxnsOnlyKeeps(db, db.(txns := db.txns[t := row]));
  }

  // ---------------------------------------------------------------- every run keeps it

  lemma StepKeeps(db: Db, s: Step)
    requires Valid(db) && Enabled(db, s)
    ensures Valid(Apply(db, s))
  {
    hide Valid;
    match s
    case Pair(_, _, _, _) => PairKeeps(db, s);
    case Group(_, _, _) => GroupKeeps(db, s);
    case Confirm(r) => ConfirmKeeps(db, r);
    case Reject(r) =>
      RejectIsUnmatch(db, r);
      UnmatchKeeps(db, r);
    case Unmatch(r) =>
      assert r in MatchRows(db, r);
      UnmatchKeeps(db, r);
    case Void(t, original) => VoidKeeps(db, t, original);
    case Ingest(t, row) => IngestKeeps(db, t, row);
  }

  lemma {:induction false} RunKeeps(db: Db, steps: seq<Step>)
    requires Valid(db) && AllEnabled(db, steps)
    ensures Valid(ApplyAll(db, steps))
  {
    if steps != [] {
      hide Valid, Enabled, Apply;
      RunKeeps(db, steps[..|steps| - 1]);
      StepKeeps(ApplyAll(db, steps[..|steps| - 1]), steps[|steps| - 1]);
    }
  }
}

/** The session every service works on, and the claims service: the only code that writes claims
    (src/recon/matching/claims.py). */
module Database {
  import opened Ledger

  class Session {
    var txns: map<TxnId, Txn>
    var results: seq<MatchResult>
    var claims: seq<Claim>

    constructor (txns: map<TxnId, Txn>)
      ensures State() == Db(txns, [], [])
    {
      this.txns := txns;
      results := [];
      claims := [];
    }

    function State(): Db
      reads this
    {
      Db(txns, results, claims)
    }
  }

  /** The ids a batch of claims asks for. */
  function Ids(wanted: seq<(TxnId, Source)>): (ids: seq<TxnId>)
    ensures |ids| == |wanted|
    ensures forall k :: 0 <= k < |wanted| ==> ids[k] == wanted[k].0
  {
    seq(|wanted|, k requires 0 <= k < |wanted| => wanted[k].0)
  }

  /** A batch of claims violates the one-ACTIVE-claim index. */
  ghost predicate Conflicts(db: Db, ids: seq<TxnId>) {
    !Distinct(ids) || exists k :: 0 <= k < |ids| && Claimed(db, ids[k])
  }

  function NewClaims(wanted: seq<(TxnId, Source)>): (claims: seq<Claim>)
    ensures |claims| == |wanted|
  {
    seq(|wanted|, k requires 0 <= k < |wanted| => Claim(wanted[k].0, None, wanted[k].1, true))
  }

  /** The transactions a batch of claims is for. */
  function ClaimedIds(batch: seq<Claim>): (ids: seq<TxnId>)
    ensures |ids| == |batch|
  {
    seq(|batch|, k requires 0 <= k < |batch| => batch[k].txn)
  }

  lemma ClaimedAfter(db: Db, batch: seq<Claim>, k: nat, t: TxnId)
    requires k <= |batch| && forall c :: c in batch ==> c.active
    ensures Claimed(db.(claims := db.claims + batch[..k]), t) <==> Claimed(db, t) || t in ClaimedIds(batch)[..k]
  {
    var added := db.claims + batch[..k];
    var after := db.(claims := added);
    if Claimed(db, t) {
      var c :| 0 <= c < |db.claims| && db.claims[c].active && db.claims[c].txn == t;
      assert added[c] == db.claims[c];
    }
    if t in ClaimedIds(batch)[..k] {
      var j :| 0 <= j < k && ClaimedIds(batch)[j] == t;
      assert added[|db.claims| + j] == batch[j];
    }
    if Claimed(after, t) {
      var c :| 0 <= c < |added| && added[c].active && added[c].txn == t;
      if c >= |db.claims| {
        assert ClaimedIds(batch)[..k][c - |db.claims|] == t;
      }
    }
  }

  /** Inserts ACTIVE claims one by one inside a savepoint. On the first conflict the savepoint is
      rolled back, so all the claims exist afterwards or none does. */
  method InsertClaims(s: Session, batch: seq<Claim>) returns (inserted: bool)
    requires forall c :: c in batch ==> c.active
    modifies s`claims
    ensures inserted <==> !Conflicts(old(s.State()), ClaimedIds(batch))
    ensures s.claims == if inserted then old(s.claims) + batch else old(s.claims)
  {
    var savepoint := s.claims;
    for k := 0 to |batch|
      invariant s.claims == savepoint + batch[..k]
      invariant s.txns == old(s.txns) && s.results == old(s.results)
      invariant !Conflicts(old(s.State()), ClaimedIds(batch)[..k])
    {
      ClaimedAfter(old(s.State()), batch, k, batch[k].txn);
      if Claimed(s.State(), batch[k].txn) {
        s.claims := savepoint;
        AlreadyTaken(old(s.State()), ClaimedIds(batch), k);
        return false;
      }
      s.claims := s.claims + [batch[k]];
      assert batch[..k + 1] == batch[..k] + [batch[k]];
      assert ClaimedIds(batch)[..k + 1] == ClaimedIds(batch)[..k] + [batch[k].txn];
    }
    assert batch[..|batch|] == batch;
    assert ClaimedIds(batch)[..|batch|] == ClaimedIds(batch);
    return true;
  }

  /** claim, claim_pair and claim_group: all the claims, not attached to a row yet, or none. */
  method ClaimAll(s: Session, wanted: seq<(TxnId, Source)>) returns (claimed: bool)
    modifies s`claims
    ensures claimed <==> !Conflicts(old(s.State()), Ids(wanted))
    ensures s.claims == if claimed then old(s.claims) + NewClaims(wanted) else old(s.claims)
  {
    assert ClaimedIds(NewClaims(wanted)) == Ids(wanted);
    claimed := InsertClaims(s, NewClaims(wanted));
  }

  lemma AlreadyTaken(db: Db, ids: seq<TxnId>, k: nat)
    requires k < |ids| && (Claimed(db, ids[k]) || ids[k] in ids[..k])
    ensures Conflicts(db, ids)
  {
    if !Claimed(db, ids[k]) {
      var j :| 0 <= j < k && ids[..k][j] == ids[k];
      assert ids[j] == ids[k];
    }
  }

  /** finalise: records the row a claim belongs to. */
  method Finalise(s: Session, c: nat, row: nat)
    requires c < |s.claims|
    modifies s`claims
    ensures s.claims == old(s.claims)[c := old(s.claims)[c].(result := Some(row))]
  {
    s.claims := s.claims[c := s.claims[c].(result := Some(row))];
  }

  /** release: the claim stays on record as RELEASED. */
  method Release(s: Session, c: nat)
    requires c < |s.claims|
    modifies s`claims
    ensures s.claims == old(s.claims)[c := old(s.claims)[c].(active := false)]
  {
    s.claims := s.claims[c := s.claims[c].(active := false)];
  }

  /** What every one-to-one matcher does once it has decided on a pair: claim both sides, write the
      row, attach the claims to it and, unless the pair awaits review, mark both sides MATCHED. */
  method WritePair(s: Session, internal: TxnId, external: TxnId, kind: MatchKind, status: ResultStatus)
    returns (written: bool)
    requires internal in s.txns && external in s.txns
    modifies s
    ensures written <==>
              !Claimed(old(s.State()), internal) && !Claimed(old(s.State()), external) && internal != external
    ensures s.State() == if written then WithPair(old(s.State()), internal, external, kind, status) else old(s.State())
  {
    var first := |s.claims|;
    var wanted := [(internal, Internal), (external, External)];
    written := ClaimAll(s, wanted);
    assert Ids(wanted) == [internal, external];
    if !written {
      assert Conflicts(old(s.State()), [internal, external]);
      return;
    }
    assert Ids(wanted)[0] == internal && Ids(wanted)[1] == external;
    var row := |s.results|;
    s.results := s.results + [MatchResult(kind, status, internal, external, None)];
    Finalise(s, first, row);
    Finalise(s, first + 1, row);
    if status != PendingReview {
      s.txns := s.txns[internal := s.txns[internal].(status := Matched)];
      s.txns := s.txns[external := s.txns[external].(status := Matched)];
    }
    assert s.claims == WithPair(old(s.State()), internal, external, kind, status).claims;
    assert s.txns == WithPair(old(s.State()), internal, external, kind, status).txns;
  }

  /** Marks rows one by one. */
  method SetStatuses(s: Session, ids: set<TxnId>, status: TxnStatus)
    requires forall t :: t in ids ==> t in s.txns
    modifies s`txns
    ensures s.txns == WithStatus(old(s.txns), ids, status)
  {
    var todo, done := ids, {};
    assert s.txns == WithStatus(s.txns, {}, status);
    while todo != {}
      invariant done + todo == ids && done !! todo
      invariant s.txns == WithStatus(old(s.txns), done, status)
      decreases todo
    {
      var t :| t in todo;
      s.txns := s.txns[t := s.txns[t].(status := status)];
      todo, done := todo - {t}, done + {t};
      assert s.txns == WithStatus(old(s.txns), done, status);
    }
    assert done == ids;
  }

  /** Releases the ACTIVE claims of the given rows one by one. */
  method ReleaseAll(s: Session, rows: set<nat>)
    modifies s`claims
    ensures s.claims == Released(old(s.claims), rows)
  {
    for c := 0 to |s.claims|
      invariant |s.claims| == |old(s.claims)|
      invariant s.claims == Released(old(s.claims), rows)[..c] + old(s.claims)[c..]
    {
      if s.claims[c].result.Some? && s.claims[c].result.value in rows && s.claims[c].active {
        Release(s, c);
      }
    }
  }
}

/** Set-based exact matching (src/recon/matching/strategies/exact_set_based.py): one statement pairs
    every key held by exactly one available internal and one available external. Followed by the
    keyed strategy on what is left, it makes the pairs the keyed strategy makes alone. */
module SetBasedExact {
  import opened Ledger
  import opened LedgerInvariant
  import opened Database
  import opened Repository
  import opened Stages
  import opened ExactMatching

  /** HAVING count(*) = 1: no other row of the pool has the key of t. */
  predicate Only(txns: Txns, pool: set<TxnId>, t: TxnId) {
    && t in pool && KeyAt(txns, t).Some?
    && forall u :: u in pool && KeyAt(txns, u) == KeyAt(txns, t) ==> u == t
  }

  /** The pairs the statement selects. */
  function SqlPairs(db: Db, ints: set<TxnId>, exts: set<TxnId>): (pairs: set<(TxnId, TxnId)>)
    ensures forall i: TxnId, e: TxnId :: (i, e) in pairs <==> SqlPair(db, ints, exts, i, e)
  {
    set i, e | i in ints && e in exts && SqlPair(db, ints, exts, i, e) :: (i, e)
  }

  predicate SqlPair(db: Db, ints: set<TxnId>, exts: set<TxnId>, i: TxnId, e: TxnId) {
    && Only(db.txns, ints, i) && Only(db.txns, exts, e) && KeyAt(db.txns, i) == KeyAt(db.txns, e)
    && !RejectedPair(db, i, e)
  }

  /** Two different pairs selected have no side in common. */
  lemma SqlPairsAreApart(db: Db, ints: set<TxnId>, exts: set<TxnId>, i: TxnId, e: TxnId, j: TxnId, f: TxnId)
    requires SqlPair(db, ints, exts, i, e) && SqlPair(db, ints, exts, j, f)
    ensures i == j <==> e == f
  {
  }

  /** SetBasedExactStage.run. */
  method RunSetBased(s: Session, bank: string, from: Option<int>, to: Option<int>,
                     ghost internals: seq<TxnId>, ghost externals: seq<TxnId>)
    returns (matched: nat, ghost pairs: Pairs)
    requires Valid(s.State())
    requires IsPool(s.State(), Query(bank, Internal, from, to), internals)
    requires IsPool(s.State(), Query(bank, External, from, to), externals)
    modifies s
    ensures ToSet(pairs) == SqlPairs(old(s.State()), ToSet(internals), ToSet(externals))
    ensures Distinct(pairs) && matched == |pairs|
    ensures StageRun(old(s.State()), s.State(), PairSteps(pairs, Exact), internals, externals)
    ensures StageOk(old(s.State()), s.State(), internals, externals)
  {
    hide SqlPairs, SqlPair, StageRun, StageOk, Valid, Candidates, PairSteps, WithPair, Claimed, IsPool, Selecting;
    ghost var start := s.State();
    var ints := Pool(s.State(), Query(bank, Internal, from, to));
    var exts := Pool(s.State(), Query(bank, External, from, to));
    var todo := SqlPairs(s.State(), ints, exts);
    matched, pairs := 0, [];
    SelectionStarts(start, bank, from, to, internals, externals);
    while todo != {}
      invariant ints == ToSet(internals) && exts == ToSet(externals)
      invariant Selecting(start, s.State(), internals, externals, todo, pairs)
      invariant matched == |pairs|
      decreases todo
    {
      var pair :| pair in todo;
      ghost var before := s.State();
      SelectionNext(start, before, internals, externals, todo, pairs, pair);
      var written := WritePair(s, pair.0, pair.1, Exact, AutoMatched);
      todo, pairs, matched := todo - {pair}, pairs + [pair], matched + 1;
    }
    SelectionEnds(start, s.State(), internals, externals, pairs);
  }

  /** The pairs written so far and the pairs still to write make up the selection; no side of a pair
      still to write is claimed. */
  ghost predicate Selecting(start: Db, db: Db, internals: seq<TxnId>, externals: seq<TxnId>,
                            todo: set<(TxnId, TxnId)>, pairs: Pairs) {
    && ToSet(pairs) + todo == SqlPairs(start, ToSet(internals), ToSet(externals))
    && ToSet(pairs) !! todo && Distinct(pairs)
    && (forall t :: t in internals ==> t !in externals)
    && (forall p :: p in todo ==> !Claimed(db, p.0) && !Claimed(db, p.1))
    && (forall t :: t in internals || t in externals ==> t in db.txns)
    && StageRun(start, db, PairSteps(pairs, Exact), internals, externals)
    && StageOk(start, db, internals, externals)
  }

  lemma SelectionStarts(start: Db, bank: string, from: Option<int>, to: Option<int>,
                        internals: seq<TxnId>, externals: seq<TxnId>)
    requires Valid(start)
    requires IsPool(start, Query(bank, Internal, from, to), internals)
    requires IsPool(start, Query(bank, External, from, to), externals)
    ensures ToSet(internals) == Pool(start, Query(bank, Internal, from, to))
    ensures ToSet(externals) == Pool(start, Query(bank, External, from, to))
    ensures Selecting(start, start, internals, externals, SqlPairs(start, ToSet(internals), ToSet(externals)), [])
  {
    hide Valid, Claimed, IsPool, Pool, StageRun, StageOk;
    PoolIsDistinct(start, Query(bank, Internal, from, to), internals);
    PoolIsDistinct(start, Query(bank, External, from, to), externals);
    PoolIsCandidates(start, Query(bank, Internal, from, to), internals);
    PoolIsCandidates(start, Query(bank, External, from, to), externals);
    StageBegins(start, internals, externals);
    assert PairSteps([], Exact) == [];
  }

  lemma SelectionNext(start: Db, db: Db, internals: seq<TxnId>, externals: seq<TxnId>,
                      todo: set<(TxnId, TxnId)>, pairs: Pairs, p: (TxnId, TxnId))
    requires Selecting(start, db, internals, externals, todo, pairs) && p in todo
    ensures p.0 in db.txns && p.1 in db.txns && p.0 != p.1 && !Claimed(db, p.0) && !Claimed(db, p.1)
    ensures Selecting(start, WithPair(db, p.0, p.1, Exact, AutoMatched), internals, externals,
                      todo - {p}, pairs + [p])
  {
    hide StageRun, StageOk, Claimed, RejectedPair, Valid;
    var ints, exts := ToSet(internals), ToSet(externals);
    assert p == (p.0, p.1) && SqlPair(start, ints, exts, p.0, p.1);
    var db' := WithPair(db, p.0, p.1, Exact, AutoMatched);
    StagePair(start, db, PairSteps(pairs, Exact), internals, externals, p.0, p.1, Exact, AutoMatched);
    assert PairSteps(pairs + [p], Exact) == PairSteps(pairs, Exact) + [Pair(p.0, p.1, Exact, AutoMatched)];
    forall q | q in todo - {p} ensures !Claimed(db', q.0) && !Claimed(db', q.1) {
      assert q == (q.0, q.1) && SqlPair(start, ints, exts, q.0, q.1);
      SqlPairsAreApart(start, ints, exts, p.0, p.1, q.0, q.1);
      PairClaims(db, p.0, p.1, Exact, AutoMatched, q.0);
      PairClaims(db, p.0, p.1, Exact, AutoMatched, q.1);
    }
    assert ToSet(pairs + [p]) == ToSet(pairs) + {p};
  }

  lemma SelectionEnds(start: Db, db: Db, internals: seq<TxnId>, externals: seq<TxnId>, pairs: Pairs)
    requires Selecting(start, db, internals, externals, {}, pairs)
    ensures ToSet(pairs) == SqlPairs(start, ToSet(internals), ToSet(externals)) && Distinct(pairs)
    ensures StageRun(start, db, PairSteps(pairs, Exact), internals, externals)
    ensures StageOk(start, db, internals, externals)
  {
    hide StageRun, StageOk;
  }
}

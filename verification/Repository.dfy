/** The candidate pools every matching stage works on (src/recon/persistence/repositories/matching.py). */
module Repository {
  import opened Ledger
  import opened Database

  const CHUNK := 5000

  /** A pool: one bank, one source, an optional inclusive date range. */
  datatype Query = Query(bank: string, source: Source, from: Option<int>, to: Option<int>)

  predicate Eligible(txn: Txn, q: Query) {
    && txn.bank == q.bank && txn.source == q.source
    && (q.from.Some? ==> txn.date >= q.from.value)
    && (q.to.Some? ==> txn.date <= q.to.value)
  }

  predicate Available(db: Db, q: Query, t: TxnId) {
    Free(db, t) && Eligible(db.txns[t], q)
  }

  function Pool(db: Db, q: Query): set<TxnId> {
    set t | t in db.txns && Available(db, q, t)
  }

  /** The deterministic order: date, then line in the file, then id. */
  predicate Before(txns: map<TxnId, Txn>, a: TxnId, b: TxnId)
    requires a in txns && b in txns
  {
    || txns[a].date < txns[b].date
    || (txns[a].date == txns[b].date
        && (txns[a].lineNo < txns[b].lineNo || (txns[a].lineNo == txns[b].lineNo && a < b)))
  }

  ghost predicate Ordered(txns: map<TxnId, Txn>, ids: seq<TxnId>)
    requires forall t :: t in ids ==> t in txns
  {
    forall j, k :: 0 <= j < k < |ids| ==> Before(txns, ids[j], ids[k])
  }

  /** ids is the pool in its order. */
  ghost predicate IsPool(db: Db, q: Query, ids: seq<TxnId>) {
    && (forall t :: t in ids <==> t in Pool(db, q))
    && (forall t :: t in ids ==> t in db.txns)
    && Ordered(db.txns, ids)
  }

  lemma PoolIsDistinct(db: Db, q: Query, ids: seq<TxnId>)
    requires IsPool(db, q, ids)
    ensures Distinct(ids) && ToSet(ids) == Pool(db, q)
  {
    forall a, b | 0 <= a < b < |ids| ensures ids[a] != ids[b] {
      assert Before(db.txns, ids[a], ids[b]);
    }
  }

  lemma FirstIsLeast(txns: map<TxnId, Txn>, ids: seq<TxnId>, t: TxnId)
    requires (forall x :: x in ids ==> x in txns) && Ordered(txns, ids) && t in ids
    ensures t == ids[0] || Before(txns, ids[0], t)
  {
    var k :| 0 <= k < |ids| && ids[k] == t;
    if k > 0 {
      assert Before(txns, ids[0], ids[k]);
    }
  }

  /** The order leaves no choice: there is one pool list. */
  lemma {:induction false} PoolIsUnique(txns: map<TxnId, Txn>, a: seq<TxnId>, b: seq<TxnId>)
    requires (forall t :: t in a ==> t in txns) && (forall t :: t in b ==> t in txns)
    requires Ordered(txns, a) && Ordered(txns, b) && (forall t :: t in a <==> t in b)
    ensures a == b
    decreases a
  {
    assert |b| > 0 ==> b[0] in a;
    if a != [] {
      assert a[0] in b;
      FirstIsLeast(txns, b, a[0]);
      FirstIsLeast(txns, a, b[0]);
      assert a == [a[0]] + a[1..] && b == [b[0]] + b[1..];
      forall t | t in a[1..] ensures t in b[1..] {
        assert t in b;
        var i :| 0 <= i < |a[1..]| && a[1..][i] == t;
        assert Before(txns, a[0], a[i + 1]);
      }
      forall t | t in b[1..] ensures t in a[1..] {
        assert t in a;
        var i :| 0 <= i < |b[1..]| && b[1..][i] == t;
        assert Before(txns, b[0], b[i + 1]);
      }
      PoolIsUnique(txns, a[1..], b[1..]);
    }
  }

  /** The given ids as a list in that order: there is one, and only one. */
  ghost predicate Lists(txns: map<TxnId, Txn>, wanted: set<TxnId>, ids: seq<TxnId>) {
    && (forall t :: t in ids <==> t in wanted)
    && (forall t :: t in ids ==> t in txns)
    && Ordered(txns, ids)
  }

  lemma {:induction false} LeastExists(txns: map<TxnId, Txn>, todo: set<TxnId>) returns (least: TxnId)
    requires todo != {} && forall t :: t in todo ==> t in txns
    ensures least in todo && forall t :: t in todo && t != least ==> Before(txns, least, t)
  {
    var first :| first in todo;
    var rest := todo - {first};
    assert todo == rest + {first};
    if rest == {} {
      least := first;
    } else {
      var other := LeastExists(txns, rest);
      least := if Before(txns, other, first) then other else first;
    }
  }

  lemma {:induction false} ListExists(txns: map<TxnId, Txn>, wanted: set<TxnId>) returns (ids: seq<TxnId>)
    requires forall t :: t in wanted ==> t in txns
    ensures Lists(txns, wanted, ids)
  {
    if wanted == {} {
      ids := [];
    } else {
      var least := LeastExists(txns, wanted);
      var rest := ListExists(txns, wanted - {least});
      ids := [least] + rest;
    }
  }

  ghost function Listing(txns: map<TxnId, Txn>, wanted: set<TxnId>): (ids: seq<TxnId>)
    requires forall t :: t in wanted ==> t in txns
    ensures Lists(txns, wanted, ids)
  {
    assert exists ids :: Lists(txns, wanted, ids) by {
      var ids := ListExists(txns, wanted);
    }
    var ids :| Lists(txns, wanted, ids);
    ids
  }

  lemma ListingIs(txns: map<TxnId, Txn>, wanted: set<TxnId>, ids: seq<TxnId>)
    requires (forall t :: t in wanted ==> t in txns) && Lists(txns, wanted, ids)
    ensures ids == Listing(txns, wanted)
  {
    PoolIsUnique(txns, ids, Listing(txns, wanted));
  }

  /** The pool as the one list that holds it. */
  ghost function PoolList(db: Db, q: Query): (ids: seq<TxnId>)
    ensures IsPool(db, q, ids)
  {
    Listing(db.txns, Pool(db, q))
  }

  lemma PoolListIs(db: Db, q: Query, ids: seq<TxnId>)
    requires IsPool(db, q, ids)
    ensures ids == PoolList(db, q)
  {
    ListingIs(db.txns, Pool(db, q), ids);
  }

  /** find_unmatched: the UNMATCHED transactions of the bank and source, within the dates, that hold no ACTIVE claim;
      by date, then by line, then by id. */
  method FindUnmatched(s: Session, q: Query) returns (ids: seq<TxnId>)
    ensures IsPool(s.State(), q, ids)
    ensures forall t: TxnId :: t in ids <==>
              && t in s.txns && s.txns[t].status == Unmatched
              && (forall c :: 0 <= c < |s.claims| && s.claims[c].active ==> s.claims[c].txn != t)
              && s.txns[t].bank == q.bank && s.txns[t].source == q.source
              && (q.from.Some? ==> q.from.value <= s.txns[t].date) && (q.to.Some? ==> s.txns[t].date <= q.to.value)
    ensures forall j, k :: 0 <= j < k < |ids| ==>
              var a, b := s.txns[ids[j]], s.txns[ids[k]];
              || a.date < b.date
              || (a.date == b.date && a.lineNo < b.lineNo)
              || (a.date == b.date && a.lineNo == b.lineNo && ids[j] < ids[k])
  {
    ids := InOrder(s.txns, Pool(s.State(), q));
  }

  /** ORDER BY: repeatedly takes the least that is left. */
  method InOrder(txns: map<TxnId, Txn>, wanted: set<TxnId>) returns (ids: seq<TxnId>)
    requires forall t :: t in wanted ==> t in txns
    ensures Lists(txns, wanted, ids)
  {
    ids := [];
    var todo := wanted;
    while todo != {}
      invariant todo <= wanted && (forall t :: t in ids ==> t in txns)
      invariant forall t :: t in wanted <==> t in ids || t in todo
      invariant Ordered(txns, ids)
      invariant forall j, t :: 0 <= j < |ids| && t in todo ==> Before(txns, ids[j], t)
      decreases todo
    {
      var least := Least(txns, todo);
      ids := ids + [least];
      todo := todo - {least};
    }
  }

  method Least(txns: map<TxnId, Txn>, todo: set<TxnId>) returns (least: TxnId)
    requires todo != {} && forall t :: t in todo ==> t in txns
    ensures least in todo && forall t :: t in todo && t != least ==> Before(txns, least, t)
  {
    least :| least in todo;
    var rest := todo - {least};
    while rest != {}
      invariant least in todo && rest <= todo && least !in rest
      invariant forall t :: t in todo && t !in rest && t != least ==> Before(txns, least, t)
      decreases rest
    {
      var t :| t in rest;
      rest := rest - {t};
      if Before(txns, t, least) {
        least := t;
      }
    }
  }

  /** rejected_pairs: the pairings of the given internals a person rejected, read in chunks. */
  method RejectedPairs(s: Session, ids: seq<TxnId>) returns (pairs: set<(TxnId, TxnId)>)
    ensures pairs == RejectedRows(s.State(), ids)
  {
    pairs := {};
    var start := 0;
    while start < |ids|
      invariant 0 <= start <= |ids|
      invariant pairs == RejectedRows(s.State(), ids[..start])
    {
      var stop := if start + CHUNK < |ids| then start + CHUNK else |ids|;
      var rows := RejectedRows(s.State(), ids[start..stop]);
      pairs := pairs + rows;
      assert ids[..stop] == ids[..start] + ids[start..stop];
      assert pairs == RejectedRows(s.State(), ids[..stop]);
      start := stop;
    }
    assert ids[..|ids|] == ids;
  }

  function RejectedRows(db: Db, ids: seq<TxnId>): (pairs: set<(TxnId, TxnId)>)
    ensures forall i: TxnId, e: TxnId :: (i, e) in pairs <==> i in ids && RejectedPair(db, i, e)
  {
    set r | 0 <= r < |db.results| && db.results[r].status == Rejected && db.results[r].internal in ids
      :: (db.results[r].internal, db.results[r].external)
  }
}

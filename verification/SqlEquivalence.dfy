/** The two-stage form of exact matching refines the one-stage form: the set-based statement followed
    by the keyed strategy on the pools as they then are makes exactly the pairs the keyed strategy
    would have made alone. */
module SqlEquivalence {
  import opened Ledger
  import opened LedgerInvariant
  import opened Repository
  import opened Stages
  import opened ExactMatching
  import opened ExactLaws
  import opened SetBasedExact

  type Rejections = set<(TxnId, TxnId)>

  // ---------------------------------------------- what the scan depends on

  /** The two stores agree on everything the scan reads about the internals left. */
  ghost predicate Agree(a: Txns, b: Txns, rejectedA: Rejections, rejectedB: Rejections, left: seq<TxnId>) {
    && (forall t: TxnId :: KeyAt(a, t) == KeyAt(b, t))
    && (forall t: TxnId, e: TxnId :: DaysApart(a, t, e) == DaysApart(b, t, e))
    && (forall t: TxnId, e: TxnId :: t in left ==> ((t, e) in rejectedA <==> (t, e) in rejectedB))
  }

  lemma {:induction false} BucketAgrees(a: Txns, b: Txns, left: seq<TxnId>, key: Key)
    requires forall t: TxnId :: KeyAt(a, t) == KeyAt(b, t)
    ensures WithKey(a, left, key) == WithKey(b, left, key)
  {
    hide KeyAt;
    if left != [] {
      BucketAgrees(a, b, left[..|left| - 1], key);
    }
  }

  lemma {:induction false} AllowedAgrees(bucket: seq<TxnId>, rejectedA: Rejections, rejectedB: Rejections, e: TxnId)
    requires forall t :: t in bucket ==> ((t, e) in rejectedA <==> (t, e) in rejectedB)
    ensures Allowed(bucket, rejectedA, e) == Allowed(bucket, rejectedB, e)
  {
    if bucket != [] {
      AllowedAgrees(bucket[..|bucket| - 1], rejectedA, rejectedB, e);
    }
  }

  lemma {:induction false} ClosestAgrees(a: Txns, b: Txns, bucket: seq<TxnId>, e: TxnId)
    requires bucket != [] && forall t: TxnId :: DaysApart(a, t, e) == DaysApart(b, t, e)
    ensures Closest(a, bucket, e) == Closest(b, bucket, e)
  {
    hide DaysApart;
    if |bucket| > 1 {
      ClosestAgrees(a, b, bucket[..|bucket| - 1], e);
    }
  }

  lemma ChoiceAgrees(a: Txns, b: Txns, rejectedA: Rejections, rejectedB: Rejections, left: seq<TxnId>, e: TxnId)
    requires Agree(a, b, rejectedA, rejectedB, left)
    ensures Choice(a, rejectedA, left, e) == Choice(b, rejectedB, left, e)
  {
    hide KeyAt, DaysApart, WithKey, Allowed, Closest;
    if KeyAt(a, e).Some? {
      var key := KeyAt(a, e).value;
      BucketAgrees(a, b, left, key);
      AllowedAgrees(WithKey(a, left, key), rejectedA, rejectedB, e);
      var allowed := Allowed(WithKey(a, left, key), rejectedA, e);
      if allowed != [] {
        ClosestAgrees(a, b, allowed, e);
      }
    }
  }

  lemma {:induction false} ScanAgrees(a: Txns, b: Txns, rejectedA: Rejections, rejectedB: Rejections,
                                      left: seq<TxnId>, externals: seq<TxnId>)
    requires Agree(a, b, rejectedA, rejectedB, left)
    ensures ExactPairs(a, rejectedA, {}, left, externals) == ExactPairs(b, rejectedB, {}, left, externals)
    decreases externals
  {
    hide Choice, KeyAt, DaysApart;
    if externals != [] {
      var choice := Choice(a, rejectedA, left, externals[0]);
      ChoiceAgrees(a, b, rejectedA, rejectedB, left, externals[0]);
      ExactNext(a, rejectedA, {}, left, externals);
      ExactNext(b, rejectedB, {}, left, externals);
      if choice == None {
        ScanAgrees(a, b, rejectedA, rejectedB, left, externals[1..]);
      } else {
        ScanAgrees(a, b, rejectedA, rejectedB, Without(left, choice.value), externals[1..]);
      }
    }
  }

  // ---------------------------------------------- the scan, key by key

  predicate KeyIn(txns: Txns, t: TxnId, keys: set<Key>) {
    KeyAt(txns, t).Some? && KeyAt(txns, t).value in keys
  }

  /** The ids whose key is not among the given keys. */
  function Outside(txns: Txns, ids: seq<TxnId>, keys: set<Key>): (r: seq<TxnId>)
    ensures forall t :: t in r <==> t in ids && !KeyIn(txns, t, keys)
  {
    if ids == [] then []
    else Outside(txns, ids[..|ids| - 1], keys) + OneOutside(txns, ids[|ids| - 1], keys)
  }

  function OneOutside(txns: Txns, t: TxnId, keys: set<Key>): seq<TxnId> {
    if KeyIn(txns, t, keys) then [] else [t]
  }

  lemma {:induction false} OutsideAppend(txns: Txns, a: seq<TxnId>, b: seq<TxnId>, keys: set<Key>)
    ensures Outside(txns, a + b, keys) == Outside(txns, a, keys) + Outside(txns, b, keys)
  {
    hide KeyIn;
    if b == [] {
      assert a + b == a;
    } else {
      assert (a + b)[..|a + b| - 1] == a + b[..|b| - 1];
      OutsideAppend(txns, a, b[..|b| - 1], keys);
    }
  }

  lemma OutsideOne(txns: Txns, t: TxnId, keys: set<Key>)
    ensures Outside(txns, [], keys) == [] && Outside(txns, [t], keys) == OneOutside(txns, t, keys)
  {
    assert [t][..0] == [];
  }

  lemma OutsideFirst(txns: Txns, ids: seq<TxnId>, keys: set<Key>)
    requires ids != []
    ensures Outside(txns, ids, keys) == OneOutside(txns, ids[0], keys) + Outside(txns, ids[1..], keys)
  {
    hide *;
    assert ids == [ids[0]] + ids[1..];
    OutsideAppend(txns, [ids[0]], ids[1..], keys);
    OutsideOne(txns, ids[0], keys);
  }

  lemma {:induction false} OutsideWithout(txns: Txns, ids: seq<TxnId>, t: TxnId, keys: set<Key>)
    ensures Outside(txns, Without(ids, t), keys) == Without(Outside(txns, ids, keys), t)
  {
    if ids != [] {
      var front, last := ids[..|ids| - 1], ids[|ids| - 1];
      assert ids == front + [last];
      hide *;
      OutsideWithout(txns, front, t, keys);
      WithoutAppend(front, [last], t);
      OutsideAppend(txns, front, [last], keys);
      OutsideAppend(txns, Without(front, t), Without([last], t), keys);
      WithoutAppend(Outside(txns, front, keys), Outside(txns, [last], keys), t);
      OneOutsideWithout(txns, last, t, keys);
    }
  }

  lemma OneOutsideWithout(txns: Txns, x: TxnId, t: TxnId, keys: set<Key>)
    ensures Outside(txns, Without([x], t), keys) == Without(Outside(txns, [x], keys), t)
  {
    hide Outside, Without;
    OutsideOne(txns, x, keys);
    OneWithout(x, t);
  }

  lemma OneWithout(x: TxnId, t: TxnId)
    ensures Without([x], t) == (if x == t then [] else [x]) && Without([], t) == []
  {
    assert [x][..0] == [];
  }

  lemma {:induction false} WithoutAbsent(ids: seq<TxnId>, t: TxnId)
    requires t !in ids
    ensures Without(ids, t) == ids
  {
    if ids != [] {
      WithoutAbsent(ids[..|ids| - 1], t);
    }
  }

  lemma {:induction false} OutsideBucket(txns: Txns, ids: seq<TxnId>, keys: set<Key>, key: Key)
    requires key !in keys
    ensures WithKey(txns, Outside(txns, ids, keys), key) == WithKey(txns, ids, key)
  {
    if ids != [] {
      var front, last := ids[..|ids| - 1], ids[|ids| - 1];
      assert ids == front + [last];
      hide *;
      OutsideBucket(txns, front, keys, key);
      OutsideAppend(txns, front, [last], keys);
      WithKeyAppend(txns, front, [last], key);
      WithKeyAppend(txns, Outside(txns, front, keys), Outside(txns, [last], keys), key);
      OneOutsideBucket(txns, last, keys, key);
    }
  }

  lemma OneOutsideBucket(txns: Txns, x: TxnId, keys: set<Key>, key: Key)
    requires key !in keys
    ensures WithKey(txns, Outside(txns, [x], keys), key) == WithKey(txns, [x], key)
  {
    hide Outside, WithKey;
    OutsideOne(txns, x, keys);
    Singletons(txns, x, x, key);
  }

  lemma ChoiceOutside(txns: Txns, rejected: Rejections, left: seq<TxnId>, e: TxnId, keys: set<Key>)
    requires !KeyIn(txns, e, keys)
    ensures Choice(txns, rejected, Outside(txns, left, keys), e) == Choice(txns, rejected, left, e)
  {
    hide Outside, WithKey, Allowed, Closest, KeyAt;
    if KeyAt(txns, e).Some? {
      OutsideBucket(txns, left, keys, KeyAt(txns, e).value);
    }
  }

  /** The pairs whose key is not among the given keys. */
  function PairsOutside(txns: Txns, pairs: Pairs, keys: set<Key>): (r: Pairs)
    ensures forall p :: p in r <==> p in pairs && !KeyIn(txns, p.1, keys)
  {
    if pairs == [] then []
    else (if KeyIn(txns, pairs[0].1, keys) then [] else [pairs[0]]) + PairsOutside(txns, pairs[1..], keys)
  }

  lemma PairsOutsideFirst(txns: Txns, p: (TxnId, TxnId), rest: Pairs, keys: set<Key>)
    ensures PairsOutside(txns, [p] + rest, keys)
            == (if KeyIn(txns, p.1, keys) then [] else [p]) + PairsOutside(txns, rest, keys)
  {
    assert ([p] + rest)[1..] == rest;
  }

  /** Keys do not interfere: the pairs of the other keys are the scan of the rows of the other keys. */
  lemma {:induction false} ScanOutside(txns: Txns, rejected: Rejections, left: seq<TxnId>,
                                       externals: seq<TxnId>, keys: set<Key>)
    ensures PairsOutside(txns, ExactPairs(txns, rejected, {}, left, externals), keys)
            == ExactPairs(txns, rejected, {}, Outside(txns, left, keys), Outside(txns, externals, keys))
    decreases externals
  {
    hide *;
    if externals == [] {
      NothingToScan(txns, rejected, left, keys);
    } else {
      var e, rest := externals[0], externals[1..];
      var choice := Choice(txns, rejected, left, e);
      ExactNext(txns, rejected, {}, left, externals);
      OutsideFirst(txns, externals, keys);
      if choice == None {
        ScanOutside(txns, rejected, left, rest, keys);
        SkipOutside(txns, rejected, left, e, rest, keys);
      } else {
        var fewer := Without(left, choice.value);
        ScanOutside(txns, rejected, fewer, rest, keys);
        PairsOutsideFirst(txns, (choice.value, e), ExactPairs(txns, rejected, {}, fewer, rest), keys);
        TakeOutside(txns, rejected, left, e, choice.value, rest, keys);
      }
    }
  }

  lemma NothingToScan(txns: Txns, rejected: Rejections, left: seq<TxnId>, keys: set<Key>)
    ensures PairsOutside(txns, ExactPairs(txns, rejected, {}, left, []), keys)
            == ExactPairs(txns, rejected, {}, Outside(txns, left, keys), Outside(txns, [], keys))
  {
  }

  lemma SkipOutside(txns: Txns, rejected: Rejections, left: seq<TxnId>, e: TxnId, rest: seq<TxnId>, keys: set<Key>)
    requires Choice(txns, rejected, left, e) == None
    ensures ExactPairs(txns, rejected, {}, Outside(txns, left, keys),
                       OneOutside(txns, e, keys) + Outside(txns, rest, keys))
            == ExactPairs(txns, rejected, {}, Outside(txns, left, keys), Outside(txns, rest, keys))
  {
    hide Choice, Outside, KeyIn, ExactPairs;
    var others := OneOutside(txns, e, keys) + Outside(txns, rest, keys);
    if !KeyIn(txns, e, keys) {
      ChoiceOutside(txns, rejected, left, e, keys);
      ExactNext(txns, rejected, {}, Outside(txns, left, keys), others);
      assert others[1..] == Outside(txns, rest, keys);
    } else {
      assert others == Outside(txns, rest, keys);
    }
  }

  lemma TakeOutside(txns: Txns, rejected: Rejections, left: seq<TxnId>, e: TxnId, i: TxnId,
                    rest: seq<TxnId>, keys: set<Key>)
    requires Choice(txns, rejected, left, e) == Some(i)
    ensures ExactPairs(txns, rejected, {}, Outside(txns, left, keys),
                       OneOutside(txns, e, keys) + Outside(txns, rest, keys))
            == (if KeyIn(txns, e, keys) then [] else [(i, e)])
               + ExactPairs(txns, rejected, {}, Outside(txns, Without(left, i), keys), Outside(txns, rest, keys))
  {
    hide Choice, Outside, ExactPairs, Without, KeyAt;
    var others := OneOutside(txns, e, keys) + Outside(txns, rest, keys);
    OutsideWithout(txns, left, i, keys);
    if KeyIn(txns, e, keys) {
      assert KeyAt(txns, i) == KeyAt(txns, e);
      WithoutAbsent(Outside(txns, left, keys), i);
      assert others == Outside(txns, rest, keys);
    } else {
      ChoiceOutside(txns, rejected, left, e, keys);
      ExactNext(txns, rejected, {}, Outside(txns, left, keys), others);
      assert others[1..] == Outside(txns, rest, keys);
    }
  }

  // ---------------------------------------------- the keys the statement settles

  /** The transactions on either side of the given pairs. */
  ghost predicate SideOf(pairs: Pairs, t: TxnId) {
    exists p :: p in pairs && (p.0 == t || p.1 == t)
  }

  lemma {:induction false} PairsTouch(pairs: Pairs, t: TxnId)
    ensures t in TouchedBy(PairSteps(pairs, Exact)) <==> SideOf(pairs, t)
  {
    if pairs != [] {
      var front, last := pairs[..|pairs| - 1], pairs[|pairs| - 1];
      PairsTouch(front, t);
      assert PairSteps(pairs, Exact) == PairSteps(front, Exact) + [Pair(last.0, last.1, Exact, AutoMatched)];
      TouchedByMore(PairSteps(front, Exact), Pair(last.0, last.1, Exact, AutoMatched));
      assert forall p :: p in pairs <==> p in front || p == last;
    }
  }

  ghost function SqlKeys(db: Db, sql: Pairs): set<Key> {
    set p | p in sql && KeyAt(db.txns, p.1).Some? :: KeyAt(db.txns, p.1).value
  }

  /** sql lists what the statement selects from the two pools. */
  ghost predicate Selection(db: Db, ints: seq<TxnId>, exts: seq<TxnId>, sql: Pairs) {
    && ToSet(sql) == SqlPairs(db, ToSet(ints), ToSet(exts))
    && Distinct(ints) && Distinct(exts) && (forall t :: t in ints ==> t !in exts)
  }

  lemma SelectionMeans(db: Db, ints: seq<TxnId>, exts: seq<TxnId>, sql: Pairs, p: (TxnId, TxnId))
    requires Selection(db, ints, exts, sql)
    ensures p in sql <==> SqlPair(db, ToSet(ints), ToSet(exts), p.0, p.1)
  {
    assert p in sql <==> p in ToSet(sql);
    assert p == (p.0, p.1);
  }

  /** A row of the pools has a settled key exactly when it is a side of a selected pair. */
  lemma SettledKeys(db: Db, ints: seq<TxnId>, exts: seq<TxnId>, sql: Pairs, t: TxnId)
    requires Selection(db, ints, exts, sql) && (t in ints || t in exts)
    ensures KeyIn(db.txns, t, SqlKeys(db, sql)) <==> SideOf(sql, t)
  {
    hide KeyAt, RejectedPair, Selection, SqlPairs;
    if SideOf(sql, t) {
      var p :| p in sql && (p.0 == t || p.1 == t);
      SelectionMeans(db, ints, exts, sql, p);
    }
    if KeyIn(db.txns, t, SqlKeys(db, sql)) {
      var p :| p in sql && KeyAt(db.txns, p.1) == KeyAt(db.txns, t);
      SelectionMeans(db, ints, exts, sql, p);
      if t in ints {
        assert t in ToSet(ints) && p.0 == t;
      } else {
        assert t in ToSet(exts) && p.1 == t;
      }
    }
  }

  /** The statement selects the pairs that agree in reference, amount, currency and direction, were not
      rejected, and are each other's only counterpart in the two pools. */
  lemma SelectedIffSoleFit(db: Db, ints: set<TxnId>, exts: set<TxnId>, i: TxnId, e: TxnId)
    ensures (i, e) in SqlPairs(db, ints, exts) <==>
            && i in ints && e in exts && Fit(db.txns, {}, i, e)
            && !(exists r :: 0 <= r < |db.results| && db.results[r].status == Rejected
                             && db.results[r].internal == i && db.results[r].external == e)
            && (forall u :: u in ints && Fit(db.txns, {}, u, e) ==> u == i)
            && (forall u :: u in exts && Fit(db.txns, {}, i, u) ==> u == e)
  {
    hide Fit, KeyAt;
    FitMeansSameKey(db.txns, {}, i, e);
    forall u | u in ints
      ensures Fit(db.txns, {}, u, e) <==> KeyAt(db.txns, u).Some? && KeyAt(db.txns, u) == KeyAt(db.txns, e)
    {
      FitMeansSameKey(db.txns, {}, u, e);
    }
    forall u | u in exts
      ensures Fit(db.txns, {}, i, u) <==> KeyAt(db.txns, i).Some? && KeyAt(db.txns, i) == KeyAt(db.txns, u)
    {
      FitMeansSameKey(db.txns, {}, i, u);
    }
  }

  /** Every pair the scan makes fits, between an internal and an external it was given. */
  lemma ScanPair(txns: Txns, rejected: Rejections, ints: seq<TxnId>, exts: seq<TxnId>, p: (TxnId, TxnId))
    requires Distinct(exts) && p in ExactPairs(txns, rejected, {}, ints, exts)
    ensures p.0 in ints && p.1 in exts && Fit(txns, rejected, p.0, p.1)
    ensures KeyAt(txns, p.0).Some? && KeyAt(txns, p.0) == KeyAt(txns, p.1) && p !in rejected
  {
    hide ExactPairs, Fit;
    assert p == (p.0, p.1);
    FitMeansSameKey(txns, rejected, p.0, p.1);
    var k: nat :| k < |ExactPairs(txns, rejected, {}, ints, exts)|
                  && ExactPairs(txns, rejected, {}, ints, exts)[k] == p;
    ChosenIsClosest(txns, rejected, {}, ints, exts, k);
  }

  /** The scan alone makes every selected pair. */
  lemma SqlInScan(db: Db, ints: seq<TxnId>, exts: seq<TxnId>, sql: Pairs, p: (TxnId, TxnId))
    requires Selection(db, ints, exts, sql) && p in sql
    ensures p in ExactPairs(db.txns, RejectedRows(db, ints), {}, ints, exts)
  {
    hide ExactPairs, RejectedPair, KeyAt, Fit;
    var rejected := RejectedRows(db, ints);
    FitMeansSameKey(db.txns, rejected, p.0, p.1);
    var alone := ExactPairs(db.txns, rejected, {}, ints, exts);
    SelectionMeans(db, ints, exts, sql, p);
    assert p == (p.0, p.1);
    if !ExternalUsed(alone, p.1) {
      UnmatchedHadNothingLeft(db.txns, rejected, ints, exts, p.1, p.0);
    }
    var k: nat :| k < |alone| && (alone[k].1 == p.1 || alone[k].0 == p.0);
    ScanPair(db.txns, rejected, ints, exts, alone[k]);
    assert alone[k].0 in ToSet(ints) && alone[k].1 in ToSet(exts);
    assert alone[k] == p;
  }

  /** On the settled keys the scan alone makes no other pair. */
  lemma ScanInSql(db: Db, ints: seq<TxnId>, exts: seq<TxnId>, sql: Pairs, p: (TxnId, TxnId))
    requires Selection(db, ints, exts, sql)
    requires p in ExactPairs(db.txns, RejectedRows(db, ints), {}, ints, exts)
    requires KeyIn(db.txns, p.1, SqlKeys(db, sql))
    ensures p in sql
  {
    hide ExactPairs, RejectedPair, KeyAt;
    ScanPair(db.txns, RejectedRows(db, ints), ints, exts, p);
    var q :| q in sql && KeyAt(db.txns, q.1) == KeyAt(db.txns, p.1);
    SelectionMeans(db, ints, exts, sql, q);
    assert p.0 in ToSet(ints) && p.1 in ToSet(exts);
    assert p == q;
  }

  /** As sets of pairs: selected, or made by the scan of the other keys. */
  lemma ScanSplits(db: Db, ints: seq<TxnId>, exts: seq<TxnId>, sql: Pairs)
    requires Selection(db, ints, exts, sql)
    ensures var rejected, keys := RejectedRows(db, ints), SqlKeys(db, sql);
            ToSet(ExactPairs(db.txns, rejected, {}, ints, exts))
            == ToSet(sql) + ToSet(ExactPairs(db.txns, rejected, {}, Outside(db.txns, ints, keys),
                                             Outside(db.txns, exts, keys)))
  {
    hide ExactPairs, RejectedPair, KeyAt, Outside, RejectedRows, SqlPairs, SqlKeys, KeyIn;
    var rejected, keys := RejectedRows(db, ints), SqlKeys(db, sql);
    var alone := ExactPairs(db.txns, rejected, {}, ints, exts);
    ScanOutside(db.txns, rejected, ints, exts, keys);
    forall p | p in sql ensures p in alone {
      SqlInScan(db, ints, exts, sql, p);
    }
    forall p | p in alone && KeyIn(db.txns, p.1, keys) ensures p in sql {
      ScanInSql(db, ints, exts, sql, p);
    }
  }

  // ---------------------------------------------- the pools after the statement

  lemma {:induction false} OutsideOrdered(txns: Txns, ids: seq<TxnId>, keys: set<Key>)
    requires (forall t :: t in ids ==> t in txns) && Ordered(txns, ids)
    ensures Ordered(txns, Outside(txns, ids, keys))
  {
    hide KeyIn, Before;
    if ids != [] {
      var front, last := ids[..|ids| - 1], ids[|ids| - 1];
      OutsideOrdered(txns, front, keys);
      forall t | t in front ensures Before(txns, t, last) {
        var k :| 0 <= k < |front| && front[k] == t;
        assert ids[k] == t;
      }
    }
  }

  /** The pool fetched again is the old list without the settled keys. */
  lemma PoolOutside(db: Db, after: Db, q: Query, ints: seq<TxnId>, exts: seq<TxnId>, sql: Pairs,
                    ids: seq<TxnId>, again: seq<TxnId>)
    requires Selection(db, ints, exts, sql) && (ids == ints || ids == exts)
    requires StageRun(db, after, PairSteps(sql, Exact), ints, exts) && SameRecords(db.txns, after.txns)
    requires IsPool(db, q, ids) && IsPool(after, q, again)
    ensures again == Outside(db.txns, ids, SqlKeys(db, sql))
  {
    hide Selection, StageRun, Outside, SqlKeys, TouchedBy, PairSteps, Pool, KeyIn, SideOf;
    var left := Outside(db.txns, ids, SqlKeys(db, sql));
    OutsideOrdered(db.txns, ids, SqlKeys(db, sql));
    PoolAfter(db, after, PairSteps(sql, Exact), ints, exts, q);
    forall t: TxnId ensures t in left <==> t in again {
      PairsTouch(sql, t);
      if t in ids {
        SettledKeys(db, ints, exts, sql, t);
      }
    }
    PoolIsUnique(after.txns, again, left);
  }

  lemma RecordsAgree(db: Db, after: Db, ints: seq<TxnId>, left: seq<TxnId>, exts: seq<TxnId>)
    requires StageOk(db, after, ints, exts) && forall t :: t in left ==> t in ints
    ensures Agree(db.txns, after.txns, RejectedRows(db, ints), RejectedRows(after, left), left)
  {
    hide Valid, RejectedPair, Candidates;
  }

  /** The refinement: the set-based stage, then the keyed stage on the pools fetched again, gives the
      pairs of the keyed stage alone. */
  lemma SqlThenExactIsExact(db: Db, after: Db, bank: string, from: Option<int>, to: Option<int>,
                            ints: seq<TxnId>, exts: seq<TxnId>, sql: Pairs,
                            intsAgain: seq<TxnId>, extsAgain: seq<TxnId>)
    requires IsPool(db, Query(bank, Internal, from, to), ints)
    requires IsPool(db, Query(bank, External, from, to), exts)
    requires ToSet(sql) == SqlPairs(db, ToSet(ints), ToSet(exts))
    requires StageRun(db, after, PairSteps(sql, Exact), ints, exts) && StageOk(db, after, ints, exts)
    requires IsPool(after, Query(bank, Internal, from, to), intsAgain)
    requires IsPool(after, Query(bank, External, from, to), extsAgain)
    ensures ToSet(ExactPairs(db.txns, RejectedRows(db, ints), {}, ints, exts))
            == ToSet(sql) + ToSet(ExactPairs(after.txns, RejectedRows(after, intsAgain), {}, intsAgain, extsAgain))
  {
    hide ExactPairs, StageRun, IsPool, RejectedRows, SqlPairs, SqlKeys, Outside, Valid, Agree;
    PoolIsCandidates(db, Query(bank, Internal, from, to), ints);
    PoolIsCandidates(db, Query(bank, External, from, to), exts);
    ScanSplits(db, ints, exts, sql);
    PoolOutside(db, after, Query(bank, Internal, from, to), ints, exts, sql, ints, intsAgain);
    PoolOutside(db, after, Query(bank, External, from, to), ints, exts, sql, exts, extsAgain);
    RecordsAgree(db, after, ints, ints, exts);
    RecordsAgree(db, after, ints, intsAgain, exts);
    ScanAgrees(db.txns, after.txns, RejectedRows(db, ints), RejectedRows(after, intsAgain), intsAgain, extsAgain);
  }
}

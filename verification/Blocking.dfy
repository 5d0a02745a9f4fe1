/** Candidate generation (src/recon/matching/blocking/candidates.py, buckets.py): three blocking
    passes, unioned, deduplicated and capped, against the plain filter they stand for. */
module Blocking {
  import opened Ledger
  import opened References

  type Txns = map<TxnId, Txn>

  datatype Config = Config(width: int, window: int, referencePrefix: nat, partyPrefix: nat, cap: nat)

  /** amount_bucket and date_bucket raise ValueError for any other setting. */
  predicate Usable(config: Config) {
    config.width > 0 && config.window > 0
  }

  datatype Pass = ByAmount | ByReference | ByParty

  datatype Key =
    | AmountKey(bank: string, currency: string, direction: Direction, amountBucket: int, dateBucket: int)
    | ReferenceKey(bank: string, currency: string, direction: Direction, prefix: string)
    | PartyKeyed(bank: string, currency: string, direction: Direction, party: string, dateBucket: int)

  /** The key of a transaction in one pass; None where the pass does not apply to it. */
  function KeyFor(config: Config, pass: Pass, txn: Txn): Option<Key>
    requires Usable(config)
  {
    match pass
    case ByAmount =>
      Some(AmountKey(txn.bank, txn.currency, txn.direction, txn.amount / config.width, txn.date / config.window))
    case ByReference =>
      if txn.reference == "" then None
      else Some(ReferenceKey(txn.bank, txn.currency, txn.direction, Prefix(txn.reference, config.referencePrefix)))
    case ByParty =>
      if txn.counterparty == "" then None
      else Some(PartyKeyed(txn.bank, txn.currency, txn.direction, Prefix(txn.counterparty, config.partyPrefix),
                           txn.date / config.window))
  }

  // ------------------------------------------------------------------- the plain filter

  /** x lies in the same cell of a grid of the given width as y. */
  predicate SameCell(x: int, y: int, width: int)
    requires width > 0
  {
    exists cell: int :: cell == y / width && cell * width <= x < (cell + 1) * width
  }

  /** The two transactions block together in the given pass, said without keys. */
  predicate Blocked(config: Config, pass: Pass, i: Txn, e: Txn)
    requires Usable(config)
  {
    && i.bank == e.bank && i.currency == e.currency && i.direction == e.direction
    && match pass
       case ByAmount => SameCell(i.amount, e.amount, config.width) && SameCell(i.date, e.date, config.window)
       case ByReference =>
         && i.reference != "" && e.reference != ""
         && Prefix(i.reference, config.referencePrefix) == Prefix(e.reference, config.referencePrefix)
       case ByParty =>
         && i.counterparty != "" && e.counterparty != ""
         && Prefix(i.counterparty, config.partyPrefix) == Prefix(e.counterparty, config.partyPrefix)
         && SameCell(i.date, e.date, config.window)
  }

  predicate BlockedBySome(config: Config, i: Txn, e: Txn)
    requires Usable(config)
  {
    Blocked(config, ByAmount, i, e) || Blocked(config, ByReference, i, e) || Blocked(config, ByParty, i, e)
  }

  lemma QuotientIsCell(x: int, width: int, q: int)
    requires width > 0
    ensures x / width == q <==> q * width <= x < (q + 1) * width
  {
    var r := x / width;
    assert r * width + x % width == x;
    if q < r {
      Multiples(q + 1, r, width);
    }
    if r < q {
      Multiples(r + 1, q, width);
    }
  }

  lemma Multiples(a: int, b: int, width: int)
    requires a <= b && width > 0
    ensures a * width <= b * width
  {
    assert (b - a) * width >= 0;
  }

  /** Equal keys mean exactly that the transactions block together. */
  lemma KeysMeanBlocked(config: Config, pass: Pass, i: Txn, e: Txn)
    requires Usable(config)
    ensures KeyFor(config, pass, i).Some? && KeyFor(config, pass, i) == KeyFor(config, pass, e)
            <==> Blocked(config, pass, i, e)
  {
    QuotientIsCell(i.amount, config.width, e.amount / config.width);
    QuotientIsCell(i.date, config.window, e.date / config.window);
  }

  // ------------------------------------------------------------------- the index

  type Index = map<Key, seq<TxnId>>

  predicate HasKey(config: Config, pass: Pass, txns: Txns, t: TxnId, key: Key)
    requires Usable(config)
  {
    t in txns && KeyFor(config, pass, txns[t]) == Some(key)
  }

  /** The ids with the given key, in order. */
  function WithBlock(config: Config, pass: Pass, txns: Txns, ids: seq<TxnId>, key: Key): (r: seq<TxnId>)
    requires Usable(config)
    ensures forall t :: t in r <==> t in ids && HasKey(config, pass, txns, t, key)
  {
    if ids == [] then []
    else
      var front := WithBlock(config, pass, txns, ids[..|ids| - 1], key);
      if HasKey(config, pass, txns, ids[|ids| - 1], key) then front + [ids[|ids| - 1]] else front
  }

  ghost predicate IndexOf(config: Config, pass: Pass, txns: Txns, index: Index, ids: seq<TxnId>)
    requires Usable(config)
  {
    forall key :: Listed(index, key) == WithBlock(config, pass, txns, ids, key)
  }

  lemma IndexMore(config: Config, pass: Pass, txns: Txns, index: Index, ids: seq<TxnId>, k: nat)
    requires Usable(config) && k < |ids| && ids[k] in txns && IndexOf(config, pass, txns, index, ids[..k])
    ensures var key := KeyFor(config, pass, txns[ids[k]]);
            IndexOf(config, pass, txns,
                    if key == None then index else index[key.value := Listed(index, key.value) + [ids[k]]],
                    ids[..k + 1])
  {
    hide KeyFor;
    assert ids[..k + 1][..k] == ids[..k];
    var own := KeyFor(config, pass, txns[ids[k]]);
    var more := if own == None then index else index[own.value := Listed(index, own.value) + [ids[k]]];
    forall key ensures Listed(more, key) == WithBlock(config, pass, txns, ids[..k + 1], key) {
      assert Listed(more, key) == if own == Some(key) then Listed(index, key) + [ids[k]] else Listed(index, key);
    }
  }

  /** _index_by_*. */
  method BuildIndex(config: Config, pass: Pass, txns: Txns, ids: seq<TxnId>) returns (index: Index)
    requires Usable(config) && forall t :: t in ids ==> t in txns
    ensures IndexOf(config, pass, txns, index, ids)
  {
    hide KeyFor, WithBlock, IndexOf;
    index := map[];
    NothingIndexed(config, pass, txns, ids[..0]);
    for k := 0 to |ids|
      invariant IndexOf(config, pass, txns, index, ids[..k])
    {
      IndexMore(config, pass, txns, index, ids, k);
      var key := KeyFor(config, pass, txns[ids[k]]);
      if key.Some? {
        index := index[key.value := Listed(index, key.value) + [ids[k]]];
      }
    }
    assert ids[..|ids|] == ids;
  }

  lemma NothingIndexed(config: Config, pass: Pass, txns: Txns, ids: seq<TxnId>)
    requires Usable(config) && ids == []
    ensures IndexOf(config, pass, txns, map[], ids)
  {
  }

  // ------------------------------------------------------------------- the union

  /** combined, extended by the candidates not seen yet. */
  function Unseen(combined: seq<TxnId>, more: seq<TxnId>): (r: seq<TxnId>)
    ensures forall t :: t in r <==> t in combined || t in more
    ensures combined <= r
  {
    if more == [] then combined
    else
      var front := Unseen(combined, more[..|more| - 1]);
      var last := more[|more| - 1];
      if last in front then front else front + [last]
  }

  lemma {:induction false} UnseenDistinct(combined: seq<TxnId>, more: seq<TxnId>)
    requires Distinct(combined)
    ensures Distinct(Unseen(combined, more))
  {
    if more != [] {
      UnseenDistinct(combined, more[..|more| - 1]);
    }
  }

  /** What one pass offers an external. */
  function Offered(config: Config, pass: Pass, txns: Txns, internals: seq<TxnId>, e: TxnId): (r: seq<TxnId>)
    requires Usable(config)
  {
    if e !in txns || KeyFor(config, pass, txns[e]) == None then []
    else WithBlock(config, pass, txns, internals, KeyFor(config, pass, txns[e]).value)
  }

  /** The ordered union of the three passes. */
  function Union(config: Config, txns: Txns, internals: seq<TxnId>, e: TxnId): seq<TxnId>
    requires Usable(config)
  {
    Unseen(Unseen(Unseen([], Offered(config, ByAmount, txns, internals, e)),
                  Offered(config, ByReference, txns, internals, e)),
           Offered(config, ByParty, txns, internals, e))
  }

  function Cut(ids: seq<TxnId>, cap: nat): seq<TxnId> {
    if |ids| > cap then ids[..cap] else ids
  }

  ghost function BlockedSet(config: Config, txns: Txns, internals: seq<TxnId>, e: TxnId): set<TxnId>
    requires Usable(config)
  {
    set i | i in internals && i in txns && e in txns && BlockedBySome(config, txns[i], txns[e])
  }

  lemma OfferedMeans(config: Config, pass: Pass, txns: Txns, internals: seq<TxnId>, e: TxnId, i: TxnId)
    requires Usable(config)
    ensures i in Offered(config, pass, txns, internals, e)
            <==> i in internals && i in txns && e in txns && Blocked(config, pass, txns[i], txns[e])
  {
    hide KeyFor, Blocked;
    if i in txns && e in txns {
      KeysMeanBlocked(config, pass, txns[i], txns[e]);
    }
  }

  /** The union lists, each once, exactly the internals the plain filter admits. */
  lemma UnionIsTheFilter(config: Config, txns: Txns, internals: seq<TxnId>, e: TxnId)
    requires Usable(config)
    ensures ToSet(Union(config, txns, internals, e)) == BlockedSet(config, txns, internals, e)
    ensures Distinct(Union(config, txns, internals, e))
  {
    hide Blocked, Offered, Unseen;
    forall i: TxnId ensures i in Union(config, txns, internals, e) <==> i in BlockedSet(config, txns, internals, e) {
      OfferedMeans(config, ByAmount, txns, internals, e, i);
      OfferedMeans(config, ByReference, txns, internals, e, i);
      OfferedMeans(config, ByParty, txns, internals, e, i);
    }
    var a := Unseen([], Offered(config, ByAmount, txns, internals, e));
    UnseenDistinct([], Offered(config, ByAmount, txns, internals, e));
    UnseenDistinct(a, Offered(config, ByReference, txns, internals, e));
    UnseenDistinct(Unseen(a, Offered(config, ByReference, txns, internals, e)),
                   Offered(config, ByParty, txns, internals, e));
  }

  /** The first pass in which the two block together. */
  function FirstPass(config: Config, i: Txn, e: Txn): nat
    requires Usable(config)
  {
    if Blocked(config, ByAmount, i, e) then 0 else if Blocked(config, ByReference, i, e) then 1 else 2
  }

  /** What Unseen adds keeps the order it had. */
  lemma {:induction false} UnseenKeepsOrder(combined: seq<TxnId>, more: seq<TxnId>, j: nat, k: nat)
    requires |combined| <= j < k < |Unseen(combined, more)|
    ensures Precedes(more, Unseen(combined, more)[j], Unseen(combined, more)[k])
    decreases |more|
  {
    var n := |more| - 1;
    var front, r := Unseen(combined, more[..n]), Unseen(combined, more);
    if k < |front| {
      UnseenKeepsOrder(combined, more[..n], j, k);
      var p, q :| 0 <= p < q < n && more[..n][p] == front[j] && more[..n][q] == front[k];
      assert more[p] == r[j] && more[q] == r[k];
    } else {
      AddedIsMore(combined, more[..n], j);
      var p :| 0 <= p < n && more[..n][p] == front[j];
      assert more[p] == r[j] && more[n] == r[k];
    }
  }

  lemma {:induction false} AddedIsMore(combined: seq<TxnId>, more: seq<TxnId>, j: nat)
    requires |combined| <= j < |Unseen(combined, more)|
    ensures Unseen(combined, more)[j] in more
    decreases |more|
  {
    var n := |more| - 1;
    var front := Unseen(combined, more[..n]);
    if j < |front| {
      AddedIsMore(combined, more[..n], j);
    }
  }

  lemma {:induction false} WithBlockOrder(config: Config, pass: Pass, txns: Txns, ids: seq<TxnId>, key: Key, a: TxnId,
                                          b: TxnId)
    requires Usable(config) && Precedes(WithBlock(config, pass, txns, ids, key), a, b)
    ensures Precedes(ids, a, b)
    decreases |ids|
  {
    hide HasKey;
    var n := |ids| - 1;
    var front, r := WithBlock(config, pass, txns, ids[..n], key), WithBlock(config, pass, txns, ids, key);
    var p, q :| 0 <= p < q < |r| && r[p] == a && r[q] == b;
    if q < |front| {
      assert front[p] == a && front[q] == b;
      WithBlockOrder(config, pass, txns, ids[..n], key, a, b);
      var x, y :| 0 <= x < y < n && ids[..n][x] == a && ids[..n][y] == b;
      assert ids[x] == a && ids[y] == b;
    } else {
      assert front[p] == a && a in ids[..n];
      var x :| 0 <= x < n && ids[..n][x] == a;
      assert ids[x] == a && ids[n] == b;
    }
  }

  /** The order of the union: by the first pass that offers them, and in the order of the internals within a pass. So
      a list that is cut keeps those with a near amount and date first. */
  lemma UnionIsOrdered(config: Config, txns: Txns, internals: seq<TxnId>, e: TxnId, j: nat, k: nat)
    requires Usable(config) && j < k < |Union(config, txns, internals, e)|
    ensures var a, b := Union(config, txns, internals, e)[j], Union(config, txns, internals, e)[k];
            && a in txns && b in txns && e in txns
            && (|| FirstPass(config, txns[a], txns[e]) < FirstPass(config, txns[b], txns[e])
                || (FirstPass(config, txns[a], txns[e]) == FirstPass(config, txns[b], txns[e])
                    && Precedes(internals, a, b)))
  {
    hide KeyFor, Blocked, Offered, Unseen, Precedes;
    var x, y, z := Offered(config, ByAmount, txns, internals, e), Offered(config, ByReference, txns, internals, e),
                   Offered(config, ByParty, txns, internals, e);
    var one := Unseen([], x);
    var two := Unseen(one, y);
    var all := Unseen(two, z);
    UnionIsTheFilter(config, txns, internals, e);
    forall t: TxnId
      ensures t in x <==> t in internals && t in txns && e in txns && Blocked(config, ByAmount, txns[t], txns[e])
      ensures t in y <==> t in internals && t in txns && e in txns && Blocked(config, ByReference, txns[t], txns[e])
      ensures t in z <==> t in internals && t in txns && e in txns && Blocked(config, ByParty, txns[t], txns[e])
    {
      OfferedMeans(config, ByAmount, txns, internals, e, t);
      OfferedMeans(config, ByReference, txns, internals, e, t);
      OfferedMeans(config, ByParty, txns, internals, e, t);
    }
    var a, b := all[j], all[k];
    assert a in all && b in all;
    UnseenDistinct([], x);
    UnseenDistinct(one, y);
    UnseenDistinct(two, z);
    assert j < |one| ==> a == one[j] && a in one;
    assert j < |two| ==> a == two[j] && a in two;
    assert k < |one| ==> b == one[k] && b in one;
    assert k < |two| ==> b == two[k] && b in two;
    if k < |one| {
      UnseenKeepsOrder([], x, j, k);
      OfferedOrder(config, ByAmount, txns, internals, e, a, b);
    } else if k < |two| {
      NotBefore(two, |one|, k);
      if j >= |one| {
        NotBefore(two, |one|, j);
        UnseenKeepsOrder(one, y, j, k);
        OfferedOrder(config, ByReference, txns, internals, e, a, b);
      }
    } else {
      NotBefore(all, |two|, k);
      if j >= |two| {
        NotBefore(all, |two|, j);
        UnseenKeepsOrder(two, z, j, k);
        OfferedOrder(config, ByParty, txns, internals, e, a, b);
      }
    }
  }

  lemma NotBefore(ids: seq<TxnId>, n: nat, k: nat)
    requires Distinct(ids) && n <= k < |ids|
    ensures ids[k] !in ids[..n]
  {
  }

  lemma OfferedOrder(config: Config, pass: Pass, txns: Txns, internals: seq<TxnId>, e: TxnId, a: TxnId, b: TxnId)
    requires Usable(config) && Precedes(Offered(config, pass, txns, internals, e), a, b)
    ensures Precedes(internals, a, b)
  {
    hide KeyFor, HasKey;
    WithBlockOrder(config, pass, txns, internals, KeyFor(config, pass, txns[e]).value, a, b);
  }

  datatype Indexes = Indexes(byAmount: Index, byReference: Index, byParty: Index)

  ghost predicate IndexesOf(config: Config, txns: Txns, indexes: Indexes, internals: seq<TxnId>) {
    && (internals != [] ==> Usable(config))
    && (Usable(config) ==>
          && IndexOf(config, ByAmount, txns, indexes.byAmount, internals)
          && IndexOf(config, ByReference, txns, indexes.byReference, internals)
          && IndexOf(config, ByParty, txns, indexes.byParty, internals))
  }

  /** CandidateGenerator.__init__: raises when an internal cannot be bucketed. */
  method BuildIndexes(config: Config, txns: Txns, internals: seq<TxnId>) returns (r: Option<Indexes>)
    requires forall t :: t in internals ==> t in txns
    ensures r == None <==> internals != [] && !Usable(config)
    ensures r.Some? ==> IndexesOf(config, txns, r.value, internals)
  {
    if !Usable(config) {
      return if internals == [] then Some(Indexes(map[], map[], map[])) else None;
    }
    var byAmount := BuildIndex(config, ByAmount, txns, internals);
    var byReference := BuildIndex(config, ByReference, txns, internals);
    var byParty := BuildIndex(config, ByParty, txns, internals);
    return Some(Indexes(byAmount, byReference, byParty));
  }

  /** One loop of generate. */
  method AppendUnseen(combined: seq<TxnId>, seen: set<TxnId>, more: seq<TxnId>)
    returns (longer: seq<TxnId>, seenToo: set<TxnId>)
    requires seen == ToSet(combined)
    ensures longer == Unseen(combined, more) && seenToo == ToSet(longer)
  {
    longer, seenToo := combined, seen;
    for k := 0 to |more|
      invariant longer == Unseen(combined, more[..k]) && seenToo == ToSet(longer)
    {
      assert more[..k + 1][..k] == more[..k];
      if more[k] !in seenToo {
        seenToo := seenToo + {more[k]};
        longer := longer + [more[k]];
      }
    }
    assert more[..|more|] == more;
  }

  method Probe(config: Config, pass: Pass, txns: Txns, index: Index, ghost internals: seq<TxnId>, e: TxnId)
    returns (ids: seq<TxnId>)
    requires Usable(config) && e in txns && IndexOf(config, pass, txns, index, internals)
    ensures ids == Offered(config, pass, txns, internals, e)
  {
    var key := KeyFor(config, pass, txns[e]);
    ids := if key == None then [] else Listed(index, key.value);
  }

  datatype CandidateSet = CandidateSet(ids: seq<TxnId>, truncated: bool)

  /** generate: without duplicates, all that pass the plain filter unless there are more than the cap,
      and then the first of the ordered union. None when the settings cannot bucket. */
  method Generate(config: Config, txns: Txns, indexes: Indexes, ghost internals: seq<TxnId>, e: TxnId)
    returns (r: Option<CandidateSet>)
    requires e in txns && IndexesOf(config, txns, indexes, internals)
    ensures r == None <==> !Usable(config)
    ensures r.Some? ==>
              && r.value.ids == Cut(Union(config, txns, internals, e), config.cap)
              && Distinct(r.value.ids)
              && (r.value.truncated <==> |BlockedSet(config, txns, internals, e)| > config.cap)
              && (!r.value.truncated ==> ToSet(r.value.ids) == BlockedSet(config, txns, internals, e))
              && (r.value.truncated ==> |r.value.ids| == config.cap && r.value.ids <= Union(config, txns, internals, e))
  {
    hide KeyFor, Unseen, IndexOf, Offered, BlockedSet;
    if !Usable(config) {
      return None;
    }
    UnionIsTheFilter(config, txns, internals, e);
    DistinctCount(Union(config, txns, internals, e));
    var offered := Probe(config, ByAmount, txns, indexes.byAmount, internals, e);
    var combined, seen := AppendUnseen([], {}, offered);
    offered := Probe(config, ByReference, txns, indexes.byReference, internals, e);
    combined, seen := AppendUnseen(combined, seen, offered);
    offered := Probe(config, ByParty, txns, indexes.byParty, internals, e);
    combined, seen := AppendUnseen(combined, seen, offered);
    var truncated := |combined| > config.cap;
    if truncated {
      combined := combined[..config.cap];
    }
    return Some(CandidateSet(combined, truncated));
  }
}

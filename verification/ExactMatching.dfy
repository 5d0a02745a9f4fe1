/** Exact matching (src/recon/matching/strategies/exact.py, src/recon/matching/keys.py): the keyed
    index with date disambiguation, specified by a scan without an index. */
module ExactMatching {
  import opened Ledger
  import opened LedgerInvariant
  import opened Database
  import opened References
  import opened Repository
  import opened Stages

  type Txns = map<TxnId, Txn>
  type Pairs = seq<(TxnId, TxnId)>

  datatype Key = Key(reference: string, amount: int, currency: string, direction: Direction)

  /** build_key: None without a usable reference. */
  function KeyOf(txn: Txn): Option<Key> {
    if Blank(txn.reference) then None
    else Some(Key(txn.reference, txn.amount, txn.currency, txn.direction))
  }

  function KeyAt(txns: Txns, t: TxnId): Option<Key> {
    if t in txns then KeyOf(txns[t]) else None
  }

  /** How many of the ids have no usable key. */
  function Keyless(txns: Txns, ids: seq<TxnId>): nat {
    if ids == [] then 0
    else Keyless(txns, ids[..|ids| - 1]) + (if KeyAt(txns, ids[|ids| - 1]) == None then 1 else 0)
  }

  lemma KeylessMore(txns: Txns, ids: seq<TxnId>, k: nat)
    requires k < |ids|
    ensures Keyless(txns, ids[..k + 1]) == Keyless(txns, ids[..k]) + (if KeyAt(txns, ids[k]) == None then 1 else 0)
    ensures Keyless(txns, ids[..0]) == 0
  {
    hide KeyAt;
    assert ids[..k + 1][..k] == ids[..k];
  }

  /** The ids with the given key, in order. */
  function WithKey(txns: Txns, ids: seq<TxnId>, key: Key): (r: seq<TxnId>)
    ensures forall t :: t in r <==> t in ids && KeyAt(txns, t) == Some(key)
  {
    if ids == [] then []
    else WithKey(txns, ids[..|ids| - 1], key)
         + (if KeyAt(txns, ids[|ids| - 1]) == Some(key) then [ids[|ids| - 1]] else [])
  }

  function Allowed(bucket: seq<TxnId>, rejected: set<(TxnId, TxnId)>, e: TxnId): (r: seq<TxnId>)
    ensures forall t :: t in r <==> t in bucket && (t, e) !in rejected
  {
    if bucket == [] then []
    else Allowed(bucket[..|bucket| - 1], rejected, e)
         + (if (bucket[|bucket| - 1], e) !in rejected then [bucket[|bucket| - 1]] else [])
  }

  function DaysApart(txns: Txns, a: TxnId, b: TxnId): int {
    if a !in txns || b !in txns then 0
    else DaysBetween(txns[a], txns[b])
  }

  /** _disambiguate: the first of those closest in date. */
  function Closest(txns: Txns, bucket: seq<TxnId>, e: TxnId): (best: TxnId)
    requires bucket != []
    ensures best in bucket
    ensures forall t :: t in bucket ==> DaysApart(txns, best, e) <= DaysApart(txns, t, e)
  {
    var last := bucket[|bucket| - 1];
    if |bucket| == 1 then last
    else
      var best := Closest(txns, bucket[..|bucket| - 1], e);
      if DaysApart(txns, last, e) < DaysApart(txns, best, e) then last else best
  }

  /** list.remove on a list of distinct ids. */
  function Without(ids: seq<TxnId>, t: TxnId): (r: seq<TxnId>)
    ensures forall x :: x in r <==> x in ids && x != t
    ensures |r| <= |ids|
  {
    if ids == [] then []
    else Without(ids[..|ids| - 1], t) + (if ids[|ids| - 1] == t then [] else [ids[|ids| - 1]])
  }

  /** The internal the strategy picks for external e among those left. */
  function Choice(txns: Txns, rejected: set<(TxnId, TxnId)>, left: seq<TxnId>, e: TxnId): (c: Option<TxnId>)
    ensures c.Some? ==> c.value in left && KeyAt(txns, c.value) == KeyAt(txns, e) && (c.value, e) !in rejected
  {
    if KeyAt(txns, e) == None then None
    else
      var allowed := Allowed(WithKey(txns, left, KeyAt(txns, e).value), rejected, e);
      if allowed == [] then None else Some(Closest(txns, allowed, e))
  }

  /** The pairs made: the externals in order, each with its choice unless a side is claimed. */
  function ExactPairs(txns: Txns, rejected: set<(TxnId, TxnId)>, claimed: set<TxnId>,
                      left: seq<TxnId>, externals: seq<TxnId>): Pairs
    decreases externals
  {
    if externals == [] then []
    else
      var e := externals[0];
      var choice := Choice(txns, rejected, left, e);
      if choice == None || choice.value in claimed || e in claimed
      then ExactPairs(txns, rejected, claimed, left, externals[1..])
      else [(choice.value, e)] + ExactPairs(txns, rejected, claimed, Without(left, choice.value), externals[1..])
  }

  // ------------------------------------------------------------------- the strategy

  type Index = map<Key, seq<TxnId>>

  /** The index holds, for every key, the internals left with that key, in order. */
  ghost predicate Indexes(txns: Txns, index: Index, left: seq<TxnId>) {
    forall key :: Listed(index, key) == WithKey(txns, left, key)
  }

  method BuildIndex(txns: Txns, internals: seq<TxnId>) returns (index: Index, skipped: nat)
    ensures Indexes(txns, index, internals) && skipped == Keyless(txns, internals)
  {
    index, skipped := map[], 0;
    for k := 0 to |internals|
      invariant Indexes(txns, index, internals[..k]) && skipped == Keyless(txns, internals[..k])
    {
      var t := internals[k];
      KeylessMore(txns, internals, k);
      assert internals[..k + 1][..k] == internals[..k];
      match KeyAt(txns, t)
      case None =>
        skipped := skipped + 1;
      case Some(key) =>
        index := index[key := Listed(index, key) + [t]];
    }
    assert internals[..|internals|] == internals;
  }

  lemma {:induction false} WithoutKeyed(txns: Txns, left: seq<TxnId>, t: TxnId, key: Key)
    ensures WithKey(txns, Without(left, t), key)
            == if KeyAt(txns, t) == Some(key) then Without(WithKey(txns, left, key), t) else WithKey(txns, left, key)
  {
    if left != [] {
      var front, last := left[..|left| - 1], left[|left| - 1];
      assert left == front + [last];
      hide *;
      WithoutKeyed(txns, front, t, key);
      WithoutAppend(front, [last], t);
      WithKeyAppend(txns, front, [last], key);
      WithKeyAppend(txns, Without(front, t), Without([last], t), key);
      WithoutAppend(WithKey(txns, front, key), WithKey(txns, [last], key), t);
      OneKeyed(txns, last, t, key);
    }
  }

  lemma OneKeyed(txns: Txns, last: TxnId, t: TxnId, key: Key)
    ensures WithKey(txns, Without([last], t), key)
            == if KeyAt(txns, t) == Some(key) then Without(WithKey(txns, [last], key), t)
               else WithKey(txns, [last], key)
  {
    hide *;
    Singletons(txns, last, t, key);
  }

  lemma Singletons(txns: Txns, x: TxnId, t: TxnId, key: Key)
    ensures WithKey(txns, [], key) == [] && Without([], t) == []
    ensures WithKey(txns, [x], key) == if KeyAt(txns, x) == Some(key) then [x] else []
    ensures Without([x], t) == if x == t then [] else [x]
  {
    assert [x][..0] == [];
  }

  lemma {:induction false} WithKeyAppend(txns: Txns, a: seq<TxnId>, b: seq<TxnId>, key: Key)
    ensures WithKey(txns, a + b, key) == WithKey(txns, a, key) + WithKey(txns, b, key)
  {
    if b == [] {
      assert a + b == a;
    } else {
      assert (a + b)[..|a + b| - 1] == a + b[..|b| - 1];
      WithKeyAppend(txns, a, b[..|b| - 1], key);
    }
  }

  lemma {:induction false} WithoutAppend(a: seq<TxnId>, b: seq<TxnId>, t: TxnId)
    ensures Without(a + b, t) == Without(a, t) + Without(b, t)
  {
    if b == [] {
      assert a + b == a;
    } else {
      assert (a + b)[..|a + b| - 1] == a + b[..|b| - 1];
      WithoutAppend(a, b[..|b| - 1], t);
    }
  }

  /** Removing the chosen internal from its bucket keeps the index an index of what is left. */
  lemma ConsumeIndexed(txns: Txns, index: Index, left: seq<TxnId>, t: TxnId, key: Key)
    requires Indexes(txns, index, left) && KeyAt(txns, t) == Some(key)
    ensures Indexes(txns, index[key := Without(Listed(index, key), t)], Without(left, t))
  {
    forall k ensures Listed(index[key := Without(Listed(index, key), t)], k) == WithKey(txns, Without(left, t), k) {
      WithoutKeyed(txns, left, t, k);
    }
  }

  function PairSteps(pairs: Pairs, kind: MatchKind): (steps: seq<Step>)
    ensures |steps| == |pairs|
  {
    seq(|pairs|, k requires 0 <= k < |pairs| => Pair(pairs[k].0, pairs[k].1, kind, AutoMatched))
  }

  datatype Outcome = Outcome(matched: nat, skippedNoKey: nat, conflicts: nat)

  /** ExactMatchingStrategy.run: writes exactly the pairs of the scan, in order. */
  method RunExact(s: Session, internals: seq<TxnId>, externals: seq<TxnId>)
    returns (outcome: Outcome, ghost pairs: Pairs)
    requires Valid(s.State()) && Candidates(s.State(), internals) && Candidates(s.State(), externals)
    requires forall t :: t in internals ==> t !in externals
    modifies s
    ensures pairs == ExactPairs(old(s.txns), RejectedRows(old(s.State()), internals),
                                ClaimedAmong(old(s.State()), internals + externals), internals, externals)
    ensures StageRun(old(s.State()), s.State(), PairSteps(pairs, Exact), internals, externals)
    ensures StageOk(old(s.State()), s.State(), internals, externals)
    ensures outcome.matched == |pairs|
    ensures outcome.skippedNoKey == Keyless(old(s.txns), internals) + Keyless(old(s.txns), externals)
    ensures ClaimedAmong(old(s.State()), internals + externals) == {} ==> outcome.conflicts == 0
  {
    hide Keyless, Scanned, Choice, Allowed, WithKey, Closest, Indexes, StageRun, StageOk, ExactPairs, RejectedRows,
         ClaimedAmong, Valid, Candidates, PairSteps, WithPair, Claimed, Distinct, KeyAt, RejectedPair;
    ghost var start := s.State();
    var txns := s.txns;
    var index, skipped := BuildIndex(txns, internals);
    var rejected := RejectedPairs(s, internals);
    ghost var claimed, left := ClaimedAmong(start, internals + externals), internals;
    var matched, conflicts := 0, 0;
    pairs := [];
    ScanStarts(start, rejected, claimed, internals, externals);
    NoneKeyless(txns, externals[..0]);
    for k := 0 to |externals|
      invariant Scanned(start, s.State(), rejected, claimed, internals, externals, k, left, pairs)
      invariant txns == start.txns && Indexes(txns, index, left)
      invariant matched == |pairs| && (claimed == {} ==> conflicts == 0)
      invariant skipped == Keyless(txns, internals) + Keyless(txns, externals[..k])
    {
      var e := externals[k];
      ghost var before := s.State();
      KeylessMore(txns, externals, k);
      ChoiceByIndex(txns, index, left, rejected, e);
      var key := KeyAt(txns, e);
      var bucket := if key.Some? then Listed(index, key.value) else [];
      var allowed := Allowed(bucket, rejected, e);
      if key == None {
        skipped := skipped + 1;
        ScanSkips(start, before, rejected, claimed, internals, externals, k, left, pairs);
      } else if allowed == [] {
        ScanSkips(start, before, rejected, claimed, internals, externals, k, left, pairs);
      } else {
        var i := Closest(txns, allowed, e);
        ScanChoice(start, before, rejected, claimed, internals, externals, k, left, pairs, i);
        var written := WritePair(s, i, e, Exact, AutoMatched);
        if written {
          ScanTakes(start, before, rejected, claimed, internals, externals, k, left, pairs, i);
          pairs := pairs + [(i, e)];
          ConsumeIndexed(txns, index, left, i, key.value);
          left := Without(left, i);
          index := index[key.value := Without(bucket, i)];
          matched := matched + 1;
        } else {
          conflicts := conflicts + 1;
          ScanSkips(start, before, rejected, claimed, internals, externals, k, left, pairs);
        }
      }
    }
    ScanEnds(start, s.State(), rejected, claimed, internals, externals, left, pairs);
    assert externals[..|externals|] == externals;
    outcome := Outcome(matched, skipped, conflicts);
  }

  lemma NoneKeyless(txns: Txns, ids: seq<TxnId>)
    requires ids == []
    ensures Keyless(txns, ids) == 0
  {
  }

  /** Probing the index gives the choice of the scan. */
  lemma ChoiceByIndex(txns: Txns, index: Index, left: seq<TxnId>, rejected: set<(TxnId, TxnId)>, e: TxnId)
    requires Indexes(txns, index, left)
    ensures match KeyAt(txns, e)
            case None => Choice(txns, rejected, left, e) == None
            case Some(key) =>
              var allowed := Allowed(Listed(index, key), rejected, e);
              if allowed == [] then Choice(txns, rejected, left, e) == None
              else
                var i := Closest(txns, allowed, e);
                Choice(txns, rejected, left, e) == Some(i) && KeyAt(txns, i) == Some(key)
  {
    hide Allowed, WithKey, Closest, Listed;
  }

  // ------------------------------------------------------- the loop of the strategy

  /** Where the scan is after k externals. */
  ghost predicate Scanned(start: Db, db: Db, rejected: set<(TxnId, TxnId)>, claimed: set<TxnId>,
                          internals: seq<TxnId>, externals: seq<TxnId>, k: nat, left: seq<TxnId>, pairs: Pairs) {
    && k <= |externals|
    && rejected == RejectedRows(start, internals) && claimed == ClaimedAmong(start, internals + externals)
    && (forall t :: t in internals ==> t !in externals) && Distinct(externals)
    && StageRun(start, db, PairSteps(pairs, Exact), internals, externals)
    && StageOk(start, db, internals, externals)
    && (forall t :: t in left ==> t in internals)
    && (forall t :: t in left || t in externals[k..] ==> (Claimed(db, t) <==> t in claimed))
    && pairs + ExactPairs(start.txns, rejected, claimed, left, externals[k..])
       == ExactPairs(start.txns, rejected, claimed, internals, externals)
  }

  lemma ScanStarts(start: Db, rejected: set<(TxnId, TxnId)>, claimed: set<TxnId>,
                   internals: seq<TxnId>, externals: seq<TxnId>)
    requires Valid(start) && Candidates(start, internals) && Candidates(start, externals)
    requires forall t :: t in internals ==> t !in externals
    requires rejected == RejectedRows(start, internals) && claimed == ClaimedAmong(start, internals + externals)
    ensures Scanned(start, start, rejected, claimed, internals, externals, 0, internals, [])
  {
    hide Valid, ExactPairs, Claimed;
    StageBegins(start, internals, externals);
    assert PairSteps([], Exact) == [];
    assert externals[0..] == externals;
  }

  lemma ScanEnds(start: Db, db: Db, rejected: set<(TxnId, TxnId)>, claimed: set<TxnId>,
                 internals: seq<TxnId>, externals: seq<TxnId>, left: seq<TxnId>, pairs: Pairs)
    requires Scanned(start, db, rejected, claimed, internals, externals, |externals|, left, pairs)
    ensures pairs == ExactPairs(start.txns, rejected, claimed, internals, externals)
    ensures StageRun(start, db, PairSteps(pairs, Exact), internals, externals)
    ensures StageOk(start, db, internals, externals)
  {
    hide Valid, StageOk, StageRun;
    assert externals[|externals|..] == [];
    assert pairs + [] == pairs;
  }

  /** The choice is a candidate, and whether it conflicts was settled when the stage began. */
  lemma ScanChoice(start: Db, db: Db, rejected: set<(TxnId, TxnId)>, claimed: set<TxnId>,
                   internals: seq<TxnId>, externals: seq<TxnId>, k: nat, left: seq<TxnId>, pairs: Pairs, i: TxnId)
    requires Scanned(start, db, rejected, claimed, internals, externals, k, left, pairs) && k < |externals|
    requires Choice(start.txns, rejected, left, externals[k]) == Some(i)
    ensures i in internals && i in db.txns && externals[k] in db.txns && i != externals[k]
    ensures !RejectedPair(start, i, externals[k])
    ensures Claimed(db, i) <==> i in claimed
    ensures Claimed(db, externals[k]) <==> externals[k] in claimed
  {
    hide StageRun, ExactPairs, Valid, SameRecords;
    assert externals[k] == externals[k..][0];
    assert externals[k] in externals && externals[k] in externals[k..];
  }

  lemma ScanSkips(start: Db, db: Db, rejected: set<(TxnId, TxnId)>, claimed: set<TxnId>,
                  internals: seq<TxnId>, externals: seq<TxnId>, k: nat, left: seq<TxnId>, pairs: Pairs)
    requires Scanned(start, db, rejected, claimed, internals, externals, k, left, pairs) && k < |externals|
    requires var choice := Choice(start.txns, rejected, left, externals[k]);
             choice == None || choice.value in claimed || externals[k] in claimed
    ensures Scanned(start, db, rejected, claimed, internals, externals, k + 1, left, pairs)
  {
    hide StageRun, StageOk, Choice, RejectedRows, ClaimedAmong, Claimed;
    assert externals[k..][0] == externals[k] && externals[k..][1..] == externals[k + 1..];
    assert forall t :: t in externals[k + 1..] ==> t in externals[k..];
  }

  /** Writing the pair claims nothing the scan still has to look at. */
  lemma StillClaimed(db: Db, internals: seq<TxnId>, externals: seq<TxnId>, k: nat, left: seq<TxnId>,
                     claimed: set<TxnId>, i: TxnId)
    requires k < |externals| && Distinct(externals) && i in internals
    requires (forall t :: t in internals ==> t !in externals) && (forall t :: t in left ==> t in internals)
    requires forall t :: t in left || t in externals[k..] ==> (Claimed(db, t) <==> t in claimed)
    ensures forall t :: t in Without(left, i) || t in externals[k + 1..] ==>
              (Claimed(WithPair(db, i, externals[k], Exact, AutoMatched), t) <==> t in claimed)
  {
    hide Claimed, WithPair, Without;
    var e := externals[k];
    assert e in externals;
    forall t | t in Without(left, i) || t in externals[k + 1..]
      ensures Claimed(WithPair(db, i, e, Exact, AutoMatched), t) <==> t in claimed
    {
      assert t in externals[k + 1..] ==> t in externals[k..] && t != e && t in externals;
      PairClaims(db, i, e, Exact, AutoMatched, t);
    }
  }

  lemma ScanContinues(txns: Txns, rejected: set<(TxnId, TxnId)>, claimed: set<TxnId>,
                      left: seq<TxnId>, externals: seq<TxnId>, k: nat, pairs: Pairs, i: TxnId)
    requires k < |externals| && Choice(txns, rejected, left, externals[k]) == Some(i)
    requires i !in claimed && externals[k] !in claimed
    ensures pairs + [(i, externals[k])] + ExactPairs(txns, rejected, claimed, Without(left, i), externals[k + 1..])
            == pairs + ExactPairs(txns, rejected, claimed, left, externals[k..])
  {
    hide Choice, Without;
    assert externals[k..][0] == externals[k] && externals[k..][1..] == externals[k + 1..];
    var rest := ExactPairs(txns, rejected, claimed, Without(left, i), externals[k + 1..]);
    assert pairs + ([(i, externals[k])] + rest) == pairs + [(i, externals[k])] + rest;
  }

  lemma ScanTakes(start: Db, db: Db, rejected: set<(TxnId, TxnId)>, claimed: set<TxnId>,
                  internals: seq<TxnId>, externals: seq<TxnId>, k: nat, left: seq<TxnId>, pairs: Pairs, i: TxnId)
    requires Scanned(start, db, rejected, claimed, internals, externals, k, left, pairs) && k < |externals|
    requires Choice(start.txns, rejected, left, externals[k]) == Some(i)
    requires !Claimed(db, i) && !Claimed(db, externals[k])
    ensures Scanned(start, WithPair(db, i, externals[k], Exact, AutoMatched), rejected, claimed, internals, externals,
                    k + 1, Without(left, i), pairs + [(i, externals[k])])
  {
    hide StageRun, StageOk, Choice, RejectedRows, ClaimedAmong, Claimed, RejectedPair, ExactPairs, Without;
    var e := externals[k];
    var db' := WithPair(db, i, e, Exact, AutoMatched);
    ScanChoice(start, db, rejected, claimed, internals, externals, k, left, pairs, i);
    StagePair(start, db, PairSteps(pairs, Exact), internals, externals, i, e, Exact, AutoMatched);
    assert PairSteps(pairs + [(i, e)], Exact) == PairSteps(pairs, Exact) + [Pair(i, e, Exact, AutoMatched)];
    assert externals[k..][0] == e && externals[k..][1..] == externals[k + 1..];
    StillClaimed(db, internals, externals, k, left, claimed, i);
    ScanContinues(start.txns, rejected, claimed, left, externals, k, pairs, i);
  }
}

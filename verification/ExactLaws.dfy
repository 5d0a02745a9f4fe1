/** What the exact strategy guarantees of the pairs it makes. */
module ExactLaws {
  import opened Ledger
  import opened References
  import opened ExactMatching

  /** The reference has a character that is not a blank. */
  predicate Inked(reference: string) {
    exists k :: 0 <= k < |reference|
                && reference[k] != ' ' && !(9 <= reference[k] as int <= 13) && !(28 <= reference[k] as int <= 31)
  }

  /** Internal i could be paired with external e: the same usable reference, amount, currency and direction,
      and nobody has rejected the pairing. */
  predicate Fit(txns: Txns, rejected: set<(TxnId, TxnId)>, i: TxnId, e: TxnId) {
    && i in txns && e in txns
    && Inked(txns[i].reference) && txns[i].reference == txns[e].reference
    && txns[i].amount == txns[e].amount && txns[i].currency == txns[e].currency
    && txns[i].direction == txns[e].direction
    && (i, e) !in rejected
  }

  /** Internal i is at most as many days away from e as internal t. */
  predicate Nearer(txns: Txns, i: TxnId, t: TxnId, e: TxnId)
    requires i in txns && t in txns && e in txns
  {
    var mine, other := txns[i].date - txns[e].date, txns[t].date - txns[e].date;
    if other >= 0 then -other <= mine <= other else other <= mine <= -other
  }

  /** What it means to have a key. */
  lemma KeyMeans(txns: Txns, t: TxnId, key: Key)
    ensures KeyAt(txns, t) == Some(key) <==>
            && t in txns && Inked(txns[t].reference)
            && key.reference == txns[t].reference && key.amount == txns[t].amount
            && key.currency == txns[t].currency && key.direction == txns[t].direction
  {
    if t in txns {
      assert Blank(txns[t].reference) <==> !Inked(txns[t].reference);
    }
  }

  /** The internals that fit are those with the key of the external. */
  lemma FitMeansSameKey(txns: Txns, rejected: set<(TxnId, TxnId)>, i: TxnId, e: TxnId)
    ensures Fit(txns, rejected, i, e)
            <==> KeyAt(txns, i).Some? && KeyAt(txns, i) == KeyAt(txns, e) && (i, e) !in rejected
  {
    hide Inked;
    if KeyAt(txns, e).Some? {
      KeyMeans(txns, i, KeyAt(txns, e).value);
      KeyMeans(txns, e, KeyAt(txns, e).value);
    }
    if Fit(txns, rejected, i, e) {
      var key := Key(txns[e].reference, txns[e].amount, txns[e].currency, txns[e].direction);
      KeyMeans(txns, i, key);
      KeyMeans(txns, e, key);
    }
  }

  lemma NearerMeansFewerDays(txns: Txns, i: TxnId, t: TxnId, e: TxnId)
    requires i in txns && t in txns && e in txns
    ensures Nearer(txns, i, t, e) <==> DaysApart(txns, i, e) <= DaysApart(txns, t, e)
  {
  }

  ghost predicate InternalUsed(pairs: Pairs, upTo: nat, i: TxnId)
    requires upTo <= |pairs|
  {
    exists k :: 0 <= k < upTo && pairs[k].0 == i
  }

  ghost predicate ExternalUsed(pairs: Pairs, e: TxnId) {
    exists k :: 0 <= k < |pairs| && pairs[k].1 == e
  }

  lemma ChoiceMeans(txns: Txns, rejected: set<(TxnId, TxnId)>, left: seq<TxnId>, e: TxnId)
    ensures var c := Choice(txns, rejected, left, e);
            && (c == None <==> forall t :: t in left ==> !Fit(txns, rejected, t, e))
            && (c.Some? ==> c.value in left && Fit(txns, rejected, c.value, e)
                            && forall t :: t in left && Fit(txns, rejected, t, e) ==> Nearer(txns, c.value, t, e))
  {
    hide Fit, Nearer, DaysApart;
    var key := KeyAt(txns, e);
    forall t: TxnId
      ensures Fit(txns, rejected, t, e)
              <==> KeyAt(txns, t).Some? && KeyAt(txns, t) == key && (t, e) !in rejected
    {
      FitMeansSameKey(txns, rejected, t, e);
    }
    if key.Some? {
      var allowed := Allowed(WithKey(txns, left, key.value), rejected, e);
      assert forall t :: t in allowed <==> t in left && Fit(txns, rejected, t, e);
      if allowed != [] {
        assert allowed[0] in allowed;
        var best := Closest(txns, allowed, e);
        forall t | t in left && Fit(txns, rejected, t, e) ensures Nearer(txns, best, t, e) {
          NearerMeansFewerDays(txns, best, t, e);
        }
      }
    }
  }

  /** The p-th pair: both sides new, a fitting pair, and no internal still left at that point was
      closer in date. */
  ghost predicate GoodPick(txns: Txns, rejected: set<(TxnId, TxnId)>, left: seq<TxnId>, externals: seq<TxnId>,
                           pairs: Pairs, p: nat)
    requires p < |pairs|
  {
    var (i, e) := pairs[p];
    && i in left && e in externals && Fit(txns, rejected, i, e)
    && !InternalUsed(pairs, p, i)
    && (forall k :: 0 <= k < p ==> pairs[k].1 != e)
    && (forall t: TxnId :: t in left && Fit(txns, rejected, t, e) && !InternalUsed(pairs, p, t) ==>
          Nearer(txns, i, t, e))
  }

  lemma ExactNext(txns: Txns, rejected: set<(TxnId, TxnId)>, claimed: set<TxnId>,
                  left: seq<TxnId>, externals: seq<TxnId>)
    requires externals != []
    ensures var e, choice := externals[0], Choice(txns, rejected, left, externals[0]);
            ExactPairs(txns, rejected, claimed, left, externals)
            == if choice == None || choice.value in claimed || e in claimed
               then ExactPairs(txns, rejected, claimed, left, externals[1..])
               else [(choice.value, e)]
                    + ExactPairs(txns, rejected, claimed, Without(left, choice.value), externals[1..])
  {
  }

  /** Every internal chosen is the closest in date among those left when it was chosen. */
  lemma {:induction false} ChosenIsClosest(txns: Txns, rejected: set<(TxnId, TxnId)>, claimed: set<TxnId>,
                                           left: seq<TxnId>, externals: seq<TxnId>, p: nat)
    requires Distinct(externals) && p < |ExactPairs(txns, rejected, claimed, left, externals)|
    ensures GoodPick(txns, rejected, left, externals, ExactPairs(txns, rejected, claimed, left, externals), p)
    decreases externals
  {
    if externals != [] {
      ExactNext(txns, rejected, claimed, left, externals);
      var e, rest := externals[0], externals[1..];
      var choice := Choice(txns, rejected, left, e);
      ChoiceMeans(txns, rejected, left, e);
      hide ExactPairs, Choice, Fit, GoodPick;
      var pairs := ExactPairs(txns, rejected, claimed, left, externals);
      if choice == None || choice.value in claimed || e in claimed {
        ChosenIsClosest(txns, rejected, claimed, left, rest, p);
        LaterExternals(txns, rejected, left, externals, pairs, p);
      } else if p == 0 {
        FirstPick(txns, rejected, left, externals, pairs);
      } else {
        var fewer := Without(left, choice.value);
        var later := ExactPairs(txns, rejected, claimed, fewer, rest);
        ChosenIsClosest(txns, rejected, claimed, fewer, rest, p - 1);
        LaterPick(txns, rejected, left, externals, choice.value, later, p);
      }
    }
  }

  lemma LaterExternals(txns: Txns, rejected: set<(TxnId, TxnId)>, left: seq<TxnId>, externals: seq<TxnId>,
                       pairs: Pairs, p: nat)
    requires externals != [] && p < |pairs| && GoodPick(txns, rejected, left, externals[1..], pairs, p)
    ensures GoodPick(txns, rejected, left, externals, pairs, p)
  {
  }

  lemma FirstPick(txns: Txns, rejected: set<(TxnId, TxnId)>, left: seq<TxnId>, externals: seq<TxnId>, pairs: Pairs)
    requires externals != [] && pairs != [] && pairs[0].1 == externals[0]
    requires pairs[0].0 in left && Fit(txns, rejected, pairs[0].0, externals[0])
    requires forall t :: t in left && Fit(txns, rejected, t, externals[0]) ==>
               Nearer(txns, pairs[0].0, t, externals[0])
    ensures GoodPick(txns, rejected, left, externals, pairs, 0)
  {
  }

  lemma LaterPick(txns: Txns, rejected: set<(TxnId, TxnId)>, left: seq<TxnId>, externals: seq<TxnId>,
                  first: TxnId, later: Pairs, p: nat)
    requires externals != [] && Distinct(externals) && 0 < p <= |later|
    requires GoodPick(txns, rejected, Without(left, first), externals[1..], later, p - 1)
    ensures GoodPick(txns, rejected, left, externals, [(first, externals[0])] + later, p)
  {
    hide Fit;
    var pairs := [(first, externals[0])] + later;
    var (i, e) := later[p - 1];
    assert pairs[p] == (i, e);
    UsedLater(pairs, later, first, externals[0], p);
    assert e != externals[0];
    forall k | 0 <= k < p ensures pairs[k].1 != e {
      if k > 0 {
        assert pairs[k] == later[k - 1];
      }
    }
  }

  lemma UsedLater(pairs: Pairs, later: Pairs, i: TxnId, e: TxnId, p: nat)
    requires pairs == [(i, e)] + later && 0 < p <= |pairs|
    ensures forall t: TxnId :: InternalUsed(pairs, p, t) <==> t == i || InternalUsed(later, p - 1, t)
  {
    forall t: TxnId ensures InternalUsed(pairs, p, t) <==> t == i || InternalUsed(later, p - 1, t) {
      assert pairs[0].0 == i;
      if InternalUsed(later, p - 1, t) {
        var k :| 0 <= k < p - 1 && later[k].0 == t;
        assert pairs[k + 1].0 == t;
      }
      if InternalUsed(pairs, p, t) && t != i {
        var k :| 0 <= k < p && pairs[k].0 == t;
        assert later[k - 1].0 == t;
      }
    }
  }

  /** No missed opportunity: an external left unmatched had every internal it fits used. */
  lemma {:induction false} UnmatchedHadNothingLeft(txns: Txns, rejected: set<(TxnId, TxnId)>,
                                                   left: seq<TxnId>, externals: seq<TxnId>, e: TxnId, i: TxnId)
    requires e in externals && i in left && Fit(txns, rejected, i, e)
    requires !ExternalUsed(ExactPairs(txns, rejected, {}, left, externals), e)
    ensures var pairs := ExactPairs(txns, rejected, {}, left, externals); InternalUsed(pairs, |pairs|, i)
    decreases externals
  {
    ExactNext(txns, rejected, {}, left, externals);
    var x, rest := externals[0], externals[1..];
    var choice := Choice(txns, rejected, left, x);
    ChoiceMeans(txns, rejected, left, x);
    var pairs := ExactPairs(txns, rejected, {}, left, externals);
    hide ExactPairs, Choice, Fit;
    if choice == None {
      UnmatchedHadNothingLeft(txns, rejected, left, rest, e, i);
    } else {
      var later := ExactPairs(txns, rejected, {}, Without(left, choice.value), rest);
      UsedLater(pairs, later, choice.value, x, |pairs|);
      if choice.value != i {
        NotUsedLater(pairs, later, choice.value, x, e);
        UnmatchedHadNothingLeft(txns, rejected, Without(left, choice.value), rest, e, i);
      }
    }
  }

  lemma NotUsedLater(pairs: Pairs, later: Pairs, i: TxnId, x: TxnId, e: TxnId)
    requires pairs == [(i, x)] + later && !ExternalUsed(pairs, e)
    ensures x != e && !ExternalUsed(later, e)
  {
    assert pairs[0].1 == x;
    assert forall k :: 0 <= k < |later| ==> pairs[k + 1] == later[k];
  }

  // ------------------------------------------------------------ in which order

  lemma LongerKeepsOrder(front: seq<TxnId>, more: seq<TxnId>, a: TxnId, b: TxnId)
    requires Precedes(front, a, b) || (a in front && b in more)
    ensures Precedes(front + more, a, b)
  {
    var s := front + more;
    if Precedes(front, a, b) {
      var p, q :| 0 <= p < q < |front| && front[p] == a && front[q] == b;
      assert s[p] == a && s[q] == b;
    } else {
      var p :| 0 <= p < |front| && front[p] == a;
      var q :| 0 <= q < |more| && more[q] == b;
      assert s[p] == a && s[|front| + q] == b;
    }
  }

  /** One before the other in a list: both in its front, or the second at its end. */
  lemma OrderInFront(ids: seq<TxnId>, a: TxnId, b: TxnId)
    requires Precedes(ids, a, b)
    ensures ids != []
    ensures var n := |ids| - 1; Precedes(ids[..n], a, b) || (a in ids[..n] && b == ids[n])
  {
    var n := |ids| - 1;
    var p, q :| 0 <= p < q < |ids| && ids[p] == a && ids[q] == b;
    assert ids[..n][p] == a;
    if q < n {
      assert ids[..n][q] == b;
    }
  }

  lemma {:induction false} WithKeyOrder(txns: Txns, ids: seq<TxnId>, key: Key, a: TxnId, b: TxnId)
    requires Precedes(ids, a, b) && KeyAt(txns, a) == Some(key) && KeyAt(txns, b) == Some(key)
    ensures Precedes(WithKey(txns, ids, key), a, b)
    decreases |ids|
  {
    hide Precedes, KeyAt;
    OrderInFront(ids, a, b);
    var n := |ids| - 1;
    if Precedes(ids[..n], a, b) {
      WithKeyOrder(txns, ids[..n], key, a, b);
    }
    LongerKeepsOrder(WithKey(txns, ids[..n], key), if KeyAt(txns, ids[n]) == Some(key) then [ids[n]] else [], a, b);
  }

  lemma {:induction false} AllowedOrder(bucket: seq<TxnId>, rejected: set<(TxnId, TxnId)>, e: TxnId, a: TxnId, b: TxnId)
    requires Precedes(bucket, a, b) && (a, e) !in rejected && (b, e) !in rejected
    ensures Precedes(Allowed(bucket, rejected, e), a, b)
    decreases |bucket|
  {
    hide Precedes;
    OrderInFront(bucket, a, b);
    var n := |bucket| - 1;
    if Precedes(bucket[..n], a, b) {
      AllowedOrder(bucket[..n], rejected, e, a, b);
    }
    LongerKeepsOrder(Allowed(bucket[..n], rejected, e), if (bucket[n], e) !in rejected then [bucket[n]] else [], a, b);
  }

  lemma {:induction false} WithoutOrder(ids: seq<TxnId>, t: TxnId, a: TxnId, b: TxnId)
    requires Precedes(ids, a, b) && a != t && b != t
    ensures Precedes(Without(ids, t), a, b)
    decreases |ids|
  {
    hide Precedes;
    OrderInFront(ids, a, b);
    var n := |ids| - 1;
    if Precedes(ids[..n], a, b) {
      WithoutOrder(ids[..n], t, a, b);
    }
    LongerKeepsOrder(Without(ids[..n], t), if ids[n] == t then [] else [ids[n]], a, b);
  }

  lemma {:induction false} ClosestIsFirst(txns: Txns, bucket: seq<TxnId>, e: TxnId, t: TxnId)
    requires bucket != [] && t != Closest(txns, bucket, e) && Precedes(bucket, t, Closest(txns, bucket, e))
    requires Distinct(bucket)
    ensures DaysApart(txns, Closest(txns, bucket, e), e) < DaysApart(txns, t, e)
    decreases |bucket|
  {
    hide Precedes, DaysApart;
    var n, best := |bucket| - 1, Closest(txns, bucket, e);
    OrderInFront(bucket, t, best);
    if Precedes(bucket[..n], t, best) {
      FrontHolds(bucket[..n], t, best);
      ClosestIsFirst(txns, bucket[..n], e, t);
    } else {
      ClosestInFront(txns, bucket[..n], e, t);
    }
  }

  lemma ClosestInFront(txns: Txns, bucket: seq<TxnId>, e: TxnId, t: TxnId)
    requires t in bucket
    ensures Closest(txns, bucket, e) in bucket
    ensures DaysApart(txns, Closest(txns, bucket, e), e) <= DaysApart(txns, t, e)
  {
  }

  lemma FrontHolds(ids: seq<TxnId>, a: TxnId, b: TxnId)
    requires Precedes(ids, a, b)
    ensures a in ids && b in ids
  {
  }

  lemma FirstOfTheFitting(txns: Txns, rejected: set<(TxnId, TxnId)>, left: seq<TxnId>, e: TxnId, i: TxnId, t: TxnId)
    requires Choice(txns, rejected, left, e) == Some(i) && Distinct(left)
    requires t != i && t in txns && Fit(txns, rejected, t, e) && Precedes(left, t, i)
    ensures i in txns && e in txns && !Nearer(txns, t, i, e)
  {
    hide Fit, Nearer, DaysApart, Precedes, Closest;
    ChoiceMeans(txns, rejected, left, e);
    FitMeansSameKey(txns, rejected, t, e);
    FitMeansSameKey(txns, rejected, i, e);
    var key := KeyAt(txns, e).value;
    FrontHolds(left, t, i);
    WithKeyOrder(txns, left, key, t, i);
    WithKeyDistinct(txns, left, key);
    AllowedOrder(WithKey(txns, left, key), rejected, e, t, i);
    AllowedDistinct(WithKey(txns, left, key), rejected, e);
    ClosestIsFirst(txns, Allowed(WithKey(txns, left, key), rejected, e), e, t);
    FitKnown(txns, rejected, t, e);
    FitKnown(txns, rejected, i, e);
    NearerMeansFewerDays(txns, t, i, e);
  }

  lemma FitKnown(txns: Txns, rejected: set<(TxnId, TxnId)>, i: TxnId, e: TxnId)
    requires Fit(txns, rejected, i, e)
    ensures i in txns && e in txns
  {
  }

  lemma {:induction false} AllowedDistinct(bucket: seq<TxnId>, rejected: set<(TxnId, TxnId)>, e: TxnId)
    requires Distinct(bucket)
    ensures Distinct(Allowed(bucket, rejected, e))
  {
    if bucket != [] {
      AllowedDistinct(bucket[..|bucket| - 1], rejected, e);
    }
  }

  lemma NoneWithoutExternals(txns: Txns, rejected: set<(TxnId, TxnId)>, claimed: set<TxnId>, left: seq<TxnId>)
    ensures ExactPairs(txns, rejected, claimed, left, []) == []
  {
  }

  /** Among internals equally near the first in the pool is taken: one that fits, is left and comes before the internal
      of a pair is farther away. */
  lemma {:induction false} EarlierIsFarther(txns: Txns, rejected: set<(TxnId, TxnId)>, claimed: set<TxnId>,
                                            left: seq<TxnId>, externals: seq<TxnId>, p: nat, t: TxnId)
    requires Distinct(left) && p < |ExactPairs(txns, rejected, claimed, left, externals)|
    requires var pairs := ExactPairs(txns, rejected, claimed, left, externals);
             var (i, e) := pairs[p];
             t != i && Precedes(left, t, i) && Fit(txns, rejected, t, e) && !InternalUsed(pairs, p, t)
    ensures var (i, e) := ExactPairs(txns, rejected, claimed, left, externals)[p];
            i in txns && e in txns && t in txns && !Nearer(txns, t, i, e)
    decreases externals
  {
    hide *;
    NoneWithoutExternals(txns, rejected, claimed, left);
    if externals != [] {
      ExactNext(txns, rejected, claimed, left, externals);
      var e, rest := externals[0], externals[1..];
      var choice := Choice(txns, rejected, left, e);
      var pairs := ExactPairs(txns, rejected, claimed, left, externals);
      FitKnown(txns, rejected, t, pairs[p].1);
      if choice == None || choice.value in claimed || e in claimed {
        EarlierIsFarther(txns, rejected, claimed, left, rest, p, t);
      } else if p == 0 {
        FirstOfTheFitting(txns, rejected, left, e, choice.value, t);
      } else {
        var fewer := Without(left, choice.value);
        var later := ExactPairs(txns, rejected, claimed, fewer, rest);
        SidesOfPairs(txns, rejected, claimed, fewer, rest, p - 1);
        StillEarlier(left, pairs, later, choice.value, e, p, t);
        WithoutDrops(left, choice.value);
        EarlierIsFarther(txns, rejected, claimed, fewer, rest, p - 1, t);
      }
    }
  }

  lemma StillEarlier(left: seq<TxnId>, pairs: Pairs, later: Pairs, i: TxnId, e: TxnId, p: nat, t: TxnId)
    requires pairs == [(i, e)] + later && 0 < p < |pairs|
    requires later[p - 1].0 in Without(left, i) && Precedes(left, t, pairs[p].0) && !InternalUsed(pairs, p, t)
    ensures pairs[p] == later[p - 1]
    ensures Precedes(Without(left, i), t, later[p - 1].0) && !InternalUsed(later, p - 1, t)
  {
    hide Precedes, InternalUsed;
    UsedLater(pairs, later, i, e, p);
    WithoutOrder(left, i, t, later[p - 1].0);
  }

  lemma ChoiceIsLeft(txns: Txns, rejected: set<(TxnId, TxnId)>, left: seq<TxnId>, e: TxnId)
    ensures Choice(txns, rejected, left, e).Some? ==> Choice(txns, rejected, left, e).value in left
  {
  }

  lemma {:induction false} SidesOfPairs(txns: Txns, rejected: set<(TxnId, TxnId)>, claimed: set<TxnId>,
                                        left: seq<TxnId>, externals: seq<TxnId>, p: nat)
    requires p < |ExactPairs(txns, rejected, claimed, left, externals)|
    ensures ExactPairs(txns, rejected, claimed, left, externals)[p].0 in left
    ensures ExactPairs(txns, rejected, claimed, left, externals)[p].1 in externals
    decreases externals
  {
    hide *;
    NoneWithoutExternals(txns, rejected, claimed, left);
    if externals != [] {
      ExactNext(txns, rejected, claimed, left, externals);
      var e, rest := externals[0], externals[1..];
      var choice := Choice(txns, rejected, left, e);
      if choice == None || choice.value in claimed || e in claimed {
        SidesOfPairs(txns, rejected, claimed, left, rest, p);
      } else {
        ChoiceIsLeft(txns, rejected, left, e);
        if p > 0 {
          SidesOfPairs(txns, rejected, claimed, Without(left, choice.value), rest, p - 1);
        }
      }
    }
  }

  /** The externals take their turns in the order of their pool. */
  lemma {:induction false} PairsAreInOrder(txns: Txns, rejected: set<(TxnId, TxnId)>, claimed: set<TxnId>,
                                           left: seq<TxnId>, externals: seq<TxnId>, j: nat, k: nat)
    requires j < k < |ExactPairs(txns, rejected, claimed, left, externals)|
    ensures var pairs := ExactPairs(txns, rejected, claimed, left, externals);
            Precedes(externals, pairs[j].1, pairs[k].1)
    decreases externals
  {
    hide Precedes, ExactPairs, Choice, Without;
    NoneWithoutExternals(txns, rejected, claimed, left);
    if externals != [] {
      ExactNext(txns, rejected, claimed, left, externals);
      var e, rest := externals[0], externals[1..];
      var choice := Choice(txns, rejected, left, e);
      var pairs := ExactPairs(txns, rejected, claimed, left, externals);
      if choice == None || choice.value in claimed || e in claimed {
        PairsAreInOrder(txns, rejected, claimed, left, rest, j, k);
        LaterOrder(externals, pairs[j].1, pairs[k].1);
      } else {
        var fewer := Without(left, choice.value);
        var later := ExactPairs(txns, rejected, claimed, fewer, rest);
        SidesOfPairs(txns, rejected, claimed, fewer, rest, k - 1);
        if j > 0 {
          PairsAreInOrder(txns, rejected, claimed, fewer, rest, j - 1, k - 1);
        }
        OrderOfLonger(externals, pairs, later, choice.value, j, k);
      }
    }
  }

  lemma OrderOfLonger(externals: seq<TxnId>, pairs: Pairs, later: Pairs, i: TxnId, j: nat, k: nat)
    requires externals != [] && pairs == [(i, externals[0])] + later && j < k < |pairs|
    requires later[k - 1].1 in externals[1..]
    requires j > 0 ==> Precedes(externals[1..], later[j - 1].1, later[k - 1].1)
    ensures Precedes(externals, pairs[j].1, pairs[k].1)
  {
    hide Precedes;
    if j > 0 {
      LaterOrder(externals, later[j - 1].1, later[k - 1].1);
    } else {
      LongerKeepsOrder([externals[0]], externals[1..], externals[0], later[k - 1].1);
      assert [externals[0]] + externals[1..] == externals;
    }
  }

  lemma LaterOrder(ids: seq<TxnId>, a: TxnId, b: TxnId)
    requires ids != [] && Precedes(ids[1..], a, b)
    ensures Precedes(ids, a, b)
  {
    var p, q :| 0 <= p < q < |ids| - 1 && ids[1..][p] == a && ids[1..][q] == b;
    assert ids[p + 1] == a && ids[q + 1] == b;
  }

  // ------------------------------------------------------------ who is skipped

  /** Where the transactions without a usable reference are. */
  ghost function Unkeyed(txns: Txns, ids: seq<TxnId>): set<nat> {
    set k: nat | k < |ids| && !(ids[k] in txns && Inked(txns[ids[k]].reference))
  }

  /** The number skipped is that of the transactions with no usable reference. */
  lemma {:induction false} SkippedAreUnkeyed(txns: Txns, ids: seq<TxnId>)
    ensures Keyless(txns, ids) == |Unkeyed(txns, ids)|
  {
    if ids != [] {
      hide Inked;
      var n := |ids| - 1;
      SkippedAreUnkeyed(txns, ids[..n]);
      if KeyAt(txns, ids[n]).Some? {
        KeyMeans(txns, ids[n], KeyAt(txns, ids[n]).value);
      }
      if ids[n] in txns && Inked(txns[ids[n]].reference) {
        var txn := txns[ids[n]];
        KeyMeans(txns, ids[n], Key(txn.reference, txn.amount, txn.currency, txn.direction));
        assert Unkeyed(txns, ids) == Unkeyed(txns, ids[..n]);
      } else {
        assert Unkeyed(txns, ids) == Unkeyed(txns, ids[..n]) + {n};
      }
    }
  }

  // ------------------------------------------------------------ how many pairs a key gets

  function PairsOfKey(txns: Txns, pairs: Pairs, key: Key): Pairs {
    if pairs == [] then []
    else (if KeyAt(txns, pairs[0].1) == Some(key) then [pairs[0]] else []) + PairsOfKey(txns, pairs[1..], key)
  }

  lemma {:induction false} WithoutCount(txns: Txns, left: seq<TxnId>, t: TxnId, key: Key)
    requires Distinct(left) && t in left
    ensures |WithKey(txns, Without(left, t), key)|
            == |WithKey(txns, left, key)| - (if KeyAt(txns, t) == Some(key) then 1 else 0)
    ensures Distinct(Without(left, t))
  {
    WithoutKeyed(txns, left, t, key);
    WithoutDrops(left, t);
    WithKeyDistinct(txns, left, key);
    if KeyAt(txns, t) == Some(key) {
      WithoutDrops(WithKey(txns, left, key), t);
    }
  }

  lemma {:induction false} WithoutDrops(ids: seq<TxnId>, t: TxnId)
    requires Distinct(ids)
    ensures |Without(ids, t)| == |ids| - (if t in ids then 1 else 0) && Distinct(Without(ids, t))
  {
    if ids != [] {
      var front, last := ids[..|ids| - 1], ids[|ids| - 1];
      WithoutDrops(front, t);
      assert last !in front;
      assert last !in Without(front, t);
      assert t in ids <==> t in front || t == last;
    }
  }

  lemma {:induction false} WithKeyDistinct(txns: Txns, ids: seq<TxnId>, key: Key)
    requires Distinct(ids)
    ensures Distinct(WithKey(txns, ids, key))
  {
    if ids != [] {
      WithKeyDistinct(txns, ids[..|ids| - 1], key);
    }
  }

  lemma WithKeyFirst(txns: Txns, externals: seq<TxnId>, key: Key)
    requires externals != []
    ensures WithKey(txns, externals, key)
            == (if KeyAt(txns, externals[0]) == Some(key) then [externals[0]] else [])
               + WithKey(txns, externals[1..], key)
  {
    hide *;
    assert externals == [externals[0]] + externals[1..];
    WithKeyAppend(txns, [externals[0]], externals[1..], key);
    Singletons(txns, externals[0], externals[0], key);
  }

  /** With no rejected pairing, every key gets as many matches as it has internals or externals,
      whichever is fewer. */
  lemma {:induction false} EveryKeyIsFilled(txns: Txns, left: seq<TxnId>, externals: seq<TxnId>, key: Key)
    requires Distinct(left)
    ensures var ints, exts := |WithKey(txns, left, key)|, |WithKey(txns, externals, key)|;
            |PairsOfKey(txns, ExactPairs(txns, {}, {}, left, externals), key)| == if ints < exts then ints else exts
    decreases externals
  {
    if externals == [] {
      Singletons(txns, 0, 0, key);
    } else {
      ExactNext(txns, {}, {}, left, externals);
      var e, rest := externals[0], externals[1..];
      var choice := Choice(txns, {}, left, e);
      ChoiceMeans(txns, {}, left, e);
      WithKeyFirst(txns, externals, key);
      hide ExactPairs, Choice, WithKey;
      if choice == None {
        EveryKeyIsFilled(txns, left, rest, key);
        if KeyAt(txns, e) == Some(key) {
          NoneWithKey(txns, left, key);
        }
      } else {
        WithoutCount(txns, left, choice.value, key);
        EveryKeyIsFilled(txns, Without(left, choice.value), rest, key);
        var later := ExactPairs(txns, {}, {}, Without(left, choice.value), rest);
        assert ([(choice.value, e)] + later)[1..] == later;
        if KeyAt(txns, e) == Some(key) {
          SomeWithKey(txns, left, choice.value, key);
        }
      }
    }
  }

  lemma NoneWithKey(txns: Txns, left: seq<TxnId>, key: Key)
    requires forall t :: t in left ==> KeyAt(txns, t) != Some(key)
    ensures WithKey(txns, left, key) == []
  {
    FirstIsMember(WithKey(txns, left, key));
  }

  lemma FirstIsMember(ids: seq<TxnId>)
    ensures ids != [] ==> ids[0] in ids
  {
  }

  lemma SomeWithKey(txns: Txns, left: seq<TxnId>, t: TxnId, key: Key)
    requires t in left && KeyAt(txns, t) == Some(key)
    ensures |WithKey(txns, left, key)| >= 1
  {
    assert t in WithKey(txns, left, key);
  }
}

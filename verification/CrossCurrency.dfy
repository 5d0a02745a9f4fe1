/** One-to-one cross-currency matching (src/recon/matching/strategies/cross_currency.py): an external
    is paired with the one internal that shares its reference and direction in another currency and
    a near date, when their INR values agree within the tolerance. */
module CrossCurrency {
  import opened Ledger
  import opened LedgerInvariant
  import opened Database
  import opened Repository
  import opened Stages
  import opened FxConvert

  type Txns = map<TxnId, Txn>
  type Pairs = seq<(TxnId, TxnId)>

  datatype Config = Config(tolerancePercent: real, maxDaysApart: int)

  /** Internal i is a peer of external e. */
  predicate Peer(config: Config, txns: Txns, rejected: set<(TxnId, TxnId)>, i: TxnId, e: TxnId) {
    && i in txns && e in txns
    && txns[i].reference == txns[e].reference && txns[e].reference != ""
    && (i, e) !in rejected
    && txns[i].currency != txns[e].currency
    && txns[i].direction == txns[e].direction
    && DaysBetween(txns[i], txns[e]) <= config.maxDaysApart
  }

  /** The peers not consumed yet, in the order of the internals. */
  function Peers(config: Config, txns: Txns, rejected: set<(TxnId, TxnId)>, consumed: set<TxnId>,
                 internals: seq<TxnId>, e: TxnId): (peers: seq<TxnId>)
    ensures forall i :: i in peers <==> i in internals && i !in consumed && Peer(config, txns, rejected, i, e)
  {
    if internals == [] then []
    else
      var front := Peers(config, txns, rejected, consumed, internals[..|internals| - 1], e);
      var i := internals[|internals| - 1];
      if i !in consumed && Peer(config, txns, rejected, i, e) then front + [i] else front
  }

  datatype Verdict = NoPeer | Ambiguous | MissingFx | OutOfTolerance | Take(internal: TxnId)

  predicate Agree(config: Config, quotes: Quotes, txns: Txns, i: TxnId, e: TxnId)
    requires i in txns && e in txns
  {
    var a, b := LegInr(quotes, txns[i]), LegInr(quotes, txns[e]);
    a.Some? && b.Some? && RelativeDifference(a.value, b.value) <= config.tolerancePercent
  }

  function Judge(config: Config, quotes: Quotes, txns: Txns, peers: seq<TxnId>, e: TxnId): Verdict
    requires forall i :: i in peers ==> i in txns && e in txns
  {
    if peers == [] then NoPeer
    else if |peers| > 1 then Ambiguous
    else
      assert peers[0] in peers;
      if LegInr(quotes, txns[peers[0]]) == None || LegInr(quotes, txns[e]) == None then MissingFx
      else if Agree(config, quotes, txns, peers[0], e) then Take(peers[0]) else OutOfTolerance
  }

  function Firsts(pairs: Pairs): set<TxnId> {
    set p | p in pairs :: p.0
  }

  datatype Outcome = Outcome(matched: nat, outOfTolerance: nat, ambiguous: nat, missingFx: nat, conflicts: nat)

  const NOTHING := Outcome(0, 0, 0, 0, 0)

  /** What the stage does, external by external: the pairs made and the counts. */
  function CrossPairs(config: Config, quotes: Quotes, txns: Txns, rejected: set<(TxnId, TxnId)>,
                      claimed: set<TxnId>, internals: seq<TxnId>, externals: seq<TxnId>): (Pairs, Outcome)
    requires forall t :: t in internals || t in externals ==> t in txns
  {
    if externals == [] then ([], NOTHING)
    else
      var (pairs, outcome) :=
        CrossPairs(config, quotes, txns, rejected, claimed, internals, externals[..|externals| - 1]);
      var e := externals[|externals| - 1];
      match Judge(config, quotes, txns, Peers(config, txns, rejected, Firsts(pairs), internals, e), e)
      case NoPeer => (pairs, outcome)
      case Ambiguous => (pairs, outcome.(ambiguous := outcome.ambiguous + 1))
      case MissingFx => (pairs, outcome.(missingFx := outcome.missingFx + 1))
      case OutOfTolerance => (pairs, outcome.(outOfTolerance := outcome.outOfTolerance + 1))
      case Take(i) =>
        if i in claimed || e in claimed then (pairs, outcome.(conflicts := outcome.conflicts + 1))
        else (pairs + [(i, e)], outcome.(matched := outcome.matched + 1))
  }

  // ------------------------------------------------------------------- what the pairs are

  /** The same usable reference and direction, another currency, at most the allowed days apart, and nobody
      has rejected the pairing. */
  predicate Counterparts(config: Config, txns: Txns, rejected: set<(TxnId, TxnId)>, i: TxnId, e: TxnId) {
    && i in txns && e in txns && (i, e) !in rejected
    && txns[e].reference != "" && txns[i].reference == txns[e].reference
    && txns[i].currency != txns[e].currency && txns[i].direction == txns[e].direction
    && -config.maxDaysApart <= txns[i].date - txns[e].date <= config.maxDaysApart
  }

  /** At the rates of their own days the two are worth nearly the same. */
  ghost predicate WorthTheSame(config: Config, quotes: Quotes, txns: Txns, i: TxnId, e: TxnId)
    requires i in txns && e in txns
  {
    exists a, b :: WorthInr(quotes, txns[i], a) && WorthInr(quotes, txns[e], b)
                   && WithinPercent(a, b, config.tolerancePercent)
  }

  lemma PeersAreCounterparts(config: Config, txns: Txns, rejected: set<(TxnId, TxnId)>, i: TxnId, e: TxnId)
    ensures Peer(config, txns, rejected, i, e) <==> Counterparts(config, txns, rejected, i, e)
  {
  }

  lemma AgreeingIsWorthTheSame(config: Config, quotes: Quotes, txns: Txns, i: TxnId, e: TxnId)
    requires i in txns && e in txns
    ensures Agree(config, quotes, txns, i, e) <==> WorthTheSame(config, quotes, txns, i, e)
  {
    hide LegInr, WorthInr, RelativeDifference, WithinPercent;
    forall v: int ensures LegInr(quotes, txns[i]) == Some(v) <==> WorthInr(quotes, txns[i], v) {
      LegIsWorth(quotes, txns[i], v);
    }
    forall v: int ensures LegInr(quotes, txns[e]) == Some(v) <==> WorthInr(quotes, txns[e], v) {
      LegIsWorth(quotes, txns[e], v);
    }
    var a, b := LegInr(quotes, txns[i]), LegInr(quotes, txns[e]);
    if a.Some? && b.Some? {
      DifferenceMeans(a.value, b.value, config.tolerancePercent);
      assert WorthInr(quotes, txns[i], a.value) && WorthInr(quotes, txns[e], b.value);
    }
  }

  /** Given the pairs made before, i is the only counterpart left for e, and the two are worth the same. */
  ghost predicate SolePeer(config: Config, quotes: Quotes, txns: Txns, rejected: set<(TxnId, TxnId)>,
                           internals: seq<TxnId>, before: Pairs, i: TxnId, e: TxnId) {
    && i in internals && Counterparts(config, txns, rejected, i, e) && (forall p :: p in before ==> p.0 != i)
    && WorthTheSame(config, quotes, txns, i, e)
    && (forall t ::
          t in internals && (forall p :: p in before ==> p.0 != t) && Counterparts(config, txns, rejected, t, e) ==>
          t == i)
  }

  lemma TakesSolePeer(config: Config, quotes: Quotes, txns: Txns, rejected: set<(TxnId, TxnId)>,
                      internals: seq<TxnId>, before: Pairs, i: TxnId, e: TxnId)
    requires e in txns && Distinct(internals)
    ensures Judge(config, quotes, txns, Peers(config, txns, rejected, Firsts(before), internals, e), e) == Take(i)
            <==> SolePeer(config, quotes, txns, rejected, internals, before, i, e)
  {
    hide Peer, LegInr, Firsts, Peers, Agree, WorthTheSame, Counterparts;
    forall t: TxnId ensures Peer(config, txns, rejected, t, e) <==> Counterparts(config, txns, rejected, t, e) {
      PeersAreCounterparts(config, txns, rejected, t, e);
    }
    FirstsMean(before);
    PeersKnown(config, txns, rejected, Firsts(before), internals, e);
    PeersDistinct(config, txns, rejected, Firsts(before), internals, e);
    var peers := Peers(config, txns, rejected, Firsts(before), internals, e);
    assert |peers| == 1 ==> peers == [peers[0]] && peers[0] in peers;
    forall t | t in txns ensures Agree(config, quotes, txns, t, e) <==> WorthTheSame(config, quotes, txns, t, e) {
      AgreeingIsWorthTheSame(config, quotes, txns, t, e);
    }
    AgreeingIsKnown(config, quotes, txns, e);
    if SolePeer(config, quotes, txns, rejected, internals, before, i, e) {
      assert i in peers;
      OneOnly(peers, i);
    }
  }

  lemma AgreeingIsKnown(config: Config, quotes: Quotes, txns: Txns, e: TxnId)
    requires e in txns
    ensures forall t :: t in txns && Agree(config, quotes, txns, t, e) ==>
              LegInr(quotes, txns[t]).Some? && LegInr(quotes, txns[e]).Some?
  {
  }

  lemma FirstsMean(pairs: Pairs)
    ensures forall t: TxnId :: t in Firsts(pairs) <==> exists p :: p in pairs && p.0 == t
  {
  }

  lemma CrossNext(config: Config, quotes: Quotes, txns: Txns, rejected: set<(TxnId, TxnId)>, claimed: set<TxnId>,
                  internals: seq<TxnId>, externals: seq<TxnId>)
    requires forall t :: t in internals || t in externals ==> t in txns
    requires externals != []
    ensures var front, e := externals[..|externals| - 1], externals[|externals| - 1];
            var before := CrossPairs(config, quotes, txns, rejected, claimed, internals, front).0;
            var verdict := Judge(config, quotes, txns, Peers(config, txns, rejected, Firsts(before), internals, e), e);
            CrossPairs(config, quotes, txns, rejected, claimed, internals, externals).0
            == if verdict.Take? && verdict.internal !in claimed && e !in claimed
               then before + [(verdict.internal, e)] else before
  {
  }

  lemma {:induction false} PairsAreAmong(config: Config, quotes: Quotes, txns: Txns, rejected: set<(TxnId, TxnId)>,
                                         claimed: set<TxnId>, internals: seq<TxnId>, externals: seq<TxnId>)
    requires forall t :: t in internals || t in externals ==> t in txns
    ensures forall p :: p in CrossPairs(config, quotes, txns, rejected, claimed, internals, externals).0 ==>
                          p.1 in externals && p.0 !in claimed && p.1 !in claimed
    decreases externals
  {
    if externals != [] {
      CrossNext(config, quotes, txns, rejected, claimed, internals, externals);
      hide CrossPairs, Judge, Peers, Firsts;
      PairsAreAmong(config, quotes, txns, rejected, claimed, internals, externals[..|externals| - 1]);
    }
  }

  /** A pair is made exactly when neither side is claimed and, after the externals before it, the
      internal is the only peer left and agrees. */
  lemma {:induction false} PairedIffSolePeer(config: Config, quotes: Quotes, txns: Txns,
                                             rejected: set<(TxnId, TxnId)>, claimed: set<TxnId>,
                                             internals: seq<TxnId>, externals: seq<TxnId>, k: nat, i: TxnId)
    requires forall t :: t in internals || t in externals ==> t in txns
    requires Distinct(internals) && Distinct(externals) && k < |externals|
    ensures (i, externals[k]) in CrossPairs(config, quotes, txns, rejected, claimed, internals, externals).0
            <==>
            (&& i !in claimed && externals[k] !in claimed
             && SolePeer(config, quotes, txns, rejected, internals,
                         CrossPairs(config, quotes, txns, rejected, claimed, internals, externals[..k]).0,
                         i, externals[k]))
    decreases externals
  {
    CrossNext(config, quotes, txns, rejected, claimed, internals, externals);
    hide CrossPairs, Judge, Peers, Firsts, SolePeer;
    var front, e := externals[..|externals| - 1], externals[|externals| - 1];
    if k < |front| {
      assert front[..k] == externals[..k];
      PairedIffSolePeer(config, quotes, txns, rejected, claimed, internals, front, k, i);
    } else {
      assert externals[..k] == front;
      PairsAreAmong(config, quotes, txns, rejected, claimed, internals, front);
      var before := CrossPairs(config, quotes, txns, rejected, claimed, internals, front).0;
      TakesSolePeer(config, quotes, txns, rejected, internals, before, i, e);
      assert (i, e) !in before;
    }
  }

  ghost predicate HasWorth(quotes: Quotes, txn: Txn) {
    exists v :: WorthInr(quotes, txn, v)
  }

  /** The counterparts of e among the internals that the pairs made before have left. */
  ghost function Left(config: Config, txns: Txns, rejected: set<(TxnId, TxnId)>, internals: seq<TxnId>, before: Pairs,
                      e: TxnId): set<TxnId> {
    set t | t in internals && (forall p :: p in before ==> p.0 != t) && Counterparts(config, txns, rejected, t, e)
  }

  lemma PeersAreLeft(config: Config, txns: Txns, rejected: set<(TxnId, TxnId)>, internals: seq<TxnId>, before: Pairs,
                     e: TxnId)
    requires Distinct(internals)
    ensures var peers := Peers(config, txns, rejected, Firsts(before), internals, e);
            ToSet(peers) == Left(config, txns, rejected, internals, before, e) && |ToSet(peers)| == |peers|
  {
    hide Peer, Firsts, Counterparts, Peers;
    forall t: TxnId ensures Peer(config, txns, rejected, t, e) <==> Counterparts(config, txns, rejected, t, e) {
      PeersAreCounterparts(config, txns, rejected, t, e);
    }
    FirstsMean(before);
    PeersDistinct(config, txns, rejected, Firsts(before), internals, e);
    DistinctCount(Peers(config, txns, rejected, Firsts(before), internals, e));
  }

  lemma WorthIsKnown(quotes: Quotes, txn: Txn)
    ensures HasWorth(quotes, txn) <==> LegInr(quotes, txn).Some?
  {
    hide LegInr, WorthInr;
    if LegInr(quotes, txn).Some? {
      LegIsWorth(quotes, txn, LegInr(quotes, txn).value);
    }
    if v :| WorthInr(quotes, txn, v) {
      LegIsWorth(quotes, txn, v);
    }
  }

  /** How each external is counted: not at all without a counterpart, as ambiguous with several, and with one
      counterpart as lacking a rate, out of tolerance, in conflict or matched. */
  lemma EachExternalIsCounted(config: Config, quotes: Quotes, txns: Txns, rejected: set<(TxnId, TxnId)>,
                              claimed: set<TxnId>, internals: seq<TxnId>, externals: seq<TxnId>, k: nat)
    requires forall t :: t in internals || t in externals ==> t in txns
    requires Distinct(internals) && k < |externals|
    ensures var (before, o) := CrossPairs(config, quotes, txns, rejected, claimed, internals, externals[..k]);
            var o' := CrossPairs(config, quotes, txns, rejected, claimed, internals, externals[..k + 1]).1;
            var e := externals[k];
            var left := Left(config, txns, rejected, internals, before, e);
            && (left == {} ==> o' == o)
            && (|left| > 1 ==> o' == o.(ambiguous := o.ambiguous + 1))
            && (forall i :: i in txns && left == {i} ==>
                  o' == if !HasWorth(quotes, txns[i]) || !HasWorth(quotes, txns[e])
                        then o.(missingFx := o.missingFx + 1)
                        else if !WorthTheSame(config, quotes, txns, i, e)
                        then o.(outOfTolerance := o.outOfTolerance + 1)
                        else if i in claimed || e in claimed then o.(conflicts := o.conflicts + 1)
                        else o.(matched := o.matched + 1))
  {
    hide LegInr, Peers, HasWorth, WorthTheSame, Agree, Left, Firsts;
    assert externals[..k + 1][..k] == externals[..k];
    var e := externals[k];
    var before := CrossPairs(config, quotes, txns, rejected, claimed, internals, externals[..k]).0;
    var peers := Peers(config, txns, rejected, Firsts(before), internals, e);
    PeersAreLeft(config, txns, rejected, internals, before, e);
    PeersKnown(config, txns, rejected, Firsts(before), internals, e);
    assert |peers| > 0 ==> peers[0] in ToSet(peers);
    assert |peers| == 1 ==> ToSet(peers) == {peers[0]};
    if |peers| == 1 {
      WorthIsKnown(quotes, txns[peers[0]]);
      WorthIsKnown(quotes, txns[e]);
      AgreeingIsWorthTheSame(config, quotes, txns, peers[0], e);
    }
  }

  lemma {:induction false} PeersDistinct(config: Config, txns: Txns, rejected: set<(TxnId, TxnId)>,
                                         consumed: set<TxnId>, internals: seq<TxnId>, e: TxnId)
    requires Distinct(internals)
    ensures Distinct(Peers(config, txns, rejected, consumed, internals, e))
  {
    if internals != [] {
      PeersDistinct(config, txns, rejected, consumed, internals[..|internals| - 1], e);
    }
  }

  // ------------------------------------------------------------------- the strategy

  type Index = map<string, seq<TxnId>>

  function WithReference(txns: Txns, ids: seq<TxnId>, reference: string): (r: seq<TxnId>)
    ensures forall t :: t in r <==> t in ids && t in txns && txns[t].reference == reference
  {
    if ids == [] then []
    else
      var last := ids[|ids| - 1];
      WithReference(txns, ids[..|ids| - 1], reference)
      + (if last in txns && txns[last].reference == reference then [last] else [])
  }

  lemma ReferenceMore(txns: Txns, ids: seq<TxnId>, k: nat)
    requires k < |ids|
    ensures forall reference: string ::
              WithReference(txns, ids[..k + 1], reference)
              == if ids[k] in txns && txns[ids[k]].reference == reference
                 then WithReference(txns, ids[..k], reference) + [ids[k]]
                 else WithReference(txns, ids[..k], reference)
  {
    assert ids[..k + 1][..k] == ids[..k];
  }

  lemma NoReference(txns: Txns)
    ensures forall reference: string :: WithReference(txns, [], reference) == []
  {
  }

  /** by_reference. */
  method BuildByReference(txns: Txns, internals: seq<TxnId>) returns (index: Index)
    requires forall t :: t in internals ==> t in txns
    ensures forall reference: string ::
              Listed(index, reference) == if reference == "" then [] else WithReference(txns, internals, reference)
  {
    hide WithReference;
    index := map[];
    NoReference(txns);
    for k := 0 to |internals|
      invariant forall reference: string ::
                  Listed(index, reference)
                  == if reference == "" then [] else WithReference(txns, internals[..k], reference)
    {
      var t := internals[k];
      var reference := txns[t].reference;
      ReferenceMore(txns, internals, k);
      if reference != "" {
        ghost var was := index;
        index := index[reference := Listed(index, reference) + [t]];
        assert forall other: string :: Listed(index, other)
                 == if other == reference then Listed(was, other) + [t] else Listed(was, other);
      }
    }
    assert internals[..|internals|] == internals;
  }

  lemma PeersMore(config: Config, txns: Txns, rejected: set<(TxnId, TxnId)>, consumed: set<TxnId>,
                  front: seq<TxnId>, i: TxnId, e: TxnId)
    ensures Peers(config, txns, rejected, consumed, front + [i], e)
            == if i !in consumed && Peer(config, txns, rejected, i, e)
               then Peers(config, txns, rejected, consumed, front, e) + [i]
               else Peers(config, txns, rejected, consumed, front, e)
    ensures Peers(config, txns, rejected, consumed, [], e) == []
  {
    assert (front + [i])[..|front|] == front;
  }

  lemma {:induction false} PeersByReference(config: Config, txns: Txns, rejected: set<(TxnId, TxnId)>,
                                            consumed: set<TxnId>, internals: seq<TxnId>, e: TxnId)
    requires e in txns && txns[e].reference != ""
    ensures Peers(config, txns, rejected, consumed, WithReference(txns, internals, txns[e].reference), e)
            == Peers(config, txns, rejected, consumed, internals, e)
  {
    hide Peers, WithReference;
    NoReference(txns);
    if internals != [] {
      var k := |internals| - 1;
      PeersByReference(config, txns, rejected, consumed, internals[..k], e);
      assert internals == internals[..k] + [internals[k]] && internals[..k + 1] == internals;
      ReferenceMore(txns, internals, k);
      PeersMore(config, txns, rejected, consumed, internals[..k], internals[k], e);
      PeersMore(config, txns, rejected, consumed, WithReference(txns, internals[..k], txns[e].reference), internals[k],
                e);
    }
  }

  lemma {:induction false} NoPeersWithoutReference(config: Config, txns: Txns, rejected: set<(TxnId, TxnId)>,
                                                   consumed: set<TxnId>, internals: seq<TxnId>, e: TxnId)
    requires e in txns && txns[e].reference == ""
    ensures Peers(config, txns, rejected, consumed, internals, e) == []
  {
    if internals != [] {
      NoPeersWithoutReference(config, txns, rejected, consumed, internals[..|internals| - 1], e);
    }
  }

  function CrossSteps(pairs: Pairs): (steps: seq<Step>)
    ensures |steps| == |pairs|
  {
    seq(|pairs|, k requires 0 <= k < |pairs| => Pair(pairs[k].0, pairs[k].1, MatchKind.CrossCurrency, AutoMatched))
  }

  /** Where the stage is after k externals. */
  ghost predicate Crossed(config: Config, quotes: Quotes, start: Db, db: Db, internals: seq<TxnId>,
                          externals: seq<TxnId>, k: nat, pairs: Pairs, outcome: Outcome) {
    && k <= |externals|
    && (forall t :: t in internals || t in externals ==> t in start.txns)
    && (forall t :: t in internals ==> t !in externals) && Distinct(externals)
    && StageRun(start, db, CrossSteps(pairs), internals, externals)
    && StageOk(start, db, internals, externals)
    && (forall t :: (t in internals && t !in Firsts(pairs)) || t in externals[k..] ==>
          (Claimed(db, t) <==> Claimed(start, t)))
    && (pairs, outcome) == CrossPairs(config, quotes, start.txns, RejectedRows(start, internals),
                                      ClaimedAmong(start, internals + externals), internals, externals[..k])
  }

  lemma CrossingStarts(config: Config, quotes: Quotes, start: Db, internals: seq<TxnId>, externals: seq<TxnId>)
    requires Valid(start) && Candidates(start, internals) && Candidates(start, externals)
    requires forall t :: t in internals ==> t !in externals
    ensures Crossed(config, quotes, start, start, internals, externals, 0, [], NOTHING)
  {
    hide Valid, Claimed, StageRun, StageOk;
    StageBegins(start, internals, externals);
    assert CrossSteps([]) == [];
    assert externals[..0] == [];
  }

  function VerdictAt(config: Config, quotes: Quotes, txns: Txns, rejected: set<(TxnId, TxnId)>,
                     consumed: set<TxnId>, internals: seq<TxnId>, e: TxnId): Verdict
    requires e in txns
  {
    Judge(config, quotes, txns, Peers(config, txns, rejected, consumed, internals, e), e)
  }

  function Counted(outcome: Outcome, verdict: Verdict): Outcome {
    match verdict
    case NoPeer => outcome
    case Ambiguous => outcome.(ambiguous := outcome.ambiguous + 1)
    case MissingFx => outcome.(missingFx := outcome.missingFx + 1)
    case OutOfTolerance => outcome.(outOfTolerance := outcome.outOfTolerance + 1)
    case Take(_) => outcome.(conflicts := outcome.conflicts + 1)
  }

  /** Nothing is written for the k-th external: its verdict is against it, or a side is claimed. */
  lemma CrossingSkips(config: Config, quotes: Quotes, start: Db, db: Db, internals: seq<TxnId>,
                      externals: seq<TxnId>, k: nat, pairs: Pairs, outcome: Outcome, verdict: Verdict)
    requires Crossed(config, quotes, start, db, internals, externals, k, pairs, outcome) && k < |externals|
    requires externals[k] in start.txns
    requires verdict == VerdictAt(config, quotes, start.txns, RejectedRows(start, internals), Firsts(pairs),
                                  internals, externals[k])
    requires verdict.Take? ==>
               && verdict.internal in internals
               && (Claimed(start, verdict.internal) || Claimed(start, externals[k]))
    ensures Crossed(config, quotes, start, db, internals, externals, k + 1, pairs, Counted(outcome, verdict))
  {
    hide StageRun, StageOk, Judge, Peers, RejectedRows, Claimed, Firsts, Distinct;
    assert externals[..k + 1][..k] == externals[..k];
    assert externals[k] in externals;
    assert forall t :: t in externals[k + 1..] ==> t in externals[k..];
  }

  /** What the loop knows of the internal it is about to take. */
  lemma CrossingTake(config: Config, quotes: Quotes, start: Db, db: Db, internals: seq<TxnId>,
                     externals: seq<TxnId>, k: nat, pairs: Pairs, outcome: Outcome, i: TxnId)
    requires Crossed(config, quotes, start, db, internals, externals, k, pairs, outcome) && k < |externals|
    requires externals[k] in start.txns
    requires i in Peers(config, start.txns, RejectedRows(start, internals), Firsts(pairs), internals, externals[k])
    ensures i in internals && i != externals[k] && i in db.txns && externals[k] in db.txns
    ensures !RejectedPair(start, i, externals[k])
    ensures Claimed(db, i) <==> Claimed(start, i)
    ensures Claimed(db, externals[k]) <==> Claimed(start, externals[k])
  {
    hide StageRun, Claimed, Firsts, Distinct, Valid, CrossPairs, ClaimedAmong;
    assert externals[k] in externals && externals[k] == externals[k..][0];
  }

  lemma CrossingWrites(config: Config, quotes: Quotes, start: Db, db: Db, internals: seq<TxnId>,
                       externals: seq<TxnId>, k: nat, pairs: Pairs, outcome: Outcome, i: TxnId)
    requires Crossed(config, quotes, start, db, internals, externals, k, pairs, outcome) && k < |externals|
    requires externals[k] in start.txns && i in internals && !RejectedPair(start, i, externals[k])
    requires VerdictAt(config, quotes, start.txns, RejectedRows(start, internals), Firsts(pairs),
                       internals, externals[k]) == Take(i)
    requires !Claimed(db, i) && !Claimed(db, externals[k])
    requires !Claimed(start, i) && !Claimed(start, externals[k])
    ensures Crossed(config, quotes, start, WithPair(db, i, externals[k], MatchKind.CrossCurrency, AutoMatched),
                    internals, externals, k + 1, pairs + [(i, externals[k])], outcome.(matched := outcome.matched + 1))
  {
    hide StageRun, StageOk, Judge, Peers, RejectedRows, Claimed, RejectedPair;
    var e := externals[k];
    var db' := WithPair(db, i, e, MatchKind.CrossCurrency, AutoMatched);
    assert e in externals && externals[..k + 1][..k] == externals[..k];
    StagePair(start, db, CrossSteps(pairs), internals, externals, i, e, MatchKind.CrossCurrency, AutoMatched);
    assert CrossSteps(pairs + [(i, e)]) == CrossSteps(pairs) + [Pair(i, e, MatchKind.CrossCurrency, AutoMatched)];
    FirstsMore(pairs, (i, e));
    forall t | (t in internals && t !in Firsts(pairs + [(i, e)])) || t in externals[k + 1..]
      ensures Claimed(db', t) <==> Claimed(start, t)
    {
      PairClaims(db, i, e, MatchKind.CrossCurrency, AutoMatched, t);
      assert t in externals[k + 1..] ==> t in externals[k..] && t in externals && t != e;
    }
  }

  lemma FirstsMore(pairs: Pairs, p: (TxnId, TxnId))
    ensures Firsts(pairs + [p]) == Firsts(pairs) + {p.0}
  {
    assert p in pairs + [p];
  }

  /** CrossCurrencyStrategy.run. */
  method RunCrossCurrency(s: Session, config: Config, quotes: Quotes, internals: seq<TxnId>, externals: seq<TxnId>)
    returns (outcome: Outcome, ghost pairs: Pairs)
    requires Valid(s.State()) && Candidates(s.State(), internals) && Candidates(s.State(), externals)
    requires forall t :: t in internals ==> t !in externals
    modifies s
    ensures forall t :: t in internals || t in externals ==> t in old(s.txns)
    ensures (pairs, outcome) == CrossPairs(config, quotes, old(s.txns), RejectedRows(old(s.State()), internals),
                                           ClaimedAmong(old(s.State()), internals + externals), internals, externals)
    ensures StageRun(old(s.State()), s.State(), CrossSteps(pairs), internals, externals)
    ensures StageOk(old(s.State()), s.State(), internals, externals)
  {
    hide Crossed, StageRun, StageOk, CrossPairs, Claimed, RejectedPair, Valid, RejectedRows, Peers, Agree, LegInr,
         Peer, WithPair, Firsts, Distinct, WithReference, ClaimedAmong;
    ghost var start := s.State();
    var txns := s.txns;
    var byReference := BuildByReference(txns, internals);
    var rejected := RejectedPairs(s, internals);
    var consumed: set<TxnId> := {};
    outcome, pairs := NOTHING, [];
    CrossingStarts(config, quotes, start, internals, externals);
    NoFirsts();
    for k := 0 to |externals|
      invariant Crossed(config, quotes, start, s.State(), internals, externals, k, pairs, outcome)
      invariant consumed == Firsts(pairs)
    {
      var e := externals[k];
      ghost var before := s.State();
      assert e in externals;
      var peers := Peers(config, txns, rejected, consumed, Listed(byReference, txns[e].reference), e);
      PeersListed(config, txns, rejected, consumed, byReference, internals, e);
      PeersKnown(config, txns, rejected, consumed, internals, e);
      var verdict := Judge(config, quotes, txns, peers, e);
      if verdict.Take? {
        var i := verdict.internal;
        TakeIsPeer(config, quotes, txns, peers, e);
        CrossingTake(config, quotes, start, before, internals, externals, k, pairs, outcome, i);
        var written := WritePair(s, i, e, MatchKind.CrossCurrency, AutoMatched);
        if written {
          CrossingWrites(config, quotes, start, before, internals, externals, k, pairs, outcome, i);
          FirstsMore(pairs, (i, e));
          pairs := pairs + [(i, e)];
          outcome := outcome.(matched := outcome.matched + 1);
          consumed := consumed + {i};
        } else {
          CrossingSkips(config, quotes, start, before, internals, externals, k, pairs, outcome, verdict);
          outcome := outcome.(conflicts := outcome.conflicts + 1);
        }
      } else {
        CrossingSkips(config, quotes, start, before, internals, externals, k, pairs, outcome, verdict);
        outcome := Counted(outcome, verdict);
      }
    }
    CrossingEnds(config, quotes, start, s.State(), internals, externals, pairs, outcome);
  }

  lemma CrossingEnds(config: Config, quotes: Quotes, start: Db, db: Db, internals: seq<TxnId>,
                     externals: seq<TxnId>, pairs: Pairs, outcome: Outcome)
    requires Crossed(config, quotes, start, db, internals, externals, |externals|, pairs, outcome)
    ensures forall t :: t in internals || t in externals ==> t in start.txns
    ensures (pairs, outcome) == CrossPairs(config, quotes, start.txns, RejectedRows(start, internals),
                                           ClaimedAmong(start, internals + externals), internals, externals)
    ensures StageRun(start, db, CrossSteps(pairs), internals, externals)
    ensures StageOk(start, db, internals, externals)
  {
    hide StageRun, StageOk;
    assert externals[..|externals|] == externals;
  }

  lemma NoFirsts()
    ensures Firsts([]) == {}
  {
  }

  lemma PeersKnown(config: Config, txns: Txns, rejected: set<(TxnId, TxnId)>, consumed: set<TxnId>,
                   internals: seq<TxnId>, e: TxnId)
    ensures forall i :: i in Peers(config, txns, rejected, consumed, internals, e) ==> i in txns && e in txns
  {
  }

  lemma PeersListed(config: Config, txns: Txns, rejected: set<(TxnId, TxnId)>, consumed: set<TxnId>,
                    index: Index, internals: seq<TxnId>, e: TxnId)
    requires e in txns
    requires forall reference: string ::
               Listed(index, reference) == if reference == "" then [] else WithReference(txns, internals, reference)
    ensures Peers(config, txns, rejected, consumed, Listed(index, txns[e].reference), e)
            == Peers(config, txns, rejected, consumed, internals, e)
  {
    hide Peers, WithReference, Listed;
    NoPeersWithoutReferenceOrPeers(config, txns, rejected, consumed, internals, e);
  }

  lemma NoPeersWithoutReferenceOrPeers(config: Config, txns: Txns, rejected: set<(TxnId, TxnId)>,
                                       consumed: set<TxnId>, internals: seq<TxnId>, e: TxnId)
    requires e in txns
    ensures var listed := if txns[e].reference == "" then [] else WithReference(txns, internals, txns[e].reference);
            Peers(config, txns, rejected, consumed, listed, e) == Peers(config, txns, rejected, consumed, internals, e)
  {
    if txns[e].reference == "" {
      NoPeersWithoutReference(config, txns, rejected, consumed, internals, e);
    } else {
      PeersByReference(config, txns, rejected, consumed, internals, e);
    }
  }

  lemma TakeIsPeer(config: Config, quotes: Quotes, txns: Txns, peers: seq<TxnId>, e: TxnId)
    requires forall i :: i in peers ==> i in txns && e in txns
    requires Judge(config, quotes, txns, peers, e).Take?
    ensures Judge(config, quotes, txns, peers, e).internal in peers
  {
  }
}

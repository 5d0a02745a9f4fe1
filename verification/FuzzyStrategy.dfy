/** The fuzzy strategy at work (src/recon/matching/strategies/fuzzy.py): choose in memory, then write in
    chunks, each one savepoint redone pair by pair when it conflicts. Whatever the chunk size, exactly
    the chosen pairs with both sides unclaimed are written, in order. */
module FuzzyStrategy {
  import opened Ledger
  import opened LedgerInvariant
  import opened Database
  import opened Repository
  import opened Stages
  import opened FuzzyMatching
  import Blocking

  const WRITE_CHUNK := 500

  // ------------------------------------------------------------------- rows first, statuses after

  function Rows(items: seq<Choice>): seq<MatchResult> {
    if items == [] then []
    else
      var last := items[|items| - 1];
      Rows(items[..|items| - 1]) + [MatchResult(Fuzzy, last.status, last.internal, last.external, None)]
  }

  function ClaimsFor(items: seq<Choice>, first: nat): (claims: seq<Claim>)
    ensures forall c :: c in claims ==> c.active
  {
    if items == [] then []
    else
      var last, row := items[|items| - 1], first + |items| - 1;
      ClaimsFor(items[..|items| - 1], first)
      + [Claim(last.internal, Some(row), Internal, true), Claim(last.external, Some(row), External, true)]
  }

  /** The rows and claims of the given pairs, no status changed. */
  function AddRows(db: Db, items: seq<Choice>): Db {
    Db(db.txns, db.results + Rows(items), db.claims + ClaimsFor(items, |db.results|))
  }

  function Marked(txns: map<TxnId, Txn>, c: Choice): map<TxnId, Txn> {
    if c.status == AutoMatched then WithStatus(txns, {c.internal, c.external}, Matched) else txns
  }

  function MarkAll(txns: map<TxnId, Txn>, items: seq<Choice>): map<TxnId, Txn> {
    if items == [] then txns else Marked(MarkAll(txns, items[..|items| - 1]), items[|items| - 1])
  }

  lemma RowsMore(items: seq<Choice>, c: Choice, first: nat)
    ensures Rows(items + [c]) == Rows(items) + [MatchResult(Fuzzy, c.status, c.internal, c.external, None)]
    ensures ClaimsFor(items + [c], first)
            == ClaimsFor(items, first) + [Claim(c.internal, Some(first + |items|), Internal, true),
                                          Claim(c.external, Some(first + |items|), External, true)]
  {
    assert (items + [c])[..|items|] == items;
  }

  lemma {:induction false} RowsCount(items: seq<Choice>)
    ensures |Rows(items)| == |items|
  {
    if items != [] {
      RowsCount(items[..|items| - 1]);
    }
  }

  lemma NoRows(db: Db)
    ensures AddRows(db, []) == db
  {
  }

  lemma AddRowsMore(db: Db, items: seq<Choice>, c: Choice)
    ensures AddRows(AddRows(db, items), [c]) == AddRows(db, items + [c])
  {
    RowsCount(items);
    RowsMore(items, c, |db.results|);
    RowsMore([], c, |db.results| + |items|);
    assert [] + [c] == [c];
  }

  /** Writing all rows and then setting all statuses is writing the pairs one after the other. */
  lemma {:induction false} RowsThenStatuses(db: Db, items: seq<Choice>)
    requires forall c :: c in items ==> c.status == AutoMatched || c.status == PendingReview
    ensures ApplyAll(db, FuzzySteps(items)) == AddRows(db, items).(txns := MarkAll(db.txns, items))
  {
    if items == [] {
      NoRows(db);
      FuzzyStepsMore(items, Choice(0, 0, AutoMatched));
    } else {
      var front, last := items[..|items| - 1], items[|items| - 1];
      assert items == front + [last] && last in items;
      RowsThenStatuses(db, front);
      FuzzyStepsMore(front, last);
      OneMore(db, FuzzySteps(front), Pair(last.internal, last.external, Fuzzy, last.status));
      RowsMore(front, last, |db.results|);
      RowsCount(front);
      hide FuzzySteps, Rows, ClaimsFor, WithStatus;
      assert MarkAll(db.txns, items) == Marked(MarkAll(db.txns, front), last);
    }
  }

  // ------------------------------------------------------------------- one chunk

  /** No transaction is internal in one pair and external in another. */
  ghost predicate TwoSided(items: seq<Choice>) {
    forall j, k :: 0 <= j < |items| && 0 <= k < |items| ==> items[j].internal != items[k].external
  }

  lemma {:induction false} ClaimIds(items: seq<Choice>, first: nat)
    ensures ToSet(ClaimedIds(ClaimsFor(items, first))) == SidesOf(items)
    ensures Apart(items) && TwoSided(items) ==> Distinct(ClaimedIds(ClaimsFor(items, first)))
  {
    if items != [] {
      var front, last := items[..|items| - 1], items[|items| - 1];
      assert items == front + [last];
      ClaimIds(front, first);
      RowsMore(front, last, first);
      var ids := ClaimedIds(ClaimsFor(front, first));
      assert ClaimedIds(ClaimsFor(items, first)) == ids + [last.internal, last.external];
      SidesMore(front, last);
      if Apart(items) && TwoSided(items) {
        LastIsNew(front, last);
        assert forall t :: t in ids <==> t in SidesOf(front);
        DistinctMore(ids, last.internal, last.external);
      }
    }
  }

  lemma LastIsNew(front: seq<Choice>, last: Choice)
    requires Apart(front + [last]) && TwoSided(front + [last])
    ensures Apart(front) && TwoSided(front) && last.internal != last.external
    ensures last.internal !in SidesOf(front) && last.external !in SidesOf(front)
  {
    var items := front + [last];
    assert items[|front|] == last && forall k :: 0 <= k < |front| ==> items[k] == front[k];
    forall c | c in front
      ensures c.internal != last.internal && c.external != last.external
      ensures c.internal != last.external && c.external != last.internal
    {
      var k :| 0 <= k < |front| && front[k] == c;
      assert items[k] == c;
    }
  }

  lemma DistinctMore(ids: seq<TxnId>, a: TxnId, b: TxnId)
    requires Distinct(ids) && a !in ids && b !in ids && a != b
    ensures Distinct(ids + [a, b])
  {
  }

  lemma ChunkConflicts(db: Db, items: seq<Choice>)
    requires Apart(items) && TwoSided(items)
    ensures Conflicts(db, ClaimedIds(ClaimsFor(items, |db.results|)))
            <==> exists t :: t in SidesOf(items) && Claimed(db, t)
  {
    hide Claimed, ClaimedIds, ClaimsFor, SidesOf;
    ClaimIds(items, |db.results|);
    var ids := ClaimedIds(ClaimsFor(items, |db.results|));
    assert forall k :: 0 <= k < |ids| ==> ids[k] in ToSet(ids);
    if t :| t in SidesOf(items) && Claimed(db, t) {
      assert t in ToSet(ids);
      var k :| 0 <= k < |ids| && ids[k] == t;
      assert Claimed(db, ids[k]);
    }
  }

  lemma RowsClaim(db: Db, items: seq<Choice>, t: TxnId)
    ensures Claimed(AddRows(db, items), t) <==> Claimed(db, t) || t in SidesOf(items)
  {
    hide Claimed, ClaimsFor, SidesOf;
    var batch := ClaimsFor(items, |db.results|);
    ClaimIds(items, |db.results|);
    ClaimedAfter(db, batch, |batch|, t);
    assert batch[..|batch|] == batch && ClaimedIds(batch)[..|batch|] == ClaimedIds(batch);
    SameClaims(AddRows(db, items), db.(claims := db.claims + batch), t);
    assert t in ClaimedIds(batch) <==> t in ToSet(ClaimedIds(batch));
  }

  lemma SameClaims(a: Db, b: Db, t: TxnId)
    requires a.claims == b.claims
    ensures Claimed(a, t) <==> Claimed(b, t)
  {
  }

  /** _write_chunk: all pairs of the chunk in one savepoint, or none. */
  method WriteChunk(s: Session, chunk: seq<Choice>) returns (written: bool)
    requires Apart(chunk) && TwoSided(chunk)
    modifies s`results, s`claims
    ensures written <==> forall t :: t in SidesOf(chunk) ==> !Claimed(old(s.State()), t)
    ensures s.State() == if written then AddRows(old(s.State()), chunk) else old(s.State())
  {
    hide Conflicts, Claimed, SidesOf, ClaimsFor, Rows;
    var savepoint := s.results;
    ghost var start := s.State();
    ChunkConflicts(start, chunk);
    s.results := s.results + Rows(chunk);
    ghost var before := s.State();
    SameConflicts(start, before, ClaimedIds(ClaimsFor(chunk, |savepoint|)));
    written := InsertClaims(s, ClaimsFor(chunk, |savepoint|));
    if !written {
      s.results := savepoint;
    }
  }

  lemma SameConflicts(a: Db, b: Db, ids: seq<TxnId>)
    requires a.claims == b.claims
    ensures Conflicts(a, ids) <==> Conflicts(b, ids)
  {
  }

  /** _write_one: claim the pair, write the row, attach the claims to it. */
  method WriteOne(s: Session, c: Choice) returns (written: bool)
    requires c.internal != c.external
    modifies s`results, s`claims
    ensures written <==> !Claimed(old(s.State()), c.internal) && !Claimed(old(s.State()), c.external)
    ensures s.State() == if written then AddRows(old(s.State()), [c]) else old(s.State())
  {
    hide Claimed, Rows, ClaimsFor;
    ghost var start := s.State();
    var first, row := |s.claims|, |s.results|;
    var wanted := [(c.internal, Internal), (c.external, External)];
    assert Ids(wanted) == [c.internal, c.external];
    PairConflicts(start, c.internal, c.external);
    written := ClaimAll(s, wanted);
    if !written {
      return;
    }
    s.results := s.results + [MatchResult(Fuzzy, c.status, c.internal, c.external, None)];
    Finalise(s, first, row);
    Finalise(s, first + 1, row);
    RowsMore([], c, row);
    NoRows(start);
    assert [] + [c] == [c];
    assert s.claims == start.claims + [Claim(c.internal, Some(row), Internal, true),
                                       Claim(c.external, Some(row), External, true)];
  }

  lemma PairConflicts(db: Db, a: TxnId, b: TxnId)
    requires a != b
    ensures Conflicts(db, [a, b]) <==> Claimed(db, a) || Claimed(db, b)
  {
    hide Claimed;
    assert [a, b][0] == a && [a, b][1] == b;
  }

  lemma UnclaimedMore(db: Db, items: seq<Choice>, k: nat)
    requires k < |items|
    ensures Unclaimed(db, items[..k + 1])
            == (if Claimed(db, items[k].internal) || Claimed(db, items[k].external) then Unclaimed(db, items[..k])
                else Unclaimed(db, items[..k]) + [items[k]])
    ensures Unclaimed(db, items[..0]) == []
  {
    hide Claimed;
    assert items[..k + 1][..k] == items[..k];
  }

  lemma {:induction false} AllUnclaimed(db: Db, items: seq<Choice>)
    requires forall t :: t in SidesOf(items) ==> !Claimed(db, t)
    ensures Unclaimed(db, items) == items
  {
    hide Claimed;
    if items != [] {
      var front, last := items[..|items| - 1], items[|items| - 1];
      assert items == front + [last];
      SidesMore(front, last);
      AllUnclaimed(db, front);
    }
  }

  /** The pair at position k shares no side with the pairs before it. */
  lemma NewSides(items: seq<Choice>, k: nat, kept: seq<Choice>)
    requires Apart(items) && TwoSided(items) && k < |items| && forall c :: c in kept ==> c in items[..k]
    ensures items[k].internal !in SidesOf(kept) && items[k].external !in SidesOf(kept)
    ensures items[k].internal != items[k].external
  {
    forall c | c in kept
      ensures c.internal != items[k].internal && c.external != items[k].external
      ensures c.internal != items[k].external && c.external != items[k].internal
    {
      var j :| 0 <= j < k && items[..k][j] == c;
      assert items[j] == c;
    }
  }

  /** A chunk as a whole or, on a conflict, pair by pair: either way the pairs with both sides
      unclaimed. */
  method WriteSome(s: Session, chunk: seq<Choice>) returns (written: seq<bool>)
    requires Apart(chunk) && TwoSided(chunk)
    modifies s`results, s`claims
    ensures s.State() == AddRows(old(s.State()), Unclaimed(old(s.State()), chunk))
    ensures |written| == |chunk|
    ensures forall k :: 0 <= k < |chunk| ==>
              (written[k] <==>
                !Claimed(old(s.State()), chunk[k].internal) && !Claimed(old(s.State()), chunk[k].external))
  {
    hide Claimed, SidesOf, AddRows, Unclaimed, Apart, TwoSided;
    ghost var start := s.State();
    var batch := WriteChunk(s, chunk);
    if batch {
      AllUnclaimed(start, chunk);
      SidesListed(chunk);
      return seq(|chunk|, k => true);
    }
    written := [];
    NoRows(start);
    EmptyUnclaimed(start, chunk[..0]);
    for k := 0 to |chunk|
      invariant s.txns == start.txns
      invariant s.State() == AddRows(start, Unclaimed(start, chunk[..k]))
      invariant |written| == k
      invariant forall j :: 0 <= j < k ==>
                  (written[j] <==> !Claimed(start, chunk[j].internal) && !Claimed(start, chunk[j].external))
    {
      var c := chunk[k];
      ghost var kept := Unclaimed(start, chunk[..k]);
      NewSides(chunk, k, kept);
      RowsClaim(start, kept, c.internal);
      RowsClaim(start, kept, c.external);
      UnclaimedMore(start, chunk, k);
      AddRowsMore(start, kept, c);
      var one := WriteOne(s, c);
      written := written + [one];
    }
    assert chunk[..|chunk|] == chunk;
  }

  lemma EmptyUnclaimed(db: Db, items: seq<Choice>)
    requires items == []
    ensures Unclaimed(db, items) == []
  {
  }

  lemma SidesListed(items: seq<Choice>)
    ensures forall k :: 0 <= k < |items| ==> items[k].internal in SidesOf(items) && items[k].external in SidesOf(items)
  {
    forall k | 0 <= k < |items| ensures items[k].internal in SidesOf(items) && items[k].external in SidesOf(items) {
      assert items[k] in items;
    }
  }

  datatype Outcome = Outcome(auto: nat, review: nat, conflicts: nat)

  function AutoCount(items: seq<Choice>): (n: nat)
    ensures n <= |items|
  {
    if items == [] then 0
    else AutoCount(items[..|items| - 1]) + (if items[|items| - 1].status == AutoMatched then 1 else 0)
  }

  /** What the counters say of the pairs seen and the pairs written. */
  function Tally(seen: nat, written: seq<Choice>): Outcome
    requires |written| <= seen
  {
    Outcome(AutoCount(written), |written| - AutoCount(written), seen - |written|)
  }

  lemma TallyMore(seen: nat, written: seq<Choice>, c: Choice)
    requires |written| <= seen
    ensures var o := Tally(seen, written);
            && Tally(seen + 1, written) == o.(conflicts := o.conflicts + 1)
            && Tally(seen + 1, written + [c])
               == if c.status == AutoMatched then o.(auto := o.auto + 1) else o.(review := o.review + 1)
    ensures Tally(0, []) == Outcome(0, 0, 0)
  {
    MarkMore(map[], written, c);
  }

  /** The status changes of one written pair. */
  method MarkOne(s: Session, c: Choice)
    requires c.internal in s.txns && c.external in s.txns
    modifies s`txns
    ensures s.txns == Marked(old(s.txns), c) && s.txns.Keys == old(s.txns).Keys
  {
    hide WithStatus;
    KeysStay(s.txns, {c.internal, c.external}, Matched);
    if c.status == AutoMatched {
      SetStatuses(s, {c.internal, c.external}, Matched);
    }
  }

  /** The loop over the written flags of one chunk: statuses and counters. */
  method SetChunkStatuses(s: Session, ghost start: Db, chunk: seq<Choice>, written: seq<bool>) returns (o: Outcome)
    requires |written| == |chunk| && forall c :: c in chunk ==> c.internal in s.txns && c.external in s.txns
    requires forall k :: 0 <= k < |chunk| ==>
               (written[k] <==> !Claimed(start, chunk[k].internal) && !Claimed(start, chunk[k].external))
    modifies s`txns
    ensures s.txns == MarkAll(old(s.txns), Unclaimed(start, chunk))
    ensures |Unclaimed(start, chunk)| <= |chunk| && o == Tally(|chunk|, Unclaimed(start, chunk))
  {
    hide Claimed, Unclaimed, Marked, MarkAll, Tally;
    o := Outcome(0, 0, 0);
    EmptyUnclaimed(start, chunk[..0]);
    TallyMore(0, [], Choice(0, 0, AutoMatched));
    NothingMarked(s.txns);
    for k := 0 to |chunk|
      invariant s.txns.Keys == old(s.txns).Keys
      invariant s.txns == MarkAll(old(s.txns), Unclaimed(start, chunk[..k]))
      invariant |Unclaimed(start, chunk[..k])| <= k && o == Tally(k, Unclaimed(start, chunk[..k]))
    {
      var c := chunk[k];
      ghost var kept := Unclaimed(start, chunk[..k]);
      UnclaimedMore(start, chunk, k);
      MarkMore(old(s.txns), kept, c);
      TallyMore(k, kept, c);
      assert c in chunk;
      if !written[k] {
        o := o.(conflicts := o.conflicts + 1);
      } else {
        MarkOne(s, c);
        o := if c.status == AutoMatched then o.(auto := o.auto + 1) else o.(review := o.review + 1);
      }
    }
    assert chunk[..|chunk|] == chunk;
  }

  lemma NothingMarked(txns: map<TxnId, Txn>)
    ensures MarkAll(txns, []) == txns
  {
  }

  lemma KeysStay(txns: map<TxnId, Txn>, ids: set<TxnId>, status: TxnStatus)
    ensures WithStatus(txns, ids, status).Keys == txns.Keys
  {
  }

  lemma MarkMore(txns: map<TxnId, Txn>, items: seq<Choice>, c: Choice)
    ensures MarkAll(txns, items + [c]) == Marked(MarkAll(txns, items), c)
    ensures AutoCount(items + [c]) == AutoCount(items) + (if c.status == AutoMatched then 1 else 0)
  {
    hide WithStatus;
    assert (items + [c])[..|items|] == items;
  }

  /** One round of phase 2. */
  method WriteAndMark(s: Session, chunk: seq<Choice>) returns (o: Outcome)
    requires Apart(chunk) && TwoSided(chunk)
    requires forall c :: c in chunk ==>
               && c.internal in s.txns && c.external in s.txns && (c.status == AutoMatched || c.status == PendingReview)
    modifies s
    ensures s.State() == ApplyAll(old(s.State()), FuzzySteps(Unclaimed(old(s.State()), chunk)))
    ensures |Unclaimed(old(s.State()), chunk)| <= |chunk|
    ensures o == Tally(|chunk|, Unclaimed(old(s.State()), chunk))
  {
    hide Claimed, Unclaimed, MarkAll, Apart, TwoSided, Rows, ClaimsFor;
    ghost var start := s.State();
    var written := WriteSome(s, chunk);
    o := SetChunkStatuses(s, start, chunk, written);
    RowsThenStatuses(start, Unclaimed(start, chunk));
  }

  // ------------------------------------------------------------------- the whole stage

  /** Phase 1. */
  method ChooseAll(config: Blocking.Config, score: Scorer, txns: Txns, rejected: Rejections,
                   indexes: Blocking.Indexes, internals: seq<TxnId>, externals: seq<TxnId>)
    returns (chosen: seq<Choice>)
    requires Blocking.Usable(config) && Blocking.IndexesOf(config, txns, indexes, internals)
    requires forall t :: t in externals ==> t in txns
    ensures chosen == Chosen(config, score, txns, rejected, internals, externals)
  {
    hide Blocking.IndexesOf, Chosen, Best, Blocking.Union, Blocking.BlockedSet;
    var consumed: set<TxnId> := {};
    chosen := [];
    NothingChosen(config, score, txns, rejected, internals, externals[..0]);
    for k := 0 to |externals|
      invariant chosen == Chosen(config, score, txns, rejected, internals, externals[..k])
      invariant consumed == Internals(chosen)
    {
      var e := externals[k];
      var offered := Blocking.Generate(config, txns, indexes, internals, e);
      var available := StillAvailable(offered.value.ids, rejected, consumed, e);
      var best := Best(score, available, e);
      ChosenMore(config, score, txns, rejected, internals, externals, k);
      if best.Some? {
        InternalsMore(chosen, Choice(best.value, e, DecidedStatus(score(best.value, e).decision)));
        consumed := consumed + {best.value};
        chosen := chosen + [Choice(best.value, e, DecidedStatus(score(best.value, e).decision))];
      }
    }
    assert externals[..|externals|] == externals;
  }

  lemma {:induction false} UnclaimedSame(a: Db, b: Db, items: seq<Choice>)
    requires forall c :: c in items ==>
               && (Claimed(a, c.internal) <==> Claimed(b, c.internal))
               && (Claimed(a, c.external) <==> Claimed(b, c.external))
    ensures Unclaimed(a, items) == Unclaimed(b, items)
  {
    hide Claimed;
    if items != [] {
      UnclaimedSame(a, b, items[..|items| - 1]);
    }
  }

  lemma {:induction false} UnclaimedAppend(db: Db, a: seq<Choice>, b: seq<Choice>)
    ensures Unclaimed(db, a + b) == Unclaimed(db, a) + Unclaimed(db, b)
    decreases b
  {
    hide Claimed;
    if b == [] {
      assert a + b == a;
    } else {
      UnclaimedAppend(db, a, b[..|b| - 1]);
      assert (a + b)[..|a + b| - 1] == a + b[..|b| - 1];
    }
  }

  lemma {:induction false} CountAppend(a: seq<Choice>, b: seq<Choice>)
    ensures AutoCount(a + b) == AutoCount(a) + AutoCount(b)
    ensures FuzzySteps(a + b) == FuzzySteps(a) + FuzzySteps(b)
    decreases b
  {
    if b == [] {
      assert a + b == a;
    } else {
      CountAppend(a, b[..|b| - 1]);
      assert (a + b)[..|a + b| - 1] == a + b[..|b| - 1];
    }
  }

  /** All that phase 2 needs to know of the choices. */
  ghost predicate Ready(start: Db, internals: seq<TxnId>, externals: seq<TxnId>, chosen: seq<Choice>) {
    && Valid(start) && Candidates(start, internals) && Candidates(start, externals)
    && (forall t :: t in internals ==> t !in externals)
    && Apart(chosen) && TwoSided(chosen)
    && (forall c :: c in chosen ==>
          && c.internal in internals && c.external in externals && !RejectedPair(start, c.internal, c.external)
          && (c.status == AutoMatched || c.status == PendingReview))
  }

  /** Where phase 2 is after the first `done` choices. */
  ghost predicate Writing(start: Db, db: Db, chosen: seq<Choice>, done: nat, o: Outcome) {
    && done <= |chosen|
    && db == ApplyAll(start, FuzzySteps(Unclaimed(start, chosen[..done])))
    && |Unclaimed(start, chosen[..done])| <= done
    && o == Tally(done, Unclaimed(start, chosen[..done]))
  }

  lemma {:induction false} ReadyPrefix(start: Db, internals: seq<TxnId>, externals: seq<TxnId>, chosen: seq<Choice>,
                                       n: nat)
    requires Ready(start, internals, externals, chosen) && n <= |chosen|
    ensures var db := ApplyAll(start, FuzzySteps(Unclaimed(start, chosen[..n])));
            && StageRun(start, db, FuzzySteps(Unclaimed(start, chosen[..n])), internals, externals)
            && StageOk(start, db, internals, externals)
            && (forall t: TxnId :: Claimed(db, t) <==> Claimed(start, t) || t in SidesOf(Unclaimed(start, chosen[..n])))
  {
    hide Claimed, Valid, Candidates, RejectedPair, StageRun, StageOk, FuzzySteps, SidesOf;
    UnclaimedApart(start, chosen[..n]);
    WriteAll(start, internals, externals, Unclaimed(start, chosen[..n]));
  }

  /** What a chunk finds unclaimed is what was unclaimed when the stage began. */
  lemma ChunkUnclaimed(start: Db, internals: seq<TxnId>, externals: seq<TxnId>, chosen: seq<Choice>, from: nat, to: nat)
    requires Ready(start, internals, externals, chosen) && from <= to <= |chosen|
    ensures var db := ApplyAll(start, FuzzySteps(Unclaimed(start, chosen[..from])));
            Unclaimed(db, chosen[from..to]) == Unclaimed(start, chosen[from..to])
  {
    hide Claimed, Valid, Candidates, RejectedPair, FuzzySteps, StageRun, StageOk, Unclaimed;
    ReadyPrefix(start, internals, externals, chosen, from);
    var db := ApplyAll(start, FuzzySteps(Unclaimed(start, chosen[..from])));
    forall c | c in chosen[from..to]
      ensures (Claimed(db, c.internal) <==> Claimed(start, c.internal))
              && (Claimed(db, c.external) <==> Claimed(start, c.external))
    {
      var j :| 0 <= j < to - from && chosen[from..to][j] == c;
      EarlierIsOther(chosen, from, from + j, Unclaimed(start, chosen[..from]));
    }
    UnclaimedSame(db, start, chosen[from..to]);
  }

  lemma EarlierIsOther(chosen: seq<Choice>, from: nat, k: nat, kept: seq<Choice>)
    requires Apart(chosen) && TwoSided(chosen) && from <= k < |chosen| && forall c :: c in kept ==> c in chosen[..from]
    ensures chosen[k].internal !in SidesOf(kept) && chosen[k].external !in SidesOf(kept)
  {
    assert forall c :: c in chosen[..from] ==> c in chosen[..k];
    NewSides(chosen, k, kept);
  }

  lemma TallyAppend(m: nat, a: seq<Choice>, n: nat, b: seq<Choice>)
    requires |a| <= m && |b| <= n
    ensures var x, y := Tally(m, a), Tally(n, b);
            Tally(m + n, a + b) == Outcome(x.auto + y.auto, x.review + y.review, x.conflicts + y.conflicts)
  {
    CountAppend(a, b);
  }

  /** What is written of two stretches of choices, one after the other. */
  lemma StretchesCompose(start: Db, chosen: seq<Choice>, from: nat, to: nat)
    requires from <= to <= |chosen|
    ensures var a, b := Unclaimed(start, chosen[..from]), Unclaimed(start, chosen[from..to]);
            && Unclaimed(start, chosen[..to]) == a + b
            && ApplyAll(start, FuzzySteps(a + b)) == ApplyAll(ApplyAll(start, FuzzySteps(a)), FuzzySteps(b))
  {
    hide *;
    var a, b := Unclaimed(start, chosen[..from]), Unclaimed(start, chosen[from..to]);
    UnclaimedAppend(start, chosen[..from], chosen[from..to]);
    assert chosen[..from] + chosen[from..to] == chosen[..to];
    CountAppend(a, b);
    StepsCompose(start, FuzzySteps(a), FuzzySteps(b));
  }

  lemma WritingMore(start: Db, db: Db, after: Db, internals: seq<TxnId>, externals: seq<TxnId>,
                    chosen: seq<Choice>, from: nat, to: nat, o: Outcome)
    requires Ready(start, internals, externals, chosen) && from <= to
    requires Writing(start, db, chosen, from, o) && to <= |chosen|
    requires after == ApplyAll(db, FuzzySteps(Unclaimed(db, chosen[from..to])))
    requires |Unclaimed(db, chosen[from..to])| <= to - from
    ensures var more := Tally(to - from, Unclaimed(db, chosen[from..to]));
            Writing(start, after, chosen, to,
                    Outcome(o.auto + more.auto, o.review + more.review, o.conflicts + more.conflicts))
  {
    hide Ready, FuzzySteps, Unclaimed, Tally, ApplyAll;
    ChunkUnclaimed(start, internals, externals, chosen, from, to);
    StretchesCompose(start, chosen, from, to);
    TallyAppend(from, Unclaimed(start, chosen[..from]), to - from, Unclaimed(start, chosen[from..to]));
  }

  /** Phase 2, for any chunk size. */
  method WriteInChunks(s: Session, chunkSize: nat, ghost internals: seq<TxnId>, ghost externals: seq<TxnId>,
                       chosen: seq<Choice>)
    returns (o: Outcome)
    requires chunkSize > 0 && Ready(s.State(), internals, externals, chosen)
    modifies s
    ensures Writing(old(s.State()), s.State(), chosen, |chosen|, o)
  {
    hide Ready, Writing, Unclaimed, Apart, TwoSided, FuzzySteps;
    ghost var start := s.State();
    o := Outcome(0, 0, 0);
    var done := 0;
    WritingStarts(start, chosen);
    while done < |chosen|
      invariant done <= |chosen|
      invariant Writing(start, s.State(), chosen, done, o)
    {
      var stop := if done + chunkSize < |chosen| then done + chunkSize else |chosen|;
      ghost var before := s.State();
      ChunkIsReady(start, before, internals, externals, chosen, done, stop, o);
      var more := WriteAndMark(s, chosen[done..stop]);
      WritingMore(start, before, s.State(), internals, externals, chosen, done, stop, o);
      o := Outcome(o.auto + more.auto, o.review + more.review, o.conflicts + more.conflicts);
      done := stop;
    }
  }

  lemma WritingStarts(start: Db, chosen: seq<Choice>)
    ensures Writing(start, start, chosen, 0, Outcome(0, 0, 0))
  {
    EmptyUnclaimed(start, chosen[..0]);
    assert FuzzySteps([]) == [];
  }

  lemma ChunkIsReady(start: Db, db: Db, internals: seq<TxnId>, externals: seq<TxnId>,
                     chosen: seq<Choice>, from: nat, to: nat, o: Outcome)
    requires Ready(start, internals, externals, chosen) && from <= to <= |chosen|
    requires Writing(start, db, chosen, from, o)
    ensures Apart(chosen[from..to]) && TwoSided(chosen[from..to])
    ensures forall c :: c in chosen[from..to] ==>
              && c.internal in db.txns && c.external in db.txns
              && (c.status == AutoMatched || c.status == PendingReview)
  {
    hide Claimed, Valid, RejectedPair, FuzzySteps, StageRun, Unclaimed;
    ReadyPrefix(start, internals, externals, chosen, from);
    assert forall c :: c in chosen[from..to] ==> c in chosen;
  }

  /** FuzzyMatchingStrategy.run. None when the blocking settings raise, before anything is written. */
  method RunFuzzy(s: Session, config: Blocking.Config, score: Scorer, chunkSize: nat,
                  internals: seq<TxnId>, externals: seq<TxnId>)
    returns (outcome: Option<Outcome>, chosen: seq<Choice>, ghost written: seq<Choice>)
    requires chunkSize > 0
    requires Valid(s.State()) && Candidates(s.State(), internals) && Candidates(s.State(), externals)
    requires forall t :: t in internals ==> t !in externals
    modifies s
    ensures outcome == None <==> (internals != [] || externals != []) && !Blocking.Usable(config)
    ensures chosen == if Blocking.Usable(config)
                      then Chosen(config, score, old(s.txns), RejectedRows(old(s.State()), internals), internals,
                                  externals)
                      else []
    ensures written == Unclaimed(old(s.State()), chosen) && |written| <= |chosen|
    ensures forall c :: c in written ==> AsDecided(score, c)
    ensures outcome.Some? ==> outcome.value == Tally(|chosen|, written)
    ensures outcome.Some? ==>
              && outcome.value.auto == CountOf(score, written, AutoMatch)
              && outcome.value.review == CountOf(score, written, Review)
              && outcome.value.conflicts == |chosen| - |written|
    ensures StageRun(old(s.State()), s.State(), FuzzySteps(written), internals, externals)
    ensures StageOk(old(s.State()), s.State(), internals, externals)
  {
    hide Claimed, Valid, Distinct, RejectedRows, RejectedPair, Blocking.IndexesOf, Chosen, Unclaimed, StageRun, StageOk,
         FuzzySteps, Ready, Writing;
    ghost var start := s.State();
    var indexes := Blocking.BuildIndexes(config, s.txns, internals);
    var rejected := RejectedPairs(s, internals);
    chosen, written, outcome := [], [], None;
    StageBegins(start, internals, externals);
    EmptyUnclaimed(start, chosen);
    FuzzyStepsMore([], Choice(0, 0, AutoMatched));
    if indexes == None {
      return;
    }
    if !Blocking.Usable(config) {
      if externals == [] {
        outcome := Some(Outcome(0, 0, 0));
      }
      return;
    }
    chosen := ChooseAll(config, score, s.txns, rejected, indexes.value, internals, externals);
    ChoicesAreReady(config, score, start, internals, externals);
    var o := WriteInChunks(s, chunkSize, internals, externals, chosen);
    written := Unclaimed(start, chosen);
    PhasesEnd(start, s.State(), internals, externals, chosen, o);
    outcome := Some(o);
    ChoicesAreAsDecided(config, score, old(s.txns), RejectedRows(start, internals), internals, externals);
    CountsByDecision(score, |chosen|, written);
  }

  /** The counters of what was written count decisions. */
  lemma {:induction false} CountsByDecision(score: Scorer, seen: nat, written: seq<Choice>)
    requires |written| <= seen && forall c :: c in written ==> AsDecided(score, c)
    ensures Tally(seen, written).auto == CountOf(score, written, AutoMatch)
    ensures Tally(seen, written).review == CountOf(score, written, Review)
    decreases |written|
  {
    if written != [] {
      var front, last := written[..|written| - 1], written[|written| - 1];
      assert last in written && forall c :: c in front ==> c in written;
      CountsByDecision(score, seen, front);
    }
  }

  lemma ChoicesAreReady(config: Blocking.Config, score: Scorer, start: Db, internals: seq<TxnId>, externals: seq<TxnId>)
    requires Blocking.Usable(config)
    requires Valid(start) && Candidates(start, internals) && Candidates(start, externals)
    requires forall t :: t in internals ==> t !in externals
    ensures Ready(start, internals, externals,
                  Chosen(config, score, start.txns, RejectedRows(start, internals), internals, externals))
  {
    hide Valid, RejectedPair, Chosen;
    var rejected := RejectedRows(start, internals);
    ChoicesAreApart(config, score, start.txns, rejected, internals, externals, |externals|);
    assert externals[..|externals|] == externals;
    var chosen := Chosen(config, score, start.txns, rejected, internals, externals);
    assert forall k :: 0 <= k < |chosen| ==> chosen[k] in chosen;
  }

  lemma PhasesEnd(start: Db, db: Db, internals: seq<TxnId>, externals: seq<TxnId>, chosen: seq<Choice>, o: Outcome)
    requires Ready(start, internals, externals, chosen) && Writing(start, db, chosen, |chosen|, o)
    ensures var written := Unclaimed(start, chosen);
            && StageRun(start, db, FuzzySteps(written), internals, externals)
            && StageOk(start, db, internals, externals)
            && |written| <= |chosen| && o == Tally(|chosen|, written)
  {
    hide Claimed, Ready, FuzzySteps, StageRun, StageOk, Unclaimed;
    ReadyPrefix(start, internals, externals, chosen, |chosen|);
    assert chosen[..|chosen|] == chosen;
  }
}

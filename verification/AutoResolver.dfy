/** Tier 1 auto-resolution of exceptions (src/recon/excmgmt/autoresolve/resolver.py). */
module AutoResolver {
  import opened Ledger
  import opened LedgerInvariant
  import opened LedgerLaws
  import opened Database
  import opened Review

  datatype Category =
    | DuplicateInternal | FeeDeduction | TimezoneOffset | ReferenceTruncated
    | DateMismatch | AmountMismatch | PartialMatch | NettedSettlement | OtherCategory

  datatype ExceptionStatus = Open | Resolved

  /** An exception with the affected records its action reads. */
  datatype Exception = Exception(
    bank: string,
    runId: string,
    category: Category,
    status: ExceptionStatus,
    tier: nat,
    internal: TxnId,
    external: TxnId,
    result: Option<nat>,
    copy: TxnId,
    original: TxnId)

  datatype Adjustment = Adjustment(exception: nat, internal: TxnId, external: TxnId, amount: int)

  predicate HasRule(c: Category) {
    c in {AmountMismatch, DateMismatch, TimezoneOffset, ReferenceTruncated, FeeDeduction}
  }

  /** What the action comes to in a given ledger: nothing can be done safely, nothing needs to be
      done, or one step. */
  datatype Plan = Escalate | NothingToDo | Do(step: Step)

  function Carried(db: Db, plan: Plan): Db {
    if plan.Do? then Apply(db, plan.step) else db
  }

  predicate Chosen(ex: Exception, bank: string, runId: Option<string>) {
    ex.bank == bank && ex.status == Open && ex.tier == 1 && (runId.Some? ==> ex.runId == runId.value)
  }

  function PlanFor(db: Db, ex: Exception): Plan {
    if ex.category == DuplicateInternal then
      if Free(db, ex.copy) then Do(Void(ex.copy, ex.original)) else Escalate
    else if ex.category == PartialMatch || ex.category == NettedSettlement then NothingToDo
    else if !HasRule(ex.category) || ex.internal !in db.txns || ex.external !in db.txns then Escalate
    else if ex.result.Some? then PlanForResult(db, ex.result.value)
    else if Free(db, ex.internal) && Free(db, ex.external) && ex.internal != ex.external
            && !RejectedPair(db, ex.internal, ex.external)
    then Do(Pair(ex.internal, ex.external, Rule, AutoMatched))
    else Escalate
  }

  function PlanForResult(db: Db, r: nat): Plan {
    if r >= |db.results| then Escalate
    else match db.results[r].status
      case PendingReview => if ReviewConsistent(db, r) then Do(Confirm(r)) else Escalate
      case Rejected => Escalate
      case _ => NothingToDo
  }

  /** Every step the resolver takes is one the ledger allows: it never makes a pair a person
      rejected, never voids a claimed or matched row, and decides only what is pending. */
  lemma PlansAreEnabled(db: Db, ex: Exception)
    requires PlanFor(db, ex).Do?
    ensures Enabled(db, PlanFor(db, ex).step)
  {
  }

  /** In a reachable ledger, an exception naming a live row is never escalated for that row. */
  lemma LiveRowsAreSettled(db: Db, ex: Exception)
    requires Valid(db) && HasRule(ex.category) && ex.internal in db.txns && ex.external in db.txns
    requires ex.result.Some? && ex.result.value < |db.results|
    ensures PlanFor(db, ex) == Escalate <==> db.results[ex.result.value].status == Rejected
  {
    hide Valid;
    if db.results[ex.result.value].status == PendingReview {
      PendingIsConsistent(db, ex.result.value);
    }
  }

  class Resolver {
    const session: Session
    var exceptions: seq<Exception>
    var adjustments: seq<Adjustment>

    constructor (session: Session, exceptions: seq<Exception>)
      ensures this.session == session && this.exceptions == exceptions && adjustments == []
    {
      this.session := session;
      this.exceptions := exceptions;
      adjustments := [];
    }

    /** _act without the fee: carries the plan out, or reports that it cannot and changes nothing. */
    method Act(ex: Exception) returns (done: bool)
      modifies session
      ensures done <==> PlanFor(old(session.State()), ex) != Escalate
      ensures session.State() == Carried(old(session.State()), PlanFor(old(session.State()), ex))
    {
      if ex.category == DuplicateInternal {
        done := VoidDuplicate(ex.copy, ex.original);
        return;
      }
      if ex.category == PartialMatch || ex.category == NettedSettlement {
        return true;
      }
      if !HasRule(ex.category) || ex.internal !in session.txns || ex.external !in session.txns {
        return false;
      }
      done := SettlePair(ex);
    }

    method VoidDuplicate(copy: TxnId, original: TxnId) returns (done: bool)
      modifies session
      ensures done <==> Free(old(session.State()), copy)
      ensures session.State() == if done then WithVoid(old(session.State()), copy, original) else old(session.State())
    {
      if copy !in session.txns || session.txns[copy].status != Unmatched || Claimed(session.State(), copy) {
        return false;
      }
      session.txns := session.txns[copy := session.txns[copy].(status := Voided, voidedOriginal := Some(original))];
      return true;
    }

    method SettlePair(ex: Exception) returns (done: bool)
      requires HasRule(ex.category) && ex.internal in session.txns && ex.external in session.txns
      modifies session
      ensures done <==> PlanFor(old(session.State()), ex) != Escalate
      ensures session.State() == Carried(old(session.State()), PlanFor(old(session.State()), ex))
    {
      if ex.result.Some? {
        var r := ex.result.value;
        if r >= |session.results| {
          return false;
        }
        if session.results[r].status == PendingReview {
          var decision := ConfirmMatch(session, r);
          return decision == Decided;
        }
        return session.results[r].status == AutoMatched || session.results[r].status == Confirmed;
      }
      if session.txns[ex.internal].status != Unmatched || session.txns[ex.external].status != Unmatched {
        return false;
      }
      if RejectedPair(session.State(), ex.internal, ex.external) {
        return false;
      }
      done := WritePair(session, ex.internal, ex.external, Rule, AutoMatched);
    }

    /** run: handles the chosen exceptions in order. A failed action leaves no half-done work. */
    method Run(bank: string, runId: Option<string>) returns (resolved: nat, escalated: nat)
      modifies this, session
      ensures Books(session.State(), exceptions, adjustments, resolved, escalated)
              == HandleAll(Books(old(session.State()), [], old(adjustments), 0, 0), old(exceptions), bank, runId)
    {
      hide PlanFor, Apply, FeeOf, HandleAll;
      StartOfRun(Books(session.State(), [], adjustments, 0, 0), bank, runId);
      resolved, escalated := 0, 0;
      ghost var before, start := exceptions, Books(session.State(), [], adjustments, 0, 0);
      for k := 0 to |exceptions|
        invariant |exceptions| == |before| && exceptions[k..] == before[k..]
        invariant Books(session.State(), exceptions[..k], adjustments, resolved, escalated)
                  == HandleAll(start, before[..k], bank, runId)
      {
        var ex := exceptions[k];
        ghost var was, posted := exceptions[..k], adjustments;
        assert posted + [] == posted && |was| == k;
        ghost var mid := Books(session.State(), was, adjustments, resolved, escalated);
        assert before[..0] == [] && before[k] == ex;
        HandleNext(start, before, k, bank, runId);
        if Chosen(ex, bank, runId) {
          var done := Act(ex);
          if done {
            if ex.category == FeeDeduction {
              adjustments := adjustments + [FeeOf(session.txns, k, ex)];
            }
            exceptions := exceptions[k := ex.(status := Resolved)];
            resolved := resolved + 1;
          } else {
            exceptions := exceptions[k := ex.(tier := 2)];
            escalated := escalated + 1;
          }
        }
        assert exceptions[..k + 1] == was + [exceptions[k]];
        assert exceptions[k + 1..] == before[k..][1..] == before[k + 1..];
        assert Books(session.State(), exceptions[..k + 1], adjustments, resolved, escalated)
            == Handle(mid, ex, bank, runId);
      }
      assert before[..|before|] == before && exceptions[..|before|] == exceptions;
    }
  }

  // ------------------------------------------------------- what a run of the resolver does

  /** The state of a run: the ledger, the exceptions handled so far as they now stand, the
      adjustments posted and the two counters. */
  datatype Books = Books(db: Db, handled: seq<Exception>, adjustments: seq<Adjustment>, resolved: nat, escalated: nat)

  function Distance(a: int, b: int): (gap: int)
    ensures gap >= 0 && (gap == a - b || gap == b - a)
  {
    if a < b then b - a else a - b
  }

  function FeeOf(txns: map<TxnId, Txn>, k: nat, ex: Exception): (fee: Adjustment)
    ensures fee.exception == k && fee.internal == ex.internal && fee.external == ex.external
    ensures ex.internal in txns && ex.external in txns ==>
              var a, b := txns[ex.internal].amount, txns[ex.external].amount;
              fee.amount >= 0 && (fee.amount == a - b || fee.amount == b - a)
  {
    Adjustment(k, ex.internal, ex.external,
               if ex.internal in txns && ex.external in txns
               then Distance(txns[ex.internal].amount, txns[ex.external].amount) else 0)
  }

  function Handle(b: Books, ex: Exception, bank: string, runId: Option<string>): Books {
    if !Chosen(ex, bank, runId) then b.(handled := b.handled + [ex])
    else
      var plan := PlanFor(b.db, ex);
      var db := Carried(b.db, plan);
      if plan == Escalate then b.(handled := b.handled + [ex.(tier := 2)], escalated := b.escalated + 1)
      else
        Books(db,
              b.handled + [ex.(status := Resolved)],
              b.adjustments + (if ex.category == FeeDeduction then [FeeOf(db.txns, |b.handled|, ex)] else []),
              b.resolved + 1,
              b.escalated)
  }

  function HandleAll(b: Books, exceptions: seq<Exception>, bank: string, runId: Option<string>): (after: Books)
    ensures |after.handled| == |b.handled| + |exceptions|
  {
    if exceptions == [] then b
    else Handle(HandleAll(b, exceptions[..|exceptions| - 1], bank, runId), exceptions[|exceptions| - 1], bank, runId)
  }

  lemma StartOfRun(b: Books, bank: string, runId: Option<string>)
    ensures HandleAll(b, [], bank, runId) == b
  {
  }

  lemma HandleNext(b: Books, exceptions: seq<Exception>, k: nat, bank: string, runId: Option<string>)
    requires k < |exceptions|
    ensures HandleAll(b, exceptions[..k + 1], bank, runId)
            == Handle(HandleAll(b, exceptions[..k], bank, runId), exceptions[k], bank, runId)
  {
    assert exceptions[..k + 1][..k] == exceptions[..k];
  }

  /** A run of the resolver is a run of ledger steps, so it keeps everything the ledger promises. */
  lemma {:induction false} ResolverTakesLedgerSteps(b: Books, exceptions: seq<Exception>, bank: string,
                                                    runId: Option<string>)
    returns (steps: seq<Step>)
    requires Valid(b.db)
    ensures HandleAll(b, exceptions, bank, runId).db == ApplyAll(b.db, steps) && AllEnabled(b.db, steps)
    ensures Valid(HandleAll(b, exceptions, bank, runId).db)
    ensures forall s :: s in steps ==> s.Void? || s.Confirm? || (s.Pair? && s.kind == Rule)
    decreases exceptions
  {
    if exceptions == [] {
      return [];
    }
    hide Valid, AllEnabled, Enabled, Apply;
    var front, ex := exceptions[..|exceptions| - 1], exceptions[|exceptions| - 1];
    steps := ResolverTakesLedgerSteps(b, front, bank, runId);
    var db := HandleAll(b, front, bank, runId).db;
    if Chosen(ex, bank, runId) && PlanFor(db, ex).Do? {
      PlansAreEnabled(db, ex);
      OneMore(b.db, steps, PlanFor(db, ex).step);
      steps := steps + [PlanFor(db, ex).step];
      StepKeeps(db, PlanFor(db, ex).step);
    }
  }

  /** What is wanted of the resolver: an open exception of tier 1 of the bank and, if one is named, of the run. */
  predicate Wanted(ex: Exception, bank: string, runId: Option<string>) {
    ex.bank == bank && ex.status == Open && ex.tier == 1 && (runId == None || runId == Some(ex.runId))
  }

  predicate Idle(db: Db, t: TxnId) {
    && t in db.txns && db.txns[t].status == Unmatched
    && forall c :: 0 <= c < |db.claims| && db.claims[c].active ==> db.claims[c].txn != t
  }

  predicate NoPersonRejected(db: Db, internal: TxnId, external: TxnId) {
    forall r :: 0 <= r < |db.results| && db.results[r].internal == internal && db.results[r].external == external ==>
                  db.results[r].status != Rejected
  }

  /** The exception can be settled without a person: a duplicate whose copy nobody uses; a group, which needs nothing;
      and, for the five kinds of difference that have a rule, a pair whose row is not REJECTED or, when it names no
      row, whose two sides are idle and were never rejected together. */
  predicate Settleable(db: Db, ex: Exception) {
    match ex.category
    case DuplicateInternal => Idle(db, ex.copy)
    case PartialMatch => true
    case NettedSettlement => true
    case OtherCategory => false
    case _ =>
      && ex.internal in db.txns && ex.external in db.txns
      && match ex.result
         case Some(r) => r < |db.results| && db.results[r].status != Rejected
         case None =>
           && ex.internal != ex.external && Idle(db, ex.internal) && Idle(db, ex.external)
           && NoPersonRejected(db, ex.internal, ex.external)
  }

  /** The one step that settles it, if it takes one. */
  function SettlingStep(db: Db, ex: Exception): Option<Step> {
    match ex.category
    case DuplicateInternal => Some(Void(ex.copy, ex.original))
    case PartialMatch => None
    case NettedSettlement => None
    case _ =>
      match ex.result
      case Some(r) => if r < |db.results| && db.results[r].status == PendingReview then Some(Confirm(r)) else None
      case None => Some(Pair(ex.internal, ex.external, Rule, AutoMatched))
  }

  lemma PlanSettles(db: Db, ex: Exception)
    requires Valid(db)
    ensures PlanFor(db, ex) == if !Settleable(db, ex) then Escalate
                               else match SettlingStep(db, ex) case Some(s) => Do(s) case None => NothingToDo
  {
    hide Valid;
    IdleIsFree(db, ex.copy);
    IdleIsFree(db, ex.internal);
    IdleIsFree(db, ex.external);
    NobodyRejected(db, ex.internal, ex.external);
    if ex.result.Some? && ex.result.value < |db.results| && db.results[ex.result.value].status == PendingReview {
      PendingIsConsistent(db, ex.result.value);
    }
    hide Free, Idle, NoPersonRejected, RejectedPair, ReviewConsistent;
  }

  lemma IdleIsFree(db: Db, t: TxnId)
    ensures Idle(db, t) <==> Free(db, t)
  {
  }

  lemma NobodyRejected(db: Db, internal: TxnId, external: TxnId)
    ensures NoPersonRejected(db, internal, external) <==> !RejectedPair(db, internal, external)
  {
  }

  function CountWanted(exceptions: seq<Exception>, bank: string, runId: Option<string>): nat {
    if exceptions == [] then 0
    else CountWanted(exceptions[..|exceptions| - 1], bank, runId)
         + (if Wanted(exceptions[|exceptions| - 1], bank, runId) then 1 else 0)
  }

  lemma HandledOnce(b: Books, ex: Exception, bank: string, runId: Option<string>)
    requires Valid(b.db)
    ensures var after := Handle(b, ex, bank, runId);
            && after.handled == b.handled + [if !Wanted(ex, bank, runId) then ex
                                             else if Settleable(b.db, ex) then ex.(status := Resolved)
                                             else ex.(tier := 2)]
            && after.db == (if Wanted(ex, bank, runId) && Settleable(b.db, ex) && SettlingStep(b.db, ex).Some?
                            then Apply(b.db, SettlingStep(b.db, ex).value) else b.db)
            && after.resolved == b.resolved + (if Wanted(ex, bank, runId) && Settleable(b.db, ex) then 1 else 0)
            && after.escalated == b.escalated + (if Wanted(ex, bank, runId) && !Settleable(b.db, ex) then 1 else 0)
  {
    hide Valid, PlanFor, Settleable, SettlingStep, Apply;
    PlanSettles(b.db, ex);
  }

  /** One turn: before and after it, the exception and what it becomes. */
  ghost predicate SettledInTurn(before: Db, after: Db, ex: Exception, now: Exception, bank: string,
                                runId: Option<string>) {
    if !Wanted(ex, bank, runId) then now == ex && after == before
    else if Settleable(before, ex) then
      && now == ex.(status := Resolved)
      && after == match SettlingStep(before, ex) case Some(s) => Apply(before, s) case None => before
    else now == ex.(tier := 2) && after == before
  }

  lemma ResolverKeepsValid(b: Books, exceptions: seq<Exception>, bank: string, runId: Option<string>)
    requires Valid(b.db)
    ensures Valid(HandleAll(b, exceptions, bank, runId).db)
  {
    var steps := ResolverTakesLedgerSteps(b, exceptions, bank, runId);
  }

  /** What has been handled is not touched again. */
  lemma {:induction false} HandledStays(b: Books, exceptions: seq<Exception>, bank: string, runId: Option<string>,
                                        k: nat)
    requires Valid(b.db) && k < |exceptions|
    ensures HandleAll(b, exceptions, bank, runId).handled[|b.handled| + k]
            == HandleAll(b, exceptions[..k + 1], bank, runId).handled[|b.handled| + k]
    decreases |exceptions|
  {
    hide Valid, Handle, Wanted, Settleable, SettlingStep, Apply;
    var n := |exceptions| - 1;
    if k == n {
      assert exceptions[..k + 1] == exceptions;
    } else {
      var front := exceptions[..n];
      assert front[..k + 1] == exceptions[..k + 1] && exceptions[..n + 1] == exceptions;
      HandledStays(b, front, bank, runId, k);
      HandleNext(b, exceptions, n, bank, runId);
      ResolverKeepsValid(b, front, bank, runId);
      HandledOnce(HandleAll(b, front, bank, runId), exceptions[n], bank, runId);
    }
  }

  /** Every wanted exception ends RESOLVED or at tier 2, and is counted once; every other exception is left as it
      was. */
  lemma {:induction false} EveryExceptionIsSettled(b: Books, exceptions: seq<Exception>, bank: string,
                                                   runId: Option<string>)
    ensures var after := HandleAll(b, exceptions, bank, runId);
            && after.resolved + after.escalated == b.resolved + b.escalated + CountWanted(exceptions, bank, runId)
            && forall k :: 0 <= k < |exceptions| ==>
                 var ex, now := exceptions[k], after.handled[|b.handled| + k];
                 if Wanted(ex, bank, runId) then now == ex.(status := Resolved) || now == ex.(tier := 2) else now == ex
    decreases exceptions
  {
    hide PlanFor, Apply;
    if exceptions != [] {
      EveryExceptionIsSettled(b, exceptions[..|exceptions| - 1], bank, runId);
      assert forall k :: 0 <= k < |exceptions| - 1 ==> exceptions[..|exceptions| - 1][k] == exceptions[k];
    }
  }

  /** In a reachable ledger a wanted exception becomes RESOLVED exactly if it can be settled in the ledger its turn
      finds, and then by that one step; otherwise it goes to tier 2 and the ledger stays as it was. */
  lemma EachIsSettledInTurn(b: Books, exceptions: seq<Exception>, bank: string, runId: Option<string>, k: nat)
    requires Valid(b.db) && k < |exceptions|
    ensures SettledInTurn(HandleAll(b, exceptions[..k], bank, runId).db,
                          HandleAll(b, exceptions[..k + 1], bank, runId).db,
                          exceptions[k], HandleAll(b, exceptions, bank, runId).handled[|b.handled| + k], bank, runId)
  {
    hide Valid, Handle, HandleAll, Wanted, Settleable, SettlingStep, Apply;
    ResolverKeepsValid(b, exceptions[..k], bank, runId);
    HandleNext(b, exceptions, k, bank, runId);
    HandledOnce(HandleAll(b, exceptions[..k], bank, runId), exceptions[k], bank, runId);
    HandledStays(b, exceptions, bank, runId, k);
  }

  /** One adjustment for each fee deduction that became RESOLVED, in order. */
  function FeesPosted(txns: map<TxnId, Txn>, before: seq<Exception>, after: seq<Exception>,
                      offset: nat): seq<Adjustment>
    requires |before| == |after|
  {
    if before == [] then []
    else
      var k := |before| - 1;
      FeesPosted(txns, before[..k], after[..k], offset)
      + (if before[k].category == FeeDeduction && before[k].status == Open && after[k].status == Resolved
         then [FeeOf(txns, offset + k, before[k])] else [])
  }

  /** Each resolved fee deduction has exactly one adjustment, for the distance between the two
      amounts as they stood before the run; nothing else has one. */
  lemma {:induction false} OneAdjustmentPerFee(b: Books, exceptions: seq<Exception>, bank: string,
                                               runId: Option<string>)
    ensures var after := HandleAll(b, exceptions, bank, runId);
            after.adjustments
            == b.adjustments + FeesPosted(b.db.txns, exceptions, after.handled[|b.handled|..], |b.handled|)
    decreases exceptions
  {
    hide *;
    if exceptions == [] {
      StartOfRun(b, bank, runId);
      NoFees(b.db.txns, |b.handled|);
      assert b.handled[|b.handled|..] == [];
    } else {
      var n, ex := |exceptions| - 1, exceptions[|exceptions| - 1];
      var mid, after := HandleAll(b, exceptions[..n], bank, runId), HandleAll(b, exceptions, bank, runId);
      assert exceptions[..n + 1] == exceptions;
      HandleNext(b, exceptions, n, bank, runId);
      LastFee(mid, ex, bank, runId);
      AmountsStay(b, exceptions, bank, runId);
      SameFee(b.db.txns, after.db.txns, |b.handled| + n, ex);
      OneAdjustmentPerFee(b, exceptions[..n], bank, runId);
      var now := after.handled[|b.handled|..];
      assert now[..n] == mid.handled[|b.handled|..];
      FeesNext(b.db.txns, exceptions, now, |b.handled|);
    }
  }

  lemma NoFees(txns: map<TxnId, Txn>, offset: nat)
    ensures FeesPosted(txns, [], [], offset) == []
  {
  }

  lemma FeesNext(txns: map<TxnId, Txn>, before: seq<Exception>, after: seq<Exception>, offset: nat)
    requires |before| == |after| > 0
    ensures var k := |before| - 1;
            FeesPosted(txns, before, after, offset)
            == FeesPosted(txns, before[..k], after[..k], offset)
               + (if before[k].category == FeeDeduction && before[k].status == Open && after[k].status == Resolved
                  then [FeeOf(txns, offset + k, before[k])] else [])
  {
  }

  lemma LastFee(mid: Books, ex: Exception, bank: string, runId: Option<string>)
    ensures var after := Handle(mid, ex, bank, runId);
            && after.handled == mid.handled + [after.handled[|mid.handled|]]
            && after.adjustments == mid.adjustments
                 + (if ex.category == FeeDeduction && ex.status == Open
                    && after.handled[|mid.handled|].status == Resolved
                    then [FeeOf(after.db.txns, |mid.handled|, ex)] else [])
  {
    hide PlanFor, Carried, FeeOf;
  }

  lemma SameFee(before: map<TxnId, Txn>, after: map<TxnId, Txn>, k: nat, ex: Exception)
    requires SameAmounts(before, after)
    ensures FeeOf(before, k, ex) == FeeOf(after, k, ex)
  {
  }

  lemma {:induction false} AmountsStay(b: Books, exceptions: seq<Exception>, bank: string, runId: Option<string>)
    ensures SameAmounts(b.db.txns, HandleAll(b, exceptions, bank, runId).db.txns)
    decreases exceptions
  {
    if exceptions != [] {
      hide PlanFor, Apply;
      AmountsStay(b, exceptions[..|exceptions| - 1], bank, runId);
      PlanKeepsAmounts(HandleAll(b, exceptions[..|exceptions| - 1], bank, runId).db, exceptions[|exceptions| - 1]);
    }
  }

  /** Transactions are kept, amounts unchanged. */
  ghost predicate SameAmounts(before: map<TxnId, Txn>, after: map<TxnId, Txn>) {
    && (forall t :: t in after <==> t in before)
    && (forall t :: t in before ==> after[t].amount == before[t].amount)
  }

  lemma PlanKeepsAmounts(db: Db, ex: Exception)
    ensures PlanFor(db, ex).Do? ==> SameAmounts(db.txns, Apply(db, PlanFor(db, ex).step).txns)
  {
  }
}

/** The match ledger as a value: normalised transactions, match results and the claims that keep
    a transaction from being used twice, with every operation that changes them as one step
    (src/recon/matching/claims.py, review.py, manual.py, src/recon/excmgmt/autoresolve/resolver.py
    and the strategies).

    A row's id is its position: results and claims are never deleted, so `|results|` is a new id. */
module Ledger {

  datatype Option<+T> = None | Some(value: T)

  type TxnId = nat

  datatype Source = Internal | External

  datatype TxnStatus = Unmatched | Matched | Voided

  datatype Direction = CR | DR

  /** The columns of a normalised transaction that matching reads. */
  datatype Txn = Txn(
    source: Source,
    bank: string,
    date: int,
    lineNo: nat,
    reference: string,
    originalReference: string,
    amount: int,
    currency: string,
    direction: Direction,
    counterparty: string,
    status: TxnStatus,
    voidedOriginal: Option<TxnId>)

  datatype MatchKind = Exact | CrossCurrency | Split | Netted | Fuzzy | Rule | Manual

  datatype ResultStatus = AutoMatched | PendingReview | Confirmed | Rejected

  datatype MatchResult = MatchResult(
    kind: MatchKind,
    status: ResultStatus,
    internal: TxnId,
    external: TxnId,
    group: Option<nat>)

  datatype Claim = Claim(txn: TxnId, result: Option<nat>, role: Source, active: bool)

  datatype Db = Db(txns: map<TxnId, Txn>, results: seq<MatchResult>, claims: seq<Claim>)

  /** index.get(key, []): an index from keys to the transactions that have them. */
  function Listed<K(==)>(index: map<K, seq<TxnId>>, key: K): seq<TxnId> {
    if key in index then index[key] else []
  }

  /** abs((a.txn_date - b.txn_date).days). */
  function DaysBetween(a: Txn, b: Txn): (days: int)
    ensures days >= 0 && (days == a.date - b.date || days == b.date - a.date)
  {
    if a.date < b.date then b.date - a.date else a.date - b.date
  }

  // ------------------------------------------------------------------ reading the ledger

  /** is_claimed: the transaction has an ACTIVE claim. */
  predicate Claimed(db: Db, t: TxnId) {
    exists c :: 0 <= c < |db.claims| && db.claims[c].active && db.claims[c].txn == t
  }

  /** UNMATCHED and holding no ACTIVE claim. */
  predicate Free(db: Db, t: TxnId) {
    t in db.txns && db.txns[t].status == Unmatched && !Claimed(db, t)
  }

  /** A person rejected or unmatched this pairing. */
  predicate RejectedPair(db: Db, internal: TxnId, external: TxnId) {
    exists r :: 0 <= r < |db.results| && db.results[r].status == Rejected
                && db.results[r].internal == internal && db.results[r].external == external
  }

  predicate Live(s: ResultStatus) {
    s != Rejected
  }

  predicate Unmatchable(s: ResultStatus) {
    s == AutoMatched || s == Confirmed
  }

  /** The rows of one match: a row by itself, or all rows of its group. */
  predicate SameMatch(db: Db, r: nat, q: nat)
    requires r < |db.results| && q < |db.results|
  {
    r == q || (db.results[r].group.Some? && db.results[r].group == db.results[q].group)
  }

  function WithStatus(txns: map<TxnId, Txn>, ids: set<TxnId>, s: TxnStatus): map<TxnId, Txn> {
    map t | t in txns :: if t in ids then txns[t].(status := s) else txns[t]
  }

  function ToSet<T>(s: seq<T>): set<T> {
    set x | x in s
  }

  ghost predicate Distinct<T(!new)>(s: seq<T>) {
    forall a, b :: 0 <= a < b < |s| ==> s[a] != s[b]
  }

  /** Position by position: a sits before b in the list. */
  ghost predicate Precedes<T(!new)>(s: seq<T>, a: T, b: T) {
    exists p, q :: 0 <= p < q < |s| && s[p] == a && s[q] == b
  }

  lemma {:induction false} DistinctCount<T(!new)>(items: seq<T>)
    requires Distinct(items)
    ensures |ToSet(items)| == |items|
  {
    if items != [] {
      var front, last := items[..|items| - 1], items[|items| - 1];
      DistinctCount(front);
      assert ToSet(items) == ToSet(front) + {last};
    }
  }

  // ------------------------------------------------------------------------- the steps

  datatype Step =
    | Pair(internal: TxnId, external: TxnId, kind: MatchKind, status: ResultStatus)
    | Group(kind: MatchKind, single: TxnId, members: seq<TxnId>)
    | Confirm(result: nat)
    | Reject(result: nat)
    | Unmatch(result: nat)
    | Void(copy: TxnId, original: TxnId)
    | Ingest(id: TxnId, row: Txn)

  /** One pair claimed and written; both sides become MATCHED unless the pair awaits review. */
  function WithPair(db: Db, internal: TxnId, external: TxnId, kind: MatchKind, status: ResultStatus): Db {
    var r := |db.results|;
    Db(if status == PendingReview then db.txns else WithStatus(db.txns, {internal, external}, Matched),
       db.results + [MatchResult(kind, status, internal, external, None)],
       db.claims + [Claim(internal, Some(r), Internal, true), Claim(external, Some(r), External, true)])
  }

  function GroupRow(kind: MatchKind, single: TxnId, member: TxnId, group: nat): MatchResult {
    if kind == Split then MatchResult(kind, AutoMatched, single, member, Some(group))
    else MatchResult(kind, AutoMatched, member, single, Some(group))
  }

  function SingleRole(kind: MatchKind): Source { if kind == Split then Internal else External }

  function MemberRole(kind: MatchKind): Source { if kind == Split then External else Internal }

  /** One row and one claim per member; the single side's claim hangs on the first row. */
  function WithGroup(db: Db, kind: MatchKind, single: TxnId, members: seq<TxnId>): Db {
    var first := |db.results|;
    Db(WithStatus(db.txns, {single} + ToSet(members), Matched),
       db.results + seq(|members|, k requires 0 <= k < |members| => GroupRow(kind, single, members[k], first)),
       db.claims + [Claim(single, Some(first), SingleRole(kind), true)]
       + seq(|members|, k requires 0 <= k < |members| => Claim(members[k], Some(first + k), MemberRole(kind), true)))
  }

  function WithConfirm(db: Db, r: nat): Db
    requires r < |db.results|
  {
    Db(WithStatus(db.txns, {db.results[r].internal, db.results[r].external}, Matched),
       db.results[r := db.results[r].(status := Confirmed)],
       db.claims)
  }

  /** Releases every ACTIVE claim of the given rows. */
  function Released(claims: seq<Claim>, rows: set<nat>): (released: seq<Claim>)
    ensures |released| == |claims|
  {
    seq(|claims|, c requires 0 <= c < |claims| =>
      if claims[c].result.Some? && claims[c].result.value in rows then claims[c].(active := false) else claims[c])
  }

  function WithReject(db: Db, r: nat): Db
    requires r < |db.results|
  {
    Db(db.txns, db.results[r := db.results[r].(status := Rejected)], Released(db.claims, {r}))
  }

  /** Every row of the match `r` belongs to. */
  function MatchRows(db: Db, r: nat): set<nat>
    requires r < |db.results|
  {
    set q | 0 <= q < |db.results| && SameMatch(db, r, q)
  }

  function Sides(db: Db, rows: set<nat>): set<TxnId>
    requires forall r :: r in rows ==> r < |db.results|
  {
    (set r | r in rows :: db.results[r].internal) + (set r | r in rows :: db.results[r].external)
  }

  function WithUnmatch(db: Db, r: nat): Db
    requires r < |db.results|
  {
    var rows := MatchRows(db, r);
    Db(WithStatus(db.txns, Sides(db, rows), Unmatched),
       seq(|db.results|, q requires 0 <= q < |db.results| =>
         if q in rows then db.results[q].(status := Rejected) else db.results[q]),
       Released(db.claims, rows))
  }

  function WithVoid(db: Db, copy: TxnId, original: TxnId): Db
    requires copy in db.txns
  {
    db.(txns := db.txns[copy := db.txns[copy].(status := Voided, voidedOriginal := Some(original))])
  }

  /** When the code carries a step out. `Pair` and `Group` are made by the strategies and the
      auto-resolver, which skip rejected pairings, and `Pair` also by the manual service, which
      does not look at them. */
  ghost predicate Enabled(db: Db, s: Step) {
    match s
    case Pair(i, e, kind, status) =>
      && Free(db, i) && Free(db, e) && i != e
      && kind != Split && kind != Netted
      && (kind == Manual ==> status == Confirmed)
      && (kind != Manual ==> !RejectedPair(db, i, e) && (status == AutoMatched || status == PendingReview))
    case Group(kind, single, members) =>
      && (kind == Split || kind == Netted)
      && Free(db, single) && single !in members && Distinct(members) && |members| >= 1
      && (forall m :: m in members ==> Free(db, m))
      && (forall m :: m in members ==>
            if kind == Split then !RejectedPair(db, single, m) else !RejectedPair(db, m, single))
    case Confirm(r) => r < |db.results| && db.results[r].status == PendingReview
    case Reject(r) => r < |db.results| && db.results[r].status == PendingReview
    case Unmatch(r) => r < |db.results| && forall q :: q in MatchRows(db, r) ==> Unmatchable(db.results[q].status)
    case Void(t, original) => Free(db, t)
    case Ingest(t, row) => t !in db.txns && row.status == Unmatched
  }

  function Apply(db: Db, s: Step): Db {
    match s
    case Pair(i, e, kind, status) => WithPair(db, i, e, kind, status)
    case Group(kind, single, members) => WithGroup(db, kind, single, members)
    case Confirm(r) => if r < |db.results| then WithConfirm(db, r) else db
    case Reject(r) => if r < |db.results| then WithReject(db, r) else db
    case Unmatch(r) => if r < |db.results| then WithUnmatch(db, r) else db
    case Void(t, original) => if t in db.txns then WithVoid(db, t, original) else db
    case Ingest(t, row) => db.(txns := db.txns[t := row])
  }

  function ApplyAll(db: Db, steps: seq<Step>): Db {
    if steps == [] then db else Apply(ApplyAll(db, steps[..|steps| - 1]), steps[|steps| - 1])
  }

  ghost predicate AllEnabled(db: Db, steps: seq<Step>) {
    steps != [] ==>
      && AllEnabled(db, steps[..|steps| - 1])
      && Enabled(ApplyAll(db, steps[..|steps| - 1]), steps[|steps| - 1])
  }

  lemma OneMore(db: Db, steps: seq<Step>, s: Step)
    ensures ApplyAll(db, steps + [s]) == Apply(ApplyAll(db, steps), s)
    ensures AllEnabled(db, steps + [s]) <==> AllEnabled(db, steps) && Enabled(ApplyAll(db, steps), s)
  {
    assert (steps + [s])[..|steps|] == steps;
  }

  lemma {:induction false} StepsCompose(db: Db, first: seq<Step>, second: seq<Step>)
    ensures ApplyAll(db, first + second) == ApplyAll(ApplyAll(db, first), second)
    ensures AllEnabled(db, first + second) <==> AllEnabled(db, first) && AllEnabled(ApplyAll(db, first), second)
    decreases second
  {
    if second == [] {
      assert first + second == first;
    } else {
      var front := second[..|second| - 1];
      StepsCompose(db, first, front);
      assert (first + second)[..|first + second| - 1] == first + front;
    }
  }

  /** A freshly ingested store: nothing matched, nothing claimed. */
  predicate Fresh(db: Db) {
    && db.results == [] && db.claims == []
    && forall t :: t in db.txns ==> db.txns[t].status == Unmatched
  }
}

/** The audit hash chain: what an entry's hash covers (src/recon/audit/canonical.py), the append
    (logger.py) and the verification (verifier.py). Serialisation followed by SHA-256 is one function
    from fields to text, injective on the entries that can be serialised. */
module AuditChain {
  import opened Ledger

  const SERIALISATION_VERSION := 1

  // ------------------------------------------------------------------- what is hashed

  datatype JsonKey = Text(text: string) | NotText(number: int)

  /** State values as the logger is given them; an object is the list of its sorted entries. */
  datatype Json =
    | Null
    | Bool(flag: bool)
    | Int(number: int)
    | Str(text: string)
    | Float(value: real)
    | Other
    | Arr(items: seq<Json>)
    | Obj(entries: seq<(JsonKey, Json)>)

  /** _validate_json_value: no floats, no other types, only string keys, at any depth. */
  predicate Stable(v: Json) {
    match v
    case Null => true
    case Bool(_) => true
    case Int(_) => true
    case Str(_) => true
    case Float(_) => false
    case Other => false
    case Arr(items) => forall k :: 0 <= k < |items| ==> Stable(items[k])
    case Obj(entries) => forall k :: 0 <= k < |entries| ==> entries[k].0.Text? && Stable(entries[k].1)
  }

  /** part is v or lies somewhere inside it. */
  predicate PartOf(part: Json, v: Json) {
    || part == v
    || (v.Arr? && exists k :: 0 <= k < |v.items| && PartOf(part, v.items[k]))
    || (v.Obj? && exists k :: 0 <= k < |v.entries| && PartOf(part, v.entries[k].1))
  }

  /** A value that serialises the same every time: none of its parts is a float or of an unknown type, and no object
      among them has a key that is not text. */
  predicate FreeOfFloats(v: Json) {
    !v.Float? && !v.Other? && (v.Obj? ==> forall k :: 0 <= k < |v.entries| ==> v.entries[k].0.Text?)
  }

  lemma {:induction false} StableMeans(v: Json)
    ensures Stable(v) <==> forall part :: PartOf(part, v) ==> FreeOfFloats(part)
  {
    match v
    case Arr(items) =>
      forall k | 0 <= k < |items|
        ensures Stable(items[k]) <==> forall part :: PartOf(part, items[k]) ==> FreeOfFloats(part)
      {
        StableMeans(items[k]);
      }
      AllParts(v, items);
    case Obj(entries) =>
      var items := seq(|entries|, k requires 0 <= k < |entries| => entries[k].1);
      forall k | 0 <= k < |entries|
        ensures Stable(items[k]) <==> forall part :: PartOf(part, items[k]) ==> FreeOfFloats(part)
      {
        StableMeans(entries[k].1);
      }
      AllParts(v, items);
    case _ =>
      assert PartOf(v, v);
  }

  lemma AllParts(v: Json, items: seq<Json>)
    requires v == Arr(items)
             || (v.Obj? && |v.entries| == |items| && forall k :: 0 <= k < |items| ==> v.entries[k].1 == items[k])
    ensures (forall part :: PartOf(part, v) ==> FreeOfFloats(part))
            <==> FreeOfFloats(v) && forall k :: 0 <= k < |items| ==>
                                      forall part :: PartOf(part, items[k]) ==> FreeOfFloats(part)
  {
    if forall part :: PartOf(part, v) ==> FreeOfFloats(part) {
      assert PartOf(v, v);
      forall k, part | 0 <= k < |items| && PartOf(part, items[k]) ensures FreeOfFloats(part) {
        assert PartOf(part, v);
      }
    }
  }

  /** A timezone-aware timestamp is an instant; a naive one is not. */
  datatype Timestamp = Instant(micros: int) | Naive(micros: int)

  datatype Fields = Fields(
    version: int,
    eventId: int,
    chainId: string,
    sequenceNo: int,
    occurredAt: Timestamp,
    actorType: string,
    actorId: string,
    actionType: string,
    affected: Json,
    before: Json,
    after: Json,
    rationale: string,
    prevHash: Option<string>)

  /** canonical_bytes accepts the entry. */
  predicate Canonical(f: Fields) {
    && f.version == SERIALISATION_VERSION && f.occurredAt.Instant?
    && Stable(f.affected) && Stable(f.before) && Stable(f.after)
  }

  type Digest = Fields -> string

  /** No collisions among serialisable entries, and never the empty text. */
  ghost predicate CollisionFree(digest: Digest) {
    && (forall f :: digest(f) != "")
    && (forall f, g :: Canonical(f) && Canonical(g) && digest(f) == digest(g) ==> f == g)
  }

  /** compute_hash; None stands for CanonicalisationError. */
  function ComputeHash(digest: Digest, f: Fields): Option<string> {
    if Canonical(f) then Some(digest(f)) else None
  }

  datatype Row = Row(fields: Fields, currentHash: string)

  // ------------------------------------------------------------------- verification

  datatype FailureKind = SequenceGap | PrevHashMismatch | HashMismatch | UnsupportedVersion | HeadMismatch

  datatype Head = Head(sequenceNo: int, currentHash: string)

  datatype Verification = Verification(ok: bool, checked: nat, kind: Option<FailureKind>, failedAt: Option<int>)

  function PreviousHash(rows: seq<Row>, k: nat): Option<string>
    requires k <= |rows|
  {
    if k == 0 then None else Some(rows[k - 1].currentHash)
  }

  /** Row k follows from the row before it. */
  predicate GoodRow(digest: Digest, rows: seq<Row>, k: nat)
    requires k < |rows|
  {
    var f := rows[k].fields;
    && f.sequenceNo == k + 1
    && f.version == SERIALISATION_VERSION
    && f.prevHash == PreviousHash(rows, k)
    && Canonical(f) && digest(f) == rows[k].currentHash
  }

  predicate GoodChain(digest: Digest, rows: seq<Row>) {
    forall k :: 0 <= k < |rows| ==> GoodRow(digest, rows, k)
  }

  /** The first reason row k is bad. */
  predicate Fault(digest: Digest, rows: seq<Row>, k: nat, kind: FailureKind)
    requires k < |rows|
  {
    var f := rows[k].fields;
    match kind
    case SequenceGap => f.sequenceNo != k + 1
    case UnsupportedVersion => f.sequenceNo == k + 1 && f.version != SERIALISATION_VERSION
    case PrevHashMismatch =>
      f.sequenceNo == k + 1 && f.version == SERIALISATION_VERSION && f.prevHash != PreviousHash(rows, k)
    case HashMismatch =>
      && f.sequenceNo == k + 1 && f.version == SERIALISATION_VERSION && f.prevHash == PreviousHash(rows, k)
      && ComputeHash(digest, f) != Some(rows[k].currentHash)
    case HeadMismatch => false
  }

  /** The head of a chain as chain_head reads it from the table. */
  function ChainHead(rows: seq<Row>): Option<Head> {
    if rows == [] then None
    else Some(Head(rows[|rows| - 1].fields.sequenceNo, rows[|rows| - 1].currentHash))
  }

  /** _check_row. */
  method CheckRow(digest: Digest, row: Row, expectedSeq: int, previousHash: Option<string>)
    returns (failure: Option<FailureKind>)
    ensures failure == None <==>
            && row.fields.sequenceNo == expectedSeq && row.fields.version == SERIALISATION_VERSION
            && row.fields.prevHash == previousHash && ComputeHash(digest, row.fields) == Some(row.currentHash)
    ensures failure == Some(SequenceGap) <==> row.fields.sequenceNo != expectedSeq
    ensures failure == Some(UnsupportedVersion) <==>
            row.fields.sequenceNo == expectedSeq && row.fields.version != SERIALISATION_VERSION
    ensures failure == Some(PrevHashMismatch) <==>
            && row.fields.sequenceNo == expectedSeq && row.fields.version == SERIALISATION_VERSION
            && row.fields.prevHash != previousHash
    ensures failure == Some(HashMismatch) <==>
            && row.fields.sequenceNo == expectedSeq && row.fields.version == SERIALISATION_VERSION
            && row.fields.prevHash == previousHash && ComputeHash(digest, row.fields) != Some(row.currentHash)
    ensures failure != Some(HeadMismatch)
  {
    if row.fields.sequenceNo != expectedSeq {
      return Some(SequenceGap);
    }
    if row.fields.version != SERIALISATION_VERSION {
      return Some(UnsupportedVersion);
    }
    if row.fields.prevHash != previousHash {
      return Some(PrevHashMismatch);
    }
    var recomputed := ComputeHash(digest, row.fields);
    if recomputed != Some(row.currentHash) {
      return Some(HashMismatch);
    }
    return None;
  }

  /** verify_chain: reports the first bad row and why it is bad; passes exactly the good chains, and
      with an expected head exactly those with that head. */
  method VerifyChain(digest: Digest, rows: seq<Row>, expectedHead: Option<Head>) returns (v: Verification)
    requires forall f :: digest(f) != ""
    ensures v.ok <==> GoodChain(digest, rows) && (expectedHead.Some? ==> ChainHead(rows) == expectedHead)
    ensures v.ok ==> v == Verification(true, |rows|, None, None)
    ensures !GoodChain(digest, rows) ==>
              && v.checked < |rows| && !GoodRow(digest, rows, v.checked)
              && (forall j :: 0 <= j < v.checked ==> GoodRow(digest, rows, j))
              && (forall kind :: v.kind == Some(kind) <==> Fault(digest, rows, v.checked, kind)) && v.kind.Some?
              && v.failedAt == Some(rows[v.checked].fields.sequenceNo)
    ensures GoodChain(digest, rows) && !v.ok ==> v == Verification(false, |rows|, Some(HeadMismatch), None)
  {
    var expectedSeq := 1;
    var previousHash: Option<string> := None;
    var checked := 0;
    while checked < |rows|
      invariant 0 <= checked <= |rows|
      invariant expectedSeq == checked + 1 && previousHash == PreviousHash(rows, checked)
      invariant forall j :: 0 <= j < checked ==> GoodRow(digest, rows, j)
    {
      var failure := CheckRow(digest, rows[checked], expectedSeq, previousHash);
      if failure.Some? {
        assert !GoodRow(digest, rows, checked);
        forall kind ensures failure == Some(kind) <==> Fault(digest, rows, checked, kind) {
          match kind
          case SequenceGap =>
          case UnsupportedVersion =>
          case PrevHashMismatch =>
          case HashMismatch =>
          case HeadMismatch =>
        }
        return Verification(false, checked, failure, Some(rows[checked].fields.sequenceNo));
      }
      previousHash := Some(rows[checked].currentHash);
      expectedSeq := expectedSeq + 1;
      checked := checked + 1;
    }
    if expectedHead.Some? {
      var actual := if previousHash.Some? && previousHash.value != ""
                    then Some(Head(expectedSeq - 1, previousHash.value))
                    else None;
      assert rows != [] ==> GoodRow(digest, rows, |rows| - 1);
      if actual != expectedHead {
        return Verification(false, checked, Some(HeadMismatch), None);
      }
    }
    return Verification(true, checked, None, None);
  }

  /** No float lies anywhere in the states. */
  ghost predicate StatesAreStable(f: Fields) {
    forall part :: PartOf(part, f.affected) || PartOf(part, f.before) || PartOf(part, f.after) ==> FreeOfFloats(part)
  }

  /** The k-th row: numbered from 1, version 1, naming the hash before it, with a timezone, with stable states, and with
      the hash of its own fields. */
  ghost predicate Linked(digest: Digest, rows: seq<Row>, k: nat)
    requires k < |rows|
  {
    var f := rows[k].fields;
    && f.sequenceNo == k + 1 && f.version == 1 && f.occurredAt.Instant? && StatesAreStable(f)
    && (if k == 0 then f.prevHash == None else f.prevHash == Some(rows[k - 1].currentHash))
    && digest(f) == rows[k].currentHash
  }

  /** A chain that passes is one whose every row is linked. */
  lemma GoodChainMeans(digest: Digest, rows: seq<Row>)
    ensures GoodChain(digest, rows) <==> forall k :: 0 <= k < |rows| ==> Linked(digest, rows, k)
  {
    hide Stable, StatesAreStable;
    forall k | 0 <= k < |rows| ensures GoodRow(digest, rows, k) <==> Linked(digest, rows, k) {
      StableStates(rows[k].fields);
    }
  }

  lemma StableStates(f: Fields)
    ensures Stable(f.affected) && Stable(f.before) && Stable(f.after) <==> StatesAreStable(f)
  {
    hide Stable, PartOf, FreeOfFloats;
    StableMeans(f.affected);
    StableMeans(f.before);
    StableMeans(f.after);
  }

  // ------------------------------------------------------------------- tamper evidence

  /** Two chains that both verify and have the same head are the same chain, row by row and field by
      field: nothing in the history can be changed without changing the head. */
  lemma {:induction false} SameHeadSameHistory(digest: Digest, a: seq<Row>, b: seq<Row>)
    requires CollisionFree(digest) && GoodChain(digest, a) && GoodChain(digest, b)
    requires ChainHead(a) == ChainHead(b)
    ensures a == b
    decreases |a|
  {
    if a != [] {
      var m, n := |a| - 1, |b| - 1;
      assert GoodRow(digest, a, m) && GoodRow(digest, b, n);
      assert a[m] == b[n] && m == n;
      GoodPrefix(digest, a, m);
      GoodPrefix(digest, b, m);
      if m > 0 {
        assert GoodRow(digest, a, m - 1) && GoodRow(digest, b, m - 1);
      }
      SameHeadSameHistory(digest, a[..m], b[..m]);
      assert a == a[..m] + [a[m]] && b == b[..m] + [b[m]];
    }
  }

  lemma GoodPrefix(digest: Digest, rows: seq<Row>, n: nat)
    requires GoodChain(digest, rows) && n <= |rows|
    ensures GoodChain(digest, rows[..n])
  {
    forall k | 0 <= k < n ensures GoodRow(digest, rows[..n], k) {
      assert GoodRow(digest, rows, k);
    }
  }

  /** A head exported earlier pins the whole history up to it: rows that verify against the head of a
      good chain are that chain. */
  lemma ExpectedHeadPinsHistory(digest: Digest, original: seq<Row>, rows: seq<Row>)
    requires CollisionFree(digest) && GoodChain(digest, original)
    ensures GoodChain(digest, rows) && ChainHead(rows) == ChainHead(original) <==> rows == original
  {
    if GoodChain(digest, rows) && ChainHead(rows) == ChainHead(original) {
      SameHeadSameHistory(digest, rows, original);
    }
  }

  /** The known limit: the newest entries can be dropped without being noticed unless a head is
      expected, and with the head of the full chain it is noticed. */
  lemma TruncationNeedsAHead(digest: Digest, rows: seq<Row>, n: nat)
    requires CollisionFree(digest) && GoodChain(digest, rows) && n < |rows|
    ensures GoodChain(digest, rows[..n]) && ChainHead(rows[..n]) != ChainHead(rows)
  {
    GoodPrefix(digest, rows, n);
    assert GoodRow(digest, rows, |rows| - 1);
    if n > 0 {
      assert GoodRow(digest, rows, n - 1);
    }
  }

  /** Changing anything in one row of a good chain, its hash included, breaks it there or at the next
      row, or, if it was the last, changes the head. */
  lemma EditIsNoticed(digest: Digest, rows: seq<Row>, k: nat, forged: Row)
    requires CollisionFree(digest) && GoodChain(digest, rows) && k < |rows| && forged != rows[k]
    ensures var edited := rows[k := forged];
            !GoodRow(digest, edited, k) || (k + 1 < |rows| && !GoodRow(digest, edited, k + 1))
            || (k == |rows| - 1 && ChainHead(edited) != ChainHead(rows))
  {
    var edited := rows[k := forged];
    assert GoodRow(digest, rows, k);
    if GoodRow(digest, edited, k) && k + 1 < |rows| {
      assert GoodRow(digest, rows, k + 1);
      assert forged.currentHash != rows[k].currentHash;
      assert edited[k + 1].fields.prevHash == Some(rows[k].currentHash);
    }
  }
}

/** Appending to the audit chains (src/recon/audit/logger.py): any number of transactions, each taking
    a chain's lock before it reads the head and keeping it until it ends, interleaved in any way. */
module AuditAppend {
  import opened Ledger
  import opened AuditChain

  /** What the caller of append gives. */
  datatype Entry = Entry(
    eventId: int,
    occurredAt: Timestamp,
    actorType: string,
    actorId: string,
    actionType: string,
    affected: Json,
    before: Json,
    after: Json,
    rationale: string)

  predicate Acceptable(e: Entry) {
    (e.actorType == "SYSTEM" || e.actorType == "USER") && e.occurredAt.Instant?
  }

  function FieldsAfter(chain: string, head: Option<Head>, e: Entry): Fields {
    Fields(SERIALISATION_VERSION, e.eventId, chain, if head == None then 1 else head.value.sequenceNo + 1,
           e.occurredAt, e.actorType, e.actorId, e.actionType, e.affected, e.before, e.after, e.rationale,
           if head == None then None else Some(head.value.currentHash))
  }

  /** The row append adds after the head it has read; None when it raises, and then adds nothing. */
  function NewRow(digest: Digest, chain: string, head: Option<Head>, e: Entry): Option<Row> {
    var fields := FieldsAfter(chain, head, e);
    var hash := ComputeHash(digest, fields);
    if !Acceptable(e) || hash == None then None else Some(Row(fields, hash.value))
  }

  lemma AppendKeepsGood(digest: Digest, chain: string, rows: seq<Row>, e: Entry)
    requires GoodChain(digest, rows)
    requires NewRow(digest, chain, ChainHead(rows), e).Some?
    ensures GoodChain(digest, rows + [NewRow(digest, chain, ChainHead(rows), e).value])
  {
    var more := rows + [NewRow(digest, chain, ChainHead(rows), e).value];
    if rows != [] {
      assert GoodRow(digest, rows, |rows| - 1);
    }
    forall k | 0 <= k < |more| ensures GoodRow(digest, more, k) {
      if k < |rows| {
        assert GoodRow(digest, rows, k);
      }
    }
  }

  /** The logger within one transaction that no other writes beside. */
  class AuditLogger {
    var chains: map<string, seq<Row>>
    const digest: Digest

    constructor (digest: Digest)
      ensures this.digest == digest && chains == map[] && AllGood()
    {
      this.digest := digest;
      chains := map[];
    }

    function Chain(chain: string): seq<Row>
      reads this
    {
      if chain in chains then chains[chain] else []
    }

    ghost predicate AllGood()
      reads this
    {
      forall c: string :: GoodChain(digest, Chain(c)) && forall row :: row in Chain(c) ==> row.fields.chainId == c
    }

    /** append: one more row on the chain, linked to the row before it, and every chain still
        verifies; or an exception and no change. */
    method Append(chain: string, e: Entry) returns (written: bool)
      requires AllGood()
      modifies this`chains
      ensures AllGood()
      ensures written <==>
                && (e.actorType == "SYSTEM" || e.actorType == "USER") && e.occurredAt.Instant?
                && Stable(e.affected) && Stable(e.before) && Stable(e.after)
      ensures !written ==> chains == old(chains)
      ensures written ==>
                && |Chain(chain)| == |old(Chain(chain))| + 1 && old(Chain(chain)) <= Chain(chain)
                && var f := Chain(chain)[|old(Chain(chain))|].fields;
                   && f.chainId == chain
                   && Entry(f.eventId, f.occurredAt, f.actorType, f.actorId, f.actionType, f.affected, f.before,
                            f.after, f.rationale) == e
      ensures forall c: string :: c != chain ==> Chain(c) == old(Chain(c))
    {
      hide GoodChain;
      if !Acceptable(e) {
        return false;
      }
      var head := ChainHead(Chain(chain));
      var fields := FieldsAfter(chain, head, e);
      var hash := ComputeHash(digest, fields);
      if hash == None {
        return false;
      }
      ghost var was := Chain(chain);
      AppendKeepsGood(digest, chain, was, e);
      chains := chains[chain := Chain(chain) + [Row(fields, hash.value)]];
      assert forall c: string :: c != chain ==> Chain(c) == old(Chain(c));
      assert forall row :: row in Chain(chain) ==> row in was || row == Row(fields, hash.value);
      return true;
    }
  }

  // ------------------------------------------------------------------- the lock protocol

  /** One open transaction: the chain locks it holds, the heads it has read and not written on yet,
      and the rows it has added. */
  datatype Tx = Tx(locks: set<string>, seen: map<string, Option<Head>>, added: map<string, seq<Row>>)

  const NEW_TX := Tx({}, map[], map[])

  datatype State = State(committed: map<string, seq<Row>>, open: map<nat, Tx>)

  datatype Event =
    | Lock(session: nat, chain: string)
    | ReadHead(session: nat, chain: string)
    | Write(session: nat, chain: string, entry: Entry)
    | Commit(session: nat)
    | Rollback(session: nat)

  function Rows(m: map<string, seq<Row>>, chain: string): seq<Row> {
    if chain in m then m[chain] else []
  }

  function TxOf(st: State, session: nat): Tx {
    if session in st.open then st.open[session] else NEW_TX
  }

  /** What a transaction sees of a chain: the committed rows and its own. */
  function View(st: State, session: nat, chain: string): seq<Row> {
    Rows(st.committed, chain) + Rows(TxOf(st, session).added, chain)
  }

  /** The lock blocks while another transaction holds it; a transaction reads only under the lock and
      writes only what follows the head it read. */
  ghost predicate Possible(st: State, ev: Event) {
    match ev
    case Lock(s, c) => forall other :: other in st.open && other != s ==> c !in st.open[other].locks
    case ReadHead(s, c) => c in TxOf(st, s).locks
    case Write(s, c, e) => c in TxOf(st, s).seen
    case Commit(s) => s in st.open
    case Rollback(s) => s in st.open
  }

  function Happen(digest: Digest, st: State, ev: Event): State {
    match ev
    case Lock(s, c) => st.(open := st.open[s := TxOf(st, s).(locks := TxOf(st, s).locks + {c})])
    case ReadHead(s, c) =>
      st.(open := st.open[s := TxOf(st, s).(seen := TxOf(st, s).seen[c := ChainHead(View(st, s, c))])])
    case Write(s, c, e) =>
      var tx := TxOf(st, s);
      if c !in tx.seen then st
      else
        var row := NewRow(digest, c, tx.seen[c], e);
        st.(open := st.open[s := Tx(tx.locks, tx.seen - {c},
                                    if row == None then tx.added else tx.added[c := Rows(tx.added, c) + [row.value]])])
    case Commit(s) =>
      var tx := TxOf(st, s);
      State(map c | c in st.committed.Keys + tx.added.Keys :: Rows(st.committed, c) + Rows(tx.added, c), st.open - {s})
    case Rollback(s) => st.(open := st.open - {s})
  }

  /** The safety of one chain as a transaction sees it. */
  ghost predicate SoundView(digest: Digest, st: State, s: nat, c: string) {
    && GoodChain(digest, View(st, s, c))
    && (forall row :: row in View(st, s, c) ==> row.fields.chainId == c)
    && (Rows(TxOf(st, s).added, c) != [] ==> c in TxOf(st, s).locks)
    && (c in TxOf(st, s).seen ==> c in TxOf(st, s).locks && TxOf(st, s).seen[c] == ChainHead(View(st, s, c)))
  }

  ghost predicate Exclusive(st: State) {
    forall s, t, c: string :: s in st.open && t in st.open && s != t ==>
      c !in st.open[s].locks || c !in st.open[t].locks
  }

  ghost predicate Safe(digest: Digest, st: State) {
    Exclusive(st) && forall s: nat, c: string :: SoundView(digest, st, s, c)
  }

  /** Some transaction number is not open. */
  lemma NotOpen(st: State) returns (s: nat)
    ensures s !in st.open
  {
    s := Above(st.open.Keys);
  }

  lemma {:induction false} Above(used: set<nat>) returns (s: nat)
    ensures forall t :: t in used ==> t < s
  {
    if used == {} {
      s := 0;
    } else {
      var t :| t in used;
      var rest := Above(used - {t});
      s := if rest > t then rest else t + 1;
      assert used == (used - {t}) + {t};
    }
  }

  /** A transaction that has not started sees just what is committed. */
  lemma CommittedIsGood(digest: Digest, st: State, c: string)
    requires Safe(digest, st)
    ensures GoodChain(digest, Rows(st.committed, c))
    ensures forall row :: row in Rows(st.committed, c) ==> row.fields.chainId == c
  {
    var s := NotOpen(st);
    assert SoundView(digest, st, s, c);
    assert View(st, s, c) == Rows(st.committed, c);
  }

  lemma LockKeepsView(digest: Digest, st: State, s: nat, c: string, t: nat, d: string)
    requires Safe(digest, st) && Possible(st, Lock(s, c))
    ensures SoundView(digest, Happen(digest, st, Lock(s, c)), t, d)
  {
    hide GoodChain;
    assert SoundView(digest, st, t, d);
    assert View(Happen(digest, st, Lock(s, c)), t, d) == View(st, t, d);
  }

  lemma ReadKeepsView(digest: Digest, st: State, s: nat, c: string, t: nat, d: string)
    requires Safe(digest, st) && Possible(st, ReadHead(s, c))
    ensures SoundView(digest, Happen(digest, st, ReadHead(s, c)), t, d)
  {
    hide GoodChain, ChainHead;
    assert SoundView(digest, st, t, d);
    assert View(Happen(digest, st, ReadHead(s, c)), t, d) == View(st, t, d);
  }

  lemma WriteKeepsView(digest: Digest, st: State, s: nat, c: string, e: Entry, t: nat, d: string)
    requires Safe(digest, st) && Possible(st, Write(s, c, e))
    ensures SoundView(digest, Happen(digest, st, Write(s, c, e)), t, d)
  {
    hide GoodChain, ChainHead, NewRow;
    assert SoundView(digest, st, t, d);
    var after := Happen(digest, st, Write(s, c, e));
    var row := NewRow(digest, c, TxOf(st, s).seen[c], e);
    if t == s && d == c && row.Some? {
      assert SoundView(digest, st, s, c);
      AppendKeepsGood(digest, c, View(st, s, c), e);
      NewRowIsOnChain(digest, c, ChainHead(View(st, s, c)), e);
      assert View(after, s, c) == View(st, s, c) + [row.value];
    } else {
      assert View(after, t, d) == View(st, t, d);
    }
  }

  lemma NewRowIsOnChain(digest: Digest, chain: string, head: Option<Head>, e: Entry)
    ensures var row := NewRow(digest, chain, head, e); row.Some? ==> row.value.fields.chainId == chain
  {
  }

  /** What transaction s commits of chain d becomes what everybody sees of it. */
  lemma CommitShows(digest: Digest, st: State, s: nat, d: string)
    requires Possible(st, Commit(s))
    ensures Rows(Happen(digest, st, Commit(s)).committed, d) == View(st, s, d)
    ensures TxOf(Happen(digest, st, Commit(s)), s) == NEW_TX
    ensures forall t: nat :: t != s ==> TxOf(Happen(digest, st, Commit(s)), t) == TxOf(st, t)
  {
  }

  /** Of two transactions at most one has rows of chain d, and then the other has not read its head. */
  lemma OneWriter(digest: Digest, st: State, s: nat, t: nat, d: string)
    requires Safe(digest, st) && s in st.open && s != t && Rows(TxOf(st, s).added, d) != []
    ensures Rows(TxOf(st, t).added, d) == [] && d !in TxOf(st, t).seen
  {
    hide GoodChain, ChainHead;
    assert SoundView(digest, st, s, d) && SoundView(digest, st, t, d);
  }

  lemma CommitKeepsView(digest: Digest, st: State, s: nat, t: nat, d: string)
    requires Safe(digest, st) && Possible(st, Commit(s))
    ensures SoundView(digest, Happen(digest, st, Commit(s)), t, d)
  {
    hide GoodChain, ChainHead, Exclusive, Happen;
    var after := Happen(digest, st, Commit(s));
    assert SoundView(digest, st, s, d) && SoundView(digest, st, t, d);
    CommitShows(digest, st, s, d);
    if t != s && Rows(TxOf(st, s).added, d) != [] {
      OneWriter(digest, st, s, t, d);
    }
    if t == s || Rows(TxOf(st, s).added, d) != [] {
      assert View(after, t, d) == View(st, s, d);
    } else {
      assert View(after, t, d) == View(st, t, d);
    }
  }

  lemma RollbackKeepsView(digest: Digest, st: State, s: nat, t: nat, d: string)
    requires Safe(digest, st) && Possible(st, Rollback(s))
    ensures SoundView(digest, Happen(digest, st, Rollback(s)), t, d)
  {
    hide GoodChain, ChainHead;
    assert SoundView(digest, st, t, d);
    var after := Happen(digest, st, Rollback(s));
    if t == s {
      CommittedIsGood(digest, st, d);
      assert View(after, t, d) == Rows(st.committed, d);
    } else {
      assert View(after, t, d) == View(st, t, d);
    }
  }

  lemma EventKeepsSafe(digest: Digest, st: State, ev: Event)
    requires Safe(digest, st) && Possible(st, ev)
    ensures Safe(digest, Happen(digest, st, ev))
  {
    hide SoundView;
    forall t: nat, d: string ensures SoundView(digest, Happen(digest, st, ev), t, d) {
      match ev
      case Lock(s, c) => LockKeepsView(digest, st, s, c, t, d);
      case ReadHead(s, c) => ReadKeepsView(digest, st, s, c, t, d);
      case Write(s, c, e) => WriteKeepsView(digest, st, s, c, e, t, d);
      case Commit(s) => CommitKeepsView(digest, st, s, t, d);
      case Rollback(s) => RollbackKeepsView(digest, st, s, t, d);
    }
  }

  function Run(digest: Digest, events: seq<Event>): State {
    if events == [] then State(map[], map[])
    else Happen(digest, Run(digest, events[..|events| - 1]), events[|events| - 1])
  }

  ghost predicate AllPossible(digest: Digest, events: seq<Event>) {
    events != [] ==>
      && AllPossible(digest, events[..|events| - 1])
      && Possible(Run(digest, events[..|events| - 1]), events[|events| - 1])
  }

  lemma {:induction false} EveryRunIsSafe(digest: Digest, events: seq<Event>)
    requires AllPossible(digest, events)
    ensures Safe(digest, Run(digest, events))
  {
    if events == [] {
      assert forall s: nat, c: string :: View(Run(digest, events), s, c) == [];
    } else {
      hide Safe, Possible, Happen;
      EveryRunIsSafe(digest, events[..|events| - 1]);
      EventKeepsSafe(digest, Run(digest, events[..|events| - 1]), events[|events| - 1]);
    }
  }

  /** Every chain built by any interleaving of locked appends verifies, with every row on its own
      chain and no sequence number used twice. */
  lemma EveryChainVerifies(digest: Digest, events: seq<Event>, chain: string)
    requires AllPossible(digest, events)
    ensures var rows := Rows(Run(digest, events).committed, chain);
            && GoodChain(digest, rows)
            && (forall row :: row in rows ==> row.fields.chainId == chain)
            && (forall j, k :: 0 <= j < k < |rows| ==> rows[j].fields.sequenceNo < rows[k].fields.sequenceNo)
  {
    EveryRunIsSafe(digest, events);
    CommittedIsGood(digest, Run(digest, events), chain);
    var rows := Rows(Run(digest, events).committed, chain);
    forall k | 0 <= k < |rows| ensures rows[k].fields.sequenceNo == k + 1 {
      assert GoodRow(digest, rows, k);
    }
  }

  lemma EventAddsRows(digest: Digest, st: State, ev: Event, chain: string)
    requires Possible(st, ev)
    ensures Rows(st.committed, chain) <= Rows(Happen(digest, st, ev).committed, chain)
  {
  }

  /** What is committed stays: over any run, the rows committed after its first n events are the first rows
      committed at its end, unchanged and in the same place. */
  lemma {:induction false} CommittedOnlyGrows(digest: Digest, events: seq<Event>, n: nat, chain: string)
    requires AllPossible(digest, events) && n <= |events|
    ensures Rows(Run(digest, events[..n]).committed, chain) <= Rows(Run(digest, events).committed, chain)
    decreases |events|
  {
    hide Possible, Happen, Rows;
    if n == |events| {
      assert events[..n] == events;
    } else {
      var front, last := events[..|events| - 1], events[|events| - 1];
      assert front[..n] == events[..n];
      CommittedOnlyGrows(digest, front, n, chain);
      EventAddsRows(digest, Run(digest, front), last, chain);
    }
  }

  /** A head noted at any moment of a run pins the history up to then: whatever chain verifies against it, the
      rows committed at the end of the run begin with that chain. */
  lemma NotedHeadPinsTheBeginning(digest: Digest, events: seq<Event>, n: nat, chain: string, rows: seq<Row>)
    requires CollisionFree(digest)
    requires AllPossible(digest, events) && n <= |events|
    requires GoodChain(digest, rows)
    requires ChainHead(rows) == ChainHead(Rows(Run(digest, events[..n]).committed, chain))
    ensures rows <= Rows(Run(digest, events).committed, chain)
  {
    hide GoodChain, ChainHead, Possible, Happen, Rows, CollisionFree;
    PossibleBefore(digest, events, n);
    EveryRunIsSafe(digest, events[..n]);
    CommittedIsGood(digest, Run(digest, events[..n]), chain);
    SameHeadSameHistory(digest, rows, Rows(Run(digest, events[..n]).committed, chain));
    CommittedOnlyGrows(digest, events, n, chain);
  }

  lemma {:induction false} PossibleBefore(digest: Digest, events: seq<Event>, n: nat)
    requires AllPossible(digest, events) && n <= |events|
    ensures AllPossible(digest, events[..n])
    decreases |events|
  {
    hide Possible, Run;
    if n == |events| {
      assert events[..n] == events;
    } else {
      var front := events[..|events| - 1];
      assert front[..n] == events[..n];
      PossibleBefore(digest, front, n);
    }
  }

  // ------------------------------------------------------------------- an unlocked chain can be written

  /** A new session that finds a chain unlocked can append to it and commit; what it commits is what was there and, if
      the entry is acceptable, one row with that entry; everything else stays. */
  lemma UnlockedChainCanBeWritten(digest: Digest, st: State, s: nat, c: string, e: Entry)
    requires s !in st.open && forall other :: other in st.open ==> c !in st.open[other].locks
    ensures var locked := Happen(digest, st, Lock(s, c));
            var read := Happen(digest, locked, ReadHead(s, c));
            var written := Happen(digest, read, Write(s, c, e));
            var after := Happen(digest, written, Commit(s));
            && Possible(st, Lock(s, c)) && Possible(locked, ReadHead(s, c)) && Possible(read, Write(s, c, e))
            && Possible(written, Commit(s))
            && after.open == st.open
            && (forall d: string :: d != c ==> Rows(after.committed, d) == Rows(st.committed, d))
            && var was, now := Rows(st.committed, c), Rows(after.committed, c);
               && was <= now
               && if (e.actorType == "SYSTEM" || e.actorType == "USER") && e.occurredAt.Instant?
                     && Stable(e.affected) && Stable(e.before) && Stable(e.after)
                  then
                    && |now| == |was| + 1
                    && var f := now[|was|].fields;
                       Entry(f.eventId, f.occurredAt, f.actorType, f.actorId, f.actionType, f.affected, f.before,
                             f.after, f.rationale) == e
                  else now == was
  {
    hide ChainHead, Stable;
    var locked := Happen(digest, st, Lock(s, c));
    assert TxOf(locked, s) == Tx({c}, map[], map[]);
    var read := Happen(digest, locked, ReadHead(s, c));
    var head := ChainHead(View(locked, s, c));
    assert TxOf(read, s) == Tx({c}, map[c := head], map[]);
    var written := Happen(digest, read, Write(s, c, e));
    var row := NewRow(digest, c, head, e);
    assert TxOf(read, s).seen[c] == head && Rows(TxOf(read, s).added, c) == [];
    assert written == read.(open := read.open[s := TxOf(written, s)]);
    assert TxOf(written, s).added == if row == None then map[] else map[c := [] + [row.value]];
    assert Happen(digest, written, Commit(s)).open == st.open;
  }
}

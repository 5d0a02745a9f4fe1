/** The run protocol (src/recon/runs/service.py, src/recon/runs/backlog.py): starting, replaying,
    activating, reaping and finishing reconciliation runs under the two uniqueness constraints, in any
    interleaving. A run's id is its position. */
module RunProtocol {
  import opened Ledger

  datatype RunStatus = Pending | Running | Completed | Failed

  datatype Request = Request(bank: string, mode: string, from: Option<int>, to: Option<int>)

  datatype Run = Run(key: string, request: Request, status: RunStatus, startedAt: Option<int>, completedAt: Option<int>)

  datatype StartOutcome = Created(run: nat) | Replayed(run: nat) | KeyConflict | AlreadyActive | BadRange

  predicate RangeIsBad(r: Request) {
    r.from.Some? && r.to.Some? && r.from.value > r.to.value
  }

  // ------------------------------------------------------------------- the table

  predicate HasKey(runs: seq<Run>, key: string) {
    exists i :: 0 <= i < |runs| && runs[i].key == key
  }

  /** _by_key: the run with the key; there is at most one. */
  function ByKey(runs: seq<Run>, key: string): (r: Option<nat>)
    ensures r.Some? ==> r.value < |runs| && runs[r.value].key == key
    ensures r == None <==> !HasKey(runs, key)
  {
    if runs == [] then None
    else if runs[|runs| - 1].key == key then Some(|runs| - 1)
    else
      var n := |runs| - 1;
      assert HasKey(runs, key) <==> HasKey(runs[..n], key) by { KeyAmongFirst(runs, key); }
      ByKey(runs[..n], key)
  }

  lemma KeyAmongFirst(runs: seq<Run>, key: string)
    requires runs != [] && runs[|runs| - 1].key != key
    ensures HasKey(runs, key) <==> HasKey(runs[..|runs| - 1], key)
  {
    if i :| 0 <= i < |runs| && runs[i].key == key {
      assert runs[..|runs| - 1][i].key == key;
    }
    var front := runs[..|runs| - 1];
    if i :| 0 <= i < |front| && front[i].key == key {
      assert runs[i].key == key;
    }
  }

  predicate BankRunning(runs: seq<Run>, bank: string) {
    exists i :: 0 <= i < |runs| && runs[i].request.bank == bank && runs[i].status == Running
  }

  predicate Stale(r: Run, bank: string, now: int, staleAfter: int) {
    r.request.bank == bank && r.status == Running && r.startedAt.Some? && r.startedAt.value < now - staleAfter
  }

  /** _reap_stale: the bank's RUNNING runs started too long ago become FAILED. */
  function Reaped(runs: seq<Run>, bank: string, now: int, staleAfter: int): (r: seq<Run>)
    ensures |r| == |runs|
  {
    seq(|runs|, i requires 0 <= i < |runs| =>
      if Stale(runs[i], bank, now, staleAfter) then runs[i].(status := Failed, completedAt := Some(now)) else runs[i])
  }

  function NewRun(key: string, request: Request, defer: bool, now: int): Run {
    Run(key, request, if defer then Pending else Running, if defer then None else Some(now), None)
  }

  function Replay(runs: seq<Run>, i: nat, request: Request): StartOutcome
    requires i < |runs|
  {
    if runs[i].request == request then Replayed(i) else KeyConflict
  }

  /** The part of start after its lookup found nothing: reap, then insert under the constraints. When
      both are violated either may be the one reported. A raised error rolls the reaping back. */
  function Insert(runs: seq<Run>, key: string, request: Request, defer: bool, now: int, staleAfter: int,
                  keyFirst: bool): (seq<Run>, StartOutcome)
  {
    var reaped := Reaped(runs, request.bank, now, staleAfter);
    var winner := ByKey(reaped, key);
    var blocked := !defer && BankRunning(reaped, request.bank);
    if winner.Some? && (keyFirst || !blocked) then
      var outcome := Replay(reaped, winner.value, request);
      (if outcome.Replayed? then reaped else runs, outcome)
    else if blocked then (runs, AlreadyActive)
    else (reaped + [NewRun(key, request, defer, now)], Created(|runs|))
  }

  /** start, when nothing comes between its lookup and its insert. */
  function Start(runs: seq<Run>, key: string, request: Request, defer: bool, now: int, staleAfter: int)
    : (seq<Run>, StartOutcome)
  {
    if RangeIsBad(request) then (runs, BadRange)
    else
      var existing := ByKey(runs, key);
      if existing.Some? then (runs, Replay(runs, existing.value, request))
      else Insert(runs, key, request, defer, now, staleAfter, true)
  }

  datatype ActivateOutcome = Activated | NotPending | BankBusy

  /** activate: PENDING becomes RUNNING unless the bank has a run in progress. */
  function Activate(runs: seq<Run>, i: nat, now: int, staleAfter: int): (seq<Run>, ActivateOutcome) {
    if i >= |runs| || runs[i].status != Pending then (runs, NotPending)
    else
      var reaped := Reaped(runs, runs[i].request.bank, now, staleAfter);
      if BankRunning(reaped, runs[i].request.bank) then (reaped, BankBusy)
      else (reaped[i := reaped[i].(status := Running, startedAt := Some(now))], Activated)
  }

  /** run_queued: a run that cannot be activated is FAILED, so that it can be queued again. */
  function RunQueued(runs: seq<Run>, i: nat, now: int, staleAfter: int): seq<Run> {
    var (after, outcome) := Activate(runs, i, now, staleAfter);
    if outcome == BankBusy && i < |after|
    then after[i := after[i].(status := Failed, completedAt := Some(now))]
    else after
  }

  /** _finish: whatever the status is by then. */
  function Finish(runs: seq<Run>, i: nat, ok: bool, now: int): seq<Run> {
    if i >= |runs| then runs
    else runs[i := runs[i].(status := if ok then Completed else Failed, completedAt := Some(now))]
  }

  // ------------------------------------------------------------------- the service

  class RunService {
    var runs: seq<Run>
    const staleAfter: int

    constructor (staleAfter: int)
      ensures runs == [] && this.staleAfter == staleAfter
    {
      this.staleAfter := staleAfter;
      runs := [];
    }

    /** The bulk update of _reap_stale, row by row. */
    method ReapStale(bank: string, now: int)
      modifies this`runs
      ensures runs == Reaped(old(runs), bank, now, staleAfter)
    {
      hide Stale;
      var i := 0;
      while i < |runs|
        invariant 0 <= i <= |runs| && |runs| == |old(runs)|
        invariant forall k :: 0 <= k < i ==> runs[k] == Reaped(old(runs), bank, now, staleAfter)[k]
        invariant forall k :: i <= k < |runs| ==> runs[k] == old(runs)[k]
      {
        if Stale(runs[i], bank, now, staleAfter) {
          runs := runs[i := runs[i].(status := Failed, completedAt := Some(now))];
        }
        i := i + 1;
      }
    }

    /** start; the caller commits on success and rolls back on an error. */
    method StartRun(key: string, request: Request, defer: bool, now: int) returns (outcome: StartOutcome)
      modifies this`runs
      ensures (runs, outcome) == Start(old(runs), key, request, defer, now, staleAfter)
    {
      if RangeIsBad(request) {
        return BadRange;
      }
      var existing := ByKey(runs, key);
      if existing.Some? {
        return Replay(runs, existing.value, request);
      }
      var savepoint := runs;
      ReapStale(request.bank, now);
      ReapKeepsKeys(savepoint, request.bank, now, staleAfter, key);
      if !defer && BankRunning(runs, request.bank) {
        runs := savepoint;
        return AlreadyActive;
      }
      outcome := Created(|runs|);
      runs := runs + [NewRun(key, request, defer, now)];
    }

    /** activate followed by run_queued's handling of a busy bank. */
    method RunQueuedRun(i: nat, now: int)
      modifies this`runs
      ensures runs == RunQueued(old(runs), i, now, staleAfter)
    {
      if i >= |runs| || runs[i].status != Pending {
        return;
      }
      var bank := runs[i].request.bank;
      ReapStale(bank, now);
      if BankRunning(runs, bank) {
        runs := runs[i := runs[i].(status := Failed, completedAt := Some(now))];
      } else {
        runs := runs[i := runs[i].(status := Running, startedAt := Some(now))];
      }
    }

    /** _finish, without looking at the status; false when the row is gone. */
    method FinishRun(i: nat, ok: bool, now: int) returns (found: bool)
      modifies this`runs
      ensures found <==> i < |old(runs)|
      ensures runs == Finish(old(runs), i, ok, now)
      ensures found ==>
                var was := old(runs)[i];
                runs == old(runs)[i := Run(was.key, was.request, if ok then Completed else Failed, was.startedAt,
                                           Some(now))]
    {
      if i >= |runs| {
        return false;
      }
      runs := runs[i := runs[i].(status := if ok then Completed else Failed, completedAt := Some(now))];
      return true;
    }
  }

  lemma ReapKeepsKeys(runs: seq<Run>, bank: string, now: int, staleAfter: int, key: string)
    ensures HasKey(Reaped(runs, bank, now, staleAfter), key) <==> HasKey(runs, key)
  {
    var reaped := Reaped(runs, bank, now, staleAfter);
    assert forall i :: 0 <= i < |runs| ==> reaped[i].key == runs[i].key;
  }

  // ------------------------------------------------------------------- every interleaving

  /** What can happen to the table. `LateInsert` is the insert of a start whose lookup, some time ago,
      found nothing; `Finish` comes from an execution that found the run RUNNING when it began. */
  datatype Event =
    | Starts(key: string, request: Request, defer: bool, now: int)
    | LateInsert(key: string, request: Request, defer: bool, now: int, keyFirst: bool)
    | Queued(run: nat, now: int)
    | Finishes(run: nat, ok: bool, now: int)

  predicate Possible(runs: seq<Run>, ev: Event) {
    match ev
    case LateInsert(_, request, _, _, _) => !RangeIsBad(request)
    case Finishes(i, _, _) => i < |runs| && runs[i].startedAt.Some?
    case _ => true
  }

  function Happen(runs: seq<Run>, ev: Event, staleAfter: int): seq<Run> {
    match ev
    case Starts(key, request, defer, now) => Start(runs, key, request, defer, now, staleAfter).0
    case LateInsert(key, request, defer, now, keyFirst) =>
      Insert(runs, key, request, defer, now, staleAfter, keyFirst).0
    case Queued(i, now) => RunQueued(runs, i, now, staleAfter)
    case Finishes(i, ok, now) => Finish(runs, i, ok, now)
  }

  /** One RUNNING run per bank, one run per key, and a start time exactly for what has started. */
  ghost predicate Sound(runs: seq<Run>) {
    && (forall i, j :: 0 <= i < j < |runs| ==>
          !(runs[i].status == Running && runs[j].status == Running && runs[i].request.bank == runs[j].request.bank))
    && (forall i, j :: 0 <= i < j < |runs| ==> runs[i].key != runs[j].key)
    && (forall i :: 0 <= i < |runs| ==> (runs[i].status == Pending ==> runs[i].startedAt == None)
                                        && (runs[i].status == Running ==> runs[i].startedAt.Some?))
  }

  function Rank(s: RunStatus): nat {
    match s case Pending => 0 case Running => 1 case _ => 2
  }

  /** Runs are never removed, never change what they are, and never go back in status. */
  ghost predicate Forward(before: seq<Run>, after: seq<Run>) {
    && |before| <= |after|
    && (forall i :: 0 <= i < |before| ==>
          && after[i].key == before[i].key && after[i].request == before[i].request
          && Rank(before[i].status) <= Rank(after[i].status)
          && (before[i].status != Pending && after[i].status == Running ==> before[i].status == Running))
  }

  lemma ReapKeepsSound(runs: seq<Run>, bank: string, now: int, staleAfter: int)
    requires Sound(runs)
    ensures Sound(Reaped(runs, bank, now, staleAfter)) && Forward(runs, Reaped(runs, bank, now, staleAfter))
  {
  }

  lemma ForwardSteps(a: seq<Run>, b: seq<Run>, c: seq<Run>)
    requires Forward(a, b) && Forward(b, c)
    ensures Forward(a, c)
  {
  }

  lemma OneMoreRun(runs: seq<Run>, run: Run)
    requires Sound(runs) && !HasKey(runs, run.key)
    requires run.status == Running ==> run.startedAt.Some? && !BankRunning(runs, run.request.bank)
    requires run.status == Pending ==> run.startedAt == None
    ensures Sound(runs + [run]) && Forward(runs, runs + [run])
  {
  }

  lemma InsertKeepsSound(runs: seq<Run>, key: string, request: Request, defer: bool, now: int, staleAfter: int,
                         keyFirst: bool)
    requires Sound(runs)
    ensures var after := Insert(runs, key, request, defer, now, staleAfter, keyFirst).0;
            Sound(after) && Forward(runs, after)
  {
    hide Sound, Forward, BankRunning, Stale, ByKey, HasKey;
    var reaped := Reaped(runs, request.bank, now, staleAfter);
    ReapKeepsSound(runs, request.bank, now, staleAfter);
    NothingMoves(runs);
    if ByKey(reaped, key) == None && (defer || !BankRunning(reaped, request.bank)) {
      OneMoreRun(reaped, NewRun(key, request, defer, now));
      ForwardSteps(runs, reaped, reaped + [NewRun(key, request, defer, now)]);
    }
  }

  lemma NothingMoves(runs: seq<Run>)
    ensures Forward(runs, runs)
  {
  }

  lemma QueuedKeepsSound(runs: seq<Run>, i: nat, now: int, staleAfter: int)
    requires Sound(runs)
    ensures Sound(RunQueued(runs, i, now, staleAfter)) && Forward(runs, RunQueued(runs, i, now, staleAfter))
  {
    hide Stale;
    if i < |runs| && runs[i].status == Pending {
      ReapKeepsSound(runs, runs[i].request.bank, now, staleAfter);
    }
  }

  lemma EventKeepsSound(runs: seq<Run>, ev: Event, staleAfter: int)
    requires Sound(runs) && Possible(runs, ev)
    ensures Sound(Happen(runs, ev, staleAfter)) && Forward(runs, Happen(runs, ev, staleAfter))
  {
    match ev
    case Starts(key, request, defer, now) =>
      InsertKeepsSound(runs, key, request, defer, now, staleAfter, true);
    case LateInsert(key, request, defer, now, keyFirst) =>
      InsertKeepsSound(runs, key, request, defer, now, staleAfter, keyFirst);
    case Queued(i, now) =>
      QueuedKeepsSound(runs, i, now, staleAfter);
    case Finishes(i, ok, now) =>
  }

  function History(events: seq<Event>, staleAfter: int): seq<Run> {
    if events == [] then [] else Happen(History(events[..|events| - 1], staleAfter), events[|events| - 1], staleAfter)
  }

  ghost predicate AllPossible(events: seq<Event>, staleAfter: int) {
    events != [] ==>
      && AllPossible(events[..|events| - 1], staleAfter)
      && Possible(History(events[..|events| - 1], staleAfter), events[|events| - 1])
  }

  /** In every interleaving each bank has at most one RUNNING run and each key at most one run. */
  lemma {:induction false} EveryHistoryIsSound(events: seq<Event>, staleAfter: int)
    requires AllPossible(events, staleAfter)
    ensures Sound(History(events, staleAfter))
  {
    hide Sound, Possible, Happen, Forward;
    if events == [] {
      EmptyIsSound();
    } else {
      EveryHistoryIsSound(events[..|events| - 1], staleAfter);
      EventKeepsSound(History(events[..|events| - 1], staleAfter), events[|events| - 1], staleAfter);
    }
  }

  lemma EmptyIsSound()
    ensures Sound([])
  {
  }

  lemma {:induction false} HistoryMovesForward(events: seq<Event>, staleAfter: int, n: nat)
    requires n <= |events| && AllPossible(events, staleAfter)
    ensures Forward(History(events[..n], staleAfter), History(events, staleAfter))
    decreases |events| - n, |events|
  {
    hide Sound, Possible, Happen, Forward;
    if n == |events| {
      assert events[..n] == events;
      NothingMoves(History(events, staleAfter));
    } else {
      var front := events[..|events| - 1];
      assert front[..n] == events[..n];
      HistoryMovesForward(front, staleAfter, n);
      EveryHistoryIsSound(front, staleAfter);
      EventKeepsSound(History(front, staleAfter), events[|events| - 1], staleAfter);
      ForwardSteps(History(events[..n], staleAfter), History(front, staleAfter), History(events, staleAfter));
    }
  }

  /** A run that has left RUNNING never re-enters it, and one that has left PENDING never returns. */
  lemma NeverReEntered(events: seq<Event>, staleAfter: int, n: nat, i: nat)
    requires n <= |events| && AllPossible(events, staleAfter)
    requires i < |History(events[..n], staleAfter)|
    ensures i < |History(events, staleAfter)|
    ensures var before, after := History(events[..n], staleAfter)[i].status, History(events, staleAfter)[i].status;
            && (before == Completed || before == Failed ==> after == Completed || after == Failed)
            && (before != Pending ==> after != Pending)
  {
    hide History, AllPossible;
    HistoryMovesForward(events, staleAfter, n);
  }

  /** Once a key has been used, every later start with it, whenever it comes, creates nothing: the same
      request gets the original run back, any other is a conflict. */
  lemma ReplayIsIdempotent(events: seq<Event>, staleAfter: int, n: nat, i: nat, request: Request, defer: bool, now: int)
    requires n <= |events| && AllPossible(events, staleAfter) && !RangeIsBad(request)
    requires i < |History(events[..n], staleAfter)|
    ensures var original, runs := History(events[..n], staleAfter)[i], History(events, staleAfter);
            Start(runs, original.key, request, defer, now, staleAfter)
            == (runs, if original.request == request then Replayed(i) else KeyConflict)
  {
    hide History, AllPossible;
    HistoryMovesForward(events, staleAfter, n);
    EveryHistoryIsSound(events, staleAfter);
    var runs := History(events, staleAfter);
    assert runs[i].key == History(events[..n], staleAfter)[i].key;
    OnlyRunWithKey(runs, i);
  }

  lemma OnlyRunWithKey(runs: seq<Run>, i: nat)
    requires Sound(runs) && i < |runs|
    ensures ByKey(runs, runs[i].key) == Some(i)
  {
    assert HasKey(runs, runs[i].key);
    var found := ByKey(runs, runs[i].key).value;
    assert runs[found].key == runs[i].key;
  }

  /** A start that lost the race for its key creates no run either. */
  lemma LateStartCreatesNoTwin(runs: seq<Run>, i: nat, request: Request, defer: bool, now: int, staleAfter: int,
                               keyFirst: bool)
    requires Sound(runs) && i < |runs|
    ensures var (after, outcome) := Insert(runs, runs[i].key, request, defer, now, staleAfter, keyFirst);
            && |after| == |runs| && !outcome.Created?
            && (outcome.Replayed? ==> outcome == Replayed(i) && runs[i].request == request)
            && (keyFirst ==> (outcome == Replayed(i) <==> runs[i].request == request))
  {
    hide BankRunning, Stale;
    ReapKeepsSound(runs, request.bank, now, staleAfter);
    OnlyRunWithKey(Reaped(runs, request.bank, now, staleAfter), i);
  }

  // ------------------------------------------------------------------- who is reaped

  /** A run of the bank is in progress and was started no longer ago than allowed. */
  ghost predicate FreshRun(runs: seq<Run>, bank: string, now: int, staleAfter: int) {
    exists i :: 0 <= i < |runs| && runs[i].request.bank == bank && runs[i].status == Running
                && runs[i].startedAt.Some? && runs[i].startedAt.value >= now - staleAfter
  }

  /** The run as a start or an activation for the bank leaves it: FAILED if it is of that bank, in progress and
      was started too long ago. */
  function AfterReaping(r: Run, bank: string, now: int, staleAfter: int): Run {
    if r.request.bank == bank && r.status == Running && r.startedAt.Some? && r.startedAt.value < now - staleAfter
    then Run(r.key, r.request, Failed, r.startedAt, Some(now))
    else r
  }

  lemma ReapedIsAfterReaping(runs: seq<Run>, bank: string, now: int, staleAfter: int)
    requires Sound(runs)
    ensures forall i :: 0 <= i < |runs| ==>
              Reaped(runs, bank, now, staleAfter)[i] == AfterReaping(runs[i], bank, now, staleAfter)
    ensures BankRunning(Reaped(runs, bank, now, staleAfter), bank) <==> FreshRun(runs, bank, now, staleAfter)
    ensures forall key: string ::
              HasKey(Reaped(runs, bank, now, staleAfter), key) <==> HasKey(runs, key)
  {
    var reaped := Reaped(runs, bank, now, staleAfter);
    if BankRunning(reaped, bank) {
      var i :| 0 <= i < |reaped| && reaped[i].request.bank == bank && reaped[i].status == Running;
      assert runs[i].request.bank == bank && runs[i].status == Running;
    }
    if FreshRun(runs, bank, now, staleAfter) {
      var i :| 0 <= i < |runs| && runs[i].request.bank == bank && runs[i].status == Running
               && runs[i].startedAt.Some? && runs[i].startedAt.value >= now - staleAfter;
      assert reaped[i] == runs[i];
    }
    forall key: string ensures HasKey(reaped, key) <==> HasKey(runs, key) {
      ReapKeepsKeys(runs, bank, now, staleAfter, key);
    }
  }

  /** What start answers and what it leaves, in every case. A used key settles the matter; otherwise the bank is busy
      exactly when a run of it in progress is not too old; otherwise there is one more run, those of the bank that
      are too old are FAILED, and all others are as they were. */
  lemma StartAnswers(runs: seq<Run>, key: string, request: Request, defer: bool, now: int, staleAfter: int)
    requires Sound(runs)
    ensures var (after, outcome) := Start(runs, key, request, defer, now, staleAfter);
            var bad := request.from.Some? && request.to.Some? && request.from.value > request.to.value;
            var used := exists i :: 0 <= i < |runs| && runs[i].key == key;
            && (outcome == BadRange <==> bad)
            && (forall i :: 0 <= i < |runs| && runs[i].key == key && !bad ==>
                  outcome == if runs[i].request == request then Replayed(i) else KeyConflict)
            && (outcome == AlreadyActive <==>
                  !bad && !used && !defer && FreshRun(runs, request.bank, now, staleAfter))
            && (outcome.Created? <==> !bad && !used && (defer || !FreshRun(runs, request.bank, now, staleAfter)))
            && (!outcome.Created? ==> after == runs)
            && (outcome.Created? ==>
                  && outcome.run == |runs| && |after| == |runs| + 1
                  && after[|runs|] == (if defer then Run(key, request, Pending, None, None)
                                       else Run(key, request, Running, Some(now), None))
                  && forall i :: 0 <= i < |runs| ==>
                       after[i] == AfterReaping(runs[i], request.bank, now, staleAfter))
  {
    hide BankRunning, FreshRun, AfterReaping, Reaped, Sound;
    ReapedIsAfterReaping(runs, request.bank, now, staleAfter);
    ByKeyOf(runs, key);
    ByKeyOf(Reaped(runs, request.bank, now, staleAfter), key);
  }

  lemma ByKeyOf(runs: seq<Run>, key: string)
    ensures ByKey(runs, key).Some? <==> exists i :: 0 <= i < |runs| && runs[i].key == key
    ensures Sound(runs) ==> forall i :: 0 <= i < |runs| && runs[i].key == key ==> ByKey(runs, key) == Some(i)
  {
    if Sound(runs) {
      forall i | 0 <= i < |runs| && runs[i].key == key ensures ByKey(runs, key) == Some(i) {
        OnlyRunWithKey(runs, i);
      }
    }
  }

  /** What a queued run becomes, and what becomes of the others. */
  lemma QueuedAnswers(runs: seq<Run>, i: nat, now: int, staleAfter: int)
    requires Sound(runs)
    ensures var after := RunQueued(runs, i, now, staleAfter);
            if i >= |runs| || runs[i].status != Pending then after == runs
            else
              var bank := runs[i].request.bank;
              && |after| == |runs|
              && after[i] == (if FreshRun(runs, bank, now, staleAfter)
                              then runs[i].(status := Failed, completedAt := Some(now))
                              else runs[i].(status := Running, startedAt := Some(now)))
              && forall j :: 0 <= j < |runs| && j != i ==>
                   after[j] == AfterReaping(runs[j], bank, now, staleAfter)
  {
    hide BankRunning, FreshRun, Reaped, Sound;
    if i < |runs| && runs[i].status == Pending {
      ReapedIsAfterReaping(runs, runs[i].request.bank, now, staleAfter);
    }
  }

  /** A run in progress becomes FAILED in one event exactly when its own execution fails, or when a start or an
      activation of the same bank that is not turned away comes more than the allowed time after it was started. */
  lemma RunningFailsIff(runs: seq<Run>, ev: Event, staleAfter: int, i: nat)
    requires Sound(runs) && Possible(runs, ev) && i < |runs| && runs[i].status == Running
    ensures i < |Happen(runs, ev, staleAfter)| && runs[i].startedAt.Some?
    ensures var bank, started := runs[i].request.bank, runs[i].startedAt.value;
            Happen(runs, ev, staleAfter)[i].status == Failed <==>
            match ev
            case Starts(key, request, defer, now) =>
              && !(request.from.Some? && request.to.Some? && request.from.value > request.to.value)
              && (forall j :: 0 <= j < |runs| ==> runs[j].key != key)
              && request.bank == bank && started < now - staleAfter
            case LateInsert(key, request, defer, now, keyFirst) =>
              && (forall j :: 0 <= j < |runs| && runs[j].key == key ==> runs[j].request == request)
              && request.bank == bank && started < now - staleAfter
            case Queued(j, now) =>
              && j < |runs| && runs[j].status == Pending && runs[j].request.bank == bank
              && started < now - staleAfter
            case Finishes(j, ok, now) => j == i && !ok
  {
    hide BankRunning, Reaped, HasKey, ByKey;
    match ev
    case Starts(key, request, defer, now) =>
      StartAnswers(runs, key, request, defer, now, staleAfter);
      StaleIsAlone(runs, i, request.bank, now, staleAfter);
    case LateInsert(key, request, defer, now, keyFirst) =>
      ReapedIsAfterReaping(runs, request.bank, now, staleAfter);
      StaleIsAlone(runs, i, request.bank, now, staleAfter);
      ReapKeepsSound(runs, request.bank, now, staleAfter);
      ByKeyOf(runs, key);
      ByKeyOf(Reaped(runs, request.bank, now, staleAfter), key);
    case Queued(j, now) =>
      QueuedAnswers(runs, j, now, staleAfter);
    case Finishes(j, ok, now) =>
  }

  lemma StaleIsAlone(runs: seq<Run>, i: nat, bank: string, now: int, staleAfter: int)
    requires Sound(runs) && i < |runs| && runs[i].status == Running
    ensures runs[i].request.bank == bank && runs[i].startedAt.value < now - staleAfter ==>
              !FreshRun(runs, bank, now, staleAfter)
  {
  }

  // ------------------------------------------------------------------- terminal statuses

  predicate Terminal(s: RunStatus) {
    s == Completed || s == Failed
  }

  /** A terminal status changes exactly when an execution that was still going finishes the other way:
      in particular a run reaped as FAILED becomes COMPLETED when its work ends after all. */
  lemma TerminalChangesIff(runs: seq<Run>, ev: Event, staleAfter: int, i: nat)
    requires Sound(runs) && Possible(runs, ev) && i < |runs| && Terminal(runs[i].status)
    ensures i < |Happen(runs, ev, staleAfter)|
    ensures Happen(runs, ev, staleAfter)[i].status != runs[i].status
            <==> ev.Finishes? && ev.run == i && ev.ok != (runs[i].status == Completed)
  {
  }

  lemma FirstStart(request: Request, staleAfter: int)
    requires !RangeIsBad(request)
    ensures Start([], "a", request, false, 0, staleAfter)
            == ([Run("a", request, Running, Some(0), None)], Created(0))
  {
    assert Reaped([], request.bank, 0, staleAfter) == [];
    assert !HasKey([], "a") && !BankRunning([], request.bank);
    assert [] + [NewRun("a", request, false, 0)] == [NewRun("a", request, false, 0)];
  }

  lemma StartAfterStale(request: Request)
    requires !RangeIsBad(request)
    ensures var one := Run("a", request, Running, Some(0), None);
            Start([one], "b", request, false, 100, 60)
            == ([one.(status := Failed, completedAt := Some(100)), Run("b", request, Running, Some(100), None)],
                Created(1))
  {
    var one := Run("a", request, Running, Some(0), None);
    var reaped := [one.(status := Failed, completedAt := Some(100))];
    assert Reaped([one], request.bank, 100, 60) == reaped;
    assert !HasKey([one], "b") && !HasKey(reaped, "b") && !BankRunning(reaped, request.bank);
    assert reaped + [NewRun("b", request, false, 100)] == [reaped[0], NewRun("b", request, false, 100)];
  }

  /** A concrete history: started at 0, reaped at 100 when a second run of the bank starts, and
      COMPLETED at 101 while that second run is RUNNING. */
  lemma ReapedRunMayComplete(request: Request)
    requires !RangeIsBad(request)
    ensures var first := Start([], "a", request, false, 0, 60).0;
            var second := Start(first, "b", request, false, 100, 60).0;
            var third := Finish(second, 0, true, 101);
            && |second| == 2 && second[0].status == Failed && second[1].status == Running
            && |third| == 2 && third[0].status == Completed && third[1].status == Running
            && Possible(second, Finishes(0, true, 101))
  {
    hide Start;
    FirstStart(request, 60);
    StartAfterStale(request);
  }
}

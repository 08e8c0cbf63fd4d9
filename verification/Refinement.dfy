/**
  The use cases only ever take steps of the protocol, so its guarantees are theirs. A use case reads at
  one point of an execution and writes at a later one; between the two the others commit.
 */
module Refinement {
  import opened Wrappers
  import opened Lifecycle
  import opened Store
  import opened Protocol
  import opened Invariance
  import opened Safety
  import opened Delivery
  import opened Persistence
  import opened Services

  /** A state that some execution reaches keeps the keys that the repositories rely on. */
  lemma ReachableIsConsistent(c: Config, s: System)
    requires Inv(c, s)
    ensures Consistent(s.db) && Unused(s.db, s.nextId) && Unused(s.db, s.nextId + 1)
  {
    forall r | r in s.db.runs ensures s.db.runs[r].id == r { RunFacts(c, s, r); }
    forall i | i in s.db.steps ensures s.db.steps[i].id == i { StepFacts(c, s, i); }
    forall i | i in s.db.events ensures s.db.events[i].id == i { EventFacts(c, s, i); }
    FreshId(c, s, s.nextId);
    FreshId(c, s, s.nextId + 1);
  }

  ghost function After(c: Config, s: System, actions: seq<Action>): System {
    if actions == [] then s else Step(c, After(c, s, actions[..|actions| - 1]), actions[|actions| - 1])
  }

  lemma {:induction false} AfterKeepsInv(c: Config, s: System, actions: seq<Action>)
    requires Inv(c, s)
    ensures Inv(c, After(c, s, actions)) && s.seen <= After(c, s, actions).seen
    ensures s.nextId <= After(c, s, actions).nextId
  {
    hide Inv, Step;
    if actions == [] {
    } else {
      var t := After(c, s, actions[..|actions| - 1]);
      AfterKeepsInv(c, s, actions[..|actions| - 1]);
      StepKeepsInv(c, t, actions[|actions| - 1]);
      FreshId(c, t, t.nextId);
      RecordsGrow(c, t, actions[|actions| - 1]);
    }
  }

  lemma {:induction false} AfterIsExec(c: Config, before: seq<Action>, actions: seq<Action>)
    ensures After(c, Exec(c, before), actions) == Exec(c, before + actions)
  {
    hide Step;
    if actions == [] {
      assert before + actions == before;
    } else {
      AfterIsExec(c, before, actions[..|actions| - 1]);
      assert (before + actions)[..|before + actions| - 1] == before + actions[..|actions| - 1];
    }
  }

  // --- Reading early, writing late -------------------------------------------------------------------

  lemma {:induction false} SeenOnlyGrows(c: Config, actions: seq<Action>, k: nat)
    requires k <= |actions|
    ensures Exec(c, actions[..k]).seen <= Exec(c, actions).seen
    ensures forall i :: i in Exec(c, actions[..k]).db.events ==>
              i in Exec(c, actions).db.events
              && SameRequest(Exec(c, actions[..k]).db.events[i], Exec(c, actions).db.events[i])
  {
    hide Step, Inv;
    if k == |actions| {
      assert actions[..k] == actions;
    } else {
      var before := actions[..|actions| - 1];
      assert before[..k] == actions[..k];
      SeenOnlyGrows(c, before, k);
      EveryExecutionKeepsInv(c, before);
      var s := Exec(c, before);
      FreshId(c, s, s.nextId);
      FreshId(c, s, s.nextId + 1);
      RecordsGrow(c, s, actions[|actions| - 1]);
      RequestsStay(c, s, actions[|actions| - 1]);
    }
  }

  ghost predicate KeepsRequests(s: System, t: System) {
    forall i :: i in s.db.events ==> i in t.db.events && SameRequest(s.db.events[i], t.db.events[i])
  }

  /** An event is never removed, and what it requests never changes. */
  lemma RequestsStay(c: Config, s: System, a: Action)
    requires s.nextId !in s.db.events && s.nextId + 1 !in s.db.events
    ensures KeepsRequests(s, Step(c, s, a))
  {
    hide KeepsRequests, DoCreate, DoCancel, DoClaim, DoHeartbeat, DoFinalize, DoFail, DoDispatch, DoReconcile;
    match a
    case Claim(eventId, read, current, worker, now) => ClaimKeepsRequests(c, s, eventId, read, current, worker, now);
    case Cancel(read, expectedVersion, now) => CancelKeepsRequests(s, read, expectedVersion, now);
    case Finalize(claim, read, now) => FinalizeKeepsRequests(s, claim, read, now);
    case Reconcile(eventId, joined, read, activeStep, now) =>
      ReconcileKeepsRequests(c, s, eventId, joined, read, activeStep, now);
    case _ => OthersKeepRequests(c, s, a);
  }

  lemma ClaimKeepsRequests(c: Config, s: System, eventId: Uuid, read: RunRow, current: Option<StepRow>, worker: string,
                           now: Time)
    ensures KeepsRequests(s, DoClaim(s, c, eventId, read, current, worker, now))
  {
    hide UpsertClaim, ClaimTarget;
    ClaimIsUpsert(s.db, eventId, read, current, worker, now, c.lease, s.nextId, s.nextId + 1);
    if ClaimTarget(read).Some? {
      UpsertKeepsEvents(s.db, Candidate(read, ClaimTarget(read).value, worker, now, c.lease, s.nextId, s.nextId + 1));
    }
  }

  lemma CancelKeepsRequests(s: System, read: RunRow, expectedVersion: nat, now: Time)
    ensures KeepsRequests(s, DoCancel(s, read, expectedVersion, now))
  {
    hide Terminal, Saved, CanSave;
  }

  lemma FinalizeKeepsRequests(s: System, claim: StepRow, read: RunRow, now: Time)
    requires s.nextId !in s.db.events
    ensures KeepsRequests(s, DoFinalize(s, claim, read, now))
  {
    hide Transition, Terminal;
  }

  lemma ReconcileKeepsRequests(c: Config, s: System, eventId: Uuid, joined: RunRow, read: RunRow, activeStep: bool,
                               now: Time)
    ensures KeepsRequests(s, DoReconcile(s, c, eventId, joined, read, activeStep, now))
  {
    hide Transition, StaleDelivery;
  }

  lemma OthersKeepRequests(c: Config, s: System, a: Action)
    requires s.nextId !in s.db.events && s.nextId + 1 !in s.db.events
    requires a.Create? || a.Heartbeat? || a.Fail? || a.Dispatch?
    ensures KeepsRequests(s, Step(c, s, a))
  {
    hide Transition;
  }

  lemma EarlierRowIsSeen(c: Config, actions: seq<Action>, k: nat, r: Uuid)
    requires k <= |actions| && r in Exec(c, actions[..k]).db.runs
    ensures Exec(c, actions[..k]).db.runs[r] in Exec(c, actions).seen && Exec(c, actions[..k]).db.runs[r].id == r
    ensures r in Exec(c, actions).db.runs
  {
    hide Exec, Inv;
    EveryExecutionKeepsInv(c, actions[..k]);
    RunFacts(c, Exec(c, actions[..k]), r);
    SeenOnlyGrows(c, actions, k);
    RunsOnlyGrow(c, actions, k, r);
  }

  /** A create that looked the key up at `k` and writes now: what it may rely on, and the step it takes. */
  lemma CreateIsAStep(c: Config, actions: seq<Action>, k: nat, key: string, fingerprint: string, now: Time)
    requires k <= |actions|
    ensures var early, s := Exec(c, actions[..k]), Exec(c, actions);
            && Consistent(early.db) && Consistent(s.db) && Unused(s.db, s.nextId)
            && (RequestKeyTaken(early.db, key) ==> RequestKeyTaken(s.db, key))
            && CreateTx(s.db, key, fingerprint, now, s.nextId, s.nextId + 1).0
               == Step(c, s, Create(key, fingerprint, now)).db
  {
    hide Exec, Inv, Consistent;
    var early, s := Exec(c, actions[..k]), Exec(c, actions);
    EveryExecutionKeepsInv(c, actions[..k]);
    EveryExecutionKeepsInv(c, actions);
    ReachableIsConsistent(c, early);
    ReachableIsConsistent(c, s);
    if RequestKeyTaken(early.db, key) {
      var r := RequestKeyHolder(early.db, key);
      RunsOnlyGrow(c, actions, k, r);
    }
  }

  lemma CancelIsAStep(c: Config, actions: seq<Action>, k: nat, r: Uuid, expectedVersion: nat, now: Time)
    requires k <= |actions|
    ensures var read, s := FindRun(Exec(c, actions[..k]).db, r), Exec(c, actions);
            CancelTx(s.db, r, read, expectedVersion, now).0
              == if read == None then s.db else Step(c, s, Cancel(read.value, expectedVersion, now)).db
  {
    hide Exec, Inv;
    if r in Exec(c, actions[..k]).db.runs {
      EarlierRowIsSeen(c, actions, k, r);
    }
  }

  /**
    A claim that read its event at `k`, its run at `j` and its current step at any point: what it may rely
    on, and the step it takes. A granted claim is among those granted from then on.
   */
  lemma ClaimIsAStep(c: Config, actions: seq<Action>, k: nat, j: nat, eventId: Uuid, current: Option<StepRow>,
                     worker: string, now: Time)
    requires k <= j <= |actions| && eventId in Exec(c, actions[..k]).db.events
    ensures var s := Exec(c, actions);
            var early, later := Exec(c, actions[..k]).db, Exec(c, actions[..j]).db;
            var r := early.events[eventId].aggregateId;
            && r in later.runs && eventId in s.db.events && SameRequest(early.events[eventId], s.db.events[eventId])
            && var (db, claim) :=
                 ClaimTx(s.db, eventId, FindRun(later, r), current, worker, now, c.lease, s.nextId, s.nextId + 1);
               var t := Step(c, s, Claim(eventId, later.runs[r], current, worker, now));
               db == t.db && (claim.Some? ==> claim.value in t.granted)
  {
    hide Exec, Inv, ClaimTx, Step, EventShape, EventOk, ReopenOk;
    var early := Exec(c, actions[..k]);
    var r := early.db.events[eventId].aggregateId;
    EveryExecutionKeepsInv(c, actions[..k]);
    EventFacts(c, early, eventId);
    SeenOnlyGrows(c, actions, k);
    assert actions[..j][..k] == actions[..k];
    RunsOnlyGrow(c, actions[..j], k, r);
    EarlierRowIsSeen(c, actions, j, r);
    ClaimTakesItsStep(c, Exec(c, actions), eventId, Exec(c, actions[..j]).db.runs[r], current, worker, now);
  }

  lemma ClaimTakesItsStep(c: Config, s: System, eventId: Uuid, read: RunRow, current: Option<StepRow>, worker: string,
                          now: Time)
    requires read in s.seen && eventId in s.db.events && s.db.events[eventId].aggregateId == read.id
    ensures var (db, claim) :=
              ClaimTx(s.db, eventId, Some(read), current, worker, now, c.lease, s.nextId, s.nextId + 1);
            var t := Step(c, s, Claim(eventId, read, current, worker, now));
            db == t.db && (claim.Some? ==> claim.value in t.granted)
  {
    hide ClaimTx;
  }

  lemma HeartbeatIsAStep(c: Config, s: System, claim: StepRow, now: Time)
    requires claim in s.granted
    ensures HeartbeatTx(s.db, claim, now, c.lease).0 == Step(c, s, Heartbeat(claim, now)).db
  {
  }

  /** Once a lease is renewed, and until the new one has run out, no claim takes the row over. */
  lemma RenewedLeaseHolds(c: Config, actions: seq<Action>, claim: StepRow, now: Time, eventId: Uuid, read: RunRow,
                          current: Option<StepRow>, worker: string, later: Time, stepId: Uuid, token: Uuid)
    requires claim in Exec(c, actions).granted && HeartbeatTx(Exec(c, actions).db, claim, now, c.lease).1
    requires read.id == claim.runId && ClaimTarget(read).Some? && claim.key == Main(ClaimTarget(read).value)
    requires later < now + c.lease
    ensures var db := HeartbeatTx(Exec(c, actions).db, claim, now, c.lease).0;
            ClaimTx(db, eventId, Some(read), current, worker, later, c.lease, stepId, token) == (db, None)
  {
    hide Exec, Inv, Step;
    var s := Exec(c, actions);
    var t := Step(c, s, Heartbeat(claim, now));
    EveryExecutionKeepsInv(c, actions);
    ClaimFacts(c, s, claim);
    HeartbeatIsAStep(c, s, claim, now);
    StepKeepsInv(c, s, Heartbeat(claim, now));
    KeyHolderIs(c, t, claim.id);
  }

  lemma KeyHolderIs(c: Config, s: System, i: Uuid)
    requires Inv(c, s) && i in s.db.steps
    ensures var row := s.db.steps[i];
            HasKey(s.db.steps, row.runId, row.key) && KeyHolder(s.db.steps, row.runId, row.key) == i
  {
    assert HasKey(s.db.steps, s.db.steps[i].runId, s.db.steps[i].key);
  }

  lemma FinalizeIsAStep(c: Config, actions: seq<Action>, k: nat, claim: StepRow, now: Time)
    requires k <= |actions| && claim in Exec(c, actions).granted
    ensures var read, s := FindRun(Exec(c, actions[..k]).db, claim.runId), Exec(c, actions);
            FinalizeTx(s.db, claim, read, now, s.nextId).0 == if read == None then s.db
                                                              else Step(c, s, Finalize(claim, read.value, now)).db
  {
    hide Exec, Inv, Transition;
    if claim.runId in Exec(c, actions[..k]).db.runs {
      EarlierRowIsSeen(c, actions, k, claim.runId);
      EveryExecutionKeepsInv(c, actions);
      RunFacts(c, Exec(c, actions), claim.runId);
    }
  }

  lemma FailIsAStep(c: Config, actions: seq<Action>, k: nat, claim: StepRow, code: string, detail: string, now: Time)
    requires k <= |actions| && claim in Exec(c, actions).granted
    ensures var read, s := FindRun(Exec(c, actions[..k]).db, claim.runId), Exec(c, actions);
            FailTx(s.db, claim, read, code, detail, now).0
              == if read == None then s.db else Step(c, s, Fail(claim, read.value, code, detail, now)).db
  {
    hide Exec, Inv, Transition;
    if claim.runId in Exec(c, actions[..k]).db.runs {
      EarlierRowIsSeen(c, actions, k, claim.runId);
      EveryExecutionKeepsInv(c, actions);
      RunFacts(c, Exec(c, actions), claim.runId);
    }
  }

  /** The cancel of a live run wakes exactly one event: the request of its current version. */
  lemma CancelWakesOneEvent(c: Config, actions: seq<Action>, r: Uuid)
    requires r in Exec(c, actions).db.runs
    ensures var db := Exec(c, actions).db;
            !Terminal(db.runs[r].state) <==> exists i :: WokenRows(db.events, r, db.runs[r].version) == {i}
  {
    hide Exec, Inv;
    var s := Exec(c, actions);
    EveryExecutionKeepsInv(c, actions);
    RunFacts(c, s, r);
    var version := s.db.runs[r].version;
    var rows := WokenRows(s.db.events, r, version);
    forall i | i in rows ensures version <= |s.outbox[r]| && i == s.outbox[r][version - 1] {
      RequestFacts(c, s, i);
    }
    if !Terminal(s.db.runs[r].state) {
      var i := s.outbox[r][version - 1];
      OutboxFacts(c, s, r, version);
      RequestFacts(c, s, i);
      assert rows == {i};
    }
    if i :| rows == {i} {
      assert i in rows;
    }
  }

  // --- Dispatching a batch -----------------------------------------------------------------------------

  function DispatchActions(batch: seq<EventRow>, refusal: Uuid -> Option<string>, retryAt: Uuid -> Time,
                           now: Time): seq<Action> {
    seq(|batch|, k requires 0 <= k < |batch| =>
      var id := batch[k].id;
      Dispatch(id, refusal(id) == None, true, if refusal(id) == None then "" else refusal(id).value, retryAt(id), now))
  }

  lemma {:induction false} DispatchPrefix(c: Config, s: System, batch: seq<EventRow>, refusal: Uuid -> Option<string>,
                                          retryAt: Uuid -> Time, now: Time)
    requires DistinctEvents(batch)
    requires forall k :: 0 <= k < |batch| ==>
      batch[k].id in s.db.events && s.db.events[batch[k].id] == batch[k] && Unpublished(batch[k], now)
    ensures After(c, s, DispatchActions(batch, refusal, retryAt, now)).db
         == s.db.(events := s.db.events + DispatchedRows(batch, refusal, retryAt, now))
  {
    hide Step, Unpublished, Dispatched, After, DispatchActions;
    var actions := DispatchActions(batch, refusal, retryAt, now);
    if batch == [] {
      NoDispatch(c, s, batch, refusal, retryAt, now);
    } else {
      var before, last := batch[..|batch| - 1], batch[|batch| - 1];
      DispatchPrefix(c, s, before, refusal, retryAt, now);
      var t, rows :=
        After(c, s, DispatchActions(before, refusal, retryAt, now)), DispatchedRows(before, refusal, retryAt, now);
      assert last.id !in rows;
      DispatchOne(c, t, last, refusal, retryAt, now);
      LastDispatch(c, s, batch, refusal, retryAt, now);
      UpdateOver(s.db.events, rows, last.id, Dispatched(last, refusal, retryAt, now));
    }
  }

  lemma NoDispatch(c: Config, s: System, batch: seq<EventRow>, refusal: Uuid -> Option<string>,
                   retryAt: Uuid -> Time, now: Time)
    requires batch == []
    ensures After(c, s, DispatchActions(batch, refusal, retryAt, now)) == s
    ensures s.db == s.db.(events := s.db.events + DispatchedRows(batch, refusal, retryAt, now))
  {
    assert s.db.events + map[] == s.db.events;
  }

  lemma UpdateOver<K, V>(m: map<K, V>, rows: map<K, V>, k: K, v: V)
    ensures m + rows[k := v] == (m + rows)[k := v]
  {
  }

  lemma LastDispatch(c: Config, s: System, batch: seq<EventRow>, refusal: Uuid -> Option<string>, retryAt: Uuid -> Time,
                     now: Time)
    requires batch != []
    ensures var before, id := batch[..|batch| - 1], batch[|batch| - 1].id;
            var error := if refusal(id) == None then "" else refusal(id).value;
            After(c, s, DispatchActions(batch, refusal, retryAt, now))
              == Step(c, After(c, s, DispatchActions(before, refusal, retryAt, now)),
                      Dispatch(id, refusal(id) == None, true, error, retryAt(id), now))
  {
    hide Step;
    var actions := DispatchActions(batch, refusal, retryAt, now);
    assert actions[..|batch| - 1] == DispatchActions(batch[..|batch| - 1], refusal, retryAt, now);
  }

  lemma DispatchOne(c: Config, s: System, event: EventRow, refusal: Uuid -> Option<string>, retryAt: Uuid -> Time,
                    now: Time)
    requires event.id in s.db.events && s.db.events[event.id] == event && Unpublished(event, now)
    ensures var error := if refusal(event.id) == None then "" else refusal(event.id).value;
            Step(c, s, Dispatch(event.id, refusal(event.id) == None, true, error, retryAt(event.id), now)).db
              == s.db.(events := s.db.events[event.id := Dispatched(event, refusal, retryAt, now)])
  {
  }

  /** A dispatched batch is a run of single dispatches at the point where it commits, whatever overlapped it. */
  lemma DispatchBatchIsAnExecution(c: Config, db: Tables, s: System, batch: seq<EventRow>, limit: nat,
                                   locked: set<Uuid>, refusal: Uuid -> Option<string>, retryAt: Uuid -> Time, now: Time)
    requires IsBatch(db, UnpublishedEvents(db, now) - locked, CreatedTime, batch, limit)
    requires forall k :: 0 <= k < |batch| ==> batch[k].id in s.db.events && s.db.events[batch[k].id] == batch[k]
    ensures After(c, s, DispatchActions(batch, refusal, retryAt, now)).db
         == s.db.(events := s.db.events + DispatchedRows(batch, refusal, retryAt, now))
  {
    DueBatch(db, now, locked, batch, limit);
    forall k | 0 <= k < |batch| ensures Unpublished(batch[k], now) {
      BatchEntry(db, UnpublishedEvents(db, now) - locked, CreatedTime, batch, limit, k);
    }
    DispatchPrefix(c, s, batch, refusal, retryAt, now);
  }

  // --- A reconciliation pass ---------------------------------------------------------------------------

  /** The reconciliations of a pass: each joined a row when it was selected and read its run later. */
  function ReconcileActions(batch: seq<EventRow>, joined: nat -> RunRow, read: nat -> RunRow,
                            now: Time): (actions: seq<Action>) {
    seq(|batch|, k requires 0 <= k < |batch| => Reconcile(batch[k].id, joined(k), read(k), false, now))
  }

  /** The budget of the event is spent and the run that was read is still at its version. */
  predicate Spent(c: Config, event: EventRow, read: RunRow) {
    c.maxAttempts <= event.publishAttempts && read.version == event.aggregateVersion
  }

  /**
    What a pass meets at one event, seen from the state it commits in: the row selected, the row joined,
    the row read, and that a run which it saved is locked from that write on.
   */
  ghost predicate Meets(c: Config, s: System, event: EventRow, joined: RunRow, read: RunRow, atWrite: Tables,
                        now: Time) {
    && event.id in s.db.events && s.db.events[event.id] == event
    && joined in s.seen && joined.id == event.aggregateId && StaleDelivery(event, joined, false, now - c.staleAfter)
    && read in s.seen && read.id == event.aggregateId
    && (Spent(c, event, read) && CanSave(atWrite, read.id, read.version) ==>
          read.id in s.db.runs && s.db.runs[read.id] == atWrite.runs[read.id])
  }

  predicate DistinctRuns(batch: seq<EventRow>) {
    forall k, l :: 0 <= k < l < |batch| ==> batch[k].aggregateId != batch[l].aggregateId
  }

  ghost predicate PassMeets(c: Config, s: System, batch: seq<EventRow>, joined: nat -> RunRow, read: nat -> RunRow,
                            meanwhile: nat -> Tables, now: Time) {
    && DistinctEvents(batch) && DistinctRuns(batch) && Locked(batch, meanwhile, 2 * |batch|)
    && forall k {:trigger batch[k]} :: 0 <= k < |batch| ==>
         && FindRun(meanwhile(2 * k), batch[k].aggregateId) == Some(read(k))
         && Meets(c, s, batch[k], joined(k), read(k), meanwhile(2 * k + 1), now)
  }

  /** The rows of a pass belong to the events and runs of its batch. */
  ghost predicate Within(batch: seq<EventRow>, own: Tables, firstId: Uuid, nextId: Uuid) {
    && (forall i :: i in own.events ==> exists k :: 0 <= k < |batch| && batch[k].id == i)
    && (forall r :: r in own.runs ==> exists k :: 0 <= k < |batch| && batch[k].aggregateId == r)
    && (forall i :: i in own.steps
                    ==> firstId <= i < nextId
                        && exists k :: 0 <= k < |batch| && batch[k].aggregateId == own.steps[i].runId)
  }

  /** The row read for an event that is still stale has not ended. */
  lemma ReadIsLive(c: Config, s: System, event: EventRow, joined: RunRow, read: RunRow)
    requires Inv(c, s) && joined in s.seen && read in s.seen && joined.id == read.id == event.aggregateId
    requires joined.version == event.aggregateVersion == read.version && !Terminal(joined.state)
    ensures !Terminal(read.state)
  {
    hide Inv;
    ReadIsPast(c, s, joined);
    ReadIsPast(c, s, read);
  }

  /** One recovery over other tables with the same event and, if it is saved, the same run. */
  lemma RecoveryAgrees(c: Config, db: Tables, other: Tables, event: EventRow, read: RunRow, now: Time, stepId: Uuid)
    requires event.id in db.events && db.events[event.id] == event && event.id in other.events
             && other.events[event.id] == event
    requires read.id == event.aggregateId && !(read.version == event.aggregateVersion && Terminal(read.state))
    requires Spent(c, event, read) && CanSave(db, read.id, read.version)
             ==> read.id in other.runs && other.runs[read.id] == db.runs[read.id]
    ensures var a := ReconcileTx(db, event.id, Some(read), c.maxAttempts, now, stepId);
            var b := ReconcileTx(other, event.id, Some(read), c.maxAttempts, now, stepId);
            && (a.1 == Aborted <==> Spent(c, event, read) && !CanSave(db, read.id, read.version))
            && (a.1 != Aborted ==> b.1 == a.1)
            && (a.1 == Skipped ==> b.0 == other)
            && (a.1 == EventReopened ==>
                  event.id in a.0.events && a.0.events[event.id] == Reopened(event, now)
                  && b.0 == other.(events := other.events[event.id := Reopened(event, now)]))
            && (a.1 == RunFailed ==>
                  && read.id in a.0.runs && stepId in a.0.steps && a.0.steps[stepId].runId == read.id
                  && b.0 == other.(runs := other.runs[read.id := a.0.runs[read.id]],
                                   steps := other.steps[stepId := a.0.steps[stepId]]))
  {
  }

  /** Writing the same rows over the tables they were computed on, or over the later ones, comes to the same. */
  lemma OverWritten(db: Tables, own: Tables, event: EventRow, read: RunRow, after: (Tables, Recovered), stepId: Uuid)
    ensures after.1 == EventReopened && event.id in after.0.events ==>
              Over(db, Written(own, event, Some(read), after, stepId))
                == Over(db, own).(events := Over(db, own).events[event.id := after.0.events[event.id]])
    ensures after.1 == RunFailed && read.id in after.0.runs && stepId in after.0.steps ==>
              Over(db, Written(own, event, Some(read), after, stepId))
                == Over(db, own).(runs := Over(db, own).runs[read.id := after.0.runs[read.id]],
                                  steps := Over(db, own).steps[stepId := after.0.steps[stepId]])
    ensures after.1 == Skipped ==> Written(own, event, Some(read), after, stepId) == own
  {
    var next := Written(own, event, Some(read), after, stepId);
    assert after.1 == EventReopened && event.id in after.0.events ==>
        db.events + next.events == (db.events + own.events)[event.id := after.0.events[event.id]];
    assert after.1 == RunFailed && read.id in after.0.runs && stepId in after.0.steps ==>
        && db.runs + next.runs == (db.runs + own.runs)[read.id := after.0.runs[read.id]]
        && db.steps + next.steps == (db.steps + own.steps)[stepId := after.0.steps[stepId]];
  }

  /** One event of a pass, as a step of the protocol from the state that the rows so far have made. */
  lemma PassEvent(c: Config, s: System, t: System, own: Tables, event: EventRow, joined: RunRow, read: RunRow,
                  atWrite: Tables, now: Time)
    requires Inv(c, s) && Inv(c, t) && s.seen <= t.seen && t.db == Over(s.db, own)
    requires Meets(c, s, event, joined, read, atWrite, now)
    requires event.id !in own.events && read.id !in own.runs && event.id in atWrite.events
             && atWrite.events[event.id] == event
    ensures var after := ReconcileTx(Over(atWrite, own), event.id, Some(read), c.maxAttempts, now, t.nextId);
            var u := Step(c, t, Reconcile(event.id, joined, read, false, now));
            && (after.1 == Aborted <==> Spent(c, event, read) && !CanSave(atWrite, read.id, read.version))
            && (after.1 != Aborted ==>
                  && u.db == Over(s.db, Written(own, event, Some(read), after, t.nextId))
                  && u.nextId == (if after.1 == RunFailed then t.nextId + 1 else t.nextId))
            && (after.1 == RunFailed ==> t.nextId in after.0.steps && after.0.steps[t.nextId].runId == read.id)
  {
    hide Inv, ReconcileTx, StaleDelivery, Step, Over, Written, ReconcileEnabled, CanSave, Spent, Meets;
    SavedRowsAgree(c, s, own, event, joined, read, atWrite, now);
    var after := ReconcileTx(Over(atWrite, own), event.id, Some(read), c.maxAttempts, now, t.nextId);
    assert !(read.version == event.aggregateVersion && Terminal(read.state)) by {
      MeetsFacts(c, s, event, joined, read, atWrite, now);
      StaleFacts(event, joined, now - c.staleAfter);
      if read.version == event.aggregateVersion {
        ReadIsLive(c, s, event, joined, read);
      }
    }
    RecoveryAgrees(c, Over(atWrite, own), t.db, event, read, now, t.nextId);
    OverWritten(s.db, own, event, read, after, t.nextId);
    assert ReconcileEnabled(t, c, event.id, joined, read, false, now) by {
      MeetsFacts(c, s, event, joined, read, atWrite, now);
      Enabled(c, t, event, joined, read, now);
    }
    ReconcileStep(c, t, event.id, joined, read, now);
  }

  lemma MeetsFacts(c: Config, s: System, event: EventRow, joined: RunRow, read: RunRow, atWrite: Tables, now: Time)
    requires Meets(c, s, event, joined, read, atWrite, now)
    ensures event.id in s.db.events && s.db.events[event.id] == event && read.id == joined.id == event.aggregateId
    ensures joined in s.seen && read in s.seen && StaleDelivery(event, joined, false, now - c.staleAfter)
  {
  }

  lemma SavedRowsAgree(c: Config, s: System, own: Tables, event: EventRow, joined: RunRow, read: RunRow,
                       atWrite: Tables, now: Time)
    requires Meets(c, s, event, joined, read, atWrite, now)
    requires event.id !in own.events && read.id !in own.runs && event.id in atWrite.events
             && atWrite.events[event.id] == event
    ensures read.id == event.aggregateId && event.id in Over(s.db, own).events
            && Over(s.db, own).events[event.id] == event
    ensures event.id in Over(atWrite, own).events && Over(atWrite, own).events[event.id] == event
    ensures CanSave(Over(atWrite, own), read.id, read.version) <==> CanSave(atWrite, read.id, read.version)
    ensures Spent(c, event, read) && CanSave(Over(atWrite, own), read.id, read.version) ==>
              read.id in Over(s.db, own).runs && Over(s.db, own).runs[read.id] == Over(atWrite, own).runs[read.id]
  {
    hide StaleDelivery;
    OverUnwritten(atWrite, own, event.id, read.id);
    OverUnwritten(s.db, own, event.id, read.id);
    SaveAgrees(c, s.db, atWrite, own, event, read);
  }

  lemma SaveAgrees(c: Config, db: Tables, atWrite: Tables, own: Tables, event: EventRow, read: RunRow)
    requires read.id !in own.runs
    requires Spent(c, event, read) && CanSave(atWrite, read.id, read.version) ==>
               read.id in db.runs && db.runs[read.id] == atWrite.runs[read.id]
    ensures CanSave(Over(atWrite, own), read.id, read.version) <==> CanSave(atWrite, read.id, read.version)
    ensures Spent(c, event, read) && CanSave(Over(atWrite, own), read.id, read.version) ==>
              read.id in Over(db, own).runs && Over(db, own).runs[read.id] == Over(atWrite, own).runs[read.id]
  {
  }

  lemma OverUnwritten(db: Tables, own: Tables, event: Uuid, run: Uuid)
    ensures event !in own.events ==>
              (event in db.events <==> event in Over(db, own).events)
              && (event in db.events ==> Over(db, own).events[event] == db.events[event])
    ensures run !in own.runs ==> FindRun(Over(db, own), run) == FindRun(db, run)
  {
  }

  lemma Enabled(c: Config, t: System, event: EventRow, joined: RunRow, read: RunRow, now: Time)
    requires Inv(c, t) && event.id in t.db.events && t.db.events[event.id] == event
    requires joined in t.seen && joined.id == event.aggregateId
             && StaleDelivery(event, joined, false, now - c.staleAfter)
    requires read in t.seen && read.id == event.aggregateId
    ensures ReconcileEnabled(t, c, event.id, joined, read, false, now)
  {
    hide Inv, StaleDelivery;
    ReadIsPast(c, t, read);
    ReopenKeysAreEvents(c, t);
  }

  lemma ReconcileStep(c: Config, t: System, eventId: Uuid, joined: RunRow, read: RunRow, now: Time)
    requires ReconcileEnabled(t, c, eventId, joined, read, false, now)
    ensures var after := ReconcileTx(t.db, eventId, Some(read), c.maxAttempts, now, t.nextId);
            var u := Step(c, t, Reconcile(eventId, joined, read, false, now));
            u.db == after.0 && u.nextId == (if after.1 == RunFailed then t.nextId + 1 else t.nextId)
  {
    hide ReconcileTx, StaleDelivery;
  }

  lemma StaleFacts(event: EventRow, joined: RunRow, staleBefore: Time)
    requires StaleDelivery(event, joined, false, staleBefore)
    ensures joined.version == event.aggregateVersion && !Terminal(joined.state)
  {
  }

  lemma PassMeetsOne(c: Config, s: System, batch: seq<EventRow>, joined: nat -> RunRow, read: nat -> RunRow,
                     meanwhile: nat -> Tables, now: Time, k: nat)
    requires PassMeets(c, s, batch, joined, read, meanwhile, now) && k < |batch|
    ensures FindRun(meanwhile(2 * k), batch[k].aggregateId) == Some(read(k))
    ensures Meets(c, s, batch[k], joined(k), read(k), meanwhile(2 * k + 1), now)
    ensures Locked(batch, meanwhile, 2 * |batch|) && DistinctEvents(batch) && DistinctRuns(batch)
  {
    hide Meets, Locked, FindRun;
    assert batch[k] == batch[k];
  }

  lemma PassMeetsPrefix(c: Config, s: System, batch: seq<EventRow>, joined: nat -> RunRow, read: nat -> RunRow,
                        meanwhile: nat -> Tables, now: Time)
    requires PassMeets(c, s, batch, joined, read, meanwhile, now) && batch != []
    ensures PassMeets(c, s, batch[..|batch| - 1], joined, read, meanwhile, now)
  {
    hide Meets, FindRun, Locked;
    var k := |batch| - 1;
    LockedPrefix(batch, meanwhile, 2 * |batch|, k, 2 * k);
    forall l | 0 <= l < k
      ensures FindRun(meanwhile(2 * l), batch[..k][l].aggregateId) == Some(read(l))
      ensures Meets(c, s, batch[..k][l], joined(l), read(l), meanwhile(2 * l + 1), now)
    {
      assert batch[..k][l] == batch[l];
    }
  }

  lemma WithinStep(batch: seq<EventRow>, own: Tables, event: EventRow, read: RunRow, after: (Tables, Recovered),
                   firstId: Uuid, nextId: Uuid)
    requires batch != [] && batch[|batch| - 1] == event && read.id == event.aggregateId
    requires firstId <= nextId && Within(batch[..|batch| - 1], own, firstId, nextId)
    requires after.1 == RunFailed ==> nextId in after.0.steps && after.0.steps[nextId].runId == read.id
    ensures Within(batch, Written(own, event, Some(read), after, nextId), firstId, if after.1 == RunFailed
                                                                                   then nextId + 1 else nextId)
  {
    var n, before := |batch| - 1, batch[..|batch| - 1];
    var next := Written(own, event, Some(read), after, nextId);
    forall i | i in next.events ensures exists k :: 0 <= k < |batch| && batch[k].id == i {
      if i in own.events {
        var k :| 0 <= k < n && before[k].id == i;
        assert batch[k].id == i;
      } else {
        assert batch[n].id == i;
      }
    }
    forall r | r in next.runs ensures exists k :: 0 <= k < |batch| && batch[k].aggregateId == r {
      if r in own.runs {
        var k :| 0 <= k < n && before[k].aggregateId == r;
        assert batch[k].aggregateId == r;
      } else {
        assert batch[n].aggregateId == r;
      }
    }
    forall i | i in next.steps ensures exists k :: 0 <= k < |batch| && batch[k].aggregateId == next.steps[i].runId {
      if i in own.steps && i != nextId {
        var k :| 0 <= k < n && before[k].aggregateId == own.steps[i].runId;
        assert batch[k].aggregateId == next.steps[i].runId;
      } else {
        assert batch[n].aggregateId == next.steps[i].runId;
      }
    }
  }

  lemma NotWithin(batch: seq<EventRow>, own: Tables, firstId: Uuid, nextId: Uuid)
    requires batch != [] && DistinctEvents(batch) && DistinctRuns(batch)
    requires Within(batch[..|batch| - 1], own, firstId, nextId)
    ensures batch[|batch| - 1].id !in own.events && batch[|batch| - 1].aggregateId !in own.runs
  {
    var n, before := |batch| - 1, batch[..|batch| - 1];
    forall k | 0 <= k < n ensures before[k].id != batch[n].id && before[k].aggregateId != batch[n].aggregateId {
      assert batch[k].id != batch[n].id && batch[k].aggregateId != batch[n].aggregateId;
    }
  }

  /** The write at event `k` finds its run gone from the version that was read for it. */
  ghost predicate Collides(c: Config, batch: seq<EventRow>, read: nat -> RunRow, meanwhile: nat -> Tables, k: nat) {
    k < |batch| && Spent(c, batch[k], read(k)) && !CanSave(meanwhile(2 * k + 1), read(k).id, read(k).version)
  }

  ghost predicate CollidesSomewhere(c: Config, batch: seq<EventRow>, read: nat -> RunRow, meanwhile: nat -> Tables) {
    exists k: nat :: Collides(c, batch, read, meanwhile, k)
  }

  /** The rows of the pass, over the state it commits in, are what its single steps have made of that state. */
  ghost predicate Carried(s: System, batch: seq<EventRow>, pass: Pass, t: System) {
    && t.db == Over(s.db, pass.own) && t.nextId == pass.nextId && s.nextId <= t.nextId
    && Within(batch, pass.own, s.nextId, pass.nextId)
  }

  lemma RecordedFacts(before: Pass, event: EventRow, read: Option<RunRow>, after: (Tables, Recovered))
    requires !before.aborted
    ensures var next := Recorded(before, event, read, after);
            && (next.aborted <==> after.1 == Aborted)
            && next.nextId == (if after.1 == RunFailed then before.nextId + 1 else before.nextId)
            && (!next.aborted ==> next.own == Written(before.own, event, read, after, before.nextId))
  {
  }

  lemma {:induction false} PassPrefix(c: Config, s: System, batch: seq<EventRow>, joined: nat -> RunRow,
                                      read: nat -> RunRow, meanwhile: nat -> Tables, now: Time)
    requires Inv(c, s) && PassMeets(c, s, batch, joined, read, meanwhile, now)
    ensures Locked(batch, meanwhile, 2 * |batch|)
    ensures var pass := ReconcileAll(batch, meanwhile, c.maxAttempts, now, s.nextId);
            var t := After(c, s, ReconcileActions(batch, joined, read, now));
            && (pass.aborted <==> CollidesSomewhere(c, batch, read, meanwhile))
            && (!pass.aborted ==> Carried(s, batch, pass, t))
  {
    hide Inv, Step, ReconcileTx, Over, Meets, Carried, Collides, CollidesSomewhere, ReconcileAll, After;
    if batch == [] {
      EmptyPass(c, s, batch, joined, read, meanwhile, now);
    } else {
      var n, before := |batch| - 1, batch[..|batch| - 1];
      PassMeetsPrefix(c, s, batch, joined, read, meanwhile, now);
      PassPrefix(c, s, before, joined, read, meanwhile, now);
      PassNext(c, s, batch, joined, read, meanwhile, now);
      CollidesLater(c, batch, read, meanwhile);
    }
  }

  lemma EmptyPass(c: Config, s: System, batch: seq<EventRow>, joined: nat -> RunRow, read: nat -> RunRow,
                  meanwhile: nat -> Tables, now: Time)
    requires batch == [] && Locked(batch, meanwhile, 0)
    ensures var pass := ReconcileAll(batch, meanwhile, c.maxAttempts, now, s.nextId);
            && !pass.aborted && !CollidesSomewhere(c, batch, read, meanwhile)
            && Carried(s, batch, pass, After(c, s, ReconcileActions(batch, joined, read, now)))
  {
    assert s.db.runs + map[] == s.db.runs && s.db.steps + map[] == s.db.steps && s.db.events + map[] == s.db.events;
  }

  lemma CollidesLater(c: Config, batch: seq<EventRow>, read: nat -> RunRow, meanwhile: nat -> Tables)
    requires batch != []
    ensures (CollidesSomewhere(c, batch, read, meanwhile))
       <==> (CollidesSomewhere(c, batch[..|batch| - 1], read, meanwhile))
            || Collides(c, batch, read, meanwhile, |batch| - 1)
  {
    hide Spent, CanSave;
    var before := batch[..|batch| - 1];
    if CollidesSomewhere(c, batch, read, meanwhile) {
      var k: nat :| Collides(c, batch, read, meanwhile, k);
      assert k < |before| ==> Collides(c, before, read, meanwhile, k);
    }
    if CollidesSomewhere(c, before, read, meanwhile) {
      var k: nat :| Collides(c, before, read, meanwhile, k);
      assert Collides(c, batch, read, meanwhile, k);
    }
  }

  /** From the state its rows so far have made, the last event of a pass is one more step, or the end of the pass. */
  lemma PassNext(c: Config, s: System, batch: seq<EventRow>, joined: nat -> RunRow, read: nat -> RunRow,
                 meanwhile: nat -> Tables, now: Time)
    requires Inv(c, s) && PassMeets(c, s, batch, joined, read, meanwhile, now) && batch != []
    requires Locked(batch, meanwhile, 2 * |batch|) && Locked(batch[..|batch| - 1], meanwhile, 2 * (|batch| - 1))
    requires var pass := ReconcileAll(batch[..|batch| - 1], meanwhile, c.maxAttempts, now, s.nextId);
             var t := After(c, s, ReconcileActions(batch[..|batch| - 1], joined, read, now));
             !pass.aborted ==> Carried(s, batch[..|batch| - 1], pass, t)
    ensures var before := ReconcileAll(batch[..|batch| - 1], meanwhile, c.maxAttempts, now, s.nextId);
            var pass := ReconcileAll(batch, meanwhile, c.maxAttempts, now, s.nextId);
            var t := After(c, s, ReconcileActions(batch, joined, read, now));
            && (pass.aborted <==> before.aborted || Collides(c, batch, read, meanwhile, |batch| - 1))
            && (!pass.aborted ==> Carried(s, batch, pass, t))
  {
    hide Inv, Step, ReconcileTx, Over, Meets, Carried, ReconcileAll, PassMeets, Locked, Collides, After;
    hide DistinctEvents, DistinctRuns;
    var n := |batch| - 1;
    if ReconcileAll(batch[..n], meanwhile, c.maxAttempts, now, s.nextId).aborted {
      AbortedPassStaysAborted(batch, n, meanwhile, c.maxAttempts, now, s.nextId);
    } else {
      PassGoesOn(c, s, batch, joined, read, meanwhile, now);
    }
  }

  lemma PassGoesOn(c: Config, s: System, batch: seq<EventRow>, joined: nat -> RunRow, read: nat -> RunRow,
                   meanwhile: nat -> Tables, now: Time)
    requires Inv(c, s) && PassMeets(c, s, batch, joined, read, meanwhile, now) && batch != []
    requires Locked(batch, meanwhile, 2 * |batch|) && Locked(batch[..|batch| - 1], meanwhile, 2 * (|batch| - 1))
    requires var pass := ReconcileAll(batch[..|batch| - 1], meanwhile, c.maxAttempts, now, s.nextId);
             !pass.aborted && Carried(s, batch[..|batch| - 1], pass,
                                      After(c, s, ReconcileActions(batch[..|batch| - 1], joined, read, now)))
    ensures var pass := ReconcileAll(batch, meanwhile, c.maxAttempts, now, s.nextId);
            && (pass.aborted <==> Collides(c, batch, read, meanwhile, |batch| - 1))
            && (!pass.aborted ==> Carried(s, batch, pass, After(c, s, ReconcileActions(batch, joined, read, now))))
  {
    hide Inv, Step, ReconcileTx, Over, Meets, Written, FindRun, ReconcileAll, PassMeets, Locked, Recorded, Carried;
    hide DistinctEvents, DistinctRuns, After, ReconcileActions, Within;
    var n := |batch| - 1;
    var before := ReconcileAll(batch[..n], meanwhile, c.maxAttempts, now, s.nextId);
    var earlier := ReconcileActions(batch[..n], joined, read, now);
    var t := After(c, s, earlier);
    AfterKeepsInv(c, s, earlier);
    PassMeetsOne(c, s, batch, joined, read, meanwhile, now, n);
    CarriedFacts(s, batch, before, t);
    OverUnwritten(meanwhile(2 * n), before.own, batch[n].id, batch[n].aggregateId);
    PassStep(batch, n, meanwhile, c.maxAttempts, now, s.nextId);
    assert batch[..n + 1] == batch;
    CarriedOn(c, s, batch, before, t, joined(n), read(n), meanwhile(2 * n + 1), now);
    LastReconcile(c, s, batch, joined, read, now);
  }

  lemma CarriedFacts(s: System, batch: seq<EventRow>, pass: Pass, t: System)
    requires batch != [] && DistinctEvents(batch) && DistinctRuns(batch) && Carried(s, batch[..|batch| - 1], pass, t)
    ensures t.db == Over(s.db, pass.own) && t.nextId == pass.nextId && s.nextId <= t.nextId
    ensures Within(batch[..|batch| - 1], pass.own, s.nextId, pass.nextId)
    ensures batch[|batch| - 1].id !in pass.own.events && batch[|batch| - 1].aggregateId !in pass.own.runs
  {
    NotWithin(batch, pass.own, s.nextId, pass.nextId);
  }

  lemma CarriedOn(c: Config, s: System, batch: seq<EventRow>, before: Pass, t: System, joined: RunRow, read: RunRow,
                  atWrite: Tables, now: Time)
    requires batch != [] && DistinctEvents(batch) && DistinctRuns(batch) && Carried(s, batch[..|batch| - 1], before, t)
    requires Inv(c, s) && Inv(c, t) && s.seen <= t.seen && !before.aborted
    requires Meets(c, s, batch[|batch| - 1], joined, read, atWrite, now)
    requires batch[|batch| - 1].id in atWrite.events && atWrite.events[batch[|batch| - 1].id] == batch[|batch| - 1]
    ensures batch[|batch| - 1].id in Over(atWrite, before.own).events
    ensures var event := batch[|batch| - 1];
            var pass := Recorded(before, event, Some(read),
                          ReconcileTx(Over(atWrite, before.own), event.id, Some(read), c.maxAttempts, now,
                                      before.nextId));
            && (pass.aborted <==> Spent(c, event, read) && !CanSave(atWrite, read.id, read.version))
            && (!pass.aborted ==> Carried(s, batch, pass, Step(c, t, Reconcile(event.id, joined, read, false, now))))
  {
    hide Inv, Step, ReconcileTx, Over, Meets, Written, CanSave, Spent, Recorded, DistinctEvents, DistinctRuns, Within;
    var event := batch[|batch| - 1];
    CarriedFacts(s, batch, before, t);
    MeetsFacts(c, s, event, joined, read, atWrite, now);
    OverUnwritten(atWrite, before.own, event.id, read.id);
    PassEvent(c, s, t, before.own, event, joined, read, atWrite, now);
    var after := ReconcileTx(Over(atWrite, before.own), event.id, Some(read), c.maxAttempts, now, before.nextId);
    RecordedFacts(before, event, Some(read), after);
    WithinStep(batch, before.own, event, read, after, s.nextId, before.nextId);
  }

  lemma LastReconcile(c: Config, s: System, batch: seq<EventRow>, joined: nat -> RunRow, read: nat -> RunRow, now: Time)
    requires batch != []
    ensures var n := |batch| - 1;
            After(c, s, ReconcileActions(batch, joined, read, now))
              == Step(c, After(c, s, ReconcileActions(batch[..n], joined, read, now)),
                      Reconcile(batch[n].id, joined(n), read(n), false, now))
  {
    hide Step;
    var actions := ReconcileActions(batch, joined, read, now);
    assert actions[..|batch| - 1] == ReconcileActions(batch[..|batch| - 1], joined, read, now);
  }

  /**
    Where a pass stands in an execution: it selects at `start`, and `meanwhile(p)`, the tables at its point
    `p`, are those that the execution has reached there; it commits, or is lost, when all of it has run.
   */
  ghost predicate Overlaps(c: Config, actions: seq<Action>, start: nat, cut: nat -> nat, meanwhile: nat -> Tables,
                           last: nat) {
    && cut(last) == |actions|
    && forall p: nat {:trigger meanwhile(p)} :: p <= last ==>
         start <= cut(p) <= |actions| && meanwhile(p) == Exec(c, actions[..cut(p)]).db
  }

  /** The row that the pass reads for each event. */
  function RowsRead(batch: seq<EventRow>, meanwhile: nat -> Tables): (read: nat -> RunRow) {
    (k: nat) =>
      if k < |batch| && batch[k].aggregateId in meanwhile(2 * k).runs then meanwhile(2 * k).runs[batch[k].aggregateId]
      else NewRun(0, "", "", 0)
  }

  /** The row that was joined to each event when it was selected. */
  function RowsJoined(batch: seq<EventRow>, db: Tables): (joined: nat -> RunRow) {
    (k: nat) => if k < |batch| && batch[k].aggregateId in db.runs then db.runs[batch[k].aggregateId]
                else NewRun(0, "", "", 0)
  }

  /** A run that the pass has saved is locked: nobody else changes it before the pass commits. */
  ghost predicate RunsLocked(c: Config, batch: seq<EventRow>, meanwhile: nat -> Tables) {
    forall k {:trigger batch[k]} :: 0 <= k < |batch| ==>
      var r, read := batch[k].aggregateId, RowsRead(batch, meanwhile)(k);
      Spent(c, batch[k], read) && CanSave(meanwhile(2 * k + 1), r, read.version) ==>
        r in meanwhile(2 * |batch|).runs && meanwhile(2 * |batch|).runs[r] == meanwhile(2 * k + 1).runs[r]
  }

  lemma SelectedEvent(c: Config, s: System, batch: seq<EventRow>, limit: nat, locked: set<Uuid>, now: Time, k: nat)
    requires Inv(c, s) && IsBatch(s.db, StaleEvents(s.db, now, now - c.staleAfter) - locked, PublishedTime, batch,
                                  limit) && k < |batch|
    ensures batch[k].id in s.db.events && s.db.events[batch[k].id] == batch[k] && batch[k].aggregateId in s.db.runs
    ensures StaleDelivery(batch[k], s.db.runs[batch[k].aggregateId], false, now - c.staleAfter)
    ensures !HasLiveStep(s.db, batch[k].aggregateId, s.db.runs[batch[k].aggregateId].version, now)
    ensures batch[k].aggregateVersion == s.db.runs[batch[k].aggregateId].version
  {
    hide IsBatch, Inv, HasLiveStep;
    BatchEntry(s.db, StaleEvents(s.db, now, now - c.staleAfter) - locked, PublishedTime, batch, limit, k);
  }

  /** No two events of a selection are of one run: only its current version is stale, and that has one event. */
  lemma SelectionIsDistinct(c: Config, s: System, batch: seq<EventRow>, limit: nat, locked: set<Uuid>, now: Time)
    requires Inv(c, s)
             && IsBatch(s.db, StaleEvents(s.db, now, now - c.staleAfter) - locked, PublishedTime, batch, limit)
    ensures DistinctEvents(batch) && DistinctRuns(batch)
  {
    hide IsBatch, Inv, StaleDelivery, HasLiveStep;
    forall k, l | 0 <= k < l < |batch|
      ensures batch[k].id != batch[l].id && batch[k].aggregateId != batch[l].aggregateId {
      assert batch[k].id != batch[l].id by {
        BatchEntry(s.db, StaleEvents(s.db, now, now - c.staleAfter) - locked, PublishedTime, batch, limit, k);
      }
      SelectedEvent(c, s, batch, limit, locked, now, k);
      SelectedEvent(c, s, batch, limit, locked, now, l);
      RequestFacts(c, s, batch[k].id);
      RequestFacts(c, s, batch[l].id);
    }
  }

  lemma OverlapMeets(c: Config, actions: seq<Action>, start: nat, cut: nat -> nat, meanwhile: nat -> Tables,
                     batch: seq<EventRow>, limit: nat, locked: set<Uuid>, now: Time, k: nat)
    requires start <= |actions| && Overlaps(c, actions, start, cut, meanwhile, 2 * |batch|) && k < |batch|
    requires var db := Exec(c, actions[..start]).db;
             IsBatch(db, StaleEvents(db, now, now - c.staleAfter) - locked, PublishedTime, batch, limit)
    requires Locked(batch, meanwhile, 2 * |batch|) && RunsLocked(c, batch, meanwhile)
    ensures var joined := RowsJoined(batch, Exec(c, actions[..start]).db)(k);
            var read := RowsRead(batch, meanwhile)(k);
            && FindRun(meanwhile(2 * k), batch[k].aggregateId) == Some(read)
            && Meets(c, Exec(c, actions), batch[k], joined, read, meanwhile(2 * k + 1), now)
  {
    hide Exec, Inv, IsBatch, HasLiveStep, StaleDelivery, Spent, CanSave, Locked, Overlaps, RunsLocked;
    var first := Exec(c, actions[..start]);
    var r := batch[k].aggregateId;
    EveryExecutionKeepsInv(c, actions[..start]);
    SelectedEvent(c, first, batch, limit, locked, now, k);
    EarlierRowIsSeen(c, actions, start, r);
    ReadIsSeen(c, actions, start, cut, meanwhile, 2 * |batch|, 2 * k, r);
    LastPoint(c, actions, start, cut, meanwhile, 2 * |batch|);
    LockedAt(batch, meanwhile, 2 * |batch|, k, 2 * |batch|);
    RunsLockedAt(c, batch, meanwhile, k);
    RunFacts(c, first, r);
  }

  lemma RunsLockedAt(c: Config, batch: seq<EventRow>, meanwhile: nat -> Tables, k: nat)
    requires RunsLocked(c, batch, meanwhile) && k < |batch|
    ensures var r, read := batch[k].aggregateId, RowsRead(batch, meanwhile)(k);
            Spent(c, batch[k], read) && CanSave(meanwhile(2 * k + 1), r, read.version) ==>
              r in meanwhile(2 * |batch|).runs && meanwhile(2 * |batch|).runs[r] == meanwhile(2 * k + 1).runs[r]
  {
    hide Spent, RowsRead;
    assert batch[k] == batch[k];
  }

  lemma LastPoint(c: Config, actions: seq<Action>, start: nat, cut: nat -> nat, meanwhile: nat -> Tables, last: nat)
    requires Overlaps(c, actions, start, cut, meanwhile, last)
    ensures meanwhile(last) == Exec(c, actions).db
  {
    hide Exec;
    assert meanwhile(last) == Exec(c, actions[..cut(last)]).db && actions[..|actions|] == actions;
  }

  lemma ReadIsSeen(c: Config, actions: seq<Action>, start: nat, cut: nat -> nat, meanwhile: nat -> Tables, last: nat,
                   p: nat, r: Uuid)
    requires start <= |actions| && Overlaps(c, actions, start, cut, meanwhile, last) && p <= last
    requires r in Exec(c, actions[..start]).db.runs
    ensures r in meanwhile(p).runs && meanwhile(p).runs[r] in Exec(c, actions).seen && meanwhile(p).runs[r].id == r
  {
    hide Exec;
    assert meanwhile(p) == Exec(c, actions[..cut(p)]).db;
    assert actions[..cut(p)][..start] == actions[..start];
    RunsOnlyGrow(c, actions[..cut(p)], start, r);
    EarlierRowIsSeen(c, actions, cut(p), r);
  }

  /**
    A reconciliation pass that others overlap. It is lost exactly when, at some event whose budget is spent
    and whose run was read at the version of the event, the run has left that version by the time of the
    write. Otherwise what it commits is what single reconciliations, with those reads, make of the tables
    it commits on.
   */
  lemma ReconcileBatchIsAnExecution(c: Config, actions: seq<Action>, start: nat, cut: nat -> nat,
                                    meanwhile: nat -> Tables,
                                    batch: seq<EventRow>, limit: nat, locked: set<Uuid>, now: Time)
    requires start <= |actions| && Overlaps(c, actions, start, cut, meanwhile, 2 * |batch|)
    requires var db := Exec(c, actions[..start]).db;
             IsBatch(db, StaleEvents(db, now, now - c.staleAfter) - locked, PublishedTime, batch, limit)
    requires Locked(batch, meanwhile, 2 * |batch|) && RunsLocked(c, batch, meanwhile)
    ensures var s := Exec(c, actions);
            var joined, read := RowsJoined(batch, Exec(c, actions[..start]).db), RowsRead(batch, meanwhile);
            var pass := ReconcileAll(batch, meanwhile, c.maxAttempts, now, s.nextId);
            && (pass.aborted <==> CollidesSomewhere(c, batch, read, meanwhile))
            && (!pass.aborted ==>
                  && Over(meanwhile(2 * |batch|), pass.own)
                     == Exec(c, actions + ReconcileActions(batch, joined, read, now)).db
                  && Within(batch, pass.own, s.nextId, pass.nextId))
  {
    hide Exec, Inv, IsBatch, Meets, ReconcileAll, Over, Within, RunsLocked, DistinctEvents, DistinctRuns, RowsRead;
    hide Overlaps, Locked, CollidesSomewhere, FindRun, ReconcileActions, RowsJoined;
    var s := Exec(c, actions);
    var joined, read := RowsJoined(batch, Exec(c, actions[..start]).db), RowsRead(batch, meanwhile);
    EveryExecutionKeepsInv(c, actions[..start]);
    EveryExecutionKeepsInv(c, actions);
    SelectionIsDistinct(c, Exec(c, actions[..start]), batch, limit, locked, now);
    forall k | 0 <= k < |batch|
      ensures FindRun(meanwhile(2 * k), batch[k].aggregateId) == Some(read(k))
      ensures Meets(c, s, batch[k], joined(k), read(k), meanwhile(2 * k + 1), now)
    {
      OverlapMeets(c, actions, start, cut, meanwhile, batch, limit, locked, now, k);
    }
    PassPrefix(c, s, batch, joined, read, meanwhile, now);
    AfterIsExec(c, actions, ReconcileActions(batch, joined, read, now));
    LastPoint(c, actions, start, cut, meanwhile, 2 * |batch|);
  }
}

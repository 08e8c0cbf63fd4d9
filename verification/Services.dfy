/**
  The use cases, step by step as they run over the repositories, each proved to commit exactly the
  transaction of the protocol, and to leave the committed tables alone when it refuses or fails.
  Clock readings and new identifiers are arguments. `meanwhile` is what the database holds once the
  transactions that overlap a use case have committed: reads come before it and writes after it.
 */
module Services {
  import opened Wrappers
  import opened Lifecycle
  import opened Store
  import opened Persistence

  predicate Unused(db: Tables, id: Uuid) {
    id !in db.runs && id !in db.steps && id !in db.events
  }

  class RunService {
    const uow: UnitOfWork

    constructor (uow: UnitOfWork)
      ensures this.uow == uow
    {
      this.uow := uow;
    }

    /** Two requests with one key may both find it free; the unique key lets one of them in, and the other replays. */
    method Create(key: string, fingerprint: string, now: Time, runId: Uuid, eventId: Uuid, meanwhile: Tables)
      returns (result: Result<RunRow, DomainError>)
      requires Consistent(uow.committed) && Consistent(meanwhile) && Unused(meanwhile, runId)
      requires RequestKeyTaken(uow.committed, key) ==> RequestKeyTaken(meanwhile, key)
      modifies uow
      ensures uow.committed == CreateTx(meanwhile, key, fingerprint, now, runId, eventId).0
      ensures result == if RequestKeyTaken(old(uow.committed), key)
                        then ResolveReplay(old(uow.committed).runs[RequestKeyHolder(old(uow.committed), key)],
                                           fingerprint, key)
                        else CreateTx(meanwhile, key, fingerprint, now, runId, eventId).1
    {
      uow.Begin();
      var existing := uow.GetRunByKey(key);
      uow.Interleave(meanwhile);
      if existing.Some? {
        uow.Rollback();
        return ResolveReplay(existing.value, fingerprint, key);
      }
      var run := NewRun(runId, key, fingerprint, now);
      var inserted := uow.AddRunIfKeyAbsent(run);
      if !inserted {
        var concurrent := uow.GetRunByKey(key);
        uow.Rollback();
        return ResolveReplay(concurrent.value, fingerprint, key);
      }
      uow.PutEvent(eventId, AdvanceEvent(eventId, run, now));
      uow.Commit();
      return Ok(run);
    }

    static function ResolveReplay(run: RunRow, fingerprint: string, key: string): Result<RunRow, DomainError> {
      if run.fingerprint != fingerprint then Err(IdempotencyConflict(key)) else Ok(run)
    }

    method Cancel(runId: Uuid, expectedVersion: nat, now: Time,
                  meanwhile: Tables) returns (result: Result<RunRow, DomainError>)
      modifies uow
      ensures (uow.committed, result)
              == CancelTx(meanwhile, runId, FindRun(old(uow.committed), runId), expectedVersion, now)
    {
      uow.Begin();
      var found := FindRun(uow.Session(), runId);
      uow.Interleave(meanwhile);
      if found == None {
        uow.Rollback();
        return Err(RunNotFound(runId));
      }
      var run := new AuditRun(found.value);
      var alreadyRequested := run.cancelRequestedAt.Some?;
      var error := run.RecordCancel(expectedVersion, now);
      if error.Some? {
        uow.Rollback();
        return Err(error.value);
      }
      if alreadyRequested || run.state == Cancelled {
        uow.Rollback();
        return Ok(run.Row());
      }
      var saved := uow.SaveRun(run.Row(), expectedVersion);
      if !saved {
        uow.Rollback();
        return Err(OptimisticConcurrency(expectedVersion));
      }
      var woken := uow.WakeCurrentEvent(run.id, run.version, now);
      uow.Commit();
      return Ok(run.Row());
    }
  }

  lemma TransitionMoves(run: RunRow, target: RunState, now: Time)
    ensures var next := Transition(run, target, now);
            next.Ok? ==> next.value.id == run.id && next.value.version == run.version + 1 && next.value.state == target
  {
  }

  /** The columns of an event that are written once. */
  predicate SameRequest(event: EventRow, later: EventRow) {
    && event.aggregateId == later.aggregateId && event.topic == later.topic
    && event.expectedState == later.expectedState && event.expectedVersion == later.expectedVersion
  }

  class RunExecutionService {
    const uow: UnitOfWork
    const lease: int

    constructor (uow: UnitOfWork, lease: int)
      ensures this.uow == uow && this.lease == lease
    {
      this.uow, this.lease := uow, lease;
    }

    /**
      Event, run and current step are read one after the other; others have committed `atRun` by the second
      read, `atStep` by the third and `meanwhile` by the write. The claim is the protocol's, for the run and
      the step as each was when it was read.
     */
    method Claim(eventId: Uuid, worker: string, now: Time, stepId: Uuid, token: Uuid, atRun: Tables, atStep: Tables,
                 meanwhile: Tables) returns (claim: Option<StepRow>)
      requires Consistent(uow.committed) && Consistent(atRun) && Consistent(atStep) && Consistent(meanwhile)
      requires eventId in uow.committed.events ==>
                 eventId in meanwhile.events && SameRequest(uow.committed.events[eventId], meanwhile.events[eventId])
      modifies uow
      ensures var db := old(uow.committed);
              if eventId !in db.events then uow.committed == meanwhile && claim == None
              else
                var r := db.events[eventId].aggregateId;
                exists current :: IsCurrentStep(atStep, r, current)
                  && (uow.committed, claim)
                     == ClaimTx(meanwhile, eventId, FindRun(atRun, r), current, worker, now, lease, stepId, token)
    {
      hide Over, IsCurrentStep, Consistent;
      uow.Begin();
      if eventId !in uow.Session().events {
        uow.Interleave(meanwhile);
        return None;
      }
      var event := uow.Session().events[eventId];
      CurrentStepExists(atStep, event.aggregateId);
      if event.topic != ADVANCE_TOPIC {
        uow.Interleave(meanwhile);
        uow.Rollback();
        return None;
      }
      uow.Interleave(atRun);
      var found := FindRun(uow.Session(), event.aggregateId);
      if || found == None || Terminal(found.value.state)
         || found.value.state != event.expectedState || found.value.version != event.expectedVersion
      {
        uow.Interleave(meanwhile);
        uow.Rollback();
        return None;
      }
      var run := found.value;
      uow.Interleave(atStep);
      var current := uow.GetCurrentStep(event.aggregateId);
      uow.Interleave(meanwhile);
      if && run.cancelRequestedAt.Some? && current.Some? && current.value.expectedVersion == run.version
         && LiveAt(current.value, now)
      {
        uow.Rollback();
        return None;
      }
      var target := if run.cancelRequestedAt.Some? then Some(Cancelled) else NextMainState(run.state);
      if target == None {
        uow.Rollback();
        return None;
      }
      claim := uow.ClaimStep(Candidate(run, target.value, worker, now, lease, stepId, token));
      if claim.Some? {
        uow.Commit();
      } else {
        uow.Rollback();
      }
    }

    /** The exact version a claim is fenced to, or the claim is lost. */
    method GetRunForClaim(claim: StepRow) returns (result: Result<RunRow, DomainError>)
      ensures result == if CanSave(uow.committed, claim.runId, claim.expectedVersion)
                        then Ok(uow.committed.runs[claim.runId])
                        else Err(ClaimLost(claim.id))
    {
      var run := FindRun(uow.committed, claim.runId);
      if run == None || run.value.version != claim.expectedVersion {
        return Err(ClaimLost(claim.id));
      }
      return Ok(run.value);
    }

    method Heartbeat(claim: StepRow, now: Time) returns (renewed: bool)
      modifies uow
      ensures (uow.committed, renewed) == HeartbeatTx(old(uow.committed), claim, now, lease)
    {
      if claim.token == None {
        return false;
      }
      uow.Begin();
      renewed := uow.HeartbeatStep(claim.id, claim.token.value, now, now + lease);
      if renewed {
        uow.Commit();
      } else {
        uow.Rollback();
      }
    }

    method Finalize(claim: StepRow, now: Time, eventId: Uuid,
                    meanwhile: Tables) returns (result: Result<RunRow, DomainError>)
      requires Consistent(uow.committed)
      modifies uow
      ensures claim.token.Some? ==>
                (uow.committed, result)
                == FinalizeTx(meanwhile, claim, FindRun(old(uow.committed), claim.runId), now, eventId)
      ensures claim.token == None ==> uow.committed == old(uow.committed) && result == Err(ClaimLost(claim.id))
    {
      hide Transition, Over, Consistent, Saved, CompletedStep, FailedStep, AdvanceEvent, Terminal;
      if claim.token == None {
        return Err(ClaimLost(claim.id));
      }
      uow.Begin();
      var found := FindRun(uow.Session(), claim.runId);
      uow.Interleave(meanwhile);
      if found == None || found.value.version != claim.expectedVersion {
        uow.Rollback();
        return Err(ClaimLost(claim.id));
      }
      var run := new AuditRun(found.value);
      var finalState := if run.cancelRequestedAt.Some? then Cancelled else claim.toState;
      var completed := uow.CompleteStep(claim.id, claim.token.value, run.version + 1, now, finalState);
      if !completed {
        uow.Rollback();
        return Err(ClaimLost(claim.id));
      }
      var expectedVersion := run.version;
      TransitionMoves(found.value, finalState, now);
      var error := run.Advance(finalState, now);
      if error.Some? {
        uow.Rollback();
        return Err(error.value);
      }
      var saved := uow.SaveRun(run.Row(), expectedVersion);
      if !saved {
        uow.Rollback();
        return Err(OptimisticConcurrency(expectedVersion));
      }
      if !Terminal(run.state) {
        uow.PutEvent(eventId, AdvanceEvent(eventId, run.Row(), now));
      }
      uow.Commit();
      return Ok(run.Row());
    }

    method Fail(claim: StepRow, code: string, detail: string, now: Time,
                meanwhile: Tables) returns (result: Result<RunRow, DomainError>)
      requires Consistent(uow.committed)
      modifies uow
      ensures claim.token.Some? ==>
                (uow.committed, result)
                == FailTx(meanwhile, claim, FindRun(old(uow.committed), claim.runId), code, detail, now)
      ensures claim.token == None ==> uow.committed == old(uow.committed) && result == Err(ClaimLost(claim.id))
    {
      hide Transition, Over, Consistent, Saved, CompletedStep, FailedStep, AdvanceEvent, Terminal;
      if claim.token == None {
        return Err(ClaimLost(claim.id));
      }
      uow.Begin();
      var found := FindRun(uow.Session(), claim.runId);
      uow.Interleave(meanwhile);
      if found == None || found.value.version != claim.expectedVersion {
        uow.Rollback();
        return Err(ClaimLost(claim.id));
      }
      var run := new AuditRun(found.value);
      var failed := uow.FailStep(claim.id, claim.token.value, run.version + 1, now, code, detail);
      if !failed {
        uow.Rollback();
        return Err(ClaimLost(claim.id));
      }
      var expectedVersion := run.version;
      run.failureCode, run.failureDetail := Some(code), Some(detail);
      var error := run.Advance(RunState.Failed, now);
      if error.Some? {
        uow.Rollback();
        return Err(error.value);
      }
      var saved := uow.SaveRun(run.Row(), expectedVersion);
      if !saved {
        uow.Rollback();
        return Err(OptimisticConcurrency(expectedVersion));
      }
      uow.Commit();
      return Ok(run.Row());
    }
  }

  // --- Batches -------------------------------------------------------------------------------------

  /** No other transaction changes the rows of a batch while they are locked: they are as selected at every point. */
  ghost predicate Locked(batch: seq<EventRow>, meanwhile: nat -> Tables, last: nat) {
    forall k, p: nat :: 0 <= k < |batch| && p <= last ==>
      batch[k].id in meanwhile(p).events && meanwhile(p).events[batch[k].id] == batch[k]
  }

  lemma LockedAt(batch: seq<EventRow>, meanwhile: nat -> Tables, last: nat, k: nat, p: nat)
    requires Locked(batch, meanwhile, last) && k < |batch| && p <= last
    ensures batch[k].id in meanwhile(p).events && meanwhile(p).events[batch[k].id] == batch[k]
  {
  }

  lemma LockedPrefix(batch: seq<EventRow>, meanwhile: nat -> Tables, last: nat, k: nat, before: nat)
    requires Locked(batch, meanwhile, last) && k <= |batch| && before <= last
    ensures Locked(batch[..k], meanwhile, before)
  {
  }

  predicate DistinctEvents(batch: seq<EventRow>) {
    forall k, l :: 0 <= k < l < |batch| ==> batch[k].id != batch[l].id
  }

  /** The event after it was handed to the broker; `refusal` is the broker's answer. */
  function Dispatched(event: EventRow, refusal: Uuid -> Option<string>, retryAt: Uuid -> Time,
                      now: Time): (row: EventRow) {
    if refusal(event.id) == None then Published(event, now)
    else Postponed(event, refusal(event.id).value, retryAt(event.id))
  }

  function DispatchedRows(batch: seq<EventRow>, refusal: Uuid -> Option<string>, retryAt: Uuid -> Time, now: Time)
    : (rows: map<Uuid, EventRow>)
    ensures forall i :: i in rows ==> exists k :: 0 <= k < |batch| && batch[k].id == i
  {
    if batch == [] then map[]
    else
      var last := batch[|batch| - 1];
      DispatchedRows(batch[..|batch| - 1], refusal, retryAt, now)[last.id := Dispatched(last, refusal, retryAt, now)]
  }

  function AcceptedIn(batch: seq<EventRow>, refusal: Uuid -> Option<string>): nat {
    if batch == [] then 0
    else AcceptedIn(batch[..|batch| - 1], refusal) + if refusal(batch[|batch| - 1].id) == None then 1 else 0
  }

  lemma NothingDispatched(batch: seq<EventRow>, refusal: Uuid -> Option<string>, retryAt: Uuid -> Time, now: Time)
    requires batch == []
    ensures DispatchedRows(batch, refusal, retryAt, now) == map[] && AcceptedIn(batch, refusal) == 0
  {
  }

  /** One more event dispatched. */
  lemma DispatchedNext(batch: seq<EventRow>, k: nat, refusal: Uuid -> Option<string>, retryAt: Uuid -> Time, now: Time)
    requires k < |batch| && DistinctEvents(batch)
    ensures var rows := DispatchedRows(batch[..k], refusal, retryAt, now);
            && batch[k].id !in rows
            && DispatchedRows(batch[..k + 1], refusal, retryAt, now)
               == rows[batch[k].id := Dispatched(batch[k], refusal, retryAt, now)]
    ensures AcceptedIn(batch[..k + 1], refusal)
         == AcceptedIn(batch[..k], refusal) + if refusal(batch[k].id) == None then 1 else 0
  {
    hide Dispatched;
    assert batch[..k + 1][..k] == batch[..k];
  }

  lemma BatchIsDistinct(db: Tables, selected: set<Uuid>, at: EventRow -> Time, batch: seq<EventRow>, limit: nat)
    requires IsBatch(db, selected, at, batch, limit)
    ensures DistinctEvents(batch)
  {
  }

  lemma DueBatch(db: Tables, now: Time, locked: set<Uuid>, batch: seq<EventRow>, limit: nat)
    requires IsBatch(db, UnpublishedEvents(db, now) - locked, CreatedTime, batch, limit)
    ensures DistinctEvents(batch) && forall k :: 0 <= k < |batch| ==> batch[k].publishedAt == None
  {
  }

  lemma OverEvents(db: Tables, rows: map<Uuid, EventRow>)
    ensures Over(db, Tables(map[], map[], rows)) == db.(events := db.events + rows)
  {
    assert db.runs + map[] == db.runs && db.steps + map[] == db.steps;
  }

  class OutboxDispatcher {
    const uow: UnitOfWork

    constructor (uow: UnitOfWork)
      ensures this.uow == uow
    {
      this.uow := uow;
    }

    /**
      Publishes the earliest due events that nobody else has locked and counts those the broker took.
      `meanwhile(k)` is what the others have committed by the answer for event `k`, and by the commit at last.
     */
    method DispatchBatch(limit: nat, locked: set<Uuid>, refusal: Uuid -> Option<string>, retryAt: Uuid -> Time,
                         now: Time, meanwhile: nat -> Tables)
      returns (published: nat, ghost batch: seq<EventRow>)
      requires Consistent(uow.committed)
      requires forall batch ::
                 IsBatch(uow.committed, UnpublishedEvents(uow.committed, now) - locked, CreatedTime, batch, limit)
                 ==> Locked(batch, meanwhile, |batch|)
      modifies uow
      ensures IsBatch(old(uow.committed), UnpublishedEvents(old(uow.committed), now) - locked, CreatedTime, batch,
                      limit)
      ensures uow.committed
              == meanwhile(|batch|).(events := meanwhile(|batch|).events + DispatchedRows(batch, refusal, retryAt, now))
      ensures published == AcceptedIn(batch, refusal)
    {
      hide IsBatch, Locked, Unpublished, DispatchedRows, AcceptedIn, Consistent;
      uow.Begin();
      var events := uow.LockUnpublished(now, limit, locked);
      batch := events;
      DueBatch(uow.committed, now, locked, events, limit);
      published := PublishAll(events, refusal, retryAt, now, meanwhile);
      uow.Interleave(meanwhile(|events|));
      OverEvents(uow.committed, DispatchedRows(events, refusal, retryAt, now));
      uow.Commit();
    }

    method PublishAll(events: seq<EventRow>, refusal: Uuid -> Option<string>, retryAt: Uuid -> Time, now: Time,
                      meanwhile: nat -> Tables)
      returns (published: nat)
      requires uow.own == EMPTY && Locked(events, meanwhile, |events|)
      requires DistinctEvents(events) && forall k :: 0 <= k < |events| ==> events[k].publishedAt == None
      modifies uow
      ensures uow.own == Tables(map[], map[], DispatchedRows(events, refusal, retryAt, now))
      ensures published == AcceptedIn(events, refusal)
    {
      hide DispatchedRows, AcceptedIn, Locked, DistinctEvents;
      published := 0;
      assert DispatchedRows(events[..0], refusal, retryAt, now) == map[] && AcceptedIn(events[..0], refusal) == 0
        by { NothingDispatched(events[..0], refusal, retryAt, now); }
      for k := 0 to |events|
        invariant uow.own == Tables(map[], map[], DispatchedRows(events[..k], refusal, retryAt, now))
        invariant published == AcceptedIn(events[..k], refusal)
      {
        var event := events[k];
        DispatchedNext(events, k, refusal, retryAt, now);
        LockedAt(events, meanwhile, |events|, k, k);
        uow.Interleave(meanwhile(k));
        var answer := refusal(event.id);
        if answer.Some? {
          var marked := uow.MarkFailed(event.id, answer.value, retryAt(event.id));
        } else {
          var marked := uow.MarkPublished(event.id, now);
          if marked {
            published := published + 1;
          }
        }
      }
      assert events[..|events|] == events;
    }
  }

  /** What a pass has written so far, and how it went. */
  datatype Pass = Pass(own: Tables, nextId: Uuid, reopened: nat, failed: nat, aborted: bool)

  /** The rows of the pass after one event, given what the recovery would leave behind. */
  function Written(own: Tables, event: EventRow, read: Option<RunRow>, after: (Tables, Recovered),
                   stepId: Uuid): (next: Tables) {
    match after.1
    case EventReopened =>
      if event.id in after.0.events then own.(events := own.events[event.id := after.0.events[event.id]]) else own
    case RunFailed =>
      if read.Some? && read.value.id in after.0.runs && stepId in after.0.steps then
        own.(runs := own.runs[read.value.id := after.0.runs[read.value.id]],
             steps := own.steps[stepId := after.0.steps[stepId]])
      else own
    case _ => own
  }

  function Recorded(before: Pass, event: EventRow, read: Option<RunRow>, after: (Tables, Recovered)): (next: Pass) {
    var own := Written(before.own, event, read, after, before.nextId);
    match after.1
    case Skipped => before
    case EventReopened => before.(own := own, reopened := before.reopened + 1)
    case RunFailed => before.(own := own, nextId := before.nextId + 1, failed := before.failed + 1)
    case Aborted => before.(aborted := true)
  }

  /**
    A pass over selected events, in order; one refused write loses the whole pass. The others have committed
    `meanwhile(2 * k)` by the time the run of event `k` is read and `meanwhile(2 * k + 1)` by the time it is written.
   */
  function ReconcileAll(batch: seq<EventRow>, meanwhile: nat -> Tables, maxAttempts: nat, now: Time,
                        firstId: Uuid): (after: Pass)
    requires Locked(batch, meanwhile, 2 * |batch|)
  {
    if batch == [] then Pass(EMPTY, firstId, 0, 0, false)
    else
      var k, event := |batch| - 1, batch[|batch| - 1];
      LockedPrefix(batch, meanwhile, 2 * |batch|, k, 2 * k);
      LockedAt(batch, meanwhile, 2 * |batch|, k, 2 * k + 1);
      var before := ReconcileAll(batch[..k], meanwhile, maxAttempts, now, firstId);
      if before.aborted then before
      else
        var read := FindRun(Over(meanwhile(2 * k), before.own), event.aggregateId);
        var db := Over(meanwhile(2 * k + 1), before.own);
        Recorded(before, event, read, ReconcileTx(db, event.id, read, maxAttempts, now, before.nextId))
  }

  lemma ReconcileLast(batch: seq<EventRow>, meanwhile: nat -> Tables, maxAttempts: nat, now: Time, firstId: Uuid)
    requires batch != [] && Locked(batch, meanwhile, 2 * |batch|)
    ensures var k := |batch| - 1;
            && Locked(batch[..k], meanwhile, 2 * k) && batch[k].id in meanwhile(2 * k + 1).events
            && var before := ReconcileAll(batch[..k], meanwhile, maxAttempts, now, firstId);
               && batch[k].id in Over(meanwhile(2 * k + 1), before.own).events
               && (!before.aborted ==>
                 var read := FindRun(Over(meanwhile(2 * k), before.own), batch[k].aggregateId);
                 ReconcileAll(batch, meanwhile, maxAttempts, now, firstId)
                   == Recorded(before, batch[k], read,
                        ReconcileTx(Over(meanwhile(2 * k + 1), before.own), batch[k].id, read, maxAttempts, now,
                                    before.nextId)))
  {
    hide ReconcileTx, FindRun, Recorded, Locked;
    LockedPrefix(batch, meanwhile, 2 * |batch|, |batch| - 1, 2 * (|batch| - 1));
    LockedAt(batch, meanwhile, 2 * |batch|, |batch| - 1, 2 * (|batch| - 1) + 1);
  }

  /** The pass goes on from where it stands after the events before. */
  lemma PassStep(batch: seq<EventRow>, k: nat, meanwhile: nat -> Tables, maxAttempts: nat, now: Time, firstId: Uuid)
    requires k < |batch| && Locked(batch, meanwhile, 2 * |batch|)
    ensures Locked(batch[..k], meanwhile, 2 * k) && Locked(batch[..k + 1], meanwhile, 2 * (k + 1))
    ensures batch[k].id in meanwhile(2 * k + 1).events && meanwhile(2 * k + 1).events[batch[k].id] == batch[k]
    ensures var before := ReconcileAll(batch[..k], meanwhile, maxAttempts, now, firstId);
            && batch[k].id in Over(meanwhile(2 * k + 1), before.own).events
            && (!before.aborted ==>
              var read := FindRun(Over(meanwhile(2 * k), before.own), batch[k].aggregateId);
              ReconcileAll(batch[..k + 1], meanwhile, maxAttempts, now, firstId)
                == Recorded(before, batch[k], read,
                     ReconcileTx(Over(meanwhile(2 * k + 1), before.own), batch[k].id, read, maxAttempts, now,
                                 before.nextId)))
  {
    hide ReconcileTx, FindRun, Recorded, Locked, ReconcileAll, Over;
    var upTo := batch[..k + 1];
    assert upTo[..k] == batch[..k] && upTo[k] == batch[k];
    LockedPrefix(batch, meanwhile, 2 * |batch|, k + 1, 2 * (k + 1));
    ReconcileLast(upTo, meanwhile, maxAttempts, now, firstId);
    LockedAt(batch, meanwhile, 2 * |batch|, k, 2 * k + 1);
  }

  /** A pass writes only events of its batch. */
  lemma {:induction false} WritesBatchEvents(batch: seq<EventRow>, meanwhile: nat -> Tables, maxAttempts: nat,
                                             now: Time, firstId: Uuid, i: Uuid)
    requires Locked(batch, meanwhile, 2 * |batch|)
             && i in ReconcileAll(batch, meanwhile, maxAttempts, now, firstId).own.events
    ensures exists k :: 0 <= k < |batch| && batch[k].id == i
  {
    hide ReconcileTx, Over, FindRun;
    if batch == [] {
    } else {
      var k := |batch| - 1;
      LockedPrefix(batch, meanwhile, 2 * |batch|, k, 2 * k);
      if i in ReconcileAll(batch[..k], meanwhile, maxAttempts, now, firstId).own.events {
        WritesBatchEvents(batch[..k], meanwhile, maxAttempts, now, firstId, i);
        var l :| 0 <= l < k && batch[..k][l].id == i;
        assert batch[l].id == i;
      } else {
        assert batch[k].id == i;
      }
    }
  }

  lemma {:induction false} AbortedPassStaysAborted(batch: seq<EventRow>, k: nat, meanwhile: nat -> Tables,
                                                   maxAttempts: nat, now: Time, firstId: Uuid)
    requires Locked(batch, meanwhile, 2 * |batch|) && k <= |batch| && Locked(batch[..k], meanwhile, 2 * k)
    requires ReconcileAll(batch[..k], meanwhile, maxAttempts, now, firstId).aborted
    ensures ReconcileAll(batch, meanwhile, maxAttempts, now, firstId).aborted
  {
    hide ReconcileTx, Over, FindRun, Recorded;
    if k == |batch| {
      assert batch[..k] == batch;
    } else {
      var before := batch[..|batch| - 1];
      assert before[..k] == batch[..k];
      LockedPrefix(batch, meanwhile, 2 * |batch|, |batch| - 1, 2 * |before|);
      AbortedPassStaysAborted(before, k, meanwhile, maxAttempts, now, firstId);
    }
  }

  lemma UnwrittenEvent(db: Tables, own: Tables, event: EventRow)
    requires event.id !in own.events && event.id in db.events && db.events[event.id] == event
    ensures event.id in Over(db, own).events && Over(db, own).events[event.id] == event
  {
  }

  /** What a recovery failure leaves of the run and records as its step. */
  lemma RecoveryFailure(db: Tables, event: EventRow, run: RunRow, maxAttempts: nat, now: Time, stepId: Uuid)
    requires event.id in db.events && db.events[event.id] == event
    requires run.version == event.aggregateVersion && maxAttempts <= event.publishAttempts
    ensures var after := ReconcileTx(db, event.id, Some(run), maxAttempts, now, stepId);
            var failing := run.(failureCode := Some(RECOVERY_CODE), failureDetail := Some(RECOVERY_DETAIL));
            match Transition(failing, Failed, now)
            case Err(_) => after.1 == Aborted
            case Ok(next) =>
              && next.id == run.id && next.version == run.version + 1
              && next.failureCode == Some(RECOVERY_CODE) && next.failureDetail == Some(RECOVERY_DETAIL)
              && after.1 == (if CanSave(db, run.id, run.version) then RunFailed else Aborted)
              && (CanSave(db, run.id, run.version) ==>
                    && run.id in after.0.runs && after.0.runs[run.id] == Saved(db.runs[run.id], next)
                    && stepId in after.0.steps
                    && after.0.steps[stepId] == RecoveryStep(stepId, run, event.publishAttempts, now))
  {
  }

  class RunReconciler {
    const uow: UnitOfWork
    const staleAfter: int
    const maxAttempts: nat

    constructor (uow: UnitOfWork, staleAfter: int, maxAttempts: nat)
      ensures this.uow == uow && this.staleAfter == staleAfter && this.maxAttempts == maxAttempts
    {
      this.uow, this.staleAfter, this.maxAttempts := uow, staleAfter, maxAttempts;
    }

    /** One selected event: reopen it, or fail its run once the budget is spent. Others commit after the read. */
    method RecoverEvent(event: EventRow, now: Time, stepId: Uuid, meanwhile: Tables) returns (outcome: Recovered)
      requires event.id !in uow.own.events && event.id in meanwhile.events && meanwhile.events[event.id] == event
      modifies uow
      ensures uow.committed == meanwhile
      ensures var read := FindRun(old(uow.Session()), event.aggregateId);
              var after := ReconcileTx(Over(meanwhile, old(uow.own)), event.id, read, maxAttempts, now, stepId);
              && outcome == after.1
              && (outcome != Aborted ==> uow.own == Written(old(uow.own), event, read, after, stepId))
    {
      hide Transition, Allowed, Over;
      ghost var own := uow.own;
      var found := FindRun(uow.Session(), event.aggregateId);
      uow.Interleave(meanwhile);
      UnwrittenEvent(meanwhile, own, event);
      if found == None || found.value.version != event.aggregateVersion {
        return Skipped;
      }
      if event.publishAttempts < maxAttempts {
        var reopened := uow.ReopenEvent(event.id, now);
        return EventReopened;
      }
      var run := new AuditRun(found.value);
      var sourceState, expectedVersion := run.state, run.version;
      run.failureCode, run.failureDetail := Some(RECOVERY_CODE), Some(RECOVERY_DETAIL);
      var error := run.Advance(Failed, now);
      RecoveryFailure(Over(meanwhile, own), event, found.value, maxAttempts, now, stepId);
      if error.Some? {
        return Aborted;
      }
      uow.PutStep(stepId, StepRow(stepId, run.id, Recovery(expectedVersion), sourceState, Failed, event.publishAttempts,
                                  StepFailed, expectedVersion, Some(run.version), None, None, None, None, now,
                                  Some(now), run.failureCode, run.failureDetail));
      var saved := uow.SaveRun(run.Row(), expectedVersion);
      return if saved then RunFailed else Aborted;
    }

    method RecoverAll(events: seq<EventRow>, now: Time, firstId: Uuid, meanwhile: nat -> Tables)
      returns (result: Option<(nat, nat)>, ghost stopped: nat)
      requires uow.own == EMPTY && DistinctEvents(events) && Locked(events, meanwhile, 2 * |events|)
      modifies uow
      ensures var after := ReconcileAll(events, meanwhile, maxAttempts, now, firstId);
              if after.aborted then result == None && stopped < |events| && uow.committed == meanwhile(2 * stopped + 1)
              else result == Some((after.reopened, after.failed)) && uow.own == after.own
    {
      hide ReconcileTx, Locked, ReconcileAll, Over, FindRun;
      var reopened, failed, nextId := 0, 0, firstId;
      stopped := 0;
      assert Locked(events[..0], meanwhile, 0) by { LockedPrefix(events, meanwhile, 2 * |events|, 0, 0); }
      assert ReconcileAll(events[..0], meanwhile, maxAttempts, now, firstId) == Pass(EMPTY, firstId, 0, 0, false) by {
        NothingRecovered(events[..0], meanwhile, maxAttempts, now, firstId);
      }
      for k := 0 to |events|
        invariant Locked(events[..k], meanwhile, 2 * k)
        invariant ReconcileAll(events[..k], meanwhile, maxAttempts, now, firstId)
                  == Pass(uow.own, nextId, reopened, failed, false)
      {
        PassStep(events, k, meanwhile, maxAttempts, now, firstId);
        NotYetWritten(events, k, meanwhile, maxAttempts, now, firstId);
        ghost var before := ReconcileAll(events[..k], meanwhile, maxAttempts, now, firstId);
        uow.Interleave(meanwhile(2 * k));
        ghost var read := FindRun(uow.Session(), events[k].aggregateId);
        ghost var after :=
          ReconcileTx(Over(meanwhile(2 * k + 1), before.own), events[k].id, read, maxAttempts, now, nextId);
        assert ReconcileAll(events[..k + 1], meanwhile, maxAttempts, now, firstId)
               == Recorded(before, events[k], read, after);
        var outcome := RecoverEvent(events[k], now, nextId, meanwhile(2 * k + 1));
        assert outcome == after.1;
        match outcome
        case Skipped => assert uow.own == before.own;
        case EventReopened => reopened := reopened + 1;
        case RunFailed => failed, nextId := failed + 1, nextId + 1;
        case Aborted =>
          AbortedPassStaysAborted(events, k + 1, meanwhile, maxAttempts, now, firstId);
          return None, k;
      }
      assert events[..|events|] == events;
      return Some((reopened, failed)), 0;
    }

    /**
      Recovers the longest-stale deliveries that nobody else has locked, all of them or none: a lost pass
      leaves what the others committed.
     */
    method ReconcileBatch(limit: nat, locked: set<Uuid>, now: Time, firstId: Uuid, meanwhile: nat -> Tables)
      returns (result: Option<(nat, nat)>, ghost batch: seq<EventRow>)
      requires Consistent(uow.committed)
      requires forall batch :: IsBatch(uow.committed, StaleEvents(uow.committed, now, now - staleAfter) - locked,
                                       PublishedTime, batch, limit)
                 ==> Locked(batch, meanwhile, 2 * |batch|)
      modifies uow
      ensures IsBatch(old(uow.committed), StaleEvents(old(uow.committed), now, now - staleAfter) - locked,
                      PublishedTime, batch, limit)
      ensures Locked(batch, meanwhile, 2 * |batch|)
      ensures var after := ReconcileAll(batch, meanwhile, maxAttempts, now, firstId);
              if after.aborted then
                result == None && exists k :: 0 <= k < |batch| && uow.committed == meanwhile(2 * k + 1)
              else
                result == Some((after.reopened, after.failed))
                && uow.committed == Over(meanwhile(2 * |batch|), after.own)
    {
      hide IsBatch, Locked, ReconcileAll, StaleEvents, Consistent;
      uow.Begin();
      var events := uow.LockStaleDeliveries(now, now - staleAfter, limit, locked);
      batch := events;
      BatchIsDistinct(uow.committed, StaleEvents(uow.committed, now, now - staleAfter) - locked, PublishedTime, batch,
                      limit);
      ghost var stopped;
      result, stopped := RecoverAll(events, now, firstId, meanwhile);
      if result == None {
        uow.Rollback();
      } else {
        uow.Interleave(meanwhile(2 * |events|));
        uow.Commit();
      }
    }
  }

  lemma NothingRecovered(batch: seq<EventRow>, meanwhile: nat -> Tables, maxAttempts: nat, now: Time, firstId: Uuid)
    requires batch == [] && Locked(batch, meanwhile, 0)
    ensures ReconcileAll(batch, meanwhile, maxAttempts, now, firstId) == Pass(EMPTY, firstId, 0, 0, false)
  {
  }

  lemma NotYetWritten(batch: seq<EventRow>, k: nat, meanwhile: nat -> Tables, maxAttempts: nat, now: Time,
                      firstId: Uuid)
    requires DistinctEvents(batch) && k < |batch| && Locked(batch[..k], meanwhile, 2 * k)
    ensures batch[k].id !in ReconcileAll(batch[..k], meanwhile, maxAttempts, now, firstId).own.events
  {
    if batch[k].id in ReconcileAll(batch[..k], meanwhile, maxAttempts, now, firstId).own.events {
      WritesBatchEvents(batch[..k], meanwhile, maxAttempts, now, firstId, batch[k].id);
      assert false;
    }
  }
}

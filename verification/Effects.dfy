/**
  What each transaction leaves behind, column by column, in every reachable state: the rows it writes,
  the answer it gives, and that nothing else changes.
 */
module Effects {
  import opened Wrappers
  import opened Lifecycle
  import opened Store
  import opened Protocol
  import opened Invariance
  import opened Safety
  import opened Delivery
  import opened Claims
  import opened Cancellation
  import opened Persistence
  import opened Services

  // --- Cancelling ----------------------------------------------------------------------------------

  /** The event of a run's version, as the run's only one. */
  ghost predicate IsEventOf(db: Tables, i: Uuid, r: Uuid, version: nat) {
    && i in db.events && db.events[i].aggregateId == r && db.events[i].aggregateVersion == version
    && forall j :: (j in db.events && db.events[j].aggregateId == r
                    && db.events[j].aggregateVersion == version) ==> i == j
  }

  lemma CurrentEvent(c: Config, s: System, r: Uuid) returns (i: Uuid)
    requires Inv(c, s) && r in s.db.runs && !Terminal(s.db.runs[r].state)
    ensures IsEventOf(s.db, i, r, s.db.runs[r].version) && IsRequest(s.db.events[i], r, s.db.runs[r].version)
  {
    hide Inv;
    RunFacts(c, s, r);
    var version := s.db.runs[r].version;
    OutboxFacts(c, s, r, version);
    i := s.outbox[r][version - 1];
    RequestFacts(c, s, i);
    forall j | j in s.db.events && s.db.events[j].aggregateId == r && s.db.events[j].aggregateVersion == version
      ensures i == j
    {
      RequestFacts(c, s, j);
    }
  }

  /** What an event asks for and how often it was tried, which a redelivery leaves alone. */
  predicate SameButDelivery(before: EventRow, after: EventRow) {
    after == before.(publishedAt := after.publishedAt, availableAt := after.availableAt, lastError := after.lastError)
  }

  /** The event is due from this reading on: whoever dispatches at it or later finds it. */
  ghost predicate DueFrom(event: EventRow, now: Time) {
    event.publishedAt == None && event.availableAt == now && forall later :: now <= later ==> Unpublished(event, later)
  }

  /**
    A cancel that saves its run records the request without leaving the version, and has the event of that
    version delivered again, even if it was published or put off; no other row changes.
   */
  lemma CancelEffect(c: Config, actions: seq<Action>, read: RunRow, now: Time) returns (i: Uuid)
    requires read in Exec(c, actions).seen && read.id in Exec(c, actions).db.runs
    requires Exec(c, actions).db.runs[read.id].version == read.version
    requires !Terminal(read.state) && read.cancelRequestedAt == None
    ensures var s := Exec(c, actions); var t := Step(c, s, Cancel(read, read.version, now));
            && t.db.runs == s.db.runs[read.id := t.db.runs[read.id]] && t.db.steps == s.db.steps
            && t.db.runs[read.id] == read.(cancelRequestedAt := Some(now), updatedAt := now)
            && t.db.runs[read.id].state == s.db.runs[read.id].state
            && CancelTx(s.db, read.id, Some(read), read.version, now).1 == Ok(t.db.runs[read.id])
            && IsEventOf(s.db, i, read.id, read.version)
            && t.db.events == s.db.events[i := t.db.events[i]]
            && SameButDelivery(s.db.events[i], t.db.events[i]) && DueFrom(t.db.events[i], now)
            && t.db.events[i].lastError == Some("WOKEN_FOR_CANCELLATION")
  {
    hide Inv, Exec;
    var s := Exec(c, actions);
    EveryExecutionKeepsInv(c, actions);
    ReadIsPast(c, s, read);
    i := CurrentEvent(c, s, read.id);
    var t := Step(c, s, Cancel(read, read.version, now));
    OnlyWoken(s.db.events, read.id, read.version, now, i);
  }

  lemma OnlyWoken(events: map<Uuid, EventRow>, r: Uuid, version: nat, now: Time, i: Uuid)
    requires i in events && IsRequest(events[i], r, version)
    requires forall j :: j in events && events[j].aggregateId == r && events[j].aggregateVersion == version ==> i == j
    ensures var woken := WakeCurrent(events, r, version, now);
            && woken == events[i := woken[i]] && SameButDelivery(events[i], woken[i]) && DueFrom(woken[i], now)
            && woken[i].lastError == Some("WOKEN_FOR_CANCELLATION")
  {
  }

  /** The answers to a cancel, in the order in which they are decided. */
  lemma CancelAnswers(db: Tables, r: Uuid, read: RunRow, expectedVersion: nat, now: Time)
    requires read.id == r
    ensures CancelTx(db, r, None, expectedVersion, now) == (db, Err(RunNotFound(r)))
    ensures var (after, answer) := CancelTx(db, r, Some(read), expectedVersion, now);
            var known := read.cancelRequestedAt.Some? || read.state == Cancelled;
            var current := r in db.runs && db.runs[r].version == expectedVersion;
            && (known ==> answer == Ok(read) && after == db)
            && (!known && Terminal(read.state) ==> answer == Err(TerminalRun(read.state)) && after == db)
            && (!known && !Terminal(read.state) && (read.version != expectedVersion || !current) ==>
                  answer == Err(OptimisticConcurrency(expectedVersion)) && after == db)
            && (!known && !Terminal(read.state) && read.version == expectedVersion && current ==>
                  answer == Ok(read.(cancelRequestedAt := Some(now), updatedAt := now)))
  {
    hide WakeCurrent;
  }

  // --- Claiming ------------------------------------------------------------------------------------

  /** The row that stands under a step key of a run. */
  ghost predicate StandsUnder(db: Tables, i: Uuid, r: Uuid, target: RunState) {
    i in db.steps && db.steps[i].runId == r && db.steps[i].key == Main(target)
  }

  /** What a worker asks for: to cancel when the run was read with a cancel, else the next state of the path. */
  ghost predicate AsksFor(read: RunRow, target: RunState) {
    if read.cancelRequestedAt.Some? then target == Cancelled
    else Position(read.state) in [0, 1, 2, 3, 4, 5, 6, 7, 8, 9, 10] && Position(target) == Position(read.state) + 1
  }

  /**
    A claim is granted exactly when the run that was read is live, in the state and version the event asks
    for, has a next state, no owner of a cancelled run was seen alive, and the row under the step key, if
    there is one, is RUNNING with an expired lease.
   */
  lemma ClaimIsGrantedIff(c: Config, actions: seq<Action>, eventId: Uuid, read: RunRow, current: Option<StepRow>,
                          worker: string, now: Time, target: RunState)
    requires var s := Exec(c, actions); read in s.seen && (eventId in s.db.events ==>
               s.db.events[eventId].aggregateId == read.id)
    requires AsksFor(read, target)
    ensures var s := Exec(c, actions);
            ClaimWith(c, s, eventId, read, current, worker, now).Some? <==>
              && eventId in s.db.events
              && read.state == s.db.events[eventId].expectedState
              && read.version == s.db.events[eventId].expectedVersion
              && !(read.cancelRequestedAt.Some? && current.Some? && current.value.expectedVersion == read.version
                   && current.value.leaseExpiresAt.Some? && now < current.value.leaseExpiresAt.value)
              && !Terminal(read.state)
              && forall i :: StandsUnder(s.db, i, read.id, target) ==>
                   && s.db.steps[i].status == Running
                   && (s.db.steps[i].leaseExpiresAt.Some? ==> s.db.steps[i].leaseExpiresAt.value <= now)
  {
    hide Inv, Exec, UpsertClaim, StandsUnder, AsksFor, ClaimTarget, Terminal;
    var s := Exec(c, actions);
    EveryExecutionKeepsInv(c, actions);
    KeysAreUnique(c, s);
    AskedTarget(read, target);
    UpsertIsGrantedIff(s.db, Candidate(read, target, worker, now, c.lease, s.nextId, s.nextId + 1), target);
    if eventId in s.db.events {
      assert s.db.events[eventId].topic == ADVANCE_TOPIC by { EventFacts(c, s, eventId); }
    }
  }

  lemma UpsertIsGrantedIff(db: Tables, candidate: StepRow, target: RunState)
    requires KeysUnique(db.steps) && candidate.key == Main(target)
    ensures UpsertClaim(db, candidate).1.Some? <==>
              forall i :: StandsUnder(db, i, candidate.runId, target) ==>
                && db.steps[i].status == Running
                && (db.steps[i].leaseExpiresAt.Some? ==> db.steps[i].leaseExpiresAt.value <= candidate.startedAt)
  {
    if HasKey(db.steps, candidate.runId, candidate.key) {
      var i := KeyHolder(db.steps, candidate.runId, candidate.key);
      assert StandsUnder(db, i, candidate.runId, target);
    }
  }

  /**
    A granted claim is a new row for the run as it was read, or the row under its step key with a new owner
    and one more attempt; its token was never handed out before, and no other row changes.
   */
  lemma ClaimEffect(c: Config, actions: seq<Action>, eventId: Uuid, read: RunRow, current: Option<StepRow>,
                    worker: string, now: Time, target: RunState)
    requires var s := Exec(c, actions);
             && read in s.seen && eventId in s.db.events && s.db.events[eventId].aggregateId == read.id
             && AsksFor(read, target) && ClaimWith(c, s, eventId, read, current, worker, now).Some?
    ensures var s := Exec(c, actions); var t := Step(c, s, Claim(eventId, read, current, worker, now));
            var claim := ClaimWith(c, s, eventId, read, current, worker, now).value;
            && claim in t.granted && claim.token.Some?
            && (forall other :: other in s.granted ==> other.token != claim.token)
            && t.db.runs == s.db.runs && t.db.events == s.db.events
            && t.db.steps == s.db.steps[claim.id := claim] && claim.leaseExpiresAt == Some(now + c.lease)
            && (if claim.id !in s.db.steps then
                  claim == StepRow(claim.id, read.id, Main(target), read.state, target, 1, Running, read.version, None,
                                   Some(worker), claim.token, Some(now), Some(now + c.lease), now, None, None, None)
                else
                  && StandsUnder(s.db, claim.id, read.id, target)
                  && claim == s.db.steps[claim.id].(
                       attempt := s.db.steps[claim.id].attempt + 1, workerId := Some(worker), token := claim.token,
                       heartbeatAt := Some(now), leaseExpiresAt := Some(now + c.lease)))
  {
    hide Inv, Exec, UpsertClaim, StandsUnder, ClaimTarget, AsksFor, OwnerStillLive, Terminal;
    hide DoCreate, DoCancel, DoHeartbeat, DoFinalize, DoFail, DoDispatch, DoReconcile;
    var s := Exec(c, actions);
    EveryExecutionKeepsInv(c, actions);
    FreshId(c, s, s.nextId);
    forall other | other in s.granted ensures other.token.Some? && other.token.value < s.nextId {
      TokenIsOld(c, s, other);
    }
    AskedTarget(read, target);
    forall i | i in s.db.steps ensures s.db.steps[i].id == i {
      StepFacts(c, s, i);
    }
    UpsertEffect(s.db, Candidate(read, target, worker, now, c.lease, s.nextId, s.nextId + 1), target);
  }

  lemma TokenIsOld(c: Config, s: System, claim: StepRow)
    requires Inv(c, s) && claim in s.granted
    ensures claim.token.Some? && claim.token.value < s.nextId
  {
    hide Inv;
    ClaimFacts(c, s, claim);
  }

  lemma UpsertEffect(db: Tables, candidate: StepRow, target: RunState)
    requires candidate.key == Main(target) && candidate.status == Running && candidate.id !in db.steps
    requires forall i :: i in db.steps ==> db.steps[i].id == i
    ensures var (after, claim) := UpsertClaim(db, candidate);
            claim.Some? ==>
              && after == db.(steps := db.steps[claim.value.id := claim.value])
              && (if claim.value.id !in db.steps then claim.value == candidate
                  else
                    && StandsUnder(db, claim.value.id, candidate.runId, target)
                    && db.steps[claim.value.id].status == Running
                    && claim.value == db.steps[claim.value.id].(
                         attempt := db.steps[claim.value.id].attempt + 1, workerId := candidate.workerId,
                         token := candidate.token, heartbeatAt := candidate.heartbeatAt,
                         leaseExpiresAt := candidate.leaseExpiresAt))
  {
  }

  lemma AskedTarget(read: RunRow, target: RunState)
    requires AsksFor(read, target)
    ensures ClaimTarget(read) == Some(target)
  {
    if read.cancelRequestedAt == None {
      PositionInjective(NextMainState(read.state).value, target);
    }
  }

  // --- Renewing ------------------------------------------------------------------------------------

  /** A renewal succeeds exactly for the RUNNING row that carries the token, and moves its lease only. */
  lemma HeartbeatEffect(c: Config, actions: seq<Action>, claim: StepRow, now: Time)
    requires claim in Exec(c, actions).granted
    ensures var s := Exec(c, actions); var t := Step(c, s, Heartbeat(claim, now));
            var renewed := HeartbeatTx(s.db, claim, now, c.lease).1;
            && claim.id in s.db.steps && t.db.runs == s.db.runs && t.db.events == s.db.events
            && (renewed <==> s.db.steps[claim.id].status == Running && s.db.steps[claim.id].token == claim.token)
            && t.db.steps == if !renewed then s.db.steps
                             else s.db.steps[claim.id := s.db.steps[claim.id].(heartbeatAt := Some(now),
                                                                               leaseExpiresAt := Some(now + c.lease))]
  {
    hide Inv, Exec;
    EveryExecutionKeepsInv(c, actions);
    ClaimFacts(c, Exec(c, actions), claim);
  }

  // --- Dispatching ---------------------------------------------------------------------------------

  /** The event after the broker took or refused it. */
  predicate DeliveredAs(event: EventRow, later: EventRow, refusal: Option<string>, retryAt: Time, now: Time) {
    match refusal
    case None =>
      later == event.(publishedAt := Some(now), publishAttempts := event.publishAttempts + 1, lastError := None)
    case Some(error) =>
      later == event.(availableAt := retryAt, publishAttempts := event.publishAttempts + 1, lastError := Some(error))
  }

  /** What one dispatch leaves behind; without its commit only the broker knows of it. */
  lemma DispatchEffect(c: Config, s: System, i: Uuid, refusal: Option<string>, commits: bool, retryAt: Time, now: Time)
    requires i in s.db.events && s.db.events[i].publishedAt == None && s.db.events[i].availableAt <= now
    ensures var error := if refusal == None then "" else refusal.value;
            var t := Step(c, s, Dispatch(i, refusal == None, commits, error, retryAt, now));
            && (i in t.sent <==> i in s.sent || refusal == None)
            && t.db.runs == s.db.runs && t.db.steps == s.db.steps
            && i in t.db.events && t.db.events == s.db.events[i := t.db.events[i]]
            && (commits ==> DeliveredAs(s.db.events[i], t.db.events[i], refusal, retryAt, now))
            && (!commits ==> t.db.events[i] == s.db.events[i])
  {
  }

  /** A batch marks each of its events by its own answer, and no other. */
  lemma {:induction false} DispatchedBatch(batch: seq<EventRow>, refusal: Uuid -> Option<string>,
                                           retryAt: Uuid -> Time, now: Time)
    requires DistinctEvents(batch)
    ensures var rows := DispatchedRows(batch, refusal, retryAt, now);
            && (forall i :: i in rows <==> exists k :: 0 <= k < |batch| && batch[k].id == i)
            && forall k {:trigger batch[k]} :: 0 <= k < |batch| ==>
                 DeliveredAs(batch[k], rows[batch[k].id], refusal(batch[k].id), retryAt(batch[k].id), now)
  {
    hide DispatchedRows, DeliveredAs, Dispatched;
    if batch == [] {
      NothingDispatched(batch, refusal, retryAt, now);
    } else {
      var n := |batch| - 1;
      var before, last := batch[..n], batch[n];
      assert batch[..|batch|] == batch && forall k :: 0 <= k < n ==> before[k] == batch[k];
      DispatchedBatch(before, refusal, retryAt, now);
      DispatchedNext(batch, n, refusal, retryAt, now);
      DispatchedEvent(last, refusal, retryAt, now);
      var rows := DispatchedRows(batch, refusal, retryAt, now);
      forall k | 0 <= k < |batch|
        ensures batch[k].id in rows
        ensures DeliveredAs(batch[k], rows[batch[k].id], refusal(batch[k].id), retryAt(batch[k].id), now)
      {
        assert k < n ==> before[k] == batch[k] && batch[k].id != last.id;
      }
    }
  }

  lemma DispatchedEvent(event: EventRow, refusal: Uuid -> Option<string>, retryAt: Uuid -> Time, now: Time)
    ensures DeliveredAs(event, Dispatched(event, refusal, retryAt, now), refusal(event.id), retryAt(event.id), now)
  {
  }

  function TakenOf(batch: seq<EventRow>, refusal: Uuid -> Option<string>): (ks: set<nat>) {
    set k | 0 <= k < |batch| && refusal(batch[k].id) == None
  }

  /** The number of events of a batch that the broker took. */
  lemma {:induction false} DispatchedCount(batch: seq<EventRow>, refusal: Uuid -> Option<string>)
    ensures AcceptedIn(batch, refusal) == |TakenOf(batch, refusal)|
  {
    if batch == [] {
      assert TakenOf(batch, refusal) == {};
    } else {
      var n := |batch| - 1;
      DispatchedCount(batch[..n], refusal);
      OneMoreTakenOf(batch, refusal);
    }
  }

  lemma OneMoreTakenOf(batch: seq<EventRow>, refusal: Uuid -> Option<string>)
    requires batch != []
    ensures var n := |batch| - 1;
            |TakenOf(batch, refusal)| == |TakenOf(batch[..n], refusal)| + if refusal(batch[n].id) == None then 1 else 0
  {
    var n := |batch| - 1;
    var before, own := TakenOf(batch[..n], refusal), if refusal(batch[n].id) == None then {n} else {};
    forall k ensures k in TakenOf(batch, refusal) <==> k in before || k in own {
      assert 0 <= k < n ==> batch[..n][k] == batch[k];
    }
    assert TakenOf(batch, refusal) == before + own && before * own == {};
  }

  /** What a dispatcher picks: due events that nobody has locked, by creation, then by id, and none passed over. */
  lemma DispatchSelection(db: Tables, now: Time, locked: set<Uuid>, batch: seq<EventRow>, limit: nat)
    requires Consistent(db) && IsBatch(db, UnpublishedEvents(db, now) - locked, CreatedTime, batch, limit)
    ensures |batch| <= limit
    ensures forall k :: 0 <= k < |batch| ==>
              && batch[k].id in db.events && db.events[batch[k].id] == batch[k] && batch[k].id !in locked
              && batch[k].publishedAt == None && batch[k].availableAt <= now
    ensures forall k, l :: 0 <= k < l < |batch| ==>
              || batch[k].createdAt < batch[l].createdAt
              || (batch[k].createdAt == batch[l].createdAt && batch[k].id < batch[l].id)
    ensures forall i :: (i in db.events && i !in locked && db.events[i].publishedAt == None
                         && db.events[i].availableAt <= now && db.events[i] !in batch) ==>
              && |batch| == limit
              && forall k :: 0 <= k < |batch| ==>
                   || batch[k].createdAt < db.events[i].createdAt
                   || (batch[k].createdAt == db.events[i].createdAt && batch[k].id < i)
  {
  }

  // --- Reconciling ---------------------------------------------------------------------------------

  /** What a reconciler picks: old deliveries for the current version of a live run whose step nobody keeps alive. */
  lemma ReconcileSelection(db: Tables, now: Time, staleBefore: Time, locked: set<Uuid>, batch: seq<EventRow>,
                           limit: nat)
    requires Consistent(db) && IsBatch(db, StaleEvents(db, now, staleBefore) - locked, PublishedTime, batch, limit)
    ensures |batch| <= limit
    ensures forall k :: 0 <= k < |batch| ==>
              && batch[k].id in db.events && db.events[batch[k].id] == batch[k] && batch[k].id !in locked
              && IsStaleIn(db, batch[k], now, staleBefore)
    ensures forall k, l :: 0 <= k < l < |batch| ==>
              || batch[k].publishedAt.value < batch[l].publishedAt.value
              || (batch[k].publishedAt.value == batch[l].publishedAt.value && batch[k].id < batch[l].id)
    ensures forall i :: (i in db.events && i !in locked && IsStaleIn(db, db.events[i], now, staleBefore)
                         && db.events[i] !in batch) ==>
              && |batch| == limit
              && forall k :: 0 <= k < |batch| ==>
                   || batch[k].publishedAt.value < db.events[i].publishedAt.value
                   || (batch[k].publishedAt.value == db.events[i].publishedAt.value && batch[k].id < i)
  {
  }

  ghost predicate IsStaleIn(db: Tables, event: EventRow, now: Time, staleBefore: Time) {
    && event.publishedAt.Some? && event.publishedAt.value <= staleBefore && event.aggregateId in db.runs
    && db.runs[event.aggregateId].version == event.aggregateVersion && !Terminal(db.runs[event.aggregateId].state)
    && forall i :: (i in db.steps && db.steps[i].runId == event.aggregateId
                    && db.steps[i].expectedVersion == event.aggregateVersion && db.steps[i].status == Running) ==>
         db.steps[i].leaseExpiresAt == None || db.steps[i].leaseExpiresAt.value <= now
  }

  /** A reopened event: due at once, with its request and its attempts as they were. */
  predicate ReopenedAs(event: EventRow, later: EventRow, now: Time) {
    later == event.(publishedAt := None, availableAt := now, lastError := Some("RECOVERED_STALE_DELIVERY"))
  }

  predicate RecoveryFailed(read: RunRow, later: RunRow, now: Time) {
    && LeftFor(read, Failed, now, later)
    && later.failureCode == Some("RECOVERY_EXHAUSTED")
    && later.failureDetail == Some("Stale delivery exceeded the configured recovery budget")
  }

  /** The step that records a recovery failure, finished as it is written. */
  predicate RecoveryRecorded(row: StepRow, i: Uuid, read: RunRow, attempts: nat, now: Time) {
    row == StepRow(i, read.id, Recovery(read.version), read.state, Failed, attempts, StepFailed, read.version,
                   Some(read.version + 1), None, None, None, None, now, Some(now), Some("RECOVERY_EXHAUSTED"),
                   Some("Stale delivery exceeded the configured recovery budget"))
  }

  /** What one reconciliation does to the tables. */
  ghost predicate Reconciles(c: Config, db: Tables, after: Tables, event: EventRow, read: RunRow, i: Uuid, now: Time) {
    if read.version != event.aggregateVersion then after == db
    else if event.publishAttempts < c.maxAttempts then
      && event.id in after.events && ReopenedAs(event, after.events[event.id], now)
      && after == db.(events := db.events[event.id := after.events[event.id]])
    else if !CanSave(db, read.id, read.version) then after == db
    else
      && read.id in after.runs && RecoveryFailed(read, after.runs[read.id], now)
      && i in after.steps && RecoveryRecorded(after.steps[i], i, read, event.publishAttempts, now)
      && after == db.(runs := db.runs[read.id := after.runs[read.id]], steps := db.steps[i := after.steps[i]])
  }

  lemma ReconcileEffect(c: Config, s: System, eventId: Uuid, joined: RunRow, read: RunRow, now: Time)
    requires Inv(c, s) && ReconcileEnabled(s, c, eventId, joined, read, false, now)
    ensures Reconciles(c, s.db, Step(c, s, Reconcile(eventId, joined, read, false, now)).db, s.db.events[eventId], read,
                       s.nextId, now)
  {
    hide Inv, RunShape, DoCreate, DoCancel, DoClaim, DoHeartbeat, DoFinalize, DoFail, DoDispatch;
    EventFacts(c, s, eventId);
    ReadIsPast(c, s, read);
    ReadIsPast(c, s, joined);
  }

  // --- Ends ------------------------------------------------------------------------------------------

  /** A run is completed exactly when it has ended, and carries a failure exactly when it failed. */
  predicate Stamped(run: RunRow) {
    && (run.completedAt.Some? <==> Terminal(run.state))
    && (run.failureCode.Some? <==> run.state == Failed) && (run.failureDetail.Some? <==> run.state == Failed)
  }

  ghost predicate AllStamped(s: System) {
    forall q :: q in s.seen ==> Stamped(q)
  }

  lemma FinalizeKeepsStamps(c: Config, s: System, claim: StepRow, read: RunRow, now: Time)
    requires Inv(c, s) && AllStamped(s)
    ensures AllStamped(DoFinalize(s, claim, read, now))
  {
    hide Inv, Holds, Allowed, Terminal, Stamped, CompletedStep, AdvanceEvent, Saved, Transition;
    if claim in s.granted && read in s.seen && read.id == claim.runId {
      FinishingSaves(c, s, claim, read);
      if Finishable(s, claim, read) {
        GrantedIsFenced(c, s, claim, read);
        PassedGuards(s, claim, read);
        NotForFailure(claim);
        LeavingStamps(read, FinalState(read, claim), now, s.db.runs[read.id]);
      }
    }
  }

  lemma NotForFailure(claim: StepRow)
    requires StepShape(claim) && claim.status == Running
    ensures claim.toState != Failed
  {
  }

  lemma LeavingStamps(read: RunRow, target: RunState, now: Time, stored: RunRow)
    requires Stamped(read) && !Terminal(read.state) && target != Failed
    ensures Transition(read, target, now).Ok? ==> Stamped(Saved(stored, Transition(read, target, now).value))
  {
  }

  lemma FailKeepsStamps(s: System, claim: StepRow, read: RunRow, code: string, detail: string, now: Time)
    requires AllStamped(s)
    ensures AllStamped(DoFail(s, claim, read, code, detail, now))
  {
    hide Holds, Stamped, FailedStep, Saved, Transition;
    if read.id in s.db.runs && read in s.seen {
      FailingStamps(read, code, detail, now, s.db.runs[read.id]);
    }
  }

  lemma FailingStamps(read: RunRow, code: string, detail: string, now: Time, stored: RunRow)
    requires Stamped(read)
    ensures var next := Transition(read.(failureCode := Some(code), failureDetail := Some(detail)), Failed, now);
            next.Ok? ==> Stamped(Saved(stored, next.value))
  {
  }

  lemma ReconcileKeepsStamps(c: Config, s: System, eventId: Uuid, joined: RunRow, read: RunRow, activeStep: bool,
                             now: Time)
    requires AllStamped(s)
    ensures AllStamped(DoReconcile(s, c, eventId, joined, read, activeStep, now))
  {
    hide Stamped, RecoveryStep, Reopened, Saved, Transition, StaleDelivery;
    if read.id in s.db.runs && read in s.seen {
      FailingStamps(read, RECOVERY_CODE, RECOVERY_DETAIL, now, s.db.runs[read.id]);
    }
  }

  lemma CancelKeepsStamps(c: Config, s: System, read: RunRow, expectedVersion: nat, now: Time)
    requires Inv(c, s) && AllStamped(s)
    ensures AllStamped(DoCancel(s, read, expectedVersion, now))
  {
    hide Inv, WakeCurrent;
    if read in s.seen {
      ReadIsPast(c, s, read);
      RunFacts(c, s, read.id);
    }
  }

  lemma OthersKeepStamps(c: Config, s: System, a: Action)
    requires AllStamped(s) && (a.Create? || a.Claim? || a.Heartbeat? || a.Dispatch?)
    ensures AllStamped(Step(c, s, a))
  {
    hide DoClaim;
    if a.Claim? {
      ClaimKeepsRuns(c, s, a);
    }
  }

  lemma {:induction false} EveryRowIsStamped(c: Config, actions: seq<Action>)
    ensures AllStamped(Exec(c, actions))
  {
    hide AllStamped, DoCreate, DoCancel, DoClaim, DoHeartbeat, DoFinalize, DoFail, DoDispatch, DoReconcile, Inv;
    if actions == [] {
      NothingIsStamped();
    } else {
      var before := actions[..|actions| - 1];
      var s := Exec(c, before);
      EveryRowIsStamped(c, before);
      EveryExecutionKeepsInv(c, before);
      match actions[|actions| - 1]
      case Finalize(claim, read, now) => FinalizeKeepsStamps(c, s, claim, read, now);
      case Fail(claim, read, code, detail, now) => FailKeepsStamps(s, claim, read, code, detail, now);
      case Reconcile(i, joined, read, activeStep, now) => ReconcileKeepsStamps(c, s, i, joined, read, activeStep, now);
      case Cancel(read, expectedVersion, now) => CancelKeepsStamps(c, s, read, expectedVersion, now);
      case _ => OthersKeepStamps(c, s, actions[|actions| - 1]);
    }
  }

  lemma NothingIsStamped()
    ensures AllStamped(INITIAL)
  {
  }

  /** In every reachable state, a run is completed exactly when it ended, and explains itself exactly when it failed. */
  lemma EndedIsStamped(c: Config, actions: seq<Action>, r: Uuid)
    requires r in Exec(c, actions).db.runs
    ensures var run := Exec(c, actions).db.runs[r];
            && (run.completedAt.Some? <==> Terminal(run.state))
            && (run.failureCode.Some? <==> run.state == Failed) && (run.failureDetail.Some? <==> run.state == Failed)
  {
    hide Inv, Exec;
    EveryExecutionKeepsInv(c, actions);
    RunFacts(c, Exec(c, actions), r);
    EveryRowIsStamped(c, actions);
  }
}

/**
  The three tables of the control database and, for every transaction of the protocol, the
  table contents it commits. A transaction that reads a run before it writes takes the row it
  read as an argument: its guards are evaluated against the tables, not against that row.
 */
module Store {
  import opened Wrappers
  import opened Lifecycle

  datatype StepStatus = Running | Succeeded | StepFailed | StepCancelled

  // "<run>:<target>:1" and "<run>:FAILED:recovery:<version>"; the run is the first half of the unique key.
  datatype StepKey = Main(target: RunState) | Recovery(version: nat)

  datatype StepRow = StepRow(
    id: Uuid, runId: Uuid, key: StepKey, fromState: RunState, toState: RunState, attempt: nat,
    status: StepStatus, expectedVersion: nat, resultingVersion: Option<nat>,
    workerId: Option<string>, token: Option<Uuid>, heartbeatAt: Option<Time>,
    leaseExpiresAt: Option<Time>, startedAt: Time, finishedAt: Option<Time>,
    errorCode: Option<string>, errorDetail: Option<string>)

  const ADVANCE_TOPIC: string := "run.advance.requested.v1"

  datatype EventRow = EventRow(
    id: Uuid, aggregateId: Uuid, aggregateVersion: nat, topic: string,
    expectedState: RunState, expectedVersion: nat, availableAt: Time, createdAt: Time,
    publishedAt: Option<Time>, publishAttempts: nat, lastError: Option<string>)

  datatype Tables = Tables(
    runs: map<Uuid, RunRow>, steps: map<Uuid, StepRow>, events: map<Uuid, EventRow>)

  const EMPTY: Tables := Tables(map[], map[], map[])

  // --- Queries -------------------------------------------------------------

  function FindRun(db: Tables, id: Uuid): Option<RunRow> {
    if id in db.runs then Some(db.runs[id]) else None
  }

  /** The lease test that every reader uses: strictly later than the reading. */
  predicate LiveAt(step: StepRow, now: Time) {
    step.leaseExpiresAt.Some? && now < step.leaseExpiresAt.value
  }

  ghost predicate HasRunning(db: Tables, runId: Uuid) {
    exists i :: i in db.steps && db.steps[i].runId == runId && db.steps[i].status == Running
  }

  /** `current` is the RUNNING row of the run that started last, ties going to the larger id. */
  ghost predicate IsCurrentStep(db: Tables, runId: Uuid, current: Option<StepRow>) {
    match current
    case None => !HasRunning(db, runId)
    case Some(row) =>
      && row.id in db.steps && db.steps[row.id] == row && row.runId == runId && row.status == Running
      && forall i :: i in db.steps && db.steps[i].runId == runId && db.steps[i].status == Running ==>
           db.steps[i].startedAt < row.startedAt || (db.steps[i].startedAt == row.startedAt && i <= row.id)
  }

  ghost predicate HasKey(steps: map<Uuid, StepRow>, runId: Uuid, key: StepKey) {
    exists i :: i in steps && steps[i].runId == runId && steps[i].key == key
  }

  /** The row that an insert with this unique key would conflict with. */
  ghost function KeyHolder(steps: map<Uuid, StepRow>, runId: Uuid, key: StepKey): (i: Uuid)
    requires HasKey(steps, runId, key)
    ensures i in steps && steps[i].runId == runId && steps[i].key == key
  {
    var i :| i in steps && steps[i].runId == runId && steps[i].key == key;
    i
  }

  ghost predicate KeysUnique(steps: map<Uuid, StepRow>) {
    forall i, j ::
      i in steps && j in steps && steps[i].runId == steps[j].runId && steps[i].key == steps[j].key ==> i == j
  }

  ghost predicate RequestKeyTaken(db: Tables, key: string) {
    exists r :: r in db.runs && db.runs[r].idempotencyKey == key
  }

  ghost function RequestKeyHolder(db: Tables, key: string): (r: Uuid)
    requires RequestKeyTaken(db, key)
    ensures r in db.runs && db.runs[r].idempotencyKey == key
  {
    var r :| r in db.runs && db.runs[r].idempotencyKey == key;
    r
  }

  ghost predicate RequestKeysUnique(db: Tables) {
    forall q, r :: q in db.runs && r in db.runs && db.runs[q].idempotencyKey == db.runs[r].idempotencyKey ==> q == r
  }

  ghost predicate HasLiveStep(db: Tables, runId: Uuid, version: nat, now: Time) {
    exists i :: i in db.steps && db.steps[i].runId == runId && db.steps[i].expectedVersion == version
      && db.steps[i].status == Running && LiveAt(db.steps[i], now)
  }

  /** The rows that the dispatcher may pick up. */
  predicate Unpublished(event: EventRow, now: Time) {
    event.publishedAt == None && event.availableAt <= now
  }

  /** The rows that the reconciler may pick up, given the run it joins and the active-step test. */
  predicate StaleDelivery(event: EventRow, joined: RunRow, activeStep: bool, staleBefore: Time) {
    && event.publishedAt.Some? && event.publishedAt.value <= staleBefore
    && joined.version == event.aggregateVersion
    && !Terminal(joined.state)
    && !activeStep
  }

  // --- Guards re-evaluated at write time -----------------------------------

  /** The fence: the claim still owns its RUNNING row. */
  predicate Holds(db: Tables, claim: StepRow) {
    && claim.token.Some?
    && claim.id in db.steps
    && db.steps[claim.id].token == claim.token
    && db.steps[claim.id].status == Running
  }

  predicate CanSave(db: Tables, id: Uuid, expectedVersion: nat) {
    id in db.runs && db.runs[id].version == expectedVersion
  }

  /** A save writes these columns and leaves the others alone. */
  function Saved(stored: RunRow, run: RunRow): RunRow {
    stored.(state := run.state, version := run.version, cancelRequestedAt := run.cancelRequestedAt,
            failureCode := run.failureCode, failureDetail := run.failureDetail,
            updatedAt := run.updatedAt, completedAt := run.completedAt)
  }

  function AdvanceEvent(id: Uuid, run: RunRow, now: Time): EventRow {
    EventRow(id, run.id, run.version, ADVANCE_TOPIC, run.state, run.version, now, now, None, 0, None)
  }

  // --- Creating and cancelling a run ---------------------------------------

  function NewRun(id: Uuid, key: string, fingerprint: string, now: Time): RunRow {
    RunRow(id, key, fingerprint, Queued, 1, None, None, None, now, now, None)
  }

  ghost function CreateTx(db: Tables, key: string, fingerprint: string, now: Time, runId: Uuid, eventId: Uuid)
    : (Tables, Result<RunRow, DomainError>)
  {
    if RequestKeyTaken(db, key) then
      var existing := db.runs[RequestKeyHolder(db, key)];
      (db, if existing.fingerprint == fingerprint then Ok(existing) else Err(IdempotencyConflict(key)))
    else
      var run := NewRun(runId, key, fingerprint, now);
      (db.(runs := db.runs[runId := run], events := db.events[eventId := AdvanceEvent(eventId, run, now)]), Ok(run))
  }

  /** The request to advance a run from a version. */
  predicate IsRequest(event: EventRow, runId: Uuid, version: nat) {
    event.aggregateId == runId && event.aggregateVersion == version && event.topic == ADVANCE_TOPIC
  }

  function Woken(event: EventRow, runId: Uuid, version: nat, at: Time): EventRow {
    if IsRequest(event, runId, version) then
      event.(publishedAt := None, availableAt := at, lastError := Some("WOKEN_FOR_CANCELLATION"))
    else event
  }

  function WakeCurrent(events: map<Uuid, EventRow>, runId: Uuid, version: nat, at: Time): (woken: map<Uuid, EventRow>)
    ensures woken.Keys == events.Keys
    ensures forall i :: i in events ==> woken[i] == Woken(events[i], runId, version, at)
  {
    map i | i in events :: Woken(events[i], runId, version, at)
  }

  function CancelTx(db: Tables, runId: Uuid, read: Option<RunRow>, expectedVersion: nat, now: Time)
    : (Tables, Result<RunRow, DomainError>)
  {
    if read == None then (db, Err(RunNotFound(runId)))
    else match RequestCancel(read.value, expectedVersion, now)
      case Err(e) => (db, Err(e))
      case Ok(run) =>
        if read.value.cancelRequestedAt.Some? || run.state == Cancelled then (db, Ok(run))
        else if !CanSave(db, run.id, expectedVersion) then (db, Err(OptimisticConcurrency(expectedVersion)))
        else
          (db.(runs := db.runs[run.id := Saved(db.runs[run.id], run)],
               events := WakeCurrent(db.events, run.id, run.version, now)),
           Ok(run))
  }

  // --- Claiming, renewing and finishing a stage ----------------------------

  function ClaimTarget(run: RunRow): Option<RunState> {
    if run.cancelRequestedAt.Some? then Some(Cancelled) else NextMainState(run.state)
  }

  function Candidate(run: RunRow, target: RunState, worker: string, now: Time, lease: int, stepId: Uuid,
                     token: Uuid): StepRow {
    StepRow(stepId, run.id, Main(target), run.state, target, 1, Running, run.version, None, Some(worker),
            Some(token), Some(now), Some(now + lease), now, None, None, None)
  }

  /** A row that the conflict clause of the claim may take over. */
  predicate Reclaimable(row: StepRow, now: Time) {
    row.status == Running && (row.leaseExpiresAt == None || row.leaseExpiresAt.value <= now)
  }

  function Reclaimed(row: StepRow, candidate: StepRow): StepRow {
    row.(attempt := row.attempt + 1, status := Running, workerId := candidate.workerId, token := candidate.token,
         heartbeatAt := candidate.heartbeatAt, leaseExpiresAt := candidate.leaseExpiresAt)
  }

  ghost function UpsertClaim(db: Tables, candidate: StepRow): (Tables, Option<StepRow>) {
    if !HasKey(db.steps, candidate.runId, candidate.key) then
      (db.(steps := db.steps[candidate.id := candidate]), Some(candidate))
    else
      var i := KeyHolder(db.steps, candidate.runId, candidate.key);
      if !Reclaimable(db.steps[i], candidate.startedAt) then (db, None)
      else
        var row := Reclaimed(db.steps[i], candidate);
        (db.(steps := db.steps[i := row]), Some(row))
  }

  /** A cancelled run is not claimed underneath an owner whose lease is live. */
  predicate OwnerStillLive(run: RunRow, current: Option<StepRow>, now: Time) {
    && run.cancelRequestedAt.Some?
    && current.Some?
    && current.value.expectedVersion == run.version
    && LiveAt(current.value, now)
  }

  ghost function ClaimTx(db: Tables, eventId: Uuid, read: Option<RunRow>, current: Option<StepRow>, worker: string,
                         now: Time, lease: int, stepId: Uuid, token: Uuid): (Tables, Option<StepRow>)
  {
    if eventId !in db.events || db.events[eventId].topic != ADVANCE_TOPIC then (db, None)
    else if read == None || Terminal(read.value.state) then (db, None)
    else
      var event, run := db.events[eventId], read.value;
      if run.state != event.expectedState || run.version != event.expectedVersion then (db, None)
      else if OwnerStillLive(run, current, now) then (db, None)
      else match ClaimTarget(run)
        case None => (db, None)
        case Some(target) => UpsertClaim(db, Candidate(run, target, worker, now, lease, stepId, token))
  }

  function HeartbeatTx(db: Tables, claim: StepRow, now: Time, lease: int): (Tables, bool) {
    if !Holds(db, claim) then (db, false)
    else
      var row := db.steps[claim.id].(heartbeatAt := Some(now), leaseExpiresAt := Some(now + lease));
      (db.(steps := db.steps[claim.id := row]), true)
  }

  function CompletedStep(row: StepRow, finalState: RunState, resultingVersion: nat, now: Time): StepRow {
    row.(status := if finalState == Cancelled then StepCancelled else Succeeded, toState := finalState,
         resultingVersion := Some(resultingVersion), finishedAt := Some(now), leaseExpiresAt := None)
  }

  function FinalState(run: RunRow, claim: StepRow): RunState {
    if run.cancelRequestedAt.Some? then Cancelled else claim.toState
  }

  function FinalizeTx(db: Tables, claim: StepRow, read: Option<RunRow>, now: Time, eventId: Uuid)
    : (Tables, Result<RunRow, DomainError>)
  {
    if claim.token == None || read == None || read.value.version != claim.expectedVersion || !Holds(db, claim) then
      (db, Err(ClaimLost(claim.id)))
    else
      var run := read.value;
      match Transition(run, FinalState(run, claim), now)
      case Err(e) => (db, Err(e))
      case Ok(next) =>
        if !CanSave(db, run.id, run.version) then (db, Err(OptimisticConcurrency(run.version)))
        else
          (Tables(db.runs[run.id := Saved(db.runs[run.id], next)],
                  db.steps[claim.id := CompletedStep(db.steps[claim.id], next.state, next.version, now)],
                  if Terminal(next.state) then db.events
                  else db.events[eventId := AdvanceEvent(eventId, next, now)]),
           Ok(next))
  }

  function FailedStep(row: StepRow, resultingVersion: nat, now: Time, code: string, detail: string): StepRow {
    row.(status := StepFailed, toState := Failed, resultingVersion := Some(resultingVersion), finishedAt := Some(now),
         leaseExpiresAt := None, errorCode := Some(code), errorDetail := Some(detail))
  }

  function FailTx(db: Tables, claim: StepRow, read: Option<RunRow>, code: string, detail: string, now: Time)
    : (Tables, Result<RunRow, DomainError>)
  {
    if claim.token == None || read == None || read.value.version != claim.expectedVersion || !Holds(db, claim) then
      (db, Err(ClaimLost(claim.id)))
    else
      var run := read.value;
      match Transition(run.(failureCode := Some(code), failureDetail := Some(detail)), Failed, now)
      case Err(e) => (db, Err(e))
      case Ok(next) =>
        if !CanSave(db, run.id, run.version) then (db, Err(OptimisticConcurrency(run.version)))
        else
          (db.(runs := db.runs[run.id := Saved(db.runs[run.id], next)],
               steps := db.steps[claim.id := FailedStep(db.steps[claim.id], run.version + 1, now, code, detail)]),
           Ok(next))
  }

  // --- Delivering and recovering events ------------------------------------

  /** An event that the broker took. */
  function Published(event: EventRow, at: Time): EventRow {
    event.(publishedAt := Some(at), publishAttempts := event.publishAttempts + 1, lastError := None)
  }

  /** An event that the broker refused. */
  function Postponed(event: EventRow, error: string, retryAt: Time): EventRow {
    event.(availableAt := retryAt, publishAttempts := event.publishAttempts + 1, lastError := Some(error))
  }

  function DispatchTx(db: Tables, eventId: Uuid, accepted: bool, error: string, now: Time, retryAt: Time): Tables
    requires eventId in db.events
  {
    var event := db.events[eventId];
    if event.publishedAt.Some? then db
    else
      db.(events := db.events[eventId := if accepted then Published(event, now) else Postponed(event, error, retryAt)])
  }

  const RECOVERY_CODE: string := "RECOVERY_EXHAUSTED"
  const RECOVERY_DETAIL: string := "Stale delivery exceeded the configured recovery budget"

  function RecoveryStep(id: Uuid, run: RunRow, attempts: nat, now: Time): StepRow {
    StepRow(id, run.id, Recovery(run.version), run.state, Failed, attempts, StepFailed, run.version,
            Some(run.version + 1), None, None, None, None, now, Some(now), Some(RECOVERY_CODE), Some(RECOVERY_DETAIL))
  }

  function Reopened(event: EventRow, now: Time): EventRow {
    event.(publishedAt := None, availableAt := now, lastError := Some("RECOVERED_STALE_DELIVERY"))
  }

  datatype Recovered = Skipped | EventReopened | RunFailed | Aborted

  /** One selected event of a reconciliation pass. */
  function ReconcileTx(db: Tables, eventId: Uuid, read: Option<RunRow>, maxAttempts: nat, now: Time, stepId: Uuid)
    : (Tables, Recovered)
    requires eventId in db.events
  {
    var event := db.events[eventId];
    if read == None || read.value.version != event.aggregateVersion then (db, Skipped)
    else if event.publishAttempts < maxAttempts then
      (db.(events := db.events[eventId := Reopened(event, now)]), EventReopened)
    else
      var run := read.value;
      match Transition(run.(failureCode := Some(RECOVERY_CODE), failureDetail := Some(RECOVERY_DETAIL)), Failed, now)
      case Err(_) => (db, Aborted)
      case Ok(next) =>
        if !CanSave(db, run.id, run.version) then (db, Aborted)
        else
          (db.(runs := db.runs[run.id := Saved(db.runs[run.id], next)],
               steps := db.steps[stepId := RecoveryStep(stepId, run, event.publishAttempts, now)]),
           RunFailed)
  }
}

/**
  The run protocol as a state machine, and the invariant that holds in every reachable state.

  An execution is a sequence of committed transactions in any order. A transaction is handed the
  rows it read earlier, and those may be any row ever committed, so the write half of each
  transaction runs against tables that other transactions have changed since the read. Workers
  hold every claim they were ever granted, clock readings are arbitrary, and an event may be
  delivered at any time, any number of times, or never.
 */
module Protocol {
  import opened Wrappers
  import opened Lifecycle
  import opened Store

  datatype Config = Config(lease: int, staleAfter: int, maxAttempts: nat)

  /**
    The tables together with the history an observer keeps beside them: the identifiers handed out,
    the claims granted, every run row ever committed, the events the broker received, for each run
    the steps that finished it version by version and the events enqueued for it, and how often
    each event was reopened.
   */
  datatype System = System(
    db: Tables, nextId: nat, granted: set<StepRow>, seen: set<RunRow>, sent: set<Uuid>,
    history: map<Uuid, seq<Uuid>>, outbox: map<Uuid, seq<Uuid>>, reopens: map<Uuid, nat>)

  const INITIAL: System := System(EMPTY, 0, {}, {}, {}, map[], map[], map[])

  datatype Action =
    | Create(key: string, fingerprint: string, now: Time)
    | Cancel(read: RunRow, expectedVersion: nat, now: Time)
    | Claim(eventId: Uuid, read: RunRow, current: Option<StepRow>, worker: string, now: Time)
    | Heartbeat(claim: StepRow, now: Time)
    | Finalize(claim: StepRow, read: RunRow, now: Time)
    | Fail(claim: StepRow, read: RunRow, code: string, detail: string, now: Time)
    | Dispatch(eventId: Uuid, accepted: bool, commits: bool, error: string, retryAt: Time, now: Time)
    | Reconcile(eventId: Uuid, joined: RunRow, read: RunRow, activeStep: bool, now: Time)

  // --- The transition function; an action that is not enabled changes nothing ----------

  ghost function DoCreate(s: System, key: string, fingerprint: string, now: Time): System {
    var (db, _) := CreateTx(s.db, key, fingerprint, now, s.nextId, s.nextId + 1);
    if RequestKeyTaken(s.db, key) then s.(db := db)
    else
      s.(db := db, nextId := s.nextId + 2, seen := s.seen + {db.runs[s.nextId]},
         history := s.history[s.nextId := []], outbox := s.outbox[s.nextId := [s.nextId + 1]],
         reopens := s.reopens[s.nextId + 1 := 0])
  }

  function DoCancel(s: System, read: RunRow, expectedVersion: nat, now: Time): System {
    if read !in s.seen || read.id !in s.db.runs then s
    else
      var (db, _) := CancelTx(s.db, read.id, Some(read), expectedVersion, now);
      if read.id !in db.runs then s else s.(db := db, seen := s.seen + {db.runs[read.id]})
  }

  ghost function DoClaim(s: System, c: Config, eventId: Uuid, read: RunRow, current: Option<StepRow>, worker: string,
                         now: Time): System {
    if read !in s.seen || eventId !in s.db.events || s.db.events[eventId].aggregateId != read.id then s
    else
      var (db, claim) := ClaimTx(s.db, eventId, Some(read), current, worker, now, c.lease, s.nextId, s.nextId + 1);
      if claim == None then s.(db := db)
      else s.(db := db, nextId := s.nextId + 2, granted := s.granted + {claim.value})
  }

  function DoHeartbeat(s: System, c: Config, claim: StepRow, now: Time): System {
    if claim !in s.granted then s else s.(db := HeartbeatTx(s.db, claim, now, c.lease).0)
  }

  function DoFinalize(s: System, claim: StepRow, read: RunRow, now: Time): System {
    if claim !in s.granted || read !in s.seen || read.id != claim.runId || read.id !in s.history || read.id !in s.outbox
    then s
    else match FinalizeTx(s.db, claim, Some(read), now, s.nextId)
      case (db, Err(_)) => s.(db := db)
      case (db, Ok(run)) => Advanced(s, db, read.id, claim.id, !Terminal(run.state))
  }

  function DoFail(s: System, claim: StepRow, read: RunRow, code: string, detail: string, now: Time): System {
    if claim !in s.granted || read !in s.seen || read.id != claim.runId || read.id !in s.history || read.id !in s.outbox
    then s
    else match FailTx(s.db, claim, Some(read), code, detail, now)
      case (db, Err(_)) => s.(db := db)
      case (db, Ok(run)) => Advanced(s, db, read.id, claim.id, false)
  }

  /** The broker's receipt is not undone when the transaction that marks the event is lost. */
  function DoDispatch(s: System, eventId: Uuid, accepted: bool, commits: bool, error: string, retryAt: Time,
                      now: Time): System {
    if eventId !in s.db.events || !Unpublished(s.db.events[eventId], now) then s
    else
      s.(sent := if accepted then s.sent + {eventId} else s.sent,
         db := if commits then DispatchTx(s.db, eventId, accepted, error, now, retryAt) else s.db)
  }

  /** The event row is locked from selection to commit; the two reads of its run may be stale. */
  predicate ReconcileEnabled(s: System, c: Config, eventId: Uuid, joined: RunRow, read: RunRow, activeStep: bool,
                             now: Time) {
    && eventId in s.db.events && eventId in s.reopens
    && joined in s.seen && joined.id == s.db.events[eventId].aggregateId
    && read in s.seen && read.id == s.db.events[eventId].aggregateId
    && read.id in s.history && read.id in s.outbox
    && StaleDelivery(s.db.events[eventId], joined, activeStep, now - c.staleAfter)
  }

  function DoReconcile(s: System, c: Config, eventId: Uuid, joined: RunRow, read: RunRow, activeStep: bool,
                       now: Time): System {
    if !ReconcileEnabled(s, c, eventId, joined, read, activeStep, now) then s
    else match ReconcileTx(s.db, eventId, Some(read), c.maxAttempts, now, s.nextId)
      case (db, EventReopened) => s.(db := db, reopens := s.reopens[eventId := s.reopens[eventId] + 1])
      case (db, RunFailed) => Advanced(s, db, read.id, s.nextId, false)
      case (db, _) => s.(db := db)
  }

  /** Book-keeping of a transaction that left one version of run `r` through step `stepId`. */
  function Advanced(s: System, db: Tables, r: Uuid, stepId: Uuid, enqueued: bool): System
    requires r in s.history && r in s.outbox
  {
    s.(db := db,
       nextId := s.nextId + 1,
       seen := s.seen + (if r in db.runs then {db.runs[r]} else {}),
       history := s.history[r := s.history[r] + [stepId]],
       outbox := if enqueued then s.outbox[r := s.outbox[r] + [s.nextId]] else s.outbox,
       reopens := if enqueued then s.reopens[s.nextId := 0] else s.reopens)
  }

  ghost function Step(c: Config, s: System, a: Action): System {
    match a
    case Create(key, fingerprint, now) => DoCreate(s, key, fingerprint, now)
    case Cancel(read, expectedVersion, now) => DoCancel(s, read, expectedVersion, now)
    case Claim(eventId, read, current, worker, now) => DoClaim(s, c, eventId, read, current, worker, now)
    case Heartbeat(claim, now) => DoHeartbeat(s, c, claim, now)
    case Finalize(claim, read, now) => DoFinalize(s, claim, read, now)
    case Fail(claim, read, code, detail, now) => DoFail(s, claim, read, code, detail, now)
    case Dispatch(eventId, accepted, commits, error, retryAt, now) =>
      DoDispatch(s, eventId, accepted, commits, error, retryAt, now)
    case Reconcile(eventId, joined, read, activeStep, now) => DoReconcile(s, c, eventId, joined, read, activeStep, now)
  }

  /** The state after a whole execution. */
  ghost function Exec(c: Config, actions: seq<Action>): System {
    if actions == [] then INITIAL else Step(c, Exec(c, actions[..|actions| - 1]), actions[|actions| - 1])
  }

  // --- The invariant -------------------------------------------------------

  /** A run sits on the main path at the position of its version, or ended early at that version. */
  predicate RunShape(run: RunRow) {
    && 1 <= run.version <= 12
    && (|| Position(run.state) == run.version - 1
        || (2 <= run.version && (run.state == Failed || run.state == Cancelled)))
  }

  predicate SameRun(a: RunRow, b: RunRow) {
    a.id == b.id && a.idempotencyKey == b.idempotencyKey && a.fingerprint == b.fingerprint && a.createdAt == b.createdAt
  }

  /** A row read earlier is the current one up to what a cancel changes, or belongs to a version left since. */
  predicate PastRow(past: RunRow, run: RunRow) {
    && SameRun(past, run)
    && past.version <= run.version
    && (if past.version == run.version then past.state == run.state else !Terminal(past.state))
  }

  predicate KeyMatches(key: StepKey, expectedVersion: nat, status: StepStatus, toState: RunState) {
    match key
    case Main(target) =>
      && (Position(target) == expectedVersion || target == Cancelled)
      && (status == Running ==> toState == target)
      && (target == Cancelled ==> toState == Cancelled || toState == Failed)
    case Recovery(version) => version == expectedVersion && status == StepFailed
  }

  /** What a row says about the version it was claimed for. */
  predicate StepShape(row: StepRow) {
    && 1 <= row.expectedVersion <= 11
    && Position(row.fromState) == row.expectedVersion - 1
    && KeyMatches(row.key, row.expectedVersion, row.status, row.toState)
    && (row.status == Running ==> row.resultingVersion == None && row.token.Some? && row.leaseExpiresAt.Some?)
    && (row.status != Running ==> row.resultingVersion == Some(row.expectedVersion + 1) && row.finishedAt.Some?)
    && (row.status == Succeeded ==> Position(row.toState) == row.expectedVersion)
    && (row.status == StepFailed ==> row.toState == Failed)
    && (row.status == StepCancelled ==> row.toState == Cancelled)
  }

  /** A finished step is the one recorded for its version, and the last one carries the run's state. */
  predicate StepInRun(row: StepRow, run: RunRow, history: seq<Uuid>) {
    if row.status == Running then
      row.expectedVersion <= run.version && (row.expectedVersion == run.version ==> !Terminal(run.state))
    else
      && 1 <= row.expectedVersion <= |history|
      && history[row.expectedVersion - 1] == row.id
      && (if row.expectedVersion + 1 == run.version then row.toState == run.state else row.status == Succeeded)
  }

  ghost predicate RunsOk(s: System) {
    && s.history.Keys == s.db.runs.Keys && s.outbox.Keys == s.db.runs.Keys
    && forall r :: r in s.db.runs ==> RunOk(s, r)
  }

  predicate RunOk(s: System, r: Uuid)
    requires s.history.Keys == s.db.runs.Keys && s.outbox.Keys == s.db.runs.Keys && r in s.db.runs
  {
    && s.db.runs[r].id == r && r < s.nextId
    && RunShape(s.db.runs[r])
    && s.db.runs[r] in s.seen
    && |s.history[r]| == s.db.runs[r].version - 1
    && |s.outbox[r]| == (if Terminal(s.db.runs[r].state) then s.db.runs[r].version - 1 else s.db.runs[r].version)
  }

  ghost predicate SeenOk(s: System) {
    forall q :: q in s.seen ==> RunShape(q) && q.id in s.db.runs && PastRow(q, s.db.runs[q.id])
  }

  ghost predicate StepsOk(s: System)
    requires s.history.Keys == s.db.runs.Keys
  {
    && KeysUnique(s.db.steps)
    && forall i :: i in s.db.steps ==> StepOk(s, i)
  }

  predicate StepOk(s: System, i: Uuid)
    requires s.history.Keys == s.db.runs.Keys && i in s.db.steps
  {
    var row := s.db.steps[i];
    && row.id == i && i < s.nextId && (row.token.Some? ==> row.token.value < s.nextId)
    && row.runId in s.db.runs
    && StepShape(row)
    && StepInRun(row, s.db.runs[row.runId], s.history[row.runId])
  }

  predicate FinishedAt(db: Tables, i: Uuid, r: Uuid, expectedVersion: nat) {
    i in db.steps && db.steps[i].runId == r && db.steps[i].status != Running
    && db.steps[i].expectedVersion == expectedVersion
  }

  ghost predicate HistoryOk(s: System)
    requires s.history.Keys == s.db.runs.Keys
  {
    forall r, k :: r in s.history && 0 <= k < |s.history[r]| ==> FinishedAt(s.db, s.history[r][k], r, k + 1)
  }

  /** A granted claim agrees with its row on every column that an update never touches. */
  predicate ClaimOk(db: Tables, nextId: nat, claim: StepRow) {
    && claim.id in db.steps
    && claim.runId == db.steps[claim.id].runId && claim.key == db.steps[claim.id].key
    && claim.fromState == db.steps[claim.id].fromState && claim.expectedVersion == db.steps[claim.id].expectedVersion
    && claim.status == Running && StepShape(claim)
    && claim.token.value < nextId
  }

  ghost predicate GrantedOk(s: System) {
    && (forall c :: c in s.granted ==> ClaimOk(s.db, s.nextId, c))
    && (forall c, d :: c in s.granted && d in s.granted && c.token == d.token ==> c == d)
  }

  predicate EventShape(event: EventRow) {
    && event.topic == ADVANCE_TOPIC
    && event.expectedVersion == event.aggregateVersion && 1 <= event.aggregateVersion <= 11
    && Position(event.expectedState) == event.aggregateVersion - 1
  }

  predicate EventOk(s: System, i: Uuid)
    requires i in s.db.events
  {
    var event := s.db.events[i];
    && event.id == i && i < s.nextId
    && EventShape(event)
    && event.aggregateId in s.outbox
    && event.aggregateVersion <= |s.outbox[event.aggregateId]|
    && s.outbox[event.aggregateId][event.aggregateVersion - 1] == i
    && (event.publishedAt.Some? ==> i in s.sent)
  }

  predicate OutboxEntry(db: Tables, i: Uuid, r: Uuid, version: nat) {
    i in db.events && db.events[i].aggregateId == r && db.events[i].aggregateVersion == version
  }

  ghost predicate EventsOk(s: System) {
    && (forall i :: i in s.db.events ==> EventOk(s, i))
    && (forall r, k :: r in s.outbox && 0 <= k < |s.outbox[r]| ==> OutboxEntry(s.db, s.outbox[r][k], r, k + 1))
  }

  /** Between two reopenings an event is published again, and each publication is counted. */
  ghost predicate ReopensOk(c: Config, s: System) {
    && s.reopens.Keys == s.db.events.Keys
    && forall i :: i in s.db.events ==> ReopenOk(c, s.db.events[i], s.reopens[i])
  }

  predicate ReopenOk(c: Config, event: EventRow, reopens: nat) {
    && reopens + (if event.publishedAt.Some? then 1 else 0) <= event.publishAttempts
    && (0 < reopens ==> reopens < c.maxAttempts)
  }

  ghost predicate Inv(c: Config, s: System) {
    && RequestKeysUnique(s.db) && RunsOk(s) && SeenOk(s) && StepsOk(s) && HistoryOk(s) && GrantedOk(s) && EventsOk(s)
    && ReopensOk(c, s)
  }
}

/** The audit run lifecycle: the main path, the allowed edges and the mutable run aggregate. */
module Lifecycle {
  import opened Wrappers

  type Uuid = nat

  // A clock reading. Readings are arbitrary: nothing below assumes that they grow.
  type Time = int

  datatype RunState =
    | Queued | Discovering | StaticAnalysis | Planning | Provisioning | BaselineReady
    | Applying | Seeding | SmokeTesting | RollbackVerifying | Reporting
    | AwaitingApproval | Completed | Approved | Rejected | Failed | Cancelled

  const MAIN_STATE_PATH: seq<RunState> :=
    [ Queued, Discovering, StaticAnalysis, Planning, Provisioning, BaselineReady,
      Applying, Seeding, SmokeTesting, RollbackVerifying, Reporting, Completed ]

  datatype DomainError =
    | InvalidStateTransition(source: RunState, target: RunState)
    | OptimisticConcurrency(expectedVersion: nat)
    | TerminalRun(state: RunState)
    | ClaimLost(stepId: Uuid)
    | IdempotencyConflict(key: string)
    | RunNotFound(runId: Uuid)

  predicate Terminal(state: RunState) {
    state == Completed || state == Approved || state == Rejected || state == Failed || state == Cancelled
  }

  /** The index of a state on the main path, or -1 for a state that is not on it. */
  function Position(state: RunState): (p: int)
    ensures -1 <= p < 12
  {
    match state
    case Queued => 0
    case Discovering => 1
    case StaticAnalysis => 2
    case Planning => 3
    case Provisioning => 4
    case BaselineReady => 5
    case Applying => 6
    case Seeding => 7
    case SmokeTesting => 8
    case RollbackVerifying => 9
    case Reporting => 10
    case Completed => 11
    case _ => -1
  }

  /** What `Position` means in terms of the declared path. */
  lemma PositionIsIndex(state: RunState)
    ensures 0 <= Position(state) ==> MAIN_STATE_PATH[Position(state)] == state
    ensures Position(state) == -1 <==> state !in MAIN_STATE_PATH
  {
    if 0 <= Position(state) {
      assert MAIN_STATE_PATH[Position(state)] == state;
    }
  }

  /** The only state at a given position of the main path. */
  lemma PositionInjective(s: RunState, t: RunState)
    requires 0 <= Position(s) == Position(t)
    ensures s == t
  {
  }

  function NextMainState(state: RunState): (next: Option<RunState>)
    ensures next.Some? <==> 0 <= Position(state) && state != Completed
    ensures next.Some? ==> Position(next.value) == Position(state) + 1
  {
    var position := Position(state);
    if position < 0 || position == |MAIN_STATE_PATH| - 1 then None else Some(MAIN_STATE_PATH[position + 1])
  }

  /** The declared edges of the lifecycle graph. */
  predicate Allowed(source: RunState, target: RunState) {
    || (0 <= Position(source) && Position(target) == Position(source) + 1)
    || (source == Reporting && target == AwaitingApproval)
    || (source == AwaitingApproval && (target == Approved || target == Rejected))
    || (!Terminal(source) && (target == Failed || target == Cancelled))
  }

  /** The lifecycle graph edge by edge: the main path, the approval branch, and two ways to end early. */
  lemma AllowedEdges(source: RunState, target: RunState)
    ensures Allowed(source, target) <==>
              || (source, target) in {
                   (Queued, Discovering), (Discovering, StaticAnalysis), (StaticAnalysis, Planning),
                   (Planning, Provisioning), (Provisioning, BaselineReady), (BaselineReady, Applying),
                   (Applying, Seeding), (Seeding, SmokeTesting), (SmokeTesting, RollbackVerifying),
                   (RollbackVerifying, Reporting), (Reporting, Completed), (Reporting, AwaitingApproval),
                   (AwaitingApproval, Approved), (AwaitingApproval, Rejected) }
              || (target in {Failed, Cancelled} && source !in {Completed, Approved, Rejected, Failed, Cancelled})
  {
  }

  /** One row of the run table. */
  datatype RunRow = RunRow(
    id: Uuid, idempotencyKey: string, fingerprint: string, state: RunState, version: nat,
    cancelRequestedAt: Option<Time>, failureCode: Option<string>, failureDetail: Option<string>,
    createdAt: Time, updatedAt: Time, completedAt: Option<Time>)

  /** The row that leaving `run.state` for `target` produces, or the refusal of an undeclared edge. */
  function Transition(run: RunRow, target: RunState, now: Time): Result<RunRow, DomainError> {
    if !Allowed(run.state, target) then Err(InvalidStateTransition(run.state, target))
    else Ok(run.(state := target, version := run.version + 1, updatedAt := now,
                 completedAt := if Terminal(target) then Some(now) else run.completedAt))
  }

  /** Recording a cooperative cancellation. */
  function RequestCancel(run: RunRow, expectedVersion: nat, now: Time): Result<RunRow, DomainError> {
    if run.state == Cancelled || run.cancelRequestedAt.Some? then Ok(run)
    else if Terminal(run.state) then Err(TerminalRun(run.state))
    else if run.version != expectedVersion then Err(OptimisticConcurrency(expectedVersion))
    else Ok(run.(cancelRequestedAt := Some(now), updatedAt := now))
  }

  /** The aggregate that a transaction loads, changes in place and saves. */
  class AuditRun {
    const id: Uuid
    const idempotencyKey: string
    const fingerprint: string
    const createdAt: Time
    var state: RunState
    var version: nat
    var cancelRequestedAt: Option<Time>
    var failureCode: Option<string>
    var failureDetail: Option<string>
    var updatedAt: Time
    var completedAt: Option<Time>

    function Row(): RunRow
      reads this
    {
      RunRow(id, idempotencyKey, fingerprint, state, version, cancelRequestedAt, failureCode,
             failureDetail, createdAt, updatedAt, completedAt)
    }

    constructor (row: RunRow)
      ensures Row() == row
    {
      id, idempotencyKey, fingerprint, createdAt := row.id, row.idempotencyKey, row.fingerprint, row.createdAt;
      state, version, cancelRequestedAt := row.state, row.version, row.cancelRequestedAt;
      failureCode, failureDetail := row.failureCode, row.failureDetail;
      updatedAt, completedAt := row.updatedAt, row.completedAt;
    }

    /** Advances through an allowed edge, or leaves the run as it was and returns the error. */
    method Advance(target: RunState, now: Time) returns (error: Option<DomainError>)
      modifies this
      ensures match Transition(old(Row()), target, now)
              case Ok(row) => error == None && Row() == row
              case Err(e) => error == Some(e) && Row() == old(Row())
    {
      if !Allowed(state, target) {
        return Some(InvalidStateTransition(state, target));
      }
      state := target;
      version := version + 1;
      updatedAt := now;
      if Terminal(target) {
        completedAt := Some(now);
      }
      return None;
    }

    /** Records a cancellation without advancing the version. */
    method RecordCancel(expectedVersion: nat, now: Time) returns (error: Option<DomainError>)
      modifies this
      ensures match RequestCancel(old(Row()), expectedVersion, now)
              case Ok(row) => error == None && Row() == row
              case Err(e) => error == Some(e) && Row() == old(Row())
    {
      if state == Cancelled || cancelRequestedAt.Some? {
        return None;
      }
      if Terminal(state) {
        return Some(TerminalRun(state));
      }
      if version != expectedVersion {
        return Some(OptimisticConcurrency(expectedVersion));
      }
      cancelRequestedAt := Some(now);
      updatedAt := now;
      return None;
    }
  }
}

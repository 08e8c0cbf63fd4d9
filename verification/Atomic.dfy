/** What holds in addition when every transaction runs alone, so that the rows it reads are the current ones. */
module Atomic {
  import opened Wrappers
  import opened Lifecycle
  import opened Store
  import opened Protocol
  import opened Invariance
  import opened Claims
  import opened Cancellation

  predicate ReadsRun(s: System, r: Uuid, read: RunRow) {
    r in s.db.runs ==> read == s.db.runs[r]
  }

  /** The action runs alone: what it read is what the tables hold. */
  ghost predicate Alone(s: System, a: Action) {
    match a
    case Cancel(read, _, _) => ReadsRun(s, read.id, read)
    case Claim(eventId, read, current, _, _) =>
      eventId in s.db.events ==>
        ReadsRun(s, s.db.events[eventId].aggregateId, read)
        && IsCurrentStep(s.db, s.db.events[eventId].aggregateId, current)
    case Finalize(claim, read, _) => ReadsRun(s, claim.runId, read)
    case Fail(claim, read, _, _, _) => ReadsRun(s, claim.runId, read)
    case Reconcile(eventId, joined, read, activeStep, now) =>
      eventId in s.db.events ==>
        var event := s.db.events[eventId];
        && ReadsRun(s, event.aggregateId, joined) && ReadsRun(s, event.aggregateId, read)
        && activeStep == HasLiveStep(s.db, event.aggregateId, event.aggregateVersion, now)
    case _ => true
  }

  ghost predicate AtomicExecution(c: Config, actions: seq<Action>) {
    forall k :: 0 <= k < |actions| ==> Alone(Exec(c, actions[..k]), actions[k])
  }

  /** A RUNNING row of a run that has not ended is for its current version, and a CANCELLED one follows a cancel. */
  predicate RowIsCurrent(row: StepRow, run: RunRow) {
    && (row.status == Running && !Terminal(run.state) ==> row.expectedVersion == run.version)
    && (row.key == Main(Cancelled) ==> run.cancelRequestedAt.Some?)
  }

  ghost predicate RowsCurrent(db: Tables) {
    forall i :: i in db.steps && db.steps[i].runId in db.runs ==> RowIsCurrent(db.steps[i], db.runs[db.steps[i].runId])
  }

  lemma LeavingKeepsCurrent(s: System, db: Tables, run: RunRow, row: StepRow, i: Uuid)
    requires s.history.Keys == s.db.runs.Keys && s.outbox.Keys == s.db.runs.Keys
    requires LeavesRun(s, db, run) && LeavesThrough(s, db, run, row) && KeysUnique(s.db.steps)
    requires run.cancelRequestedAt == s.db.runs[run.id].cancelRequestedAt
    requires !Terminal(run.state) ==> run.cancelRequestedAt == None
    requires row.id in s.db.steps && StepOk(s, row.id) && RowIsCurrent(s.db.steps[row.id], s.db.runs[run.id])
    requires i in s.db.steps && StepOk(s, i) && RowIsCurrent(s.db.steps[i], s.db.runs[s.db.steps[i].runId])
    ensures i in db.steps && db.steps[i].runId in db.runs && RowIsCurrent(db.steps[i], db.runs[db.steps[i].runId])
  {
    if i != row.id && s.db.steps[i].runId == run.id && s.db.steps[i].status == Running {
      assert s.db.steps[i].key != s.db.steps[row.id].key;
      if !Terminal(run.state) {
        PositionInjective(s.db.steps[i].toState, s.db.steps[row.id].toState);
      }
    }
  }

  // --- Each action keeps the rows current ----------------------------------------------------------

  /** A run that ends keeps its rows current, whatever row finished it. */
  lemma EndingKeepsCurrent(s: System, db: Tables, run: RunRow, row: StepRow)
    requires LeavesRun(s, db, run) && LeavesThrough(s, db, run, row)
    requires RowsCurrent(s.db) && (row.key == Main(Cancelled) ==> row.id in s.db.steps)
    requires Terminal(run.state) && run.cancelRequestedAt == s.db.runs[run.id].cancelRequestedAt
    ensures RowsCurrent(db)
  {
    forall i | i in db.steps && db.steps[i].runId in db.runs
      ensures RowIsCurrent(db.steps[i], db.runs[db.steps[i].runId]) {
      if i in s.db.steps {
        assert RowIsCurrent(s.db.steps[i], s.db.runs[s.db.steps[i].runId]);
      }
    }
  }

  lemma FinalizeKeepsCurrent(c: Config, s: System, claim: StepRow, read: RunRow, now: Time)
    requires Inv(c, s) && RowsCurrent(s.db) && ReadsRun(s, claim.runId, read)
    ensures RowsCurrent(DoFinalize(s, claim, read, now).db)
  {
    hide Inv;
    var (db, result) := FinalizeTx(s.db, claim, Some(read), now, s.nextId);
    if claim in s.granted && read in s.seen && read.id == claim.runId && result.Ok? {
      GrantedIsFenced(c, s, claim, read);
      FinalizeLeaves(s, claim, read, now);
      assert RowIsCurrent(s.db.steps[claim.id], s.db.runs[read.id]);
      if Terminal(result.value.state) {
        EndingKeepsCurrent(s, db, db.runs[read.id], db.steps[claim.id]);
      } else {
        KeysAreUnique(c, s);
        forall i | i in db.steps && db.steps[i].runId in db.runs
          ensures RowIsCurrent(db.steps[i], db.runs[db.steps[i].runId]) {
          StepFacts(c, s, i);
          LeavingKeepsCurrent(s, db, db.runs[read.id], db.steps[claim.id], i);
        }
      }
    }
  }

  lemma FailKeepsCurrent(c: Config, s: System, claim: StepRow, read: RunRow, code: string, detail: string, now: Time)
    requires Inv(c, s) && RowsCurrent(s.db) && ReadsRun(s, claim.runId, read)
    ensures RowsCurrent(DoFail(s, claim, read, code, detail, now).db)
  {
    hide Inv;
    var (db, result) := FailTx(s.db, claim, Some(read), code, detail, now);
    if claim in s.granted && read in s.seen && read.id == claim.runId && result.Ok? {
      GrantedIsFenced(c, s, claim, read);
      FailLeaves(s, claim, read, code, detail, now);
      EndingKeepsCurrent(s, db, db.runs[read.id], db.steps[claim.id]);
    }
  }

  lemma ReconcileKeepsCurrent(c: Config, s: System, eventId: Uuid, joined: RunRow, read: RunRow, activeStep: bool,
                              now: Time)
    requires Inv(c, s) && RowsCurrent(s.db)
    requires eventId in s.db.events ==> ReadsRun(s, s.db.events[eventId].aggregateId, read)
    ensures RowsCurrent(DoReconcile(s, c, eventId, joined, read, activeStep, now).db)
  {
    hide Inv;
    if ReconcileEnabled(s, c, eventId, joined, read, activeStep, now) {
      var (db, outcome) := ReconcileTx(s.db, eventId, Some(read), c.maxAttempts, now, s.nextId);
      if outcome == RunFailed {
        ReadIsPast(c, s, read);
        FreshId(c, s, s.nextId);
        KeyIsFree(c, s, read);
        RecoveryLeaves(s, eventId, read, c.maxAttempts, now);
        EndingKeepsCurrent(s, db, db.runs[read.id], db.steps[s.nextId]);
      }
    }
  }

  lemma KeyIsFree(c: Config, s: System, read: RunRow)
    requires Inv(c, s) && read.id in s.db.runs && read.version == s.db.runs[read.id].version
    ensures !HasKey(s.db.steps, read.id, Recovery(read.version))
  {
    RunFacts(c, s, read.id);
    RecoveryKeyIsFree(s, read);
  }

  lemma ClaimKeepsCurrent(c: Config, s: System, eventId: Uuid, read: RunRow, current: Option<StepRow>, worker: string,
                          now: Time)
    requires Inv(c, s) && RowsCurrent(s.db)
    requires eventId in s.db.events ==> ReadsRun(s, s.db.events[eventId].aggregateId, read)
    ensures RowsCurrent(DoClaim(s, c, eventId, read, current, worker, now).db)
  {
    hide Inv, RowsCurrent, UpsertClaim, ClaimTx, DoClaim, ClaimTarget, Candidate;
    ClaimTables(c, s, eventId, read, current, worker, now);
    if DoClaim(s, c, eventId, read, current, worker, now).db != s.db {
      assert read.id in s.db.runs by { SeenRunExists(c, s, read); }
      CancelledTargetMeansCancel(read);
      CandidateKeepsCurrent(s, read, ClaimTarget(read).value, worker, now, c.lease, s.nextId, s.nextId + 1);
    }
  }

  lemma SeenRunExists(c: Config, s: System, read: RunRow)
    requires Inv(c, s) && read in s.seen
    ensures read.id in s.db.runs
  {
    hide Inv;
    ReadIsPast(c, s, read);
  }

  lemma CandidateKeepsCurrent(s: System, read: RunRow, target: RunState, worker: string, now: Time, lease: int,
                              stepId: Uuid, token: Uuid)
    requires RowsCurrent(s.db) && read.id in s.db.runs && s.db.runs[read.id] == read
    requires target == Cancelled ==> read.cancelRequestedAt.Some?
    ensures RowsCurrent(UpsertClaim(s.db, Candidate(read, target, worker, now, lease, stepId, token)).0)
  {
    hide RowsCurrent, UpsertClaim;
    UpsertKeepsCurrent(s, read, Candidate(read, target, worker, now, lease, stepId, token));
  }

  /** The tables after a claim: unchanged, or the upsert of the candidate. */
  lemma ClaimTables(c: Config, s: System, eventId: Uuid, read: RunRow, current: Option<StepRow>, worker: string,
                    now: Time)
    ensures var after := DoClaim(s, c, eventId, read, current, worker, now).db;
            || after == s.db
            || (&& read in s.seen && eventId in s.db.events && s.db.events[eventId].aggregateId == read.id
                && !Terminal(read.state) && ClaimTarget(read).Some?
                && after == UpsertClaim(s.db, Candidate(read, ClaimTarget(read).value, worker, now, c.lease, s.nextId,
                                                        s.nextId + 1)).0)
  {
    hide UpsertClaim, ClaimTx, ClaimTarget;
    ClaimIsUpsert(s.db, eventId, read, current, worker, now, c.lease, s.nextId, s.nextId + 1);
  }

  lemma CancelledTargetMeansCancel(run: RunRow)
    ensures ClaimTarget(run) == Some(Cancelled) ==> run.cancelRequestedAt.Some?
  {
  }

  lemma UpsertKeepsCurrent(s: System, read: RunRow, candidate: StepRow)
    requires RowsCurrent(s.db) && read.id in s.db.runs && s.db.runs[read.id] == read
    requires candidate.runId == read.id && candidate.expectedVersion == read.version
    requires candidate.key == Main(Cancelled) ==> read.cancelRequestedAt.Some?
    ensures RowsCurrent(UpsertClaim(s.db, candidate).0)
  {
    var db := UpsertClaim(s.db, candidate).0;
    forall i | i in db.steps && db.steps[i].runId in db.runs
      ensures RowIsCurrent(db.steps[i], db.runs[db.steps[i].runId]) {
      if i in s.db.steps {
        assert s.db.steps[i].runId in s.db.runs ==> RowIsCurrent(s.db.steps[i], s.db.runs[s.db.steps[i].runId]);
      }
    }
  }

  lemma CancelKeepsCurrent(c: Config, s: System, read: RunRow, expectedVersion: nat, now: Time)
    requires Inv(c, s) && RowsCurrent(s.db) && ReadsRun(s, read.id, read)
    ensures RowsCurrent(DoCancel(s, read, expectedVersion, now).db)
  {
    hide Inv;
    if read in s.seen && read.id in s.db.runs {
      var db := DoCancel(s, read, expectedVersion, now).db;
      forall i | i in db.steps && db.steps[i].runId in db.runs
        ensures RowIsCurrent(db.steps[i], db.runs[db.steps[i].runId]) {
        assert RowIsCurrent(s.db.steps[i], s.db.runs[s.db.steps[i].runId]);
      }
    }
  }

  lemma OtherActionsKeepCurrent(c: Config, s: System, a: Action)
    requires Inv(c, s) && RowsCurrent(s.db) && (a.Create? || a.Heartbeat? || a.Dispatch?)
    ensures RowsCurrent(Step(c, s, a).db)
  {
    hide Inv;
    var db := Step(c, s, a).db;
    forall i | i in db.steps && db.steps[i].runId in db.runs
      ensures RowIsCurrent(db.steps[i], db.runs[db.steps[i].runId]) {
      StepFacts(c, s, i);
      FreshId(c, s, s.nextId);
      assert RowIsCurrent(s.db.steps[i], s.db.runs[s.db.steps[i].runId]);
    }
  }

  lemma StepKeepsCurrent(c: Config, s: System, a: Action)
    requires Inv(c, s) && RowsCurrent(s.db) && Alone(s, a)
    ensures RowsCurrent(Step(c, s, a).db)
  {
    hide Inv, RowsCurrent, DoCreate, DoCancel, DoClaim, DoFinalize, DoFail, DoReconcile, DoHeartbeat, DoDispatch;
    match a
    case Cancel(read, expectedVersion, now) => CancelKeepsCurrent(c, s, read, expectedVersion, now);
    case Claim(eventId, read, current, worker, now) => ClaimKeepsCurrent(c, s, eventId, read, current, worker, now);
    case Finalize(claim, read, now) => FinalizeKeepsCurrent(c, s, claim, read, now);
    case Fail(claim, read, code, detail, now) => FailKeepsCurrent(c, s, claim, read, code, detail, now);
    case Reconcile(eventId, joined, read, activeStep, now) =>
      ReconcileKeepsCurrent(c, s, eventId, joined, read, activeStep, now);
    case _ => OtherActionsKeepCurrent(c, s, a);
  }

  lemma AtomicPrefix(c: Config, actions: seq<Action>)
    requires AtomicExecution(c, actions) && actions != []
    ensures AtomicExecution(c, actions[..|actions| - 1])
            && Alone(Exec(c, actions[..|actions| - 1]), actions[|actions| - 1])
  {
    hide Exec, Alone;
    var before := actions[..|actions| - 1];
    forall k | 0 <= k < |before| ensures Alone(Exec(c, before[..k]), before[k]) {
      assert before[..k] == actions[..k];
      assert Alone(Exec(c, actions[..k]), actions[k]);
    }
  }

  lemma {:induction false} AtomicExecutionKeepsCurrent(c: Config, actions: seq<Action>)
    requires AtomicExecution(c, actions)
    ensures Inv(c, Exec(c, actions)) && RowsCurrent(Exec(c, actions).db)
  {
    hide Inv, Step, RowsCurrent, Alone, AtomicExecution;
    EveryExecutionKeepsInv(c, actions);
    if actions == [] {
      NothingIsCurrent();
    } else {
      AtomicPrefix(c, actions);
      AtomicExecutionKeepsCurrent(c, actions[..|actions| - 1]);
      StepKeepsCurrent(c, Exec(c, actions[..|actions| - 1]), actions[|actions| - 1]);
    }
  }

  lemma NothingIsCurrent()
    ensures RowsCurrent(INITIAL.db)
  {
  }

  // --- What follows --------------------------------------------------------------------------------

  /** When every read is current, every granted claim is for the version and the state the run is in. */
  lemma GrantedClaimIsCoherent(c: Config, actions: seq<Action>, eventId: Uuid, current: Option<StepRow>, worker: string,
                               now: Time)
    requires AtomicExecution(c, actions) && eventId in Exec(c, actions).db.events
    requires Exec(c, actions).db.events[eventId].aggregateId in Exec(c, actions).db.runs
    requires var s := Exec(c, actions);
             ClaimWith(c, s, eventId, s.db.runs[s.db.events[eventId].aggregateId], current, worker, now).Some?
    ensures var s := Exec(c, actions);
            var run := s.db.runs[s.db.events[eventId].aggregateId];
            var claim := ClaimWith(c, s, eventId, run, current, worker, now).value;
            && claim.runId == run.id && claim.expectedVersion == run.version && claim.fromState == run.state
            && Some(claim.toState) == ClaimTarget(run)
  {
    hide Inv, Exec, RowsCurrent, ClaimWith, CancellationHeldAt, AtomicExecution;
    var s := Exec(c, actions);
    AtomicExecutionKeepsCurrent(c, actions);
    var run := s.db.runs[s.db.events[eventId].aggregateId];
    RunFacts(c, s, s.db.events[eventId].aggregateId);
    GrantedIsUpserted(c, s, eventId, run, current, worker, now);
    if run.cancelRequestedAt.Some? {
      HeldIsCurrent(c, s, eventId, run, current, worker, now);
    }
    CurrentReadIsCoherentIff(c, actions, eventId, current, worker, now);
    GrantedClaimIsCoherentIff(c, actions, eventId, run, current, worker, now);
  }

  lemma HeldIsCurrent(c: Config, s: System, eventId: Uuid, run: RunRow, current: Option<StepRow>, worker: string,
                      now: Time)
    requires Inv(c, s) && RowsCurrent(s.db) && eventId in s.db.events && run.id in s.db.runs && s.db.runs[run.id] == run
    requires ClaimWith(c, s, eventId, run, current, worker, now).Some? && run.cancelRequestedAt.Some?
    ensures CancellationHeldAt(s.db, run.id).Some? ==> CancellationHeldAt(s.db, run.id).value == run.version
  {
    hide Inv, ClaimWith;
    GrantedIsUpserted(c, s, eventId, run, current, worker, now);
  }

  lemma AloneCarriesCancel(c: Config, s: System, a: Action, r: Uuid)
    requires Alone(s, a) && r in s.db.runs && s.db.runs[r].cancelRequestedAt.Some?
    ensures CarriesCancel(c, s, a, r)
  {
    hide Holds, StaleDelivery;
  }

  /**
    When every read is current, a recorded cancel stays recorded; the run makes at most one more
    transition, to CANCELLED or FAILED, and no further event is enqueued for it.
   */
  lemma {:induction false} CancelIsFinal(c: Config, actions: seq<Action>, k: nat, r: Uuid)
    requires AtomicExecution(c, actions) && k <= |actions|
    requires r in Exec(c, actions[..k]).db.runs && Exec(c, actions[..k]).db.runs[r].cancelRequestedAt.Some?
    ensures CancelKept(Exec(c, actions[..k]), Exec(c, actions), r)
  {
    hide Exec, Inv, Step, Alone, AtomicExecution, CarriesCancel;
    if k == |actions| {
      assert actions[..k] == actions;
      KeptAtOnce(c, actions, r);
    } else {
      var before := actions[..|actions| - 1];
      assert before[..k] == actions[..k];
      AtomicPrefix(c, actions);
      CancelIsFinal(c, before, k, r);
      EveryExecutionKeepsInv(c, before);
      AloneCarriesCancel(c, Exec(c, before), actions[|actions| - 1], r);
      LastKeepsIff(c, actions, k, r);
    }
  }
}

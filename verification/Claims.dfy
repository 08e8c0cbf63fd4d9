/** Claims under any reads: what a worker may be granted, and for which version, in every reachable state. */
module Claims {
  import opened Wrappers
  import opened Lifecycle
  import opened Store
  import opened Protocol
  import opened Invariance
  import opened Safety

  // --- RUNNING rows --------------------------------------------------------------------------------

  /** A version that a live run has left was left through the step its path names, and that step succeeded. */
  lemma LeftThroughMain(c: Config, s: System, r: Uuid, version: nat)
    requires Inv(c, s) && r in s.db.runs && !Terminal(s.db.runs[r].state) && 1 <= version < s.db.runs[r].version
    ensures r in s.history && version - 1 < |s.history[r]| && s.history[r][version - 1] in s.db.steps
    ensures var row := s.db.steps[s.history[r][version - 1]];
            && row.runId == r && row.status == Succeeded && row.key.Main? && Position(row.key.target) == version
  {
    hide Inv;
    RunFacts(c, s, r);
    HistoryEntry(c, s, r, version - 1);
  }

  /** A RUNNING row of a live run is for its current version, unless it is a CANCELLED one left from an earlier
      version. */
  lemma RunningOnLiveRun(c: Config, s: System, i: Uuid)
    requires Inv(c, s) && i in s.db.steps && s.db.steps[i].status == Running
    requires s.db.steps[i].runId in s.db.runs && !Terminal(s.db.runs[s.db.steps[i].runId].state)
    ensures var row := s.db.steps[i];
            && row.key.Main? && row.toState == row.key.target
            && (row.expectedVersion == s.db.runs[row.runId].version ||
                (row.key == Main(Cancelled) && row.expectedVersion < s.db.runs[row.runId].version))
  {
    hide Inv;
    var row := s.db.steps[i];
    StepFacts(c, s, i);
    if row.expectedVersion < s.db.runs[row.runId].version && row.key != Main(Cancelled) {
      KeysAreUnique(c, s);
      LeftThroughMain(c, s, row.runId, row.expectedVersion);
      PositionInjective(row.key.target, s.db.steps[s.history[row.runId][row.expectedVersion - 1]].key.target);
      assert false;
    }
  }

  lemma KeysAreUnique(c: Config, s: System)
    requires Inv(c, s)
    ensures KeysUnique(s.db.steps)
  {
  }

  /** The run was read with a cancel at the version this row is for. */
  ghost predicate WasCancelled(s: System, row: StepRow) {
    exists q :: q in s.seen && q.id == row.runId && q.version == row.expectedVersion && q.cancelRequestedAt.Some?
  }

  ghost predicate CancellationsFollow(s: System) {
    forall i :: i in s.db.steps && s.db.steps[i].key == Main(Cancelled) ==> WasCancelled(s, s.db.steps[i])
  }

  /** Rows are never removed, keep their run, key and version, and a new CANCELLED row comes from a read with a
      cancel. */
  lemma NewRowsFollow(c: Config, s: System, a: Action, i: Uuid)
    requires i in Step(c, s, a).db.steps && Step(c, s, a).db.steps[i].key == Main(Cancelled)
    ensures var row := Step(c, s, a).db.steps[i];
            || (i in s.db.steps && s.db.steps[i].key == row.key && s.db.steps[i].runId == row.runId
                && s.db.steps[i].expectedVersion == row.expectedVersion)
            || WasCancelled(s, row)
  {
    hide UpsertClaim, ClaimTx, WasCancelled;
    hide DoCreate, DoCancel, DoHeartbeat, DoFinalize, DoFail, DoDispatch, DoReconcile;
    if a.Claim? {
      ClaimRowsFollow(c, s, a, i);
    } else {
      OtherRowsStay(c, s, a, i);
    }
  }

  lemma ClaimRowsFollow(c: Config, s: System, a: Action, i: Uuid)
    requires a.Claim?
    requires i in Step(c, s, a).db.steps && Step(c, s, a).db.steps[i].key == Main(Cancelled)
    ensures var row := Step(c, s, a).db.steps[i];
            || (i in s.db.steps && s.db.steps[i].key == row.key && s.db.steps[i].runId == row.runId
                && s.db.steps[i].expectedVersion == row.expectedVersion)
            || WasCancelled(s, row)
  {
    hide UpsertClaim, ClaimTx, ClaimTarget;
    ClaimIsUpsert(s.db, a.eventId, a.read, a.current, a.worker, a.now, c.lease, s.nextId, s.nextId + 1);
    if ClaimTarget(a.read).Some? {
      TargetIsCancelled(a.read);
      UpsertedRow(s.db, Candidate(a.read, ClaimTarget(a.read).value, a.worker, a.now, c.lease, s.nextId, s.nextId + 1),
                  i);
    }
  }

  lemma TargetIsCancelled(run: RunRow)
    ensures ClaimTarget(run) == Some(Cancelled) ==> run.cancelRequestedAt.Some?
  {
  }

  lemma OtherRowsStay(c: Config, s: System, a: Action, i: Uuid)
    requires !a.Claim? && i in Step(c, s, a).db.steps && Step(c, s, a).db.steps[i].key == Main(Cancelled)
    ensures var row := Step(c, s, a).db.steps[i];
            i in s.db.steps && s.db.steps[i].key == row.key && s.db.steps[i].runId == row.runId
            && s.db.steps[i].expectedVersion == row.expectedVersion
  {
    hide Transition, RequestCancel, WakeCurrent;
  }

  lemma UpsertedRow(db: Tables, candidate: StepRow, i: Uuid)
    ensures i in UpsertClaim(db, candidate).0.steps ==>
              var row := UpsertClaim(db, candidate).0.steps[i];
            || (i in db.steps && db.steps[i].key == row.key && db.steps[i].runId == row.runId
                && db.steps[i].expectedVersion == row.expectedVersion)
            || row == candidate
  {
  }

  lemma {:induction false} EveryCancellationFollows(c: Config, actions: seq<Action>)
    ensures CancellationsFollow(Exec(c, actions))
  {
    hide Step, Inv;
    if actions == [] {
    } else {
      var before, last := actions[..|actions| - 1], actions[|actions| - 1];
      EveryCancellationFollows(c, before);
      EveryExecutionKeepsInv(c, before);
      var s := Exec(c, before);
      FreshId(c, s, s.nextId);
      RecordsGrow(c, s, last);
      forall i | i in Step(c, s, last).db.steps && Step(c, s, last).db.steps[i].key == Main(Cancelled)
        ensures WasCancelled(Step(c, s, last), Step(c, s, last).db.steps[i])
      {
        NewRowsFollow(c, s, last, i);
        var row := if WasCancelled(s, Step(c, s, last).db.steps[i]) then Step(c, s, last).db.steps[i]
                   else s.db.steps[i];
        var q :| q in s.seen && q.id == row.runId && q.version == row.expectedVersion && q.cancelRequestedAt.Some?;
        assert q in Step(c, s, last).seen;
      }
    }
  }

  /**
    The RUNNING rows of a live run: one for its main successor, at its current version, and one CANCELLED
    row, which follows a cancel of its version and may be left from an earlier one.
   */
  lemma AtMostTwoRunningRows(c: Config, actions: seq<Action>, i: Uuid)
    requires var db := Exec(c, actions).db;
             i in db.steps && db.steps[i].status == Running
             && db.steps[i].runId in db.runs && !Terminal(db.runs[db.steps[i].runId].state)
    ensures var db := Exec(c, actions).db; var row := db.steps[i]; var run := db.runs[row.runId];
            && (|| (NextMainState(run.state) == Some(row.toState) && row.expectedVersion == run.version
                    && row.fromState == run.state)
                || (row.toState == Cancelled && row.expectedVersion <= run.version
                    && WasCancelled(Exec(c, actions), row)))
            && (forall j :: (j in db.steps && db.steps[j].status == Running && db.steps[j].runId == row.runId
                             && db.steps[j].toState == row.toState) ==> i == j)
  {
    hide Inv, Exec;
    var s := Exec(c, actions);
    EveryExecutionKeepsInv(c, actions);
    EveryCancellationFollows(c, actions);
    RunningOnLiveRun(c, s, i);
    StepFacts(c, s, i);
    var row := s.db.steps[i];
    forall j | j in s.db.steps && s.db.steps[j].status == Running && s.db.steps[j].runId == row.runId
        && s.db.steps[j].toState == row.toState
      ensures i == j
    {
      RunningOnLiveRun(c, s, j);
      KeysAreUnique(c, s);
    }
    if row.toState != Cancelled {
      PositionInjective(row.toState, NextMainState(s.db.runs[row.runId].state).value);
      PositionInjective(row.fromState, s.db.runs[row.runId].state);
    }
  }

  // --- Granted claims ------------------------------------------------------------------------------

  /** What the claim of an event grants, with these rows read. */
  ghost function ClaimWith(c: Config, s: System, eventId: Uuid, read: RunRow, current: Option<StepRow>, worker: string,
                           now: Time): Option<StepRow> {
    ClaimTx(s.db, eventId, Some(read), current, worker, now, c.lease, s.nextId, s.nextId + 1).1
  }

  /** A granted claim, whatever was read: the candidate, or the row that holds its key. */
  lemma GrantedIsUpserted(c: Config, s: System, eventId: Uuid, read: RunRow, current: Option<StepRow>, worker: string,
                          now: Time)
    requires Inv(c, s) && eventId in s.db.events && ClaimWith(c, s, eventId, read, current, worker, now).Some?
    ensures var claim := ClaimWith(c, s, eventId, read, current, worker, now).value;
            && !Terminal(read.state) && ClaimTarget(read).Some?
            && read.version == s.db.events[eventId].aggregateVersion
            && claim.runId == read.id && claim.key == Main(ClaimTarget(read).value) && claim.status == Running
            && claim.workerId == Some(worker) && claim.token == Some(s.nextId + 1)
            && claim.leaseExpiresAt == Some(now + c.lease)
            && var key := Main(ClaimTarget(read).value);
               if HasKey(s.db.steps, read.id, key) then
                 var held := s.db.steps[KeyHolder(s.db.steps, read.id, key)];
                 && held.status == Running && !LiveAt(held, now) && claim.id == held.id
                 && claim.expectedVersion == held.expectedVersion && claim.fromState == held.fromState
                 && claim.toState == held.toState
               else
                 claim.expectedVersion == read.version && claim.fromState == read.state
                 && claim.toState == ClaimTarget(read).value
  {
    hide Inv;
    EventFacts(c, s, eventId);
    if HasKey(s.db.steps, read.id, Main(ClaimTarget(read).value)) {
      StepFacts(c, s, KeyHolder(s.db.steps, read.id, Main(ClaimTarget(read).value)));
    }
  }

  /** The version of the row that a claim of this run's cancellation would take over, if there is one. */
  ghost function CancellationHeldAt(db: Tables, r: Uuid): Option<nat> {
    if HasKey(db.steps, r, Main(Cancelled)) then Some(db.steps[KeyHolder(db.steps, r, Main(Cancelled))].expectedVersion)
    else None
  }

  /**
    Whatever was read, a claim granted on a live run is for the run's current version if and only if the
    row it takes over is, when it is a cancellation that takes one over, and the run was read at its
    current version otherwise. If so it starts in the run's state.
   */
  lemma GrantedClaimIsCoherentIff(c: Config, actions: seq<Action>, eventId: Uuid, read: RunRow,
                                  current: Option<StepRow>, worker: string, now: Time)
    requires var s := Exec(c, actions);
             && eventId in s.db.events && read in s.seen && s.db.events[eventId].aggregateId == read.id
             && read.id in s.db.runs && !Terminal(s.db.runs[read.id].state)
             && ClaimWith(c, s, eventId, read, current, worker, now).Some?
    ensures var s := Exec(c, actions);
            var claim, run := ClaimWith(c, s, eventId, read, current, worker, now).value, s.db.runs[read.id];
            var held := if read.cancelRequestedAt.Some? then CancellationHeldAt(s.db, read.id) else None;
            && (claim.expectedVersion == run.version
                <==> (if held.Some? then held.value else read.version) == run.version)
            && (claim.expectedVersion == run.version ==> claim.fromState == run.state)
            && claim.runId == run.id && Some(claim.toState) == ClaimTarget(read)
            && claim.workerId == Some(worker) && claim.token == Some(s.nextId + 1)
            && claim.leaseExpiresAt == Some(now + c.lease)
  {
    hide Inv, Exec, ClaimWith;
    var s := Exec(c, actions);
    EveryExecutionKeepsInv(c, actions);
    GrantedIsUpserted(c, s, eventId, read, current, worker, now);
    ReadIsPast(c, s, read);
    var target := ClaimTarget(read).value;
    if HasKey(s.db.steps, read.id, Main(target)) {
      var i := KeyHolder(s.db.steps, read.id, Main(target));
      StepFacts(c, s, i);
      RunningOnLiveRun(c, s, i);
      if s.db.steps[i].expectedVersion == s.db.runs[read.id].version {
        PositionInjective(s.db.steps[i].fromState, s.db.runs[read.id].state);
      }
    }
  }

  /** With the run read as it is, a granted claim is for its current version unless an earlier cancellation holds the
      key. */
  lemma CurrentReadIsCoherentIff(c: Config, actions: seq<Action>, eventId: Uuid, current: Option<StepRow>,
                                 worker: string, now: Time)
    requires var s := Exec(c, actions);
             && eventId in s.db.events && s.db.events[eventId].aggregateId in s.db.runs
             && ClaimWith(c, s, eventId, s.db.runs[s.db.events[eventId].aggregateId], current, worker, now).Some?
    ensures var s := Exec(c, actions);
            var run := s.db.runs[s.db.events[eventId].aggregateId];
            var claim := ClaimWith(c, s, eventId, run, current, worker, now).value;
            claim.expectedVersion == run.version <==>
              !(run.cancelRequestedAt.Some? && CancellationHeldAt(s.db, run.id).Some?
                && CancellationHeldAt(s.db, run.id).value < run.version)
  {
    hide Inv, Exec, ClaimWith, CancellationHeldAt;
    var s := Exec(c, actions);
    EveryExecutionKeepsInv(c, actions);
    var run := s.db.runs[s.db.events[eventId].aggregateId];
    RunFacts(c, s, s.db.events[eventId].aggregateId);
    GrantedIsUpserted(c, s, eventId, run, current, worker, now);
    GrantedClaimIsCoherentIff(c, actions, eventId, run, current, worker, now);
    CancellationIsPast(c, s, run.id);
  }

  lemma CancellationIsPast(c: Config, s: System, r: Uuid)
    requires Inv(c, s) && r in s.db.runs && !Terminal(s.db.runs[r].state)
    ensures CancellationHeldAt(s.db, r).Some? ==> CancellationHeldAt(s.db, r).value <= s.db.runs[r].version
  {
    hide Inv;
    if HasKey(s.db.steps, r, Main(Cancelled)) {
      StepFacts(c, s, KeyHolder(s.db.steps, r, Main(Cancelled)));
    }
  }

  /**
    No dead end: with the run and its current step read as they are, once every lease of the run has
    expired, the claim of the event of its current version is granted. It never meets a finished row
    under the key it needs.
   */
  lemma ClaimSucceedsOnceLeasesExpire(c: Config, actions: seq<Action>, eventId: Uuid, current: Option<StepRow>,
                                      worker: string, now: Time)
    requires eventId in Exec(c, actions).db.events
    requires var s := Exec(c, actions); var r := s.db.events[eventId].aggregateId;
             && r in s.db.runs && !Terminal(s.db.runs[r].state)
             && s.db.events[eventId].aggregateVersion == s.db.runs[r].version
             && IsCurrentStep(s.db, r, current)
             && forall i :: i in s.db.steps && s.db.steps[i].runId == r && s.db.steps[i].status == Running
                            ==> !LiveAt(s.db.steps[i], now)
    ensures var s := Exec(c, actions);
            ClaimWith(c, s, eventId, s.db.runs[s.db.events[eventId].aggregateId], current, worker, now).Some?
  {
    hide Inv, Exec;
    var s := Exec(c, actions);
    EveryExecutionKeepsInv(c, actions);
    EventFacts(c, s, eventId);
    var run := s.db.runs[s.db.events[eventId].aggregateId];
    RunFacts(c, s, s.db.events[eventId].aggregateId);
    PositionInjective(run.state, s.db.events[eventId].expectedState);
    var target := ClaimTarget(run).value;
    if HasKey(s.db.steps, run.id, Main(target)) {
      KeyHolderRuns(c, s, run, target);
      StepFacts(c, s, KeyHolder(s.db.steps, run.id, Main(target)));
    }
  }

  /** On a live run the key that the next claim needs is free or held by a RUNNING row. */
  lemma KeyHolderRuns(c: Config, s: System, run: RunRow, target: RunState)
    requires Inv(c, s) && run.id in s.db.runs && s.db.runs[run.id] == run && !Terminal(run.state)
    requires ClaimTarget(run) == Some(target) && HasKey(s.db.steps, run.id, Main(target))
    ensures s.db.steps[KeyHolder(s.db.steps, run.id, Main(target))].status == Running
  {
    hide Inv;
    var i := KeyHolder(s.db.steps, run.id, Main(target));
    StepFacts(c, s, i);
  }

  /** Without a CANCELLED row, the current step is the only RUNNING one. */
  lemma OnlyRunning(c: Config, actions: seq<Action>, r: Uuid, current: Option<StepRow>, i: Uuid)
    requires var s := Exec(c, actions);
             && r in s.db.runs && !Terminal(s.db.runs[r].state) && !HasKey(s.db.steps, r, Main(Cancelled))
             && i in s.db.steps && s.db.steps[i].runId == r && s.db.steps[i].status == Running
             && IsCurrentStep(s.db, r, current)
    ensures current == Some(Exec(c, actions).db.steps[i])
  {
    hide Inv, Exec;
    var s := Exec(c, actions);
    EveryExecutionKeepsInv(c, actions);
    assert HasRunning(s.db, r);
    RunningOnLiveRun(c, s, i);
    RunningOnLiveRun(c, s, current.value.id);
    AtMostTwoRunningRows(c, actions, i);
    AtMostTwoRunningRows(c, actions, current.value.id);
  }

  /** The event and the run that were read ask for the cancellation of a live run that has no CANCELLED row yet. */
  ghost predicate FirstCancellation(s: System, eventId: Uuid, read: RunRow) {
    && eventId in s.db.events && read in s.seen && s.db.events[eventId].aggregateId == read.id
    && read.state == s.db.events[eventId].expectedState && read.version == s.db.events[eventId].expectedVersion
    && read.cancelRequestedAt.Some?
    && read.id in s.db.runs && !Terminal(s.db.runs[read.id].state) && !HasKey(s.db.steps, read.id, Main(Cancelled))
  }

  lemma FirstCancellationIsGrantedIff(c: Config, s: System, eventId: Uuid, read: RunRow, current: Option<StepRow>,
                                      worker: string, now: Time)
    requires Inv(c, s) && FirstCancellation(s, eventId, read)
    ensures ClaimWith(c, s, eventId, read, current, worker, now).Some? <==> !OwnerStillLive(read, current, now)
  {
    hide Inv, UpsertClaim, OwnerStillLive;
    EventFacts(c, s, eventId);
    ReadIsPast(c, s, read);
    assert ClaimTarget(read) == Some(Cancelled);
    NewRowIsGranted(s.db, Candidate(read, Cancelled, worker, now, c.lease, s.nextId, s.nextId + 1));
  }

  lemma NewRowIsGranted(db: Tables, candidate: StepRow)
    requires !HasKey(db.steps, candidate.runId, candidate.key)
    ensures UpsertClaim(db, candidate) == (db.(steps := db.steps[candidate.id := candidate]), Some(candidate))
  {
  }

  /**
    The first CANCELLED step of a run is granted if and only if the step that was read is not a live one of
    the version that was read. So it appears beside a live RUNNING step if and only if the run has one and
    the claim missed it; with that step read as it is, if and only if the run was read at a version it has
    left.
   */
  lemma FirstCancelledClaimIff(c: Config, actions: seq<Action>, eventId: Uuid, read: RunRow, current: Option<StepRow>,
                               worker: string, now: Time)
    requires FirstCancellation(Exec(c, actions), eventId, read)
    ensures var s := Exec(c, actions);
            var granted := ClaimWith(c, s, eventId, read, current, worker, now).Some?;
            var beside := granted && exists i ::
              i in s.db.steps && s.db.steps[i].runId == read.id && s.db.steps[i].status == Running
              && LiveAt(s.db.steps[i], now);
            var live := HasLiveStep(s.db, read.id, s.db.runs[read.id].version, now);
            && (granted <==> !OwnerStillLive(read, current, now))
            && (beside <==> live && !OwnerStillLive(read, current, now))
            && (IsCurrentStep(s.db, read.id, current) ==>
                  (beside <==> live && read.version != s.db.runs[read.id].version))
  {
    hide Inv, Exec, ClaimWith;
    var s := Exec(c, actions);
    EveryExecutionKeepsInv(c, actions);
    FirstCancellationIsGrantedIff(c, s, eventId, read, current, worker, now);
    forall i | i in s.db.steps && s.db.steps[i].runId == read.id && s.db.steps[i].status == Running
      ensures s.db.steps[i].expectedVersion == s.db.runs[read.id].version
      ensures IsCurrentStep(s.db, read.id, current) ==> current == Some(s.db.steps[i])
    {
      RunningOnLiveRun(c, s, i);
      if IsCurrentStep(s.db, read.id, current) {
        OnlyRunning(c, actions, read.id, current, i);
      }
    }
  }

  lemma GrantedCancellationAsksForIt(c: Config, s: System, eventId: Uuid, read: RunRow, current: Option<StepRow>,
                                     worker: string, now: Time)
    requires Inv(c, s) && eventId in s.db.events && !HasKey(s.db.steps, read.id, Main(Cancelled))
    requires var claim := ClaimWith(c, s, eventId, read, current, worker, now);
             claim.Some? && claim.value.toState == Cancelled
    ensures read.state == s.db.events[eventId].expectedState && read.version == s.db.events[eventId].expectedVersion
    ensures read.cancelRequestedAt.Some?
  {
    hide Inv;
    GrantedIsUpserted(c, s, eventId, read, current, worker, now);
    var key := Main(ClaimTarget(read).value);
    if HasKey(s.db.steps, read.id, key) {
      StepFacts(c, s, KeyHolder(s.db.steps, read.id, key));
    }
  }

  /**
    A CANCELLED step first appears beside a live RUNNING step of the run only if the claim missed that
    step, or read the run at a version it has left.
   */
  lemma FirstCancelledClaimWaits(c: Config, actions: seq<Action>, eventId: Uuid, read: RunRow, current: Option<StepRow>,
                                 worker: string, now: Time, i: Uuid)
    requires var s := Exec(c, actions);
             && eventId in s.db.events && read in s.seen && s.db.events[eventId].aggregateId == read.id
             && read.id in s.db.runs && !Terminal(s.db.runs[read.id].state)
             && !HasKey(s.db.steps, read.id, Main(Cancelled))
    requires var claim := ClaimWith(c, Exec(c, actions), eventId, read, current, worker, now);
             claim.Some? && claim.value.toState == Cancelled
    requires var db := Exec(c, actions).db;
             i in db.steps && db.steps[i].runId == read.id && db.steps[i].status == Running && LiveAt(db.steps[i], now)
    ensures var s := Exec(c, actions);
            && (read.version != s.db.runs[read.id].version || current != Some(s.db.steps[i]))
            && (read == s.db.runs[read.id] ==> !IsCurrentStep(s.db, read.id, current))
  {
    hide Inv, Exec, ClaimWith;
    var s := Exec(c, actions);
    EveryExecutionKeepsInv(c, actions);
    GrantedCancellationAsksForIt(c, s, eventId, read, current, worker, now);
    RunningOnLiveRun(c, s, i);
    FirstCancelledClaimIff(c, actions, eventId, read, current, worker, now);
  }
}

/** What the invariant means for whole executions, at the granularity where every read may be stale. */
module Safety {
  import opened Wrappers
  import opened Lifecycle
  import opened Store
  import opened Protocol
  import opened Invariance

  // --- Exactly-once advance ------------------------------------------------------------------------

  /** Row `i` is the step that took run `r` to `version`. */
  predicate Finishes(db: Tables, i: Uuid, r: Uuid, version: nat) {
    i in db.steps && db.steps[i].runId == r && db.steps[i].resultingVersion == Some(version)
  }

  /** The states a run has been in, version by version: the initial one and each step's target. */
  function StatePath(s: System, r: Uuid): seq<RunState>
    requires r in s.history && forall k :: 0 <= k < |s.history[r]| ==> s.history[r][k] in s.db.steps
  {
    [Queued] + seq(|s.history[r]|, k requires 0 <= k < |s.history[r]| => s.db.steps[s.history[r][k]].toState)
  }

  lemma HistoryEntry(c: Config, s: System, r: Uuid, k: nat)
    requires Inv(c, s) && r in s.history && k < |s.history[r]|
    ensures r in s.db.runs && RunOk(s, r)
    ensures FinishedAt(s.db, s.history[r][k], r, k + 1) && StepOk(s, s.history[r][k])
  {
    assert FinishedAt(s.db, s.history[r][k], r, k + 1);
    assert RunOk(s, r);
  }

  lemma FinishedEntry(c: Config, s: System, i: Uuid, version: nat)
    requires Inv(c, s) && i in s.db.steps && s.db.steps[i].resultingVersion == Some(version)
    ensures var r := s.db.steps[i].runId;
            && r in s.db.runs && RunOk(s, r) && StepOk(s, i)
            && 2 <= version <= s.db.runs[r].version && s.history[r][version - 2] == i
  {
    hide Inv, Position, KeyMatches, RunShape;
    StepFacts(c, s, i);
  }

  /** Every version 2..n of a run was reached by exactly one finished step, and no step claims another version. */
  lemma ExactlyOneStepPerVersion(c: Config, actions: seq<Action>, r: Uuid, version: nat)
    requires r in Exec(c, actions).db.runs
    ensures var db := Exec(c, actions).db;
            && (2 <= version <= db.runs[r].version <==> exists i :: Finishes(db, i, r, version))
            && (forall i, j :: Finishes(db, i, r, version) && Finishes(db, j, r, version) ==> i == j)
  {
    var s := Exec(c, actions);
    hide Inv, Exec;
    EveryExecutionKeepsInv(c, actions);
    RunFacts(c, s, r);
    if 2 <= version <= s.db.runs[r].version {
      HistoryEntry(c, s, r, version - 2);
      assert Finishes(s.db, s.history[r][version - 2], r, version);
    }
    forall i | Finishes(s.db, i, r, version)
      ensures 2 <= version <= s.db.runs[r].version && s.history[r][version - 2] == i
    {
      FinishedEntry(c, s, i, version);
    }
  }

  /** The step recorded for version `k + 2` ended where the path goes, unless the run ended there. */
  lemma PathEntry(c: Config, s: System, r: Uuid, k: nat)
    requires Inv(c, s) && r in s.history && k < |s.history[r]|
    ensures r in s.db.runs && s.history[r][k] in s.db.steps && |s.history[r]| == s.db.runs[r].version - 1
    ensures var row := s.db.steps[s.history[r][k]];
            if k + 2 == s.db.runs[r].version then row.toState == s.db.runs[r].state
            else Position(row.toState) == k + 1
  {
    hide Inv;
    HistoryEntry(c, s, r, k);
  }

  ghost predicate FollowsPath(s: System, r: Uuid)
    requires r in s.db.runs
  {
    var n := s.db.runs[r].version;
    && r in s.history && (forall k :: 0 <= k < |s.history[r]| ==> s.history[r][k] in s.db.steps)
    && 1 <= n <= |MAIN_STATE_PATH|
    && |StatePath(s, r)| == n
    && StatePath(s, r)[..n - 1] == MAIN_STATE_PATH[..n - 1]
    && StatePath(s, r)[n - 1] == s.db.runs[r].state
    && (s.db.runs[r].state == MAIN_STATE_PATH[n - 1] || (n > 1 && s.db.runs[r].state in {Failed, Cancelled}))
  }

  lemma PathIsRecorded(c: Config, s: System, r: Uuid)
    requires Inv(c, s) && r in s.db.runs
    ensures r in s.history && |s.history[r]| == s.db.runs[r].version - 1 && RunShape(s.db.runs[r])
    ensures forall k :: 0 <= k < |s.history[r]| ==> s.history[r][k] in s.db.steps
  {
    hide Inv, RunShape, StepOk;
    RunFacts(c, s, r);
    forall k | 0 <= k < |s.history[r]| ensures s.history[r][k] in s.db.steps {
      HistoryEntry(c, s, r, k);
    }
  }

  lemma PathStateAt(c: Config, s: System, r: Uuid, k: nat)
    requires Inv(c, s) && r in s.db.runs && r in s.history && k <= |s.history[r]|
    requires forall k :: 0 <= k < |s.history[r]| ==> s.history[r][k] in s.db.steps
    ensures if k == s.db.runs[r].version - 1 then StatePath(s, r)[k] == s.db.runs[r].state
            else StatePath(s, r)[k] == MAIN_STATE_PATH[k]
  {
    hide Inv, Position, StepOk, RunShape;
    if k == 0 {
      FirstState(c, s, r);
    } else {
      var row := s.db.steps[s.history[r][k - 1]];
      PathEntry(c, s, r, k - 1);
      PositionIsIndex(row.toState);
      assert StatePath(s, r)[k] == row.toState;
    }
  }

  lemma FirstState(c: Config, s: System, r: Uuid)
    requires Inv(c, s) && r in s.db.runs
    ensures s.db.runs[r].version == 1 ==> s.db.runs[r].state == Queued
  {
    hide Inv;
    RunFacts(c, s, r);
    PositionInjective(if s.db.runs[r].version == 1 then s.db.runs[r].state else Queued, Queued);
  }

  lemma StatesFollowPath(c: Config, s: System, r: Uuid)
    requires Inv(c, s) && r in s.db.runs
    ensures FollowsPath(s, r)
  {
    hide Inv, Position, StatePath;
    PathIsRecorded(c, s, r);
    PositionIsIndex(s.db.runs[r].state);
    assert |StatePath(s, r)| == s.db.runs[r].version by { PathLength(s, r); }
    forall k | 0 <= k < s.db.runs[r].version
      ensures StatePath(s, r)[k] == if k == s.db.runs[r].version - 1 then s.db.runs[r].state else MAIN_STATE_PATH[k]
    {
      PathStateAt(c, s, r, k);
    }
  }

  lemma PathLength(s: System, r: Uuid)
    requires r in s.history && forall k :: 0 <= k < |s.history[r]| ==> s.history[r][k] in s.db.steps
    ensures |StatePath(s, r)| == |s.history[r]| + 1
  {
  }

  /**
    The states of a run form a prefix of the declared path, the last one possibly replaced by FAILED
    or CANCELLED; so the version never exceeds 12.
   */
  lemma RunsFollowTheDeclaredPath(c: Config, actions: seq<Action>, r: Uuid)
    requires r in Exec(c, actions).db.runs
    ensures FollowsPath(Exec(c, actions), r)
  {
    hide Exec;
    EveryExecutionKeepsInv(c, actions);
    StatesFollowPath(c, Exec(c, actions), r);
  }

  /** A finished step started in the state the path assigns to the version it left. */
  lemma StepsStartOnThePath(c: Config, actions: seq<Action>, i: Uuid, r: Uuid, version: nat)
    requires Finishes(Exec(c, actions).db, i, r, version)
    ensures var db := Exec(c, actions).db;
            r in db.runs && 2 <= version <= db.runs[r].version <= 12
            && db.steps[i].fromState == MAIN_STATE_PATH[version - 2]
  {
    hide Inv, Exec, Position;
    var s := Exec(c, actions);
    EveryExecutionKeepsInv(c, actions);
    FinishedEntry(c, s, i, version);
    PositionIsIndex(s.db.steps[i].fromState);
  }

  lemma SetsGrow(c: Config, s: System, a: Action)
    requires s.nextId !in s.history && s.nextId !in s.outbox
    ensures var t := Step(c, s, a);
            s.seen <= t.seen && s.granted <= t.granted && s.sent <= t.sent && s.nextId <= t.nextId
  {
    hide CreateTx, CancelTx, ClaimTx, HeartbeatTx, FinalizeTx, FailTx, DispatchTx, ReconcileTx;
  }

  lemma SequencesGrow(c: Config, s: System, a: Action)
    requires s.nextId !in s.history && s.nextId !in s.outbox
    ensures var t := Step(c, s, a);
            && (forall r :: r in s.history
                            ==> r in t.history && s.history[r] <= t.history[r] && |t.history[r]| <= |s.history[r]| + 1)
            && (forall r :: r in s.outbox ==> r in t.outbox && s.outbox[r] <= t.outbox[r])
  {
    hide CreateTx, CancelTx, ClaimTx, HeartbeatTx, FinalizeTx, FailTx, DispatchTx, ReconcileTx;
  }

  /** The observer's records are only ever extended. */
  lemma RecordsGrow(c: Config, s: System, a: Action)
    requires s.nextId !in s.history && s.nextId !in s.outbox
    ensures var t := Step(c, s, a);
            && s.seen <= t.seen && s.granted <= t.granted && s.sent <= t.sent && s.nextId <= t.nextId
            && (forall r :: r in s.history
                            ==> r in t.history && s.history[r] <= t.history[r] && |t.history[r]| <= |s.history[r]| + 1)
            && (forall r :: r in s.outbox ==> r in t.outbox && s.outbox[r] <= t.outbox[r])
  {
    hide Step;
    SetsGrow(c, s, a);
    SequencesGrow(c, s, a);
  }

  /** Versions only grow, one at a time, and a run never leaves a terminal state. */
  lemma StepGrows(c: Config, s: System, a: Action, r: Uuid)
    requires Inv(c, s) && r in s.db.runs
    ensures var t := Step(c, s, a);
            && r in t.db.runs && PastRow(s.db.runs[r], t.db.runs[r])
            && t.db.runs[r].version <= s.db.runs[r].version + 1
  {
    hide Inv, Step;
    var t := Step(c, s, a);
    StepKeepsInv(c, s, a);
    FreshId(c, s, s.nextId);
    RecordsGrow(c, s, a);
    RunFacts(c, s, r);
    ReadIsPast(c, t, s.db.runs[r]);
  }

  /** Over a whole execution, a run's row at any earlier point is a past row of the run at any later one. */
  lemma {:induction false} RunsOnlyGrow(c: Config, actions: seq<Action>, k: nat, r: Uuid)
    requires k <= |actions| && r in Exec(c, actions[..k]).db.runs
    ensures r in Exec(c, actions).db.runs
    ensures PastRow(Exec(c, actions[..k]).db.runs[r], Exec(c, actions).db.runs[r])
  {
    if k == |actions| {
      assert actions[..k] == actions;
    } else {
      var before := actions[..|actions| - 1];
      assert before[..k] == actions[..k];
      RunsOnlyGrow(c, before, k, r);
      EveryExecutionKeepsInv(c, before);
      StepGrows(c, Exec(c, before), actions[|actions| - 1], r);
    }
  }

  /** The action at index `k` takes run `r` out of `version`. */
  ghost predicate LeavesVersion(c: Config, actions: seq<Action>, k: nat, r: Uuid, version: nat)
    requires k < |actions|
  {
    && r in Exec(c, actions[..k]).db.runs && Exec(c, actions[..k]).db.runs[r].version == version
    && r in Exec(c, actions[..k + 1]).db.runs && Exec(c, actions[..k + 1]).db.runs[r].version != version
  }

  /** No version is left twice, whatever duplicates, zombies and clocks do; and it is left for the next one. */
  lemma VersionIsLeftOnce(c: Config, actions: seq<Action>, i: nat, j: nat, r: Uuid, version: nat)
    requires i < |actions| && j < |actions|
    requires LeavesVersion(c, actions, i, r, version) && LeavesVersion(c, actions, j, r, version)
    ensures i == j
    ensures Exec(c, actions[..i + 1]).db.runs[r].version == version + 1
  {
    hide Step, Inv;
    EveryExecutionKeepsInv(c, actions[..i]);
    assert actions[..i + 1][..i] == actions[..i];
    StepGrows(c, Exec(c, actions[..i]), actions[i], r);
    var lo, hi := if i < j then i else j, if i < j then j else i;
    if lo < hi {
      assert actions[..hi][..lo + 1] == actions[..lo + 1];
      RunsOnlyGrow(c, actions[..hi], lo + 1, r);
      assert actions[..lo + 1][..lo] == actions[..lo];
      RunsOnlyGrow(c, actions[..lo + 1], lo, r);
    }
  }

  // --- Fencing -------------------------------------------------------------------------------------

  /** A finished row is frozen; a RUNNING one keeps its token or is given one that no claim carries yet. */
  predicate FollowsFrom(before: StepRow, after: StepRow, bound: nat) {
    if before.status != Running then after == before
    else after.token == before.token || (after.token.Some? && bound <= after.token.value)
  }

  lemma ClaimFollowsFrom(db: Tables, candidate: StepRow, i: Uuid, bound: nat)
    requires i in db.steps && candidate.id !in db.steps && candidate.token.Some? && bound <= candidate.token.value
    ensures var after := UpsertClaim(db, candidate).0;
            i in after.steps && FollowsFrom(db.steps[i], after.steps[i], bound)
  {
  }

  lemma RowSuccession(c: Config, s: System, a: Action, i: Uuid)
    requires s.nextId !in s.db.steps && i in s.db.steps
    ensures var t := Step(c, s, a); i in t.db.steps && FollowsFrom(s.db.steps[i], t.db.steps[i], s.nextId)
  {
    hide DoCreate, DoCancel, DoClaim, DoHeartbeat, DoFinalize, DoFail, DoDispatch, DoReconcile, FollowsFrom;
    match a
    case Claim(eventId, read, current, worker, now) => ClaimedRowFollows(c, s, eventId, read, current, worker, now, i);
    case Finalize(claim, read, now) => FinalizedRowFollows(s, claim, read, now, i);
    case Fail(claim, read, code, detail, now) => FailedRowFollows(s, claim, read, code, detail, now, i);
    case _ => OtherRowFollows(c, s, a, i);
  }

  lemma ClaimedRowFollows(c: Config, s: System, eventId: Uuid, read: RunRow, current: Option<StepRow>, worker: string,
                          now: Time, i: Uuid)
    requires s.nextId !in s.db.steps && i in s.db.steps
    ensures var t := DoClaim(s, c, eventId, read, current, worker, now);
            i in t.db.steps && FollowsFrom(s.db.steps[i], t.db.steps[i], s.nextId)
  {
    hide UpsertClaim, ClaimTarget;
    ClaimIsUpsert(s.db, eventId, read, current, worker, now, c.lease, s.nextId, s.nextId + 1);
    if ClaimTarget(read).Some? {
      ClaimFollowsFrom(s.db, Candidate(read, ClaimTarget(read).value, worker, now, c.lease, s.nextId, s.nextId + 1),
                       i, s.nextId);
    }
  }

  lemma FinalizedRowFollows(s: System, claim: StepRow, read: RunRow, now: Time, i: Uuid)
    requires i in s.db.steps
    ensures var t := DoFinalize(s, claim, read, now);
            i in t.db.steps && FollowsFrom(s.db.steps[i], t.db.steps[i], s.nextId)
  {
    hide Transition, Terminal;
  }

  lemma FailedRowFollows(s: System, claim: StepRow, read: RunRow, code: string, detail: string, now: Time, i: Uuid)
    requires i in s.db.steps
    ensures var t := DoFail(s, claim, read, code, detail, now);
            i in t.db.steps && FollowsFrom(s.db.steps[i], t.db.steps[i], s.nextId)
  {
    hide Transition;
  }

  lemma OtherRowFollows(c: Config, s: System, a: Action, i: Uuid)
    requires s.nextId !in s.db.steps && i in s.db.steps
    requires a.Create? || a.Cancel? || a.Heartbeat? || a.Dispatch? || a.Reconcile?
    ensures var t := Step(c, s, a); i in t.db.steps && FollowsFrom(s.db.steps[i], t.db.steps[i], s.nextId)
  {
    hide Transition, RequestCancel, WakeCurrent;
  }

  /** A worker whose claim was taken over or finished never passes the fence again. */
  lemma {:induction false} LostClaimStaysLost(c: Config, actions: seq<Action>, k: nat, claim: StepRow)
    requires k <= |actions| && claim in Exec(c, actions[..k]).granted && !Holds(Exec(c, actions[..k]).db, claim)
    ensures claim in Exec(c, actions).granted && !Holds(Exec(c, actions).db, claim)
  {
    if k == |actions| {
      assert actions[..k] == actions;
    } else {
      var before := actions[..|actions| - 1];
      assert before[..k] == actions[..k];
      LostClaimStaysLost(c, before, k, claim);
      EveryExecutionKeepsInv(c, before);
      LostClaimStep(c, Exec(c, before), actions[|actions| - 1], claim);
    }
  }

  lemma LostClaimStep(c: Config, s: System, a: Action, claim: StepRow)
    requires Inv(c, s) && claim in s.granted && !Holds(s.db, claim)
    ensures claim in Step(c, s, a).granted && !Holds(Step(c, s, a).db, claim)
  {
    hide Inv, Step;
    ClaimFacts(c, s, claim);
    FreshId(c, s, s.nextId);
    RecordsGrow(c, s, a);
    RowSuccession(c, s, a, claim.id);
  }

  /** Of all the claims ever granted for one step, at most one passes the fence. */
  lemma OneHolderPerStep(c: Config, actions: seq<Action>, claim: StepRow, other: StepRow)
    requires claim in Exec(c, actions).granted && other in Exec(c, actions).granted && claim.id == other.id
    requires Holds(Exec(c, actions).db, claim) && Holds(Exec(c, actions).db, other)
    ensures claim == other
  {
    hide Exec;
    EveryExecutionKeepsInv(c, actions);
  }

  /**
    With any row read for the claim's run, finalize and fail either commit or are refused as a lost
    claim or a concurrent save. They commit exactly when the fence and the version guard hold at
    write time, and never meet an edge the lifecycle forbids.
   */
  lemma FinishingOutcome(c: Config, actions: seq<Action>, claim: StepRow, read: RunRow, code: string, detail: string,
                         now: Time)
    requires claim in Exec(c, actions).granted && read in Exec(c, actions).seen && read.id == claim.runId
    ensures var s := Exec(c, actions);
            var finalized := FinalizeTx(s.db, claim, Some(read), now, s.nextId).1;
            var failed := FailTx(s.db, claim, Some(read), code, detail, now).1;
            && (finalized.Ok?
                <==> read.version == claim.expectedVersion && Holds(s.db, claim)
                     && CanSave(s.db, claim.runId, claim.expectedVersion))
            && (failed.Ok? <==> finalized.Ok?)
            && (finalized.Err? ==>
                  finalized.error == if read.version == claim.expectedVersion && Holds(s.db, claim)
                                     then OptimisticConcurrency(claim.expectedVersion) else ClaimLost(claim.id))
            && (failed.Err? <==> finalized.Err?) && (failed.Err? ==> failed.error == finalized.error)
  {
    hide Inv, Exec;
    var s := Exec(c, actions);
    EveryExecutionKeepsInv(c, actions);
    GrantedIsFenced(c, s, claim, read);
    if read.version == claim.expectedVersion && Holds(s.db, claim) {
      PassedGuards(s, claim, read);
      FencedEdgeIsAllowed(s, claim, read);
    }
  }

  lemma FencedEdgeIsAllowed(s: System, claim: StepRow, read: RunRow)
    requires StepShape(claim) && claim.status == Running && !Terminal(read.state) && read.state == claim.fromState
    ensures Allowed(read.state, FinalState(read, claim)) && Allowed(read.state, Failed)
  {
  }

  /** Row `read`, left for `target` at this reading: the next version, completed if it ends there. */
  predicate LeftFor(read: RunRow, target: RunState, now: Time, later: RunRow) {
    later == read.(state := target, version := read.version + 1, updatedAt := now, failureCode := later.failureCode,
                   failureDetail := later.failureDetail,
                   completedAt := if Terminal(target) then Some(now) else read.completedAt)
  }

  /**
    What a committed finalize writes, whatever else changed since its read: the run, its step, and, unless the
    run ends, one due event that asks for the next advance. No other row changes.
   */
  lemma FinalizeEffect(c: Config, actions: seq<Action>, claim: StepRow, read: RunRow, now: Time)
    requires claim in Exec(c, actions).granted && read in Exec(c, actions).seen && read.id == claim.runId
    requires FinalizeTx(Exec(c, actions).db, claim, Some(read), now, Exec(c, actions).nextId).1.Ok?
    ensures var s := Exec(c, actions);
            var t := Step(c, s, Finalize(claim, read, now));
            var target := if read.cancelRequestedAt.Some? then Cancelled else claim.toState;
            && read.id in s.db.runs && read.id in t.db.runs && claim.id in s.db.steps
            && t.db.runs == s.db.runs[read.id := t.db.runs[read.id]]
            && FinalizeTx(s.db, claim, Some(read), now, s.nextId).1 == Ok(t.db.runs[read.id])
            && s.db.runs[read.id].version == read.version == claim.expectedVersion
            && LeftFor(read, target, now, t.db.runs[read.id])
            && t.db.runs[read.id].failureCode == read.failureCode
            && t.db.runs[read.id].failureDetail == read.failureDetail
            && t.db.steps == s.db.steps[claim.id := s.db.steps[claim.id].(
                 status := if target == Cancelled then StepCancelled else Succeeded, toState := target,
                 resultingVersion := Some(read.version + 1), finishedAt := Some(now), leaseExpiresAt := None)]
            && (if Terminal(target) then t.db.events == s.db.events
                else RequestsNext(s.db.events, t.db.events, t.db.runs[read.id], now))
  {
    hide Inv, Exec, Transition, Holds, Terminal;
    hide DoCreate, DoCancel, DoClaim, DoHeartbeat, DoFail, DoDispatch, DoReconcile;
    var s := Exec(c, actions);
    EveryExecutionKeepsInv(c, actions);
    GrantedIsFenced(c, s, claim, read);
    PassedGuards(s, claim, read);
    LeavingFor(read, FinalState(read, claim), now);
    FreshId(c, s, s.nextId);
    var t := Step(c, s, Finalize(claim, read, now));
    assert SameRun(read, s.db.runs[read.id]);
    if !Terminal(t.db.runs[read.id].state) {
      assert AsksToLeave(t.db.events[s.nextId], s.nextId, t.db.runs[read.id], now);
    }
  }

  lemma LeavingFor(read: RunRow, target: RunState, now: Time)
    ensures var next := Transition(read, target, now);
            next.Ok? ==>
              && LeftFor(read, target, now, next.value) && next.value.state == target
              && next.value.failureCode == read.failureCode && next.value.failureDetail == read.failureDetail
  {
  }

  /** A new, due event that asks to leave this version of the run. */
  predicate AsksToLeave(event: EventRow, i: Uuid, run: RunRow, now: Time) {
    event == EventRow(i, run.id, run.version, "run.advance.requested.v1", run.state, run.version, now, now, None, 0,
                      None)
  }

  ghost predicate RequestsNext(events: map<Uuid, EventRow>, later: map<Uuid, EventRow>, run: RunRow, now: Time) {
    exists i :: i !in events && i in later && later == events[i := later[i]] && AsksToLeave(later[i], i, run, now)
  }

  /**
    What a committed failure writes, whatever else changed since its read: the run, with the code and the
    detail of the failure, and its step with the same. No event is added and no other row changes.
   */
  lemma FailEffect(c: Config, actions: seq<Action>, claim: StepRow, read: RunRow, code: string, detail: string,
                   now: Time)
    requires claim in Exec(c, actions).granted && read in Exec(c, actions).seen && read.id == claim.runId
    requires FailTx(Exec(c, actions).db, claim, Some(read), code, detail, now).1.Ok?
    ensures var s := Exec(c, actions);
            var t := Step(c, s, Fail(claim, read, code, detail, now));
            && read.id in s.db.runs && read.id in t.db.runs && claim.id in s.db.steps
            && t.db.runs == s.db.runs[read.id := t.db.runs[read.id]] && t.db.events == s.db.events
            && FailTx(s.db, claim, Some(read), code, detail, now).1 == Ok(t.db.runs[read.id])
            && s.db.runs[read.id].version == read.version == claim.expectedVersion
            && LeftFor(read, Failed, now, t.db.runs[read.id])
            && t.db.runs[read.id].failureCode == Some(code) && t.db.runs[read.id].failureDetail == Some(detail)
            && t.db.runs[read.id].completedAt == Some(now)
            && t.db.steps == s.db.steps[claim.id := s.db.steps[claim.id].(
                 status := StepFailed, toState := Failed, resultingVersion := Some(read.version + 1),
                 finishedAt := Some(now), leaseExpiresAt := None, errorCode := Some(code), errorDetail := Some(detail))]
  {
    hide Inv, Exec;
    var s := Exec(c, actions);
    EveryExecutionKeepsInv(c, actions);
    GrantedIsFenced(c, s, claim, read);
    PassedGuards(s, claim, read);
  }
}

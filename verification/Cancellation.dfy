/** When a recorded cancel stays recorded: the exact condition, for every action with any earlier read. */
module Cancellation {
  import opened Wrappers
  import opened Lifecycle
  import opened Store
  import opened Protocol
  import opened Invariance
  import opened Safety

  /** What a cancelled run may still become: nothing but ended, with its request on record. */
  predicate StaysCancelled(run: RunRow, later: RunRow) {
    && later.cancelRequestedAt == run.cancelRequestedAt
    && ((later.version == run.version && later.state == run.state) ||
        (!Terminal(run.state) && later.version == run.version + 1
         && (later.state == Cancelled || later.state == Failed)))
  }

  predicate CancelKept(s: System, t: System, r: Uuid) {
    && r in s.db.runs && r in t.db.runs && r in s.outbox && r in t.outbox
    && StaysCancelled(s.db.runs[r], t.db.runs[r]) && t.outbox[r] == s.outbox[r]
  }

  /** The row that an action writes back, as it read it. */
  function ReadRow(a: Action): (read: Option<RunRow>) {
    match a
    case Cancel(read, _, _) => Some(read)
    case Finalize(_, read, _) => Some(read)
    case Fail(_, read, _, _, _) => Some(read)
    case Reconcile(_, _, read, _, _) => Some(read)
    case _ => None
  }

  /** A finishing transaction of this claim, with this read, passes its fence and its version guard. */
  predicate Finishable(s: System, claim: StepRow, read: RunRow) {
    && claim in s.granted && read in s.seen && read.id == claim.runId
    && read.version == claim.expectedVersion && Holds(s.db, claim) && CanSave(s.db, read.id, read.version)
  }

  /** The guards under which an action saves run `r`; whatever else it does, it leaves the run alone. */
  predicate Saves(c: Config, s: System, a: Action, r: Uuid) {
    && (ReadRow(a).Some? ==> ReadRow(a).value.id == r)
    && match a
       case Cancel(read, expectedVersion, _) =>
         && read in s.seen && read.version == expectedVersion && CanSave(s.db, r, expectedVersion)
         && !Terminal(read.state) && read.cancelRequestedAt == None
       case Finalize(claim, read, _) => Finishable(s, claim, read)
       case Fail(claim, read, _, _, _) => Finishable(s, claim, read)
       case Reconcile(eventId, joined, read, activeStep, now) =>
         && ReconcileEnabled(s, c, eventId, joined, read, activeStep, now)
         && read.version == s.db.events[eventId].aggregateVersion && CanSave(s.db, r, read.version)
         && c.maxAttempts <= s.db.events[eventId].publishAttempts
       case _ => false
  }

  /** The cancel column that a save writes: the time of the request, or what was read. */
  function SavedCancel(a: Action): (at: Option<Time>) {
    match a
    case Cancel(_, _, now) => Some(now)
    case _ => if ReadRow(a).Some? then ReadRow(a).value.cancelRequestedAt else None
  }

  /** Should the action pass the guards of its save, it writes the recorded cancel back. */
  predicate CarriesCancel(c: Config, s: System, a: Action, r: Uuid) {
    r in s.db.runs && Saves(c, s, a, r) ==> SavedCancel(a) == s.db.runs[r].cancelRequestedAt
  }

  // --- One action ----------------------------------------------------------------------------------

  lemma ClaimKeepsRuns(c: Config, s: System, a: Action)
    requires a.Claim?
    ensures Step(c, s, a).db.runs == s.db.runs && Step(c, s, a).seen == s.seen && Step(c, s, a).outbox == s.outbox
  {
    hide UpsertClaim, ClaimTx, ClaimTarget;
    ClaimIsUpsert(s.db, a.eventId, a.read, a.current, a.worker, a.now, c.lease, s.nextId, s.nextId + 1);
    if ClaimTarget(a.read).Some? {
      UpsertKeepsRuns(s.db,
                      Candidate(a.read, ClaimTarget(a.read).value, a.worker, a.now, c.lease, s.nextId, s.nextId + 1));
    }
  }

  lemma UpsertKeepsRuns(db: Tables, candidate: StepRow)
    ensures UpsertClaim(db, candidate).0.runs == db.runs
  {
  }

  /** What a save leaves in the run and its outbox; without one both stay as they were. */
  ghost predicate RunOutcome(c: Config, s: System, a: Action, r: Uuid) {
    var t := Step(c, s, a);
    && r in s.db.runs && r in t.db.runs && r in s.outbox && r in t.outbox
    && if !Saves(c, s, a, r) then t.db.runs[r] == s.db.runs[r] && t.outbox[r] == s.outbox[r]
       else
         var run, saved := s.db.runs[r], t.db.runs[r];
         && !Terminal(run.state) && saved.cancelRequestedAt == SavedCancel(a)
         && (a.Cancel? ==> saved.state == run.state && saved.version == run.version && t.outbox[r] == s.outbox[r])
         && (!a.Cancel? ==> saved.version == run.version + 1)
         && (!a.Cancel? && SavedCancel(a).Some? ==>
               (saved.state == Cancelled || saved.state == Failed) && t.outbox[r] == s.outbox[r])
  }

  /** A finishing transaction saves its run under these guards alone: the edge it takes is always allowed. */
  lemma FinishingSaves(c: Config, s: System, claim: StepRow, read: RunRow)
    requires Inv(c, s) && claim in s.granted && read in s.seen && read.id == claim.runId
    ensures s.history.Keys == s.db.runs.Keys && s.outbox.Keys == s.db.runs.Keys && claim.token.Some?
    ensures Finishable(s, claim, read) ==>
              && Allowed(read.state, FinalState(read, claim)) && Allowed(read.state, Failed)
              && !Terminal(s.db.runs[read.id].state)
  {
    hide Inv, Holds;
    GrantedIsFenced(c, s, claim, read);
    if Finishable(s, claim, read) {
      PassedGuards(s, claim, read);
      FencedEdgeIsAllowed(s, claim, read);
    }
  }

  lemma FinalizeRun(c: Config, s: System, a: Action, r: Uuid)
    requires Inv(c, s) && a.Finalize? && r in s.db.runs
    ensures RunOutcome(c, s, a, r)
  {
    hide Inv, Holds, Allowed, RunShape, CompletedStep, AdvanceEvent;
    hide DoCreate, DoCancel, DoClaim, DoHeartbeat, DoFail, DoDispatch, DoReconcile;
    RunFacts(c, s, r);
    if a.claim in s.granted && a.read in s.seen && a.read.id == a.claim.runId {
      FinishingSaves(c, s, a.claim, a.read);
      assert FinalizeTx(s.db, a.claim, Some(a.read), a.now, s.nextId).1.Ok? <==> Finishable(s, a.claim, a.read);
    }
  }

  lemma FailRun(c: Config, s: System, a: Action, r: Uuid)
    requires Inv(c, s) && a.Fail? && r in s.db.runs
    ensures RunOutcome(c, s, a, r)
  {
    hide Inv, Holds, Allowed, RunShape, FailedStep;
    hide DoCreate, DoCancel, DoClaim, DoHeartbeat, DoFinalize, DoDispatch, DoReconcile;
    RunFacts(c, s, r);
    if a.claim in s.granted && a.read in s.seen && a.read.id == a.claim.runId {
      FinishingSaves(c, s, a.claim, a.read);
      assert FailTx(s.db, a.claim, Some(a.read), a.code, a.detail, a.now).1.Ok? <==> Finishable(s, a.claim, a.read);
    }
  }

  lemma ReconcileRun(c: Config, s: System, a: Action, r: Uuid)
    requires Inv(c, s) && a.Reconcile? && r in s.db.runs
    ensures RunOutcome(c, s, a, r)
  {
    hide Inv, RunShape, DoCreate, DoCancel, DoClaim, DoHeartbeat, DoFinalize, DoFail, DoDispatch;
    RunFacts(c, s, r);
    if ReconcileEnabled(s, c, a.eventId, a.joined, a.read, a.activeStep, a.now) {
      ReadIsPast(c, s, a.read);
      ReadIsPast(c, s, a.joined);
      assert CanSave(s.db, a.read.id, a.read.version) && a.read.version == s.db.events[a.eventId].aggregateVersion ==>
          !Terminal(a.read.state) && s.db.runs[a.read.id].state == a.read.state;
    }
  }

  lemma CancelRun(c: Config, s: System, a: Action, r: Uuid)
    requires Inv(c, s) && a.Cancel? && r in s.db.runs
    ensures RunOutcome(c, s, a, r)
  {
    hide Inv, RunShape, WakeCurrent, DoCreate, DoClaim, DoHeartbeat, DoFinalize, DoFail, DoDispatch, DoReconcile;
    RunFacts(c, s, r);
    if a.read in s.seen {
      ReadIsPast(c, s, a.read);
    }
  }

  lemma OtherRun(c: Config, s: System, a: Action, r: Uuid)
    requires Inv(c, s) && r in s.db.runs && (a.Create? || a.Claim? || a.Heartbeat? || a.Dispatch?)
    ensures RunOutcome(c, s, a, r)
  {
    hide Inv, DoClaim;
    RunFacts(c, s, r);
    FreshId(c, s, s.nextId);
    if a.Claim? {
      ClaimKeepsRuns(c, s, a);
    }
  }

  /** What any action does to a run, by the guards of its save alone. */
  lemma EveryRunOutcome(c: Config, s: System, a: Action, r: Uuid)
    requires Inv(c, s) && r in s.db.runs
    ensures RunOutcome(c, s, a, r)
  {
    hide Inv, Step, RunOutcome;
    match a
    case Finalize(_, _, _) => FinalizeRun(c, s, a, r);
    case Fail(_, _, _, _, _) => FailRun(c, s, a, r);
    case Reconcile(_, _, _, _, _) => ReconcileRun(c, s, a, r);
    case Cancel(_, _, _) => CancelRun(c, s, a, r);
    case _ => OtherRun(c, s, a, r);
  }

  /** One action keeps a recorded cancel if and only if, should its guards let it save the run, it writes that
      cancel. */
  lemma StepKeepsCancelIff(c: Config, s: System, a: Action, r: Uuid)
    requires Inv(c, s) && r in s.db.runs && s.db.runs[r].cancelRequestedAt.Some?
    ensures CancelKept(s, Step(c, s, a), r) <==> CarriesCancel(c, s, a, r)
  {
    hide Inv, Step, Saves, SavedCancel;
    EveryRunOutcome(c, s, a, r);
  }

  // --- Whole executions ----------------------------------------------------------------------------

  lemma KeptComposes(c: Config, s: System, t: System, u: System, r: Uuid)
    requires CancelKept(s, t, r) && r in u.db.runs && PastRow(t.db.runs[r], u.db.runs[r])
    ensures CancelKept(s, u, r) <==> CancelKept(t, u, r)
  {
  }

  /**
    Over any execution, from the moment a cancel is recorded it stays recorded, with at most one more
    transition, to CANCELLED or FAILED, and no further event, if and only if every action that passes the
    guards of a save of the run from then on writes that cancel.
   */
  lemma {:induction false} CancelStaysIff(c: Config, actions: seq<Action>, k: nat, r: Uuid)
    requires k <= |actions| && r in Exec(c, actions[..k]).db.runs
             && Exec(c, actions[..k]).db.runs[r].cancelRequestedAt.Some?
    ensures (forall m {:trigger actions[..m]} ::
               k <= m <= |actions| ==> CancelKept(Exec(c, actions[..k]), Exec(c, actions[..m]), r))
       <==> (forall m {:trigger actions[m]} ::
               k <= m < |actions| ==> CarriesCancel(c, Exec(c, actions[..m]), actions[m], r))
  {
    hide Inv, Exec, Step, CancelKept, CarriesCancel;
    if k == |actions| {
      assert actions[..k] == actions;
      KeptAtOnce(c, actions, r);
    } else {
      var n := |actions| - 1;
      var before := actions[..n];
      assert before[..k] == actions[..k];
      CancelStaysIff(c, before, k, r);
      assert forall m :: k <= m <= n ==> before[..m] == actions[..m];
      assert forall m :: k <= m < n ==> before[m] == actions[m];
      if forall m :: k <= m <= n ==> CancelKept(Exec(c, before[..k]), Exec(c, before[..m]), r) {
        assert before[..n] == before;
        LastKeepsIff(c, actions, k, r);
        assert actions[..n + 1] == actions;
      } else {
        var m :| k <= m <= n && !CancelKept(Exec(c, before[..k]), Exec(c, before[..m]), r);
        assert actions[..m] == before[..m];
      }
    }
  }

  lemma KeptAtOnce(c: Config, actions: seq<Action>, r: Uuid)
    requires r in Exec(c, actions).db.runs
    ensures CancelKept(Exec(c, actions), Exec(c, actions), r)
  {
    hide Exec, Inv;
    EveryExecutionKeepsInv(c, actions);
    RunFacts(c, Exec(c, actions), r);
  }

  lemma LastKeepsIff(c: Config, actions: seq<Action>, k: nat, r: Uuid)
    requires k < |actions| && r in Exec(c, actions[..k]).db.runs
             && Exec(c, actions[..k]).db.runs[r].cancelRequestedAt.Some?
    requires CancelKept(Exec(c, actions[..k]), Exec(c, actions[..|actions| - 1]), r)
    ensures CancelKept(Exec(c, actions[..k]), Exec(c, actions), r)
       <==> CarriesCancel(c, Exec(c, actions[..|actions| - 1]), actions[|actions| - 1], r)
  {
    hide Inv, Step, CarriesCancel;
    var before, a := actions[..|actions| - 1], actions[|actions| - 1];
    var t := Exec(c, before);
    EveryExecutionKeepsInv(c, before);
    StepGrows(c, t, a, r);
    StepKeepsCancelIff(c, t, a, r);
    KeptComposes(c, Exec(c, actions[..k]), t, Exec(c, actions), r);
  }
}

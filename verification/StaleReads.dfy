/** Executions in which a stale read costs a guarantee, one for each transaction that can do it. */
module StaleReads {
  import opened Wrappers
  import opened Lifecycle
  import opened Store
  import opened Protocol
  import opened Invariance
  import opened Safety
  import opened Claims

  /**
    A finalize that read the run before a cancel was recorded writes its old cancel column back under
    a version the cancel did not change. A recorded cancel survives a committed finalize if and only if
    the row the finalize read carried one.
   */
  lemma CancelSurvivesFinalizeIff(c: Config, actions: seq<Action>, claim: StepRow, read: RunRow, now: Time)
    requires claim in Exec(c, actions).granted && read in Exec(c, actions).seen && read.id == claim.runId
    requires FinalizeTx(Exec(c, actions).db, claim, Some(read), now, Exec(c, actions).nextId).1.Ok?
    requires read.id in Exec(c, actions).db.runs && Exec(c, actions).db.runs[read.id].cancelRequestedAt.Some?
    ensures var s := Exec(c, actions); var t := Step(c, s, Finalize(claim, read, now));
            && read.id in t.db.runs
            && (t.db.runs[read.id].cancelRequestedAt.Some? <==> read.cancelRequestedAt.Some?)
            && t.db.runs[read.id].state == (if read.cancelRequestedAt.Some? then Cancelled else claim.toState)
  {
    hide Inv, Exec;
    EveryExecutionKeepsInv(c, actions);
    FinalizeEffect(c, actions, claim, read, now);
  }

  lemma ExecSnoc(c: Config, actions: seq<Action>, a: Action)
    ensures Exec(c, actions + [a]) == Step(c, Exec(c, actions), a)
  {
    hide Step;
    assert (actions + [a])[..|actions|] == actions;
  }

  // --- What a step does when nothing stands in its way --------------------------------------------

  lemma CancelTakesEffect(c: Config, s: System, read: RunRow, now: Time)
    requires read in s.seen && CanSave(s.db, read.id, read.version) && !Terminal(read.state)
    requires read.cancelRequestedAt == None
    ensures var run := Saved(s.db.runs[read.id], read.(cancelRequestedAt := Some(now), updatedAt := now));
            Step(c, s, Cancel(read, read.version, now))
              == s.(db := s.db.(runs := s.db.runs[read.id := run],
                                events := WakeCurrent(s.db.events, read.id, read.version, now)),
                    seen := s.seen + {run})
  {
    hide WakeCurrent;
  }

  lemma ClaimTakesEffect(c: Config, s: System, eventId: Uuid, read: RunRow, worker: string, now: Time)
    requires read in s.seen && !Terminal(read.state) && ClaimTarget(read).Some?
    requires eventId in s.db.events && IsRequest(s.db.events[eventId], read.id, read.version)
    requires s.db.events[eventId].expectedState == read.state && s.db.events[eventId].expectedVersion == read.version
    requires forall i :: i in s.db.steps && s.db.steps[i].runId == read.id ==>
               s.db.steps[i].key != Main(ClaimTarget(read).value)
    ensures var claim := Candidate(read, ClaimTarget(read).value, worker, now, c.lease, s.nextId, s.nextId + 1);
            Step(c, s, Claim(eventId, read, None, worker, now))
              == s.(db := s.db.(steps := s.db.steps[s.nextId := claim]), nextId := s.nextId + 2,
                    granted := s.granted + {claim})
  {
    hide UpsertClaim, ClaimTarget, Terminal;
    hide DoCreate, DoCancel, DoHeartbeat, DoFinalize, DoFail, DoDispatch, DoReconcile;
    var claim := Candidate(read, ClaimTarget(read).value, worker, now, c.lease, s.nextId, s.nextId + 1);
    assert !HasKey(s.db.steps, claim.runId, claim.key);
    NewRowIsGranted(s.db, claim);
  }

  // --- Create, claim, cancel -----------------------------------------------------------------------

  const RUN: RunRow := NewRun(0, "key", "request", 0)

  const CANCELLED_RUN: RunRow := RUN.(cancelRequestedAt := Some(1), updatedAt := 1)

  const OPENING: seq<Action> := [Create("key", "request", 0), Claim(1, RUN, None, "worker", 0), Cancel(RUN, 1, 1)]

  function FirstClaim(c: Config): (claim: StepRow) {
    Candidate(RUN, Discovering, "worker", 0, c.lease, 2, 3)
  }

  /** A run at version 1 with one live claim and a recorded cancel. */
  ghost predicate IsOpened(c: Config, s: System) {
    && s.nextId == 4 && s.history == map[0 := []] && s.outbox == map[0 := [1]]
    && s.db.runs == map[0 := CANCELLED_RUN] && s.db.steps == map[2 := FirstClaim(c)]
    && s.db.events == map[1 := Woken(AdvanceEvent(1, RUN, 0), 0, 1, 1)] && s.reopens == map[1 := 0]
    && RUN in s.seen && CANCELLED_RUN in s.seen && FirstClaim(c) in s.granted
  }

  lemma Opened(c: Config)
    ensures IsOpened(c, Exec(c, OPENING))
  {
    hide Exec, Step;
    var a0, a1, a2 := OPENING[0], OPENING[1], OPENING[2];
    NothingExecuted(c);
    ExecSnoc(c, [], a0);
    ExecSnoc(c, [a0], a1);
    ExecSnoc(c, [a0, a1], a2);
    assert [] + [a0] == [a0] && [a0] + [a1] == [a0, a1] && [a0, a1] + [a2] == OPENING;
    CreatedAlone(c);
    ClaimedAlone(c, Exec(c, [a0]));
    CancelledAlone(c, Exec(c, [a0, a1]));
  }

  lemma NothingExecuted(c: Config)
    ensures Exec(c, []) == INITIAL
  {
  }

  ghost predicate IsCreated(s: System) {
    && s.nextId == 2 && s.history == map[0 := []] && s.outbox == map[0 := [1]] && s.reopens == map[1 := 0]
    && s.db == Tables(map[0 := RUN], map[], map[1 := AdvanceEvent(1, RUN, 0)]) && RUN in s.seen
  }

  lemma CreatedAlone(c: Config)
    ensures IsCreated(Step(c, INITIAL, OPENING[0]))
  {
  }

  ghost predicate IsClaimed(c: Config, s: System) {
    && s.nextId == 4 && s.history == map[0 := []] && s.outbox == map[0 := [1]] && s.reopens == map[1 := 0]
    && s.db == Tables(map[0 := RUN], map[2 := FirstClaim(c)], map[1 := AdvanceEvent(1, RUN, 0)])
    && RUN in s.seen && FirstClaim(c) in s.granted
  }

  lemma ClaimedAlone(c: Config, s: System)
    requires IsCreated(s)
    ensures IsClaimed(c, Step(c, s, OPENING[1]))
  {
    hide Step;
    ClaimTakesEffect(c, s, 1, RUN, "worker", 0);
  }

  lemma CancelledAlone(c: Config, s: System)
    requires IsClaimed(c, s)
    ensures IsOpened(c, Step(c, s, OPENING[2]))
  {
    hide Step;
    CancelTakesEffect(c, s, RUN, 1);
  }

  // --- Four ways to lose the cancel ----------------------------------------------------------------

  lemma AfterOpening(c: Config, a: Action)
    ensures Exec(c, OPENING + [a]) == Step(c, Exec(c, OPENING), a) && IsOpened(c, Exec(c, OPENING))
  {
    hide Exec, Step, IsOpened;
    ExecSnoc(c, OPENING, a);
    Opened(c);
  }

  /** A finalize that read the run before the cancel: the run advances without it. */
  lemma StaleFinalizeDropsCancel(c: Config)
    ensures var s, t := Exec(c, OPENING), Exec(c, OPENING + [Finalize(FirstClaim(c), RUN, 2)]);
            && 0 in s.db.runs && s.db.runs[0].cancelRequestedAt == Some(1)
            && 0 in t.db.runs && t.db.runs[0].cancelRequestedAt == None && t.db.runs[0].state == Discovering
  {
    hide Exec, Step, IsOpened;
    AfterOpening(c, Finalize(FirstClaim(c), RUN, 2));
    FinalizedLate(c, Exec(c, OPENING));
  }

  /** A failure that read the run before the cancel: the run fails without it. */
  lemma StaleFailDropsCancel(c: Config)
    ensures var s, t := Exec(c, OPENING), Exec(c, OPENING + [Fail(FirstClaim(c), RUN, "code", "detail", 2)]);
            && 0 in s.db.runs && s.db.runs[0].cancelRequestedAt == Some(1)
            && 0 in t.db.runs && t.db.runs[0].cancelRequestedAt == None && t.db.runs[0].state == Failed
  {
    hide Exec, Step, IsOpened;
    AfterOpening(c, Fail(FirstClaim(c), RUN, "code", "detail", 2));
    FailedLate(c, Exec(c, OPENING));
  }

  /** A second cancel that read the run before the first: the time of the first is lost. */
  lemma StaleCancelMovesCancel(c: Config)
    ensures var s, t := Exec(c, OPENING), Exec(c, OPENING + [Cancel(RUN, 1, 2)]);
            && 0 in s.db.runs && s.db.runs[0].cancelRequestedAt == Some(1)
            && 0 in t.db.runs && t.db.runs[0].cancelRequestedAt == Some(2)
  {
    hide Exec, Step, IsOpened;
    AfterOpening(c, Cancel(RUN, 1, 2));
    CancelledTwice(c, Exec(c, OPENING));
  }

  /** A recovery failure that read the run before the cancel, whatever the budget: the run fails without it. */
  lemma StaleRecoveryDropsCancel(c: Config)
    ensures var before := OPENING + SpentDelivery(c.maxAttempts);
            var recovery := Reconcile(1, RUN, RUN, false, 2 + c.staleAfter);
            var s, t := Exec(c, before), Exec(c, before + [recovery]);
            && 0 in s.db.runs && s.db.runs[0].cancelRequestedAt == Some(1)
            && 0 in t.db.runs && t.db.runs[0].cancelRequestedAt == None && t.db.runs[0].state == Failed
  {
    hide Exec, Step, IsOpened, IsDelivered;
    Opened(c);
    assert IsUndelivered(c, Exec(c, OPENING), CANCELLED_RUN) by { CancelledIsUndelivered(c, Exec(c, OPENING)); }
    Delivered(c, OPENING, CANCELLED_RUN);
    ExecSnoc(c, OPENING + SpentDelivery(c.maxAttempts), Reconcile(1, RUN, RUN, false, 2 + c.staleAfter));
    RecoveredLate(c, Exec(c, OPENING + SpentDelivery(c.maxAttempts)));
  }

  /** The run at version 2, its cancel gone. */
  const ADVANCED_RUN: RunRow := RUN.(state := Discovering, version := 2, updatedAt := 2)

  ghost predicate IsFinalized(c: Config, s: System) {
    && s.nextId == 5 && 0 in s.history && 0 in s.outbox
    && s.db.runs == map[0 := ADVANCED_RUN] && s.db.steps == map[2 := CompletedStep(FirstClaim(c), Discovering, 2, 2)]
    && s.db.events == map[1 := Woken(AdvanceEvent(1, RUN, 0), 0, 1, 1), 4 := AdvanceEvent(4, ADVANCED_RUN, 2)]
    && CANCELLED_RUN in s.seen && ADVANCED_RUN in s.seen
  }

  lemma FinalizedLate(c: Config, s: System)
    requires IsOpened(c, s)
    ensures IsFinalized(c, Step(c, s, Finalize(FirstClaim(c), RUN, 2)))
    ensures 0 in s.db.runs && s.db.runs[0].cancelRequestedAt == Some(1)
  {
    hide DoCreate, DoCancel, DoClaim, DoHeartbeat, DoFail, DoDispatch, DoReconcile;
  }

  lemma FailedLate(c: Config, s: System)
    requires IsOpened(c, s)
    ensures var t := Step(c, s, Fail(FirstClaim(c), RUN, "code", "detail", 2));
            0 in t.db.runs && t.db.runs[0].cancelRequestedAt == None && t.db.runs[0].state == Failed
    ensures 0 in s.db.runs && s.db.runs[0].cancelRequestedAt == Some(1)
  {
    hide DoCreate, DoCancel, DoClaim, DoHeartbeat, DoFinalize, DoDispatch, DoReconcile;
  }

  lemma CancelledTwice(c: Config, s: System)
    requires IsOpened(c, s)
    ensures var t := Step(c, s, Cancel(RUN, 1, 2)); 0 in t.db.runs && t.db.runs[0].cancelRequestedAt == Some(2)
    ensures 0 in s.db.runs && s.db.runs[0].cancelRequestedAt == Some(1)
  {
    hide Step;
    CancelTakesEffect(c, s, RUN, 2);
  }

  lemma RecoveredLate(c: Config, s: System)
    requires IsDelivered(c, s, CANCELLED_RUN)
    ensures var t := Step(c, s, Reconcile(1, RUN, RUN, false, 2 + c.staleAfter));
            0 in t.db.runs && t.db.runs[0].cancelRequestedAt == None && t.db.runs[0].state == Failed
    ensures 0 in s.db.runs && s.db.runs[0].cancelRequestedAt == Some(1)
  {
    hide DoCreate, DoCancel, DoClaim, DoHeartbeat, DoFinalize, DoFail, DoDispatch;
  }

  // --- A delivery that spends the budget -----------------------------------------------------------

  const REFUSAL: Action := Dispatch(1, false, true, "", 0, 2)

  function Refusals(n: nat): (actions: seq<Action>) {
    if n == 0 then [] else Refusals(n - 1) + [REFUSAL]
  }

  /** The broker refuses the first event as often as the budget allows, then takes it. */
  function SpentDelivery(n: nat): (actions: seq<Action>) {
    Refusals(n) + [Dispatch(1, true, true, "", 0, 2)]
  }

  /** The event after these refusals. */
  predicate Refused(event: EventRow, later: EventRow, n: nat) {
    && later == event.(publishAttempts := event.publishAttempts + n, availableAt := later.availableAt,
                       lastError := later.lastError)
    && Unpublished(later, 2)
  }

  lemma {:induction false} RefusalsCount(c: Config, before: seq<Action>, n: nat)
    requires 1 in Exec(c, before).db.events && Unpublished(Exec(c, before).db.events[1], 2)
    ensures var s, t := Exec(c, before), Exec(c, before + Refusals(n));
            && 1 in t.db.events && Refused(s.db.events[1], t.db.events[1], n)
            && t == s.(db := s.db.(events := s.db.events[1 := t.db.events[1]]))
  {
    hide Exec, Step;
    if n == 0 {
      assert before + Refusals(0) == before;
    } else {
      RefusalsCount(c, before, n - 1);
      assert before + Refusals(n) == before + Refusals(n - 1) + [REFUSAL];
      ExecSnoc(c, before + Refusals(n - 1), REFUSAL);
      RefusedOnce(c, Exec(c, before + Refusals(n - 1)));
    }
  }

  lemma RefusedOnce(c: Config, s: System)
    requires 1 in s.db.events && Unpublished(s.db.events[1], 2)
    ensures Step(c, s, REFUSAL) == s.(db := s.db.(events := s.db.events[1 := Postponed(s.db.events[1], "", 0)]))
  {
  }

  /** The one run of the state, with its first claim, and the event of its first version due. */
  ghost predicate IsUndelivered(c: Config, s: System, run: RunRow) {
    && s.nextId == 4 && s.history == map[0 := []] && s.outbox == map[0 := [1]] && s.reopens == map[1 := 0]
    && s.db.runs == map[0 := run] && s.db.steps == map[2 := FirstClaim(c)] && s.db.events.Keys == {1}
    && IsRequest(s.db.events[1], 0, 1) && s.db.events[1].id == 1 && Unpublished(s.db.events[1], 2)
    && RUN in s.seen && FirstClaim(c) in s.granted
  }

  ghost predicate IsDelivered(c: Config, s: System, run: RunRow) {
    && s.nextId == 4 && s.history == map[0 := []] && s.outbox == map[0 := [1]] && s.reopens == map[1 := 0]
    && s.db.runs == map[0 := run] && s.db.steps == map[2 := FirstClaim(c)] && s.db.events.Keys == {1}
    && IsRequest(s.db.events[1], 0, 1) && s.db.events[1].id == 1 && s.db.events[1].publishedAt == Some(2)
    && c.maxAttempts <= s.db.events[1].publishAttempts
    && RUN in s.seen && FirstClaim(c) in s.granted
  }

  lemma CancelledIsUndelivered(c: Config, s: System)
    requires IsOpened(c, s)
    ensures IsUndelivered(c, s, CANCELLED_RUN)
  {
  }

  lemma Delivered(c: Config, before: seq<Action>, run: RunRow)
    requires IsUndelivered(c, Exec(c, before), run)
    ensures IsDelivered(c, Exec(c, before + SpentDelivery(c.maxAttempts)), run)
  {
    hide Exec, Step;
    var n := c.maxAttempts;
    var sent := Dispatch(1, true, true, "", 0, 2);
    RefusalsCount(c, before, n);
    assert before + SpentDelivery(n) == before + Refusals(n) + [sent];
    ExecSnoc(c, before + Refusals(n), sent);
    Accepted(c, Exec(c, before + Refusals(n)));
  }

  lemma Accepted(c: Config, s: System)
    requires 1 in s.db.events && Unpublished(s.db.events[1], 2)
    ensures var t := Step(c, s, Dispatch(1, true, true, "", 0, 2));
            t == s.(db := s.db.(events := s.db.events[1 := Published(s.db.events[1], 2)]), sent := s.sent + {1})
  {
  }

  // --- Claims that a lost cancel misleads ----------------------------------------------------------

  function LosingCancel(c: Config): (actions: seq<Action>) {
    OPENING + [Finalize(FirstClaim(c), RUN, 2)]
  }

  lemma CancelLost(c: Config)
    ensures IsFinalized(c, Exec(c, LosingCancel(c)))
  {
    hide Exec, Step, IsOpened, IsFinalized;
    AfterOpening(c, Finalize(FirstClaim(c), RUN, 2));
    FinalizedLate(c, Exec(c, OPENING));
  }

  function LateClaim(c: Config): (claim: StepRow) {
    Candidate(CANCELLED_RUN, Cancelled, "worker", 3, c.lease, 5, 6)
  }

  ghost predicate IsClaimedLate(c: Config, s: System, run: RunRow) {
    && s.nextId == 7 && s.db.runs == map[0 := run] && run in s.seen && 0 in s.history && 0 in s.outbox
    && s.db.steps == map[2 := CompletedStep(FirstClaim(c), Discovering, 2, 2), 5 := LateClaim(c)]
    && 4 in s.db.events && IsRequest(s.db.events[4], 0, 2) && s.db.events[4].expectedState == Discovering
    && s.db.events[4].expectedVersion == 2 && LateClaim(c) in s.granted
  }

  lemma LeftClaimed(c: Config, s: System)
    requires IsFinalized(c, s)
    ensures IsClaimedLate(c, Step(c, s, Claim(1, CANCELLED_RUN, None, "worker", 3)), ADVANCED_RUN)
  {
    hide Step;
    ClaimTakesEffect(c, s, 1, CANCELLED_RUN, "worker", 3);
  }

  /** A claim that read the cancelled run is granted for a version the run has left, and its row stays RUNNING. */
  lemma StaleClaimIsForLeftVersion(c: Config)
    ensures var t := Exec(c, LosingCancel(c) + [Claim(1, CANCELLED_RUN, None, "worker", 3)]);
            && LateClaim(c) in t.granted && 5 in t.db.steps && t.db.steps[5] == LateClaim(c)
            && LateClaim(c).expectedVersion == 1 && 0 in t.db.runs && t.db.runs[0].version == 2
            && !Terminal(t.db.runs[0].state)
  {
    hide Exec, Step, IsFinalized;
    CancelLost(c);
    ExecSnoc(c, LosingCancel(c), Claim(1, CANCELLED_RUN, None, "worker", 3));
    LeftClaimed(c, Exec(c, LosingCancel(c)));
  }

  const CANCELLED_AGAIN: RunRow := ADVANCED_RUN.(cancelRequestedAt := Some(3), updatedAt := 3)

  function SecondClaim(c: Config): (claim: StepRow) {
    Candidate(CANCELLED_AGAIN, Cancelled, "worker", 4, c.lease, 5, 6)
  }

  ghost predicate IsCancelledAgain(c: Config, s: System) {
    && s.nextId == 5 && s.db.runs == map[0 := CANCELLED_AGAIN] && CANCELLED_AGAIN in s.seen && CANCELLED_RUN in s.seen
    && s.db.steps == map[2 := CompletedStep(FirstClaim(c), Discovering, 2, 2)]
    && 1 in s.db.events && IsRequest(s.db.events[1], 0, 1) && s.db.events[1].expectedState == Queued
    && s.db.events[1].expectedVersion == 1
    && 4 in s.db.events && IsRequest(s.db.events[4], 0, 2) && s.db.events[4].expectedState == Discovering
    && s.db.events[4].expectedVersion == 2
  }

  lemma CancelledOnceMore(c: Config, s: System)
    requires IsFinalized(c, s)
    ensures IsCancelledAgain(c, Step(c, s, Cancel(ADVANCED_RUN, 2, 3)))
  {
    hide Step;
    CancelTakesEffect(c, s, ADVANCED_RUN, 3);
  }

  ghost predicate IsClaimedAgain(c: Config, s: System) {
    && s.nextId == 7 && s.db.runs == map[0 := CANCELLED_AGAIN] && CANCELLED_RUN in s.seen
    && s.db.steps == map[2 := CompletedStep(FirstClaim(c), Discovering, 2, 2), 5 := SecondClaim(c)]
    && 1 in s.db.events && IsRequest(s.db.events[1], 0, 1) && s.db.events[1].expectedState == Queued
    && s.db.events[1].expectedVersion == 1
  }

  lemma ClaimedOnceMore(c: Config, s: System)
    requires IsCancelledAgain(c, s)
    ensures IsClaimedAgain(c, Step(c, s, Claim(4, CANCELLED_AGAIN, None, "worker", 4)))
  {
    hide Step;
    ClaimTakesEffect(c, s, 4, CANCELLED_AGAIN, "worker", 4);
  }

  /**
    A claim may read the run at a version it has left and still be granted for the current one: it takes
    over the cancellation that the current version has claimed since.
   */
  lemma HeldKeyServesStaleRead(c: Config)
    ensures var actions :=
      LosingCancel(c) + [Cancel(ADVANCED_RUN, 2, 3)] + [Claim(4, CANCELLED_AGAIN, None, "worker", 4)];
            var s := Exec(c, actions);
            var claim := ClaimWith(c, s, 1, CANCELLED_RUN, None, "worker", 4 + c.lease);
            && CANCELLED_RUN in s.seen && 0 in s.db.runs && s.db.runs[0].version == 2 && !Terminal(s.db.runs[0].state)
            && CANCELLED_RUN.version == 1 && claim.Some? && claim.value.expectedVersion == 2
  {
    hide Exec, Step, IsFinalized, IsCancelledAgain, IsClaimedAgain, ClaimWith;
    var again, claim := Cancel(ADVANCED_RUN, 2, 3), Claim(4, CANCELLED_AGAIN, None, "worker", 4);
    CancelLost(c);
    ExecSnoc(c, LosingCancel(c), again);
    CancelledOnceMore(c, Exec(c, LosingCancel(c)));
    ExecSnoc(c, LosingCancel(c) + [again], claim);
    ClaimedOnceMore(c, Exec(c, LosingCancel(c) + [again]));
    TakenOver(c, Exec(c, LosingCancel(c) + [again] + [claim]));
  }

  lemma TakenOver(c: Config, s: System)
    requires IsClaimedAgain(c, s)
    ensures var claim := ClaimWith(c, s, 1, CANCELLED_RUN, None, "worker", 4 + c.lease);
            claim.Some? && claim.value.expectedVersion == 2
    ensures CANCELLED_RUN in s.seen && 0 in s.db.runs && s.db.runs[0] == CANCELLED_AGAIN
  {
    assert s.db.steps[5].key == Main(Cancelled) && s.db.steps[5].runId == 0;
    assert s.db.steps[2].key == Main(Discovering);
    assert HasKey(s.db.steps, 0, Main(Cancelled));
  }

  lemma LateCancelled(c: Config, s: System)
    requires IsClaimedLate(c, s, ADVANCED_RUN)
    ensures IsClaimedLate(c, Step(c, s, Cancel(ADVANCED_RUN, 2, 3)), CANCELLED_AGAIN)
  {
    hide Step;
    CancelTakesEffect(c, s, ADVANCED_RUN, 3);
  }

  /**
    After such a claim and a second cancel, a claim that reads everything as it is is granted for the
    version that the run has left: it takes over the row that the stale claim put under its key.
   */
  lemma CurrentClaimIsForLeftVersion(c: Config)
    ensures var actions :=
              LosingCancel(c) + [Claim(1, CANCELLED_RUN, None, "worker", 3)] + [Cancel(ADVANCED_RUN, 2, 3)];
            var s := Exec(c, actions);
            var current := Some(LateClaim(c));
            && 0 in s.db.runs && s.db.runs[0].version == 2 && !Terminal(s.db.runs[0].state)
            && IsCurrentStep(s.db, 0, current)
            && var claim := ClaimWith(c, s, 4, s.db.runs[0], current, "worker", 3 + c.lease);
               claim.Some? && claim.value.expectedVersion == 1
  {
    hide Exec, Step, IsFinalized, IsClaimedLate, ClaimWith, IsCurrentStep;
    var claim, again := Claim(1, CANCELLED_RUN, None, "worker", 3), Cancel(ADVANCED_RUN, 2, 3);
    CancelLost(c);
    ExecSnoc(c, LosingCancel(c), claim);
    LeftClaimed(c, Exec(c, LosingCancel(c)));
    ExecSnoc(c, LosingCancel(c) + [claim], again);
    LateCancelled(c, Exec(c, LosingCancel(c) + [claim]));
    TakenOverLate(c, Exec(c, LosingCancel(c) + [claim] + [again]));
  }

  lemma TakenOverLate(c: Config, s: System)
    requires IsClaimedLate(c, s, CANCELLED_AGAIN)
    ensures 0 in s.db.runs && s.db.runs[0] == CANCELLED_AGAIN && IsCurrentStep(s.db, 0, Some(LateClaim(c)))
    ensures var claim := ClaimWith(c, s, 4, CANCELLED_AGAIN, Some(LateClaim(c)), "worker", 3 + c.lease);
            claim.Some? && claim.value.expectedVersion == 1
  {
    assert s.db.steps[5].key == Main(Cancelled) && s.db.steps[5].runId == 0;
    assert s.db.steps[2].key == Main(Discovering);
    assert HasKey(s.db.steps, 0, Main(Cancelled));
  }

  // --- A first cancellation beside a live step -----------------------------------------------------

  /** Two workers read the run, one before and one after its cancel, and neither sees the other's claim. */
  const RACE: seq<Action> := [Create("key", "request", 0), Cancel(RUN, 1, 1), Claim(1, RUN, None, "worker", 2)]

  const RACING_CLAIM: Action := Claim(1, CANCELLED_RUN, None, "other", 2)

  function OlderClaim(c: Config): (claim: StepRow) {
    Candidate(RUN, Discovering, "worker", 2, c.lease, 2, 3)
  }

  function NewerClaim(c: Config): (claim: StepRow) {
    Candidate(CANCELLED_RUN, Cancelled, "other", 2, c.lease, 4, 5)
  }

  ghost predicate IsCancelledAtOnce(s: System) {
    && s.nextId == 2 && s.db.runs == map[0 := CANCELLED_RUN] && RUN in s.seen && CANCELLED_RUN in s.seen
    && s.db.steps == map[] && s.db.events == map[1 := Woken(AdvanceEvent(1, RUN, 0), 0, 1, 1)]
  }

  lemma CancelledAtOnce(c: Config, s: System)
    requires IsCreated(s)
    ensures IsCancelledAtOnce(Step(c, s, RACE[1]))
  {
    hide Step;
    CancelTakesEffect(c, s, RUN, 1);
  }

  ghost predicate IsRaced(c: Config, s: System) {
    && s.nextId == 4 && s.db.runs == map[0 := CANCELLED_RUN] && CANCELLED_RUN in s.seen
    && s.db.steps == map[2 := OlderClaim(c)] && s.db.events == map[1 := Woken(AdvanceEvent(1, RUN, 0), 0, 1, 1)]
  }

  lemma ClaimedInTheRace(c: Config, s: System)
    requires IsCancelledAtOnce(s)
    ensures IsRaced(c, Step(c, s, RACE[2]))
  {
    hide Step;
    ClaimTakesEffect(c, s, 1, RUN, "worker", 2);
  }

  lemma Raced(c: Config)
    ensures IsRaced(c, Exec(c, RACE))
  {
    hide Exec, Step;
    var a0, a1, a2 := RACE[0], RACE[1], RACE[2];
    NothingExecuted(c);
    ExecSnoc(c, [], a0);
    ExecSnoc(c, [a0], a1);
    ExecSnoc(c, [a0, a1], a2);
    assert [] + [a0] == [a0] && [a0] + [a1] == [a0, a1] && [a0, a1] + [a2] == RACE;
    CreatedAlone(c);
    CancelledAtOnce(c, Exec(c, [a0]));
    ClaimedInTheRace(c, Exec(c, [a0, a1]));
  }

  /**
    The first CANCELLED step appears beside a live RUNNING step of the same version: two workers hold
    live claims on one live run.
   */
  lemma FirstCancellationBesideLiveStep(c: Config)
    requires 0 < c.lease
    ensures var s, t := Exec(c, RACE), Exec(c, RACE + [RACING_CLAIM]);
            && FirstCancellation(s, 1, CANCELLED_RUN)
            && t.db.runs == map[0 := CANCELLED_RUN] && !Terminal(CANCELLED_RUN.state)
            && t.db.steps == map[2 := OlderClaim(c), 4 := NewerClaim(c)]
            && OlderClaim(c).status == NewerClaim(c).status == Running
            && LiveAt(OlderClaim(c), 2) && LiveAt(NewerClaim(c), 2)
            && OlderClaim(c).expectedVersion == NewerClaim(c).expectedVersion == CANCELLED_RUN.version
  {
    hide Exec, Step, IsRaced;
    Raced(c);
    ExecSnoc(c, RACE, RACING_CLAIM);
    RaceIsLost(c, Exec(c, RACE));
  }

  lemma RaceIsLost(c: Config, s: System)
    requires IsRaced(c, s)
    ensures FirstCancellation(s, 1, CANCELLED_RUN)
    ensures Step(c, s, RACING_CLAIM).db.runs == s.db.runs == map[0 := CANCELLED_RUN]
    ensures Step(c, s, RACING_CLAIM).db.steps == map[2 := OlderClaim(c), 4 := NewerClaim(c)]
  {
    hide Step;
    ClaimTakesEffect(c, s, 1, CANCELLED_RUN, "other", 2);
  }
}

/** Every action keeps the protocol invariant, so every execution satisfies it. */
module Invariance {
  import opened Wrappers
  import opened Lifecycle
  import opened Store
  import opened Protocol

  // --- One run leaves its version through one step: finalize, fail and recovery failure -----------

  predicate LeavesRun(s: System, db: Tables, run: RunRow) {
    && run.id in s.db.runs && SameRun(s.db.runs[run.id], run)
    && !Terminal(s.db.runs[run.id].state)
    && run.version == s.db.runs[run.id].version + 1
    && RunShape(run)
    && db.runs == s.db.runs[run.id := run]
  }

  predicate SameClaim(before: StepRow, row: StepRow) {
    && before.status == Running && before.runId == row.runId && before.key == row.key
    && before.fromState == row.fromState && before.expectedVersion == row.expectedVersion
  }

  ghost predicate LeavesThrough(s: System, db: Tables, run: RunRow, row: StepRow) {
    && row.runId == run.id && row.expectedVersion + 1 == run.version && row.toState == run.state
    && StepShape(row) && row.status != Running && (row.token.Some? ==> row.token.value < s.nextId)
    && (if row.id in s.db.steps then SameClaim(s.db.steps[row.id], row)
        else row.id == s.nextId && !HasKey(s.db.steps, row.runId, row.key))
    && db.steps == s.db.steps[row.id := row]
  }

  predicate Enqueues(s: System, db: Tables, run: RunRow, now: Time) {
    db.events == if Terminal(run.state) then s.db.events
                 else s.db.events[s.nextId := AdvanceEvent(s.nextId, run, now)]
  }

  ghost function Left(s: System, db: Tables, run: RunRow, row: StepRow): System
    requires run.id in s.history && run.id in s.outbox
  {
    Advanced(s, db, run.id, row.id, !Terminal(run.state))
  }

  lemma LeavingKeepsRun(s: System, db: Tables, run: RunRow, row: StepRow, r: Uuid)
    requires s.history.Keys == s.db.runs.Keys && s.outbox.Keys == s.db.runs.Keys
    requires LeavesRun(s, db, run)
    requires r in s.db.runs && RunOk(s, r)
    ensures var t := Left(s, db, run, row);
            t.history.Keys == t.db.runs.Keys && t.outbox.Keys == t.db.runs.Keys && RunOk(t, r)
  {
  }

  lemma LeavingKeepsRuns(s: System, db: Tables, run: RunRow, row: StepRow)
    requires RunsOk(s) && LeavesRun(s, db, run)
    ensures RunsOk(Left(s, db, run, row))
  {
    hide RunOk;
    var t := Left(s, db, run, row);
    assert t.history.Keys == t.db.runs.Keys && t.outbox.Keys == t.db.runs.Keys;
    forall r | r in t.db.runs ensures RunOk(t, r) {
      assert RunOk(s, r);
      LeavingKeepsRun(s, db, run, row, r);
    }
  }

  lemma LeavingKeepsRequestKeys(s: System, db: Tables, run: RunRow)
    requires RequestKeysUnique(s.db) && LeavesRun(s, db, run)
    ensures RequestKeysUnique(db)
  {
  }

  lemma LeavingKeepsSeen(s: System, db: Tables, run: RunRow, row: StepRow)
    requires s.history.Keys == s.db.runs.Keys && s.outbox.Keys == s.db.runs.Keys
    requires SeenOk(s) && LeavesRun(s, db, run)
    ensures SeenOk(Left(s, db, run, row))
  {
  }

  lemma LeavingKeepsStep(s: System, db: Tables, run: RunRow, row: StepRow, i: Uuid)
    requires s.history.Keys == s.db.runs.Keys && s.outbox.Keys == s.db.runs.Keys
    requires LeavesRun(s, db, run) && LeavesThrough(s, db, run, row)
    requires RunOk(s, run.id)
    requires row.id in s.db.steps ==> StepOk(s, row.id)
    requires i == row.id || (i in s.db.steps && StepOk(s, i))
    ensures var t := Left(s, db, run, row); t.history.Keys == t.db.runs.Keys && StepOk(t, i)
  {
  }

  lemma LeavingKeepsKeys(s: System, db: Tables, run: RunRow, row: StepRow)
    requires KeysUnique(s.db.steps) && LeavesThrough(s, db, run, row)
    ensures KeysUnique(db.steps)
  {
  }

  lemma LeavingKeepsSteps(s: System, db: Tables, run: RunRow, row: StepRow)
    requires RunsOk(s) && StepsOk(s)
    requires LeavesRun(s, db, run) && LeavesThrough(s, db, run, row)
    ensures var t := Left(s, db, run, row); t.history.Keys == t.db.runs.Keys && StepsOk(t)
  {
    LeavingKeepsKeys(s, db, run, row);
    LeavingKeepsRuns(s, db, run, row);
    forall i | i in db.steps ensures StepOk(Left(s, db, run, row), i) {
      LeavingKeepsStep(s, db, run, row, i);
    }
  }

  lemma LeavingKeepsFinished(s: System, db: Tables, run: RunRow, row: StepRow, r: Uuid, k: nat)
    requires s.history.Keys == s.db.runs.Keys && s.outbox.Keys == s.db.runs.Keys
    requires LeavesRun(s, db, run) && LeavesThrough(s, db, run, row) && RunOk(s, run.id)
    requires r in s.history && k < |Left(s, db, run, row).history[r]|
    requires k < |s.history[r]| ==> FinishedAt(s.db, s.history[r][k], r, k + 1)
    ensures FinishedAt(db, Left(s, db, run, row).history[r][k], r, k + 1)
  {
  }

  lemma LeavingKeepsHistory(s: System, db: Tables, run: RunRow, row: StepRow)
    requires RunsOk(s) && HistoryOk(s)
    requires LeavesRun(s, db, run) && LeavesThrough(s, db, run, row)
    ensures var t := Left(s, db, run, row); t.history.Keys == t.db.runs.Keys && HistoryOk(t)
  {
    LeavingKeepsRuns(s, db, run, row);
    var t := Left(s, db, run, row);
    forall r, k | r in t.history && 0 <= k < |t.history[r]| ensures FinishedAt(t.db, t.history[r][k], r, k + 1) {
      LeavingKeepsFinished(s, db, run, row, r, k);
    }
  }

  lemma LeavingKeepsGranted(s: System, db: Tables, run: RunRow, row: StepRow)
    requires s.history.Keys == s.db.runs.Keys && s.outbox.Keys == s.db.runs.Keys && run.id in s.db.runs
    requires GrantedOk(s) && LeavesThrough(s, db, run, row)
    ensures GrantedOk(Left(s, db, run, row))
  {
    var t := Left(s, db, run, row);
    forall g | g in t.granted ensures ClaimOk(t.db, t.nextId, g) {
      assert ClaimOk(s.db, s.nextId, g);
    }
  }

  lemma LeavingKeepsEvent(s: System, db: Tables, run: RunRow, row: StepRow, now: Time, i: Uuid)
    requires s.history.Keys == s.db.runs.Keys && s.outbox.Keys == s.db.runs.Keys
    requires LeavesRun(s, db, run) && Enqueues(s, db, run, now) && RunOk(s, run.id)
    requires i in db.events
    requires i in s.db.events ==> EventOk(s, i)
    ensures EventOk(Left(s, db, run, row), i)
  {
  }

  lemma LeavingKeepsEntry(s: System, db: Tables, run: RunRow, row: StepRow, now: Time, r: Uuid, k: nat)
    requires s.history.Keys == s.db.runs.Keys && s.outbox.Keys == s.db.runs.Keys
    requires LeavesRun(s, db, run) && Enqueues(s, db, run, now) && RunOk(s, run.id)
    requires r in s.outbox && k < |Left(s, db, run, row).outbox[r]|
    requires k < |s.outbox[r]| ==> OutboxEntry(s.db, s.outbox[r][k], r, k + 1) && EventOk(s, s.outbox[r][k])
    ensures OutboxEntry(db, Left(s, db, run, row).outbox[r][k], r, k + 1)
  {
  }

  lemma LeavingKeepsEvents(s: System, db: Tables, run: RunRow, row: StepRow, now: Time)
    requires RunsOk(s) && EventsOk(s)
    requires LeavesRun(s, db, run) && Enqueues(s, db, run, now)
    ensures EventsOk(Left(s, db, run, row))
  {
    var t := Left(s, db, run, row);
    forall i | i in t.db.events ensures EventOk(t, i) {
      LeavingKeepsEvent(s, db, run, row, now, i);
    }
    forall r, k | r in t.outbox && 0 <= k < |t.outbox[r]| ensures OutboxEntry(t.db, t.outbox[r][k], r, k + 1) {
      assert k < |s.outbox[r]| ==> OutboxEntry(s.db, s.outbox[r][k], r, k + 1);
      LeavingKeepsEntry(s, db, run, row, now, r, k);
    }
  }

  lemma LeavingKeepsReopens(c: Config, s: System, db: Tables, run: RunRow, row: StepRow, now: Time)
    requires s.history.Keys == s.db.runs.Keys && s.outbox.Keys == s.db.runs.Keys && run.id in s.db.runs
    requires ReopensOk(c, s) && Enqueues(s, db, run, now) && s.nextId !in s.db.events
    ensures ReopensOk(c, Left(s, db, run, row))
  {
  }

  lemma LeavingKeepsInv(c: Config, s: System, db: Tables, run: RunRow, row: StepRow, now: Time)
    requires Inv(c, s)
    requires LeavesRun(s, db, run) && LeavesThrough(s, db, run, row) && Enqueues(s, db, run, now)
    ensures Inv(c, Left(s, db, run, row))
  {
    LeavingKeepsRequestKeys(s, db, run);
    LeavingKeepsRuns(s, db, run, row);
    LeavingKeepsSeen(s, db, run, row);
    LeavingKeepsSteps(s, db, run, row);
    LeavingKeepsHistory(s, db, run, row);
    LeavingKeepsGranted(s, db, run, row);
    LeavingKeepsEvents(s, db, run, row, now);
    assert s.nextId !in s.db.events by {
      assert s.nextId in s.db.events ==> EventOk(s, s.nextId);
    }
    LeavingKeepsReopens(c, s, db, run, row, now);
  }

  // --- A RUNNING row is inserted, taken over or renewed ---------------------------------------------

  ghost predicate Touches(s: System, t: System, row: StepRow) {
    && t == s.(db := s.db.(steps := s.db.steps[row.id := row]), nextId := t.nextId, granted := t.granted)
    && s.nextId <= t.nextId
    && StepShape(row) && row.status == Running && row.token.value < t.nextId
    && (t.granted == s.granted || (t.granted == s.granted + {row} && s.nextId <= row.token.value))
    && (if row.id in s.db.steps then SameClaim(s.db.steps[row.id], row)
        else
          && row.id < t.nextId && !HasKey(s.db.steps, row.runId, row.key)
          && row.runId in s.db.runs
          && row.expectedVersion <= s.db.runs[row.runId].version
          && (row.expectedVersion == s.db.runs[row.runId].version ==> !Terminal(s.db.runs[row.runId].state)))
  }

  lemma TouchingKeepsStep(s: System, t: System, row: StepRow, i: Uuid)
    requires s.history.Keys == s.db.runs.Keys && Touches(s, t, row)
    requires row.id in s.db.steps ==> StepOk(s, row.id)
    requires i == row.id || (i in s.db.steps && StepOk(s, i))
    ensures StepOk(t, i)
  {
  }

  lemma TouchingKeepsSteps(s: System, t: System, row: StepRow)
    requires s.history.Keys == s.db.runs.Keys && StepsOk(s) && Touches(s, t, row)
    ensures StepsOk(t)
  {
    forall i | i in t.db.steps ensures StepOk(t, i) {
      TouchingKeepsStep(s, t, row, i);
    }
  }

  lemma TouchingKeepsHistory(s: System, t: System, row: StepRow)
    requires s.history.Keys == s.db.runs.Keys && StepsOk(s) && HistoryOk(s) && Touches(s, t, row)
    ensures HistoryOk(t)
  {
    forall r, k | r in t.history && 0 <= k < |t.history[r]| ensures FinishedAt(t.db, t.history[r][k], r, k + 1) {
      assert FinishedAt(s.db, s.history[r][k], r, k + 1);
    }
  }

  lemma TouchingKeepsGranted(s: System, t: System, row: StepRow)
    requires GrantedOk(s) && Touches(s, t, row)
    ensures GrantedOk(t)
  {
    forall g | g in t.granted ensures ClaimOk(t.db, t.nextId, g) {
      assert g in s.granted ==> ClaimOk(s.db, s.nextId, g);
    }
    forall g, h | g in t.granted && h in t.granted && g.token == h.token ensures g == h {
      assert g in s.granted ==> ClaimOk(s.db, s.nextId, g);
      assert h in s.granted ==> ClaimOk(s.db, s.nextId, h);
    }
  }

  /** Nothing a run depends on changes. */
  lemma FrameRuns(s: System, t: System)
    requires RunsOk(s) && SeenOk(s)
    requires t.db.runs == s.db.runs && t.history == s.history && t.outbox == s.outbox && t.seen == s.seen
    requires s.nextId <= t.nextId
    ensures RunsOk(t) && SeenOk(t)
  {
    forall r | r in t.db.runs ensures RunOk(t, r) {
      assert RunOk(s, r);
    }
  }

  /** Nothing an event depends on changes. */
  lemma FrameEvents(s: System, t: System)
    requires EventsOk(s)
    requires t.db.events == s.db.events && t.outbox == s.outbox && t.sent == s.sent && s.nextId <= t.nextId
    ensures EventsOk(t)
  {
    forall i | i in t.db.events ensures EventOk(t, i) {
      assert EventOk(s, i);
    }
    forall r, k | r in t.outbox && 0 <= k < |t.outbox[r]| ensures OutboxEntry(t.db, t.outbox[r][k], r, k + 1) {
      assert OutboxEntry(s.db, s.outbox[r][k], r, k + 1);
    }
  }

  predicate SameVersion(run: RunRow, later: RunRow) {
    run.version == later.version && run.state == later.state
  }

  /** Nothing a step depends on changes: of a run, only its version and state matter. */
  lemma FrameSteps(s: System, t: System)
    requires s.history.Keys == s.db.runs.Keys && t.db.runs.Keys == s.db.runs.Keys && t.history == s.history
    requires StepsOk(s) && HistoryOk(s) && GrantedOk(s)
    requires t.db.steps == s.db.steps && t.granted == s.granted && t.nextId == s.nextId
    requires forall r :: r in s.db.runs ==> SameVersion(s.db.runs[r], t.db.runs[r])
    ensures StepsOk(t) && HistoryOk(t) && GrantedOk(t)
  {
    forall i | i in t.db.steps ensures StepOk(t, i) {
      assert StepOk(s, i);
      assert SameVersion(s.db.runs[s.db.steps[i].runId], t.db.runs[s.db.steps[i].runId]);
    }
    forall r, k | r in t.history && 0 <= k < |t.history[r]| ensures FinishedAt(t.db, t.history[r][k], r, k + 1) {
      assert FinishedAt(s.db, s.history[r][k], r, k + 1);
    }
    forall g | g in t.granted ensures ClaimOk(t.db, t.nextId, g) {
      assert ClaimOk(s.db, s.nextId, g);
    }
  }

  lemma TouchingKeepsInv(c: Config, s: System, t: System, row: StepRow)
    requires Inv(c, s) && Touches(s, t, row)
    ensures Inv(c, t)
  {
    TouchingKeepsSteps(s, t, row);
    TouchingKeepsHistory(s, t, row);
    TouchingKeepsGranted(s, t, row);
    FrameRuns(s, t);
    FrameEvents(s, t);
  }

  // --- Delivery columns of events change -----------------------------------------------------------

  predicate SameEvent(before: EventRow, event: EventRow) {
    && before.id == event.id && before.aggregateId == event.aggregateId
    && before.aggregateVersion == event.aggregateVersion && before.topic == event.topic
    && before.expectedState == event.expectedState && before.expectedVersion == event.expectedVersion
  }

  ghost predicate Redelivers(c: Config, s: System, t: System) {
    && t == s.(db := s.db.(events := t.db.events), sent := t.sent, reopens := t.reopens)
    && s.sent <= t.sent
    && t.db.events.Keys == s.db.events.Keys == t.reopens.Keys
    && forall i :: i in s.db.events ==>
         && SameEvent(s.db.events[i], t.db.events[i]) && ReopenOk(c, t.db.events[i], t.reopens[i])
         && (t.db.events[i].publishedAt.Some? ==> i in t.sent)
  }

  lemma RedeliveringKeepsEvents(c: Config, s: System, t: System)
    requires EventsOk(s) && Redelivers(c, s, t)
    ensures EventsOk(t) && ReopensOk(c, t)
  {
    forall i | i in t.db.events ensures EventOk(t, i) {
      assert EventOk(s, i);
    }
    forall r, k | r in t.outbox && 0 <= k < |t.outbox[r]| ensures OutboxEntry(t.db, t.outbox[r][k], r, k + 1) {
      assert OutboxEntry(s.db, s.outbox[r][k], r, k + 1);
    }
  }

  lemma RedeliveringKeepsInv(c: Config, s: System, t: System)
    requires Inv(c, s) && Redelivers(c, s, t)
    ensures Inv(c, t)
  {
    FrameRuns(s, t);
    FrameSteps(s, t);
    RedeliveringKeepsEvents(c, s, t);
  }

  // --- A run row changes without leaving its version -----------------------------------------------

  predicate Rewrites(s: System, t: System, run: RunRow) {
    && t == s.(db := s.db.(runs := s.db.runs[run.id := run]), seen := s.seen + {run})
    && run.id in s.db.runs && SameRun(s.db.runs[run.id], run)
    && run.version == s.db.runs[run.id].version && run.state == s.db.runs[run.id].state
  }

  lemma RewritingKeepsRun(s: System, t: System, run: RunRow, r: Uuid)
    requires s.history.Keys == s.db.runs.Keys && s.outbox.Keys == s.db.runs.Keys
    requires Rewrites(s, t, run) && r in s.db.runs && RunOk(s, r)
    ensures t.history.Keys == t.db.runs.Keys && t.outbox.Keys == t.db.runs.Keys && RunOk(t, r)
  {
  }

  lemma RewritingKeepsRuns(s: System, t: System, run: RunRow)
    requires RunsOk(s) && Rewrites(s, t, run)
    ensures RunsOk(t)
  {
    assert t.history.Keys == t.db.runs.Keys && t.outbox.Keys == t.db.runs.Keys;
    forall r | r in t.db.runs ensures RunOk(t, r) {
      RewritingKeepsRun(s, t, run, r);
    }
  }

  lemma RewritingKeepsSeen(s: System, t: System, run: RunRow)
    requires SeenOk(s) && Rewrites(s, t, run) && RunShape(s.db.runs[run.id])
    ensures SeenOk(t)
  {
    forall q | q in t.seen ensures RunShape(q) && q.id in t.db.runs && PastRow(q, t.db.runs[q.id]) {
      assert q in s.seen ==> PastRow(q, s.db.runs[q.id]);
    }
  }

  lemma RewritingKeepsRequestKeys(s: System, t: System, run: RunRow)
    requires RequestKeysUnique(s.db) && Rewrites(s, t, run)
    ensures RequestKeysUnique(t.db)
  {
  }

  lemma RewritingKeepsInv(c: Config, s: System, t: System, run: RunRow)
    requires Inv(c, s) && Rewrites(s, t, run)
    ensures Inv(c, t)
  {
    hide StepOk, EventOk, ClaimOk, FinishedAt, OutboxEntry, ReopenOk, RequestKeysUnique, HistoryOk, GrantedOk, EventsOk;
    assert RunOk(s, run.id);
    RewritingKeepsRequestKeys(s, t, run);
    RewritingKeepsRuns(s, t, run);
    RewritingKeepsSeen(s, t, run);
    FrameSteps(s, t);
    FrameEvents(s, t);
  }

  // --- What the invariant says about one row --------------------------------------------------------

  lemma ReadIsPast(c: Config, s: System, read: RunRow)
    requires Inv(c, s) && read in s.seen
    ensures s.history.Keys == s.db.runs.Keys && s.outbox.Keys == s.db.runs.Keys
    ensures RunShape(read) && read.id in s.db.runs && PastRow(read, s.db.runs[read.id]) && RunOk(s, read.id)
  {
  }

  lemma EventFacts(c: Config, s: System, i: Uuid)
    requires Inv(c, s) && i in s.db.events
    ensures i in s.reopens && EventOk(s, i) && ReopenOk(c, s.db.events[i], s.reopens[i])
    ensures s.db.events[i].aggregateId in s.db.runs && s.db.events[i].aggregateId in s.history
  {
  }

  lemma StepFacts(c: Config, s: System, i: Uuid)
    requires Inv(c, s) && i in s.db.steps
    ensures s.history.Keys == s.db.runs.Keys && s.outbox.Keys == s.db.runs.Keys
    ensures StepOk(s, i) && s.db.steps[i].runId in s.db.runs && RunOk(s, s.db.steps[i].runId)
  {
  }

  lemma ClaimFacts(c: Config, s: System, claim: StepRow)
    requires Inv(c, s) && claim in s.granted
    ensures ClaimOk(s.db, s.nextId, claim)
  {
  }

  lemma RunFacts(c: Config, s: System, r: Uuid)
    requires Inv(c, s) && r in s.db.runs
    ensures s.history.Keys == s.db.runs.Keys && s.outbox.Keys == s.db.runs.Keys && RunOk(s, r)
  {
  }

  lemma ReopenKeysAreEvents(c: Config, s: System)
    requires Inv(c, s)
    ensures s.reopens.Keys == s.db.events.Keys
  {
  }

  lemma FreshId(c: Config, s: System, i: Uuid)
    requires Inv(c, s) && s.nextId <= i
    ensures i !in s.db.runs && i !in s.db.steps && i !in s.db.events && i !in s.history && i !in s.outbox
    ensures s.history.Keys == s.db.runs.Keys && s.outbox.Keys == s.db.runs.Keys
  {
    assert i in s.db.runs ==> RunOk(s, i);
    assert i in s.db.steps ==> StepOk(s, i);
    assert i in s.db.events ==> EventOk(s, i);
  }

  // --- The actions ---------------------------------------------------------------------------------

  /** The facts about one claim and one read that the guards of a finishing transaction rely on. */
  ghost predicate Fenced(s: System, claim: StepRow, read: RunRow) {
    && s.history.Keys == s.db.runs.Keys && s.outbox.Keys == s.db.runs.Keys
    && read.id in s.db.runs && RunOk(s, read.id)
    && RunShape(read) && PastRow(read, s.db.runs[read.id])
    && ClaimOk(s.db, s.nextId, claim) && StepOk(s, claim.id)
    && claim.runId == read.id
  }

  lemma GrantedIsFenced(c: Config, s: System, claim: StepRow, read: RunRow)
    requires Inv(c, s) && claim in s.granted && read in s.seen && read.id == claim.runId
    ensures Fenced(s, claim, read)
  {
    assert ClaimOk(s.db, s.nextId, claim);
    assert StepOk(s, claim.id);
    assert RunShape(read) && PastRow(read, s.db.runs[read.id]);
    assert RunOk(s, read.id);
  }

  /** A claim that passes the fence holds a RUNNING row of the version read, and that version is on the main path. */
  lemma PassedGuards(s: System, claim: StepRow, read: RunRow)
    requires Fenced(s, claim, read) && read.version == claim.expectedVersion && Holds(s.db, claim)
    ensures SameClaim(s.db.steps[claim.id], claim) && s.db.steps[claim.id].toState == claim.toState
    ensures !Terminal(read.state) && read.state == claim.fromState
    ensures CanSave(s.db, read.id, read.version) ==> s.db.runs[read.id].state == read.state
  {
  }

  lemma FinalizeLeaves(s: System, claim: StepRow, read: RunRow, now: Time)
    requires Fenced(s, claim, read)
    requires FinalizeTx(s.db, claim, Some(read), now, s.nextId).1.Ok?
    ensures var (db, result) := FinalizeTx(s.db, claim, Some(read), now, s.nextId);
            && read.id in db.runs && claim.id in db.steps && db.runs[read.id].state == result.value.state
            && LeavesRun(s, db, db.runs[read.id]) && LeavesThrough(s, db, db.runs[read.id], db.steps[claim.id])
            && Enqueues(s, db, db.runs[read.id], now)
  {
    PassedGuards(s, claim, read);
  }

  lemma FinalizeKeepsInv(c: Config, s: System, claim: StepRow, read: RunRow, now: Time)
    requires Inv(c, s)
    ensures Inv(c, DoFinalize(s, claim, read, now))
  {
    hide Inv;
    var (db, result) := FinalizeTx(s.db, claim, Some(read), now, s.nextId);
    if claim in s.granted && read in s.seen && read.id == claim.runId && result.Ok? {
      GrantedIsFenced(c, s, claim, read);
      FinalizeLeaves(s, claim, read, now);
      LeavingKeepsInv(c, s, db, db.runs[read.id], db.steps[claim.id], now);
    }
  }

  lemma FailLeaves(s: System, claim: StepRow, read: RunRow, code: string, detail: string, now: Time)
    requires Fenced(s, claim, read)
    requires FailTx(s.db, claim, Some(read), code, detail, now).1.Ok?
    ensures var (db, result) := FailTx(s.db, claim, Some(read), code, detail, now);
            && read.id in db.runs && claim.id in db.steps && Terminal(db.runs[read.id].state)
            && LeavesRun(s, db, db.runs[read.id]) && LeavesThrough(s, db, db.runs[read.id], db.steps[claim.id])
            && Enqueues(s, db, db.runs[read.id], now)
  {
    PassedGuards(s, claim, read);
  }

  lemma FailKeepsInv(c: Config, s: System, claim: StepRow, read: RunRow, code: string, detail: string, now: Time)
    requires Inv(c, s)
    ensures Inv(c, DoFail(s, claim, read, code, detail, now))
  {
    hide Inv;
    var (db, result) := FailTx(s.db, claim, Some(read), code, detail, now);
    if claim in s.granted && read in s.seen && read.id == claim.runId && result.Ok? {
      GrantedIsFenced(c, s, claim, read);
      FailLeaves(s, claim, read, code, detail, now);
      LeavingKeepsInv(c, s, db, db.runs[read.id], db.steps[claim.id], now);
    }
  }

  /** A recovery failure cannot meet an earlier recovery row: that row would have left this version. */
  lemma RecoveryKeyIsFree(s: System, run: RunRow)
    requires s.history.Keys == s.db.runs.Keys && StepsOk(s) && run.id in s.db.runs && RunShape(s.db.runs[run.id])
    requires |s.history[run.id]| == run.version - 1 && run.version == s.db.runs[run.id].version
    ensures !HasKey(s.db.steps, run.id, Recovery(run.version))
  {
    forall i | i in s.db.steps && s.db.steps[i].runId == run.id ensures s.db.steps[i].key != Recovery(run.version) {
      assert StepOk(s, i);
    }
  }

  lemma RecoveryLeaves(s: System, eventId: Uuid, read: RunRow, maxAttempts: nat, now: Time)
    requires s.history.Keys == s.db.runs.Keys && s.outbox.Keys == s.db.runs.Keys
    requires read.id in s.db.runs && RunOk(s, read.id) && RunShape(read) && PastRow(read, s.db.runs[read.id])
    requires read.version == s.db.runs[read.id].version ==> !HasKey(s.db.steps, read.id, Recovery(read.version))
    requires eventId in s.db.events && s.nextId !in s.db.steps
    requires ReconcileTx(s.db, eventId, Some(read), maxAttempts, now, s.nextId).1 == RunFailed
    ensures var (db, _) := ReconcileTx(s.db, eventId, Some(read), maxAttempts, now, s.nextId);
            && read.id in db.runs && s.nextId in db.steps && db.steps[s.nextId].id == s.nextId
            && Terminal(db.runs[read.id].state)
            && LeavesRun(s, db, db.runs[read.id]) && LeavesThrough(s, db, db.runs[read.id], db.steps[s.nextId])
            && Enqueues(s, db, db.runs[read.id], now)
  {
  }

  /** Only one event changes, in its delivery columns. */
  lemma RedeliveringOne(c: Config, s: System, t: System, i: Uuid)
    requires Inv(c, s) && i in s.db.events && i in t.db.events && i in t.reopens
    requires SameEvent(s.db.events[i], t.db.events[i]) && ReopenOk(c, t.db.events[i], t.reopens[i])
    requires t.db.events[i].publishedAt.Some? ==> i in t.sent
    requires s.sent <= t.sent
    requires t == s.(db := s.db.(events := s.db.events[i := t.db.events[i]]), sent := t.sent,
                     reopens := s.reopens[i := t.reopens[i]])
    ensures Inv(c, t)
  {
    hide Inv;
    EventFacts(c, s, i);
    ReopenKeysAreEvents(c, s);
    forall j | j in s.db.events
      ensures SameEvent(s.db.events[j], t.db.events[j]) && ReopenOk(c, t.db.events[j], t.reopens[j])
      ensures t.db.events[j].publishedAt.Some? ==> j in t.sent
    {
      EventFacts(c, s, j);
    }
    RedeliveringKeepsInv(c, s, t);
  }

  lemma ReopenFits(c: Config, event: EventRow, reopens: nat, now: Time)
    requires ReopenOk(c, event, reopens) && event.publishedAt.Some? && event.publishAttempts < c.maxAttempts
    ensures ReopenOk(c, Reopened(event, now), reopens + 1)
  {
  }

  lemma RecoveryFailureKeepsInv(c: Config, s: System, eventId: Uuid, read: RunRow, now: Time)
    requires Inv(c, s) && eventId in s.db.events && read in s.seen && read.id in s.db.runs
    requires ReconcileTx(s.db, eventId, Some(read), c.maxAttempts, now, s.nextId).1 == RunFailed
    ensures Inv(c, Advanced(s, ReconcileTx(s.db, eventId, Some(read), c.maxAttempts, now, s.nextId).0, read.id,
                            s.nextId, false))
  {
    var (db, outcome) := ReconcileTx(s.db, eventId, Some(read), c.maxAttempts, now, s.nextId);
    assert RunOk(s, read.id);
    assert PastRow(read, s.db.runs[read.id]);
    if read.version == s.db.runs[read.id].version {
      RecoveryKeyIsFree(s, read);
    }
    assert s.nextId in s.db.steps ==> StepOk(s, s.nextId);
    RecoveryLeaves(s, eventId, read, c.maxAttempts, now);
    LeavingKeepsInv(c, s, db, db.runs[read.id], db.steps[s.nextId], now);
  }

  lemma ReconcileKeepsInv(c: Config, s: System, eventId: Uuid, joined: RunRow, read: RunRow, activeStep: bool,
                          now: Time)
    requires Inv(c, s)
    ensures Inv(c, DoReconcile(s, c, eventId, joined, read, activeStep, now))
  {
    hide Inv;
    if ReconcileEnabled(s, c, eventId, joined, read, activeStep, now) {
      EventFacts(c, s, eventId);
      ReadIsPast(c, s, read);
      var t := DoReconcile(s, c, eventId, joined, read, activeStep, now);
      match ReconcileTx(s.db, eventId, Some(read), c.maxAttempts, now, s.nextId).1
      case EventReopened =>
        ReopenFits(c, s.db.events[eventId], s.reopens[eventId], now);
        RedeliveringOne(c, s, t, eventId);
      case RunFailed => RecoveryFailureKeepsInv(c, s, eventId, read, now);
      case _ => assert t == s;
    }
  }

  lemma HeartbeatKeepsInv(c: Config, s: System, claim: StepRow, now: Time)
    requires Inv(c, s)
    ensures Inv(c, DoHeartbeat(s, c, claim, now))
  {
    hide Inv;
    if claim in s.granted && Holds(s.db, claim) {
      StepFacts(c, s, claim.id);
      var t := DoHeartbeat(s, c, claim, now);
      TouchingKeepsInv(c, s, t, t.db.steps[claim.id]);
    }
  }

  /** The candidate built from any row read while the run was not terminal fits the run as it is now. */
  lemma CandidateFits(s: System, read: RunRow, target: RunState, worker: string, now: Time, lease: int)
    requires RunShape(read) && !Terminal(read.state) && ClaimTarget(read) == Some(target)
    ensures StepShape(Candidate(read, target, worker, now, lease, s.nextId, s.nextId + 1))
  {
  }

  lemma ClaimTouches(s: System, candidate: StepRow)
    requires s.history.Keys == s.db.runs.Keys && KeysUnique(s.db.steps)
    requires StepShape(candidate) && candidate.status == Running
    requires candidate.id == s.nextId && candidate.token == Some(s.nextId + 1) && s.nextId !in s.db.steps
    requires candidate.runId in s.db.runs && candidate.expectedVersion <= s.db.runs[candidate.runId].version
    requires candidate.expectedVersion == s.db.runs[candidate.runId].version
             ==> !Terminal(s.db.runs[candidate.runId].state)
    requires HasKey(s.db.steps, candidate.runId, candidate.key) ==>
               StepOk(s, KeyHolder(s.db.steps, candidate.runId, candidate.key))
    requires UpsertClaim(s.db, candidate).1.Some?
    ensures var (db, claim) := UpsertClaim(s.db, candidate);
            Touches(s, s.(db := db, nextId := s.nextId + 2, granted := s.granted + {claim.value}), claim.value)
  {
  }

  lemma GrantKeepsInv(c: Config, s: System, read: RunRow, target: RunState, worker: string, now: Time)
    requires Inv(c, s) && read in s.seen && !Terminal(read.state) && ClaimTarget(read) == Some(target)
    requires UpsertClaim(s.db, Candidate(read, target, worker, now, c.lease, s.nextId, s.nextId + 1)).1.Some?
    ensures var (db, claim) := UpsertClaim(s.db, Candidate(read, target, worker, now, c.lease, s.nextId, s.nextId + 1));
            Inv(c, s.(db := db, nextId := s.nextId + 2, granted := s.granted + {claim.value}))
  {
    var candidate := Candidate(read, target, worker, now, c.lease, s.nextId, s.nextId + 1);
    assert RunShape(read) && PastRow(read, s.db.runs[read.id]);
    CandidateFits(s, read, target, worker, now, c.lease);
    assert s.nextId in s.db.steps ==> StepOk(s, s.nextId);
    if HasKey(s.db.steps, candidate.runId, candidate.key) {
      assert StepOk(s, KeyHolder(s.db.steps, candidate.runId, candidate.key));
    }
    ClaimTouches(s, candidate);
    var (db, claim) := UpsertClaim(s.db, candidate);
    TouchingKeepsInv(c, s, s.(db := db, nextId := s.nextId + 2, granted := s.granted + {claim.value}), claim.value);
  }

  /** A claim is refused without a trace, or it is an upsert of the candidate its read calls for. */
  lemma ClaimIsUpsert(db: Tables, eventId: Uuid, read: RunRow, current: Option<StepRow>, worker: string,
                      now: Time, lease: int, stepId: Uuid, token: Uuid)
    ensures var (after, claim) := ClaimTx(db, eventId, Some(read), current, worker, now, lease, stepId, token);
            && (claim == None ==> after == db)
            && (claim.Some? ==>
                  && !Terminal(read.state) && ClaimTarget(read).Some?
                  && (after, claim)
                     == UpsertClaim(db, Candidate(read, ClaimTarget(read).value, worker, now, lease, stepId, token)))
  {
  }

  lemma ClaimKeepsInv(c: Config, s: System, eventId: Uuid, read: RunRow, current: Option<StepRow>, worker: string,
                      now: Time)
    requires Inv(c, s)
    ensures Inv(c, DoClaim(s, c, eventId, read, current, worker, now))
  {
    hide Inv;
    if read in s.seen && eventId in s.db.events && s.db.events[eventId].aggregateId == read.id {
      ClaimIsUpsert(s.db, eventId, read, current, worker, now, c.lease, s.nextId, s.nextId + 1);
      if ClaimTx(s.db, eventId, Some(read), current, worker, now, c.lease, s.nextId, s.nextId + 1).1.Some? {
        GrantKeepsInv(c, s, read, ClaimTarget(read).value, worker, now);
      } else {
        assert DoClaim(s, c, eventId, read, current, worker, now) == s;
      }
    }
  }

  lemma DispatchFits(c: Config, event: EventRow, reopens: nat, accepted: bool, error: string, retryAt: Time, now: Time)
    requires ReopenOk(c, event, reopens) && Unpublished(event, now)
    ensures var t := DispatchTx(Tables(map[], map[], map[event.id := event]), event.id, accepted, error, now, retryAt);
            && SameEvent(event, t.events[event.id]) && ReopenOk(c, t.events[event.id], reopens)
            && (t.events[event.id].publishedAt.Some? ==> accepted)
  {
  }

  lemma DispatchKeepsInv(c: Config, s: System, eventId: Uuid, accepted: bool, commits: bool, error: string,
                         retryAt: Time, now: Time)
    requires Inv(c, s)
    ensures Inv(c, DoDispatch(s, eventId, accepted, commits, error, retryAt, now))
  {
    hide Inv;
    if eventId in s.db.events && Unpublished(s.db.events[eventId], now) {
      EventFacts(c, s, eventId);
      DispatchFits(c, s.db.events[eventId], s.reopens[eventId], accepted, error, retryAt, now);
      RedeliveringOne(c, s, DoDispatch(s, eventId, accepted, commits, error, retryAt, now), eventId);
    }
  }

  lemma WokenFits(c: Config, event: EventRow, reopens: nat, runId: Uuid, version: nat, at: Time)
    requires ReopenOk(c, event, reopens)
    ensures var woken := Woken(event, runId, version, at);
            SameEvent(event, woken) && ReopenOk(c, woken, reopens)
            && (woken.publishedAt.Some? ==> event.publishedAt.Some?)
  {
  }

  lemma WakingKeepsInv(c: Config, s: System, runId: Uuid, version: nat, at: Time)
    requires Inv(c, s)
    ensures Inv(c, s.(db := s.db.(events := WakeCurrent(s.db.events, runId, version, at))))
  {
    var t := s.(db := s.db.(events := WakeCurrent(s.db.events, runId, version, at)));
    hide Inv;
    ReopenKeysAreEvents(c, s);
    forall i | i in s.db.events
      ensures SameEvent(s.db.events[i], t.db.events[i]) && ReopenOk(c, t.db.events[i], t.reopens[i])
      ensures t.db.events[i].publishedAt.Some? ==> i in t.sent
    {
      EventFacts(c, s, i);
      WokenFits(c, s.db.events[i], s.reopens[i], runId, version, at);
    }
    RedeliveringKeepsInv(c, s, t);
  }

  lemma CancelRewrites(s: System, read: RunRow, expectedVersion: nat, now: Time)
    requires read.id in s.db.runs && PastRow(read, s.db.runs[read.id]) && s.db.runs[read.id].id == read.id
    ensures var db := CancelTx(s.db, read.id, Some(read), expectedVersion, now).0;
            || db == s.db
            || (&& read.id in db.runs
                && Rewrites(s, s.(db := s.db.(runs := db.runs), seen := s.seen + {db.runs[read.id]}), db.runs[read.id])
                && db.steps == s.db.steps
                && db.events == WakeCurrent(s.db.events, read.id, read.version, now))
  {
  }

  lemma CancelKeepsInv(c: Config, s: System, read: RunRow, expectedVersion: nat, now: Time)
    requires Inv(c, s)
    ensures Inv(c, DoCancel(s, read, expectedVersion, now))
  {
    hide Inv;
    if read in s.seen && read.id in s.db.runs {
      ReadIsPast(c, s, read);
      CancelRewrites(s, read, expectedVersion, now);
      var db := CancelTx(s.db, read.id, Some(read), expectedVersion, now).0;
      if db == s.db {
        assert DoCancel(s, read, expectedVersion, now) == s;
      } else {
        var u := s.(db := s.db.(runs := db.runs), seen := s.seen + {db.runs[read.id]});
        RewritingKeepsInv(c, s, u, db.runs[read.id]);
        WakingKeepsInv(c, u, read.id, read.version, now);
      }
    }
  }

  lemma CreatingKeepsRuns(s: System, t: System, run: RunRow, eventId: Uuid)
    requires RunsOk(s) && SeenOk(s) && run.id == s.nextId <= t.nextId && s.nextId < t.nextId && run.id !in s.db.runs
    requires run.state == Queued && run.version == 1
    requires t.db.runs == s.db.runs[run.id := run] && t.seen == s.seen + {run}
    requires t.history == s.history[run.id := []] && t.outbox == s.outbox[run.id := [eventId]]
    ensures RunsOk(t) && SeenOk(t)
  {
    assert t.history.Keys == t.db.runs.Keys && t.outbox.Keys == t.db.runs.Keys;
    forall r | r in t.db.runs ensures RunOk(t, r) {
      assert r in s.db.runs ==> RunOk(s, r);
    }
  }

  lemma CreatingKeepsSteps(s: System, t: System, run: RunRow)
    requires s.history.Keys == s.db.runs.Keys && t.history.Keys == t.db.runs.Keys
    requires StepsOk(s) && HistoryOk(s) && GrantedOk(s) && run.id !in s.db.runs
    requires t.db.runs == s.db.runs[run.id := run] && t.db.steps == s.db.steps && t.granted == s.granted
    requires t.history == s.history[run.id := []] && s.nextId <= t.nextId
    ensures StepsOk(t) && HistoryOk(t) && GrantedOk(t)
  {
    forall i | i in t.db.steps ensures StepOk(t, i) {
      assert StepOk(s, i);
    }
    forall r, k | r in t.history && 0 <= k < |t.history[r]| ensures FinishedAt(t.db, t.history[r][k], r, k + 1) {
      assert FinishedAt(s.db, s.history[r][k], r, k + 1);
    }
    forall g | g in t.granted ensures ClaimOk(t.db, t.nextId, g) {
      assert ClaimOk(s.db, s.nextId, g);
    }
  }

  lemma CreatingKeepsEvents(c: Config, s: System, t: System, run: RunRow, now: Time)
    requires EventsOk(s) && ReopensOk(c, s) && run.id !in s.outbox && s.nextId + 1 !in s.db.events
    requires run.state == Queued && run.version == 1 && t.nextId == s.nextId + 2 && t.sent == s.sent
    requires t.db.events == s.db.events[s.nextId + 1 := AdvanceEvent(s.nextId + 1, run, now)]
    requires t.outbox == s.outbox[run.id := [s.nextId + 1]] && t.reopens == s.reopens[s.nextId + 1 := 0]
    ensures EventsOk(t) && ReopensOk(c, t)
  {
    hide OutboxEntry;
    CreatingKeepsOutbox(s, t, run, now);
    forall i | i in t.db.events ensures EventOk(t, i) {
      assert i in s.db.events ==> EventOk(s, i);
    }
  }

  lemma CreatingKeepsOutbox(s: System, t: System, run: RunRow, now: Time)
    requires EventsOk(s) && run.id !in s.outbox && s.nextId + 1 !in s.db.events && run.version == 1
    requires t.db.events == s.db.events[s.nextId + 1 := AdvanceEvent(s.nextId + 1, run, now)]
    requires t.outbox == s.outbox[run.id := [s.nextId + 1]]
    ensures forall r, k :: r in t.outbox && 0 <= k < |t.outbox[r]| ==> OutboxEntry(t.db, t.outbox[r][k], r, k + 1)
  {
    hide EventOk;
    forall r, k | r in t.outbox && 0 <= k < |t.outbox[r]| ensures OutboxEntry(t.db, t.outbox[r][k], r, k + 1) {
      assert r != run.id ==> OutboxEntry(s.db, s.outbox[r][k], r, k + 1);
    }
  }

  lemma CreateKeepsInv(c: Config, s: System, key: string, fingerprint: string, now: Time)
    requires Inv(c, s)
    ensures Inv(c, DoCreate(s, key, fingerprint, now))
  {
    hide RunOk, StepOk, EventOk, ClaimOk, FinishedAt, OutboxEntry, HistoryOk, GrantedOk, EventsOk, ReopenOk;
    if !RequestKeyTaken(s.db, key) {
      var t := DoCreate(s, key, fingerprint, now);
      var run := NewRun(s.nextId, key, fingerprint, now);
      FreshId(c, s, s.nextId);
      FreshId(c, s, s.nextId + 1);
      CreatingKeepsRuns(s, t, run, s.nextId + 1);
      CreatingKeepsSteps(s, t, run);
      CreatingKeepsEvents(c, s, t, run, now);
      assert RequestKeysUnique(t.db);
    }
  }

  lemma StepKeepsInv(c: Config, s: System, a: Action)
    requires Inv(c, s)
    ensures Inv(c, Step(c, s, a))
  {
    match a
    case Create(key, fingerprint, now) => CreateKeepsInv(c, s, key, fingerprint, now);
    case Cancel(read, expectedVersion, now) => CancelKeepsInv(c, s, read, expectedVersion, now);
    case Claim(eventId, read, current, worker, now) => ClaimKeepsInv(c, s, eventId, read, current, worker, now);
    case Heartbeat(claim, now) => HeartbeatKeepsInv(c, s, claim, now);
    case Finalize(claim, read, now) => FinalizeKeepsInv(c, s, claim, read, now);
    case Fail(claim, read, code, detail, now) => FailKeepsInv(c, s, claim, read, code, detail, now);
    case Dispatch(eventId, accepted, commits, error, retryAt, now) =>
      DispatchKeepsInv(c, s, eventId, accepted, commits, error, retryAt, now);
    case Reconcile(eventId, joined, read, activeStep, now) =>
      ReconcileKeepsInv(c, s, eventId, joined, read, activeStep, now);
  }

  lemma {:induction false} EveryExecutionKeepsInv(c: Config, actions: seq<Action>)
    ensures Inv(c, Exec(c, actions))
  {
    if actions == [] {
    } else {
      EveryExecutionKeepsInv(c, actions[..|actions| - 1]);
      StepKeepsInv(c, Exec(c, actions[..|actions| - 1]), actions[|actions| - 1]);
    }
  }
}

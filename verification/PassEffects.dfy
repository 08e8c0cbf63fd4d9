/** What a whole reconciliation pass leaves behind, run by run, when others commit while it is under way. */
module PassEffects {
  import opened Wrappers
  import opened Lifecycle
  import opened Store
  import opened Protocol
  import opened Invariance
  import opened Persistence
  import opened Services
  import opened Refinement
  import opened Effects

  /** Same run row, same steps and same events of a run in both tables. */
  predicate SameRunIn(db: Tables, after: Tables, r: Uuid) {
    && (r in db.runs <==> r in after.runs) && (r in db.runs ==> after.runs[r] == db.runs[r])
    && (forall i :: i in db.steps && db.steps[i].runId == r ==> i in after.steps && after.steps[i] == db.steps[i])
    && (forall i :: i in after.steps && after.steps[i].runId == r ==> i in db.steps && db.steps[i] == after.steps[i])
    && (forall i ::
          i in db.events && db.events[i].aggregateId == r ==> i in after.events && after.events[i] == db.events[i])
    && (forall i ::
          i in after.events && after.events[i].aggregateId == r ==> i in db.events && db.events[i] == after.events[i])
  }

  /** The steps and the events of `r` are the same in both tables, but for these. */
  ghost predicate SameBut(db: Tables, after: Tables, r: Uuid, events: set<Uuid>, steps: set<Uuid>) {
    && (forall i :: i in db.steps && db.steps[i].runId == r && i !in steps ==>
          i in after.steps && after.steps[i] == db.steps[i])
    && (forall i :: i in after.steps && after.steps[i].runId == r && i !in steps ==>
          i in db.steps && db.steps[i] == after.steps[i])
    && (forall i :: i in db.events && db.events[i].aggregateId == r && i !in events ==>
          i in after.events && after.events[i] == db.events[i])
    && (forall i :: i in after.events && after.events[i].aggregateId == r && i !in events ==>
          i in db.events && db.events[i] == after.events[i])
  }

  /**
    What a pass does to the run of one selected event, by what it read: nothing when the run has moved on; the
    event due again while its budget lasts; otherwise the run failed, with one step that records it.
   */
  ghost predicate RunRecovered(c: Config, db: Tables, after: Tables, event: EventRow, read: RunRow, now: Time) {
    var r := event.aggregateId;
    if read.version != event.aggregateVersion then SameRunIn(db, after, r)
    else if event.publishAttempts < c.maxAttempts then EventRecovered(db, after, event, now)
    else
      && r in after.runs && RecoveryFailed(read, after.runs[r], now)
      && exists i :: IsRecordedStep(db, after, event, read, i, now)
  }

  ghost predicate EventRecovered(db: Tables, after: Tables, event: EventRow, now: Time) {
    && event.aggregateId in db.runs && event.aggregateId in after.runs
    && after.runs[event.aggregateId] == db.runs[event.aggregateId]
    && event.id in after.events && ReopenedAs(event, after.events[event.id], now)
    && DueFrom(after.events[event.id], now) && SameBut(db, after, event.aggregateId, {event.id}, {})
  }

  ghost predicate IsRecordedStep(db: Tables, after: Tables, event: EventRow, read: RunRow, i: Uuid, now: Time) {
    && i !in db.steps && i in after.steps && RecoveryRecorded(after.steps[i], i, read, event.publishAttempts, now)
    && SameBut(db, after, event.aggregateId, {}, {i})
  }

  /** What was done to a run stays when other runs are recovered. */
  lemma RecoveredStays(c: Config, db: Tables, before: Tables, after: Tables, event: EventRow, read: RunRow, now: Time)
    requires RunRecovered(c, db, before, event, read, now) && SameRunIn(before, after, event.aggregateId)
    requires read.id == event.aggregateId
    ensures RunRecovered(c, db, after, event, read, now)
  {
    hide RecoveryFailed, DueFrom, SameBut;
    if read.version != event.aggregateVersion {
      SameStays(db, before, after, event.aggregateId);
    } else if event.publishAttempts < c.maxAttempts {
      SameButStays(db, before, after, event.aggregateId, {event.id}, {});
    } else {
      var i :| IsRecordedStep(db, before, event, read, i, now);
      SameButStays(db, before, after, event.aggregateId, {}, {i});
      assert IsRecordedStep(db, after, event, read, i, now);
    }
  }

  lemma SameButStays(db: Tables, before: Tables, after: Tables, r: Uuid, events: set<Uuid>, steps: set<Uuid>)
    requires SameBut(db, before, r, events, steps) && SameRunIn(before, after, r)
    ensures SameBut(db, after, r, events, steps)
  {
  }

  lemma OthersStay(c: Config, before: Tables, after: Tables, event: EventRow, read: RunRow, i: Uuid, now: Time, r: Uuid)
    requires Reconciles(c, before, after, event, read, i, now) && r != event.aggregateId == read.id
    requires i !in before.steps && event.id in before.events && before.events[event.id] == event
    ensures SameRunIn(before, after, r)
  {
    hide RecoveryFailed, CanSave;
  }

  /** The one step of a pass that is about this run recovers it. */
  lemma OwnIsRecovered(c: Config, db: Tables, before: Tables, after: Tables, event: EventRow, read: RunRow, i: Uuid,
                       now: Time)
    requires Reconciles(c, before, after, event, read, i, now) && SameRunIn(db, before, event.aggregateId)
    requires read.id == event.aggregateId && read.id in db.runs && i !in db.steps && i !in before.steps
    requires event.id in before.events && before.events[event.id] == event
    requires Spent(c, event, read) ==> CanSave(before, read.id, read.version)
    ensures RunRecovered(c, db, after, event, read, now)
  {
    hide RecoveryFailed, CanSave;
    if Spent(c, event, read) {
      assert IsRecordedStep(db, after, event, read, i, now);
    }
  }

  lemma NothingChanges(db: Tables, r: Uuid)
    ensures SameRunIn(db, db, r)
  {
  }

  lemma SameStays(db: Tables, before: Tables, after: Tables, r: Uuid)
    requires SameRunIn(db, before, r) && SameRunIn(before, after, r)
    ensures SameRunIn(db, after, r)
  {
  }

  lemma AfterNothing(c: Config, s: System)
    ensures After(c, s, []) == s
  {
  }

  /** From a state that has left the run of `event` alone, its reconciliation is what the whole pass does to it. */
  lemma PassRecoversOne(c: Config, s: System, t: System, event: EventRow, joined: RunRow, read: RunRow, atWrite: Tables,
                        now: Time)
    requires Inv(c, s) && Inv(c, t) && s.seen <= t.seen && s.nextId <= t.nextId
    requires Meets(c, s, event, joined, read, atWrite, now) && SameRunIn(s.db, t.db, event.aggregateId)
    requires Spent(c, event, read) ==> CanSave(atWrite, read.id, read.version)
    ensures var after := Step(c, t, Reconcile(event.id, joined, read, false, now)).db;
            && RunRecovered(c, s.db, after, event, read, now)
            && forall r :: r != event.aggregateId ==> SameRunIn(t.db, after, r)
  {
    hide Inv, Step, Spent, CanSave, StaleDelivery, ReconcileEnabled, Reconciles, RunRecovered, SameRunIn;
    assert read.id in s.db.runs by { ReadIsPast(c, s, read); }
    EventIsThere(s.db, t.db, event);
    Enabled(c, t, event, joined, read, now);
    ReconcileEffect(c, t, event.id, joined, read, now);
    FreshId(c, s, t.nextId);
    FreshId(c, t, t.nextId);
    var after := Step(c, t, Reconcile(event.id, joined, read, false, now)).db;
    SaveStays(c, s.db, t.db, atWrite, event, read);
    OwnIsRecovered(c, s.db, t.db, after, event, read, t.nextId, now);
    forall r | r != event.aggregateId ensures SameRunIn(t.db, after, r) {
      OthersStay(c, t.db, after, event, read, t.nextId, now, r);
    }
  }

  lemma EventIsThere(db: Tables, after: Tables, event: EventRow)
    requires SameRunIn(db, after, event.aggregateId) && event.id in db.events && db.events[event.id] == event
    ensures event.id in after.events && after.events[event.id] == event
  {
  }

  lemma SaveStays(c: Config, db: Tables, later: Tables, atWrite: Tables, event: EventRow, read: RunRow)
    requires SameRunIn(db, later, read.id)
    requires Spent(c, event, read) ==>
               CanSave(atWrite, read.id, read.version)
               && read.id in db.runs && db.runs[read.id] == atWrite.runs[read.id]
    ensures Spent(c, event, read) ==> CanSave(later, read.id, read.version)
  {
  }

  lemma {:induction false} PassRecovers(c: Config, s: System, batch: seq<EventRow>, joined: nat -> RunRow,
                                        read: nat -> RunRow, meanwhile: nat -> Tables, now: Time)
    requires Inv(c, s) && PassMeets(c, s, batch, joined, read, meanwhile, now)
    requires !CollidesSomewhere(c, batch, read, meanwhile)
    ensures var after := After(c, s, ReconcileActions(batch, joined, read, now)).db;
            && (forall k {:trigger batch[k]} :: 0 <= k < |batch| ==>
                  RunRecovered(c, s.db, after, batch[k], read(k), now))
            && forall r :: (forall k :: 0 <= k < |batch| ==> batch[k].aggregateId != r) ==> SameRunIn(s.db, after, r)
  {
    hide Inv, Step, Meets, PassMeets, Collides, CollidesSomewhere, After, RunRecovered, SameRunIn, ReconcileActions;
    hide Locked, FindRun, DistinctEvents;
    if batch == [] {
      NoActions(batch, joined, read, now);
      AfterNothing(c, s);
      forall r ensures SameRunIn(s.db, s.db, r) { NothingChanges(s.db, r); }
    } else {
      var n, before := |batch| - 1, batch[..|batch| - 1];
      assert forall k :: 0 <= k < n ==> before[k] == batch[k];
      CollidesLater(c, batch, read, meanwhile);
      PassMeetsPrefix(c, s, batch, joined, read, meanwhile, now);
      PassRecovers(c, s, before, joined, read, meanwhile, now);
      PassMeetsOne(c, s, batch, joined, read, meanwhile, now, n);
      var earlier := ReconcileActions(before, joined, read, now);
      var t := After(c, s, earlier);
      AfterKeepsInv(c, s, earlier);
      LastReconcile(c, s, batch, joined, read, now);
      LastDoesNotCollide(c, s, batch, joined, read, meanwhile, now);
      PassRecoversOne(c, s, t, batch[n], joined(n), read(n), meanwhile(2 * n + 1), now);
      var after := After(c, s, ReconcileActions(batch, joined, read, now)).db;
      forall k | 0 <= k < |batch| ensures RunRecovered(c, s.db, after, batch[k], read(k), now) {
        if k < n {
          PassMeetsOne(c, s, batch, joined, read, meanwhile, now, k);
          ReadIsOfEvent(c, s, batch[k], joined(k), read(k), meanwhile(2 * k + 1), now);
          RecoveredStays(c, s.db, t.db, after, batch[k], read(k), now);
        }
      }
      forall r | forall k :: 0 <= k < |batch| ==> batch[k].aggregateId != r ensures SameRunIn(s.db, after, r) {
        SameStays(s.db, t.db, after, r);
      }
    }
  }

  lemma NoActions(batch: seq<EventRow>, joined: nat -> RunRow, read: nat -> RunRow, now: Time)
    requires batch == []
    ensures ReconcileActions(batch, joined, read, now) == []
  {
  }

  lemma ReadIsOfEvent(c: Config, s: System, event: EventRow, joined: RunRow, read: RunRow, atWrite: Tables, now: Time)
    requires Meets(c, s, event, joined, read, atWrite, now)
    ensures read.id == event.aggregateId
  {
    hide StaleDelivery;
  }

  lemma LastDoesNotCollide(c: Config, s: System, batch: seq<EventRow>, joined: nat -> RunRow, read: nat -> RunRow,
                           meanwhile: nat -> Tables, now: Time)
    requires batch != [] && !Collides(c, batch, read, meanwhile, |batch| - 1)
    ensures var n := |batch| - 1;
            Spent(c, batch[n], read(n)) ==> CanSave(meanwhile(2 * n + 1), read(n).id, read(n).version)
  {
  }

  // --- What a pass reports -------------------------------------------------------------------------

  function Reopening(c: Config, batch: seq<EventRow>, read: nat -> RunRow): (ks: set<nat>) {
    set k | 0 <= k < |batch| && read(k).version == batch[k].aggregateVersion && batch[k].publishAttempts < c.maxAttempts
  }

  function Failing(c: Config, batch: seq<EventRow>, read: nat -> RunRow): (ks: set<nat>) {
    set k |
      0 <= k < |batch| && read(k).version == batch[k].aggregateVersion && c.maxAttempts <= batch[k].publishAttempts
  }

  lemma OneMoreCounted(c: Config, batch: seq<EventRow>, read: nat -> RunRow)
    requires batch != []
    ensures var n, event := |batch| - 1, batch[|batch| - 1];
            var current := read(n).version == event.aggregateVersion;
            && |Reopening(c, batch, read)|
               == |Reopening(c, batch[..n], read)| + (if current && event.publishAttempts < c.maxAttempts then 1 else 0)
            && |Failing(c, batch, read)|
               == |Failing(c, batch[..n], read)| + (if current && c.maxAttempts <= event.publishAttempts then 1 else 0)
  {
    var n, event := |batch| - 1, batch[|batch| - 1];
    var current := read(n).version == event.aggregateVersion;
    assert forall k :: 0 <= k < n ==> batch[..n][k] == batch[k];
    assert Reopening(c, batch, read)
        == Reopening(c, batch[..n], read) + (if current && event.publishAttempts < c.maxAttempts then {n} else {});
    assert Failing(c, batch, read)
        == Failing(c, batch[..n], read) + (if current && c.maxAttempts <= event.publishAttempts then {n} else {});
  }

  lemma OutcomeOf(c: Config, db: Tables, event: EventRow, read: RunRow, now: Time, stepId: Uuid)
    requires event.id in db.events && db.events[event.id] == event
    requires ReconcileTx(db, event.id, Some(read), c.maxAttempts, now, stepId).1 != Aborted
    ensures ReconcileTx(db, event.id, Some(read), c.maxAttempts, now, stepId).1
         == if read.version != event.aggregateVersion then Skipped
            else if event.publishAttempts < c.maxAttempts then EventReopened else RunFailed
  {
  }

  /** A committed pass reports exactly how many events it reopened and how many runs it failed. */
  lemma {:induction false} PassCounts(c: Config, s: System, batch: seq<EventRow>, joined: nat -> RunRow,
                                      read: nat -> RunRow, meanwhile: nat -> Tables, now: Time)
    requires Inv(c, s) && PassMeets(c, s, batch, joined, read, meanwhile, now)
    requires Locked(batch, meanwhile, 2 * |batch|)
    ensures var pass := ReconcileAll(batch, meanwhile, c.maxAttempts, now, s.nextId);
            !pass.aborted ==>
              pass.reopened == |Reopening(c, batch, read)| && pass.failed == |Failing(c, batch, read)|
  {
    hide Inv, Step, ReconcileTx, Over, Meets, Carried, ReconcileAll, After, PassMeets, Locked, Within;
    hide CollidesSomewhere;
    hide Reopening, Failing, FindRun, DistinctEvents, DistinctRuns, ReconcileActions;
    if batch == [] {
      NothingCounted(c, s, batch, read, meanwhile, now);
    } else {
      var n := |batch| - 1;
      LockedPrefix(batch, meanwhile, 2 * |batch|, n, 2 * n);
      var event, before := batch[n], ReconcileAll(batch[..n], meanwhile, c.maxAttempts, now, s.nextId);
      assert batch[..n + 1] == batch;
      PassMeetsPrefix(c, s, batch, joined, read, meanwhile, now);
      PassPrefix(c, s, batch[..n], joined, read, meanwhile, now);
      PassCounts(c, s, batch[..n], joined, read, meanwhile, now);
      OneMoreCounted(c, batch, read);
      PassMeetsOne(c, s, batch, joined, read, meanwhile, now, n);
      PassStep(batch, n, meanwhile, c.maxAttempts, now, s.nextId);
      if before.aborted {
        AbortedPassStaysAborted(batch, n, meanwhile, c.maxAttempts, now, s.nextId);
      } else {
        CarriedFacts(s, batch, before, After(c, s, ReconcileActions(batch[..n], joined, read, now)));
        OverUnwritten(meanwhile(2 * n), before.own, event.id, event.aggregateId);
        OverUnwritten(meanwhile(2 * n + 1), before.own, event.id, event.aggregateId);
        var db := Over(meanwhile(2 * n + 1), before.own);
        if ReconcileTx(db, event.id, Some(read(n)), c.maxAttempts, now, before.nextId).1 != Aborted {
          OutcomeOf(c, db, event, read(n), now, before.nextId);
        }
      }
    }
  }

  lemma NothingCounted(c: Config, s: System, batch: seq<EventRow>, read: nat -> RunRow, meanwhile: nat -> Tables,
                       now: Time)
    requires batch == [] && Locked(batch, meanwhile, 0)
    ensures var pass := ReconcileAll(batch, meanwhile, c.maxAttempts, now, s.nextId);
            pass.reopened == |Reopening(c, batch, read)| && pass.failed == |Failing(c, batch, read)|
  {
    assert Reopening(c, batch, read) == {} && Failing(c, batch, read) == {};
  }

  /**
    A committed pass, over the tables it commits on: each run it selected is recovered by what was read of it,
    no other run is touched, and it reports how many it reopened and failed.
   */
  lemma PassEffect(c: Config, actions: seq<Action>, start: nat, cut: nat -> nat, meanwhile: nat -> Tables,
                   batch: seq<EventRow>, limit: nat, locked: set<Uuid>, now: Time)
    requires start <= |actions| && Overlaps(c, actions, start, cut, meanwhile, 2 * |batch|)
    requires var db := Exec(c, actions[..start]).db;
             IsBatch(db, StaleEvents(db, now, now - c.staleAfter) - locked, PublishedTime, batch, limit)
    requires Locked(batch, meanwhile, 2 * |batch|) && RunsLocked(c, batch, meanwhile)
    requires !ReconcileAll(batch, meanwhile, c.maxAttempts, now, Exec(c, actions).nextId).aborted
    ensures var pass := ReconcileAll(batch, meanwhile, c.maxAttempts, now, Exec(c, actions).nextId);
            var db, after := meanwhile(2 * |batch|), Over(meanwhile(2 * |batch|), pass.own);
            && (forall k {:trigger batch[k]} :: 0 <= k < |batch| ==>
                  RunRecovered(c, db, after, batch[k], RowsRead(batch, meanwhile)(k), now))
            && (forall r :: (forall k :: 0 <= k < |batch| ==> batch[k].aggregateId != r) ==> SameRunIn(db, after, r))
            && pass.reopened == |Reopening(c, batch, RowsRead(batch, meanwhile))|
            && pass.failed == |Failing(c, batch, RowsRead(batch, meanwhile))|
  {
    hide Reopening, Failing;
    hide Exec, Inv, IsBatch, Meets, ReconcileAll, Over, Within, RunsLocked, DistinctEvents, DistinctRuns, RowsRead;
    hide Overlaps, Locked, CollidesSomewhere, FindRun, ReconcileActions, RowsJoined, RunRecovered, SameRunIn;
    var s := Exec(c, actions);
    var joined, read := RowsJoined(batch, Exec(c, actions[..start]).db), RowsRead(batch, meanwhile);
    EveryExecutionKeepsInv(c, actions[..start]);
    EveryExecutionKeepsInv(c, actions);
    SelectionIsDistinct(c, Exec(c, actions[..start]), batch, limit, locked, now);
    forall k | 0 <= k < |batch|
      ensures FindRun(meanwhile(2 * k), batch[k].aggregateId) == Some(read(k))
      ensures Meets(c, s, batch[k], joined(k), read(k), meanwhile(2 * k + 1), now)
    {
      OverlapMeets(c, actions, start, cut, meanwhile, batch, limit, locked, now, k);
    }
    ReconcileBatchIsAnExecution(c, actions, start, cut, meanwhile, batch, limit, locked, now);
    PassRecovers(c, s, batch, joined, read, meanwhile, now);
    PassCounts(c, s, batch, joined, read, meanwhile, now);
    AfterIsExec(c, actions, ReconcileActions(batch, joined, read, now));
    LastPoint(c, actions, start, cut, meanwhile, 2 * |batch|);
  }

  /** A run whose current step had a live lease at the selection keeps its row, its steps and its events in a committed
      pass. */
  lemma PassSparesLiveSteps(c: Config, actions: seq<Action>, start: nat, cut: nat -> nat, meanwhile: nat -> Tables,
                            batch: seq<EventRow>, limit: nat, locked: set<Uuid>, now: Time, r: Uuid)
    requires start <= |actions| && Overlaps(c, actions, start, cut, meanwhile, 2 * |batch|)
    requires var db := Exec(c, actions[..start]).db;
             && IsBatch(db, StaleEvents(db, now, now - c.staleAfter) - locked, PublishedTime, batch, limit)
             && r in db.runs && HasLiveStep(db, r, db.runs[r].version, now)
    requires Locked(batch, meanwhile, 2 * |batch|) && RunsLocked(c, batch, meanwhile)
    ensures var pass := ReconcileAll(batch, meanwhile, c.maxAttempts, now, Exec(c, actions).nextId);
            !pass.aborted ==> SameRunIn(meanwhile(2 * |batch|), Over(meanwhile(2 * |batch|), pass.own), r)
  {
    hide Exec, Inv, IsBatch, ReconcileAll, RunsLocked, HasLiveStep, Over, SameRunIn, RunRecovered, Overlaps, Locked;
    EveryExecutionKeepsInv(c, actions[..start]);
    forall k | 0 <= k < |batch| ensures batch[k].aggregateId != r {
      SelectedEvent(c, Exec(c, actions[..start]), batch, limit, locked, now, k);
    }
    if !ReconcileAll(batch, meanwhile, c.maxAttempts, now, Exec(c, actions).nextId).aborted {
      PassEffect(c, actions, start, cut, meanwhile, batch, limit, locked, now);
    }
  }
}

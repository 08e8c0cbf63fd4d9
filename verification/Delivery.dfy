/** Creation, the outbox and recovery, over whole executions with stale reads. */
module Delivery {
  import opened Wrappers
  import opened Lifecycle
  import opened Store
  import opened Protocol
  import opened Invariance
  import opened Safety

  // --- Outbox conservation -------------------------------------------------------------------------

  /** How many versions of a run have an event: all of them, except the one it ended at. */
  function RequestedVersions(run: RunRow): nat
    requires 1 <= run.version
  {
    if Terminal(run.state) then run.version - 1 else run.version
  }

  lemma RequestFacts(c: Config, s: System, i: Uuid)
    requires Inv(c, s) && i in s.db.events
    ensures var event := s.db.events[i]; var r := event.aggregateId;
            && r in s.db.runs && 1 <= s.db.runs[r].version && r in s.outbox
            && 1 <= event.aggregateVersion <= |s.outbox[r]| == RequestedVersions(s.db.runs[r])
            && s.outbox[r][event.aggregateVersion - 1] == i
            && event.topic == ADVANCE_TOPIC && event.expectedVersion == event.aggregateVersion
            && Position(event.expectedState) == event.aggregateVersion - 1 < 11
  {
    hide Inv;
    EventFacts(c, s, i);
    RunFacts(c, s, s.db.events[i].aggregateId);
  }

  lemma OutboxFacts(c: Config, s: System, r: Uuid, version: nat)
    requires Inv(c, s) && r in s.outbox && 1 <= version <= |s.outbox[r]|
    ensures OutboxEntry(s.db, s.outbox[r][version - 1], r, version)
  {
    assert OutboxEntry(s.db, s.outbox[r][version - 1], r, version - 1 + 1);
  }

  /**
    A run at version n has exactly one event for each version 1..n, or 1..n-1 once it ended, and none
    for any other; the payload names that version and the state the path assigns to it.
   */
  lemma OneEventPerVersion(c: Config, actions: seq<Action>, r: Uuid, version: nat)
    requires r in Exec(c, actions).db.runs
    ensures var db := Exec(c, actions).db;
            && 1 <= db.runs[r].version
            && (1 <= version <= RequestedVersions(db.runs[r]) <==> exists i :: OutboxEntry(db, i, r, version))
            && (forall i, j :: OutboxEntry(db, i, r, version) && OutboxEntry(db, j, r, version) ==> i == j)
            && (forall i :: OutboxEntry(db, i, r, version) ==>
                  && db.events[i].expectedVersion == version && 1 <= version <= 11
                  && db.events[i].expectedState == MAIN_STATE_PATH[version - 1])
  {
    hide Inv, Exec;
    var s := Exec(c, actions);
    EveryExecutionKeepsInv(c, actions);
    RunFacts(c, s, r);
    if 1 <= version <= RequestedVersions(s.db.runs[r]) {
      OutboxFacts(c, s, r, version);
    }
    forall i | OutboxEntry(s.db, i, r, version)
      ensures 1 <= version <= RequestedVersions(s.db.runs[r]) && version <= 11 && s.outbox[r][version - 1] == i
      ensures s.db.events[i].expectedVersion == version && s.db.events[i].expectedState == MAIN_STATE_PATH[version - 1]
    {
      RequestFacts(c, s, i);
      PositionIsIndex(s.db.events[i].expectedState);
    }
  }

  /** The broker takes an event that is due. */
  predicate Receives(s: System, a: Action, i: Uuid) {
    && a.Dispatch? && a.eventId == i && a.accepted
    && i in s.db.events && Unpublished(s.db.events[i], a.now)
  }

  ghost predicate ReceivedAt(c: Config, actions: seq<Action>, k: nat, i: Uuid) {
    k < |actions| && Receives(Exec(c, actions[..k]), actions[k], i)
  }

  lemma SentByStep(c: Config, s: System, a: Action, i: Uuid)
    ensures i in Step(c, s, a).sent <==> i in s.sent || Receives(s, a, i)
  {
    hide CreateTx, CancelTx, ClaimTx, HeartbeatTx, FinalizeTx, FailTx, DispatchTx, ReconcileTx, Unpublished;
  }

  lemma ReceivedBefore(c: Config, actions: seq<Action>, k: nat, i: Uuid)
    requires k < |actions|
    ensures ReceivedAt(c, actions, k, i)
       <==> if k == |actions| - 1 then Receives(Exec(c, actions[..k]), actions[k], i)
            else ReceivedAt(c, actions[..|actions| - 1], k, i)
  {
    hide Exec, Receives;
    assert k < |actions| - 1 ==> actions[..|actions| - 1][..k] == actions[..k];
  }

  /** The broker holds an event exactly when it took it at some point, also if the commit that marks it was lost. */
  lemma {:induction false} SentIffReceived(c: Config, actions: seq<Action>, i: Uuid)
    ensures i in Exec(c, actions).sent <==> exists k: nat :: ReceivedAt(c, actions, k, i)
  {
    hide Step, Receives, ReceivedAt;
    if actions == [] {
      assert forall k: nat :: !ReceivedAt(c, actions, k, i) by { NothingIsReceived(c, i); }
    } else {
      var n := |actions| - 1;
      SentIffReceived(c, actions[..n], i);
      SentByStep(c, Exec(c, actions[..n]), actions[n], i);
      forall k: nat
        ensures ReceivedAt(c, actions, k, i)
           <==> ReceivedAt(c, actions[..n], k, i) || (k == n && Receives(Exec(c, actions[..n]), actions[n], i))
      {
        PointInside(c, actions, k, i);
        PointInside(c, actions[..n], k, i);
        if k < |actions| {
          ReceivedBefore(c, actions, k, i);
        }
      }
      if i in Exec(c, actions[..n]).sent {
        var k: nat :| ReceivedAt(c, actions[..n], k, i);
        assert ReceivedAt(c, actions, k, i);
      } else if i in Exec(c, actions).sent {
        assert ReceivedAt(c, actions, n, i);
      }
    }
  }

  lemma PointInside(c: Config, actions: seq<Action>, k: nat, i: Uuid)
    ensures ReceivedAt(c, actions, k, i) ==> k < |actions|
  {
  }

  lemma NothingIsReceived(c: Config, i: Uuid)
    ensures forall k: nat :: !ReceivedAt(c, [], k, i)
  {
  }

  ghost predicate PublishedAs(s: System, i: Uuid, at: Time) {
    i in s.db.events && s.db.events[i].publishedAt == Some(at)
  }

  /** Action `k` is the dispatch whose mark has been in force ever since. */
  ghost predicate MarkedAt(c: Config, actions: seq<Action>, k: nat, i: Uuid, at: Time) {
    && ReceivedAt(c, actions, k, i) && actions[k].commits && actions[k].now == at
    && forall m {:trigger actions[..m]} :: k < m <= |actions| ==> PublishedAs(Exec(c, actions[..m]), i, at)
  }

  /** An event is only ever marked by a committed dispatch that found it due and that the broker took. */
  lemma OnlyDispatchMarks(c: Config, s: System, a: Action, i: Uuid, at: Time)
    requires PublishedAs(Step(c, s, a), i, at) && !PublishedAs(s, i, at)
    ensures Receives(s, a, i) && a.commits && a.now == at
  {
    hide Transition, UpsertClaim, ClaimTx, ClaimTarget;
    if a.Claim? {
      ClaimIsUpsert(s.db, a.eventId, a.read, a.current, a.worker, a.now, c.lease, s.nextId, s.nextId + 1);
      if ClaimTarget(a.read).Some? {
        UpsertKeepsEvents(s.db, Candidate(a.read, ClaimTarget(a.read).value, a.worker, a.now, c.lease, s.nextId,
                                          s.nextId + 1));
      }
    }
  }

  lemma UpsertKeepsEvents(db: Tables, candidate: StepRow)
    ensures UpsertClaim(db, candidate).0.events == db.events
  {
  }

  /**
    Behind the publication in force is one dispatch, with the time it carries: the broker took the event at
    it while it was due, its commit was not lost, and the mark has stood ever since.
   */
  lemma {:induction false} PublishedWasSent(c: Config, actions: seq<Action>, i: Uuid, at: Time)
    requires PublishedAs(Exec(c, actions), i, at)
    ensures exists k: nat :: MarkedAt(c, actions, k, i, at)
  {
    hide Step, PublishedAs, Receives;
    if actions == [] {
      NothingIsPublished(i, at);
      assert false;
    } else {
      var n := |actions| - 1;
      var before, last := actions[..n], actions[n];
      assert actions[..n + 1] == actions;
      if PublishedAs(Exec(c, before), i, at) {
        PublishedWasSent(c, before, i, at);
        var k: nat :| MarkedAt(c, before, k, i, at);
        assert before[..n] == before;
        assert actions[..k] == before[..k];
        forall m | k < m <= |actions| ensures PublishedAs(Exec(c, actions[..m]), i, at) {
          assert m <= n ==> actions[..m] == before[..m];
        }
        assert MarkedAt(c, actions, k, i, at);
      } else {
        OnlyDispatchMarks(c, Exec(c, before), last, i, at);
        assert MarkedAt(c, actions, n, i, at);
      }
    }
  }

  lemma NothingIsPublished(i: Uuid, at: Time)
    ensures !PublishedAs(INITIAL, i, at)
  {
  }

  // --- Recovery ------------------------------------------------------------------------------------

  /** This action is a reconciliation that reopens event `i`. */
  predicate ReopensEvent(c: Config, s: System, a: Action, i: Uuid) {
    && a.Reconcile? && a.eventId == i
    && ReconcileEnabled(s, c, i, a.joined, a.read, a.activeStep, a.now)
    && ReconcileTx(s.db, i, Some(a.read), c.maxAttempts, a.now, s.nextId).1 == EventReopened
  }

  ghost function Reopenings(c: Config, actions: seq<Action>, i: Uuid): nat {
    if actions == [] then 0
    else
      var before, last := actions[..|actions| - 1], actions[|actions| - 1];
      Reopenings(c, before, i) + if ReopensEvent(c, Exec(c, before), last, i) then 1 else 0
  }

  lemma ReopensCount(c: Config, s: System, a: Action, i: Uuid)
    requires s.nextId !in s.reopens && s.nextId + 1 !in s.reopens
    ensures (if i in Step(c, s, a).reopens then Step(c, s, a).reopens[i] else 0)
         == (if i in s.reopens then s.reopens[i] else 0) + if ReopensEvent(c, s, a, i) then 1 else 0
  {
    hide CreateTx, CancelTx, ClaimTx, HeartbeatTx, FinalizeTx, FailTx, DispatchTx, ReconcileTx;
  }

  lemma {:induction false} ReopeningsAreCounted(c: Config, actions: seq<Action>, i: Uuid)
    ensures Reopenings(c, actions, i) == if i in Exec(c, actions).reopens then Exec(c, actions).reopens[i] else 0
  {
    hide Inv, Step;
    if actions == [] {
    } else {
      var before, last := actions[..|actions| - 1], actions[|actions| - 1];
      ReopeningsAreCounted(c, before, i);
      EveryExecutionKeepsInv(c, before);
      var s := Exec(c, before);
      FreshId(c, s, s.nextId);
      FreshId(c, s, s.nextId + 1);
      ReopenKeysAreEvents(c, s);
      ReopensCount(c, s, last, i);
    }
  }

  /** An event is reopened at most maxAttempts - 1 times, however often it is also woken by a cancellation. */
  lemma RecoveryIsBounded(c: Config, actions: seq<Action>, i: Uuid)
    ensures Reopenings(c, actions, i) <= (if c.maxAttempts == 0 then 0 else c.maxAttempts - 1)
  {
    hide Inv, Exec;
    ReopeningsAreCounted(c, actions, i);
    EveryExecutionKeepsInv(c, actions);
    ReopenKeysAreEvents(c, Exec(c, actions));
    if i in Exec(c, actions).reopens {
      EventFacts(c, Exec(c, actions), i);
    }
  }

  lemma {:induction false} LeasesEnd(steps: map<Uuid, StepRow>, ids: set<Uuid>) returns (end: Time)
    requires ids <= steps.Keys
    ensures forall i, now :: i in ids && end <= now ==> !LiveAt(steps[i], now)
    decreases |ids|
  {
    if ids == {} {
      end := 0;
    } else {
      var i :| i in ids;
      end := LeasesEnd(steps, ids - {i});
      if steps[i].leaseExpiresAt.Some? && end < steps[i].leaseExpiresAt.value {
        end := steps[i].leaseExpiresAt.value;
      }
    }
  }

  /** From some reading on, the dispatcher or the reconciler selects the event of the run's current version. */
  ghost predicate SelectedFrom(c: Config, db: Tables, i: Uuid, r: Uuid, from: Time)
    requires i in db.events && r in db.runs
  {
    forall now :: from <= now ==>
      || Unpublished(db.events[i], now)
      || StaleDelivery(db.events[i], db.runs[r], HasLiveStep(db, r, db.runs[r].version, now), now - c.staleAfter)
  }

  /** No run is lost: whatever happened, a run that has not ended has an event that will be picked up. */
  lemma NoRunIsLost(c: Config, actions: seq<Action>, r: Uuid)
    requires r in Exec(c, actions).db.runs && !Terminal(Exec(c, actions).db.runs[r].state)
    ensures var db := Exec(c, actions).db;
            exists i, from :: OutboxEntry(db, i, r, db.runs[r].version) && SelectedFrom(c, db, i, r, from)
  {
    hide Inv, Exec;
    var s := Exec(c, actions);
    EveryExecutionKeepsInv(c, actions);
    RunFacts(c, s, r);
    var version := s.db.runs[r].version;
    OutboxFacts(c, s, r, version);
    var i := s.outbox[r][version - 1];
    var event := s.db.events[i];
    var end := LeasesEnd(s.db.steps, s.db.steps.Keys);
    var due := if event.publishedAt.Some? then event.publishedAt.value + c.staleAfter else event.availableAt;
    var from := if end < due then due else end;
    forall now | from <= now ensures !HasLiveStep(s.db, r, version, now) {
    }
    assert SelectedFrom(c, s.db, i, r, from);
  }

  /** A stale event is reopened while its budget lasts, and then the run fails, once and for all. */
  lemma StaleEventIsRecovered(c: Config, actions: seq<Action>, eventId: Uuid, now: Time)
    requires eventId in Exec(c, actions).db.events
    requires var s := Exec(c, actions); var event := s.db.events[eventId];
             && event.aggregateId in s.db.runs
             && StaleDelivery(event, s.db.runs[event.aggregateId],
                              HasLiveStep(s.db, event.aggregateId, event.aggregateVersion, now), now - c.staleAfter)
    ensures var s := Exec(c, actions); var event := s.db.events[eventId]; var run := s.db.runs[event.aggregateId];
            var t := Step(c, s, Reconcile(eventId, run, run, false, now));
            if event.publishAttempts < c.maxAttempts then
              t.db == s.db.(events := s.db.events[eventId := event.(publishedAt := None, availableAt := now,
                                                                     lastError := Some("RECOVERED_STALE_DELIVERY"))])
            else
              && event.aggregateId in t.db.runs
              && t.db.runs[event.aggregateId].state == Failed && t.db.runs[event.aggregateId].version == run.version + 1
              && t.db.events == s.db.events
              && exists i :: Finishes(t.db, i, event.aggregateId, t.db.runs[event.aggregateId].version)
  {
    hide Inv, Exec, HasLiveStep;
    var s := Exec(c, actions);
    EveryExecutionKeepsInv(c, actions);
    EventFacts(c, s, eventId);
    var run := s.db.runs[s.db.events[eventId].aggregateId];
    RunFacts(c, s, s.db.events[eventId].aggregateId);
    ReopenKeysAreEvents(c, s);
    var t := Step(c, s, Reconcile(eventId, run, run, false, now));
    if c.maxAttempts <= s.db.events[eventId].publishAttempts {
      assert Finishes(t.db, s.nextId, run.id, run.version + 1);
    }
  }

  // --- Idempotent creation -------------------------------------------------------------------------

  /** A key binds one run for ever: repeating the request returns that run, another request conflicts, nothing is
      written. */
  lemma ReplayedCreate(c: Config, actions: seq<Action>, k: nat, r: Uuid, fingerprint: string, now: Time)
    requires k <= |actions| && r in Exec(c, actions[..k]).db.runs
    ensures var first, s := Exec(c, actions[..k]).db.runs[r], Exec(c, actions);
            var key := first.idempotencyKey;
            && r in s.db.runs
            && CreateTx(s.db, key, fingerprint, now, s.nextId, s.nextId + 1)
                 == (s.db, if first.fingerprint == fingerprint then Ok(s.db.runs[r]) else Err(IdempotencyConflict(key)))
            && Step(c, s, Create(key, fingerprint, now)) == s
            && (forall q :: q in s.db.runs && s.db.runs[q].idempotencyKey == key ==> q == r)
  {
    hide Exec, Inv, Step;
    RunsOnlyGrow(c, actions, k, r);
    EveryExecutionKeepsInv(c, actions);
    RequestKeysAreUnique(c, Exec(c, actions));
    ReplayChangesNothing(c, Exec(c, actions), r, fingerprint, now);
  }

  lemma RequestKeysAreUnique(c: Config, s: System)
    requires Inv(c, s)
    ensures RequestKeysUnique(s.db)
  {
  }

  lemma ReplayChangesNothing(c: Config, s: System, r: Uuid, fingerprint: string, now: Time)
    requires RequestKeysUnique(s.db) && r in s.db.runs
    ensures var run := s.db.runs[r];
            && CreateTx(s.db, run.idempotencyKey, fingerprint, now, s.nextId, s.nextId + 1)
                 == (s.db, if run.fingerprint == fingerprint then Ok(run)
                           else Err(IdempotencyConflict(run.idempotencyKey)))
            && Step(c, s, Create(run.idempotencyKey, fingerprint, now)) == s
            && forall q :: q in s.db.runs && s.db.runs[q].idempotencyKey == run.idempotencyKey ==> q == r
  {
    assert RequestKeyTaken(s.db, s.db.runs[r].idempotencyKey);
  }

  /** A new key adds one queued run at version 1 and one due event that asks for its first advance. */
  lemma FirstCreate(c: Config, actions: seq<Action>, key: string, fingerprint: string, now: Time)
    requires forall r :: r in Exec(c, actions).db.runs ==> Exec(c, actions).db.runs[r].idempotencyKey != key
    ensures var s := Exec(c, actions); var t := Step(c, s, Create(key, fingerprint, now));
            var answer := CreateTx(s.db, key, fingerprint, now, s.nextId, s.nextId + 1).1;
            && answer.Ok?
            && var r, i := answer.value.id, s.nextId + 1;
               && r !in s.db.runs && i !in s.db.events
               && answer.value == RunRow(r, key, fingerprint, Queued, 1, None, None, None, now, now, None)
               && t.db.runs == s.db.runs[r := answer.value] && t.db.steps == s.db.steps
               && t.db.events == s.db.events[i := EventRow(i, r, 1, "run.advance.requested.v1", Queued, 1, now, now,
                                                            None, 0, None)]
  {
    hide Inv, Exec;
    var s := Exec(c, actions);
    EveryExecutionKeepsInv(c, actions);
    FreshId(c, s, s.nextId);
    FreshId(c, s, s.nextId + 1);
  }
}

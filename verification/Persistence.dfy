/**
  The transaction boundary and the repositories behind it. A transaction sees the committed tables under
  its own rows; a commit puts its rows into the tables, and leaving without one throws them away.
 */
module Persistence {
  import opened Wrappers
  import opened Lifecycle
  import opened Store

  /** Primary and unique keys, as the schema enforces them. */
  ghost predicate Consistent(db: Tables) {
    && (forall r :: r in db.runs ==> db.runs[r].id == r)
    && (forall i :: i in db.steps ==> db.steps[i].id == i)
    && (forall i :: i in db.events ==> db.events[i].id == i)
    && KeysUnique(db.steps) && RequestKeysUnique(db)
  }

  /** Delivery order: the earlier time first, ties by identifier. */
  predicate Before(t: Time, i: Uuid, u: Time, j: Uuid) {
    t < u || (t == u && i <= j)
  }

  lemma {:induction false} LastStarted(steps: map<Uuid, StepRow>, ids: set<Uuid>)
    requires ids != {} && ids <= steps.Keys
    ensures exists i :: i in ids && forall j :: j in ids ==> Before(steps[j].startedAt, j, steps[i].startedAt, i)
  {
    var k :| k in ids;
    if ids == {k} {
    } else {
      LastStarted(steps, ids - {k});
      var i :| i in ids - {k}
        && forall j :: j in ids - {k} ==> Before(steps[j].startedAt, j, steps[i].startedAt, i);
      var last := if Before(steps[i].startedAt, i, steps[k].startedAt, k) then k else i;
      assert forall j :: j in ids ==> Before(steps[j].startedAt, j, steps[last].startedAt, last);
    }
  }

  /** Every run has a current step, or no RUNNING one. */
  lemma CurrentStepExists(db: Tables, runId: Uuid)
    requires Consistent(db)
    ensures exists current :: IsCurrentStep(db, runId, current)
  {
    hide Consistent;
    var running := set i | i in db.steps && db.steps[i].runId == runId && db.steps[i].status == Running;
    if running == {} {
      assert forall i :: i in db.steps && db.steps[i].runId == runId && db.steps[i].status == Running ==> i in running;
      assert IsCurrentStep(db, runId, None);
    } else {
      LastStarted(db.steps, running);
      var i :| i in running
        && forall j :: j in running ==> Before(db.steps[j].startedAt, j, db.steps[i].startedAt, i);
      assert db.steps[i].id == i by { StepIdIsKey(db, i); }
      assert IsCurrentStep(db, runId, Some(db.steps[i]));
    }
  }

  lemma StepIdIsKey(db: Tables, i: Uuid)
    requires Consistent(db) && i in db.steps
    ensures db.steps[i].id == i
  {
  }

  ghost predicate Taken(batch: seq<EventRow>, i: Uuid) {
    exists k :: 0 <= k < |batch| && batch[k].id == i
  }

  lemma TakenAfter(batch: seq<EventRow>, event: EventRow, i: Uuid)
    ensures Taken(batch + [event], i) <==> Taken(batch, i) || event.id == i
  {
    if Taken(batch, i) {
      var k :| 0 <= k < |batch| && batch[k].id == i;
      assert (batch + [event])[k].id == i;
    }
    assert (batch + [event])[|batch|] == event;
  }

  /** The first `limit` rows among those selected, each once, in delivery order of `at`. */
  ghost predicate IsBatch(db: Tables, selected: set<Uuid>, at: EventRow -> Time, batch: seq<EventRow>, limit: nat) {
    && |batch| <= limit
    && (forall k :: 0 <= k < |batch|
                    ==> batch[k].id in selected && batch[k].id in db.events && db.events[batch[k].id] == batch[k])
    && (forall k, l :: 0 <= k < l < |batch|
                       ==> batch[k].id != batch[l].id && Before(at(batch[k]), batch[k].id, at(batch[l]), batch[l].id))
    && (forall i, k :: i in selected && i in db.events && !Taken(batch, i) && 0 <= k < |batch| ==>
          Before(at(batch[k]), batch[k].id, at(db.events[i]), i))
    && (|batch| < limit ==> forall i :: i in selected && i in db.events ==> Taken(batch, i))
  }

  /** A batch that has been filled from `selected` down to `rest`, the earliest first. */
  ghost predicate BatchSoFar(db: Tables, selected: set<Uuid>, at: EventRow -> Time, batch: seq<EventRow>,
                             rest: set<Uuid>) {
    && Consistent(db) && rest <= selected <= db.events.Keys
    && (forall k :: 0 <= k < |batch| ==>
          batch[k].id in selected - rest && batch[k].id in db.events && db.events[batch[k].id] == batch[k])
    && (forall i :: i in selected - rest ==> Taken(batch, i))
    && (forall k, l :: 0 <= k < l < |batch| ==>
          batch[k].id != batch[l].id && Before(at(batch[k]), batch[k].id, at(batch[l]), batch[l].id))
    && (forall k, i :: 0 <= k < |batch| && i in rest ==> Before(at(batch[k]), batch[k].id, at(db.events[i]), i))
  }

  lemma BatchStarts(db: Tables, selected: set<Uuid>, at: EventRow -> Time)
    requires Consistent(db) && selected <= db.events.Keys
    ensures BatchSoFar(db, selected, at, [], selected)
  {
    hide Consistent;
  }

  lemma BatchGrows(db: Tables, selected: set<Uuid>, at: EventRow -> Time, batch: seq<EventRow>, rest: set<Uuid>,
                   first: Uuid)
    requires BatchSoFar(db, selected, at, batch, rest) && first in rest
    requires forall i :: i in rest ==> Before(at(db.events[first]), first, at(db.events[i]), i)
    ensures BatchSoFar(db, selected, at, batch + [db.events[first]], rest - {first})
  {
    hide Taken, Before, KeysUnique, RequestKeysUnique;
    forall i | i in selected - (rest - {first}) ensures Taken(batch + [db.events[first]], i) {
      TakenAfter(batch, db.events[first], i);
    }
  }

  lemma BatchEnds(db: Tables, selected: set<Uuid>, at: EventRow -> Time, batch: seq<EventRow>, rest: set<Uuid>,
                  limit: nat)
    requires BatchSoFar(db, selected, at, batch, rest) && |batch| <= limit && (|batch| < limit ==> rest == {})
    ensures IsBatch(db, selected, at, batch, limit)
  {
    hide Before, Consistent;
  }

  lemma BatchEntry(db: Tables, selected: set<Uuid>, at: EventRow -> Time, batch: seq<EventRow>, limit: nat, k: nat)
    requires IsBatch(db, selected, at, batch, limit) && k < |batch|
    ensures batch[k].id in selected && batch[k].id in db.events && db.events[batch[k].id] == batch[k]
    ensures forall l :: 0 <= l < |batch| && l != k ==> batch[l].id != batch[k].id
  {
  }

  /** The tables as a transaction sees them: what is committed, under the rows it has written itself. */
  function Over(db: Tables, own: Tables): Tables {
    Tables(db.runs + own.runs, db.steps + own.steps, db.events + own.events)
  }

  class UnitOfWork {
    var committed: Tables
    var own: Tables

    function Session(): (db: Tables)
      reads this
    {
      Over(committed, own)
    }

    constructor ()
      ensures committed == own == EMPTY
    {
      committed, own := EMPTY, EMPTY;
    }

    method Begin()
      modifies this`own
      ensures own == EMPTY && Session() == committed
    {
      own := EMPTY;
    }

    method Commit()
      modifies this
      ensures committed == old(Session()) && own == EMPTY
    {
      committed, own := Session(), EMPTY;
    }

    /**
      Other transactions commit while this one is open. Each statement sees what is committed when it
      starts, so what this transaction reads and guards afterwards is evaluated on top of theirs.
     */
    method Interleave(meanwhile: Tables)
      modifies this`committed
      ensures committed == meanwhile && (own == EMPTY ==> Session() == meanwhile)
    {
      committed := meanwhile;
    }

    /** Leaving the block without a commit: the others' commits stay, this transaction's rows go. */
    method Rollback()
      modifies this`own
      ensures own == EMPTY && Session() == committed
    {
      own := EMPTY;
    }

    method PutRun(id: Uuid, row: RunRow)
      modifies this`own
      ensures own == old(own).(runs := old(own).runs[id := row])
      ensures Session() == old(Session()).(runs := old(Session()).runs[id := row])
    {
      own := own.(runs := own.runs[id := row]);
      assert committed.runs + own.runs == old(Session()).runs[id := row];
    }

    method PutStep(id: Uuid, row: StepRow)
      modifies this`own
      ensures own == old(own).(steps := old(own).steps[id := row])
      ensures Session() == old(Session()).(steps := old(Session()).steps[id := row])
    {
      own := own.(steps := own.steps[id := row]);
      assert committed.steps + own.steps == old(Session()).steps[id := row];
    }

    method PutEvent(id: Uuid, row: EventRow)
      modifies this`own
      ensures own == old(own).(events := old(own).events[id := row])
      ensures Session() == old(Session()).(events := old(Session()).events[id := row])
    {
      own := own.(events := own.events[id := row]);
      assert committed.events + own.events == old(Session()).events[id := row];
    }

    // --- Runs ---

    method GetRunByKey(key: string) returns (run: Option<RunRow>)
      requires Consistent(Session())
      ensures run == if RequestKeyTaken(Session(), key) then Some(Session().runs[RequestKeyHolder(Session(), key)])
                     else None
    {
      var db := Session();
      if r :| r in db.runs && db.runs[r].idempotencyKey == key {
        return Some(db.runs[r]);
      }
      return None;
    }

    method AddRunIfKeyAbsent(run: RunRow) returns (inserted: bool)
      requires Consistent(Session())
      modifies this`own
      ensures inserted == !RequestKeyTaken(old(Session()), run.idempotencyKey)
      ensures Session() == if inserted then old(Session()).(runs := old(Session()).runs[run.id := run])
                           else old(Session())
    {
      var db := Session();
      if exists r :: r in db.runs && db.runs[r].idempotencyKey == run.idempotencyKey {
        return false;
      }
      PutRun(run.id, run);
      return true;
    }

    method SaveRun(run: RunRow, expectedVersion: nat) returns (saved: bool)
      modifies this`own
      ensures saved == CanSave(old(Session()), run.id, expectedVersion)
      ensures Session() == if saved then
                             old(Session()).(runs :=
                               old(Session()).runs[run.id := Saved(old(Session()).runs[run.id], run)])
                           else old(Session())
      ensures own == if saved then
                       old(own).(runs := old(own).runs[run.id := Saved(old(Session()).runs[run.id], run)])
                     else old(own)
    {
      var db := Session();
      if run.id !in db.runs || db.runs[run.id].version != expectedVersion {
        return false;
      }
      PutRun(run.id, Saved(db.runs[run.id], run));
      return true;
    }

    // --- Steps ---

    method GetCurrentStep(runId: Uuid) returns (current: Option<StepRow>)
      requires Consistent(Session())
      ensures IsCurrentStep(Session(), runId, current)
    {
      hide Over, KeysUnique, RequestKeysUnique;
      var steps := Session().steps;
      current := None;
      var running := set i | i in steps && steps[i].runId == runId && steps[i].status == Running;
      var rest := running;
      while rest != {}
        invariant rest <= running
        invariant current == None ==> rest == running
        invariant current.Some? ==>
          && current.value.id in running - rest && steps[current.value.id] == current.value
          && forall i :: i in running - rest ==>
               Before(steps[i].startedAt, i, current.value.startedAt, current.value.id)
      {
        var i :| i in rest;
        if current == None || Before(current.value.startedAt, current.value.id, steps[i].startedAt, i) {
          current := Some(steps[i]);
        }
        rest := rest - {i};
      }
      if current == None {
        assert forall i :: i in steps && steps[i].runId == runId && steps[i].status == Running ==> i in running;
      }
    }

    /** Insert, or take over the conflicting row when its lease has run out. */
    method ClaimStep(candidate: StepRow) returns (claim: Option<StepRow>)
      requires Consistent(Session())
      modifies this`own
      ensures (Session(), claim) == UpsertClaim(old(Session()), candidate)
    {
      hide RequestKeysUnique;
      var steps := Session().steps;
      if i :| i in steps && steps[i].runId == candidate.runId && steps[i].key == candidate.key {
        assert i == KeyHolder(steps, candidate.runId, candidate.key);
        var row := steps[i];
        if row.status != Running || (row.leaseExpiresAt.Some? && candidate.startedAt < row.leaseExpiresAt.value) {
          return None;
        }
        row := row.(attempt := row.attempt + 1, workerId := candidate.workerId, token := candidate.token,
                    heartbeatAt := candidate.heartbeatAt, leaseExpiresAt := candidate.leaseExpiresAt);
        PutStep(i, row);
        return Some(row);
      }
      PutStep(candidate.id, candidate);
      return Some(candidate);
    }

    /** The guard of every conditional update of a step. */
    predicate Owns(id: Uuid, token: Uuid)
      reads this
    {
      id in Session().steps && Session().steps[id].token == Some(token) && Session().steps[id].status == Running
    }

    method HeartbeatStep(id: Uuid, token: Uuid, heartbeatAt: Time, leaseExpiresAt: Time) returns (renewed: bool)
      modifies this`own
      ensures renewed == old(Owns(id, token))
      ensures Session() == if renewed then
                             old(Session()).(steps := old(Session()).steps[id := old(Session()).steps[id].(
                               heartbeatAt := Some(heartbeatAt), leaseExpiresAt := Some(leaseExpiresAt))])
                           else old(Session())
    {
      renewed := Owns(id, token);
      if renewed {
        PutStep(id, Session().steps[id].(heartbeatAt := Some(heartbeatAt), leaseExpiresAt := Some(leaseExpiresAt)));
      }
    }

    method CompleteStep(id: Uuid, token: Uuid, resultingVersion: nat, finishedAt: Time,
                        finalState: RunState) returns (done: bool)
      modifies this`own
      ensures done == old(Owns(id, token))
      ensures Session() == if done then
                             old(Session()).(steps := old(Session()).steps[id :=
                               CompletedStep(old(Session()).steps[id], finalState, resultingVersion, finishedAt)])
                           else old(Session())
    {
      done := Owns(id, token);
      if done {
        var status := if finalState == Cancelled then StepCancelled else Succeeded;
        PutStep(id, Session().steps[id].(
          status := status, toState := finalState, resultingVersion := Some(resultingVersion),
          finishedAt := Some(finishedAt), leaseExpiresAt := None));
      }
    }

    method FailStep(id: Uuid, token: Uuid, resultingVersion: nat, finishedAt: Time, code: string, detail: string)
      returns (done: bool)
      modifies this`own
      ensures done == old(Owns(id, token))
      ensures Session() == if done then
                             old(Session()).(steps := old(Session()).steps[id :=
                               FailedStep(old(Session()).steps[id], resultingVersion, finishedAt, code, detail)])
                           else old(Session())
    {
      done := Owns(id, token);
      if done {
        PutStep(id, Session().steps[id].(
          status := StepFailed, toState := Failed, resultingVersion := Some(resultingVersion),
          finishedAt := Some(finishedAt), leaseExpiresAt := None,
          errorCode := Some(code), errorDetail := Some(detail)));
      }
    }

    // --- Outbox ---

    /** Repeatedly takes the earliest selected row that is left. */
    method TakeBatch(selected: set<Uuid>, at: EventRow -> Time, limit: nat) returns (batch: seq<EventRow>)
      requires Consistent(Session()) && selected <= Session().events.Keys
      ensures IsBatch(Session(), selected, at, batch, limit)
    {
      hide IsBatch, Consistent, Over, BatchSoFar;
      var db := Session();
      batch := [];
      var rest := selected;
      assert BatchSoFar(db, selected, at, batch, rest) by { BatchStarts(db, selected, at); }
      while |batch| < limit && rest != {}
        invariant |batch| <= limit && rest <= selected && BatchSoFar(db, selected, at, batch, rest)
        decreases |rest|
      {
        var i := Earliest(db.events, rest, at);
        BatchGrows(db, selected, at, batch, rest, i);
        batch, rest := batch + [db.events[i]], rest - {i};
      }
      BatchEnds(db, selected, at, batch, rest, limit);
    }

    static method Earliest(events: map<Uuid, EventRow>, candidates: set<Uuid>, at: EventRow -> Time)
      returns (first: Uuid)
      requires candidates != {} && candidates <= events.Keys
      ensures first in candidates
      ensures forall i :: i in candidates ==> Before(at(events[first]), first, at(events[i]), i)
    {
      first :| first in candidates;
      var rest := candidates - {first};
      while rest != {}
        invariant first in candidates - rest && rest <= candidates
        invariant forall i :: i in candidates - rest ==> Before(at(events[first]), first, at(events[i]), i)
      {
        var i :| i in rest;
        if !Before(at(events[first]), first, at(events[i]), i) {
          first := i;
        }
        rest := rest - {i};
      }
    }

    /** Rows that another transaction has locked are skipped. */
    method LockUnpublished(now: Time, limit: nat, locked: set<Uuid>) returns (batch: seq<EventRow>)
      requires Consistent(Session())
      ensures IsBatch(Session(), UnpublishedEvents(Session(), now) - locked, CreatedTime, batch, limit)
    {
      var events := Session().events;
      var due := set i | i in events && Unpublished(events[i], now) && i !in locked;
      assert due == UnpublishedEvents(Session(), now) - locked;
      batch := TakeBatch(due, CreatedTime, limit);
    }

    method MarkPublished(id: Uuid, at: Time) returns (marked: bool)
      modifies this`own
      ensures marked == (id in old(Session()).events && old(Session()).events[id].publishedAt == None)
      ensures own == if marked then
                       old(own).(events := old(own).events[id := Published(old(Session()).events[id], at)])
                     else old(own)
    {
      var events := Session().events;
      marked := id in events && events[id].publishedAt == None;
      if marked {
        var event := events[id];
        PutEvent(id, event.(publishedAt := Some(at), publishAttempts := event.publishAttempts + 1, lastError := None));
      }
    }

    method MarkFailed(id: Uuid, error: string, availableAt: Time) returns (marked: bool)
      modifies this`own
      ensures marked == (id in old(Session()).events && old(Session()).events[id].publishedAt == None)
      ensures own == if marked then
                       old(own).(events :=
                         old(own).events[id := Postponed(old(Session()).events[id], error, availableAt)])
                     else old(own)
    {
      var events := Session().events;
      marked := id in events && events[id].publishedAt == None;
      if marked {
        var event := events[id];
        PutEvent(id, event.(availableAt := availableAt, publishAttempts := event.publishAttempts + 1,
                            lastError := Some(error)));
      }
    }

    /** Rows that another transaction has locked are skipped. */
    method LockStaleDeliveries(now: Time, staleBefore: Time, limit: nat, locked: set<Uuid>)
      returns (batch: seq<EventRow>)
      requires Consistent(Session())
      ensures IsBatch(Session(), StaleEvents(Session(), now, staleBefore) - locked, PublishedTime, batch, limit)
    {
      hide IsBatch, Consistent;
      var db := Session();
      var stale := set i | i in db.events && db.events[i].aggregateId in db.runs && i !in locked
        && StaleDelivery(db.events[i], db.runs[db.events[i].aggregateId],
             exists j :: j in db.steps && db.steps[j].runId == db.events[i].aggregateId
               && db.steps[j].expectedVersion == db.events[i].aggregateVersion
               && db.steps[j].status == Running && LiveAt(db.steps[j], now),
             staleBefore);
      assert stale == StaleEvents(db, now, staleBefore) - locked;
      batch := TakeBatch(stale, PublishedTime, limit);
    }

    method ReopenEvent(id: Uuid, at: Time) returns (reopened: bool)
      modifies this`own
      ensures reopened == (id in old(Session()).events)
      ensures own == if reopened then
                       old(own).(events := old(own).events[id := Reopened(old(Session()).events[id], at)])
                     else old(own)
    {
      reopened := id in Session().events;
      if reopened {
        PutEvent(id, Reopened(Session().events[id], at));
      }
    }

    /** The rows of the event of this version, however many there are; `woken` is the test for exactly one. */
    method WakeCurrentEvent(runId: Uuid, version: nat, at: Time) returns (woken: bool)
      modifies this`own
      ensures Session() == old(Session()).(events := WakeCurrent(old(Session()).events, runId, version, at))
      ensures woken <==> exists i :: WokenRows(old(Session()).events, runId, version) == {i}
    {
      hide IsRequest;
      var events := Session().events;
      var rows := set i | i in events && IsRequest(events[i], runId, version);
      var woke := map i | i in rows :: Woken(events[i], runId, version, at);
      own := own.(events := own.events + woke);
      assert committed.events + own.events == WakeCurrent(events, runId, version, at);
      woken := |rows| == 1;
      if woken {
        OneElement(rows);
      }
    }
  }

  function WokenRows(events: map<Uuid, EventRow>, runId: Uuid, version: nat): (rows: set<Uuid>) {
    set i | i in events && IsRequest(events[i], runId, version)
  }

  lemma OneElement(s: set<Uuid>)
    requires |s| == 1
    ensures exists i :: s == {i}
  {
    var i :| i in s;
    assert |s - {i}| == 0;
    assert s == {i};
  }

  function CreatedTime(event: EventRow): Time {
    event.createdAt
  }

  ghost function UnpublishedEvents(db: Tables, now: Time): set<Uuid> {
    set i | i in db.events && Unpublished(db.events[i], now)
  }

  function PublishedTime(event: EventRow): Time {
    if event.publishedAt.Some? then event.publishedAt.value else 0
  }

  ghost function StaleEvents(db: Tables, now: Time, staleBefore: Time): set<Uuid> {
    set i | i in db.events && db.events[i].aggregateId in db.runs
      && StaleDelivery(db.events[i], db.runs[db.events[i].aggregateId],
           HasLiveStep(db, db.events[i].aggregateId, db.events[i].aggregateVersion, now), staleBefore)
  }
}

/** A reconciliation pass that is lost: an execution for every configuration in which it has to abort. */
module LostPasses {
  import opened Lifecycle
  import opened Store
  import opened Protocol
  import opened Persistence
  import opened Services
  import opened Refinement
  import opened StaleReads

  /** A run is claimed, and the event of its first version is delivered after its budget was spent. */
  function BeforePass(c: Config): (actions: seq<Action>) {
    OPENING[..2] + SpentDelivery(c.maxAttempts)
  }

  /** The worker whose lease expired comes back and finishes its step. */
  function Returns(c: Config): (a: Action) {
    Finalize(FirstClaim(c), RUN, 3)
  }

  /** The pass selects before the worker returns, reads the run before, and writes after. */
  function CutBetween(c: Config): (cut: nat -> nat) {
    (p: nat) => if p == 0 then |BeforePass(c)| else |BeforePass(c)| + 1
  }

  ghost function Overlapping(c: Config): (meanwhile: nat -> Tables) {
    (p: nat) => if p == 0 then Exec(c, BeforePass(c)).db else Exec(c, BeforePass(c) + [Returns(c)]).db
  }

  lemma DeliveredBefore(c: Config)
    ensures IsDelivered(c, Exec(c, BeforePass(c)), RUN)
  {
    hide Exec, Step;
    var a0, a1 := OPENING[0], OPENING[1];
    NothingExecuted(c);
    ExecSnoc(c, [], a0);
    ExecSnoc(c, [a0], a1);
    assert [] + [a0] == [a0] && [a0] + [a1] == OPENING[..2];
    CreatedAlone(c);
    ClaimedAlone(c, Exec(c, [a0]));
    Delivered(c, OPENING[..2], RUN);
  }

  lemma ReturnedAfter(c: Config, s: System)
    requires IsDelivered(c, s, RUN)
    ensures var t := Step(c, s, Returns(c));
            && 0 in t.db.runs && t.db.runs[0].version == 2 && 1 in t.db.events && t.db.events[1] == s.db.events[1]
  {
    hide DoCreate, DoCancel, DoClaim, DoHeartbeat, DoFail, DoDispatch, DoReconcile;
  }

  /** The selection of the pass is that event alone. */
  lemma SelectsTheEvent(c: Config, s: System, limit: nat, now: Time)
    requires IsDelivered(c, s, RUN) && 1 <= limit && c.lease <= now && 2 + c.staleAfter <= now
    ensures IsBatch(s.db, StaleEvents(s.db, now, now - c.staleAfter) - {}, PublishedTime, [s.db.events[1]], limit)
  {
    assert !HasLiveStep(s.db, 0, 1, now);
    assert StaleEvents(s.db, now, now - c.staleAfter) == {1};
    assert Taken([s.db.events[1]], 1) by { assert [s.db.events[1]][0].id == 1; }
  }

  /**
    Whatever the budget, the lease and the staleness bound: a pass that selects a spent delivery late
    enough, reads its run, and writes once the worker has returned, is lost. None of its locks forbids it.
   */
  lemma PassIsLost(c: Config, limit: nat, now: Time)
    requires 1 <= limit && c.lease <= now && 2 + c.staleAfter <= now
    ensures var start, actions := |BeforePass(c)|, BeforePass(c) + [Returns(c)];
            var cut, meanwhile, db := CutBetween(c), Overlapping(c), Exec(c, BeforePass(c)).db;
            && 1 in db.events
            && var batch := [db.events[1]];
               && Overlaps(c, actions, start, cut, meanwhile, 2 * |batch|)
               && IsBatch(db, StaleEvents(db, now, now - c.staleAfter) - {}, PublishedTime, batch, limit)
               && Locked(batch, meanwhile, 2 * |batch|) && RunsLocked(c, batch, meanwhile)
               && ReconcileAll(batch, meanwhile, c.maxAttempts, now, Exec(c, actions).nextId).aborted
  {
    hide Exec, Step, IsBatch, BeforePass, Returns, ReconcileAll;
    var before, a := BeforePass(c), Returns(c);
    var s := Exec(c, before);
    var meanwhile := Overlapping(c);
    DeliveredBefore(c);
    ExecSnoc(c, before, a);
    ReturnedAfter(c, s);
    SelectsTheEvent(c, s, limit, now);
    var batch := [s.db.events[1]];
    assert (before + [a])[..|before|] == before && (before + [a])[..|before| + 1] == before + [a];
    assert Overlaps(c, before + [a], |before|, CutBetween(c), meanwhile, 2);
    assert Collides(c, batch, RowsRead(batch, meanwhile), meanwhile, 0);
    ReconcileBatchIsAnExecution(c, before + [a], |before|, CutBetween(c), meanwhile, batch, limit, {}, now);
  }
}

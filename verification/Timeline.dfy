/** The durable timeline of a run and the resumable stream of its versions. */
module Timeline {
  import opened Wrappers
  import opened Lifecycle
  import opened Store
  import opened Protocol
  import opened Invariance
  import opened Safety
  import opened Ordering

  datatype TimelineEvent = TimelineEvent(
    version: nat, state: RunState, at: Time, stepKey: Option<StepKey>, attempt: Option<nat>,
    status: Option<StepStatus>, errorCode: Option<string>)

  datatype RunTimeline = RunTimeline(
    runId: Uuid, runVersion: nat, terminal: bool, events: seq<TimelineEvent>, currentStep: Option<StepRow>)

  function VersionOf(row: StepRow): nat {
    if row.resultingVersion.Some? then row.resultingVersion.value else 0
  }

  predicate VersionAtMost(a: StepRow, b: StepRow) {
    VersionOf(a) <= VersionOf(b)
  }

  function Finished(rows: seq<StepRow>): (finished: seq<StepRow>) {
    if rows == [] then []
    else Finished(rows[..|rows| - 1]) + if rows[|rows| - 1].resultingVersion.Some? then [rows[|rows| - 1]] else []
  }

  /** The finished rows, sorted by the version they resulted in. */
  function FinishedInOrder(rows: seq<StepRow>): (sorted: seq<StepRow>) {
    Sort(Finished(rows), VersionAtMost)
  }

  function QueuedEvent(run: RunRow): TimelineEvent {
    TimelineEvent(1, Queued, run.createdAt, None, None, None, None)
  }

  function StepEvent(row: StepRow, run: RunRow): TimelineEvent {
    TimelineEvent(VersionOf(row), row.toState, if row.finishedAt.Some? then row.finishedAt.value else run.updatedAt,
                  Some(row.key), Some(row.attempt), Some(row.status), row.errorCode)
  }

  function EventsAfter(rows: seq<StepRow>, run: RunRow, after: nat): seq<TimelineEvent> {
    if rows == [] then []
    else
      EventsAfter(rows[..|rows| - 1], run, after)
      + if after < VersionOf(rows[|rows| - 1]) then [StepEvent(rows[|rows| - 1], run)] else []
  }

  /** The timeline of a run from its row, the listing of its steps and its current step. */
  function Get(run: RunRow, rows: seq<StepRow>, current: Option<StepRow>, after: nat): RunTimeline {
    RunTimeline(run.id, run.version, Terminal(run.state),
                (if after < 1 then [QueuedEvent(run)] else []) + EventsAfter(FinishedInOrder(rows), run, after),
                if Terminal(run.state) then None else current)
  }

  // --- What the timeline contains ------------------------------------------------------------------

  /** The rows of a run, each once, in any order. */
  ghost predicate IsListing(db: Tables, r: Uuid, rows: seq<StepRow>) {
    && (forall k :: 0 <= k < |rows| ==> rows[k].id in db.steps && db.steps[rows[k].id] == rows[k] && rows[k].runId == r)
    && (forall i :: i in db.steps && db.steps[i].runId == r ==> db.steps[i] in rows)
    && (forall k, l :: 0 <= k < l < |rows| ==> rows[k].id != rows[l].id)
  }

  predicate StrictlySorted(rows: seq<StepRow>) {
    forall k, l :: 0 <= k < l < |rows| ==> VersionOf(rows[k]) < VersionOf(rows[l])
  }

  lemma {:induction false} InsertKeeps(row: StepRow, sorted: seq<StepRow>)
    requires StrictlySorted(sorted) && forall k :: 0 <= k < |sorted| ==> VersionOf(sorted[k]) != VersionOf(row)
    ensures StrictlySorted(Insert(row, sorted, VersionAtMost))
  {
    if sorted == [] || VersionAtMost(row, sorted[0]) {
    } else {
      var first, rest := sorted[0], sorted[1..];
      InsertKeeps(row, rest);
      var inserted := Insert(row, rest, VersionAtMost);
      forall k | 0 <= k < |inserted| ensures VersionOf(first) < VersionOf(inserted[k]) {
        assert inserted[k] in multiset(rest) + multiset{row};
        assert inserted[k] == row || inserted[k] in rest;
      }
    }
  }

  lemma {:induction false} SortsStrictly(rows: seq<StepRow>)
    requires forall k, l :: 0 <= k < l < |rows| ==> VersionOf(rows[k]) != VersionOf(rows[l])
    ensures StrictlySorted(Sort(rows, VersionAtMost))
  {
    if rows == [] {
    } else {
      SortsStrictly(rows[1..]);
      var sorted := Sort(rows[1..], VersionAtMost);
      forall k | 0 <= k < |sorted| ensures VersionOf(sorted[k]) != VersionOf(rows[0]) {
        assert sorted[k] in multiset(rows[1..]);
        assert sorted[k] in rows[1..];
      }
      InsertKeeps(rows[0], sorted);
    }
  }

  lemma {:induction false} FinishedDiffer(rows: seq<StepRow>)
    requires forall k, l :: 0 <= k < l < |rows| && rows[k].resultingVersion.Some? && rows[l].resultingVersion.Some? ==>
               VersionOf(rows[k]) != VersionOf(rows[l])
    ensures forall k, l ::
              0 <= k < l < |Finished(rows)| ==> VersionOf(Finished(rows)[k]) != VersionOf(Finished(rows)[l])
    ensures forall x :: x in Finished(rows) <==> x in rows && x.resultingVersion.Some?
  {
    if rows == [] {
    } else {
      var before, row := rows[..|rows| - 1], rows[|rows| - 1];
      FinishedDiffer(before);
      assert rows == before + [row];
      forall k | 0 <= k < |Finished(before)| && row.resultingVersion.Some?
        ensures VersionOf(Finished(before)[k]) != VersionOf(row)
      {
        assert Finished(before)[k] in before;
      }
    }
  }

  lemma FinishedAreSorted(rows: seq<StepRow>)
    requires forall k, l :: 0 <= k < l < |rows| && rows[k].resultingVersion.Some? && rows[l].resultingVersion.Some? ==>
               VersionOf(rows[k]) != VersionOf(rows[l])
    ensures StrictlySorted(FinishedInOrder(rows))
    ensures forall x :: x in FinishedInOrder(rows) <==> x in rows && x.resultingVersion.Some?
  {
    hide Sort;
    FinishedDiffer(rows);
    SortsStrictly(Finished(rows));
    forall x ensures x in FinishedInOrder(rows) <==> x in Finished(rows) {
      assert x in multiset(FinishedInOrder(rows)) <==> x in multiset(Finished(rows));
    }
  }

  /** A strictly sorted listing is determined by what it contains. */
  lemma {:induction false} SortedListingIsUnique(a: seq<StepRow>, b: seq<StepRow>)
    requires StrictlySorted(a) && StrictlySorted(b) && forall x :: x in a <==> x in b
    ensures a == b
  {
    EmptyTogether(a, b);
    if a == [] {
    } else {
      SameLast(a, b);
      var c, d := a[..|a| - 1], b[..|b| - 1];
      forall z ensures z in c <==> z in d {
        LastIsNotBefore(a, z);
        LastIsNotBefore(b, z);
      }
      SortedListingIsUnique(c, d);
    }
  }

  lemma EmptyTogether(a: seq<StepRow>, b: seq<StepRow>)
    requires forall x :: x in a <==> x in b
    ensures a == [] <==> b == []
  {
    if a != [] {
      assert a[0] in b;
    }
    if b != [] {
      assert b[0] in a;
    }
  }

  lemma SameLast(a: seq<StepRow>, b: seq<StepRow>)
    requires StrictlySorted(a) && StrictlySorted(b) && a != [] && b != [] && forall x :: x in a <==> x in b
    ensures a[|a| - 1] == b[|b| - 1]
  {
    assert a[|a| - 1] in b && b[|b| - 1] in a;
    var j :| 0 <= j < |b| && b[j] == a[|a| - 1];
    var k :| 0 <= k < |a| && a[k] == b[|b| - 1];
  }

  lemma LastIsNotBefore(a: seq<StepRow>, z: StepRow)
    requires StrictlySorted(a) && a != []
    ensures z in a[..|a| - 1] <==> z in a && z != a[|a| - 1]
  {
  }

  /** The steps that finished a run, version by version. */
  ghost function HistoryRows(s: System, r: Uuid): (rows: seq<StepRow>)
    requires r in s.history && forall k :: 0 <= k < |s.history[r]| ==> s.history[r][k] in s.db.steps
    ensures |rows| == |s.history[r]| && forall k :: 0 <= k < |rows| ==> rows[k] == s.db.steps[s.history[r][k]]
  {
    seq(|s.history[r]|, k requires 0 <= k < |s.history[r]| => s.db.steps[s.history[r][k]])
  }

  lemma HistoryRowVersion(c: Config, s: System, r: Uuid, k: nat)
    requires Inv(c, s) && r in s.history && k < |s.history[r]|
    ensures var i := s.history[r][k];
            i in s.db.steps && s.db.steps[i].runId == r && s.db.steps[i].id == i
            && s.db.steps[i].resultingVersion == Some(k + 2) && s.db.steps[i].finishedAt.Some?
  {
    hide Inv;
    HistoryEntry(c, s, r, k);
  }

  lemma VersionsInListingDiffer(c: Config, s: System, r: Uuid, rows: seq<StepRow>, k: nat, l: nat)
    requires Inv(c, s) && IsListing(s.db, r, rows) && k < l < |rows|
    requires rows[k].resultingVersion.Some? && rows[l].resultingVersion.Some?
    ensures VersionOf(rows[k]) != VersionOf(rows[l])
  {
    hide Inv;
    FinishedEntry(c, s, rows[k].id, VersionOf(rows[k]));
    FinishedEntry(c, s, rows[l].id, VersionOf(rows[l]));
  }

  lemma FinishedIsRecorded(c: Config, s: System, r: Uuid, rows: seq<StepRow>, x: StepRow)
    requires Inv(c, s) && IsListing(s.db, r, rows)
    requires r in s.history && forall k :: 0 <= k < |s.history[r]| ==> s.history[r][k] in s.db.steps
    ensures x in rows && x.resultingVersion.Some? <==> x in HistoryRows(s, r)
  {
    hide Inv;
    if x in rows && x.resultingVersion.Some? {
      var v := VersionOf(x);
      FinishedEntry(c, s, x.id, v);
      PathIsRecorded(c, s, r);
      assert HistoryRows(s, r)[v - 2] == x;
    }
    if x in HistoryRows(s, r) {
      var k :| 0 <= k < |HistoryRows(s, r)| && HistoryRows(s, r)[k] == x;
      HistoryRowVersion(c, s, r, k);
    }
  }

  lemma ListingIsHistory(c: Config, s: System, r: Uuid, rows: seq<StepRow>)
    requires Inv(c, s) && r in s.db.runs && IsListing(s.db, r, rows)
    ensures r in s.history && forall k :: 0 <= k < |s.history[r]| ==> s.history[r][k] in s.db.steps
    ensures FinishedInOrder(rows) == HistoryRows(s, r)
  {
    hide Inv, IsListing;
    PathIsRecorded(c, s, r);
    var recorded := HistoryRows(s, r);
    forall k | 0 <= k < |recorded| ensures VersionOf(recorded[k]) == k + 2 {
      HistoryRowVersion(c, s, r, k);
    }
    forall k, l | 0 <= k < l < |rows| && rows[k].resultingVersion.Some? && rows[l].resultingVersion.Some?
      ensures VersionOf(rows[k]) != VersionOf(rows[l])
    {
      VersionsInListingDiffer(c, s, r, rows, k, l);
    }
    FinishedAreSorted(rows);
    forall x ensures x in FinishedInOrder(rows) <==> x in recorded {
      FinishedIsRecorded(c, s, r, rows, x);
    }
    SortedListingIsUnique(FinishedInOrder(rows), recorded);
  }

  /** The one event that belongs to a version of a run. */
  ghost function EventAt(s: System, r: Uuid, version: nat): TimelineEvent
    requires r in s.db.runs && r in s.history
    requires 2 <= version ==> version - 2 < |s.history[r]| && s.history[r][version - 2] in s.db.steps
  {
    if version <= 1 then QueuedEvent(s.db.runs[r]) else StepEvent(s.db.steps[s.history[r][version - 2]], s.db.runs[r])
  }

  ghost predicate IsEventAt(s: System, r: Uuid, version: nat, event: TimelineEvent) {
    && r in s.db.runs && r in s.history
    && (2 <= version ==> version - 2 < |s.history[r]| && s.history[r][version - 2] in s.db.steps)
    && event.version == version && event == EventAt(s, r, version)
  }

  /** What a client that resumes after `cursor` is owed once the run has reached `version`. */
  ghost predicate Owed(s: System, r: Uuid, cursor: nat, version: nat, events: seq<TimelineEvent>) {
    && r in s.db.runs && r in s.history
    && |events| == (if cursor < version then version - cursor else 0)
    && forall k :: 0 <= k < |events| ==> IsEventAt(s, r, cursor + 1 + k, events[k])
  }

  lemma OwedEnds(s: System, r: Uuid, cursor: nat, version: nat, events: seq<TimelineEvent>)
    requires Owed(s, r, cursor, version, events)
    ensures |events| == if cursor < version then version - cursor else 0
    ensures events != [] ==> events[|events| - 1].version == cursor + |events|
  {
    hide EventAt;
  }

  lemma OwedInTwoParts(s: System, r: Uuid, cursor: nat, version: nat, events: seq<TimelineEvent>, later: nat,
                       more: seq<TimelineEvent>)
    requires version <= later
    requires Owed(s, r, cursor, version, events) && Owed(s, r, cursor + |events|, later, more)
    ensures Owed(s, r, cursor, later, events + more)
  {
    hide IsEventAt;
  }

  lemma {:induction false} EventsAfterCut(rows: seq<StepRow>, run: RunRow, after: nat)
    requires forall k :: 0 <= k < |rows| ==> VersionOf(rows[k]) == k + 2
    ensures var skip := if after < 2 then 0 else if after - 1 <= |rows| then after - 1 else |rows|;
            var events := EventsAfter(rows, run, after);
            |events| == |rows| - skip && forall k :: 0 <= k < |events| ==> events[k] == StepEvent(rows[skip + k], run)
  {
    if rows == [] {
    } else {
      EventsAfterCut(rows[..|rows| - 1], run, after);
    }
  }

  /**
    From any listing of the steps, the timeline after a version is exactly the later versions up to the
    current one, in order, each once, with the step recorded for it.
   */
  lemma TimelineListsEachVersionOnce(c: Config, s: System, r: Uuid, rows: seq<StepRow>, current: Option<StepRow>,
                                     after: nat)
    requires Inv(c, s) && r in s.db.runs && IsListing(s.db, r, rows)
    ensures r in s.history && |s.history[r]| == s.db.runs[r].version - 1
    ensures Owed(s, r, after, s.db.runs[r].version, Get(s.db.runs[r], rows, current, after).events)
  {
    hide Inv;
    PathIsRecorded(c, s, r);
    ListingIsHistory(c, s, r, rows);
    var recorded := HistoryRows(s, r);
    forall k | 0 <= k < |recorded| ensures VersionOf(recorded[k]) == k + 2 {
      HistoryRowVersion(c, s, r, k);
    }
    ListedEvents(s, r, rows, current, after, recorded);
  }

  /** The finished rows are recorded in the history of the run, version by version. */
  predicate AreRecorded(s: System, r: Uuid, recorded: seq<StepRow>) {
    && r in s.db.runs && r in s.history && |recorded| == |s.history[r]| == s.db.runs[r].version - 1
    && forall k :: 0 <= k < |recorded| ==>
         s.history[r][k] in s.db.steps && VersionOf(recorded[k]) == k + 2 && recorded[k] == s.db.steps[s.history[r][k]]
  }

  lemma StepEventsListed(s: System, r: Uuid, recorded: seq<StepRow>, after: nat)
    requires AreRecorded(s, r, recorded)
    ensures Owed(s, r, if after < 1 then 1 else after, s.db.runs[r].version,
                 EventsAfter(recorded, s.db.runs[r], after))
  {
    hide EventsAfter;
    EventsAfterCut(recorded, s.db.runs[r], after);
  }

  lemma ListedEvents(s: System, r: Uuid, rows: seq<StepRow>, current: Option<StepRow>, after: nat,
                     recorded: seq<StepRow>)
    requires FinishedInOrder(rows) == recorded && AreRecorded(s, r, recorded)
    ensures Owed(s, r, after, s.db.runs[r].version, Get(s.db.runs[r], rows, current, after).events)
  {
    hide FinishedInOrder, EventsAfter, QueuedEvent, Owed;
    var run := s.db.runs[r];
    var events, listed := Get(run, rows, current, after).events, EventsAfter(recorded, run, after);
    StepEventsListed(s, r, recorded, after);
    if 1 <= after {
      assert events == listed;
    } else {
      assert events == [QueuedEvent(run)] + listed;
      FirstEvent(s, r);
      OwedInTwoParts(s, r, 0, 1, [QueuedEvent(run)], run.version, listed);
    }
  }

  lemma FirstEvent(s: System, r: Uuid)
    requires r in s.db.runs && r in s.history
    ensures Owed(s, r, 0, 1, [QueuedEvent(s.db.runs[r])])
  {
  }

  // --- The stream ----------------------------------------------------------------------------------

  /** What one poll sees of the run. */
  datatype Snapshot = Snapshot(run: RunRow, rows: seq<StepRow>, current: Option<StepRow>)

  datatype Stream = Stream(emitted: seq<TimelineEvent>, cursor: nat, ended: bool)

  /** What a client that sends `cursor` receives over a series of polls; running out of polls is a disconnect. */
  function Streamed(polls: seq<Snapshot>, cursor: nat): Stream {
    if polls == [] then Stream([], cursor, false)
    else Polled(Streamed(polls[..|polls| - 1], cursor), polls[|polls| - 1])
  }

  function Polled(before: Stream, poll: Snapshot): Stream {
    if before.ended then before
    else
      var timeline := Get(poll.run, poll.rows, poll.current, before.cursor);
      var last := if timeline.events == [] then before.cursor else timeline.events[|timeline.events| - 1].version;
      Stream(before.emitted + timeline.events, last, timeline.terminal && timeline.runVersion <= last)
  }

  lemma {:induction false} EndedStreamStaysEnded(polls: seq<Snapshot>, cursor: nat, k: nat)
    requires k <= |polls| && Streamed(polls[..k], cursor).ended
    ensures Streamed(polls, cursor) == Streamed(polls[..k], cursor)
  {
    if k == |polls| {
      assert polls[..k] == polls;
    } else {
      assert polls[..|polls| - 1][..k] == polls[..k];
      EndedStreamStaysEnded(polls[..|polls| - 1], cursor, k);
    }
  }

  /** Emits the events of one poll, moving the cursor along. */
  method EmitAll(events: seq<TimelineEvent>, from: nat) returns (emitted: seq<TimelineEvent>, cursor: nat)
    ensures emitted == events
    ensures cursor == if events == [] then from else events[|events| - 1].version
  {
    emitted, cursor := [], from;
    for e := 0 to |events|
      invariant emitted == events[..e]
      invariant cursor == if e == 0 then from else events[e - 1].version
    {
      cursor := events[e].version;
      emitted := emitted + [events[e]];
    }
  }

  /** The generator: emit what the timeline holds, stop at the end of the run, otherwise poll again from the cursor. */
  method Generate(polls: seq<Snapshot>, lastEventId: nat) returns (emitted: seq<TimelineEvent>, cursor: nat,
                  ended: bool)
    ensures Stream(emitted, cursor, ended) == Streamed(polls, lastEventId)
  {
    hide Get;
    emitted, cursor, ended := [], lastEventId, false;
    for p := 0 to |polls|
      invariant Stream(emitted, cursor, false) == Streamed(polls[..p], lastEventId)
    {
      assert polls[..p + 1][..p] == polls[..p];
      var timeline := Get(polls[p].run, polls[p].rows, polls[p].current, cursor);
      var some;
      some, cursor := EmitAll(timeline.events, cursor);
      emitted := emitted + some;
      if timeline.terminal && timeline.runVersion <= cursor {
        EndedStreamStaysEnded(polls, lastEventId, p + 1);
        return emitted, cursor, true;
      }
    }
    assert polls[..|polls|] == polls;
  }

  /** Where a poll reads: the run after `read` actions, the listing of its steps after `listed`. */
  datatype Cut = Cut(read: nat, listed: nat)

  /** The polls of a stream watch one run as an execution proceeds, one poll after the other. */
  ghost predicate Watches(c: Config, actions: seq<Action>, r: Uuid, cuts: seq<Cut>, polls: seq<Snapshot>) {
    && |cuts| == |polls|
    && (forall p :: 0 <= p < |cuts| ==> Watched(c, actions, r, cuts[p], polls[p]))
    && (forall p, q :: 0 <= p < q < |cuts| ==> cuts[p].listed <= cuts[q].read)
  }

  ghost predicate Watched(c: Config, actions: seq<Action>, r: Uuid, cut: Cut, poll: Snapshot) {
    && cut.read <= cut.listed <= |actions|
    && r in Exec(c, actions[..cut.read]).db.runs && Exec(c, actions[..cut.read]).db.runs[r] == poll.run
    && IsListing(Exec(c, actions[..cut.listed]).db, r, poll.rows)
  }

  /** The version that the listing of a poll has reached; the run may have been read at an earlier one. */
  function Reached(poll: Snapshot): (version: nat) {
    |FinishedInOrder(poll.rows)| + 1
  }

  /** Nothing that was recorded about a run up to some point is ever rewritten. */
  ghost predicate RecordKept(s: System, t: System, r: Uuid) {
    && r in s.db.runs && r in t.db.runs && s.db.runs[r].createdAt == t.db.runs[r].createdAt
    && r in s.history && r in t.history && s.history[r] <= t.history[r]
    && forall k :: 0 <= k < |s.history[r]| ==>
         && s.history[r][k] in s.db.steps && s.history[r][k] in t.db.steps
         && s.db.steps[s.history[r][k]].finishedAt.Some?
         && t.db.steps[s.history[r][k]] == s.db.steps[s.history[r][k]]
  }

  lemma RecordIsKept(c: Config, s: System, r: Uuid)
    requires Inv(c, s) && r in s.db.runs
    ensures RecordKept(s, s, r)
  {
    hide Inv;
    PathIsRecorded(c, s, r);
    forall k | 0 <= k < |s.history[r]| ensures s.db.steps[s.history[r][k]].finishedAt.Some? {
      HistoryRowVersion(c, s, r, k);
    }
  }

  lemma StepKeepsRecord(c: Config, s: System, a: Action, r: Uuid)
    requires Inv(c, s) && r in s.db.runs
    ensures RecordKept(s, Step(c, s, a), r)
  {
    hide Inv, Step;
    RunFacts(c, s, r);
    FreshId(c, s, s.nextId);
    RecordsGrow(c, s, a);
    StepGrows(c, s, a, r);
    forall k | 0 <= k < |s.history[r]|
      ensures s.history[r][k] in s.db.steps && s.history[r][k] in Step(c, s, a).db.steps
      ensures s.db.steps[s.history[r][k]].finishedAt.Some?
      ensures Step(c, s, a).db.steps[s.history[r][k]] == s.db.steps[s.history[r][k]]
    {
      HistoryEntry(c, s, r, k);
      HistoryRowVersion(c, s, r, k);
      RowSuccession(c, s, a, s.history[r][k]);
    }
  }

  lemma {:induction false} ExecutionKeepsRecord(c: Config, actions: seq<Action>, k: nat, r: Uuid)
    requires k <= |actions| && r in Exec(c, actions[..k]).db.runs
    ensures RecordKept(Exec(c, actions[..k]), Exec(c, actions), r)
  {
    hide Inv, Step;
    if k == |actions| {
      assert actions[..k] == actions;
      EveryExecutionKeepsInv(c, actions);
      RecordIsKept(c, Exec(c, actions), r);
    } else {
      var before := actions[..|actions| - 1];
      assert before[..k] == actions[..k];
      ExecutionKeepsRecord(c, before, k, r);
      EveryExecutionKeepsInv(c, before);
      StepKeepsRecord(c, Exec(c, before), actions[|actions| - 1], r);
    }
  }

  lemma RecordedEventIsFinal(s: System, t: System, r: Uuid, version: nat)
    requires RecordKept(s, t, r)
    requires 2 <= version ==> version - 2 < |s.history[r]|
    ensures EventAt(s, r, version) == EventAt(t, r, version)
  {
  }

  /** What the listing of a poll has reached lies at or after the version read, and is final when that run had ended. */
  lemma ReachedIsLater(c: Config, actions: seq<Action>, r: Uuid, cut: Cut, poll: Snapshot)
    requires Watched(c, actions, r, cut, poll)
    ensures r in Exec(c, actions[..cut.listed]).db.runs
    ensures var run := Exec(c, actions[..cut.listed]).db.runs[r];
            Reached(poll) == run.version && PastRow(poll.run, run)
    ensures poll.run.version <= Reached(poll) && (Terminal(poll.run.state) ==> Reached(poll) == poll.run.version)
  {
    hide Inv, Exec, IsListing, FinishedInOrder;
    var listed := actions[..cut.listed];
    assert listed[..cut.read] == actions[..cut.read];
    RunsOnlyGrow(c, listed, cut.read, r);
    EveryExecutionKeepsInv(c, listed);
    ListingIsHistory(c, Exec(c, listed), r, poll.rows);
    PathIsRecorded(c, Exec(c, listed), r);
  }

  /** The events of finished rows do not depend on the run row beside them. */
  lemma {:induction false} EventsIgnoreRun(rows: seq<StepRow>, run: RunRow, other: RunRow, after: nat)
    requires forall k :: 0 <= k < |rows| ==> rows[k].finishedAt.Some?
    ensures EventsAfter(rows, run, after) == EventsAfter(rows, other, after)
  {
    if rows == [] {
    } else {
      EventsIgnoreRun(rows[..|rows| - 1], run, other, after);
    }
  }

  lemma ListedRunServes(c: Config, actions: seq<Action>, r: Uuid, cut: Cut, poll: Snapshot, cursor: nat)
    requires Watched(c, actions, r, cut, poll)
    ensures r in Exec(c, actions[..cut.listed]).db.runs
    ensures Get(poll.run, poll.rows, poll.current, cursor).events
         == Get(Exec(c, actions[..cut.listed]).db.runs[r], poll.rows, poll.current, cursor).events
  {
    hide Inv, Exec, IsListing, FinishedInOrder, EventsAfter;
    ReachedIsLater(c, actions, r, cut, poll);
    var s := Exec(c, actions[..cut.listed]);
    EveryExecutionKeepsInv(c, actions[..cut.listed]);
    ListingIsHistory(c, s, r, poll.rows);
    forall k | 0 <= k < |FinishedInOrder(poll.rows)| ensures FinishedInOrder(poll.rows)[k].finishedAt.Some? {
      HistoryRowVersion(c, s, r, k);
    }
    EventsIgnoreRun(FinishedInOrder(poll.rows), poll.run, s.db.runs[r], cursor);
  }

  /** One poll delivers what is owed up to the version its listing reached, in the form it will keep for ever. */
  lemma PollDelivers(c: Config, actions: seq<Action>, r: Uuid, cut: Cut, poll: Snapshot, cursor: nat)
    requires Watched(c, actions, r, cut, poll)
    ensures Owed(Exec(c, actions), r, cursor, Reached(poll), Get(poll.run, poll.rows, poll.current, cursor).events)
  {
    hide Inv, Exec, IsListing, Get, PastRow, Reached;
    var s, t := Exec(c, actions[..cut.listed]), Exec(c, actions);
    ReachedIsLater(c, actions, r, cut, poll);
    ListedRunServes(c, actions, r, cut, poll, cursor);
    EveryExecutionKeepsInv(c, actions[..cut.listed]);
    TimelineListsEachVersionOnce(c, s, r, poll.rows, poll.current, cursor);
    ExecutionKeepsRecord(c, actions, cut.listed, r);
    var events := Get(poll.run, poll.rows, poll.current, cursor).events;
    forall k | 0 <= k < |events| ensures IsEventAt(t, r, cursor + 1 + k, events[k]) {
      RecordedEventIsFinal(s, t, r, cursor + 1 + k);
    }
  }

  /** The stream so far is what was owed up to a version, and whether it has ended. */
  ghost predicate Delivered(t: System, r: Uuid, cursor: nat, version: nat, ended: bool, out: Stream) {
    && Owed(t, r, cursor, version, out.emitted)
    && out.cursor == cursor + |out.emitted|
    && (out.ended <==> ended)
  }

  lemma NextPoll(c: Config, actions: seq<Action>, r: Uuid, cursor: nat, version: nat, ended: bool, before: Stream,
                 cut: Cut, poll: Snapshot)
    requires Watched(c, actions, r, cut, poll) && version <= Reached(poll)
    requires Delivered(Exec(c, actions), r, cursor, version, ended, before)
    requires ended ==> version == Reached(poll) && Terminal(poll.run.state)
    ensures Delivered(Exec(c, actions), r, cursor, Reached(poll), Terminal(poll.run.state), Polled(before, poll))
  {
    hide Exec, IsListing, Get, EventAt, Watched, Reached, Owed, Terminal;
    if !before.ended {
      PollDelivers(c, actions, r, cut, poll, before.cursor);
      ReachedIsLater(c, actions, r, cut, poll);
      GetFacts(poll, before.cursor);
      var events := Get(poll.run, poll.rows, poll.current, before.cursor).events;
      OwedEnds(Exec(c, actions), r, before.cursor, Reached(poll), events);
      OwedInTwoParts(Exec(c, actions), r, cursor, version, before.emitted, Reached(poll), events);
    }
  }

  lemma FirstPoll(c: Config, actions: seq<Action>, r: Uuid, cursor: nat, cut: Cut, poll: Snapshot)
    requires Watched(c, actions, r, cut, poll)
    ensures Delivered(Exec(c, actions), r, cursor, Reached(poll), Terminal(poll.run.state),
                      Polled(Stream([], cursor, false), poll))
  {
    hide Exec, IsListing, Get, EventAt, Watched, Reached;
    PollDelivers(c, actions, r, cut, poll, cursor);
    ReachedIsLater(c, actions, r, cut, poll);
    GetFacts(poll, cursor);
  }

  /**
    For any cursor and any interleaving of polls with the run's progress, also between the two reads of a
    poll, the stream is the events of versions cursor+1, cursor+2, ... up to the last version listed: no
    gap, no repeat, and each event as it stands at any later time. It ends by itself exactly when a poll
    read the run as ended, and then the cursor is at or past its final version.
   */
  lemma {:induction false} StreamIsGapless(c: Config, actions: seq<Action>, r: Uuid, cuts: seq<Cut>,
                                           polls: seq<Snapshot>, cursor: nat)
    requires Watches(c, actions, r, cuts, polls) && polls != []
    ensures var last := polls[|polls| - 1];
            && Delivered(Exec(c, actions), r, cursor, Reached(last), Terminal(last.run.state), Streamed(polls, cursor))
            && (Terminal(last.run.state) ==> last.run.version == Reached(last))
  {
    hide Exec, IsListing, Watched, Delivered, Polled, Reached;
    var before, poll := polls[..|polls| - 1], polls[|polls| - 1];
    var cut := cuts[|cuts| - 1];
    ReachedIsLater(c, actions, r, cut, poll);
    if before == [] {
      FirstPoll(c, actions, r, cursor, cut, poll);
    } else {
      var earlier := before[|before| - 1];
      StreamIsGapless(c, actions, r, cuts[..|cuts| - 1], before, cursor);
      LaterPollIsLater(c, actions, r, cuts[|cuts| - 2], earlier, cut, poll);
      NextPoll(c, actions, r, cursor, Reached(earlier), Terminal(earlier.run.state), Streamed(before, cursor), cut,
               poll);
    }
  }

  lemma GetFacts(poll: Snapshot, cursor: nat)
    ensures var timeline := Get(poll.run, poll.rows, poll.current, cursor);
            timeline.terminal == Terminal(poll.run.state) && timeline.runVersion == poll.run.version
  {
  }

  lemma LaterPollIsLater(c: Config, actions: seq<Action>, r: Uuid, cut: Cut, poll: Snapshot, later: Cut,
                         laterPoll: Snapshot)
    requires cut.listed <= later.read && Watched(c, actions, r, cut, poll) && Watched(c, actions, r, later, laterPoll)
    ensures Reached(poll) <= Reached(laterPoll)
    ensures Terminal(poll.run.state) ==> Reached(poll) == Reached(laterPoll) && Terminal(laterPoll.run.state)
  {
    hide Exec, IsListing, Reached;
    ReachedIsLater(c, actions, r, cut, poll);
    ReachedIsLater(c, actions, r, later, laterPoll);
    assert actions[..later.read][..cut.listed] == actions[..cut.listed];
    RunsOnlyGrow(c, actions[..later.read], cut.listed, r);
  }

  /** Cutting a stream anywhere and resuming from the last identifier received gives the same sequence as one stream. */
  lemma ResumedStreamIsTheSame(c: Config, actions: seq<Action>, r: Uuid, cursor: nat, cut: nat,
                               cuts: seq<Cut>, polls: seq<Snapshot>, laterCuts: seq<Cut>, laterPolls: seq<Snapshot>,
                               wholeCuts: seq<Cut>, wholePolls: seq<Snapshot>)
    requires Watches(c, actions, r, cuts, polls) && polls != []
    requires Watches(c, actions, r, laterCuts, laterPolls) && laterPolls != []
    requires Watches(c, actions, r, wholeCuts, wholePolls) && wholePolls != []
    requires cut <= |Streamed(polls, cursor).emitted|
    requires Reached(wholePolls[|wholePolls| - 1]) == Reached(laterPolls[|laterPolls| - 1])
    requires Reached(polls[|polls| - 1]) <= Reached(laterPolls[|laterPolls| - 1])
    ensures Streamed(polls, cursor).emitted[..cut] + Streamed(laterPolls, cursor + cut).emitted
         == Streamed(wholePolls, cursor).emitted
  {
    hide Exec, Get, Streamed, Watches, Owed, Reached;
    var t := Exec(c, actions);
    StreamIsGapless(c, actions, r, cuts, polls, cursor);
    StreamIsGapless(c, actions, r, laterCuts, laterPolls, cursor + cut);
    StreamIsGapless(c, actions, r, wholeCuts, wholePolls, cursor);
    var first, later := Streamed(polls, cursor).emitted, Streamed(laterPolls, cursor + cut).emitted;
    var whole := Streamed(wholePolls, cursor).emitted;
    var reached := Reached(laterPolls[|laterPolls| - 1]);
    OwedBegins(t, r, cursor, Reached(polls[|polls| - 1]), first, cut);
    if cut > 0 {
      OwedInTwoParts(t, r, cursor, cursor + cut, first[..cut], reached, later);
    } else {
      assert first[..cut] + later == later;
    }
    OwedIsUnique(t, r, cursor, reached, first[..cut] + later, whole);
  }

  lemma OwedBegins(t: System, r: Uuid, cursor: nat, version: nat, events: seq<TimelineEvent>, cut: nat)
    requires Owed(t, r, cursor, version, events) && cut <= |events|
    ensures Owed(t, r, cursor, cursor + cut, events[..cut]) && (cut > 0 ==> cursor + cut <= version)
  {
    hide EventAt;
    assert forall k :: 0 <= k < cut ==> events[..cut][k] == events[k];
  }

  /** What is owed is settled. */
  lemma OwedIsUnique(t: System, r: Uuid, cursor: nat, version: nat, a: seq<TimelineEvent>, b: seq<TimelineEvent>)
    requires Owed(t, r, cursor, version, a) && Owed(t, r, cursor, version, b)
    ensures a == b
  {
    hide EventAt;
  }

  // --- What a streamed event shows -----------------------------------------------------------------

  /** The event shows the columns of this step. */
  predicate ShowsStep(event: TimelineEvent, row: StepRow) {
    && event.state == row.toState && Some(event.at) == row.finishedAt && event.stepKey == Some(row.key)
    && event.attempt == Some(row.attempt) && event.status == Some(row.status) && event.errorCode == row.errorCode
  }

  /**
    The event of a version shows the state that the run went through at that version and how it got there:
    its creation for the first version, and the one step that finished it for any later one.
   */
  ghost predicate ShowsVersion(s: System, r: Uuid, version: nat, event: TimelineEvent) {
    && r in s.db.runs && r in s.history && (forall k :: 0 <= k < |s.history[r]| ==> s.history[r][k] in s.db.steps)
    && event.version == version && 1 <= version <= |StatePath(s, r)| && event.state == StatePath(s, r)[version - 1]
    && (version == s.db.runs[r].version ==> event.state == s.db.runs[r].state)
    && (version == 1 ==> event == TimelineEvent(1, Queued, s.db.runs[r].createdAt, None, None, None, None))
    && (2 <= version ==>
          && (exists i :: Finishes(s.db, i, r, version) && ShowsStep(event, s.db.steps[i]))
          && forall i :: Finishes(s.db, i, r, version) ==> ShowsStep(event, s.db.steps[i]))
  }

  lemma EventShowsVersion(c: Config, actions: seq<Action>, r: Uuid, version: nat, event: TimelineEvent)
    requires IsEventAt(Exec(c, actions), r, version, event) && 1 <= version
    requires version <= Exec(c, actions).db.runs[r].version
    ensures ShowsVersion(Exec(c, actions), r, version, event)
  {
    hide Inv, Exec;
    var s := Exec(c, actions);
    EveryExecutionKeepsInv(c, actions);
    PathIsRecorded(c, s, r);
    RunsFollowTheDeclaredPath(c, actions, r);
    if 2 <= version {
      var i := s.history[r][version - 2];
      HistoryEntry(c, s, r, version - 2);
      ExactlyOneStepPerVersion(c, actions, r, version);
      assert Finishes(s.db, i, r, version) && ShowsStep(event, s.db.steps[i]);
    }
  }

  /** Every event a stream emits, in any interleaving with the run's progress, shows its version as it will stay. */
  lemma StreamedEventsShow(c: Config, actions: seq<Action>, r: Uuid, cuts: seq<Cut>, polls: seq<Snapshot>, cursor: nat,
                           k: nat)
    requires Watches(c, actions, r, cuts, polls) && polls != [] && k < |Streamed(polls, cursor).emitted|
    ensures ShowsVersion(Exec(c, actions), r, cursor + 1 + k, Streamed(polls, cursor).emitted[k])
  {
    hide Exec, Streamed, IsEventAt, ShowsVersion, Reached, Watched;
    StreamIsGapless(c, actions, r, cuts, polls, cursor);
    LastPollIsPast(c, actions, r, cuts, polls);
    EventShowsVersion(c, actions, r, cursor + 1 + k, Streamed(polls, cursor).emitted[k]);
  }

  lemma LastPollIsPast(c: Config, actions: seq<Action>, r: Uuid, cuts: seq<Cut>, polls: seq<Snapshot>)
    requires Watches(c, actions, r, cuts, polls) && polls != []
    ensures r in Exec(c, actions).db.runs && Reached(polls[|polls| - 1]) <= Exec(c, actions).db.runs[r].version
  {
    hide Exec, Reached, Watched;
    var cut := cuts[|cuts| - 1];
    ReachedIsLater(c, actions, r, cut, polls[|polls| - 1]);
    assert cut.listed <= |actions| by { CutsLieInside(c, actions, r, cut, polls[|polls| - 1]); }
    RunsOnlyGrow(c, actions, cut.listed, r);
  }

  lemma CutsLieInside(c: Config, actions: seq<Action>, r: Uuid, cut: Cut, poll: Snapshot)
    requires Watched(c, actions, r, cut, poll)
    ensures cut.read <= cut.listed <= |actions|
  {
  }

  /** The header of a timeline: the run as it was read, and its current step only while it has not ended. */
  lemma TimelineHeader(run: RunRow, rows: seq<StepRow>, current: Option<StepRow>, after: nat)
    ensures var timeline := Get(run, rows, current, after);
            && timeline.runId == run.id && timeline.runVersion == run.version
            && (timeline.terminal <==> run.state in {Completed, Approved, Rejected, Failed, Cancelled})
            && timeline.currentStep == if timeline.terminal then None else current
  {
    hide EventsAfter, FinishedInOrder;
  }
}

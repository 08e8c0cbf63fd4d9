/** The safety check on plans proposed by an agent: duplicates, catalog rules, dependencies, cycles, prerequisites. */
module PlanValidator {
  import opened Wrappers
  import opened Digraph
  import opened Sequences

  datatype PlanStep = PlanStep(
    id: string, capability: string, dependsOn: seq<string>, timeout: int, required: bool, evidenceRefs: seq<string>)

  datatype Spec = Spec(name: string, mandatory: bool, maxTimeout: int, prerequisites: seq<string>)

  datatype Error =
    | DuplicateStepId
    | DuplicateCapability
    | MandatoryCapabilityMissing(capability: string)
    | MandatoryStepNotRequired(step: string)
    | TimeoutExceedsLimit(step: string)
    | EvidenceRefInvalid(step: string)
    | DependencyInvalid(step: string)
    | PlanCycle
    | PrerequisiteMissing(capability: string, prerequisite: string)

  const EVIDENCE_PREFIXES := ["evidence:", "revision:", "finding:", "static-report:"]

  predicate Allowed(ref: string) {
    exists k :: 0 <= k < |EVIDENCE_PREFIXES| && EVIDENCE_PREFIXES[k] <= ref
  }

  // --- Dictionaries ------------------------------------------------------------------------------------

  /** The last step with each id. */
  function ById(steps: seq<PlanStep>): (byId: map<string, PlanStep>)
    ensures forall id :: id in byId ==> byId[id] in steps && byId[id].id == id
    ensures forall s :: s in steps ==> s.id in byId
  {
    if steps == [] then map[]
    else
      var last := steps[|steps| - 1];
      assert steps == steps[..|steps| - 1] + [last];
      ById(steps[..|steps| - 1])[last.id := last]
  }

  /** The last step with each capability. */
  function ByCapability(steps: seq<PlanStep>): (byCapability: map<string, PlanStep>)
    ensures forall c :: c in byCapability ==> byCapability[c] in steps && byCapability[c].capability == c
    ensures forall s :: s in steps ==> s.capability in byCapability
  {
    if steps == [] then map[]
    else
      var last := steps[|steps| - 1];
      assert steps == steps[..|steps| - 1] + [last];
      ByCapability(steps[..|steps| - 1])[last.capability := last]
  }

  predicate UniqueIds(steps: seq<PlanStep>) {
    Distinct(Ids(steps))
  }

  predicate UniqueCapabilities(steps: seq<PlanStep>) {
    Distinct(Named(steps))
  }

  function Ids(steps: seq<PlanStep>): (ids: seq<string>)
    ensures |ids| == |steps| && forall i :: 0 <= i < |steps| ==> ids[i] == steps[i].id
  {
    seq(|steps|, i requires 0 <= i < |steps| => steps[i].id)
  }

  function Named(steps: seq<PlanStep>): (names: seq<string>)
    ensures |names| == |steps| && forall i :: 0 <= i < |steps| ==> names[i] == steps[i].capability
  {
    seq(|steps|, i requires 0 <= i < |steps| => steps[i].capability)
  }

  lemma KnownId(steps: seq<PlanStep>, id: string)
    ensures id in ById(steps) <==> id in Ids(steps)
  {
    hide ById;
    if id in ById(steps) {
      var i :| 0 <= i < |steps| && steps[i] == ById(steps)[id];
      assert Ids(steps)[i] == id;
    }
    if id in Ids(steps) {
      var i :| 0 <= i < |steps| && Ids(steps)[i] == id;
      assert steps[i] in steps;
    }
  }

  lemma KnownCapability(steps: seq<PlanStep>, c: string)
    ensures c in ByCapability(steps) <==> c in Named(steps)
  {
    hide ByCapability;
    if c in ByCapability(steps) {
      var i :| 0 <= i < |steps| && steps[i] == ByCapability(steps)[c];
      assert Named(steps)[i] == c;
    }
    if c in Named(steps) {
      var i :| 0 <= i < |steps| && Named(steps)[i] == c;
      assert steps[i] in steps;
    }
  }

  /** A dictionary is as large as the list of steps exactly when none replaced another. */
  lemma DictionarySizes(steps: seq<PlanStep>)
    ensures |ById(steps)| == |steps| <==> UniqueIds(steps)
    ensures |ByCapability(steps)| == |steps| <==> UniqueCapabilities(steps)
  {
    hide ById, ByCapability, Ids, Named;
    var ids, names := Ids(steps), Named(steps);
    forall id ensures id in ById(steps).Keys <==> id in ids {
      KnownId(steps, id);
    }
    DistinctSize(ids, ById(steps).Keys);
    forall c ensures c in ByCapability(steps).Keys <==> c in names {
      KnownCapability(steps, c);
    }
    DistinctSize(names, ByCapability(steps).Keys);
  }

  function Dependencies(byId: map<string, PlanStep>): (g: Graph<string>)
    ensures g.Keys == byId.Keys && forall id :: id in byId ==> g[id] == byId[id].dependsOn
  {
    map id | id in byId :: byId[id].dependsOn
  }

  // --- The cycle check ---------------------------------------------------------------------------------

  /** The recursive cycle check. A step is marked visited when it is left; unknown ids are skipped. */
  class CycleSearch {
    const graph: Graph<string>
    var visiting: set<string>
    var visited: set<string>
    ghost var stack: seq<string>
    ghost var rank: map<string, nat>
    ghost var seen: set<string>

    ghost predicate Valid()
      reads this
    {
      Tracked(graph, stack, rank, visiting, visited) && seen == visiting + visited
    }

    constructor (graph: Graph<string>)
      ensures this.graph == graph && Valid() && stack == [] && rank == map[]
    {
      this.graph := graph;
      visiting, visited, stack, rank, seen := {}, {}, [], map[], {};
    }

    method Visit(id: string) returns (cyclic: bool)
      requires Valid() && (id in graph && stack != [] ==> Edge(graph, stack[|stack| - 1], id))
      modifies this
      ensures cyclic ==> HasCycle(graph)
      ensures !cyclic ==> Valid() && stack == old(stack) && visiting == old(visiting)
      ensures !cyclic ==> old(seen) <= seen && old(visited) <= visited && (id in graph ==> id in visited)
      decreases graph.Keys - seen, 0
    {
      hide Tracked, Searching, HasCycle, Edge;
      TrackedFacts(graph, stack, rank, visiting, visited);
      if id in visiting {
        MeetActive(graph, stack, rank, id);
        return true;
      }
      if id in visited || id !in graph {
        return false;
      }
      TrackedEnter(graph, stack, rank, visiting, visited, id);
      visiting, seen, stack := visiting + {id}, seen + {id}, stack + [id];
      cyclic := VisitAny(id);
      if !cyclic {
        TrackedLeave(graph, old(stack), rank, old(visiting), visited, id);
        stack, rank := old(stack), rank[id := |rank|];
      }
      visiting, visited := visiting - {id}, visited + {id};
    }

    /** Visits the dependencies of the step being visited, up to the first that is on a cycle. */
    method VisitAny(id: string) returns (cyclic: bool)
      requires Valid() && stack != [] && stack[|stack| - 1] == id && id in graph
      modifies this
      ensures cyclic ==> HasCycle(graph)
      ensures !cyclic ==> Valid() && stack == old(stack) && visiting == old(visiting)
      ensures !cyclic ==> old(seen) <= seen && old(visited) <= visited
      ensures !cyclic ==> forall d :: d in graph[id] && d in graph ==> d in visited
      decreases graph.Keys - seen, 1
    {
      hide Searching, HasCycle;
      var dependsOn := graph[id];
      for i := 0 to |dependsOn|
        invariant Valid() && stack == old(stack) && visiting == old(visiting)
        invariant old(seen) <= seen && old(visited) <= visited
        invariant forall j :: 0 <= j < i && dependsOn[j] in graph ==> dependsOn[j] in visited
      {
        assert dependsOn[i] in graph ==> Edge(graph, id, dependsOn[i]);
        cyclic := Visit(dependsOn[i]);
        if cyclic {
          return;
        }
      }
      return false;
    }
  }

  method FindCycle(graph: Graph<string>) returns (cyclic: bool)
    ensures cyclic <==> HasCycle(graph)
  {
    var search := new CycleSearch(graph);
    var rest := graph.Keys;
    while rest != {}
      invariant search.graph == graph && search.Valid() && search.stack == []
      invariant rest <= graph.Keys && graph.Keys - rest <= search.rank.Keys
    {
      var id :| id in rest;
      var found := search.Visit(id);
      if found {
        return true;
      }
      rest := rest - {id};
    }
    RankedIsAcyclic(graph, search.rank);
    return false;
  }

  // --- The worklist of ancestor capabilities -----------------------------------------------------------

  function Capabilities(byId: map<string, PlanStep>): (capabilities: set<string>) {
    set id | id in byId :: byId[id].capability
  }

  /** The worklist: the last pending id first; unknown ids and capabilities already found are dropped. */
  function Collect(byId: map<string, PlanStep>, pending: seq<string>, result: set<string>): (found: set<string>)
    decreases Capabilities(byId) - result, |pending|
  {
    if pending == [] then result
    else
      var id, rest := pending[|pending| - 1], pending[..|pending| - 1];
      if id !in byId || byId[id].capability in result then Collect(byId, rest, result)
      else
        assert byId[id].capability in Capabilities(byId);
        Collect(byId, rest + byId[id].dependsOn, result + {byId[id].capability})
  }

  function Ancestors(byId: map<string, PlanStep>, id: string): (found: set<string>)
    requires id in byId
  {
    Collect(byId, byId[id].dependsOn, {})
  }

  method AncestorCapabilities(id: string, byId: map<string, PlanStep>) returns (result: set<string>)
    requires id in byId
    ensures result == Ancestors(byId, id)
  {
    result := {};
    var pending := byId[id].dependsOn;
    while pending != []
      invariant Collect(byId, pending, result) == Ancestors(byId, id)
      decreases Capabilities(byId) - result, |pending|
    {
      var dependency := pending[|pending| - 1];
      pending := pending[..|pending| - 1];
      if dependency in byId && byId[dependency].capability !in result {
        var step := byId[dependency];
        assert step.capability in Capabilities(byId);
        result := result + {step.capability};
        pending := pending + step.dependsOn;
      }
    }
  }

  /** A walk of one or more dependencies from a step. */
  ghost predicate DependsVia(g: Graph<string>, id: string, p: seq<string>) {
    IsWalk(g, p) && |p| >= 2 && p[0] == id
  }

  ghost predicate DependsOn(byId: map<string, PlanStep>, id: string, other: string) {
    exists p :: DependsVia(Dependencies(byId), id, p) && p[|p| - 1] == other
  }

  lemma DirectDependency(byId: map<string, PlanStep>, id: string, other: string)
    requires id in byId && other in byId[id].dependsOn && other in byId
    ensures DependsOn(byId, id, other)
  {
    assert Edge(Dependencies(byId), id, other);
    assert DependsVia(Dependencies(byId), id, [id, other]);
  }

  lemma DependencyExtends(byId: map<string, PlanStep>, id: string, via: string, other: string)
    requires DependsOn(byId, id, via) && via in byId && other in byId[via].dependsOn && other in byId
    ensures DependsOn(byId, id, other)
  {
    var g := Dependencies(byId);
    var p :| DependsVia(g, id, p) && p[|p| - 1] == via;
    WalkExtends(g, p, other);
    assert DependsVia(g, id, p + [other]);
  }

  /** Whatever the worklist finds is the capability of a transitive dependency, on any plan. */
  lemma {:induction false} CollectIsSound(byId: map<string, PlanStep>, id: string, pending: seq<string>,
                                          result: set<string>, c: string)
    requires forall d :: d in pending && d in byId ==> DependsOn(byId, id, d)
    requires c in Collect(byId, pending, result)
    ensures c in result || exists d :: d in byId && DependsOn(byId, id, d) && byId[d].capability == c
    decreases Capabilities(byId) - result, |pending|
  {
    hide DependsOn;
    if pending == [] {
    } else {
      var last, rest := pending[|pending| - 1], pending[..|pending| - 1];
      if last !in byId || byId[last].capability in result {
        CollectIsSound(byId, id, rest, result, c);
      } else {
        assert byId[last].capability in Capabilities(byId);
        forall d | d in byId[last].dependsOn && d in byId ensures DependsOn(byId, id, d) {
          DependencyExtends(byId, id, last, d);
        }
        CollectIsSound(byId, id, rest + byId[last].dependsOn, result + {byId[last].capability}, c);
      }
    }
  }

  lemma AncestorsAreDependencies(byId: map<string, PlanStep>, id: string, c: string)
    requires id in byId && c in Ancestors(byId, id)
    ensures exists d :: d in byId && DependsOn(byId, id, d) && byId[d].capability == c
  {
    hide DependsOn;
    forall d | d in byId[id].dependsOn && d in byId ensures DependsOn(byId, id, d) {
      DirectDependency(byId, id, d);
    }
    CollectIsSound(byId, id, byId[id].dependsOn, {}, c);
  }

  /** No two steps share a capability. */
  predicate OnePerCapability(byId: map<string, PlanStep>) {
    forall a, b :: a in byId && b in byId && byId[a].capability == byId[b].capability ==> a == b
  }

  /** A step with this capability is among these. */
  ghost predicate Offers(byId: map<string, PlanStep>, ids: seq<string>, capability: string) {
    exists e :: e in ids && e in byId && byId[e].capability == capability
  }

  /** Steps that share a capability depend directly on steps with the same capabilities. */
  ghost predicate TwinsAgree(byId: map<string, PlanStep>) {
    forall a, b, d :: (a in byId && b in byId && byId[a].capability == byId[b].capability
                       && d in byId[a].dependsOn && d in byId) ==>
      Offers(byId, byId[b].dependsOn, byId[d].capability)
  }

  lemma OnePerCapabilityAgrees(byId: map<string, PlanStep>)
    requires OnePerCapability(byId)
    ensures TwinsAgree(byId)
  {
  }

  /** The capability of every known dependency of a step whose capability was found is found or pending. */
  ghost predicate ClosedUpTo(byId: map<string, PlanStep>, pending: seq<string>, result: set<string>) {
    forall a, d :: a in byId && byId[a].capability in result && d in byId[a].dependsOn && d in byId ==>
      byId[d].capability in result || Offers(byId, pending, byId[d].capability)
  }

  lemma {:induction false} CollectIsClosed(byId: map<string, PlanStep>, pending: seq<string>, result: set<string>)
    requires TwinsAgree(byId) && ClosedUpTo(byId, pending, result)
    ensures var found := Collect(byId, pending, result);
            && result <= found && ClosedUpTo(byId, [], found)
            && forall d :: d in pending && d in byId ==> byId[d].capability in found
    decreases Capabilities(byId) - result, |pending|
  {
    hide TwinsAgree, ClosedUpTo;
    if pending == [] {
      assert Collect(byId, pending, result) == result;
    } else {
      var last, rest := pending[|pending| - 1], pending[..|pending| - 1];
      assert pending == rest + [last];
      if last !in byId || byId[last].capability in result {
        PassedOver(byId, rest, last, result);
        CollectIsClosed(byId, rest, result);
      } else {
        assert byId[last].capability in Capabilities(byId);
        Expanded(byId, rest, last, result);
        CollectIsClosed(byId, rest + byId[last].dependsOn, result + {byId[last].capability});
      }
    }
  }

  lemma OffersOr(byId: map<string, PlanStep>, ids: seq<string>, more: seq<string>, capability: string)
    ensures Offers(byId, ids + more, capability) <==> Offers(byId, ids, capability) || Offers(byId, more, capability)
  {
    assert forall e :: e in ids + more <==> e in ids || e in more;
  }

  lemma PassedOver(byId: map<string, PlanStep>, rest: seq<string>, last: string, result: set<string>)
    requires ClosedUpTo(byId, rest + [last], result) && (last in byId ==> byId[last].capability in result)
    ensures ClosedUpTo(byId, rest, result)
  {
    forall a, d | a in byId && byId[a].capability in result && d in byId[a].dependsOn && d in byId
      ensures byId[d].capability in result || Offers(byId, rest, byId[d].capability)
    {
      OffersOr(byId, rest, [last], byId[d].capability);
    }
  }

  lemma Expanded(byId: map<string, PlanStep>, rest: seq<string>, last: string, result: set<string>)
    requires TwinsAgree(byId) && ClosedUpTo(byId, rest + [last], result) && last in byId
    ensures ClosedUpTo(byId, rest + byId[last].dependsOn, result + {byId[last].capability})
  {
    hide TwinsAgree, ClosedUpTo;
    var own, later := byId[last].dependsOn, result + {byId[last].capability};
    forall a, d | a in byId && byId[a].capability in later && d in byId[a].dependsOn && d in byId
      ensures byId[d].capability in later || Offers(byId, rest + own, byId[d].capability)
    {
      OffersOr(byId, rest, own, byId[d].capability);
      if byId[a].capability in result {
        DependencyIsClosed(byId, rest + [last], result, a, d);
        OffersOr(byId, rest, [last], byId[d].capability);
      } else {
        TwinOffers(byId, a, last, d);
      }
    }
    ClosedIf(byId, rest + own, later);
  }

  lemma DependencyIsClosed(byId: map<string, PlanStep>, pending: seq<string>, result: set<string>, a: string, d: string)
    requires ClosedUpTo(byId, pending, result)
    requires a in byId && byId[a].capability in result && d in byId[a].dependsOn && d in byId
    ensures byId[d].capability in result || Offers(byId, pending, byId[d].capability)
  {
  }

  lemma TwinOffers(byId: map<string, PlanStep>, a: string, b: string, d: string)
    requires TwinsAgree(byId) && a in byId && b in byId && byId[a].capability == byId[b].capability
    requires d in byId[a].dependsOn && d in byId
    ensures Offers(byId, byId[b].dependsOn, byId[d].capability)
  {
  }

  lemma ClosedIf(byId: map<string, PlanStep>, pending: seq<string>, result: set<string>)
    requires forall a, d :: a in byId && byId[a].capability in result && d in byId[a].dependsOn && d in byId ==>
               byId[d].capability in result || Offers(byId, pending, byId[d].capability)
    ensures ClosedUpTo(byId, pending, result)
  {
  }

  lemma {:induction false} ClosedHoldsWalk(byId: map<string, PlanStep>, found: set<string>, p: seq<string>, k: nat)
    requires ClosedUpTo(byId, [], found) && IsWalk(Dependencies(byId), p) && 1 <= k < |p|
    requires byId[p[1]].capability in found
    ensures byId[p[k]].capability in found
  {
    if k <= 1 {
    } else {
      ClosedHoldsWalk(byId, found, p, k - 1);
      assert Edge(Dependencies(byId), p[k - 1], p[k]);
    }
  }

  /**
    A condition that can be read off the plan: if steps that share a capability agree on the capabilities they
    directly depend on, the worklist finds exactly the capabilities of all transitive dependencies. A plan
    without shared capabilities is the special case, and the only one the validator accepts.
   */
  lemma AncestorsAreAll(byId: map<string, PlanStep>, id: string, c: string)
    requires id in byId && TwinsAgree(byId)
    ensures c in Ancestors(byId, id) <==> exists d :: d in byId && DependsOn(byId, id, d) && byId[d].capability == c
  {
    if c in Ancestors(byId, id) {
      AncestorsAreDependencies(byId, id, c);
    }
    if d :| d in byId && DependsOn(byId, id, d) && byId[d].capability == c {
      var g := Dependencies(byId);
      var p :| DependsVia(g, id, p) && p[|p| - 1] == d;
      assert Edge(g, p[0], p[1]);
      CollectIsClosed(byId, byId[id].dependsOn, {});
      ClosedHoldsWalk(byId, Ancestors(byId, id), p, |p| - 1);
    }
  }

  /** Another transitive dependency of this step has the same capability. */
  ghost predicate Shared(byId: map<string, PlanStep>, id: string, a: string)
    requires a in byId
  {
    exists b :: b in byId && b != a && DependsOn(byId, id, b) && byId[b].capability == byId[a].capability
  }

  /** Like `ClosedUpTo`, for transitive dependencies, but for those whose capability another one may have brought in. */
  ghost predicate ClosedButShared(byId: map<string, PlanStep>, id: string, pending: seq<string>, result: set<string>) {
    forall a, d :: (a in byId && DependsOn(byId, id, a) && byId[a].capability in result && !Shared(byId, id, a)
                    && d in byId[a].dependsOn && d in byId) ==> byId[d].capability in result || d in pending
  }

  lemma {:induction false} CollectIsClosedButShared(byId: map<string, PlanStep>, id: string, pending: seq<string>,
                                                    result: set<string>)
    requires ClosedButShared(byId, id, pending, result)
    requires forall d :: d in pending && d in byId ==> DependsOn(byId, id, d)
    ensures var found := Collect(byId, pending, result);
            && result <= found && ClosedButShared(byId, id, [], found)
            && forall d :: d in pending && d in byId ==> byId[d].capability in found
    decreases Capabilities(byId) - result, |pending|
  {
    hide DependsOn;
    if pending == [] {
    } else {
      var last, rest := pending[|pending| - 1], pending[..|pending| - 1];
      assert pending == rest + [last];
      if last !in byId || byId[last].capability in result {
        CollectIsClosedButShared(byId, id, rest, result);
      } else {
        assert byId[last].capability in Capabilities(byId);
        forall d | d in byId[last].dependsOn && d in byId ensures DependsOn(byId, id, d) {
          DependencyExtends(byId, id, last, d);
        }
        CollectIsClosedButShared(byId, id, rest + byId[last].dependsOn, result + {byId[last].capability});
      }
    }
  }

  /** The capabilities of what each shared dependency itself depends on are found. */
  ghost predicate SharedAreCovered(byId: map<string, PlanStep>, id: string)
    requires id in byId
  {
    forall a, d :: a in byId && DependsOn(byId, id, a) && Shared(byId, id, a) && d in byId[a].dependsOn && d in byId ==>
      byId[d].capability in Ancestors(byId, id)
  }

  lemma {:induction false} CoveredWalk(byId: map<string, PlanStep>, id: string, p: seq<string>, k: nat)
    requires id in byId && DependsVia(Dependencies(byId), id, p) && 1 <= k < |p| && SharedAreCovered(byId, id)
    ensures p[k] in byId && DependsOn(byId, id, p[k]) && byId[p[k]].capability in Ancestors(byId, id)
  {
    hide DependsOn, Shared, SharedAreCovered;
    assert Edge(Dependencies(byId), p[k - 1], p[k]);
    forall d | d in byId[id].dependsOn && d in byId ensures DependsOn(byId, id, d) {
      DirectDependency(byId, id, d);
    }
    CollectIsClosedButShared(byId, id, byId[id].dependsOn, {});
    if k <= 1 {
    } else {
      CoveredWalk(byId, id, p, k - 1);
      DependencyExtends(byId, id, p[k - 1], p[k]);
      if Shared(byId, id, p[k - 1]) {
        CoveredDependency(byId, id, p[k - 1], p[k]);
      }
    }
  }

  lemma CoveredDependency(byId: map<string, PlanStep>, id: string, a: string, d: string)
    requires id in byId && SharedAreCovered(byId, id) && a in byId && DependsOn(byId, id, a) && Shared(byId, id, a)
    requires d in byId[a].dependsOn && d in byId
    ensures byId[d].capability in Ancestors(byId, id)
  {
  }

  /**
    On any plan, the worklist finds the capabilities of all transitive dependencies if and only if it finds
    those right behind every dependency that shares its capability with another. `AncestorsAreAll` gives the
    condition that a caller can check.
   */
  lemma AncestorsCompleteIff(byId: map<string, PlanStep>, id: string)
    requires id in byId
    ensures (forall d :: d in byId && DependsOn(byId, id, d) ==> byId[d].capability in Ancestors(byId, id))
       <==> SharedAreCovered(byId, id)
  {
    hide DependsOn, Shared, SharedAreCovered;
    if SharedAreCovered(byId, id) {
      forall d | d in byId && DependsOn(byId, id, d) ensures byId[d].capability in Ancestors(byId, id) {
        var p := WalkTo(byId, id, d);
        CoveredWalk(byId, id, p, |p| - 1);
      }
    }
    if forall d :: d in byId && DependsOn(byId, id, d) ==> byId[d].capability in Ancestors(byId, id) {
      CompleteCovers(byId, id);
    }
  }

  lemma WalkTo(byId: map<string, PlanStep>, id: string, d: string) returns (p: seq<string>)
    requires DependsOn(byId, id, d)
    ensures DependsVia(Dependencies(byId), id, p) && p[|p| - 1] == d
  {
    p :| DependsVia(Dependencies(byId), id, p) && p[|p| - 1] == d;
  }

  lemma CompleteCovers(byId: map<string, PlanStep>, id: string)
    requires id in byId && forall d :: d in byId && DependsOn(byId, id, d) ==> byId[d].capability in Ancestors(byId, id)
    ensures SharedAreCovered(byId, id)
  {
    hide DependsOn;
    forall a, d | a in byId && DependsOn(byId, id, a) && d in byId[a].dependsOn && d in byId
      ensures DependsOn(byId, id, d) {
      DependencyExtends(byId, id, a, d);
    }
  }

  /** With a shared capability a transitive dependency can be missed: its dependent is dropped unexpanded. */
  lemma SharedCapabilityHidesAncestor() returns (byId: map<string, PlanStep>)
    ensures "a" in byId && "d" in byId && DependsOn(byId, "a", "d") && byId["d"].capability !in Ancestors(byId, "a")
  {
    var a := PlanStep("a", "collect_evidence", ["b", "c"], 1, true, []);
    var b := PlanStep("b", "load_test_data", ["d"], 1, true, []);
    var c := PlanStep("c", "load_test_data", [], 1, true, []);
    var d := PlanStep("d", "provision_shadow_db", [], 1, true, []);
    byId := map["a" := a, "b" := b, "c" := c, "d" := d];
    DirectDependency(byId, "a", "b");
    DependencyExtends(byId, "a", "b", "d");
    calc {
      Ancestors(byId, "a");
      Collect(byId, ["b", "c"], {});
      { assert ["b", "c"][..1] + c.dependsOn == ["b"]; assert {} + {"load_test_data"} == {"load_test_data"}; }
      Collect(byId, ["b"], {"load_test_data"});
      { assert ["b"][..0] == []; }
      Collect(byId, [], {"load_test_data"});
    }
  }

  // --- Validation --------------------------------------------------------------------------------------

  predicate UniqueNames(catalog: seq<Spec>) {
    forall i, j :: 0 <= i < j < |catalog| ==> catalog[i].name != catalog[j].name
  }

  /** Every capability a step may name is in the catalog, once. */
  predicate Covers(catalog: seq<Spec>, steps: seq<PlanStep>) {
    UniqueNames(catalog) && forall s :: s in steps ==> exists spec :: spec in catalog && spec.name == s.capability
  }

  /** What must be reported about a plan. */
  ghost predicate Reported(catalog: seq<Spec>, steps: seq<PlanStep>, error: Error) {
    match error
    case DuplicateStepId => !UniqueIds(steps)
    case DuplicateCapability => !UniqueCapabilities(steps)
    case MandatoryCapabilityMissing(_) => RuleBroken(catalog, ByCapability(steps), error)
    case MandatoryStepNotRequired(_) => RuleBroken(catalog, ByCapability(steps), error)
    case TimeoutExceedsLimit(_) => RuleBroken(catalog, ByCapability(steps), error)
    case EvidenceRefInvalid(_) => RuleBroken(catalog, ByCapability(steps), error)
    case DependencyInvalid(_) => DependencyBroken(steps, ById(steps), error)
    case PlanCycle => HasCycle(Dependencies(ById(steps)))
    case PrerequisiteMissing(_, _) => PrerequisiteBroken(catalog, ById(steps), ByCapability(steps), error)
  }

  ghost predicate RuleBroken(catalog: seq<Spec>, byCapability: map<string, PlanStep>, error: Error) {
    exists spec :: spec in catalog && BreaksRule(spec, byCapability, error)
  }

  predicate BreaksRule(spec: Spec, byCapability: map<string, PlanStep>, error: Error) {
    if spec.name !in byCapability then error == MandatoryCapabilityMissing(spec.name) && spec.mandatory
    else
      var step := byCapability[spec.name];
      || (error == MandatoryStepNotRequired(step.id) && !step.required)
      || (error == TimeoutExceedsLimit(step.id) && step.timeout > spec.maxTimeout)
      || (error == EvidenceRefInvalid(step.id) && exists ref :: ref in step.evidenceRefs && !Allowed(ref))
  }

  method CheckRules(catalog: seq<Spec>, byCapability: map<string, PlanStep>) returns (errors: seq<Error>)
    ensures forall e :: e in errors <==> RuleBroken(catalog, byCapability, e)
  {
    errors := [];
    for i := 0 to |catalog|
      invariant forall e :: e in errors <==> RuleBroken(catalog[..i], byCapability, e)
    {
      var spec := catalog[i];
      var own: seq<Error> := [];
      if spec.name !in byCapability {
        if spec.mandatory {
          own := [MandatoryCapabilityMissing(spec.name)];
        }
      } else {
        var step := byCapability[spec.name];
        if !step.required {
          own := own + [MandatoryStepNotRequired(step.id)];
        }
        if step.timeout > spec.maxTimeout {
          own := own + [TimeoutExceedsLimit(step.id)];
        }
        if exists ref :: ref in step.evidenceRefs && !Allowed(ref) {
          own := own + [EvidenceRefInvalid(step.id)];
        }
      }
      assert forall e :: e in own <==> BreaksRule(spec, byCapability, e);
      assert catalog[..i + 1] == catalog[..i] + [spec];
      forall e ensures RuleBroken(catalog[..i + 1], byCapability, e)
                  <==> RuleBroken(catalog[..i], byCapability, e) || BreaksRule(spec, byCapability, e)
      {
      }
      errors := errors + own;
    }
    assert catalog[..|catalog|] == catalog;
  }

  predicate BadDependency(step: PlanStep, byId: map<string, PlanStep>) {
    step.id in step.dependsOn || exists d :: d in step.dependsOn && d !in byId
  }

  ghost predicate DependencyBroken(steps: seq<PlanStep>, byId: map<string, PlanStep>, error: Error) {
    error.DependencyInvalid? && exists s :: s in steps && s.id == error.step && BadDependency(s, byId)
  }

  method CheckDependencies(steps: seq<PlanStep>, byId: map<string, PlanStep>) returns (errors: seq<Error>)
    ensures forall e :: e in errors <==> DependencyBroken(steps, byId, e)
  {
    errors := [];
    for i := 0 to |steps|
      invariant forall e :: e in errors <==> DependencyBroken(steps[..i], byId, e)
    {
      assert steps[..i + 1] == steps[..i] + [steps[i]];
      if BadDependency(steps[i], byId) {
        errors := errors + [DependencyInvalid(steps[i].id)];
      }
    }
    assert steps[..|steps|] == steps;
  }

  method SpecOf(catalog: seq<Spec>, name: string) returns (spec: Spec)
    requires UniqueNames(catalog) && exists s :: s in catalog && s.name == name
    ensures spec in catalog && forall s :: s in catalog && s.name == name <==> s == spec
  {
    var i := 0;
    while catalog[i].name != name
      invariant i < |catalog| && forall k :: 0 <= k < i ==> catalog[k].name != name
      decreases |catalog| - i
    {
      i := i + 1;
    }
    spec := catalog[i];
  }

  ghost predicate LacksPrerequisite(catalog: seq<Spec>, byId: map<string, PlanStep>, step: PlanStep,
                                    prerequisite: string) {
    exists spec :: spec in catalog && spec.name == step.capability && prerequisite in spec.prerequisites
                   && step.id in byId && prerequisite !in Ancestors(byId, step.id)
  }

  ghost predicate PrerequisiteBroken(catalog: seq<Spec>, byId: map<string, PlanStep>,
                                     byCapability: map<string, PlanStep>, error: Error) {
    error.PrerequisiteMissing? && error.capability in byCapability
    && LacksPrerequisite(catalog, byId, byCapability[error.capability], error.prerequisite)
  }

  /** Each chosen step is known by its id, and its capability is in the catalog, once. */
  ghost predicate Served(catalog: seq<Spec>, byId: map<string, PlanStep>, byCapability: map<string, PlanStep>) {
    && UniqueNames(catalog)
    && forall c :: c in byCapability ==>
         byCapability[c].capability == c && byCapability[c].id in byId && exists s :: s in catalog && s.name == c
  }

  lemma CoveredIsServed(catalog: seq<Spec>, steps: seq<PlanStep>)
    requires Covers(catalog, steps)
    ensures Served(catalog, ById(steps), ByCapability(steps))
  {
    hide ById, ByCapability;
  }

  method CheckPrerequisites(catalog: seq<Spec>, byId: map<string, PlanStep>, byCapability: map<string, PlanStep>)
    returns (errors: seq<Error>)
    requires Served(catalog, byId, byCapability)
    ensures forall e :: e in errors <==> PrerequisiteBroken(catalog, byId, byCapability, e)
  {
    errors := [];
    var rest := byCapability.Keys;
    while rest != {}
      invariant rest <= byCapability.Keys
      invariant forall e :: e in errors <==>
        PrerequisiteBroken(catalog, byId, byCapability, e) && e.capability !in rest
    {
      var c :| c in rest;
      var spec := SpecOf(catalog, c);
      var ancestors := AncestorCapabilities(byCapability[c].id, byId);
      var own: seq<Error> := [];
      for k := 0 to |spec.prerequisites|
        invariant forall e :: e in own <==>
          e.PrerequisiteMissing? && e.capability == c && e.prerequisite in spec.prerequisites[..k]
          && e.prerequisite !in ancestors
      {
        if spec.prerequisites[k] !in ancestors {
          own := own + [PrerequisiteMissing(c, spec.prerequisites[k])];
        }
      }
      assert spec.prerequisites[..|spec.prerequisites|] == spec.prerequisites;
      forall p
        ensures LacksPrerequisite(catalog, byId, byCapability[c], p) <==> p in spec.prerequisites && p !in ancestors {
      }
      errors, rest := errors + own, rest - {c};
    }
  }

  method CheckDuplicates(steps: seq<PlanStep>, byId: map<string, PlanStep>, byCapability: map<string, PlanStep>)
    returns (errors: seq<Error>)
    requires byId == ById(steps) && byCapability == ByCapability(steps)
    ensures forall e :: e in errors <==>
              (e.DuplicateStepId? && !UniqueIds(steps)) || (e.DuplicateCapability? && !UniqueCapabilities(steps))
  {
    hide UniqueIds, UniqueCapabilities, ById, ByCapability;
    DictionarySizes(steps);
    errors := [];
    if |byId| != |steps| {
      errors := errors + [DuplicateStepId];
    }
    if |byCapability| != |steps| {
      errors := errors + [DuplicateCapability];
    }
  }

  /** Accepts a plan, or refuses it with everything there is to report. */
  method Validate(catalog: seq<Spec>, steps: seq<PlanStep>) returns (result: Result<seq<PlanStep>, set<Error>>)
    requires Covers(catalog, steps)
    ensures result.Ok? ==> result.value == steps && Accepted(catalog, steps)
    ensures result.Err? ==> result.error != {} && forall e :: e in result.error <==> Reported(catalog, steps, e)
  {
    hide Reported, HasCycle, RuleBroken, DependencyBroken, PrerequisiteBroken, UniqueIds, UniqueCapabilities;
    hide ById, ByCapability, Covers, Served;
    var byId, byCapability := ById(steps), ByCapability(steps);
    var repeated := CheckDuplicates(steps, byId, byCapability);
    var broken := CheckRules(catalog, byCapability);
    var invalid := CheckDependencies(steps, byId);
    var cyclic := FindCycle(Dependencies(byId));
    var cycle: seq<Error> := if cyclic then [PlanCycle] else [];
    CoveredIsServed(catalog, steps);
    var missing := CheckPrerequisites(catalog, byId, byCapability);
    var errors := repeated + broken + invalid + cycle + missing;
    forall e ensures e in errors <==> Reported(catalog, steps, e) {
      ErrorKinds(catalog, steps, e);
    }
    if errors != [] {
      assert errors[0] in errors;
      result := Err(set e | e in errors);
      assert forall e :: e in result.error <==> e in errors;
    } else {
      result := Ok(steps);
    }
  }

  /** Each check reports only its own kinds of error. */
  lemma ErrorKinds(catalog: seq<Spec>, steps: seq<PlanStep>, error: Error)
    ensures Reported(catalog, steps, error) <==>
            || (error.DuplicateStepId? && !UniqueIds(steps))
            || (error.DuplicateCapability? && !UniqueCapabilities(steps))
            || RuleBroken(catalog, ByCapability(steps), error)
            || DependencyBroken(steps, ById(steps), error)
            || (error.PlanCycle? && HasCycle(Dependencies(ById(steps))))
            || PrerequisiteBroken(catalog, ById(steps), ByCapability(steps), error)
  {
    hide UniqueIds, UniqueCapabilities, HasCycle, ById, ByCapability, LacksPrerequisite, BadDependency;
  }

  ghost predicate Accepted(catalog: seq<Spec>, steps: seq<PlanStep>) {
    forall e :: !Reported(catalog, steps, e)
  }
}

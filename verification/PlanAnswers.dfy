/** What each error of the plan validator says about the plan, read off its steps and the catalog. */
module PlanAnswers {
  import opened Digraph
  import opened PlanValidator

  /** The step that stands for a capability: the last one that names it. */
  predicate StandsForCapability(steps: seq<PlanStep>, capability: string, i: int) {
    && 0 <= i < |steps| && steps[i].capability == capability
    && forall j :: i < j < |steps| ==> steps[j].capability != capability
  }

  lemma StandsForCapabilityBefore(steps: seq<PlanStep>, capability: string, i: int)
    requires steps != []
    ensures var n := |steps| - 1;
            StandsForCapability(steps, capability, i) <==>
              if steps[n].capability == capability then i == n else StandsForCapability(steps[..n], capability, i)
  {
    var n := |steps| - 1;
    assert 0 <= i < n ==> steps[..n][i] == steps[i];
    assert forall j :: 0 <= j < n ==> steps[..n][j] == steps[j];
  }

  lemma {:induction false} CapabilityStandsIn(steps: seq<PlanStep>, capability: string)
    ensures capability in ByCapability(steps) <==> exists i :: StandsForCapability(steps, capability, i)
    ensures forall i :: StandsForCapability(steps, capability, i) ==>
              0 <= i < |steps| && capability in ByCapability(steps) && ByCapability(steps)[capability] == steps[i]
  {
    if steps == [] {
    } else {
      hide StandsForCapability;
      var n := |steps| - 1;
      CapabilityStandsIn(steps[..n], capability);
      forall i
        ensures StandsForCapability(steps, capability, i) <==>
                  if steps[n].capability == capability then i == n
                  else StandsForCapability(steps[..n], capability, i)
      {
        StandsForCapabilityBefore(steps, capability, i);
      }
      assert steps[n].capability == capability ==> StandsForCapability(steps, capability, n);
    }
  }

  /** The step that stands for an id: the last one that carries it. */
  predicate StandsForId(steps: seq<PlanStep>, id: string, i: int) {
    0 <= i < |steps| && steps[i].id == id && forall j :: i < j < |steps| ==> steps[j].id != id
  }

  lemma StandsForIdBefore(steps: seq<PlanStep>, id: string, i: int)
    requires steps != []
    ensures var n := |steps| - 1;
            StandsForId(steps, id, i) <==>
              if steps[n].id == id then i == n else StandsForId(steps[..n], id, i)
  {
    var n := |steps| - 1;
    assert 0 <= i < n ==> steps[..n][i] == steps[i];
    assert forall j :: 0 <= j < n ==> steps[..n][j] == steps[j];
  }

  lemma {:induction false} IdStandsIn(steps: seq<PlanStep>, id: string)
    ensures id in ById(steps) <==> exists i :: StandsForId(steps, id, i)
    ensures forall i :: StandsForId(steps, id, i) ==>
              0 <= i < |steps| && id in ById(steps) && ById(steps)[id] == steps[i]
  {
    if steps == [] {
    } else {
      hide StandsForId;
      var n := |steps| - 1;
      IdStandsIn(steps[..n], id);
      forall i ensures StandsForId(steps, id, i)
                  <==> if steps[n].id == id then i == n else StandsForId(steps[..n], id, i)
      {
        StandsForIdBefore(steps, id, i);
      }
      assert steps[n].id == id ==> StandsForId(steps, id, n);
    }
  }

  /** None of the kinds of evidence that a plan may cite. */
  predicate IsForeign(ref: string) {
    !("evidence:" <= ref) && !("revision:" <= ref) && !("finding:" <= ref) && !("static-report:" <= ref)
  }

  lemma ForeignIsNotAllowed(ref: string)
    ensures IsForeign(ref) <==> !Allowed(ref)
  {
    assert EVIDENCE_PREFIXES[0] == "evidence:" && EVIDENCE_PREFIXES[1] == "revision:"
        && EVIDENCE_PREFIXES[2] == "finding:" && EVIDENCE_PREFIXES[3] == "static-report:";
  }

  predicate IsKnown(steps: seq<PlanStep>, id: string) {
    exists i :: 0 <= i < |steps| && steps[i].id == id
  }

  /** From one known id to another that its step depends on. */
  ghost predicate Needs(steps: seq<PlanStep>, id: string, other: string) {
    IsKnown(steps, other) && exists i :: StandsForId(steps, id, i) && other in steps[i].dependsOn
  }

  ghost predicate IsCircle(steps: seq<PlanStep>, w: seq<string>) {
    |w| >= 2 && w[0] == w[|w| - 1] && forall k :: 0 <= k < |w| - 1 ==> Needs(steps, w[k], w[k + 1])
  }

  /** The step breaks this rule of the specification of its capability. */
  predicate BreaksAs(spec: Spec, s: PlanStep, error: Error) {
    match error
    case MandatoryStepNotRequired(id) => s.id == id && !s.required
    case TimeoutExceedsLimit(id) => s.id == id && s.timeout > spec.maxTimeout
    case EvidenceRefInvalid(id) => s.id == id && exists ref :: ref in s.evidenceRefs && IsForeign(ref)
    case _ => false
  }

  ghost predicate IsBroken(steps: seq<PlanStep>, spec: Spec, error: Error) {
    exists i :: StandsForCapability(steps, spec.name, i) && BreaksAs(spec, steps[i], error)
  }

  /** The capability of the step has a prerequisite that is not found among those of its dependencies. */
  ghost predicate Lacks(catalog: seq<Spec>, steps: seq<PlanStep>, s: PlanStep, prerequisite: string)
    requires s in steps
  {
    && prerequisite !in Ancestors(ById(steps), s.id)
    && exists spec :: spec in catalog && spec.name == s.capability && prerequisite in spec.prerequisites
  }

  /** What each error says. */
  ghost predicate Deserved(catalog: seq<Spec>, steps: seq<PlanStep>, error: Error) {
    match error
    case DuplicateStepId => exists i, j :: 0 <= i < j < |steps| && steps[i].id == steps[j].id
    case DuplicateCapability => exists i, j :: 0 <= i < j < |steps| && steps[i].capability == steps[j].capability
    case MandatoryCapabilityMissing(c) =>
      exists spec :: spec in catalog && spec.name == c && spec.mandatory && forall s :: s in steps ==> s.capability != c
    case MandatoryStepNotRequired(_) => exists spec :: spec in catalog && IsBroken(steps, spec, error)
    case TimeoutExceedsLimit(_) => exists spec :: spec in catalog && IsBroken(steps, spec, error)
    case EvidenceRefInvalid(_) => exists spec :: spec in catalog && IsBroken(steps, spec, error)
    case DependencyInvalid(id) =>
      exists s :: s in steps && s.id == id
                  && (id in s.dependsOn || exists d :: d in s.dependsOn && !IsKnown(steps, d))
    case PlanCycle => exists w :: IsCircle(steps, w)
    case PrerequisiteMissing(c, p) =>
      exists i :: StandsForCapability(steps, c, i) && Lacks(catalog, steps, steps[i], p)
  }

  lemma DuplicatesMean(steps: seq<PlanStep>)
    ensures !UniqueIds(steps) <==> exists i, j :: 0 <= i < j < |steps| && steps[i].id == steps[j].id
    ensures !UniqueCapabilities(steps)
       <==> exists i, j :: 0 <= i < j < |steps| && steps[i].capability == steps[j].capability
  {
    var ids, names := Ids(steps), Named(steps);
    if i, j :| 0 <= i < j < |steps| && steps[i].id == steps[j].id {
      assert ids[i] == ids[j];
    }
    if i, j :| 0 <= i < j < |steps| && steps[i].capability == steps[j].capability {
      assert names[i] == names[j];
    }
  }

  lemma MissingMeans(catalog: seq<Spec>, steps: seq<PlanStep>, c: string)
    ensures Reported(catalog, steps, MandatoryCapabilityMissing(c))
       <==> Deserved(catalog, steps, MandatoryCapabilityMissing(c))
  {
    hide ByCapability;
    KnownCapability(steps, c);
    assert (forall s :: s in steps ==> s.capability != c) <==> c !in Named(steps) by {
      assert forall i :: 0 <= i < |steps| ==> Named(steps)[i] == steps[i].capability;
    }
  }

  lemma BrokenMeans(steps: seq<PlanStep>, spec: Spec, error: Error)
    requires error.MandatoryStepNotRequired? || error.TimeoutExceedsLimit? || error.EvidenceRefInvalid?
    ensures BreaksRule(spec, ByCapability(steps), error) <==> IsBroken(steps, spec, error)
  {
    hide ByCapability, Allowed, IsForeign;
    CapabilityStandsIn(steps, spec.name);
    forall ref ensures IsForeign(ref) <==> !Allowed(ref) {
      ForeignIsNotAllowed(ref);
    }
  }

  lemma DependenciesMean(steps: seq<PlanStep>, error: Error)
    requires error.DependencyInvalid?
    ensures DependencyBroken(steps, ById(steps), error) <==> Deserved([], steps, error)
  {
    hide ById;
    forall d ensures d in ById(steps) <==> IsKnown(steps, d) {
      KnownId(steps, d);
      assert d in Ids(steps) <==> IsKnown(steps, d) by {
        assert forall i :: 0 <= i < |steps| ==> Ids(steps)[i] == steps[i].id;
      }
    }
  }

  lemma NeedIsEdge(steps: seq<PlanStep>, id: string, other: string)
    ensures Edge(Dependencies(ById(steps)), id, other) <==> Needs(steps, id, other)
  {
    hide ById;
    IdStandsIn(steps, id);
    KnownId(steps, other);
    assert other in Ids(steps) <==> IsKnown(steps, other) by {
      assert forall i :: 0 <= i < |steps| ==> Ids(steps)[i] == steps[i].id;
    }
  }

  lemma CyclesMean(steps: seq<PlanStep>)
    ensures HasCycle(Dependencies(ById(steps))) <==> exists w :: IsCircle(steps, w)
  {
    hide ById, Needs, Dependencies;
    var g := Dependencies(ById(steps));
    if w :| IsCycle(g, w) {
      forall k | 0 <= k < |w| - 1 ensures Needs(steps, w[k], w[k + 1]) {
        NeedIsEdge(steps, w[k], w[k + 1]);
      }
      assert IsCircle(steps, w);
    }
    if w :| IsCircle(steps, w) {
      forall k | 0 <= k < |w| - 1 ensures Edge(g, w[k], w[k + 1]) {
        NeedIsEdge(steps, w[k], w[k + 1]);
      }
      forall k | 0 <= k < |w| ensures w[k] in g {
        if k < |w| - 1 {
          assert Edge(g, w[k], w[k + 1]);
        } else {
          assert Edge(g, w[0], w[1]) && w[k] == w[0];
        }
      }
      assert IsWalk(g, w) && IsCycle(g, w);
    }
  }

  lemma LackingMeans(catalog: seq<Spec>, steps: seq<PlanStep>, s: PlanStep, prerequisite: string)
    requires s in steps
    ensures LacksPrerequisite(catalog, ById(steps), s, prerequisite) <==> Lacks(catalog, steps, s, prerequisite)
  {
    hide ById, Ancestors;
  }

  lemma PrerequisitesMean(catalog: seq<Spec>, steps: seq<PlanStep>, error: Error)
    requires error.PrerequisiteMissing?
    ensures PrerequisiteBroken(catalog, ById(steps), ByCapability(steps), error) <==> Deserved(catalog, steps, error)
  {
    hide ById, ByCapability, Ancestors, StandsForCapability, Lacks, LacksPrerequisite;
    CapabilityStandsIn(steps, error.capability);
    if error.capability in ByCapability(steps) {
      LackingMeans(catalog, steps, ByCapability(steps)[error.capability], error.prerequisite);
    }
  }

  /** An error is reported if and only if what it says is so. */
  lemma ErrorsMean(catalog: seq<Spec>, steps: seq<PlanStep>, error: Error)
    ensures Reported(catalog, steps, error) <==> Deserved(catalog, steps, error)
  {
    hide UniqueIds, UniqueCapabilities, ById, ByCapability, HasCycle, IsCircle, IsBroken, BreaksRule, DependencyBroken;
    hide PrerequisiteBroken;
    match error
    case DuplicateStepId => DuplicatesMean(steps);
    case DuplicateCapability => DuplicatesMean(steps);
    case MandatoryCapabilityMissing(c) => MissingMeans(catalog, steps, c);
    case DependencyInvalid(_) => DependenciesMean(steps, error);
    case PlanCycle => CyclesMean(steps);
    case PrerequisiteMissing(_, _) => PrerequisitesMean(catalog, steps, error);
    case _ =>
      forall spec ensures BreaksRule(spec, ByCapability(steps), error) <==> IsBroken(steps, spec, error) {
        BrokenMeans(steps, spec, error);
      }
  }
}

/** The deterministic planner: one step per capability, each after the one before it. */
module ReferencePlanner {
  import opened Wrappers
  import opened Characters
  import opened Ordering
  import opened PlanValidator
  import opened PlanOrder

  /** The fixed capabilities of an audit. */
  const CATALOG: seq<Spec> := [
    Spec("provision_shadow_db", true, 60, []),
    Spec("upgrade_baseline", true, 180, ["provision_shadow_db"]),
    Spec("apply_target_migrations", true, 180, ["upgrade_baseline"]),
    Spec("load_test_data", true, 120, ["apply_target_migrations"]),
    Spec("run_smoke_checks", true, 120, ["load_test_data"]),
    Spec("verify_rollback_roundtrip", true, 300, ["run_smoke_checks"]),
    Spec("collect_evidence", true, 60, ["verify_rollback_roundtrip"]),
    Spec("cleanup_shadow_environment", true, 60, ["collect_evidence"])
  ]

  lemma CatalogIsChain()
    ensures IsChain(CATALOG)
  {
    forall i, j | 0 <= i < j < |CATALOG| ensures CATALOG[i].name != CATALOG[j].name {
      assert |CATALOG[i].name| != |CATALOG[j].name| || CATALOG[i].name[0] != CATALOG[j].name[0];
    }
  }

  /** The distinct evidence ids of the observations. */
  function EvidenceOf(observations: seq<seq<string>>): (ids: set<string>) {
    set o, id | o in observations && id in o :: id
  }

  function AtMostFour(ids: seq<string>): (first: seq<string>) {
    if |ids| <= 4 then ids else ids[..4]
  }

  /** The four smallest evidence ids, or all when there are fewer. */
  ghost function CitedEvidence(observations: seq<seq<string>>): (refs: seq<string>) {
    AtMostFour(InOrder(EvidenceOf(observations)))
  }

  function ReferenceStep(catalog: seq<Spec>, refs: seq<string>, k: nat): (step: PlanStep)
    requires k < |catalog|
  {
    PlanStep(catalog[k].name, catalog[k].name, if k == 0 then [] else [catalog[k - 1].name],
             catalog[k].maxTimeout, true, refs)
  }

  function ReferenceSteps(catalog: seq<Spec>, refs: seq<string>): (steps: seq<PlanStep>)
    ensures |steps| == |catalog| && forall k :: 0 <= k < |steps| ==> steps[k] == ReferenceStep(catalog, refs, k)
  {
    seq(|catalog|, k requires 0 <= k < |catalog| => ReferenceStep(catalog, refs, k))
  }

  method Invoke(catalog: seq<Spec>, observations: seq<seq<string>>) returns (steps: seq<PlanStep>)
    ensures steps == ReferenceSteps(catalog, CitedEvidence(observations))
  {
    hide InOrder, EvidenceOf, AtMostFour;
    var evidence := SortSet(EvidenceOf(observations));
    var refs := AtMostFour(evidence);
    var prior: Option<string> := None;
    steps := [];
    for k := 0 to |catalog|
      invariant steps == ReferenceSteps(catalog, refs)[..k]
      invariant prior == if k == 0 then None else Some(catalog[k - 1].name)
    {
      assert ReferenceSteps(catalog, refs)[k] == ReferenceStep(catalog, refs, k);
      var spec := catalog[k];
      var dependsOn := if prior.None? then [] else [prior.value];
      steps := steps + [PlanStep(spec.name, spec.name, dependsOn, spec.maxTimeout, true, refs)];
      prior := Some(spec.name);
    }
  }

  lemma ReferenceIsLadder(catalog: seq<Spec>, refs: seq<string>)
    requires IsChain(catalog) && forall ref :: ref in refs ==> Allowed(ref)
    ensures Ladder(catalog, ReferenceSteps(catalog, refs), ReferenceSteps(catalog, refs))
  {
    hide Allowed, Chained;
    var steps := ReferenceSteps(catalog, refs);
    forall k | 0 <= k < |steps| ensures InPlace(catalog, steps, k) {
      if k > 0 {
        assert Ids(steps)[..k][k - 1] == catalog[k - 1].name;
      }
    }
    forall i, j | 0 <= i < j < |steps| ensures Ids(steps)[i] != Ids(steps)[j] {
      assert catalog[i].name != catalog[j].name;
    }
  }

  lemma ReferenceIsCovered(catalog: seq<Spec>, refs: seq<string>)
    requires UniqueNames(catalog)
    ensures Covers(catalog, ReferenceSteps(catalog, refs))
  {
    forall s | s in ReferenceSteps(catalog, refs) ensures exists spec :: spec in catalog && spec.name == s.capability {
      var k :| 0 <= k < |catalog| && ReferenceSteps(catalog, refs)[k] == s;
      assert catalog[k] in catalog;
    }
  }

  /** The reference plan is accepted exactly when every piece of evidence it cites has an allowed prefix. */
  lemma ReferenceAcceptedIff(catalog: seq<Spec>, refs: seq<string>)
    requires IsChain(catalog) && catalog != []
    ensures Accepted(catalog, ReferenceSteps(catalog, refs)) <==> forall ref :: ref in refs ==> Allowed(ref)
  {
    hide Accepted, Ladder, Allowed, InPlace, Covers;
    var steps := ReferenceSteps(catalog, refs);
    if forall ref :: ref in refs ==> Allowed(ref) {
      ReferenceIsLadder(catalog, refs);
      LadderIsAccepted(catalog, steps, steps);
    }
    if Accepted(catalog, steps) {
      assert Covers(catalog, steps) by { ReferenceIsCovered(catalog, refs); }
      var order := AcceptedIsLadder(catalog, steps);
      LadderKeepsEvidence(catalog, steps, order);
      assert steps[0] in steps;
    }
  }

  lemma LadderKeepsEvidence(catalog: seq<Spec>, steps: seq<PlanStep>, order: seq<PlanStep>)
    requires Ladder(catalog, steps, order)
    ensures forall s, ref :: s in steps && ref in s.evidenceRefs ==> Allowed(ref)
  {
    hide Allowed, Ladder;
    forall s, ref | s in steps && ref in s.evidenceRefs ensures Allowed(ref) {
      var k := PlaceOf(catalog, steps, order, s);
      LadderParts(catalog, steps, order);
    }
  }

  predicate IsObserved(observations: seq<seq<string>>, id: string) {
    exists o :: o in observations && id in o
  }

  /** At most four ids, each observed, in strictly growing order, and none smaller left out. */
  ghost predicate AreCited(observations: seq<seq<string>>, refs: seq<string>) {
    && |refs| <= 4 && (forall i, j :: 0 <= i < j < |refs| ==> Precedes(Points(refs[i]), Points(refs[j])))
    && (forall i :: 0 <= i < |refs| ==> IsObserved(observations, refs[i]))
    && forall id :: IsObserved(observations, id) && id !in refs ==>
         |refs| == 4 && forall i :: 0 <= i < |refs| ==> Precedes(Points(refs[i]), Points(id))
  }

  lemma CitedAreSmallest(observations: seq<seq<string>>)
    ensures AreCited(observations, CitedEvidence(observations))
  {
    hide InOrder, Precedes, IsObserved, Points;
    var observed := EvidenceOf(observations);
    var all, refs := InOrder(observed), CitedEvidence(observations);
    forall id ensures id in all <==> IsObserved(observations, id) {
      InOrderHolds(observed, id);
      ObservedIs(observations, id);
    }
    FirstAreIn(all);
    forall i, j | 0 <= i < j < |all| ensures Precedes(Points(all[i]), Points(all[j])) {
      InOrderAt(observed, i, j);
    }
    forall i | 0 <= i < |refs| ensures IsObserved(observations, refs[i]) {
      assert refs[i] == all[i] && all[i] in all;
    }
    forall id | IsObserved(observations, id) && id !in refs
      ensures |refs| == 4 && forall i :: 0 <= i < |refs| ==> Precedes(Points(refs[i]), Points(id))
    {
      var k :| 0 <= k < |all| && all[k] == id;
    }
  }

  lemma FirstAreIn(all: seq<string>)
    ensures forall k :: 0 <= k < |AtMostFour(all)| ==> all[k] in AtMostFour(all)
  {
    assert forall k :: 0 <= k < |AtMostFour(all)| ==> AtMostFour(all)[k] == all[k];
  }

  lemma ObservedIs(observations: seq<seq<string>>, id: string)
    ensures id in EvidenceOf(observations) <==> IsObserved(observations, id)
  {
  }

  /** The plan, step by step: named after its capability, required, within its limit, after the one before it. */
  lemma PlanMeans(catalog: seq<Spec>, observations: seq<seq<string>>, k: nat)
    requires k < |catalog|
    ensures var steps := ReferenceSteps(catalog, CitedEvidence(observations));
            && |steps| == |catalog|
            && steps[k].id == catalog[k].name && steps[k].capability == catalog[k].name
            && steps[k].timeout == catalog[k].maxTimeout && steps[k].required
            && steps[k].dependsOn == (if k == 0 then [] else [steps[k - 1].id])
            && AreCited(observations, steps[k].evidenceRefs)
  {
    hide AreCited, CitedEvidence;
    CitedAreSmallest(observations);
  }
}

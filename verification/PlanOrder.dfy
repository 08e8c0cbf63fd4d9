/** What an accepted plan looks like when the catalog is a chain of mandatory capabilities. */
module PlanOrder {
  import opened Digraph
  import opened PlanValidator
  import opened Sequences

  /** Each capability is mandatory and has the one before it as its only prerequisite. */
  predicate IsChain(catalog: seq<Spec>) {
    && UniqueNames(catalog)
    && forall k {:trigger Chained(catalog, k)} :: 0 <= k < |catalog| ==> Chained(catalog, k)
  }

  predicate Chained(catalog: seq<Spec>, k: nat)
    requires k < |catalog|
  {
    catalog[k].mandatory && catalog[k].prerequisites == if k == 0 then [] else [catalog[k - 1].name]
  }

  /**
    The step at this place carries the capability of this place and keeps its rules. It depends on the
    step just before it, and otherwise only on earlier ones.
   */
  predicate InPlace(catalog: seq<Spec>, order: seq<PlanStep>, k: nat)
    requires k < |order| == |catalog|
  {
    && order[k].capability == catalog[k].name
    && order[k].required && order[k].timeout <= catalog[k].maxTimeout
    && (forall ref :: ref in order[k].evidenceRefs ==> Allowed(ref))
    && (k > 0 ==> order[k - 1].id in order[k].dependsOn)
    && (forall d :: d in order[k].dependsOn ==> d in Ids(order)[..k])
  }

  /** The steps, rearranged into catalog order, form a ladder. */
  ghost predicate Ladder(catalog: seq<Spec>, steps: seq<PlanStep>, order: seq<PlanStep>) {
    && multiset(order) == multiset(steps) && |order| == |catalog| && UniqueIds(order)
    && forall k {:trigger InPlace(catalog, order, k)} :: 0 <= k < |order| ==> InPlace(catalog, order, k)
  }

  /** The ids of the steps, each once, in an order in which every dependency comes first. */
  ghost predicate Topological(steps: seq<PlanStep>, ids: seq<string>) {
    && Distinct(ids) && (forall id :: id in ids <==> id in Ids(steps))
    && forall s, i :: s in steps && 0 <= i < |ids| && ids[i] == s.id ==> forall d :: d in s.dependsOn ==> d in ids[..i]
  }

  // --- A ladder has one order --------------------------------------------------------------------------

  lemma SameIds(a: seq<PlanStep>, b: seq<PlanStep>)
    requires multiset(a) == multiset(b)
    ensures forall id :: id in Ids(a) <==> id in Ids(b)
  {
    forall id ensures id in Ids(a) <==> id in Ids(b) {
      if id in Ids(a) {
        IdIsThere(a, b, id);
      }
      if id in Ids(b) {
        IdIsThere(b, a, id);
      }
    }
  }

  lemma IdIsThere(a: seq<PlanStep>, b: seq<PlanStep>, id: string)
    requires multiset(a) == multiset(b) && id in Ids(a)
    ensures id in Ids(b)
  {
    var i :| 0 <= i < |a| && Ids(a)[i] == id;
    assert a[i] in multiset(b);
    var j :| 0 <= j < |b| && b[j] == a[i];
    assert Ids(b)[j] == id;
  }

  lemma SameLength(a: seq<string>, b: seq<string>)
    requires Distinct(a) && Distinct(b) && forall x :: x in a <==> x in b
    ensures |a| == |b|
  {
    var all := set x | x in a;
    DistinctSize(a, all);
    DistinctSize(b, all);
  }

  lemma {:induction false} OrderIsForced(catalog: seq<Spec>, steps: seq<PlanStep>, order: seq<PlanStep>,
                                         ids: seq<string>, k: nat)
    requires Ladder(catalog, steps, order) && Topological(steps, ids) && |ids| == |order| && k <= |order|
    ensures ids[..k] == Ids(order)[..k]
  {
    hide Ladder, Topological;
    if k <= 0 {
    } else {
      OrderIsForced(catalog, steps, order, ids, k - 1);
      NextIsForced(catalog, steps, order, ids, k - 1);
      assert ids[..k] == ids[..k - 1] + [ids[k - 1]];
      assert Ids(order)[..k] == Ids(order)[..k - 1] + [Ids(order)[k - 1]];
    }
  }

  /** After an agreeing prefix only the next step of the ladder has all of its dependencies behind it. */
  lemma NextIsForced(catalog: seq<Spec>, steps: seq<PlanStep>, order: seq<PlanStep>, ids: seq<string>, k: nat)
    requires Ladder(catalog, steps, order) && Topological(steps, ids)
    requires k < |ids| == |order| && ids[..k] == Ids(order)[..k]
    ensures ids[k] == Ids(order)[k]
  {
    hide InPlace;
    SameIds(order, steps);
    assert ids[k] in Ids(order);
    var j :| 0 <= j < |order| && Ids(order)[j] == ids[k];
    assert order[j] in multiset(steps);
    assert j >= k by {
      assert forall i :: 0 <= i < k ==> ids[..k][i] == ids[i];
    }
    if j > k {
      assert InPlace(catalog, order, j);
      DependsOnBefore(catalog, order, j);
      assert false;
    }
  }

  lemma DependsOnBefore(catalog: seq<Spec>, order: seq<PlanStep>, j: nat)
    requires 0 < j < |order| == |catalog| && InPlace(catalog, order, j)
    ensures order[j - 1].id in order[j].dependsOn
  {
  }

  /** A ladder can be executed in one order only: the catalog's. */
  lemma LadderHasOneOrder(catalog: seq<Spec>, steps: seq<PlanStep>, order: seq<PlanStep>)
    requires Ladder(catalog, steps, order)
    ensures Topological(steps, Ids(order))
    ensures forall ids :: Topological(steps, ids) ==> ids == Ids(order)
  {
    SameIds(order, steps);
    forall s, i | s in steps && 0 <= i < |order| && Ids(order)[i] == s.id
      ensures forall d :: d in s.dependsOn ==> d in Ids(order)[..i] {
      assert s in multiset(order);
      var j :| 0 <= j < |order| && order[j] == s;
      assert Ids(order)[j] == s.id;
      assert InPlace(catalog, order, j);
    }
    forall ids | Topological(steps, ids) ensures ids == Ids(order) {
      SameLength(ids, Ids(order));
      OrderIsForced(catalog, steps, order, ids, |order|);
      assert ids[..|order|] == ids && Ids(order)[..|order|] == Ids(order);
    }
  }

  // --- A ladder is accepted ----------------------------------------------------------------------------

  /** Where a step of the plan stands on the ladder. */
  lemma PlaceOf(catalog: seq<Spec>, steps: seq<PlanStep>, order: seq<PlanStep>, step: PlanStep) returns (k: nat)
    requires Ladder(catalog, steps, order) && step in steps
    ensures k < |order| && order[k] == step && InPlace(catalog, order, k)
  {
    assert step in multiset(order);
    k :| 0 <= k < |order| && order[k] == step;
  }

  lemma OnLadder(catalog: seq<Spec>, steps: seq<PlanStep>, order: seq<PlanStep>, k: nat)
    requires Ladder(catalog, steps, order) && k < |order|
    ensures order[k] in steps && InPlace(catalog, order, k)
  {
    assert order[k] in multiset(steps);
  }

  lemma TwiceCounts<T>(s: seq<T>, i: nat, j: nat)
    requires i < j < |s| && s[i] == s[j]
    ensures multiset(s)[s[i]] >= 2
  {
    assert s == s[..j] + s[j..];
    assert s[i] in s[..j] && s[j] in s[j..] by {
      assert s[..j][i] == s[i] && s[j..][0] == s[j];
    }
  }

  lemma {:induction false} OnceEach(order: seq<PlanStep>, x: PlanStep)
    requires UniqueIds(order)
    ensures multiset(order)[x] <= 1
  {
    if order == [] {
    } else {
      var before, last := order[..|order| - 1], order[|order| - 1];
      assert order == before + [last];
      assert forall i :: 0 <= i < |before| ==> Ids(before)[i] == Ids(order)[i];
      OnceEach(before, x);
      forall i | 0 <= i < |before| ensures before[i] != last {
        assert Ids(order)[i] != Ids(order)[|before|];
      }
    }
  }

  /** Two steps of a ladder with the same id or the same capability are the same step, at one index. */
  lemma LadderIsDistinct(catalog: seq<Spec>, steps: seq<PlanStep>, order: seq<PlanStep>, i: nat, j: nat)
    requires UniqueNames(catalog) && Ladder(catalog, steps, order) && i < j < |steps|
    ensures steps[i].id != steps[j].id && steps[i].capability != steps[j].capability
  {
    hide Ladder, InPlace;
    var a := PlaceOf(catalog, steps, order, steps[i]);
    var b := PlaceOf(catalog, steps, order, steps[j]);
    if a == b {
      TwiceCounts(steps, i, j);
      LadderOnce(catalog, steps, order, steps[i]);
      assert false;
    }
    DistinctPlaces(catalog, steps, order, a, b);
  }

  lemma LadderOnce(catalog: seq<Spec>, steps: seq<PlanStep>, order: seq<PlanStep>, x: PlanStep)
    requires Ladder(catalog, steps, order)
    ensures multiset(steps)[x] <= 1
  {
    OnceEach(order, x);
  }

  lemma DistinctPlaces(catalog: seq<Spec>, steps: seq<PlanStep>, order: seq<PlanStep>, a: nat, b: nat)
    requires UniqueNames(catalog) && Ladder(catalog, steps, order) && a < |order| && b < |order| && a != b
    ensures order[a].id != order[b].id && order[a].capability != order[b].capability
  {
    assert InPlace(catalog, order, a) && InPlace(catalog, order, b);
    assert Ids(order)[a] != Ids(order)[b];
  }

  lemma LadderIsUnique(catalog: seq<Spec>, steps: seq<PlanStep>, order: seq<PlanStep>)
    requires UniqueNames(catalog) && Ladder(catalog, steps, order)
    ensures UniqueIds(steps) && UniqueCapabilities(steps)
  {
    hide Ladder;
    forall i, j | 0 <= i < j < |steps| ensures Ids(steps)[i] != Ids(steps)[j] && Named(steps)[i] != Named(steps)[j] {
      LadderIsDistinct(catalog, steps, order, i, j);
    }
  }

  /** The dictionaries of a ladder hold its steps. */
  lemma LadderIsIndexed(catalog: seq<Spec>, steps: seq<PlanStep>, order: seq<PlanStep>, k: nat)
    requires UniqueNames(catalog) && Ladder(catalog, steps, order) && k < |order|
    ensures order[k].id in ById(steps) && ById(steps)[order[k].id] == order[k]
    ensures catalog[k].name in ByCapability(steps) && ByCapability(steps)[catalog[k].name] == order[k]
  {
    hide Ladder, ById, ByCapability;
    LadderParts(catalog, steps, order);
    OnLadder(catalog, steps, order, k);
    var a := PlaceOf(catalog, steps, order, ById(steps)[order[k].id]);
    var b := PlaceOf(catalog, steps, order, ByCapability(steps)[catalog[k].name]);
    if a != k {
      DistinctPlaces(catalog, steps, order, a, k);
    }
    if b != k {
      DistinctPlaces(catalog, steps, order, b, k);
    }
  }

  function LadderRank(order: seq<PlanStep>): (rank: map<string, nat>)
    requires UniqueIds(order)
    ensures forall k :: 0 <= k < |order| ==> Ids(order)[k] in rank && rank[Ids(order)[k]] == k
    ensures forall id :: id in rank ==> rank[id] < |order| && Ids(order)[rank[id]] == id
  {
    map k | 0 <= k < |order| :: Ids(order)[k] := k
  }

  lemma LadderDescends(catalog: seq<Spec>, steps: seq<PlanStep>, order: seq<PlanStep>)
    requires UniqueNames(catalog) && Ladder(catalog, steps, order)
    ensures !HasCycle(Dependencies(ById(steps)))
  {
    hide HasCycle, ById, InPlace, Ladder, UniqueNames, UniqueIds, LadderRank;
    LadderParts(catalog, steps, order);
    var g, rank := Dependencies(ById(steps)), LadderRank(order);
    forall id ensures id in g.Keys <==> id in rank.Keys {
      KnownOnLadder(catalog, steps, order, id);
    }
    forall a, b | a in rank && b in g[a] && b in g ensures b in rank && rank[b] < rank[a] {
      EdgeDescends(catalog, steps, order, a, b);
    }
    RankedIsAcyclic(g, rank);
  }

  lemma KnownOnLadder(catalog: seq<Spec>, steps: seq<PlanStep>, order: seq<PlanStep>, id: string)
    requires Ladder(catalog, steps, order)
    ensures id in ById(steps) <==> id in LadderRank(order)
  {
    hide ById, InPlace, UniqueIds;
    if id in ById(steps) {
      var k := PlaceOf(catalog, steps, order, ById(steps)[id]);
      assert Ids(order)[k] == id;
    }
    if id in LadderRank(order) {
      OnLadder(catalog, steps, order, LadderRank(order)[id]);
    }
  }

  lemma EdgeDescends(catalog: seq<Spec>, steps: seq<PlanStep>, order: seq<PlanStep>, a: string, b: string)
    requires UniqueNames(catalog) && Ladder(catalog, steps, order)
    requires a in LadderRank(order) && a in ById(steps) && b in ById(steps)[a].dependsOn
    ensures b in LadderRank(order) && LadderRank(order)[b] < LadderRank(order)[a]
  {
    hide ById, InPlace, Ladder, UniqueNames, UniqueIds, LadderRank;
    LadderParts(catalog, steps, order);
    var k := LadderRank(order)[a];
    LadderIsIndexed(catalog, steps, order, k);
    OnLadder(catalog, steps, order, k);
    DependencyIsEarlier(catalog, order, k, b);
  }

  lemma DependencyIsEarlier(catalog: seq<Spec>, order: seq<PlanStep>, k: nat, d: string)
    requires k < |order| == |catalog| && InPlace(catalog, order, k) && UniqueIds(order) && d in order[k].dependsOn
    ensures d in LadderRank(order) && LadderRank(order)[d] < k
  {
    var i :| 0 <= i < k && Ids(order)[..k][i] == d;
    assert Ids(order)[i] == d;
  }

  lemma LadderHasPrerequisite(catalog: seq<Spec>, steps: seq<PlanStep>, order: seq<PlanStep>, k: nat)
    requires UniqueNames(catalog) && Ladder(catalog, steps, order) && 0 < k < |order|
    ensures order[k].id in ById(steps) && catalog[k - 1].name in Ancestors(ById(steps), order[k].id)
  {
    hide Ladder, ById, ByCapability, DependsOn, Ancestors, OnePerCapability, TwinsAgree, UniqueNames;
    var byId := ById(steps);
    LadderParts(catalog, steps, order);
    LadderIsIndexed(catalog, steps, order, k);
    LadderIsIndexed(catalog, steps, order, k - 1);
    OnLadder(catalog, steps, order, k);
    OnLadder(catalog, steps, order, k - 1);
    LadderHasOnePerCapability(catalog, steps, order);
    DirectIsFound(byId, order[k].id, order[k - 1].id);
  }

  lemma DirectIsFound(byId: map<string, PlanStep>, id: string, d: string)
    requires OnePerCapability(byId) && id in byId && d in byId[id].dependsOn && d in byId
    ensures byId[d].capability in Ancestors(byId, id)
  {
    hide OnePerCapability, TwinsAgree, DependsOn, Ancestors;
    OnePerCapabilityAgrees(byId);
    DirectDependency(byId, id, d);
    AncestorsAreAll(byId, id, byId[d].capability);
  }

  lemma LadderHasOnePerCapability(catalog: seq<Spec>, steps: seq<PlanStep>, order: seq<PlanStep>)
    requires UniqueNames(catalog) && Ladder(catalog, steps, order)
    ensures OnePerCapability(ById(steps))
  {
    hide Ladder, ById;
    var byId := ById(steps);
    forall a, b | a in byId && b in byId && byId[a].capability == byId[b].capability ensures a == b {
      var i := PlaceOf(catalog, steps, order, byId[a]);
      var j := PlaceOf(catalog, steps, order, byId[b]);
      if i != j {
        DistinctPlaces(catalog, steps, order, i, j);
      }
    }
  }

  lemma LadderKeepsRules(catalog: seq<Spec>, steps: seq<PlanStep>, order: seq<PlanStep>, error: Error)
    requires UniqueNames(catalog) && Ladder(catalog, steps, order)
    ensures !RuleBroken(catalog, ByCapability(steps), error)
  {
    hide Ladder, ById, ByCapability;
    assert |order| == |catalog| by { LadderParts(catalog, steps, order); }
    forall spec | spec in catalog ensures !BreaksRule(spec, ByCapability(steps), error) {
      var k :| 0 <= k < |catalog| && catalog[k] == spec;
      LadderIsIndexed(catalog, steps, order, k);
      OnLadder(catalog, steps, order, k);
    }
  }

  lemma LadderKeepsDependencies(catalog: seq<Spec>, steps: seq<PlanStep>, order: seq<PlanStep>, error: Error)
    requires UniqueNames(catalog) && Ladder(catalog, steps, order)
    ensures !DependencyBroken(steps, ById(steps), error)
  {
    hide Ladder, ById, LadderRank;
    assert |order| == |catalog| && UniqueIds(order) by { LadderParts(catalog, steps, order); }
    forall s | s in steps ensures !BadDependency(s, ById(steps)) {
      var k := PlaceOf(catalog, steps, order, s);
      forall d | d in s.dependsOn ensures d in ById(steps) && d != s.id {
        DependencyIsEarlier(catalog, order, k, d);
        var i := LadderRank(order)[d];
        assert Ids(order)[i] == d && Ids(order)[k] == s.id;
        LadderIsIndexed(catalog, steps, order, i);
      }
    }
  }

  lemma LadderParts(catalog: seq<Spec>, steps: seq<PlanStep>, order: seq<PlanStep>)
    requires Ladder(catalog, steps, order)
    ensures |order| == |catalog| && UniqueIds(order)
  {
  }

  lemma LadderKeepsPrerequisites(catalog: seq<Spec>, steps: seq<PlanStep>, order: seq<PlanStep>, error: Error)
    requires IsChain(catalog) && Ladder(catalog, steps, order)
    ensures !PrerequisiteBroken(catalog, ById(steps), ByCapability(steps), error)
  {
    hide Ladder, ById, ByCapability, Ancestors;
    if error.PrerequisiteMissing? && error.capability in ByCapability(steps) {
      var step := ByCapability(steps)[error.capability];
      var k := PlaceOf(catalog, steps, order, step);
      assert |order| == |catalog| by { LadderParts(catalog, steps, order); }
      assert Chained(catalog, k);
      if k > 0 {
        LadderHasPrerequisite(catalog, steps, order, k);
      }
      forall spec | spec in catalog && spec.name == step.capability ensures spec == catalog[k] {
        var j :| 0 <= j < |catalog| && catalog[j] == spec;
      }
    }
  }

  lemma LadderIsAccepted(catalog: seq<Spec>, steps: seq<PlanStep>, order: seq<PlanStep>)
    requires IsChain(catalog) && Ladder(catalog, steps, order)
    ensures Accepted(catalog, steps)
  {
    hide Ladder, Reported, RuleBroken, DependencyBroken, PrerequisiteBroken, HasCycle, ById, ByCapability;
    LadderIsUnique(catalog, steps, order);
    LadderDescends(catalog, steps, order);
    forall e ensures !Reported(catalog, steps, e) {
      LadderKeepsRules(catalog, steps, order, e);
      LadderKeepsDependencies(catalog, steps, order, e);
      LadderKeepsPrerequisites(catalog, steps, order, e);
      ErrorKinds(catalog, steps, e);
    }
  }

  // --- What is accepted is a ladder --------------------------------------------------------------------

  lemma SameId(steps: seq<PlanStep>, a: PlanStep, b: PlanStep)
    requires UniqueIds(steps) && a in steps && b in steps && a.id == b.id
    ensures a == b
  {
    var i :| 0 <= i < |steps| && steps[i] == a;
    var j :| 0 <= j < |steps| && steps[j] == b;
    assert Ids(steps)[i] == Ids(steps)[j];
  }

  lemma SameCapability(steps: seq<PlanStep>, a: PlanStep, b: PlanStep)
    requires UniqueCapabilities(steps) && a in steps && b in steps && a.capability == b.capability
    ensures a == b
  {
    var i :| 0 <= i < |steps| && steps[i] == a;
    var j :| 0 <= j < |steps| && steps[j] == b;
    assert Named(steps)[i] == Named(steps)[j];
  }

  lemma AcceptedIsUnique(catalog: seq<Spec>, steps: seq<PlanStep>)
    requires Accepted(catalog, steps)
    ensures UniqueIds(steps) && UniqueCapabilities(steps) && !HasCycle(Dependencies(ById(steps)))
  {
    hide UniqueIds, UniqueCapabilities, HasCycle, ById;
    assert !Reported(catalog, steps, DuplicateStepId);
    assert !Reported(catalog, steps, DuplicateCapability);
    assert !Reported(catalog, steps, PlanCycle);
  }

  lemma AcceptedKeepsRules(catalog: seq<Spec>, steps: seq<PlanStep>, k: nat)
    requires IsChain(catalog) && Accepted(catalog, steps) && k < |catalog|
    ensures catalog[k].name in ByCapability(steps)
    ensures var step := ByCapability(steps)[catalog[k].name];
            step.required && step.timeout <= catalog[k].maxTimeout
            && forall ref :: ref in step.evidenceRefs ==> Allowed(ref)
  {
    hide UniqueIds, UniqueCapabilities, HasCycle, ById, ByCapability, UniqueNames, Allowed;
    var spec, byCapability := catalog[k], ByCapability(steps);
    assert spec in catalog && Chained(catalog, k);
    assert !Reported(catalog, steps, MandatoryCapabilityMissing(spec.name));
    assert !BreaksRule(spec, byCapability, MandatoryCapabilityMissing(spec.name));
    var id := byCapability[spec.name].id;
    assert !Reported(catalog, steps, MandatoryStepNotRequired(id));
    assert !BreaksRule(spec, byCapability, MandatoryStepNotRequired(id));
    assert !Reported(catalog, steps, TimeoutExceedsLimit(id));
    assert !BreaksRule(spec, byCapability, TimeoutExceedsLimit(id));
    assert !Reported(catalog, steps, EvidenceRefInvalid(id));
    assert !BreaksRule(spec, byCapability, EvidenceRefInvalid(id));
  }

  lemma AcceptedKnowsDependencies(catalog: seq<Spec>, steps: seq<PlanStep>, step: PlanStep, d: string)
    requires Accepted(catalog, steps) && step in steps && d in step.dependsOn
    ensures d in ById(steps) && d != step.id
  {
    hide ById, UniqueIds, UniqueCapabilities, HasCycle;
    assert !Reported(catalog, steps, DependencyInvalid(step.id));
    assert !BadDependency(step, ById(steps));
  }

  /** The steps in the order of their capabilities. */
  function InCatalogOrder(catalog: seq<Spec>, steps: seq<PlanStep>): (order: seq<PlanStep>)
    requires forall k :: 0 <= k < |catalog| ==> catalog[k].name in ByCapability(steps)
    ensures |order| == |catalog|
    ensures forall k :: 0 <= k < |order| ==> order[k] in steps && order[k].capability == catalog[k].name
    ensures forall k :: 0 <= k < |order| ==> order[k] == ByCapability(steps)[catalog[k].name]
  {
    seq(|catalog|, k requires 0 <= k < |catalog| => ByCapability(steps)[catalog[k].name])
  }

  lemma CatalogOrderHasUniqueIds(catalog: seq<Spec>, steps: seq<PlanStep>, order: seq<PlanStep>)
    requires UniqueNames(catalog) && UniqueIds(steps) && |order| == |catalog|
    requires forall k :: 0 <= k < |order| ==> order[k] in steps && order[k].capability == catalog[k].name
    ensures UniqueIds(order)
  {
    forall i, j | 0 <= i < j < |order| ensures Ids(order)[i] != Ids(order)[j] {
      if order[i].id == order[j].id {
        SameId(steps, order[i], order[j]);
      }
    }
  }

  lemma CatalogOrderIsPermutation(catalog: seq<Spec>, steps: seq<PlanStep>, order: seq<PlanStep>)
    requires Covers(catalog, steps) && UniqueIds(steps) && UniqueCapabilities(steps)
    requires UniqueIds(order) && |order| == |catalog|
    requires forall k :: 0 <= k < |order| ==> order[k] in steps && order[k].capability == catalog[k].name
    ensures multiset(order) == multiset(steps)
  {
    hide UniqueIds, UniqueCapabilities, UniqueNames;
    forall x ensures multiset(order)[x] == multiset(steps)[x] {
      OnceEach(order, x);
      OnceEach(steps, x);
      if x in steps {
        StepIsPlaced(catalog, steps, order, x);
      }
      assert x in multiset(order) <==> x in multiset(steps) by {
        assert x in order <==> x in steps;
      }
    }
  }

  lemma StepIsPlaced(catalog: seq<Spec>, steps: seq<PlanStep>, order: seq<PlanStep>, x: PlanStep)
    requires Covers(catalog, steps) && UniqueCapabilities(steps) && x in steps && |order| == |catalog|
    requires forall k :: 0 <= k < |order| ==> order[k] in steps && order[k].capability == catalog[k].name
    ensures x in order
  {
    hide UniqueCapabilities;
    var spec :| spec in catalog && spec.name == x.capability;
    var k :| 0 <= k < |catalog| && catalog[k] == spec;
    SameCapability(steps, order[k], x);
  }

  /** The accepted steps in catalog order, each known by its id. */
  ghost predicate Sequenced(catalog: seq<Spec>, steps: seq<PlanStep>, order: seq<PlanStep>) {
    && IsChain(catalog) && Accepted(catalog, steps) && |order| == |catalog| && UniqueIds(order)
    && multiset(order) == multiset(steps)
    && forall k :: 0 <= k < |order| ==>
         order[k].capability == catalog[k].name && order[k].id in ById(steps) && ById(steps)[order[k].id] == order[k]
         && ByCapability(steps)[catalog[k].name] == order[k]
  }

  lemma AcceptedIsSequenced(catalog: seq<Spec>, steps: seq<PlanStep>) returns (order: seq<PlanStep>)
    requires IsChain(catalog) && Covers(catalog, steps) && Accepted(catalog, steps)
    ensures Sequenced(catalog, steps, order)
  {
    hide Accepted, ById, ByCapability, UniqueIds, UniqueCapabilities, Chained, UniqueNames, HasCycle, Allowed;
    hide InCatalogOrder, Covers;
    AcceptedIsUnique(catalog, steps);
    forall k | 0 <= k < |catalog| ensures catalog[k].name in ByCapability(steps) {
      AcceptedKeepsRules(catalog, steps, k);
    }
    order := InCatalogOrder(catalog, steps);
    CatalogOrderHasUniqueIds(catalog, steps, order);
    CatalogOrderIsPermutation(catalog, steps, order);
    forall k | 0 <= k < |order| ensures order[k].id in ById(steps) && ById(steps)[order[k].id] == order[k] {
      IndexedById(steps, order[k]);
    }
  }

  lemma IndexedById(steps: seq<PlanStep>, step: PlanStep)
    requires UniqueIds(steps) && step in steps
    ensures step.id in ById(steps) && ById(steps)[step.id] == step
  {
    hide UniqueIds, ById;
    SameId(steps, ById(steps)[step.id], step);
  }

  lemma SequencedFacts(catalog: seq<Spec>, steps: seq<PlanStep>, order: seq<PlanStep>, k: nat)
    requires Sequenced(catalog, steps, order) && k < |order|
    ensures |order| == |catalog| && order[k] in steps && order[k].capability == catalog[k].name
    ensures order[k].id in ById(steps) && ById(steps)[order[k].id] == order[k]
            && ByCapability(steps)[catalog[k].name] == order[k]
  {
    hide Accepted, ById, ByCapability, UniqueIds, Chained, UniqueNames;
    assert order[k] in multiset(steps);
  }

  /** Each step depends, over one or more dependencies, on the one before it. */
  lemma ReachesBefore(catalog: seq<Spec>, steps: seq<PlanStep>, order: seq<PlanStep>, k: nat)
    requires Sequenced(catalog, steps, order) && 0 < k < |order|
    ensures DependsOn(ById(steps), order[k].id, order[k - 1].id)
  {
    hide ById, ByCapability, DependsOn, Ancestors, Sequenced, UniqueCapabilities, UniqueIds, HasCycle, Distinct;
    SequencedFacts(catalog, steps, order, k);
    SequencedFacts(catalog, steps, order, k - 1);
    HasPrerequisite(catalog, steps, order, k);
    var byId, name := ById(steps), catalog[k - 1].name;
    AncestorsAreDependencies(byId, order[k].id, name);
    var d :| d in byId && DependsOn(byId, order[k].id, d) && byId[d].capability == name;
    assert UniqueCapabilities(steps) by { SequencedIsUnique(catalog, steps, order); }
    SameCapability(steps, byId[d], order[k - 1]);
  }

  lemma SequencedIsUnique(catalog: seq<Spec>, steps: seq<PlanStep>, order: seq<PlanStep>)
    requires Sequenced(catalog, steps, order)
    ensures UniqueCapabilities(steps) && UniqueIds(order) && !HasCycle(Dependencies(ById(steps)))
  {
    AcceptedIsUnique(catalog, steps);
  }

  lemma HasPrerequisite(catalog: seq<Spec>, steps: seq<PlanStep>, order: seq<PlanStep>, k: nat)
    requires Sequenced(catalog, steps, order) && 0 < k < |order|
    ensures order[k].id in ById(steps) && catalog[k - 1].name in Ancestors(ById(steps), order[k].id)
  {
    hide ById, ByCapability, UniqueIds, UniqueNames, HasCycle, Ancestors;
    SequencedFacts(catalog, steps, order, k);
    var error := PrerequisiteMissing(catalog[k].name, catalog[k - 1].name);
    assert Chained(catalog, k) && catalog[k] in catalog;
    assert !Reported(catalog, steps, error);
    assert catalog[k].name in ByCapability(steps) by { AcceptedKeepsRules(catalog, steps, k); }
  }

  lemma {:induction false} ReachesAllBefore(catalog: seq<Spec>, steps: seq<PlanStep>, order: seq<PlanStep>, k: nat,
                                            j: nat)
    requires Sequenced(catalog, steps, order) && j < k < |order|
    ensures DependsOn(ById(steps), order[k].id, order[j].id)
    decreases k
  {
    hide Sequenced, ById, DependsOn;
    ReachesBefore(catalog, steps, order, k);
    if k - 1 <= j {
    } else {
      ReachesAllBefore(catalog, steps, order, k - 1, j);
      Transitive(ById(steps), order[k].id, order[k - 1].id, order[j].id);
    }
  }

  lemma Transitive(byId: map<string, PlanStep>, a: string, b: string, c: string)
    requires DependsOn(byId, a, b) && DependsOn(byId, b, c)
    ensures DependsOn(byId, a, c)
  {
    var g := Dependencies(byId);
    var p :| DependsVia(g, a, p) && p[|p| - 1] == b;
    var q :| DependsVia(g, b, q) && q[|q| - 1] == c;
    var r := p + q[1..];
    forall i | 0 <= i < |r| - 1 ensures Edge(g, r[i], r[i + 1]) {
      if i < |p| - 1 {
        assert Edge(g, p[i], p[i + 1]);
      } else {
        assert Edge(g, q[i - |p| + 1], q[i - |p| + 2]);
      }
    }
    assert DependsVia(g, a, r);
  }

  /** A direct dependency of a step stands before it: otherwise there is a cycle. */
  lemma DirectIsEarlier(catalog: seq<Spec>, steps: seq<PlanStep>, order: seq<PlanStep>, k: nat,
                        d: string) returns (j: nat)
    requires Sequenced(catalog, steps, order) && k < |order| && d in order[k].dependsOn
    ensures j < k && order[j].id == d
  {
    hide ById, ByCapability, DependsOn, HasCycle, Accepted, IsChain, UniqueIds;
    SequencedFacts(catalog, steps, order, k);
    var byId := ById(steps);
    AcceptedKnowsDependencies(catalog, steps, order[k], d);
    assert byId[d] in multiset(order);
    j :| 0 <= j < |order| && order[j] == byId[d];
    if j >= k {
      DirectDependency(byId, order[k].id, d);
      if j > k {
        ReachesAllBefore(catalog, steps, order, j, k);
        Transitive(byId, order[k].id, d, order[k].id);
      }
      SelfDependencyIsCycle(byId, order[k].id);
      SequencedIsUnique(catalog, steps, order);
      assert false;
    }
  }

  lemma SelfDependencyIsCycle(byId: map<string, PlanStep>, id: string)
    requires DependsOn(byId, id, id)
    ensures HasCycle(Dependencies(byId))
  {
    var p :| DependsVia(Dependencies(byId), id, p) && p[|p| - 1] == id;
    assert IsCycle(Dependencies(byId), p);
  }

  lemma SequencedIsRanked(catalog: seq<Spec>, steps: seq<PlanStep>, order: seq<PlanStep>)
    requires Sequenced(catalog, steps, order)
    ensures UniqueIds(order) && Ranked(Dependencies(ById(steps)), LadderRank(order))
  {
    hide ById, ByCapability, Accepted, IsChain, Sequenced, UniqueIds, LadderRank;
    assert UniqueIds(order) by { SequencedIsUnique(catalog, steps, order); }
    var g, rank := Dependencies(ById(steps)), LadderRank(order);
    forall a | a in rank ensures a in g && forall b :: b in g[a] ==> b in rank && rank[b] < rank[a] {
      SequencedFacts(catalog, steps, order, rank[a]);
      forall b | b in g[a] ensures b in rank && rank[b] < rank[a] {
        var j := DirectIsEarlier(catalog, steps, order, rank[a], b);
        assert Ids(order)[j] == b;
      }
    }
  }

  /** So the dependency on the step before is a direct one: there is nothing between the two. */
  lemma DependsDirectly(catalog: seq<Spec>, steps: seq<PlanStep>, order: seq<PlanStep>, k: nat)
    requires Sequenced(catalog, steps, order) && 0 < k < |order|
    ensures order[k - 1].id in order[k].dependsOn
  {
    hide ById, ByCapability, Sequenced, Accepted, IsChain, HasCycle, UniqueIds, LadderRank, Ranked, Dependencies;
    SequencedFacts(catalog, steps, order, k);
    SequencedIsRanked(catalog, steps, order);
    ReachesBefore(catalog, steps, order, k);
    var g, rank := Dependencies(ById(steps)), LadderRank(order);
    var p :| DependsVia(g, order[k].id, p) && p[|p| - 1] == order[k - 1].id;
    assert Edge(g, p[0], p[1]);
    var j := DirectIsEarlier(catalog, steps, order, k, p[1]);
    assert Ids(order)[j] == p[1] && Ids(order)[k - 1] == order[k - 1].id;
    if |p| > 2 {
      TailIsWalk(g, p);
      WalkDescends(g, rank, p[1..]);
      assert false;
    }
  }

  lemma TailIsWalk<K>(g: Graph<K>, p: seq<K>)
    requires IsWalk(g, p) && |p| >= 1
    ensures IsWalk(g, p[1..])
  {
    forall i | 0 <= i < |p[1..]| - 1 ensures Edge(g, p[1..][i], p[1..][i + 1]) {
      assert Edge(g, p[i + 1], p[i + 2]);
    }
  }

  lemma AcceptedIsLadder(catalog: seq<Spec>, steps: seq<PlanStep>) returns (order: seq<PlanStep>)
    requires IsChain(catalog) && Covers(catalog, steps) && Accepted(catalog, steps)
    ensures Ladder(catalog, steps, order)
  {
    hide ById, ByCapability, Accepted, IsChain, UniqueIds;
    order := AcceptedIsSequenced(catalog, steps);
    forall k | 0 <= k < |order| ensures InPlace(catalog, order, k) {
      SequencedIsInPlace(catalog, steps, order, k);
    }
  }

  lemma SequencedIsInPlace(catalog: seq<Spec>, steps: seq<PlanStep>, order: seq<PlanStep>, k: nat)
    requires Sequenced(catalog, steps, order) && k < |order|
    ensures |order| == |catalog| && InPlace(catalog, order, k)
  {
    hide ById, ByCapability, Accepted, IsChain, UniqueIds, Allowed;
    SequencedFacts(catalog, steps, order, k);
    AcceptedKeepsRules(catalog, steps, k);
    if k > 0 {
      DependsDirectly(catalog, steps, order, k);
    }
    forall d | d in order[k].dependsOn ensures d in Ids(order)[..k] {
      var j := DirectIsEarlier(catalog, steps, order, k, d);
      assert Ids(order)[..k][j] == d;
    }
  }

  // --- The main results --------------------------------------------------------------------------------

  /**
    On a catalog that is a chain, accepted plans are exactly the ladders: one step per capability, each with
    a direct dependency on the step before it and none on a later one.
   */
  lemma AcceptedIffLadder(catalog: seq<Spec>, steps: seq<PlanStep>)
    requires IsChain(catalog) && Covers(catalog, steps)
    ensures Accepted(catalog, steps) <==> exists order :: Ladder(catalog, steps, order)
  {
    hide Accepted, Ladder, IsChain, Covers;
    if Accepted(catalog, steps) {
      var order := AcceptedIsLadder(catalog, steps);
    }
    if order :| Ladder(catalog, steps, order) {
      LadderIsAccepted(catalog, steps, order);
    }
  }

  /** An accepted plan has exactly one topological order, and in it the capabilities follow the catalog. */
  lemma AcceptedHasOneOrder(catalog: seq<Spec>, steps: seq<PlanStep>) returns (order: seq<PlanStep>)
    requires IsChain(catalog) && Covers(catalog, steps) && Accepted(catalog, steps)
    ensures multiset(order) == multiset(steps) && |order| == |catalog|
    ensures forall k :: 0 <= k < |order| ==> order[k].capability == catalog[k].name
    ensures Topological(steps, Ids(order)) && forall ids :: Topological(steps, ids) ==> ids == Ids(order)
  {
    hide Accepted, IsChain, Covers, Topological, UniqueIds;
    order := AcceptedIsLadder(catalog, steps);
    LadderHasOneOrder(catalog, steps, order);
    forall k | 0 <= k < |order| ensures order[k].capability == catalog[k].name {
      assert InPlace(catalog, order, k);
    }
  }
}

/** The answers of the revision graph builder for any bag of nodes, read off the nodes alone. */
module GraphAnswers {
  import opened Wrappers
  import opened Digraph
  import opened Sequences
  import opened RevisionGraph

  // --- Nodes -----------------------------------------------------------------------------------------

  /** The one node that carries this revision, once. */
  ghost predicate IsOnly(nodes: multiset<Node>, revision: string, n: Node) {
    nodes[n] == 1 && n.revision == revision && forall m :: m in nodes && m.revision == revision ==> m == n
  }

  ghost predicate HasOnly(nodes: multiset<Node>, revision: string) {
    exists n :: IsOnly(nodes, revision, n)
  }

  /** Two nodes carry this revision, or one of them is there twice. */
  ghost predicate IsCarriedTwice(nodes: multiset<Node>, revision: string) {
    || (exists a, b :: a in nodes && b in nodes && a.revision == revision && b.revision == revision && a != b)
    || (exists a :: nodes[a] >= 2 && a.revision == revision)
  }

  /** No node names this one as a parent. */
  ghost predicate IsChildless(nodes: multiset<Node>, n: Node) {
    n in nodes && forall m :: m in nodes ==> n.revision !in m.parents
  }

  ghost predicate IsOnlyChildless(nodes: multiset<Node>, n: Node) {
    IsChildless(nodes, n) && nodes[n] == 1 && forall m :: IsChildless(nodes, m) ==> m == n
  }

  ghost predicate SeveralChildless(nodes: multiset<Node>) {
    || (exists a, b :: IsChildless(nodes, a) && IsChildless(nodes, b) && a != b)
    || (exists a :: IsChildless(nodes, a) && nodes[a] >= 2)
  }

  lemma TwiceIsRepeated(nodes: multiset<Node>, r: string)
    ensures Repeated(nodes, r) <==> IsCarriedTwice(nodes, r)
  {
    var p := WithRevision(r);
    if Repeated(nodes, r) {
      var a, b :| a in nodes && b in nodes && p(a) && p(b) && (a != b || nodes[a] >= 2);
    }
    if IsCarriedTwice(nodes, r) {
      if a, b :| a in nodes && b in nodes && a.revision == r && b.revision == r && a != b {
        assert p(a) && p(b);
      } else {
        var a :| nodes[a] >= 2 && a.revision == r;
        assert p(a) && a in nodes;
      }
    }
  }

  lemma OnlyIsIndexed(nodes: multiset<Node>, byId: map<string, Node>, r: string)
    requires IsById(nodes, byId)
    ensures r in byId <==> HasOnly(nodes, r)
    ensures r in byId ==> IsOnly(nodes, r, byId[r]) && forall n :: IsOnly(nodes, r, n) ==> n == byId[r]
  {
    hide Repeated;
    TwiceIsRepeated(nodes, r);
    if HasOnly(nodes, r) {
      var n :| IsOnly(nodes, r, n);
      assert n in nodes && !IsCarriedTwice(nodes, r);
    }
    if r in byId {
      assert IsOnly(nodes, r, byId[r]);
    }
  }

  lemma ChildlessIsHead(nodes: multiset<Node>, n: Node)
    ensures IsHead(nodes, n) <==> IsChildless(nodes, n)
  {
    if IsHead(nodes, n) {
      forall m | m in nodes ensures n.revision !in m.parents {
        assert n.revision in m.parents ==> n.revision in ParentSet(nodes);
      }
    }
  }

  lemma SeveralAreMany(nodes: multiset<Node>)
    ensures ManyHeads(nodes) <==> SeveralChildless(nodes)
  {
    hide ParentSet, IsChildless;
    var p := WithoutChildren(ParentSet(nodes));
    forall n ensures IsChildless(nodes, n) <==> n in nodes && p(n) {
      ChildlessIsHead(nodes, n);
    }
    if ManyHeads(nodes) {
      var a, b :| a in nodes && b in nodes && p(a) && p(b) && (a != b || nodes[a] >= 2);
      assert IsChildless(nodes, a) && IsChildless(nodes, b);
    }
    if SeveralChildless(nodes) {
      if a, b :| IsChildless(nodes, a) && IsChildless(nodes, b) && a != b {
        assert a in nodes && b in nodes && p(a) && p(b);
      } else {
        var a :| IsChildless(nodes, a) && nodes[a] >= 2;
        assert a in nodes && p(a);
      }
    }
  }

  lemma SoleIsOnlyChildless(nodes: multiset<Node>, n: Node)
    ensures SoleHead(nodes, n) <==> IsOnlyChildless(nodes, n)
  {
    hide IsHead, ManyHeads, IsChildless;
    ChildlessIsHead(nodes, n);
    SeveralAreMany(nodes);
    assert IsChildless(nodes, n) ==> n in nodes by { ChildlessIsThere(nodes, n); }
    if SoleHead(nodes, n) {
      forall m | IsChildless(nodes, m) ensures m == n {
        assert m != n ==> SeveralChildless(nodes);
      }
      assert nodes[n] >= 2 ==> SeveralChildless(nodes);
    }
  }

  lemma ChildlessIsThere(nodes: multiset<Node>, n: Node)
    ensures IsChildless(nodes, n) ==> n in nodes
  {
  }

  // --- The chain -------------------------------------------------------------------------------------

  /** A revision of one node, whose one parent is the revision before it; the first may have any parents. */
  ghost predicate FollowsBefore(nodes: multiset<Node>, chain: seq<string>, i: nat)
    requires i < |chain|
  {
    exists n :: IsOnly(nodes, chain[i], n) && (i > 0 ==> n.parents == [chain[i - 1]])
  }

  /** The walk from the only childless node back through single parents, as far as it goes. */
  ghost predicate IsChainFrom(nodes: multiset<Node>, head: Node, chain: seq<string>) {
    && Distinct(chain) && (forall i :: 0 <= i < |chain| ==> FollowsBefore(nodes, chain, i))
    && (if HasOnly(nodes, head.revision) then chain != [] && chain[|chain| - 1] == head.revision
        else chain == [])
    && forall p, n :: (chain != [] && IsOnly(nodes, chain[0], n) && n.parents == [p]) ==>
         p in chain || !HasOnly(nodes, p)
  }

  lemma {:induction false} WalkGoesOn(byId: map<string, Node>, revision: string, seen: set<string>)
    ensures var w := Walk(byId, revision, seen);
            && (w != [] <==> revision in byId && revision !in seen)
            && (w != [] ==> var last := w[|w| - 1];
                last in byId && (|byId[last].parents| == 1 ==>
                  var p := byId[last].parents[0]; p !in byId || p in seen || p in w))
    decreases byId.Keys - seen
  {
    if revision !in byId || revision in seen || |byId[revision].parents| != 1 {
    } else {
      WalkGoesOn(byId, byId[revision].parents[0], seen + {revision});
    }
  }

  lemma ChainIsWalked(nodes: multiset<Node>, byId: map<string, Node>, head: Node)
    requires IsById(nodes, byId) && IsOnlyChildless(nodes, head)
    ensures IsChainFrom(nodes, head, ChainOf(nodes, byId))
  {
    hide IsById, IsOnly, IsOnlyChildless, ChainOf, SoleHead, Walk;
    SoleIsOnlyChildless(nodes, head);
    ChainFromHead(nodes, byId, head);
    var w, chain := Walk(byId, head.revision, {}), ChainOf(nodes, byId);
    assert chain == Reversed(w);
    WalkIsDistinct(byId, head.revision, {});
    WalkFollowsParents(byId, head.revision, {});
    WalkGoesOn(byId, head.revision, {});
    OnlyIsIndexed(nodes, byId, head.revision);
    forall i | 0 <= i < |chain| ensures FollowsBefore(nodes, chain, i) {
      OnlyIsIndexed(nodes, byId, chain[i]);
      assert i > 0 ==> byId[w[|w| - 1 - i]].parents == [w[|w| - 1 - i + 1]];
    }
    forall p, n | chain != [] && IsOnly(nodes, chain[0], n) && n.parents == [p]
      ensures p in chain || !HasOnly(nodes, p)
    {
      OnlyIsIndexed(nodes, byId, chain[0]);
      OnlyIsIndexed(nodes, byId, p);
      if p in w {
        var k :| 0 <= k < |w| && w[k] == p;
        assert chain[|w| - 1 - k] == p;
      }
    }
  }

  // --- Reasons ---------------------------------------------------------------------------------------

  /** Back to the start through parents that are nodes of their own. */
  ghost predicate IsCircle(nodes: multiset<Node>, w: seq<string>) {
    && |w| >= 2 && w[0] == w[|w| - 1] && (forall i :: 0 <= i < |w| ==> HasOnly(nodes, w[i]))
    && forall i :: 0 <= i < |w| - 1 ==> IsParentStep(nodes, w[i], w[i + 1])
  }

  ghost predicate IsParentStep(nodes: multiset<Node>, child: string, parent: string) {
    exists n :: IsOnly(nodes, child, n) && parent in n.parents
  }

  lemma CircleIsCycle(nodes: multiset<Node>, byId: map<string, Node>, w: seq<string>)
    requires IsById(nodes, byId)
    ensures IsCycle(ParentGraph(byId), w) <==> IsCircle(nodes, w)
  {
    hide IsById, IsOnly, HasOnly;
    var g := ParentGraph(byId);
    forall i | 0 <= i < |w| ensures w[i] in g <==> HasOnly(nodes, w[i]) {
      OnlyIsIndexed(nodes, byId, w[i]);
    }
    forall i | 0 <= i < |w| - 1 && w[i] in g && w[i + 1] in g
      ensures Edge(g, w[i], w[i + 1]) <==> IsParentStep(nodes, w[i], w[i + 1])
    {
      OnlyIsIndexed(nodes, byId, w[i]);
    }
    if IsCycle(g, w) {
      forall i | 0 <= i < |w| - 1 ensures IsParentStep(nodes, w[i], w[i + 1]) {
        assert Edge(g, w[i], w[i + 1]);
      }
      forall i | 0 <= i < |w| ensures HasOnly(nodes, w[i]) {
        assert w[i] in g;
      }
      assert IsCircle(nodes, w);
    }
    if IsCircle(nodes, w) {
      forall i | 0 <= i < |w| - 1 ensures Edge(g, w[i], w[i + 1]) {
        assert IsParentStep(nodes, w[i], w[i + 1]);
      }
      assert forall i :: 0 <= i < |w| ==> w[i] in g;
      assert IsWalk(g, w);
    }
  }

  ghost predicate IsChanged(nodes: multiset<Node>, revision: string) {
    exists n :: n in nodes && n.revision == revision && n.change != Unchanged
  }

  /** What each reason says about the nodes and the chain. */
  ghost predicate Applies(nodes: multiset<Node>, chain: seq<string>, reason: Reason) {
    match reason
    case DuplicateRevisionId(r) => IsCarriedTwice(nodes, r)
    case MergeRevisionUnsupported(r, path) =>
      exists n :: n in nodes && n.revision == r && n.path == path && |n.parents| >= 2
    case MissingRevisionParent(q, path) =>
      (exists n :: n in nodes && n.path == path && q in n.parents) && !HasOnly(nodes, q)
    case RevisionCycle => exists w :: IsCircle(nodes, w)
    case MultipleRevisionHeads => SeveralChildless(nodes)
    case DisconnectedRevisionGraph =>
      (exists head :: IsOnlyChildless(nodes, head)) && exists r :: HasOnly(nodes, r) && r !in chain
    case ChangedRevisionsNotLinear =>
      || (exists r :: IsChanged(nodes, r) && r !in chain)
      || (exists i, j, k :: 0 <= i < j < k < |chain| && IsChanged(nodes, chain[i]) && !IsChanged(nodes, chain[j])
                            && IsChanged(nodes, chain[k]))
    case NoRevisionsFound => false
    case Parse(_, _, _) => false
  }

  lemma ChangedIsChanged(nodes: multiset<Node>, r: string)
    ensures r in ChangedSet(nodes) <==> IsChanged(nodes, r)
  {
  }

  lemma DisconnectedMeans(nodes: multiset<Node>, byId: map<string, Node>)
    requires IsById(nodes, byId)
    ensures var chain := ChainOf(nodes, byId);
            Raised(nodes, byId, DisconnectedRevisionGraph) <==> Applies(nodes, chain, DisconnectedRevisionGraph)
  {
    hide IsById, IsOnly, IsOnlyChildless, ChainOf, SoleHead;
    var chain := ChainOf(nodes, byId);
    forall head ensures SoleHead(nodes, head) <==> IsOnlyChildless(nodes, head) {
      SoleIsOnlyChildless(nodes, head);
    }
    if head :| SoleHead(nodes, head) {
      ChainIsWalked(nodes, byId, head);
      forall i | 0 <= i < |chain| ensures chain[i] in byId {
        assert FollowsBefore(nodes, chain, i);
        OnlyIsIndexed(nodes, byId, chain[i]);
      }
      CoversAll(chain, byId.Keys);
      if r :| r in byId.Keys && r !in chain {
        OnlyIsIndexed(nodes, byId, r);
      }
      if r :| HasOnly(nodes, r) && r !in chain {
        OnlyIsIndexed(nodes, byId, r);
      }
    }
  }

  lemma CoversAll(s: seq<string>, all: set<string>)
    requires Distinct(s) && forall i :: 0 <= i < |s| ==> s[i] in all
    ensures |s| != |all| <==> exists r :: r in all && r !in s
  {
    var own := set r | r in s;
    DistinctSize(s, own);
    assert own <= all;
    if r :| r in all && r !in s {
      assert r in all - own && |all| == |own| + |all - own|;
    } else {
      assert own == all;
    }
  }

  lemma RaisedMeans(nodes: multiset<Node>, byId: map<string, Node>, reason: Reason)
    requires IsById(nodes, byId)
    ensures Raised(nodes, byId, reason) <==> Applies(nodes, ChainOf(nodes, byId), reason)
  {
    hide IsById, IsOnly, ChainOf, SoleHead, ManyHeads, SeveralChildless, IsCarriedTwice, Repeated, IsCircle, HasCycle;
    hide ChangedSet, IsChanged, Contiguous;
    match reason
    case DuplicateRevisionId(r) => TwiceIsRepeated(nodes, r);
    case MergeRevisionUnsupported(_, _) =>
    case MissingRevisionParent(q, _) => OnlyIsIndexed(nodes, byId, q);
    case RevisionCycle => CyclesMean(nodes, byId);
    case MultipleRevisionHeads => SeveralAreMany(nodes);
    case DisconnectedRevisionGraph => DisconnectedMeans(nodes, byId);
    case ChangedRevisionsNotLinear => ChangesMean(nodes, ChainOf(nodes, byId), byId);
    case NoRevisionsFound =>
    case Parse(_, _, _) =>
  }

  lemma CyclesMean(nodes: multiset<Node>, byId: map<string, Node>)
    requires IsById(nodes, byId)
    ensures HasCycle(ParentGraph(byId)) <==> exists w :: IsCircle(nodes, w)
  {
    hide IsById, IsCircle, IsCycle;
    if w :| IsCycle(ParentGraph(byId), w) {
      CircleIsCycle(nodes, byId, w);
    }
    if w :| IsCircle(nodes, w) {
      CircleIsCycle(nodes, byId, w);
    }
  }

  lemma ChangesMean(nodes: multiset<Node>, chain: seq<string>, byId: map<string, Node>)
    requires chain == ChainOf(nodes, byId)
    ensures Raised(nodes, byId, ChangedRevisionsNotLinear) <==> Applies(nodes, chain, ChangedRevisionsNotLinear)
  {
    hide ChangedSet, IsChanged, ChainOf;
    var changed := ChangedSet(nodes);
    forall r ensures r in changed <==> IsChanged(nodes, r) {
      ChangedIsChanged(nodes, r);
    }
    if !Contiguous(chain, changed) {
      var i, j, k :| 0 <= i < j < k < |chain| && chain[i] in changed && chain[k] in changed && chain[j] !in changed;
      assert IsChanged(nodes, chain[i]) && !IsChanged(nodes, chain[j]) && IsChanged(nodes, chain[k]);
    }
    if i, j, k :| 0 <= i < j < k < |chain| && IsChanged(nodes, chain[i]) && !IsChanged(nodes, chain[j])
                  && IsChanged(nodes, chain[k]) {
      assert chain[i] in changed && chain[j] !in changed && chain[k] in changed;
    }
  }

  // --- The graph as a whole ----------------------------------------------------------------------------

  /** The revisions of `kept` are those of the chain that changed, in the order of the chain. */
  ghost predicate AreChanged(nodes: multiset<Node>, chain: seq<string>, kept: seq<string>) {
    exists places: seq<nat> ::
      && |places| == |kept|
      && (forall k :: 0 <= k < |places| ==> places[k] < |chain| && kept[k] == chain[places[k]])
      && (forall k, l :: 0 <= k < l < |places| ==> places[k] < places[l])
      && forall i :: 0 <= i < |chain| ==> (IsChanged(nodes, chain[i]) <==> i in places)
  }

  lemma KeptAreChanged(nodes: multiset<Node>, chain: seq<string>)
    ensures AreChanged(nodes, chain, Among(chain, ChangedSet(nodes)))
  {
    hide ChangedSet, IsChanged, Among, Places;
    var changed := ChangedSet(nodes);
    forall r ensures r in changed <==> IsChanged(nodes, r) {
      ChangedIsChanged(nodes, r);
    }
    PlacesAreExact(chain, changed);
    var places := Places(chain, changed);
    forall i | 0 <= i < |chain| ensures IsChanged(nodes, chain[i]) <==> i in places {
      if i in places {
        var k :| 0 <= k < |places| && places[k] == i;
      }
    }
  }

  /**
    Whatever the nodes: the chain is the walk back from the only childless node, or empty; the changed
    revisions are those of the chain; the baseline is the single parent of the first of them; every reason
    says what is so, and nothing that is so goes unsaid.
   */
  lemma GraphMeans(nodes: multiset<Node>, parsing: set<Reason>, graph: BuiltGraph)
    requires IsGraphOf(nodes, parsing, graph)
    ensures forall head :: IsOnlyChildless(nodes, head) ==> IsChainFrom(nodes, head, graph.targetChain)
    ensures (forall head :: !IsOnlyChildless(nodes, head)) ==> graph.targetChain == []
    ensures AreChanged(nodes, graph.targetChain, graph.changedRevisions)
    ensures forall p :: graph.baseline == Some(p) <==>
              graph.changedRevisions != []
              && exists n :: IsOnly(nodes, graph.changedRevisions[0], n) && n.parents == [p]
    ensures forall reason :: reason in graph.reasons <==>
              || reason in parsing || Applies(nodes, graph.targetChain, reason)
              || (reason == NoRevisionsFound && nodes == multiset{} && parsing == {})
    ensures graph.supported <==> graph.reasons == [] && nodes != multiset{}
  {
    hide IsById, Raised, ChainOf, Among, IsHead, IsOnly, IsOnlyChildless, IsChainFrom, AreChanged, Applies, HeadBag;
    var byId: map<string, Node> :| IsById(nodes, byId) && IsBuilt(nodes, parsing, byId, graph);
    var chain, kept := graph.targetChain, graph.changedRevisions;
    forall head | IsOnlyChildless(nodes, head) ensures IsChainFrom(nodes, head, chain) {
      ChainIsWalked(nodes, byId, head);
    }
    if forall head :: !IsOnlyChildless(nodes, head) {
      NoHeadNoChain(nodes, byId);
    }
    KeptAreChanged(nodes, chain);
    if kept != [] {
      OnlyIsIndexed(nodes, byId, kept[0]);
    }
    forall p ensures graph.baseline == Some(p) <==>
                       kept != [] && exists n :: IsOnly(nodes, kept[0], n) && n.parents == [p]
    {
      if kept != [] && kept[0] in byId && |byId[kept[0]].parents| == 1 {
        assert byId[kept[0]].parents == [byId[kept[0]].parents[0]];
      }
    }
    forall reason ensures Raised(nodes, byId, reason) <==> Applies(nodes, chain, reason) {
      RaisedMeans(nodes, byId, reason);
    }
  }

  lemma NoHeadNoChain(nodes: multiset<Node>, byId: map<string, Node>)
    requires forall head :: !IsOnlyChildless(nodes, head)
    ensures ChainOf(nodes, byId) == []
  {
    hide SoleHead, IsOnlyChildless, Walk;
    forall head ensures !SoleHead(nodes, head) {
      SoleIsOnlyChildless(nodes, head);
    }
  }
}

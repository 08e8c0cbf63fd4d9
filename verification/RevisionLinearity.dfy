/** When the builder supports a set of revisions, and what its answer then means. */
module RevisionLinearity {
  import opened Wrappers
  import opened Digraph
  import opened Ordering
  import opened RevisionGraph
  import opened Sequences

  /**
    The nodes, arranged as one path: each exactly once, from a node without parents, each later one with
    the one before it as its only parent, and the changed ones side by side.
   */
  ghost predicate Arranged(nodes: multiset<Node>, order: seq<Node>) {
    && multiset(order) == nodes && order != []
    && OnePath(order)
    && forall i, j, k :: 0 <= i < j < k < |order| && order[i].change != Unchanged && order[k].change != Unchanged ==>
         order[j].change != Unchanged
  }

  predicate OnePath(order: seq<Node>) {
    && Distinct(Revisions(order))
    && forall i {:trigger Linked(order, i)} :: 0 <= i < |order| ==> Linked(order, i)
  }

  /** The first node has no parent; any other has the one before it and no other. */
  predicate Linked(order: seq<Node>, i: nat)
    requires i < |order|
  {
    order[i].parents == if i == 0 then [] else [order[i - 1].revision]
  }

  function Revisions(order: seq<Node>): (revisions: seq<string>)
    ensures |revisions| == |order| && forall i :: 0 <= i < |order| ==> revisions[i] == order[i].revision
  {
    seq(|order|, i requires 0 <= i < |order| => order[i].revision)
  }

  // --- Counting ----------------------------------------------------------------------------------------

  lemma {:induction false} OncePerRevision(s: seq<Node>, x: Node)
    requires Distinct(Revisions(s))
    ensures multiset(s)[x] <= 1
  {
    if s == [] {
    } else {
      var before, last := s[..|s| - 1], s[|s| - 1];
      assert s == before + [last];
      OncePerRevision(before, x);
      assert last !in multiset(before);
    }
  }

  // --- A path is supported -----------------------------------------------------------------------------

  lemma SameRevisionSameNode(nodes: multiset<Node>, order: seq<Node>, a: Node, b: Node)
    requires multiset(order) == nodes && OnePath(order)
    requires a in nodes && b in nodes && a.revision == b.revision
    ensures a == b && nodes[a] == 1
  {
    assert a in order && b in order;
    var i :| 0 <= i < |order| && order[i] == a;
    var j :| 0 <= j < |order| && order[j] == b;
    OncePerRevision(order, a);
  }

  lemma PathHasNoRepeats(nodes: multiset<Node>, order: seq<Node>, r: string)
    requires multiset(order) == nodes && OnePath(order)
    ensures !Repeated(nodes, r)
  {
    forall a, b | a in nodes && b in nodes && a.revision == r && b.revision == r ensures a == b && nodes[a] == 1 {
      SameRevisionSameNode(nodes, order, a, b);
    }
  }

  lemma PathIsIndexed(nodes: multiset<Node>, order: seq<Node>, byId: map<string, Node>)
    requires multiset(order) == nodes && OnePath(order) && IsById(nodes, byId)
    ensures forall i :: 0 <= i < |order| ==> order[i].revision in byId && byId[order[i].revision] == order[i]
    ensures forall r :: r in byId <==> r in Revisions(order)
    ensures |byId| == |order|
  {
    hide Several, Linked;
    forall i | 0 <= i < |order| ensures order[i].revision in byId && byId[order[i].revision] == order[i] {
      PathHasNoRepeats(nodes, order, order[i].revision);
      assert order[i] in nodes;
      SameRevisionSameNode(nodes, order, order[i], byId[order[i].revision]);
    }
    forall r ensures r in byId <==> r in Revisions(order) {
      if r in byId {
        assert byId[r] in order;
        var i :| 0 <= i < |order| && order[i] == byId[r];
        assert Revisions(order)[i] == r;
      }
    }
    DistinctSize(Revisions(order), byId.Keys);
  }

  /** On a path, each node ranks by its index. */
  function IndexRank(order: seq<Node>): (rank: map<string, nat>)
    requires OnePath(order)
    ensures forall i :: 0 <= i < |order| ==> order[i].revision in rank && rank[order[i].revision] == i
    ensures forall r :: r in rank ==> rank[r] < |order| && order[rank[r]].revision == r
  {
    map i | 0 <= i < |order| :: order[i].revision := i
  }

  lemma PathIsAcyclic(order: seq<Node>, byId: map<string, Node>)
    requires OnePath(order) && (forall r :: r in byId <==> r in Revisions(order))
    requires forall i :: 0 <= i < |order| ==> order[i].revision in byId && byId[order[i].revision] == order[i]
    ensures !HasCycle(ParentGraph(byId))
  {
    hide HasCycle;
    var g, rank := ParentGraph(byId), IndexRank(order);
    forall r ensures r in rank <==> r in byId {
      if r in byId {
        var i :| 0 <= i < |order| && Revisions(order)[i] == r;
        assert order[i].revision in rank;
      }
    }
    forall a, b | a in rank && b in g[a] && b in g ensures b in rank && rank[b] < rank[a] {
      var i := rank[a];
      assert order[i].revision == a && Linked(order, i);
    }
    RankedIsAcyclic(g, rank);
  }

  lemma InnerIsParent(nodes: multiset<Node>, order: seq<Node>, i: nat)
    requires OnePath(order) && multiset(order) == nodes && i + 1 < |order|
    ensures order[i].revision in ParentSet(nodes)
  {
    assert order[i + 1] in nodes && Linked(order, i + 1);
    assert order[i].revision in order[i + 1].parents;
  }

  lemma ParentIsInner(nodes: multiset<Node>, order: seq<Node>, p: string) returns (i: nat)
    requires OnePath(order) && multiset(order) == nodes && p in ParentSet(nodes)
    ensures i + 1 < |order| && order[i].revision == p
  {
    var n :| n in nodes && p in n.parents;
    assert n in order;
    var j :| 0 <= j < |order| && order[j] == n;
    assert Linked(order, j);
    i := j - 1;
  }

  /** The end of the path is its only head. */
  lemma PathHasOneHead(nodes: multiset<Node>, order: seq<Node>)
    requires order != [] && OnePath(order) && multiset(order) == nodes
    ensures SoleHead(nodes, order[|order| - 1])
  {
    var head := order[|order| - 1];
    assert head in nodes;
    assert head.revision !in ParentSet(nodes) by {
      if head.revision in ParentSet(nodes) {
        var i := ParentIsInner(nodes, order, head.revision);
        assert false;
      }
    }
    forall n | IsHead(nodes, n) ensures n == head && nodes[n] == 1 {
      assert n in order;
      var i :| 0 <= i < |order| && order[i] == n;
      assert i == |order| - 1 by {
        if i + 1 < |order| {
          InnerIsParent(nodes, order, i);
          assert false;
        }
      }
      SameRevisionSameNode(nodes, order, n, n);
    }
  }

  lemma {:induction false} PathIsWalked(order: seq<Node>, byId: map<string, Node>, i: nat, seen: set<string>)
    requires OnePath(order) && i < |order|
    requires forall k :: 0 <= k < |order| ==> order[k].revision in byId && byId[order[k].revision] == order[k]
    requires forall k :: 0 <= k <= i ==> order[k].revision !in seen
    ensures Walk(byId, order[i].revision, seen) == Reversed(Revisions(order[..i + 1]))
    decreases i
  {
    assert Linked(order, i);
    if i == 0 {
      assert Walk(byId, order[0].revision, seen) == [order[0].revision];
      assert Reversed(Revisions(order[..1])) == [order[0].revision];
    } else {
      PathIsWalked(order, byId, i - 1, seen + {order[i].revision});
      assert Reversed(Revisions(order[..i + 1])) == [order[i].revision] + Reversed(Revisions(order[..i]));
    }
  }

  lemma PathIsTheChain(nodes: multiset<Node>, order: seq<Node>, byId: map<string, Node>)
    requires multiset(order) == nodes && order != [] && OnePath(order) && IsById(nodes, byId)
    ensures ChainOf(nodes, byId) == Revisions(order)
  {
    hide OnePath, IsById, Walk, SoleHead, ChainOf;
    PathIsIndexed(nodes, order, byId);
    PathHasOneHead(nodes, order);
    ChainFromHead(nodes, byId, order[|order| - 1]);
    NothingSeen(order, byId);
    assert order[..|order|] == order;
    assert Reversed(Reversed(Revisions(order))) == Revisions(order);
  }

  lemma NothingSeen(order: seq<Node>, byId: map<string, Node>)
    requires OnePath(order) && order != []
    requires forall k :: 0 <= k < |order| ==> order[k].revision in byId && byId[order[k].revision] == order[k]
    ensures WalkFrom(byId, Some(order[|order| - 1].revision), {}) == Reversed(Revisions(order))
  {
    PathIsWalked(order, byId, |order| - 1, {});
    assert order[..|order|] == order;
  }

  lemma ChangedOnPath(nodes: multiset<Node>, order: seq<Node>, i: nat)
    requires multiset(order) == nodes && OnePath(order) && i < |order|
    ensures order[i].revision in ChangedSet(nodes) <==> order[i].change != Unchanged
  {
    assert order[i] in nodes;
    if order[i].revision in ChangedSet(nodes) {
      var n :| n in nodes && n.change != Unchanged && n.revision == order[i].revision;
      assert n in order;
      var j :| 0 <= j < |order| && order[j] == n;
    }
  }

  /** A path raises no reason. */
  lemma PathRaisesNothing(nodes: multiset<Node>, order: seq<Node>, byId: map<string, Node>, reason: Reason)
    requires Arranged(nodes, order) && IsById(nodes, byId)
    ensures !Raised(nodes, byId, reason)
  {
    hide Several, HasCycle, ManyHeads, ChainOf, IsById;
    PathIsIndexed(nodes, order, byId);
    match reason
    case DuplicateRevisionId(r) => PathHasNoRepeats(nodes, order, r);
    case MergeRevisionUnsupported(_, _) =>
      forall n | n in nodes ensures |n.parents| <= 1 { ParentsOnPath(nodes, order, n); }
    case MissingRevisionParent(_, _) =>
      forall n, p | n in nodes && p in n.parents ensures p in byId { ParentsOnPath(nodes, order, n); }
    case RevisionCycle => PathIsAcyclic(order, byId);
    case MultipleRevisionHeads => PathHasOneHead(nodes, order);
    case DisconnectedRevisionGraph => PathIsTheChain(nodes, order, byId);
    case ChangedRevisionsNotLinear => ChangesAreTogether(nodes, order, byId);
    case NoRevisionsFound =>
    case Parse(_, _, _) =>
  }

  lemma ParentsOnPath(nodes: multiset<Node>, order: seq<Node>, node: Node)
    requires multiset(order) == nodes && OnePath(order) && node in nodes
    ensures |node.parents| <= 1 && forall p :: p in node.parents ==> p in Revisions(order)
  {
    assert node in order;
    var i :| 0 <= i < |order| && order[i] == node;
    assert Linked(order, i);
    if i > 0 {
      assert Revisions(order)[i - 1] == order[i - 1].revision;
    }
  }

  lemma ChangesAreTogether(nodes: multiset<Node>, order: seq<Node>, byId: map<string, Node>)
    requires Arranged(nodes, order) && IsById(nodes, byId)
    ensures Contiguous(ChainOf(nodes, byId), ChangedSet(nodes))
    ensures forall r :: r in ChangedSet(nodes) ==> r in ChainOf(nodes, byId)
  {
    hide OnePath, IsById, ChainOf;
    PathIsTheChain(nodes, order, byId);
    var chain, changed := Revisions(order), ChangedSet(nodes);
    forall i | 0 <= i < |order| ensures chain[i] in changed <==> order[i].change != Unchanged {
      ChangedOnPath(nodes, order, i);
    }
    forall r | r in changed ensures r in chain {
      var n :| n in nodes && n.change != Unchanged && n.revision == r;
      assert n in order;
      var i :| 0 <= i < |order| && order[i] == n;
      assert chain[i] == r;
    }
  }

  // --- What is supported is a path ---------------------------------------------------------------------

  /** No duplicate, merge, missing parent or cycle. */
  ghost predicate Sound(nodes: multiset<Node>, byId: map<string, Node>) {
    && (forall r :: !Repeated(nodes, r))
    && (forall n :: n in nodes ==> |n.parents| <= 1)
    && (forall n, p :: n in nodes && p in n.parents ==> p in byId)
    && !HasCycle(ParentGraph(byId))
  }

  lemma NoReasonIsSound(nodes: multiset<Node>, byId: map<string, Node>)
    requires forall reason :: Raised(nodes, byId, reason) ==>
      reason.MultipleRevisionHeads? || reason.DisconnectedRevisionGraph? || reason.ChangedRevisionsNotLinear?
    ensures Sound(nodes, byId)
  {
    hide HasCycle, Several;
    assert !Raised(nodes, byId, RevisionCycle);
    forall r ensures !Repeated(nodes, r) {
      assert !Raised(nodes, byId, DuplicateRevisionId(r));
    }
    forall n | n in nodes ensures |n.parents| <= 1 {
      assert !Raised(nodes, byId, MergeRevisionUnsupported(n.revision, n.path));
    }
    forall n, p | n in nodes && p in n.parents ensures p in byId {
      assert !Raised(nodes, byId, MissingRevisionParent(p, n.path));
    }
  }

  lemma Indexed(nodes: multiset<Node>, byId: map<string, Node>, node: Node)
    requires IsById(nodes, byId) && node in nodes && !Repeated(nodes, node.revision)
    ensures node.revision in byId && byId[node.revision] == node && nodes[node] == 1
  {
    assert Known(nodes, node.revision);
    var same := byId[node.revision];
    assert same in nodes && WithRevision(node.revision)(same) && WithRevision(node.revision)(node);
  }

  lemma ChildOf(nodes: multiset<Node>, byId: map<string, Node>, r: string) returns (child: Node)
    requires IsById(nodes, byId) && (forall q :: !Repeated(nodes, q)) && r in byId && !IsHead(nodes, byId[r])
    ensures child in nodes && r in child.parents && child.revision in byId && byId[child.revision] == child
    ensures Edge(ParentGraph(byId), child.revision, r)
  {
    child :| child in nodes && r in child.parents;
    Indexed(nodes, byId, child);
  }

  /** Where every revision is the parent of another, there is a cycle. */
  lemma HeadlessIsCyclic(nodes: multiset<Node>, byId: map<string, Node>)
    requires IsById(nodes, byId) && (forall r :: !Repeated(nodes, r)) && nodes != multiset{}
    requires forall n :: !IsHead(nodes, n)
    ensures HasCycle(ParentGraph(byId))
  {
    hide IsById, Several, HasCycle, IsHead;
    var node :| node in nodes;
    Indexed(nodes, byId, node);
    var g := ParentGraph(byId);
    forall r | r in g ensures HasPredecessor(g, g.Keys, r) {
      var child := ChildOf(nodes, byId, r);
    }
    TrappedHasCycle(g, g.Keys);
  }

  /** A walk ends at a root, a merge, an unknown parent, or where it would meet itself. */
  lemma {:induction false} WalkEnds(byId: map<string, Node>, revision: string, seen: set<string>)
    requires revision in byId && revision !in seen
    ensures var w := Walk(byId, revision, seen);
            w != [] && w[|w| - 1] in byId &&
            var parents := byId[w[|w| - 1]].parents;
            |parents| == 1 ==> parents[0] !in byId || parents[0] in seen || parents[0] in w
    decreases byId.Keys - seen
  {
    var parents := byId[revision].parents;
    var w := Walk(byId, revision, seen);
    if |parents| == 1 && parents[0] in byId && parents[0] !in seen + {revision} {
      WalkEnds(byId, parents[0], seen + {revision});
      assert w == [revision] + Walk(byId, parents[0], seen + {revision});
    } else {
      assert w == [revision];
    }
  }

  lemma WalkIsWalk(byId: map<string, Node>, revision: string)
    ensures IsWalk(ParentGraph(byId), Walk(byId, revision, {}))
  {
    hide Walk;
    WalkFollowsParents(byId, revision, {});
  }

  /** In a sound graph the walk from a revision ends at a root. */
  lemma WalkEndsAtRoot(nodes: multiset<Node>, byId: map<string, Node>, revision: string)
    requires IsById(nodes, byId) && Sound(nodes, byId) && revision in byId
    ensures var w := Walk(byId, revision, {}); w != [] && w[|w| - 1] in byId && byId[w[|w| - 1]].parents == []
  {
    hide Walk, HasCycle, Several;
    WalkEnds(byId, revision, {});
    WalkIsWalk(byId, revision);
    var w := Walk(byId, revision, {});
    var last := byId[w[|w| - 1]];
    assert last in nodes;
    if last.parents != [] {
      assert last.parents[0] in last.parents;
      BackEdgeClosesCycle(ParentGraph(byId), w, last.parents[0]);
    }
  }

  /** In a sound graph the walk from the only head visits every revision. */
  lemma WalkVisitsAll(nodes: multiset<Node>, byId: map<string, Node>, head: Node)
    requires IsById(nodes, byId) && Sound(nodes, byId) && SoleHead(nodes, head)
    ensures forall r :: r in byId ==> r in Walk(byId, head.revision, {})
  {
    hide IsById, HasCycle, Several, IsHead, ManyHeads, Walk;
    var g, w := ParentGraph(byId), Walk(byId, head.revision, {});
    var unvisited := set r | r in byId && r !in w;
    forall r | r in unvisited ensures HasPredecessor(g, unvisited, r) {
      var child := UnvisitedChild(nodes, byId, head, r);
      assert child.revision in unvisited;
    }
    if unvisited != {} {
      TrappedHasCycle(g, unvisited);
      assert false;
    }
    assert forall r :: r in byId && r !in w ==> r in unvisited;
  }

  lemma UnvisitedChild(nodes: multiset<Node>, byId: map<string, Node>, head: Node, r: string) returns (child: Node)
    requires IsById(nodes, byId) && Sound(nodes, byId) && SoleHead(nodes, head)
    requires r in byId && r !in Walk(byId, head.revision, {})
    ensures child.revision in byId && child.revision !in Walk(byId, head.revision, {})
    ensures Edge(ParentGraph(byId), child.revision, r)
  {
    hide HasCycle, Several, ManyHeads, Walk;
    var w := Walk(byId, head.revision, {});
    Indexed(nodes, byId, head);
    WalkFollowsParents(byId, head.revision, {});
    WalkEndsAtRoot(nodes, byId, head.revision);
    assert !IsHead(nodes, byId[r]) by {
      if IsHead(nodes, byId[r]) {
        TwoHeadsAreMany(nodes, byId[r], head);
      }
    }
    child := ChildOf(nodes, byId, r);
    if child.revision in w {
      ParentOnWalk(byId, w, child.revision, r);
    }
  }

  /** A walk that ends at a root holds every parent of its revisions. */
  lemma ParentOnWalk(byId: map<string, Node>, w: seq<string>, child: string, parent: string)
    requires child in w && child in byId && parent in byId[child].parents
    requires forall k :: 0 <= k < |w| ==> w[k] in byId
    requires forall k :: 0 <= k < |w| - 1 ==> byId[w[k]].parents == [w[k + 1]]
    requires byId[w[|w| - 1]].parents == []
    ensures parent in w
  {
    var k :| 0 <= k < |w| && w[k] == child;
    assert k < |w| - 1;
    assert w[k + 1] == parent;
  }

  /** The nodes of a walk, last first. */
  function Retraced(byId: map<string, Node>, w: seq<string>): (order: seq<Node>)
    requires forall k :: 0 <= k < |w| ==> w[k] in byId
    ensures |order| == |w| && forall k :: 0 <= k < |w| ==> order[k] == byId[w[|w| - 1 - k]]
  {
    seq(|w|, k requires 0 <= k < |w| => byId[w[|w| - 1 - k]])
  }

  lemma RetracedIsOnePath(byId: map<string, Node>, w: seq<string>)
    requires Distinct(w) && w != []
    requires forall k :: 0 <= k < |w| ==> w[k] in byId && byId[w[k]].revision == w[k]
    requires forall k :: 0 <= k < |w| - 1 ==> byId[w[k]].parents == [w[k + 1]]
    requires byId[w[|w| - 1]].parents == []
    ensures OnePath(Retraced(byId, w)) && Revisions(Retraced(byId, w)) == Reversed(w)
  {
    var order := Retraced(byId, w);
    forall i | 0 <= i < |order| ensures Linked(order, i) {
      if i > 0 {
        var k := |w| - 1 - i;
        assert byId[w[k]].parents == [w[k + 1]] && order[i - 1] == byId[w[k + 1]];
      }
    }
  }

  lemma RetracedIsAll(nodes: multiset<Node>, byId: map<string, Node>, w: seq<string>)
    requires IsById(nodes, byId) && (forall r :: !Repeated(nodes, r))
    requires forall k :: 0 <= k < |w| ==> w[k] in byId
    requires forall r :: r in byId ==> r in w
    requires OnePath(Retraced(byId, w))
    ensures multiset(Retraced(byId, w)) == nodes
  {
    hide Several, Linked;
    var order := Retraced(byId, w);
    forall x ensures multiset(order)[x] == nodes[x] {
      RetracedCount(nodes, byId, w, x);
    }
  }

  lemma RetracedCount(nodes: multiset<Node>, byId: map<string, Node>, w: seq<string>, x: Node)
    requires IsById(nodes, byId) && (forall r :: !Repeated(nodes, r))
    requires forall k :: 0 <= k < |w| ==> w[k] in byId
    requires forall r :: r in byId ==> r in w
    requires OnePath(Retraced(byId, w))
    ensures multiset(Retraced(byId, w))[x] == nodes[x]
  {
    hide Several, Linked, Known;
    var order := Retraced(byId, w);
    OncePerRevision(order, x);
    assert forall k :: 0 <= k < |order| ==> order[k] in nodes;
    assert x in multiset(order) ==> x in nodes by {
      assert x in multiset(order) ==> x in order;
    }
    if x in nodes {
      Indexed(nodes, byId, x);
      var k :| 0 <= k < |w| && w[k] == x.revision;
      assert order[|w| - 1 - k] == x;
      assert x in multiset(order);
    }
  }

  /** A sound graph with one head is one path. */
  lemma SoundIsOnePath(nodes: multiset<Node>, byId: map<string, Node>, head: Node) returns (order: seq<Node>)
    requires IsById(nodes, byId) && Sound(nodes, byId) && SoleHead(nodes, head)
    ensures multiset(order) == nodes && order != [] && OnePath(order)
  {
    hide HasCycle, Several, ManyHeads, Walk, OnePath;
    var w := Walk(byId, head.revision, {});
    Indexed(nodes, byId, head);
    WalkIsDistinct(byId, head.revision, {});
    WalkFollowsParents(byId, head.revision, {});
    WalkEndsAtRoot(nodes, byId, head.revision);
    WalkVisitsAll(nodes, byId, head);
    order := Retraced(byId, w);
    RetracedIsOnePath(byId, w);
    RetracedIsAll(nodes, byId, w);
  }

  lemma NothingRaisedIsArranged(nodes: multiset<Node>, byId: map<string, Node>) returns (order: seq<Node>)
    requires IsById(nodes, byId) && nodes != multiset{} && forall reason :: !Raised(nodes, byId, reason)
    ensures Arranged(nodes, order)
  {
    hide IsById, HasCycle, Several, IsHead, ManyHeads, Walk, OnePath, Sound, ChainOf;
    NoReasonIsSound(nodes, byId);
    assert !Raised(nodes, byId, MultipleRevisionHeads);
    var head := SoundHasHead(nodes, byId);
    order := SoundIsOnePath(nodes, byId, head);
    PathIsTheChain(nodes, order, byId);
    assert !Raised(nodes, byId, ChangedRevisionsNotLinear);
    var chain, changed := Revisions(order), ChangedSet(nodes);
    forall i, j, k | 0 <= i < j < k < |order| && order[i].change != Unchanged && order[k].change != Unchanged
      ensures order[j].change != Unchanged
    {
      ChangedOnPath(nodes, order, i);
      ChangedOnPath(nodes, order, j);
      ChangedOnPath(nodes, order, k);
      assert chain[i] in changed && chain[k] in changed;
      assert chain[j] in changed;
    }
  }

  lemma SoundHasHead(nodes: multiset<Node>, byId: map<string, Node>) returns (head: Node)
    requires IsById(nodes, byId) && Sound(nodes, byId) && nodes != multiset{}
    ensures IsHead(nodes, head)
  {
    hide IsById, HasCycle, Several, IsHead;
    if forall n :: !IsHead(nodes, n) {
      HeadlessIsCyclic(nodes, byId);
      assert false;
    }
    head :| IsHead(nodes, head);
  }

  // --- The main results --------------------------------------------------------------------------------

  /** With nothing to object to from parsing, the builder supports exactly the nodes that form one path. */
  lemma SupportedIffLinear(nodes: multiset<Node>, graph: BuiltGraph)
    requires IsGraphOf(nodes, {}, graph)
    ensures graph.supported <==> exists order :: Arranged(nodes, order)
  {
    hide IsById, Raised, ChainOf, Among, BaselineOf, IsHead;
    var byId :| IsById(nodes, byId) && IsBuilt(nodes, {}, byId, graph);
    assert graph.reasons != [] ==> graph.reasons[0] in graph.reasons;
    if graph.supported {
      forall reason ensures !Raised(nodes, byId, reason) {
        assert reason !in graph.reasons;
      }
      var order := NothingRaisedIsArranged(nodes, byId);
    }
    if order :| Arranged(nodes, order) {
      forall reason ensures !Raised(nodes, byId, reason) {
        PathRaisesNothing(nodes, order, byId, reason);
      }
      assert order[0] in nodes;
    }
  }

  /**
    On a path the target chain is the path itself, the changed revisions are one stretch of it, and the
    baseline is the revision just before that stretch.
   */
  lemma SupportedGraph(nodes: multiset<Node>, parsing: set<Reason>, graph: BuiltGraph, order: seq<Node>)
    returns (first: nat, end: nat)
    requires IsGraphOf(nodes, parsing, graph) && Arranged(nodes, order)
    ensures graph.targetChain == Revisions(order)
    ensures first <= end <= |order|
    ensures forall i :: 0 <= i < |order| ==> (order[i].change != Unchanged <==> first <= i < end)
    ensures graph.changedRevisions == Revisions(order)[first..end]
    ensures graph.baseline == if first < end && first > 0 then Some(order[first - 1].revision) else None
  {
    hide IsById, Raised, ChainOf, Among, OnePath, IsHead, Contiguous, BaselineOf;
    var byId :| IsById(nodes, byId) && IsBuilt(nodes, parsing, byId, graph);
    PathIsTheChain(nodes, order, byId);
    ChangesAreTogether(nodes, order, byId);
    var chain, changed := Revisions(order), ChangedSet(nodes);
    first, end := Stretch(chain, changed);
    forall i | 0 <= i < |order| ensures order[i].change != Unchanged <==> first <= i < end {
      assert chain[i] in changed <==> first <= i < end;
      ChangedOnPath(nodes, order, i);
    }
    BaselineIsBefore(nodes, order, byId, first, end);
  }

  lemma BaselineIsBefore(nodes: multiset<Node>, order: seq<Node>, byId: map<string, Node>, first: nat, end: nat)
    requires multiset(order) == nodes && OnePath(order) && IsById(nodes, byId) && first <= end <= |order|
    ensures BaselineOf(byId, Revisions(order)[first..end])
         == if first < end && first > 0 then Some(order[first - 1].revision) else None
  {
    hide IsById, OnePath;
    PathIsIndexed(nodes, order, byId);
    if first < end {
      assert Revisions(order)[first..end][0] == order[first].revision;
      FirstParent(order, first);
    }
  }

  lemma FirstParent(order: seq<Node>, i: nat)
    requires OnePath(order) && i < |order|
    ensures order[i].parents == if i == 0 then [] else [order[i - 1].revision]
  {
    assert Linked(order, i);
  }

  /** Contiguous changes are one stretch of the chain. */
  lemma Stretch(chain: seq<string>, changed: set<string>) returns (first: nat, end: nat)
    requires Contiguous(chain, changed)
    ensures first <= end <= |chain|
    ensures forall i :: 0 <= i < |chain| ==> (chain[i] in changed <==> first <= i < end)
    ensures Among(chain, changed) == chain[first..end]
  {
    PlacesAreExact(chain, changed);
    ConsecutiveIsContiguous(chain, changed);
    hide Places, Among, Contiguous;
    var places := Places(chain, changed);
    if places == [] {
      first, end := 0, 0;
    } else {
      first, end := places[0], places[0] + |places|;
      assert places[|places| - 1] == end - 1;
      forall i | first <= i < end ensures chain[i] in changed {
        assert places[i - first] == i;
      }
      assert Among(chain, changed) == chain[first..end];
    }
  }

  /** No reason but these can stand behind a disconnected graph. */
  predicate Breaks(reason: Reason) {
    reason.DuplicateRevisionId? || reason.MergeRevisionUnsupported? || reason.MissingRevisionParent?
    || reason.RevisionCycle?
  }

  lemma DisconnectionIsExplained(nodes: multiset<Node>, byId: map<string, Node>)
    requires IsById(nodes, byId) && Raised(nodes, byId, DisconnectedRevisionGraph)
    ensures exists reason :: Raised(nodes, byId, reason) && Breaks(reason)
  {
    hide IsById, Walk, IsHead, HasCycle, Several, ManyHeads;
    if forall reason :: Raised(nodes, byId, reason) ==>
      reason.MultipleRevisionHeads? || reason.DisconnectedRevisionGraph? || reason.ChangedRevisionsNotLinear?
    {
      NoReasonIsSound(nodes, byId);
      var head :| SoleHead(nodes, head);
      OneHeadIsConnected(nodes, byId, head);
      assert false;
    }
  }

  lemma OneHeadIsConnected(nodes: multiset<Node>, byId: map<string, Node>, head: Node)
    requires IsById(nodes, byId) && Sound(nodes, byId) && SoleHead(nodes, head)
    ensures !Raised(nodes, byId, DisconnectedRevisionGraph)
  {
    hide HasCycle, Several, IsHead, ManyHeads, Walk, OnePath, Sound, ChainOf, IsById;
    var order := SoundIsOnePath(nodes, byId, head);
    PathIsTheChain(nodes, order, byId);
    PathIsIndexed(nodes, order, byId);
  }

  /** A graph is never called disconnected without another structural reason beside it. */
  lemma DisconnectedIsNeverAlone(nodes: multiset<Node>, parsing: set<Reason>, graph: BuiltGraph)
    requires IsGraphOf(nodes, parsing, graph) && DisconnectedRevisionGraph in graph.reasons
             && DisconnectedRevisionGraph !in parsing
    ensures exists reason :: reason in graph.reasons && Breaks(reason)
  {
    hide IsById, Raised, ChainOf, Among, BaselineOf, IsHead;
    var byId :| IsById(nodes, byId) && IsBuilt(nodes, parsing, byId, graph);
    DisconnectionIsExplained(nodes, byId);
    var reason :| Raised(nodes, byId, reason) && Breaks(reason);
    assert reason in graph.reasons;
  }

  /** Nodes without any head always show a cycle or a duplicate. */
  lemma NoHeadIsExplained(nodes: multiset<Node>, parsing: set<Reason>, graph: BuiltGraph)
    requires IsGraphOf(nodes, parsing, graph) && nodes != multiset{} && graph.heads == []
    ensures exists reason :: reason in graph.reasons && (reason.RevisionCycle? || reason.DuplicateRevisionId?)
  {
    hide IsById, IsHead, HasCycle, Several, ChainOf, Among, BaselineOf;
    var byId :| IsById(nodes, byId) && IsBuilt(nodes, parsing, byId, graph);
    forall n ensures !IsHead(nodes, n) {
      assert n.revision !in graph.heads;
    }
    if r :| Repeated(nodes, r) {
      assert Raised(nodes, byId, DuplicateRevisionId(r));
      assert DuplicateRevisionId(r) in graph.reasons;
    } else {
      HeadlessIsCyclic(nodes, byId);
      assert Raised(nodes, byId, RevisionCycle);
      assert RevisionCycle in graph.reasons;
    }
  }

  lemma IndexIsUnique(nodes: multiset<Node>, byId: map<string, Node>, other: map<string, Node>)
    requires IsById(nodes, byId) && IsById(nodes, other)
    ensures byId == other
  {
    hide Several;
    forall r ensures r in byId <==> r in other && byId[r] == other[r] {
      if r in byId {
        Indexed(nodes, other, byId[r]);
      }
    }
  }

  /** The order in which the files are read decides nothing: only the bag of nodes counts. */
  lemma BuiltGraphIsDetermined(nodes: multiset<Node>, parsing: set<Reason>, graph: BuiltGraph, again: BuiltGraph)
    requires IsGraphOf(nodes, parsing, graph) && IsGraphOf(nodes, parsing, again)
    ensures graph.targetChain == again.targetChain && graph.baseline == again.baseline
    ensures graph.changedRevisions == again.changedRevisions && graph.supported == again.supported
    ensures forall reason :: reason in graph.reasons <==> reason in again.reasons
    ensures graph.heads == again.heads
  {
    hide IsById, Raised, ChainOf, Among, HeadBag, Sorted;
    var byId :| IsById(nodes, byId) && IsBuilt(nodes, parsing, byId, graph);
    var other :| IsById(nodes, other) && IsBuilt(nodes, parsing, other, again);
    IndexIsUnique(nodes, byId, other);
    StringAtMostIsTotalOrder();
    SortedIsUnique(graph.heads, again.heads, StringAtMost);
    assert graph.reasons != [] ==> graph.reasons[0] in graph.reasons;
    assert again.reasons != [] ==> again.reasons[0] in again.reasons;
  }
}

/** Finite directed graphs given by successor lists, in which edges to unknown nodes do not count. */
module Digraph {

  type Graph<K> = map<K, seq<K>>

  predicate Edge<K(==)>(g: Graph<K>, a: K, b: K) {
    a in g && b in g && b in g[a]
  }

  predicate IsWalk<K(==)>(g: Graph<K>, p: seq<K>) {
    && (forall i :: 0 <= i < |p| ==> p[i] in g)
    && forall i :: 0 <= i < |p| - 1 ==> Edge(g, p[i], p[i + 1])
  }

  /** A closed walk of at least one edge. */
  ghost predicate IsCycle<K>(g: Graph<K>, p: seq<K>) {
    |p| >= 2 && IsWalk(g, p) && p[0] == p[|p| - 1]
  }

  ghost predicate HasCycle<K(!new)>(g: Graph<K>) {
    exists p :: IsCycle(g, p)
  }

  /** The nodes ranked so far, each above all of its successors. */
  predicate Ranked<K(==)>(g: Graph<K>, rank: map<K, nat>) {
    && rank.Keys <= g.Keys
    && forall a :: a in rank ==> forall b :: b in g[a] && b in g ==> b in rank && rank[b] < rank[a]
  }

  lemma {:induction false} WalkDescends<K>(g: Graph<K>, rank: map<K, nat>, p: seq<K>)
    requires Ranked(g, rank) && IsWalk(g, p) && |p| >= 2 && p[0] in rank
    ensures p[|p| - 1] in rank && rank[p[|p| - 1]] < rank[p[0]]
  {
    assert Edge(g, p[0], p[1]);
    if |p| <= 2 {
    } else {
      assert IsWalk(g, p[1..]) by {
        forall i | 0 <= i < |p[1..]| - 1 ensures Edge(g, p[1..][i], p[1..][i + 1]) {
          assert Edge(g, p[i + 1], p[i + 2]);
        }
      }
      WalkDescends(g, rank, p[1..]);
    }
  }

  /** A graph whose nodes can all be ranked above their successors has no cycle. */
  lemma RankedIsAcyclic<K(!new)>(g: Graph<K>, rank: map<K, nat>)
    requires Ranked(g, rank) && rank.Keys == g.Keys
    ensures !HasCycle(g)
  {
    if HasCycle(g) {
      var p :| IsCycle(g, p);
      WalkDescends(g, rank, p);
    }
  }

  /** An edge from the end of a walk back onto it closes a cycle. */
  lemma BackEdgeClosesCycle<K(!new)>(g: Graph<K>, p: seq<K>, k: K)
    requires IsWalk(g, p) && p != [] && k in p && Edge(g, p[|p| - 1], k)
    ensures HasCycle(g)
  {
    var i :| 0 <= i < |p| && p[i] == k;
    var cycle := p[i..] + [k];
    forall j | 0 <= j < |cycle| - 1 ensures Edge(g, cycle[j], cycle[j + 1]) {
      if j + 1 < |p[i..]| {
        assert Edge(g, p[i + j], p[i + j + 1]);
      }
    }
    assert IsCycle(g, cycle);
  }

  lemma WalkExtends<K>(g: Graph<K>, p: seq<K>, k: K)
    requires IsWalk(g, p) && k in g && (p != [] ==> Edge(g, p[|p| - 1], k))
    ensures IsWalk(g, p + [k])
  {
    var q := p + [k];
    forall i | 0 <= i < |q| - 1 ensures Edge(g, q[i], q[i + 1]) {
      if i + 1 < |p| {
        assert Edge(g, p[i], p[i + 1]);
      }
    }
  }

  // --- A nonempty set of nodes that can always be left backwards within itself holds a cycle -----------

  ghost predicate HasPredecessor<K(!new)>(g: Graph<K>, nodes: set<K>, k: K) {
    exists j :: j in nodes && Edge(g, j, k)
  }

  ghost predicate Trapped<K(!new)>(g: Graph<K>, nodes: set<K>) {
    nodes <= g.Keys && forall k {:trigger HasPredecessor(g, nodes, k)} :: k in nodes ==> HasPredecessor(g, nodes, k)
  }

  lemma Predecessor<K(!new)>(g: Graph<K>, nodes: set<K>, k: K) returns (j: K)
    requires Trapped(g, nodes) && k in nodes
    ensures j in nodes && Edge(g, j, k)
  {
    assert HasPredecessor(g, nodes, k);
    j :| j in nodes && Edge(g, j, k);
  }

  /** A walk of any length that stays inside. */
  lemma {:induction false} TrappedWalk<K(!new)>(g: Graph<K>, nodes: set<K>, start: K, length: nat) returns (p: seq<K>)
    requires Trapped(g, nodes) && start in nodes
    ensures |p| == length + 1 && IsWalk(g, p) && forall i :: 0 <= i < |p| ==> p[i] in nodes
    decreases length
  {
    hide Trapped;
    if length == 0 {
      p := [start];
      assert start in g by { var j := Predecessor(g, nodes, start); }
    } else {
      var tail := TrappedWalk(g, nodes, start, length - 1);
      var k := Predecessor(g, nodes, tail[0]);
      p := [k] + tail;
      forall i | 0 <= i < |p| - 1 ensures Edge(g, p[i], p[i + 1]) {
        if i > 0 {
          assert Edge(g, tail[i - 1], tail[i]);
        }
      }
    }
  }

  lemma {:induction false} Pigeonhole<K>(nodes: set<K>, p: seq<K>) returns (i: nat, j: nat)
    requires |p| > |nodes| && forall i :: 0 <= i < |p| ==> p[i] in nodes
    ensures i < j < |p| && p[i] == p[j]
    decreases |p|
  {
    var last := p[|p| - 1];
    var rest := p[..|p| - 1];
    if last in rest {
      i :| 0 <= i < |rest| && rest[i] == last;
      j := |p| - 1;
    } else {
      forall k | 0 <= k < |rest| ensures rest[k] in nodes - {last} {
        assert rest[k] == p[k] && rest[k] in rest;
      }
      i, j := Pigeonhole(nodes - {last}, rest);
    }
  }

  lemma TrappedHasCycle<K(!new)>(g: Graph<K>, nodes: set<K>)
    requires Trapped(g, nodes) && nodes != {}
    ensures HasCycle(g)
  {
    hide Trapped;
    var start :| start in nodes;
    var p := TrappedWalk(g, nodes, start, |nodes|);
    var i, j := Pigeonhole(nodes, p);
    var cycle := p[i..j + 1];
    forall k | 0 <= k < |cycle| - 1 ensures Edge(g, cycle[k], cycle[k + 1]) {
      assert Edge(g, p[i + k], p[i + k + 1]);
    }
    assert IsCycle(g, cycle);
  }

  // --- Depth-first search ------------------------------------------------------------------------------

  /** The state of a search: the walk it is on, and the finished nodes ranked in the order they finished. */
  ghost predicate Searching<K(!new)>(g: Graph<K>, stack: seq<K>, rank: map<K, nat>) {
    && IsWalk(g, stack)
    && Ranked(g, rank)
    && (forall k :: k in rank ==> rank[k] < |rank| && k !in stack)
  }

  /** Entering a node that is neither on the walk nor finished. */
  lemma Enter<K(!new)>(g: Graph<K>, stack: seq<K>, rank: map<K, nat>, k: K)
    requires Searching(g, stack, rank) && k in g && k !in rank && (stack != [] ==> Edge(g, stack[|stack| - 1], k))
    ensures Searching(g, stack + [k], rank)
  {
    WalkExtends(g, stack, k);
  }

  /** Meeting a node that is on the walk. */
  lemma MeetActive<K(!new)>(g: Graph<K>, stack: seq<K>, rank: map<K, nat>, k: K)
    requires Searching(g, stack, rank) && k in stack && Edge(g, stack[|stack| - 1], k)
    ensures HasCycle(g)
  {
    BackEdgeClosesCycle(g, stack, k);
  }

  /** Finishing the node on top, all of whose known successors have finished. */
  lemma Finish<K(!new)>(g: Graph<K>, stack: seq<K>, rank: map<K, nat>, k: K)
    requires Searching(g, stack + [k], rank) && k !in stack && k in g
    requires forall b :: b in g[k] && b in g ==> b in rank
    ensures Searching(g, stack, rank[k := |rank|])
  {
    var after := rank[k := |rank|];
    assert (stack + [k])[|stack|] == k;
    assert |after| == |rank| + 1;
    forall i | 0 <= i < |stack| - 1 ensures Edge(g, stack[i], stack[i + 1]) {
      assert Edge(g, (stack + [k])[i], (stack + [k])[i + 1]);
    }
    forall i | 0 <= i < |stack| ensures stack[i] in g {
      assert (stack + [k])[i] in g;
    }
    forall a | a in after ensures a !in stack {
      assert a in stack ==> a in stack + [k];
    }
  }

  /** A search that keeps the nodes on its walk and the finished nodes as two sets. */
  ghost predicate Tracked<K(!new)>(g: Graph<K>, stack: seq<K>, rank: map<K, nat>, active: set<K>, done: set<K>) {
    && Searching(g, stack, rank)
    && (forall k :: k in active <==> k in stack)
    && done == rank.Keys && active + done <= g.Keys
  }

  lemma TrackedFacts<K(!new)>(g: Graph<K>, stack: seq<K>, rank: map<K, nat>, active: set<K>, done: set<K>)
    requires Tracked(g, stack, rank, active, done)
    ensures Searching(g, stack, rank) && active + done <= g.Keys && forall k :: k in active <==> k in stack
  {
  }

  lemma TrackedEnter<K(!new)>(g: Graph<K>, stack: seq<K>, rank: map<K, nat>, active: set<K>, done: set<K>, k: K)
    requires Tracked(g, stack, rank, active, done) && k in g && k !in done
    requires stack != [] ==> Edge(g, stack[|stack| - 1], k)
    ensures Tracked(g, stack + [k], rank, active + {k}, done)
  {
    hide Searching;
    Enter(g, stack, rank, k);
  }

  lemma TrackedLeave<K(!new)>(g: Graph<K>, stack: seq<K>, rank: map<K, nat>, active: set<K>, done: set<K>, k: K)
    requires Tracked(g, stack + [k], rank, active + {k}, done) && k !in active && k in g
    requires forall a :: a in active <==> a in stack
    requires forall b :: b in g[k] && b in g ==> b in done
    ensures Tracked(g, stack, rank[k := |rank|], active, done + {k})
  {
    hide Searching;
    Finish(g, stack, rank, k);
  }

  /** A search that has finished every node has found no cycle. */
  lemma TrackedAll<K(!new)>(g: Graph<K>, rank: map<K, nat>, done: set<K>)
    requires Tracked(g, [], rank, {}, done) && done == g.Keys
    ensures !HasCycle(g)
  {
    RankedIsAcyclic(g, rank);
  }
}

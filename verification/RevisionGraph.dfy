/**
  The revision graph builder: do the discovered revisions form one linear chain?
  What it computes is defined on the nodes as a bag, so the order of the files cannot matter.
 */
module RevisionGraph {
  import opened Wrappers
  import opened Digraph
  import opened Ordering
  import opened Sequences

  datatype ChangeKind = Unchanged | New | Modified

  datatype Node = Node(revision: string, parents: seq<string>, path: string, change: ChangeKind)

  datatype Reason =
    | DuplicateRevisionId(revision: string)
    | MergeRevisionUnsupported(revision: string, path: string)
    | MissingRevisionParent(parent: string, path: string)
    | RevisionCycle
    | MultipleRevisionHeads
    | DisconnectedRevisionGraph
    | ChangedRevisionsNotLinear
    | NoRevisionsFound
    | Parse(code: string, detail: string, relativePath: Option<string>)

  datatype BuiltGraph = BuiltGraph(
    heads: seq<string>, baseline: Option<string>, targetChain: seq<string>, changedRevisions: seq<string>,
    supported: bool, reasons: seq<Reason>)

  // --- Selecting nodes ---------------------------------------------------------------------------------

  function Select(nodes: seq<Node>, p: Node -> bool): (selected: seq<Node>) {
    if nodes == [] then []
    else Select(nodes[..|nodes| - 1], p) + if p(nodes[|nodes| - 1]) then [nodes[|nodes| - 1]] else []
  }

  ghost predicate Several(nodes: multiset<Node>, p: Node -> bool) {
    exists a, b :: a in nodes && b in nodes && p(a) && p(b) && (a != b || nodes[a] >= 2)
  }

  lemma {:induction false} SelectCounts(nodes: seq<Node>, p: Node -> bool)
    ensures forall n :: n in Select(nodes, p) <==> n in nodes && p(n)
    ensures |Select(nodes, p)| > 1 <==> Several(multiset(nodes), p)
  {
    hide Several;
    if nodes == [] {
      assert !Several(multiset(nodes), p) by { NothingIsSeveral(p); }
    } else {
      var before, last := nodes[..|nodes| - 1], nodes[|nodes| - 1];
      assert nodes == before + [last];
      SelectCounts(before, p);
      OneMore(multiset(before), last, p);
      assert multiset(nodes) == multiset(before) + multiset{last};
      assert (exists n :: n in multiset(before) && p(n)) <==> Select(before, p) != [] by {
        if Select(before, p) != [] {
          assert Select(before, p)[0] in before;
        }
      }
    }
  }

  lemma NothingIsSeveral(p: Node -> bool)
    ensures !Several(multiset{}, p)
  {
  }

  /** Adding a node makes several of them exactly when there were several or it joins another. */
  lemma OneMore(nodes: multiset<Node>, last: Node, p: Node -> bool)
    ensures Several(nodes + multiset{last}, p) <==> Several(nodes, p) || (p(last) && exists n :: n in nodes && p(n))
  {
    var all := nodes + multiset{last};
    if Several(all, p) {
      var a, b :| a in all && b in all && p(a) && p(b) && (a != b || all[a] >= 2);
      if a in nodes && b in nodes && (a != b || nodes[a] >= 2) {
        assert Several(nodes, p);
      } else if a in nodes {
        assert last == b;
      } else {
        assert last == a && b in nodes;
      }
    }
    if Several(nodes, p) {
      var a, b :| a in nodes && b in nodes && p(a) && p(b) && (a != b || nodes[a] >= 2);
      assert a in all && b in all && (a != b || all[a] >= 2);
    }
    if p(last) && exists n :: n in nodes && p(n) {
      var n :| n in nodes && p(n);
      assert last in all && n in all && (last != n || all[n] >= 2);
    }
  }

  function WithRevision(revision: string): Node -> bool {
    (n: Node) => n.revision == revision
  }

  function WithoutChildren(parents: set<string>): Node -> bool {
    (n: Node) => n.revision !in parents
  }

  // --- The specification -------------------------------------------------------------------------------

  /** Two nodes, or one node twice, carry this revision. */
  ghost predicate Repeated(nodes: multiset<Node>, revision: string) {
    Several(nodes, WithRevision(revision))
  }

  ghost predicate Known(nodes: multiset<Node>, revision: string) {
    (exists a :: a in nodes && a.revision == revision) && !Repeated(nodes, revision)
  }

  /** The revisions that are known and not repeated, each with its node. */
  ghost predicate IsById(nodes: multiset<Node>, byId: map<string, Node>) {
    && (forall r :: r in byId <==> Known(nodes, r))
    && (forall r :: r in byId ==> byId[r] in nodes && byId[r].revision == r)
  }

  function ParentGraph(byId: map<string, Node>): (g: Graph<string>)
    ensures g.Keys == byId.Keys && forall r :: r in byId ==> g[r] == byId[r].parents
  {
    map r | r in byId :: byId[r].parents
  }

  ghost function ParentSet(nodes: multiset<Node>): set<string> {
    set n, p | n in nodes && p in n.parents :: p
  }

  ghost predicate IsHead(nodes: multiset<Node>, node: Node) {
    node in nodes && node.revision !in ParentSet(nodes)
  }

  ghost predicate ManyHeads(nodes: multiset<Node>) {
    Several(nodes, WithoutChildren(ParentSet(nodes)))
  }

  /** The revision of a head; other nodes give nothing. */
  function HeadOf(node: Node, parents: set<string>): (own: multiset<string>) {
    if node.revision !in parents then multiset{node.revision} else multiset{}
  }

  /** The revisions of all heads, as often as they occur. */
  ghost function HeadBag(nodes: multiset<Node>, parents: set<string>): (bag: multiset<string>)
    decreases |nodes|
  {
    if nodes == multiset{} then multiset{}
    else
      var n :| n in nodes;
      HeadBag(nodes - multiset{n}, parents) + HeadOf(n, parents)
  }

  lemma {:induction false} HeadBagSplits(nodes: multiset<Node>, parents: set<string>, n: Node)
    requires n in nodes
    ensures HeadBag(nodes, parents) == HeadBag(nodes - multiset{n}, parents) + HeadOf(n, parents)
    decreases |nodes|
  {
    hide HeadBag, HeadOf;
    var m := HeadBagUnfolds(nodes, parents);
    if m == n {
    } else {
      HeadBagSplits(nodes - multiset{m}, parents, n);
      HeadBagSplits(nodes - multiset{n}, parents, m);
      assert nodes - multiset{m} - multiset{n} == nodes - multiset{n} - multiset{m};
    }
  }

  lemma HeadBagUnfolds(nodes: multiset<Node>, parents: set<string>) returns (m: Node)
    requires nodes != multiset{}
    ensures m in nodes && HeadBag(nodes, parents) == HeadBag(nodes - multiset{m}, parents) + HeadOf(m, parents)
  {
    m :| m in nodes && HeadBag(nodes, parents) == HeadBag(nodes - multiset{m}, parents) + HeadOf(m, parents);
  }

  lemma HeadBagAdds(nodes: multiset<Node>, parents: set<string>, n: Node)
    ensures HeadBag(nodes + multiset{n}, parents) == HeadBag(nodes, parents) + HeadOf(n, parents)
  {
    HeadBagSplits(nodes + multiset{n}, parents, n);
    assert nodes + multiset{n} - multiset{n} == nodes;
  }

  ghost predicate SoleHead(nodes: multiset<Node>, head: Node) {
    IsHead(nodes, head) && !ManyHeads(nodes)
  }

  /** From a revision through single parents, stopping at an unknown or repeated revision, a root or a merge. */
  function Walk(byId: map<string, Node>, revision: string, seen: set<string>): seq<string>
    decreases byId.Keys - seen
  {
    if revision !in byId || revision in seen then []
    else
      [revision]
      + if |byId[revision].parents| == 1 then Walk(byId, byId[revision].parents[0], seen + {revision}) else []
  }

  function Reversed(s: seq<string>): (r: seq<string>)
    ensures |r| == |s| && forall k :: 0 <= k < |s| ==> r[k] == s[|s| - 1 - k]
  {
    seq(|s|, k requires 0 <= k < |s| => s[|s| - 1 - k])
  }

  ghost function ChainOf(nodes: multiset<Node>, byId: map<string, Node>): seq<string> {
    if exists head :: SoleHead(nodes, head) then
      var head :| SoleHead(nodes, head);
      Reversed(Walk(byId, head.revision, {}))
    else []
  }

  ghost function ChangedSet(nodes: multiset<Node>): set<string> {
    set n | n in nodes && n.change != Unchanged :: n.revision
  }

  /** The changed revisions of a chain, in chain order. */
  function Among(chain: seq<string>, changed: set<string>): seq<string> {
    if chain == [] then []
    else Among(chain[..|chain| - 1], changed) + if chain[|chain| - 1] in changed then [chain[|chain| - 1]] else []
  }

  ghost predicate Contiguous(chain: seq<string>, changed: set<string>) {
    forall i, j, k :: 0 <= i < j < k < |chain| && chain[i] in changed && chain[k] in changed ==> chain[j] in changed
  }

  ghost predicate Raised(nodes: multiset<Node>, byId: map<string, Node>, reason: Reason) {
    match reason
    case DuplicateRevisionId(r) => Repeated(nodes, r)
    case MergeRevisionUnsupported(r, p) => exists n :: n in nodes && |n.parents| > 1 && n.revision == r && n.path == p
    case MissingRevisionParent(q, p) => exists n :: n in nodes && q in n.parents && n.path == p && q !in byId
    case RevisionCycle => HasCycle(ParentGraph(byId))
    case MultipleRevisionHeads => ManyHeads(nodes)
    case DisconnectedRevisionGraph => (exists head :: SoleHead(nodes, head)) && |ChainOf(nodes, byId)| != |byId|
    case ChangedRevisionsNotLinear =>
      exists r :: r in ChangedSet(nodes)
        && (r !in ChainOf(nodes, byId) || !Contiguous(ChainOf(nodes, byId), ChangedSet(nodes)))
    case NoRevisionsFound => false
    case Parse(_, _, _) => false
  }

  ghost function BaselineOf(byId: map<string, Node>, ordered: seq<string>): Option<string> {
    if ordered != [] && ordered[0] in byId && |byId[ordered[0]].parents| == 1 then Some(byId[ordered[0]].parents[0])
    else None
  }

  /** The graph a builder must return for a bag of nodes and the reasons found while parsing. */
  ghost predicate IsBuilt(nodes: multiset<Node>, parsing: set<Reason>, byId: map<string, Node>, graph: BuiltGraph) {
    && graph.targetChain == ChainOf(nodes, byId)
    && graph.changedRevisions == Among(graph.targetChain, ChangedSet(nodes))
    && graph.baseline == BaselineOf(byId, graph.changedRevisions)
    && (forall reason :: reason in graph.reasons <==>
          || reason in parsing || Raised(nodes, byId, reason)
          || (reason == NoRevisionsFound && nodes == multiset{} && parsing == {}))
    && (forall i, j :: 0 <= i < j < |graph.reasons| ==> graph.reasons[i] != graph.reasons[j])
    && (graph.supported <==> graph.reasons == [] && nodes != multiset{})
    && (forall r :: r in graph.heads <==> exists n :: IsHead(nodes, n) && n.revision == r)
    && multiset(graph.heads) == HeadBag(nodes, ParentSet(nodes)) && Sorted(graph.heads, StringAtMost)
  }

  /** The graph of a bag of nodes; only one index fits them. */
  ghost predicate IsGraphOf(nodes: multiset<Node>, parsing: set<Reason>, graph: BuiltGraph) {
    exists byId :: IsById(nodes, byId) && IsBuilt(nodes, parsing, byId, graph)
  }

  /** The recursive cycle check. A revision is marked visited when it is entered. */
  class CycleSearch {
    const graph: Graph<string>
    var visited: set<string>
    var active: set<string>
    ghost var stack: seq<string>
    ghost var rank: map<string, nat>
    ghost var done: set<string>

    ghost predicate Valid()
      reads this
    {
      Tracked(graph, stack, rank, active, done) && visited == active + done
    }

    constructor (graph: Graph<string>)
      ensures this.graph == graph && Valid() && stack == [] && active == {}
    {
      this.graph := graph;
      visited, active, stack, rank, done := {}, {}, [], map[], {};
    }

    method Visit(revision: string) returns (cyclic: bool)
      requires Valid() && revision in graph && (stack != [] ==> Edge(graph, stack[|stack| - 1], revision))
      modifies this
      ensures cyclic ==> HasCycle(graph)
      ensures !cyclic ==> Valid() && stack == old(stack) && active == old(active)
      ensures !cyclic ==> old(visited) <= visited && old(done) <= done && revision in done
      decreases graph.Keys - visited, 0
    {
      hide Tracked, Searching, HasCycle, Edge;
      TrackedFacts(graph, stack, rank, active, done);
      if revision in active {
        MeetActive(graph, stack, rank, revision);
        return true;
      }
      if revision in visited {
        return false;
      }
      TrackedEnter(graph, stack, rank, active, done, revision);
      visited, active, stack := visited + {revision}, active + {revision}, stack + [revision];
      cyclic := VisitAny(revision);
      if !cyclic {
        TrackedLeave(graph, old(stack), rank, old(active), done, revision);
        stack, rank, done := old(stack), rank[revision := |rank|], done + {revision};
      }
      active := active - {revision};
    }

    /** Visits the known parents of the revision just entered, up to the first that is on a cycle. */
    method VisitAny(revision: string) returns (cyclic: bool)
      requires Valid() && stack != [] && stack[|stack| - 1] == revision && revision in graph
      modifies this
      ensures cyclic ==> HasCycle(graph)
      ensures !cyclic ==> Valid() && stack == old(stack) && active == old(active)
      ensures !cyclic ==> old(visited) <= visited && old(done) <= done
      ensures !cyclic ==> forall p :: p in graph[revision] && p in graph ==> p in done
      decreases graph.Keys - visited, 1
    {
      hide Tracked, Searching, HasCycle;
      var parents := graph[revision];
      for i := 0 to |parents|
        invariant Valid() && stack == old(stack) && active == old(active)
        invariant old(visited) <= visited && old(done) <= done
        invariant forall j :: 0 <= j < i && parents[j] in graph ==> parents[j] in done
      {
        if parents[i] in graph {
          assert Edge(graph, revision, parents[i]);
          cyclic := Visit(parents[i]);
          if cyclic {
            return;
          }
        }
      }
      return false;
    }
  }

  /** Visits every revision, in whatever order the dictionary yields them. */
  method FindCycle(graph: Graph<string>) returns (cyclic: bool)
    ensures cyclic <==> HasCycle(graph)
  {
    var search := new CycleSearch(graph);
    var rest := graph.Keys;
    while rest != {}
      invariant search.graph == graph && search.Valid() && search.stack == [] && search.active == {}
      invariant rest <= graph.Keys && graph.Keys - rest <= search.done
    {
      var revision :| revision in rest;
      var found := search.Visit(revision);
      if found {
        return true;
      }
      rest := rest - {revision};
    }
    TrackedFacts(graph, search.stack, search.rank, search.active, search.done);
    TrackedAll(graph, search.rank, search.done);
    return false;
  }

  // --- The builder -------------------------------------------------------------------------------------

  method CountRevisions(nodes: seq<Node>) returns (counts: map<string, nat>)
    ensures forall r :: r in counts <==> exists n :: n in nodes && n.revision == r
    ensures forall r :: r in counts ==> counts[r] == |Select(nodes, WithRevision(r))|
  {
    counts := map[];
    for i := 0 to |nodes|
      invariant forall r :: r in counts ==> counts[r] == |Select(nodes[..i], WithRevision(r))| > 0
      invariant forall r :: r !in counts ==> |Select(nodes[..i], WithRevision(r))| == 0
    {
      var r := nodes[i].revision;
      assert nodes[..i + 1][..i] == nodes[..i];
      counts := counts[r := (if r in counts then counts[r] else 0) + 1];
    }
    assert nodes[..|nodes|] == nodes;
    forall r ensures r in counts <==> exists n :: n in nodes && n.revision == r {
      SelectedExists(nodes, r);
    }
  }

  lemma SelectedExists(nodes: seq<Node>, r: string)
    ensures |Select(nodes, WithRevision(r))| > 0 <==> exists n :: n in nodes && n.revision == r
  {
    SelectCounts(nodes, WithRevision(r));
    if |Select(nodes, WithRevision(r))| > 0 {
      assert Select(nodes, WithRevision(r))[0] in nodes;
    }
  }

  lemma CountsDecide(nodes: seq<Node>, counts: map<string, nat>, r: string)
    requires forall r :: r in counts <==> exists n :: n in nodes && n.revision == r
    requires forall r :: r in counts ==> counts[r] == |Select(nodes, WithRevision(r))|
    ensures Repeated(multiset(nodes), r) <==> r in counts && counts[r] > 1
    ensures Known(multiset(nodes), r) <==> r in counts && counts[r] == 1
  {
    SelectCounts(nodes, WithRevision(r));
    if r in counts {
      var n :| n in nodes && n.revision == r;
      assert n in Select(nodes, WithRevision(r)) && n in multiset(nodes);
    }
    if Repeated(multiset(nodes), r) {
      assert exists a, b :: a in multiset(nodes) && b in multiset(nodes) && WithRevision(r)(a) && WithRevision(r)(b)
                            && (a != b || multiset(nodes)[a] >= 2);
    }
  }

  method IndexNodes(nodes: seq<Node>, counts: map<string, nat>) returns (byId: map<string, Node>)
    requires forall r :: r in counts <==> exists n :: n in nodes && n.revision == r
    requires forall r :: r in counts ==> counts[r] == |Select(nodes, WithRevision(r))|
    ensures IsById(multiset(nodes), byId)
  {
    hide Select, Known;
    byId := map[];
    for i := 0 to |nodes|
      invariant forall r :: r in byId ==> byId[r] in nodes && byId[r].revision == r && counts[r] == 1
      invariant forall k :: 0 <= k < i && counts[nodes[k].revision] == 1 ==> nodes[k].revision in byId
    {
      if counts[nodes[i].revision] == 1 {
        byId := byId[nodes[i].revision := nodes[i]];
      }
    }
    forall r ensures r in byId <==> Known(multiset(nodes), r) {
      IndexedIffKnown(nodes, counts, byId, r);
    }
  }

  lemma IndexedIffKnown(nodes: seq<Node>, counts: map<string, nat>, byId: map<string, Node>, r: string)
    requires forall q :: q in counts <==> exists n :: n in nodes && n.revision == q
    requires forall q :: q in counts ==> counts[q] == |Select(nodes, WithRevision(q))|
    requires forall q :: q in byId ==> byId[q] in nodes && byId[q].revision == q && counts[q] == 1
    requires forall k :: 0 <= k < |nodes| && counts[nodes[k].revision] == 1 ==> nodes[k].revision in byId
    ensures r in byId <==> Known(multiset(nodes), r)
  {
    hide Select, Known, Repeated;
    CountsDecide(nodes, counts, r);
    if r in counts && counts[r] == 1 {
      var n :| n in nodes && n.revision == r;
      var k :| 0 <= k < |nodes| && nodes[k] == n;
    }
  }

  method ReportDuplicates(counts: map<string, nat>) returns (found: seq<Reason>)
    ensures forall reason :: reason in found <==>
              reason.DuplicateRevisionId? && reason.revision in counts && counts[reason.revision] > 1
  {
    found := [];
    var rest := set r | r in counts && counts[r] > 1;
    while rest != {}
      invariant forall r :: r in rest ==> r in counts && counts[r] > 1
      invariant forall reason :: reason in found <==>
        reason.DuplicateRevisionId? && reason.revision in counts && counts[reason.revision] > 1
        && reason.revision !in rest
    {
      var r :| r in rest;
      found, rest := found + [DuplicateRevisionId(r)], rest - {r};
    }
  }

  predicate ParentProblem(nodes: seq<Node>, byId: map<string, Node>, reason: Reason) {
    || (reason.MergeRevisionUnsupported? &&
        exists n :: n in nodes && |n.parents| > 1 && n.revision == reason.revision && n.path == reason.path)
    || (reason.MissingRevisionParent? &&
        exists n :: n in nodes && reason.parent in n.parents && n.path == reason.path && reason.parent !in byId)
  }

  method ReportParents(nodes: seq<Node>, byId: map<string, Node>) returns (found: seq<Reason>)
    ensures forall reason :: reason in found <==> ParentProblem(nodes, byId, reason)
  {
    found := [];
    for i := 0 to |nodes|
      invariant forall reason :: reason in found <==> ParentProblem(nodes[..i], byId, reason)
    {
      var own := ReportParentsOf(nodes[i], byId);
      forall reason ensures reason in found + own <==> ParentProblem(nodes[..i + 1], byId, reason) {
        assert nodes[..i + 1] == nodes[..i] + [nodes[i]];
        assert ParentProblem(nodes[..i + 1], byId, reason)
               <==> ParentProblem(nodes[..i], byId, reason) || ParentProblem([nodes[i]], byId, reason);
      }
      found := found + own;
    }
    assert nodes[..|nodes|] == nodes;
  }

  method ReportParentsOf(node: Node, byId: map<string, Node>) returns (found: seq<Reason>)
    ensures forall reason :: reason in found <==> ParentProblem([node], byId, reason)
  {
    found := if |node.parents| > 1 then [MergeRevisionUnsupported(node.revision, node.path)] else [];
    ghost var merge := found;
    for k := 0 to |node.parents|
      invariant forall reason :: reason in found <==>
        || reason in merge
        || (reason.MissingRevisionParent? && reason.parent in node.parents[..k] && reason.path == node.path
            && reason.parent !in byId)
    {
      if node.parents[k] !in byId {
        found := found + [MissingRevisionParent(node.parents[k], node.path)];
      }
    }
    assert node.parents[..|node.parents|] == node.parents;
    assert node in [node];
  }

  method CollectParents(nodes: seq<Node>) returns (parents: set<string>)
    ensures parents == ParentSet(multiset(nodes))
  {
    parents := {};
    for i := 0 to |nodes|
      invariant forall p :: p in parents <==> exists n :: n in nodes[..i] && p in n.parents
    {
      assert nodes[..i + 1] == nodes[..i] + [nodes[i]];
      parents := parents + set p | p in nodes[i].parents;
    }
    assert nodes[..|nodes|] == nodes;
  }

  method FindHeads(nodes: seq<Node>) returns (heads: seq<string>)
    ensures forall r :: r in heads <==> exists n :: IsHead(multiset(nodes), n) && n.revision == r
    ensures |heads| > 1 <==> ManyHeads(multiset(nodes))
    ensures multiset(heads) == HeadBag(multiset(nodes), ParentSet(multiset(nodes))) && Sorted(heads, StringAtMost)
  {
    hide HeadBag, ManyHeads, IsHead, HeadList;
    var parents := CollectParents(nodes);
    var found: seq<string> := [];
    assert HeadList([], parents) == [] by { NoHeadsInNothing(parents); }
    for i := 0 to |nodes|
      invariant found == HeadList(nodes[..i], parents)
    {
      HeadListGrows(nodes, i, parents);
      if nodes[i].revision !in parents {
        found := found + [nodes[i].revision];
      }
    }
    assert nodes[..|nodes|] == nodes;
    HeadListIsSelected(nodes, parents);
    HeadListIsBag(nodes, parents);
    HeadsAreSelected(nodes, found);
    heads := Sort(found, StringAtMost);
    StringAtMostIsTotalOrder();
    SortIsSorted(found, StringAtMost);
    SameElements(heads, found);
  }

  /** The revisions of the heads, node by node. */
  function HeadList(nodes: seq<Node>, parents: set<string>): (heads: seq<string>) {
    if nodes == [] then []
    else
      var last := nodes[|nodes| - 1];
      HeadList(nodes[..|nodes| - 1], parents) + if last.revision !in parents then [last.revision] else []
  }

  lemma NoHeadsInNothing(parents: set<string>)
    ensures HeadList([], parents) == []
  {
  }

  lemma HeadListGrows(nodes: seq<Node>, i: nat, parents: set<string>)
    requires i < |nodes|
    ensures HeadList(nodes[..i + 1], parents)
         == HeadList(nodes[..i], parents) + if nodes[i].revision !in parents then [nodes[i].revision] else []
  {
    assert nodes[..i + 1][..i] == nodes[..i];
  }

  lemma {:induction false} HeadListIsSelected(nodes: seq<Node>, parents: set<string>)
    ensures var heads, selected := HeadList(nodes, parents), Select(nodes, WithoutChildren(parents));
            |heads| == |selected| && forall k :: 0 <= k < |heads| ==> heads[k] == selected[k].revision
  {
    if nodes == [] {
    } else {
      HeadListIsSelected(nodes[..|nodes| - 1], parents);
    }
  }

  lemma {:induction false} HeadListIsBag(nodes: seq<Node>, parents: set<string>)
    ensures multiset(HeadList(nodes, parents)) == HeadBag(multiset(nodes), parents)
  {
    hide HeadBag;
    if nodes == [] {
      assert HeadBag(multiset{}, parents) == multiset{} by { NoHeadBag(parents); }
    } else {
      var before, last := nodes[..|nodes| - 1], nodes[|nodes| - 1];
      HeadListIsBag(before, parents);
      HeadBagAdds(multiset(before), parents, last);
      assert multiset(nodes) == multiset(before) + multiset{last} by { assert nodes == before + [last]; }
      var own := if last.revision !in parents then [last.revision] else [];
      assert multiset(own) == HeadOf(last, parents);
      assert multiset(HeadList(before, parents) + own) == multiset(HeadList(before, parents)) + multiset(own);
    }
  }

  lemma NoHeadBag(parents: set<string>)
    ensures HeadBag(multiset{}, parents) == multiset{}
  {
  }

  lemma SameElements(a: seq<string>, b: seq<string>)
    requires multiset(a) == multiset(b)
    ensures |a| == |b| && forall x :: x in a <==> x in b
  {
    assert |a| == |multiset(a)| == |multiset(b)| == |b|;
    assert forall x :: x in a <==> x in multiset(a);
    assert forall x :: x in b <==> x in multiset(b);
  }

  lemma HeadsAreSelected(nodes: seq<Node>, heads: seq<string>)
    requires var selected := Select(nodes, WithoutChildren(ParentSet(multiset(nodes))));
             |heads| == |selected| && forall k :: 0 <= k < |heads| ==> heads[k] == selected[k].revision
    ensures forall r :: r in heads <==> exists n :: IsHead(multiset(nodes), n) && n.revision == r
    ensures |heads| > 1 <==> ManyHeads(multiset(nodes))
  {
    var p := WithoutChildren(ParentSet(multiset(nodes)));
    var selected := Select(nodes, p);
    SelectCounts(nodes, p);
    forall r ensures r in heads <==> exists n :: IsHead(multiset(nodes), n) && n.revision == r {
      if n :| IsHead(multiset(nodes), n) && n.revision == r {
        assert n in selected;
        var k :| 0 <= k < |selected| && selected[k] == n;
        assert heads[k] == r;
      }
      if r in heads {
        var k :| 0 <= k < |heads| && heads[k] == r;
        assert selected[k] in selected;
        assert IsHead(multiset(nodes), selected[k]);
      }
    }
  }

  /** A walk visits known revisions, each at most once and none that was seen before. */
  lemma {:induction false} WalkIsDistinct(byId: map<string, Node>, revision: string, seen: set<string>)
    ensures var w := Walk(byId, revision, seen);
            Distinct(w) && forall k :: 0 <= k < |w| ==> w[k] in byId && w[k] !in seen
    decreases byId.Keys - seen
  {
    if revision !in byId || revision in seen || |byId[revision].parents| != 1 {
    } else {
      WalkIsDistinct(byId, byId[revision].parents[0], seen + {revision});
    }
  }

  /** Each revision of a walk is followed by its only parent. */
  lemma {:induction false} WalkFollowsParents(byId: map<string, Node>, revision: string, seen: set<string>)
    ensures var w := Walk(byId, revision, seen);
            && (w != [] ==> w[0] == revision)
            && (forall k :: 0 <= k < |w| ==> w[k] in byId)
            && forall k :: 0 <= k < |w| - 1 ==> byId[w[k]].parents == [w[k + 1]]
    decreases byId.Keys - seen
  {
    if revision !in byId || revision in seen || |byId[revision].parents| != 1 {
    } else {
      WalkFollowsParents(byId, byId[revision].parents[0], seen + {revision});
    }
  }

  function WalkFrom(byId: map<string, Node>, current: Option<string>, seen: set<string>): seq<string> {
    if current.Some? then Walk(byId, current.value, seen) else []
  }

  lemma WalkUnfolds(byId: map<string, Node>, revision: string, seen: set<string>)
    requires revision in byId && revision !in seen
    ensures var parents := byId[revision].parents;
            WalkFrom(byId, Some(revision), seen)
            == [revision] + WalkFrom(byId, if |parents| == 1 then Some(parents[0]) else None, seen + {revision})
  {
  }

  lemma EmptyWalk(g: Graph<string>)
    ensures IsWalk(g, [])
  {
  }

  lemma WalkStops(byId: map<string, Node>, current: Option<string>, seen: set<string>)
    requires current == None || current.value !in byId || current.value in seen
    ensures WalkFrom(byId, current, seen) == []
  {
  }

  /** The parent walk with its seen set; meeting a seen revision closes a cycle. */
  method WalkChain(byId: map<string, Node>, head: string) returns (chain: seq<string>, seen: set<string>, cyclic: bool)
    ensures chain == Reversed(WalkFrom(byId, Some(head), {}))
    ensures |seen| == |chain|
    ensures cyclic ==> HasCycle(ParentGraph(byId))
  {
    hide Walk, WalkFrom, IsWalk, HasCycle;
    ghost var g, w := ParentGraph(byId), WalkFrom(byId, Some(head), {});
    assert IsWalk(g, []) by { EmptyWalk(g); }
    var current := Some(head);
    var reverseChain: seq<string> := [];
    seen, cyclic := {}, false;
    while current.Some? && current.value in byId
      invariant w == reverseChain + WalkFrom(byId, current, seen)
      invariant (forall r :: r in seen <==> r in reverseChain) && |seen| == |reverseChain| && seen <= byId.Keys
      invariant !cyclic && IsWalk(g, reverseChain)
      invariant reverseChain != [] && current.Some? && current.value in byId ==>
        Edge(g, reverseChain[|reverseChain| - 1], current.value)
      decreases byId.Keys - seen
    {
      var revision := current.value;
      if revision in seen {
        BackEdgeClosesCycle(g, reverseChain, revision);
        cyclic := true;
        break;
      }
      WalkExtends(g, reverseChain, revision);
      WalkUnfolds(byId, revision, seen);
      var parents := byId[revision].parents;
      seen := seen + {revision};
      current := if |parents| == 1 then Some(parents[0]) else None;
      assert w == (reverseChain + [revision]) + WalkFrom(byId, current, seen);
      reverseChain := reverseChain + [revision];
    }
    WalkStops(byId, current, seen);
    chain := Reversed(reverseChain);
  }

  // --- The changed revisions ---------------------------------------------------------------------------

  /** The indices of the changed revisions in a chain. */
  function Places(chain: seq<string>, changed: set<string>): seq<nat> {
    if chain == [] then []
    else Places(chain[..|chain| - 1], changed) + if chain[|chain| - 1] in changed then [|chain| - 1] else []
  }

  /** The indices, in order, of exactly the changed revisions, which are kept in that order. */
  ghost predicate ArePlaces(chain: seq<string>, changed: set<string>, places: seq<nat>, kept: seq<string>) {
    && |places| == |kept|
    && (forall k :: 0 <= k < |places|
                    ==> places[k] < |chain| && chain[places[k]] in changed && kept[k] == chain[places[k]])
    && (forall k, l :: 0 <= k < l < |places| ==> places[k] < places[l])
    && (forall i :: 0 <= i < |chain| && chain[i] in changed ==> i in places)
  }

  lemma PlacesGrow(chain: seq<string>, changed: set<string>, places: seq<nat>, kept: seq<string>)
    requires chain != [] && ArePlaces(chain[..|chain| - 1], changed, places, kept)
    ensures var n := |chain| - 1;
            if chain[n] in changed then ArePlaces(chain, changed, places + [n], kept + [chain[n]])
            else ArePlaces(chain, changed, places, kept)
  {
    var n := |chain| - 1;
    forall i | 0 <= i < n && chain[i] in changed ensures i in places {
      assert chain[..n][i] in changed;
    }
  }

  lemma {:induction false} PlacesAreExact(chain: seq<string>, changed: set<string>)
    ensures ArePlaces(chain, changed, Places(chain, changed), Among(chain, changed))
  {
    if chain == [] {
    } else {
      hide ArePlaces;
      PlacesAreExact(chain[..|chain| - 1], changed);
      PlacesGrow(chain, changed, Places(chain[..|chain| - 1], changed), Among(chain[..|chain| - 1], changed));
      assert forall s: seq<nat> :: s + [] == s;
      assert forall s: seq<string> :: s + [] == s;
    }
  }

  lemma AmongIsFilter(chain: seq<string>, changed: set<string>)
    ensures forall r :: r in Among(chain, changed) <==> r in chain && r in changed
  {
    PlacesAreExact(chain, changed);
    var places, kept := Places(chain, changed), Among(chain, changed);
    forall r ensures r in kept <==> r in chain && r in changed {
      if r in chain && r in changed {
        var i :| 0 <= i < |chain| && chain[i] == r;
        var k :| 0 <= k < |places| && places[k] == i;
        assert kept[k] == r;
      }
      if r in kept {
        var k :| 0 <= k < |kept| && kept[k] == r;
      }
    }
  }

  predicate Consecutive(places: seq<nat>) {
    forall k :: 0 <= k < |places| ==> places[k] == places[0] + k
  }

  lemma PlaceOf(chain: seq<string>, changed: set<string>, i: nat) returns (k: nat)
    requires i < |chain| && chain[i] in changed
    ensures k < |Places(chain, changed)| && Places(chain, changed)[k] == i
  {
    PlacesAreExact(chain, changed);
    k :| 0 <= k < |Places(chain, changed)| && Places(chain, changed)[k] == i;
  }

  lemma BetweenPlaces(chain: seq<string>, changed: set<string>, i: nat, j: nat, k: nat)
    requires Consecutive(Places(chain, changed))
    requires i < j < k < |chain| && chain[i] in changed && chain[k] in changed
    ensures chain[j] in changed
  {
    hide Places, Among;
    PlacesAreExact(chain, changed);
    var places := Places(chain, changed);
    var a := PlaceOf(chain, changed, i);
    var b := PlaceOf(chain, changed, k);
    assert places[a] == places[0] + a && places[b] == places[0] + b;
    assert places[j - places[0]] == j;
  }

  /** Consecutive places are exactly a contiguous stretch of changes. */
  lemma ConsecutiveIsContiguous(chain: seq<string>, changed: set<string>)
    ensures Consecutive(Places(chain, changed)) <==> Contiguous(chain, changed)
  {
    hide Places, Consecutive;
    var places := Places(chain, changed);
    if Consecutive(places) {
      forall i, j, k | 0 <= i < j < k < |chain| && chain[i] in changed && chain[k] in changed
        ensures chain[j] in changed {
        BetweenPlaces(chain, changed, i, j, k);
      }
    }
    if Contiguous(chain, changed) {
      ContiguousPlaces(chain, changed, |places|);
      assert places[..|places|] == places;
    }
  }

  /** Contiguous changes leave no gap between two places. */
  lemma NextPlace(chain: seq<string>, changed: set<string>, n: nat)
    requires Contiguous(chain, changed) && n + 1 < |Places(chain, changed)|
    ensures Places(chain, changed)[n + 1] == Places(chain, changed)[n] + 1
  {
    hide Places, Among;
    PlacesAreExact(chain, changed);
    var places := Places(chain, changed);
    var i := places[n] + 1;
    assert chain[places[n]] in changed && chain[places[n + 1]] in changed && i <= places[n + 1];
    var k := PlaceOf(chain, changed, i);
    assert k == n + 1;
  }

  lemma {:induction false} ContiguousPlaces(chain: seq<string>, changed: set<string>, n: nat)
    requires Contiguous(chain, changed) && n <= |Places(chain, changed)|
    ensures Consecutive(Places(chain, changed)[..n])
  {
    hide Places, Contiguous;
    var places := Places(chain, changed);
    if n <= 1 {
    } else {
      ContiguousPlaces(chain, changed, n - 1);
      NextPlace(chain, changed, n - 2);
      forall k | 0 <= k < n ensures places[..n][k] == places[..n][0] + k {
        assert k < n - 1 ==> places[..n - 1][k] == places[k];
        assert places[..n - 1][n - 2] == places[n - 2] && places[..n - 1][0] == places[0];
      }
    }
  }

  method KeepChanged(chain: seq<string>, changed: set<string>) returns (ordered: seq<string>)
    ensures ordered == Among(chain, changed)
  {
    ordered := [];
    for i := 0 to |chain|
      invariant ordered == Among(chain[..i], changed)
    {
      assert chain[..i + 1][..i] == chain[..i];
      if chain[i] in changed {
        ordered := ordered + [chain[i]];
      }
    }
    assert chain[..|chain|] == chain;
  }

  method IndexOf(chain: seq<string>, r: string) returns (index: nat)
    requires r in chain
    ensures index < |chain| && chain[index] == r && forall i :: 0 <= i < index ==> chain[i] != r
  {
    index := 0;
    while chain[index] != r
      invariant index < |chain| && forall i :: 0 <= i < index ==> chain[i] != r
      decreases |chain| - index
    {
      index := index + 1;
    }
  }

  method ArePlacedTogether(chain: seq<string>, changed: set<string>, ordered: seq<string>) returns (together: bool)
    requires Distinct(chain) && ordered == Among(chain, changed)
    ensures together <==> Contiguous(chain, changed)
  {
    ConsecutiveIsContiguous(chain, changed);
    PlacesAreExact(chain, changed);
    hide Places, Among, Contiguous;
    ghost var places := Places(chain, changed);
    var positions: seq<nat> := [];
    for k := 0 to |ordered|
      invariant positions == places[..k]
    {
      var position := IndexOf(chain, ordered[k]);
      positions := positions + [position];
    }
    assert positions == places;
    together := forall k :: 0 <= k < |positions| ==> positions[k] == positions[0] + k;
  }

  // --- Putting it together -----------------------------------------------------------------------------

  /** The first occurrence of each reason. */
  method Deduplicate(reasons: seq<Reason>) returns (unique: seq<Reason>)
    ensures forall reason :: reason in unique <==> reason in reasons
    ensures forall i, j :: 0 <= i < j < |unique| ==> unique[i] != unique[j]
  {
    unique := [];
    for i := 0 to |reasons|
      invariant forall reason :: reason in unique <==> reason in reasons[..i]
      invariant forall k, l :: 0 <= k < l < |unique| ==> unique[k] != unique[l]
    {
      assert reasons[..i + 1] == reasons[..i] + [reasons[i]];
      if reasons[i] !in unique {
        unique := unique + [reasons[i]];
      }
    }
    assert reasons[..|reasons|] == reasons;
  }

  lemma TwoHeadsAreMany(nodes: multiset<Node>, a: Node, b: Node)
    requires IsHead(nodes, a) && IsHead(nodes, b)
    ensures a != b ==> ManyHeads(nodes)
  {
    var p := WithoutChildren(ParentSet(nodes));
    assert p(a) && p(b);
  }

  lemma ChainFromHead(nodes: multiset<Node>, byId: map<string, Node>, head: Node)
    requires SoleHead(nodes, head)
    ensures ChainOf(nodes, byId) == Reversed(WalkFrom(byId, Some(head.revision), {}))
  {
    hide ManyHeads, Walk;
    forall other | SoleHead(nodes, other) ensures other == head {
      TwoHeadsAreMany(nodes, head, other);
    }
  }

  lemma NoChainWithoutHead(nodes: multiset<Node>, byId: map<string, Node>)
    requires !exists head :: SoleHead(nodes, head)
    ensures ChainOf(nodes, byId) == []
  {
  }

  lemma NothingIsAcyclic(nodes: seq<Node>, byId: map<string, Node>)
    requires IsById(multiset(nodes), byId) && nodes == []
    ensures !HasCycle(ParentGraph(byId))
  {
    RankedIsAcyclic(ParentGraph(byId), map[]);
  }

  /** The chain, with the reasons that the head, the cycle check and the walk give. */
  method BuildChain(nodes: seq<Node>, byId: map<string, Node>) returns (heads: seq<string>, chain: seq<string>,
                    found: seq<Reason>)
    requires IsById(multiset(nodes), byId)
    ensures chain == ChainOf(multiset(nodes), byId)
    ensures forall r :: r in heads <==> exists n :: IsHead(multiset(nodes), n) && n.revision == r
    ensures multiset(heads) == HeadBag(multiset(nodes), ParentSet(multiset(nodes))) && Sorted(heads, StringAtMost)
    ensures forall reason :: reason in found <==>
              (reason.RevisionCycle? || reason.MultipleRevisionHeads? || reason.DisconnectedRevisionGraph?)
              && Raised(multiset(nodes), byId, reason)
  {
    hide HasCycle, Walk, WalkFrom, Several, ManyHeads, IsHead, ChainOf, IsById, HeadBag, Sorted;
    heads := FindHeads(nodes);
    found := [];
    var cyclic := false;
    if nodes != [] {
      cyclic := FindCycle(ParentGraph(byId));
    } else {
      NothingIsAcyclic(nodes, byId);
    }
    if cyclic {
      found := found + [RevisionCycle];
    }
    if |heads| > 1 {
      found := found + [MultipleRevisionHeads];
    }
    chain := [];
    if |heads| == 1 {
      assert heads[0] in heads;
      ghost var head :| IsHead(multiset(nodes), head) && head.revision == heads[0];
      assert SoleHead(multiset(nodes), head);
      ChainFromHead(multiset(nodes), byId, head);
      var seen, again;
      chain, seen, again := WalkChain(byId, heads[0]);
      if again {
        found := found + [RevisionCycle];
      }
      if |seen| != |byId| {
        found := found + [DisconnectedRevisionGraph];
      }
    } else {
      assert forall n :: IsHead(multiset(nodes), n) ==> n.revision in heads;
      NoChainWithoutHead(multiset(nodes), byId);
    }
  }

  method CollectChanged(nodes: seq<Node>) returns (changed: set<string>)
    ensures changed == ChangedSet(multiset(nodes))
  {
    changed := {};
    for i := 0 to |nodes|
      invariant forall r :: r in changed <==> exists n :: n in nodes[..i] && n.change != Unchanged && n.revision == r
    {
      assert nodes[..i + 1] == nodes[..i] + [nodes[i]];
      if nodes[i].change != Unchanged {
        changed := changed + {nodes[i].revision};
      }
    }
    assert nodes[..|nodes|] == nodes;
  }

  method CheckChanged(nodes: seq<Node>, byId: map<string, Node>, chain: seq<string>)
    returns (ordered: seq<string>, baseline: Option<string>, found: seq<Reason>)
    requires chain == ChainOf(multiset(nodes), byId)
    ensures ordered == Among(chain, ChangedSet(multiset(nodes)))
    ensures baseline == BaselineOf(byId, ordered)
    ensures forall reason ::
              reason in found <==> reason.ChangedRevisionsNotLinear? && Raised(multiset(nodes), byId, reason)
  {
    var changed := CollectChanged(nodes);
    ordered := KeepChanged(chain, changed);
    AmongIsFilter(chain, changed);
    ChainIsDistinct(multiset(nodes), byId);
    var together := ArePlacedTogether(chain, changed, ordered);
    found := [];
    var onChain := forall r :: r in changed ==> r in ordered;
    if changed != {} && (!onChain || !together) {
      found := [ChangedRevisionsNotLinear];
    }
    baseline := None;
    if ordered != [] && ordered[0] in byId && |byId[ordered[0]].parents| == 1 {
      baseline := Some(byId[ordered[0]].parents[0]);
    }
  }

  lemma ChainIsDistinct(nodes: multiset<Node>, byId: map<string, Node>)
    ensures Distinct(ChainOf(nodes, byId))
  {
    if head :| SoleHead(nodes, head) {
      ChainFromHead(nodes, byId, head);
      WalkIsDistinct(byId, head.revision, {});
    }
  }

  lemma ReasonOrigin(nodes: seq<Node>, counts: map<string, nat>, byId: map<string, Node>, reason: Reason)
    requires forall r :: r in counts <==> exists n :: n in nodes && n.revision == r
    requires forall r :: r in counts ==> counts[r] == |Select(nodes, WithRevision(r))|
    ensures reason.DuplicateRevisionId? ==>
              (Raised(multiset(nodes), byId, reason) <==> reason.revision in counts && counts[reason.revision] > 1)
    ensures reason.MergeRevisionUnsupported? || reason.MissingRevisionParent? ==>
              (Raised(multiset(nodes), byId, reason) <==> ParentProblem(nodes, byId, reason))
  {
    if reason.DuplicateRevisionId? {
      CountsDecide(nodes, counts, reason.revision);
    }
  }

  /** Without nodes there is nothing to object to. */
  lemma NothingRaisedOnNothing(byId: map<string, Node>, reason: Reason)
    requires IsById(multiset{}, byId)
    ensures !Raised(multiset{}, byId, reason)
  {
    RankedIsAcyclic(ParentGraph(byId), map[]);
  }

  /** The builder as a whole, started with the reasons found while parsing. */
  method BuildGraph(nodes: seq<Node>, parsing: seq<Reason>) returns (graph: BuiltGraph)
    ensures IsGraphOf(multiset(nodes), (set reason | reason in parsing), graph)
  {
    hide IsById, Repeated, ChainOf, ManyHeads, HasCycle, Contiguous, IsHead, Among, ChangedSet, HeadBag, Sorted;
    var counts := CountRevisions(nodes);
    var duplicates := ReportDuplicates(counts);
    var byId := IndexNodes(nodes, counts);
    var parental := ReportParents(nodes, byId);
    var heads, chain, structural := BuildChain(nodes, byId);
    var ordered, baseline, changes := CheckChanged(nodes, byId, chain);
    var reasons := parsing + duplicates + parental + structural + changes;
    forall reason ensures reason in reasons <==> reason in parsing || Raised(multiset(nodes), byId, reason) {
      ReasonOrigin(nodes, counts, byId, reason);
    }
    ghost var parsed := set reason | reason in parsing;
    assert parsed == {} <==> parsing == [] by {
      assert parsing != [] ==> parsing[0] in parsed;
    }
    assert nodes == [] <==> multiset(nodes) == multiset{} by {
      assert nodes != [] ==> nodes[0] in multiset(nodes);
    }
    if nodes == [] {
      forall reason { NothingRaisedOnNothing(byId, reason); }
      assert parsing == [] ==> reasons == [] by {
        assert reasons != [] ==> reasons[0] in reasons;
      }
    }
    if nodes == [] && reasons == [] {
      reasons := reasons + [NoRevisionsFound];
    }
    var unique := Deduplicate(reasons);
    graph := BuiltGraph(heads, baseline, chain, ordered, unique == [] && nodes != [], unique);
    assert IsBuilt(multiset(nodes), parsed, byId, graph);
  }
}

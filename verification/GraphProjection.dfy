/**
 * The projection's own graph check and its listing order, written independently of the engine's check and
 * compared here with the same reading of a valid graph.
 */
module GraphProjection {
  import opened Prelude
  import opened Protocol
  import opened Engine
  import opened Invariant
  import opened NodeGraph

  datatype IntegrityCode = RootCount | DuplicateNode | SelfEdge | MissingParent | Cycle | RunEdge
  datatype Integrity = Valid | Invalid(code: IntegrityCode)

  /** The completed Run's result is registered as its Run child. */
  predicate RunEdgeMatches(nodes: seq<Node>, run: Run)
    requires run.status.Completed?
  {
    var child := NodeAt(nodes, run.status.resultNodeSha);
    && child.Some? && child.value.origin.RunChild?
    && child.value.origin.runId == run.id && child.value.origin.parentSha == run.sourceNodeSha
  }

  predicate RunEdgesMatch(nodes: seq<Node>, runs: seq<Run>, projectId: ProjectId) {
    forall run | run in runs && run.projectId == projectId && run.status.Completed? :: RunEdgeMatches(nodes, run)
  }

  /** Among Nodes with different SHAs: every completed Run of the Project has its Run child, under the Run's source. */
  lemma RunEdgesMeaning(nodes: seq<Node>, runs: seq<Run>, projectId: ProjectId)
    requires DistinctShas(nodes)
    ensures RunEdgesMatch(nodes, runs, projectId) <==>
            forall run | run in runs && run.projectId == projectId && run.status.Completed? ::
              exists n :: n in nodes && n.commitSha == run.status.resultNodeSha && n.origin.RunChild?
                          && n.origin.runId == run.id && n.origin.parentSha == run.sourceNodeSha
  {
    forall run: Run | run.status.Completed?
      ensures RunEdgeMatches(nodes, run) <==>
              exists n :: n in nodes && n.commitSha == run.status.resultNodeSha && n.origin.RunChild?
                          && n.origin.runId == run.id && n.origin.parentSha == run.sourceNodeSha
    {
      if n :| n in nodes && n.commitSha == run.status.resultNodeSha && n.origin.RunChild?
              && n.origin.runId == run.id && n.origin.parentSha == run.sourceNodeSha {
        NodeAtItsSha(nodes, n);
      }
    }
  }

  ghost predicate ParentsRegistered(nodes: seq<Node>) {
    forall n | n in nodes && !n.origin.Root? :: NodeAt(nodes, n.origin.parentSha).Some?
  }

  lemma SelfParentNeverGrounded(nodes: seq<Node>, n: Node)
    requires DistinctShas(nodes) && n in nodes && !n.origin.Root? && n.origin.parentSha == n.commitSha
    ensures !Grounded(nodes, n)
  {
    ParentIsShallower(nodes, n);
    NodeAtItsSha(nodes, n);
  }

  /** Like `Below`, for a walk that records a SHA before it looks the Node up. */
  lemma RevisitMeansCycle(nodes: seq<Node>, seen: set<Sha>, cursor: Node, parent: Node)
    requires DistinctShas(nodes) && cursor in nodes && !cursor.origin.Root?
    requires NodeAt(nodes, cursor.origin.parentSha) == Some(parent) && parent.commitSha in seen
    requires Below(nodes, seen - {cursor.commitSha}, cursor)
    ensures !Grounded(nodes, cursor)
  {
    ParentIsShallower(nodes, cursor);
    NodeAtItsSha(nodes, cursor);
    if parent.commitSha == cursor.commitSha {
      SelfParentNeverGrounded(nodes, cursor);
    }
  }

  /** The walk from `node` stands at `cursor`, having recorded the SHAs it passed and the cursor's own. */
  ghost predicate WalkAt(nodes: seq<Node>, node: Node, seen: set<Sha>, cursor: Node) {
    && cursor in nodes && cursor.commitSha in seen
    && (Grounded(nodes, cursor) <==> Grounded(nodes, node))
    && Below(nodes, seen - {cursor.commitSha}, cursor)
  }

  lemma WalkStep(nodes: seq<Node>, node: Node, seen: set<Sha>, cursor: Node)
    requires DistinctShas(nodes) && WalkAt(nodes, node, seen, cursor) && !cursor.origin.Root?
    ensures var parentSha := cursor.origin.parentSha;
            var parent := NodeAt(nodes, parentSha);
            && (parentSha in seen ==> !Grounded(nodes, node))
            && (parentSha !in seen && parent.Some? ==> WalkAt(nodes, node, seen + {parentSha}, parent.value))
  {
    var parentSha := cursor.origin.parentSha;
    var parent := NodeAt(nodes, parentSha);
    StepUp(nodes, seen - {cursor.commitSha}, cursor);
    if parentSha in seen {
      if parent.Some? {
        RevisitMeansCycle(nodes, seen, cursor, parent.value);
      }
    } else {
      assert (seen + {parentSha}) - {parentSha} == seen == (seen - {cursor.commitSha}) + {cursor.commitSha};
    }
  }

  /** The walk of `graphIntegrity`: a missing ancestor ends it silently, a repeated SHA ends it as a cycle. */
  method FindsCycle(nodes: seq<Node>, node: Node) returns (cycle: bool)
    requires DistinctShas(nodes) && node in nodes
    ensures cycle ==> !Grounded(nodes, node)
    ensures !cycle && ParentsRegistered(nodes) ==> Grounded(nodes, node)
  {
    var seen := {node.commitSha};
    var cursor := Some(node);
    ghost var shas := set n | n in nodes :: n.commitSha;
    while cursor.Some? && !cursor.value.origin.Root?
      invariant cursor.Some? ==> seen <= shas && WalkAt(nodes, node, seen, cursor.value)
      invariant cursor.None? ==> !ParentsRegistered(nodes)
      decreases |shas - seen|, if cursor.Some? then 1 else 0
    {
      WalkStep(nodes, node, seen, cursor.value);
      var parentSha := cursor.value.origin.parentSha;
      if parentSha in seen {
        return true;
      }
      assert shas - (seen + {parentSha}) == (shas - seen) - {parentSha};
      seen := seen + {parentSha};
      cursor := NodeAt(nodes, parentSha);
    }
    if cursor.Some? {
      assert ClimbsIn(nodes, cursor.value, 0);
    }
    return false;
  }

  /** Which of the per-Node checks fails, for some Node. */
  ghost predicate NodeFault(nodes: seq<Node>, code: IntegrityCode) {
    exists n :: n in nodes && !n.origin.Root? && !Grounded(nodes, n)
                && (code.SelfEdge? ==> n.origin.parentSha == n.commitSha)
                && (code.MissingParent? ==> NodeAt(nodes, n.origin.parentSha).None?)
                && (code.SelfEdge? || code.MissingParent? || code.Cycle?)
  }

  method CheckNodes(nodes: seq<Node>) returns (r: Integrity)
    requires DistinctShas(nodes)
    ensures r.Valid? <==> forall n | n in nodes :: Grounded(nodes, n)
    ensures r.Invalid? ==> NodeFault(nodes, r.code)
  {
    var shas := set n | n in nodes :: n.commitSha;
    for i := 0 to |nodes|
      invariant forall j | 0 <= j < i && !nodes[j].origin.Root? :: NodeAt(nodes, nodes[j].origin.parentSha).Some?
      invariant ParentsRegistered(nodes) ==> forall j | 0 <= j < i :: Grounded(nodes, nodes[j])
    {
      var node := nodes[i];
      assert node in nodes;
      if node.origin.Root? {
        assert ClimbsIn(nodes, node, 0);
      } else {
        ParentIsShallower(nodes, node);
        if node.origin.parentSha == node.commitSha {
          SelfParentNeverGrounded(nodes, node);
          assert NodeFault(nodes, SelfEdge);
          return Invalid(SelfEdge);
        }
        if node.origin.parentSha !in shas {
          assert NodeFault(nodes, MissingParent);
          return Invalid(MissingParent);
        }
        var cycle := FindsCycle(nodes, node);
        if cycle {
          assert NodeFault(nodes, Cycle);
          return Invalid(Cycle);
        }
      }
    }
    return Valid;
  }

  method CheckRunEdges(nodes: seq<Node>, runs: seq<Run>, projectId: ProjectId) returns (r: Integrity)
    ensures r == if RunEdgesMatch(nodes, runs, projectId) then Valid else Invalid(RunEdge)
  {
    for i := 0 to |runs|
      invariant forall j | 0 <= j < i && runs[j].projectId == projectId && runs[j].status.Completed? :: RunEdgeMatches(nodes, runs[j])
    {
      if runs[i].projectId == projectId && runs[i].status.Completed? && !RunEdgeMatches(nodes, runs[i]) {
        return Invalid(RunEdge);
      }
    }
    return Valid;
  }

  /** `graphIntegrity`: valid exactly for a structurally valid graph whose completed Runs all have their child. */
  method GraphIntegrity(state: ProjectState, project: Project) returns (r: Integrity)
    ensures var nodes := NodesOf(state.nodes, project.id);
            && (r.Valid? <==> StructurallyValid(nodes, project.rootNodeSha) && RunEdgesMatch(nodes, state.runs, project.id))
            && (r == Invalid(RootCount) <==> !OneRoot(nodes, project.rootNodeSha))
            && (r == Invalid(DuplicateNode) <==> OneRoot(nodes, project.rootNodeSha) && !DistinctShas(nodes))
            && (r == Invalid(RunEdge) <==>
                  StructurallyValid(nodes, project.rootNodeSha) && !RunEdgesMatch(nodes, state.runs, project.id))
            && (r.Invalid? && (r.code.SelfEdge? || r.code.MissingParent? || r.code.Cycle?) ==> NodeFault(nodes, r.code))
  {
    var nodes := NodesOf(state.nodes, project.id);
    var roots := Roots(nodes);
    RootsMeaning(nodes, project.rootNodeSha);
    if |roots| != 1 || roots[0].commitSha != project.rootNodeSha {
      return Invalid(RootCount);
    }
    var distinct := HasDistinctShas(nodes);
    if !distinct {
      return Invalid(DuplicateNode);
    }
    r := CheckNodes(nodes);
    if r.Valid? {
      r := CheckRunEdges(nodes, state.runs, project.id);
    }
  }

  // ------------------------------------------------------------ listing order

  ghost predicate Permutes(sort: seq<Node> -> seq<Node>) {
    forall s :: multiset(sort(s)) == multiset(s)
  }

  function ChildrenOf(nodes: seq<Node>, sha: Sha): seq<Node> {
    Filter(nodes, (n: Node) => !n.origin.Root? && n.origin.parentSha == sha)
  }

  lemma {:induction false} FilterKeepsDistinctShas(nodes: seq<Node>, p: Node -> bool)
    requires DistinctShas(nodes)
    ensures DistinctShas(Filter(nodes, p))
  {
    if nodes != [] {
      var rest := nodes[1..];
      FilterKeepsDistinctShas(rest, p);
      forall n | n in Filter(rest, p) ensures n.commitSha != nodes[0].commitSha {
        var k :| 0 <= k < |rest| && rest[k] == n;
        assert nodes[k + 1] == n;
      }
    }
  }

  ghost predicate OneOfEachSha(s: seq<Node>) {
    && (forall n | n in s :: multiset(s)[n] == 1)
    && forall a, b | a in s && b in s && a.commitSha == b.commitSha :: a == b
  }

  lemma DistinctMeansOneOfEach(s: seq<Node>)
    requires DistinctShas(s)
    ensures OneOfEachSha(s)
  {
    forall n | n in s ensures multiset(s)[n] == 1 {
      var i :| 0 <= i < |s| && s[i] == n;
      assert forall k | 0 <= k < |s| && k != i :: s[k] != n;
      StandsOnce(s, i);
    }
    forall a, b | a in s && b in s && a.commitSha == b.commitSha ensures a == b {
      var i :| 0 <= i < |s| && s[i] == a;
      var j :| 0 <= j < |s| && s[j] == b;
    }
  }

  lemma StandsOnce<T>(s: seq<T>, i: nat)
    requires i < |s| && forall k | 0 <= k < |s| && k != i :: s[k] != s[i]
    ensures multiset(s)[s[i]] == 1
  {
    var before, behind := s[..i], s[i + 1..];
    assert s == before + ([s[i]] + behind);
    assert s[i] !in before && s[i] !in behind;
    assert multiset(s) == multiset(before) + multiset([s[i]]) + multiset(behind);
  }

  lemma OneOfEachMeansDistinct(s: seq<Node>)
    requires OneOfEachSha(s)
    ensures DistinctShas(s)
  {
    forall i, j | 0 <= i < j < |s| ensures s[i].commitSha != s[j].commitSha {
      assert s == s[..i] + [s[i]] + s[i + 1..j] + [s[j]] + s[j + 1..];
      assert multiset(s)[s[i]] == 1 && s[i] in s && s[j] in s;
      assert s[i] == s[j] ==> multiset(s)[s[i]] >= 2;
    }
  }

  lemma PermutationKeepsDistinctShas(s: seq<Node>, t: seq<Node>)
    requires DistinctShas(s) && multiset(s) == multiset(t)
    ensures DistinctShas(t)
  {
    DistinctMeansOneOfEach(s);
    SameMembers(s, t);
    OneOfEachMeansDistinct(t);
  }

  /** A list without repeated SHAs, all drawn from another, is no longer than it. */
  lemma {:induction false} DistinctFitsIn(s: seq<Node>, t: seq<Node>)
    requires DistinctShas(s) && forall n | n in s :: n in t
    ensures |s| <= |t|
    decreases |s|
  {
    if s != [] {
      assert s[0] in s;
      var i :| 0 <= i < |t| && t[i] == s[0];
      var shorter := t[..i] + t[i + 1..];
      forall n | n in s[1..] ensures n in shorter {
        assert n in s;
        var k :| 0 <= k < |t| && t[k] == n;
        assert n != s[0];
        assert if k < i then shorter[k] == n else shorter[k - 1] == n;
      }
      DistinctFitsIn(s[1..], shorter);
    }
  }

  ghost predicate ParentListed(listed: seq<Node>, expanded: nat, j: nat)
    requires j < |listed|
  {
    exists k :: 0 <= k < j && k < expanded && IsParent(listed[k], listed[j])
  }

  /** Every Node after the first comes after its parent, and the parent is already expanded. */
  ghost predicate ParentsFirst(listed: seq<Node>, expanded: nat) {
    forall j | 0 < j < |listed| :: ParentListed(listed, expanded, j)
  }

  /** The state of the walk: the Nodes listed or queued so far, the first `expanded` of them listed. */
  ghost predicate Walking(nodes: seq<Node>, root: Node, all: seq<Node>, expanded: nat) {
    && all != [] && all[0] == root && expanded <= |all|
    && DistinctShas(all) && (forall n | n in all :: n in nodes)
    && ParentsFirst(all, expanded)
    && forall k, n | 0 <= k < expanded && n in nodes && IsParent(all[k], n) :: n in all
  }

  /** A child of the next Node to expand is not listed yet: what is listed has a parent expanded earlier. */
  lemma NotYetListed(nodes: seq<Node>, root: Node, all: seq<Node>, i: nat, n: Node)
    requires DistinctShas(nodes) && root.origin.Root? && Walking(nodes, root, all, i) && i < |all|
    requires n in nodes && !n.origin.Root? && n.origin.parentSha == all[i].commitSha
    ensures forall j | 0 <= j < |all| :: all[j].commitSha != n.commitSha
  {
    forall j | 0 <= j < |all| ensures all[j].commitSha != n.commitSha {
      assert all[j] in nodes;
      NodeAtItsSha(nodes, n);
      NodeAtItsSha(nodes, all[j]);
      if j > 0 {
        assert ParentListed(all, i, j);
        var k :| 0 <= k < j && k < i && IsParent(all[k], all[j]);
        assert all[k].commitSha != all[i].commitSha;
      }
    }
  }

  lemma ParentsFirstAfterExpand(all: seq<Node>, i: nat, kids: seq<Node>)
    requires ParentsFirst(all, i) && i < |all|
    requires forall n | n in kids :: IsParent(all[i], n)
    ensures ParentsFirst(all + kids, i + 1)
  {
    var next, expanded := all + kids, i + 1;
    forall j | 0 < j < |next| ensures ParentListed(next, expanded, j) {
      if j < |all| {
        assert ParentListed(all, i, j);
        var k :| 0 <= k < j && k < i && IsParent(all[k], all[j]);
        assert IsParent(next[k], next[j]);
      } else {
        assert next[j] in kids;
        assert IsParent(next[i], next[j]);
      }
    }
  }

  lemma ExpandStep(nodes: seq<Node>, root: Node, all: seq<Node>, i: nat, kids: seq<Node>)
    requires DistinctShas(nodes) && root.origin.Root?
    requires forall m, n | m in nodes && n in nodes :: m.projectId == n.projectId
    requires Walking(nodes, root, all, i) && i < |all|
    requires DistinctShas(kids)
    requires forall n :: n in kids <==> n in nodes && !n.origin.Root? && n.origin.parentSha == all[i].commitSha
    ensures Walking(nodes, root, all + kids, i + 1)
  {
    assert all[i] in nodes;
    forall n | n in kids ensures forall j | 0 <= j < |all| :: all[j].commitSha != n.commitSha {
      NotYetListed(nodes, root, all, i, n);
    }
    ParentsFirstAfterExpand(all, i, kids);
  }

  /** A walk that has expanded everything has listed everything. */
  lemma {:induction false} AllListed(nodes: seq<Node>, rootSha: Sha, root: Node, all: seq<Node>, n: Node)
    requires StructurallyValid(nodes, rootSha) && Walking(nodes, root, all, |all|)
    requires root in nodes && root.origin.Root? && n in nodes
    requires forall m, n | m in nodes && n in nodes :: m.projectId == n.projectId
    ensures n in all
    decreases Depth(nodes, n)
  {
    if n.origin.Root? {
      var i: nat :| IsOnlyRoot(nodes, rootSha, i);
      assert root == nodes[i] == n;
    } else {
      ParentIsShallower(nodes, n);
      var parent := NodeAt(nodes, n.origin.parentSha).value;
      AllListed(nodes, rootSha, root, all, parent);
      var k :| 0 <= k < |all| && all[k] == parent;
      assert IsParent(all[k], n);
    }
  }

  lemma SameElementsSameMultiset(s: seq<Node>, t: seq<Node>)
    requires DistinctShas(s) && DistinctShas(t) && forall n :: n in s <==> n in t
    ensures multiset(s) == multiset(t)
  {
    DistinctMeansOneOfEach(s);
    DistinctMeansOneOfEach(t);
    forall n ensures multiset(s)[n] == multiset(t)[n] {
      if n in s {
        assert multiset(s)[n] == 1 && multiset(t)[n] == 1;
      } else {
        assert n !in multiset(s) && n !in multiset(t);
      }
    }
  }

  lemma SortedChildrenStep(nodes: seq<Node>, root: Node, all: seq<Node>, i: nat, sort: seq<Node> -> seq<Node>)
    requires DistinctShas(nodes) && root.origin.Root? && Permutes(sort)
    requires forall m, n | m in nodes && n in nodes :: m.projectId == n.projectId
    requires Walking(nodes, root, all, i) && i < |all|
    ensures var next := all + sort(ChildrenOf(nodes, all[i].commitSha));
            Walking(nodes, root, next, i + 1) && |next| <= |nodes|
  {
    var sha := all[i].commitSha;
    var kids := sort(ChildrenOf(nodes, sha));
    FilterKeepsDistinctShas(nodes, (n: Node) => !n.origin.Root? && n.origin.parentSha == sha);
    PermutationKeepsDistinctShas(ChildrenOf(nodes, sha), kids);
    SameMembers(ChildrenOf(nodes, sha), kids);
    ExpandStep(nodes, root, all, i, kids);
    DistinctFitsIn(all + kids, nodes);
  }

  lemma FinishedWalk(nodes: seq<Node>, rootSha: Sha, root: Node, all: seq<Node>)
    requires StructurallyValid(nodes, rootSha) && Walking(nodes, root, all, |all|)
    requires root in nodes && root.origin.Root?
    requires forall m, n | m in nodes && n in nodes :: m.projectId == n.projectId
    ensures multiset(all) == multiset(nodes)
  {
    forall n | n in nodes ensures n in all {
      AllListed(nodes, rootSha, root, all, n);
    }
    SameElementsSameMultiset(all, nodes);
  }

  /** The sorted children of the first `n` listed Nodes, in order. */
  ghost function Expanded(nodes: seq<Node>, sort: seq<Node> -> seq<Node>, listed: seq<Node>, n: nat): seq<Node>
    requires n <= |listed|
  {
    if n == 0 then []
    else Expanded(nodes, sort, listed, n - 1) + sort(ChildrenOf(nodes, listed[n - 1].commitSha))
  }

  lemma {:induction false} ExpandedIgnoresRest(nodes: seq<Node>, sort: seq<Node> -> seq<Node>, listed: seq<Node>, more: seq<Node>, n: nat)
    requires n <= |listed|
    ensures Expanded(nodes, sort, listed + more, n) == Expanded(nodes, sort, listed, n)
  {
    if n > 0 {
      ExpandedIgnoresRest(nodes, sort, listed, more, n - 1);
    }
  }

  lemma ExpandedStep(nodes: seq<Node>, root: Node, sort: seq<Node> -> seq<Node>, all: seq<Node>, i: nat)
    requires i < |all| && all == [root] + Expanded(nodes, sort, all, i)
    ensures var next := all + sort(ChildrenOf(nodes, all[i].commitSha));
            next == [root] + Expanded(nodes, sort, next, i + 1)
  {
    var kids := sort(ChildrenOf(nodes, all[i].commitSha));
    ExpandedIgnoresRest(nodes, sort, all, kids, i);
    assert (all + kids)[i] == all[i];
    assert [root] + (Expanded(nodes, sort, all, i) + kids) == all + kids;
  }

  /** The walk so far: `ordered` is listed, `pending` is queued, and both came out breadth first. */
  ghost predicate BreadthFirst(nodes: seq<Node>, root: Node, sort: seq<Node> -> seq<Node>, ordered: seq<Node>, pending: seq<Node>) {
    && Walking(nodes, root, ordered + pending, |ordered|)
    && ordered + pending == [root] + Expanded(nodes, sort, ordered + pending, |ordered|)
  }

  lemma BreadthFirstStep(nodes: seq<Node>, root: Node, sort: seq<Node> -> seq<Node>, ordered: seq<Node>, pending: seq<Node>)
    requires DistinctShas(nodes) && root.origin.Root? && Permutes(sort)
    requires forall m, n | m in nodes && n in nodes :: m.projectId == n.projectId
    requires pending != [] && BreadthFirst(nodes, root, sort, ordered, pending)
    ensures |ordered| < |nodes|
    ensures BreadthFirst(nodes, root, sort, ordered + [pending[0]],
                         pending[1..] + sort(ChildrenOf(nodes, pending[0].commitSha)))
  {
    var all := ordered + pending;
    var kids := sort(ChildrenOf(nodes, pending[0].commitSha));
    assert all[|ordered|] == pending[0];
    DistinctFitsIn(all, nodes);
    SortedChildrenStep(nodes, root, all, |ordered|, sort);
    ExpandedStep(nodes, root, sort, all, |ordered|);
    assert (ordered + [pending[0]]) + (pending[1..] + kids) == all + kids;
  }

  method WalkBreadthFirst(nodes: seq<Node>, root: Node, sort: seq<Node> -> seq<Node>) returns (ordered: seq<Node>)
    requires DistinctShas(nodes) && root in nodes && root.origin.Root? && Permutes(sort)
    requires forall m, n | m in nodes && n in nodes :: m.projectId == n.projectId
    ensures BreadthFirst(nodes, root, sort, ordered, [])
  {
    ordered := [];
    var pending := [root];
    while pending != []
      invariant BreadthFirst(nodes, root, sort, ordered, pending)
      decreases |nodes| - |ordered|
    {
      BreadthFirstStep(nodes, root, sort, ordered, pending);
      var node := pending[0];
      ordered := ordered + [node];
      pending := pending[1..] + sort(ChildrenOf(nodes, node.commitSha));
    }
  }

  /**
   * `graphOrder`: breadth first from the root, siblings in the order `sort` gives them. Called only for a valid
   * graph, it stops, lists every Node of the Project once, and lists a parent before its children.
   */
  method GraphOrder(state: ProjectState, project: Project, sort: seq<Node> -> seq<Node>) returns (ordered: seq<Node>)
    requires StructurallyValid(NodesOf(state.nodes, project.id), project.rootNodeSha)
    requires Permutes(sort)
    ensures multiset(ordered) == multiset(NodesOf(state.nodes, project.id))
    ensures ordered != [] && ordered[0].origin.Root? && ParentsFirst(ordered, |ordered|)
    ensures ordered == [ordered[0]] + Expanded(NodesOf(state.nodes, project.id), sort, ordered, |ordered|)
  {
    var nodes := NodesOf(state.nodes, project.id);
    ghost var i: nat :| IsOnlyRoot(nodes, project.rootNodeSha, i);
    assert nodes[i] in nodes;
    var root := First(nodes, (n: Node) => n.origin.Root? && n.commitSha == project.rootNodeSha).value;
    ordered := WalkBreadthFirst(nodes, root, sort);
    assert ordered + [] == ordered;
    FinishedWalk(nodes, project.rootNodeSha, root, ordered);
  }

  lemma SameMembers(s: seq<Node>, t: seq<Node>)
    requires multiset(s) == multiset(t)
    ensures forall n :: n in s <==> n in t
  {
    forall n ensures n in s <==> n in t {
      assert n in s <==> n in multiset(s);
      assert n in t <==> n in multiset(t);
    }
  }
}

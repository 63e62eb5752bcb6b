/**
 * The Node graph of one Project, checked twice by the source: by the engine's `validateNodeGraph` and by the
 * projection's `graphIntegrity`. Both are proved against one reading of "a tree with the declared root".
 */
module NodeGraph {
  import opened Prelude
  import opened Protocol
  import opened Engine
  import opened Invariant
  import opened Counting

  /** The Nodes of one Project, in registration order. */
  function NodesOf(nodes: seq<Node>, id: ProjectId): (r: seq<Node>)
    ensures forall n | n in r :: n in nodes && n.projectId == id
    ensures forall n | n in nodes && n.projectId == id :: n in r
  {
    Filter(nodes, (n: Node) => n.projectId == id)
  }

  function NodeAt(nodes: seq<Node>, sha: Sha): (r: Option<Node>)
    ensures r.Some? ==> r.value in nodes && r.value.commitSha == sha
    ensures r.None? <==> forall n | n in nodes :: n.commitSha != sha
  {
    First(nodes, (n: Node) => n.commitSha == sha)
  }

  predicate DistinctShas(nodes: seq<Node>) {
    forall i, j | 0 <= i < j < |nodes| :: nodes[i].commitSha != nodes[j].commitSha
  }

  function Shas(nodes: seq<Node>): (r: seq<Sha>)
    ensures |r| == |nodes| && forall i | 0 <= i < |r| :: r[i] == nodes[i].commitSha
  {
    seq(|nodes|, i requires 0 <= i < |nodes| => nodes[i].commitSha)
  }

  /** Following parents from `n` ends at a root after exactly `k` steps. */
  ghost predicate ClimbsIn(nodes: seq<Node>, n: Node, k: nat)
    decreases k
  {
    if n.origin.Root? then k == 0
    else
      var parent := NodeAt(nodes, n.origin.parentSha);
      k > 0 && parent.Some? && ClimbsIn(nodes, parent.value, k - 1)
  }

  ghost predicate Grounded(nodes: seq<Node>, n: Node) {
    exists k :: ClimbsIn(nodes, n, k)
  }

  lemma {:induction false} ClimbIsUnique(nodes: seq<Node>, n: Node, k: nat, l: nat)
    requires ClimbsIn(nodes, n, k) && ClimbsIn(nodes, n, l)
    ensures k == l
    decreases k
  {
    if !n.origin.Root? {
      ClimbIsUnique(nodes, NodeAt(nodes, n.origin.parentSha).value, k - 1, l - 1);
    }
  }

  ghost function Depth(nodes: seq<Node>, n: Node): (k: nat)
    requires Grounded(nodes, n)
    ensures ClimbsIn(nodes, n, k)
  {
    var k :| ClimbsIn(nodes, n, k);
    k
  }

  lemma ParentIsShallower(nodes: seq<Node>, n: Node)
    requires !n.origin.Root?
    ensures Grounded(nodes, n) <==>
            NodeAt(nodes, n.origin.parentSha).Some? && Grounded(nodes, NodeAt(nodes, n.origin.parentSha).value)
    ensures Grounded(nodes, n) ==> Depth(nodes, n) == Depth(nodes, NodeAt(nodes, n.origin.parentSha).value) + 1
  {
    var parent := NodeAt(nodes, n.origin.parentSha);
    if Grounded(nodes, n) {
      assert ClimbsIn(nodes, parent.value, Depth(nodes, n) - 1);
      ClimbIsUnique(nodes, parent.value, Depth(nodes, n) - 1, Depth(nodes, parent.value));
    }
    if parent.Some? && Grounded(nodes, parent.value) {
      assert ClimbsIn(nodes, n, Depth(nodes, parent.value) + 1);
    }
  }

  predicate IsOnlyRoot(nodes: seq<Node>, rootSha: Sha, i: nat) {
    && i < |nodes| && nodes[i].origin.Root? && nodes[i].commitSha == rootSha
    && forall j | 0 <= j < |nodes| && nodes[j].origin.Root? :: j == i
  }

  ghost predicate OneRoot(nodes: seq<Node>, rootSha: Sha) {
    exists i :: IsOnlyRoot(nodes, rootSha, i)
  }

  /** No SHA twice, the declared root and no other, and every Node hangs from it. */
  ghost predicate StructurallyValid(nodes: seq<Node>, rootSha: Sha) {
    DistinctShas(nodes) && OneRoot(nodes, rootSha) && forall n | n in nodes :: Grounded(nodes, n)
  }

  lemma NodeAtItsSha(nodes: seq<Node>, n: Node)
    requires DistinctShas(nodes) && n in nodes
    ensures NodeAt(nodes, n.commitSha) == Some(n)
  {
  }

  function Roots(nodes: seq<Node>): seq<Node> {
    Filter(nodes, (n: Node) => n.origin.Root?)
  }

  lemma RootsMeaning(nodes: seq<Node>, rootSha: Sha)
    ensures |Roots(nodes)| == 1 && Roots(nodes)[0].commitSha == rootSha <==> OneRoot(nodes, rootSha)
  {
    var isRoot := (n: Node) => n.origin.Root?;
    var at := Where(nodes, isRoot);
    FilterCountsPositions(nodes, isRoot);
    if |Roots(nodes)| == 1 && Roots(nodes)[0].commitSha == rootSha {
      assert Roots(nodes)[0] in nodes;
      var i: nat :| i < |nodes| && nodes[i] == Roots(nodes)[0];
      OnlyMember(at, i);
      assert forall j: nat | j < |nodes| && nodes[j].origin.Root? :: j in at;
      assert IsOnlyRoot(nodes, rootSha, i);
    }
    if i: nat :| IsOnlyRoot(nodes, rootSha, i) {
      assert at == {i};
      assert nodes[i] in Roots(nodes);
    }
  }

  lemma OnlyMember(s: set<nat>, x: nat)
    requires |s| == 1 && x in s
    ensures s == {x}
  {
    assert |s - {x}| == 0;
  }

  // ------------------------------------------------------- the engine's check

  /** If the cursor hangs from a root, the Nodes already visited hang strictly deeper. */
  ghost predicate Below(nodes: seq<Node>, visited: set<Sha>, cursor: Node) {
    Grounded(nodes, cursor) ==>
      forall n | n in nodes && n.commitSha in visited :: Grounded(nodes, n) && Depth(nodes, n) > Depth(nodes, cursor)
  }

  lemma StepUp(nodes: seq<Node>, visited: set<Sha>, cursor: Node)
    requires DistinctShas(nodes) && cursor in nodes && !cursor.origin.Root? && Below(nodes, visited, cursor)
    ensures var next := NodeAt(nodes, cursor.origin.parentSha);
            if next.None? then !Grounded(nodes, cursor)
            else (Grounded(nodes, next.value) <==> Grounded(nodes, cursor))
                 && Below(nodes, visited + {cursor.commitSha}, next.value)
  {
    ParentIsShallower(nodes, cursor);
    NodeAtItsSha(nodes, cursor);
    forall n | n in nodes && n.commitSha == cursor.commitSha ensures n == cursor {
      NodeAtItsSha(nodes, n);
    }
  }

  /**
   * The parent walk of `validateNodeGraph`: it ends on every list of Nodes, cyclic ones included,
   * and it ends at a root exactly when the Node hangs from one.
   */
  method WalkToRoot(nodes: seq<Node>, node: Node) returns (ok: bool)
    requires DistinctShas(nodes) && node in nodes && !node.origin.Root?
    ensures ok <==> Grounded(nodes, node)
  {
    StepUp(nodes, {}, node);
    ParentIsShallower(nodes, node);
    NodeAtItsSha(nodes, node);
    if node.origin.parentSha == node.commitSha {
      return false;
    }
    var parent := NodeAt(nodes, node.origin.parentSha);
    if parent.None? {
      return false;
    }
    var visited := {node.commitSha};
    var cursor := parent.value;
    assert {} + {node.commitSha} == visited;
    ghost var shas := set n | n in nodes :: n.commitSha;
    while !cursor.origin.Root?
      invariant cursor in nodes && visited <= shas
      invariant Grounded(nodes, cursor) <==> Grounded(nodes, node)
      invariant Below(nodes, visited, cursor)
      decreases |shas - visited|
    {
      if cursor.commitSha in visited {
        return false;
      }
      StepUp(nodes, visited, cursor);
      assert cursor.commitSha in shas - visited;
      assert shas - (visited + {cursor.commitSha}) < shas - visited;
      visited := visited + {cursor.commitSha};
      var next := NodeAt(nodes, cursor.origin.parentSha);
      if next.None? {
        return false;
      }
      cursor := next.value;
    }
    assert ClimbsIn(nodes, cursor, 0);
    return true;
  }

  method NodesHangFromRoot(nodes: seq<Node>) returns (ok: bool)
    requires DistinctShas(nodes)
    ensures ok <==> forall n | n in nodes :: Grounded(nodes, n)
  {
    for i := 0 to |nodes|
      invariant forall j | 0 <= j < i :: Grounded(nodes, nodes[j])
    {
      if nodes[i].origin.Root? {
        assert ClimbsIn(nodes, nodes[i], 0);
      } else {
        var walked := WalkToRoot(nodes, nodes[i]);
        if !walked {
          assert nodes[i] in nodes;
          return false;
        }
      }
    }
    return true;
  }

  method HasDistinctShas(nodes: seq<Node>) returns (distinct: bool)
    ensures distinct <==> DistinctShas(nodes)
  {
    var shas: set<Sha> := {};
    for i := 0 to |nodes|
      invariant shas == set j | 0 <= j < i :: nodes[j].commitSha
      invariant forall j, k | 0 <= j < k < i :: nodes[j].commitSha != nodes[k].commitSha
    {
      if nodes[i].commitSha in shas {
        return false;
      }
      shas := shas + {nodes[i].commitSha};
    }
    return true;
  }

  /** The graph check of one Project inside `validateNodeGraph`. */
  method ValidateProjectGraph(nodes: seq<Node>, rootSha: Sha) returns (ok: bool)
    ensures ok <==> StructurallyValid(nodes, rootSha)
  {
    var distinct := HasDistinctShas(nodes);
    if !distinct {
      return false;
    }
    var roots := Roots(nodes);
    RootsMeaning(nodes, rootSha);
    if |roots| != 1 || roots[0].commitSha != rootSha {
      return false;
    }
    ok := NodesHangFromRoot(nodes);
  }

  method ValidateNodeGraph(state: ProjectState) returns (r: Outcome<bool>)
    ensures (forall p | p in state.projects :: StructurallyValid(NodesOf(state.nodes, p.id), p.rootNodeSha)) ==> r == Ok(true)
    ensures !(forall p | p in state.projects :: StructurallyValid(NodesOf(state.nodes, p.id), p.rootNodeSha)) ==>
              r == Err(InvariantViolation)
  {
    for i := 0 to |state.projects|
      invariant forall j | 0 <= j < i :: StructurallyValid(NodesOf(state.nodes, state.projects[j].id), state.projects[j].rootNodeSha)
    {
      var project := state.projects[i];
      var valid := ValidateProjectGraph(NodesOf(state.nodes, project.id), project.rootNodeSha);
      if !valid {
        assert project in state.projects;
        return Err(InvariantViolation);
      }
    }
    return Ok(true);
  }
}

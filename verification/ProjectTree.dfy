/** Every replayed Project is one tree whose Nodes are its completed Runs and confirmed proposals. */
module ProjectTree {
  import opened Prelude
  import opened Protocol
  import opened Engine
  import opened Batches
  import opened Invariant
  import opened Replay
  import opened Counting
  import opened NodeGraph
  import opened GraphProjection

  function CompletedRuns(runs: seq<Run>, id: ProjectId): seq<Run> {
    Filter(runs, (run: Run) => run.projectId == id && run.status.Completed?)
  }

  predicate IsConfirmed(decisions: seq<ProposalDecision>, id: ProposalId) {
    exists d :: d in decisions && d.ConfirmedProposal? && d.proposalId == id
  }

  function ConfirmedProposals(s: ProjectState, id: ProjectId): seq<CoachingProposal> {
    Filter(s.coachingProposals, (p: CoachingProposal) => p.projectId == id && IsConfirmed(s.coachingProposalDecisions, p.id))
  }

  /** The Run child at one position results from the completed Run at another. */
  predicate ResultOf(nodes: seq<Node>, runs: seq<Run>, i: nat, j: nat) {
    i < |nodes| && j < |runs| && ChildOfRun(nodes[i], runs[j])
  }

  lemma RunChildHasRun(nodes: seq<Node>, runs: seq<Run>, i: nat) returns (j: nat)
    requires RunChildrenInv(nodes, runs, Settled) && i < |nodes| && nodes[i].origin.RunChild?
    ensures ResultOf(nodes, runs, i, j)
  {
    assert nodes[i] in nodes;
    var run :| run in runs && ChildOfRun(nodes[i], run);
    j :| 0 <= j < |runs| && runs[j] == run;
  }

  lemma CompletedRunHasChild(nodes: seq<Node>, runs: seq<Run>, j: nat) returns (i: nat)
    requires RunChildrenInv(nodes, runs, Settled) && j < |runs| && runs[j].status.Completed?
    ensures ResultOf(nodes, runs, i, j)
  {
    assert runs[j] in runs;
    var n :| n in nodes && ChildOfRun(n, runs[j]);
    i :| 0 <= i < |nodes| && nodes[i] == n;
  }

  /** `ResultOf` pairs every Run child with one completed Run and every completed Run with one Run child. */
  ghost predicate RunsAndChildrenPairUp(nodes: seq<Node>, runs: seq<Run>) {
    && (forall i: nat | i < |nodes| && nodes[i].origin.RunChild? :: exists j: nat :: ResultOf(nodes, runs, i, j))
    && (forall j: nat | j < |runs| && runs[j].status.Completed? :: exists i: nat :: ResultOf(nodes, runs, i, j))
    && (forall i: nat, k: nat, j: nat | ResultOf(nodes, runs, i, j) && ResultOf(nodes, runs, k, j) :: i == k)
    && (forall i: nat, j: nat, l: nat | ResultOf(nodes, runs, i, j) && ResultOf(nodes, runs, i, l) :: j == l)
  }

  lemma RunsPairUp(nodes: seq<Node>, runs: seq<Run>)
    requires forall i, j | 0 <= i < j < |nodes| :: !SameNode(nodes[i], nodes[j])
    requires forall i, j | 0 <= i < j < |runs| :: runs[i].id != runs[j].id
    requires RunChildrenInv(nodes, runs, Settled)
    ensures RunsAndChildrenPairUp(nodes, runs)
  {
    forall i: nat, k: nat, j: nat | ResultOf(nodes, runs, i, j) && ResultOf(nodes, runs, k, j) ensures i == k {
      assert SameNode(nodes[i], nodes[k]) && SameNode(nodes[k], nodes[i]);
    }
    forall i: nat | i < |nodes| && nodes[i].origin.RunChild? ensures exists j: nat :: ResultOf(nodes, runs, i, j) {
      var j := RunChildHasRun(nodes, runs, i);
    }
    forall j: nat | j < |runs| && runs[j].status.Completed? ensures exists i: nat :: ResultOf(nodes, runs, i, j) {
      var i := CompletedRunHasChild(nodes, runs, j);
    }
  }

  lemma CoachingChildrenDiffer(nodes: seq<Node>, proposals: seq<CoachingProposal>, decisions: seq<ProposalDecision>, i: nat, j: nat)
    requires forall i, j | 0 <= i < j < |nodes| :: !SameNode(nodes[i], nodes[j])
    requires CoachingInv(nodes, proposals, decisions, Settled)
    requires i < j < |nodes| && nodes[i].origin.CoachingChild? && nodes[j].origin.CoachingChild?
    ensures nodes[i].origin.proposalId != nodes[j].origin.proposalId
  {
    var p, d :| p in proposals && d in decisions && ChildOfProposal(nodes[i], p, d);
    var q, e :| q in proposals && e in decisions && ChildOfProposal(nodes[j], q, e);
    assert p.id == q.id ==> p == q;
    assert d.proposalId == e.proposalId ==> d == e;
  }

  /** The Coaching child at one position belongs to the proposal at another. */
  predicate Answers(nodes: seq<Node>, proposals: seq<CoachingProposal>, i: nat, j: nat) {
    && i < |nodes| && j < |proposals|
    && nodes[i].origin.CoachingChild? && nodes[i].origin.proposalId == proposals[j].id
  }

  lemma CoachingChildAnswers(nodes: seq<Node>, proposals: seq<CoachingProposal>, decisions: seq<ProposalDecision>, i: nat)
    returns (j: nat)
    requires CoachingInv(nodes, proposals, decisions, Settled) && i < |nodes| && nodes[i].origin.CoachingChild?
    ensures Answers(nodes, proposals, i, j) && proposals[j].projectId == nodes[i].projectId
    ensures IsConfirmed(decisions, proposals[j].id)
  {
    assert nodes[i] in nodes;
    var p, d :| p in proposals && d in decisions && ChildOfProposal(nodes[i], p, d);
    j :| 0 <= j < |proposals| && proposals[j] == p;
  }

  lemma ConfirmedProposalIsAnswered(nodes: seq<Node>, proposals: seq<CoachingProposal>, decisions: seq<ProposalDecision>, j: nat)
    returns (i: nat)
    requires forall p, d | p in proposals && d in decisions && d.ConfirmedProposal? && d.proposalId == p.id ::
               exists n :: n in nodes && ChildOfProposal(n, p, d)
    requires j < |proposals| && IsConfirmed(decisions, proposals[j].id)
    ensures Answers(nodes, proposals, i, j) && nodes[i].projectId == proposals[j].projectId
  {
    var d :| d in decisions && d.ConfirmedProposal? && d.proposalId == proposals[j].id;
    assert proposals[j] in proposals;
    var n :| n in nodes && ChildOfProposal(n, proposals[j], d);
    i :| 0 <= i < |nodes| && nodes[i] == n;
  }

  /** `Answers` pairs every Coaching child with one confirmed proposal and every confirmed proposal with one child. */
  ghost predicate ProposalsAndChildrenPairUp(nodes: seq<Node>, proposals: seq<CoachingProposal>, decisions: seq<ProposalDecision>) {
    && (forall i: nat | i < |nodes| && nodes[i].origin.CoachingChild? ::
          exists j: nat :: Answers(nodes, proposals, i, j) && IsConfirmed(decisions, proposals[j].id)
                           && proposals[j].projectId == nodes[i].projectId)
    && (forall j: nat | j < |proposals| && IsConfirmed(decisions, proposals[j].id) ::
          exists i: nat :: Answers(nodes, proposals, i, j) && nodes[i].projectId == proposals[j].projectId)
    && (forall i: nat, k: nat, j: nat | Answers(nodes, proposals, i, j) && Answers(nodes, proposals, k, j) :: i == k)
    && (forall i: nat, j: nat, l: nat | Answers(nodes, proposals, i, j) && Answers(nodes, proposals, i, l) :: j == l)
  }

  lemma ProposalsPairUp(nodes: seq<Node>, proposals: seq<CoachingProposal>, decisions: seq<ProposalDecision>)
    requires forall i, j | 0 <= i < j < |nodes| :: !SameNode(nodes[i], nodes[j])
    requires CoachingInv(nodes, proposals, decisions, Settled)
    ensures ProposalsAndChildrenPairUp(nodes, proposals, decisions)
  {
    forall i: nat, k: nat, j: nat | Answers(nodes, proposals, i, j) && Answers(nodes, proposals, k, j) ensures i == k {
      if i < k {
        CoachingChildrenDiffer(nodes, proposals, decisions, i, k);
      } else if k < i {
        CoachingChildrenDiffer(nodes, proposals, decisions, k, i);
      }
    }
    forall j: nat | j < |proposals| && IsConfirmed(decisions, proposals[j].id)
      ensures exists i: nat :: Answers(nodes, proposals, i, j) && nodes[i].projectId == proposals[j].projectId
    {
      var i := ConfirmedProposalIsAnswered(nodes, proposals, decisions, j);
    }
    forall i: nat | i < |nodes| && nodes[i].origin.CoachingChild?
      ensures exists j: nat :: Answers(nodes, proposals, i, j) && IsConfirmed(decisions, proposals[j].id)
                               && proposals[j].projectId == nodes[i].projectId
    {
      var j := CoachingChildAnswers(nodes, proposals, decisions, i);
    }
  }

  /** In every reachable state, completed Runs match Run children and confirmed proposals match Coaching children. */
  lemma Bijections(t: ProjectState, integrity: IntegrityBoundary)
    requires Reachable(t, integrity)
    ensures RunsAndChildrenPairUp(t.nodes, t.runs)
    ensures ProposalsAndChildrenPairUp(t.nodes, t.coachingProposals, t.coachingProposalDecisions)
  {
    ReachableSatisfiesInv(t, integrity);
    RunsPairUp(t.nodes, t.runs);
    ProposalsPairUp(t.nodes, t.coachingProposals, t.coachingProposalDecisions);
  }

  lemma RunChildCount(nodes: seq<Node>, runs: seq<Run>, id: ProjectId)
    requires RunsAndChildrenPairUp(nodes, runs)
    ensures |Where(nodes, (n: Node) => n.projectId == id && n.origin.RunChild?)| == |CompletedRuns(runs, id)|
  {
    var isRun := (run: Run) => run.projectId == id && run.status.Completed?;
    var isChild := (n: Node) => n.projectId == id && n.origin.RunChild?;
    var a, b := Where(nodes, isChild), Where(runs, isRun);
    var related: (nat, nat) -> bool := (i: nat, j: nat) => ResultOf(nodes, runs, i, j);
    forall i | i in a ensures exists j :: j in b && related(i, j) {
      var j: nat :| ResultOf(nodes, runs, i, j);
      assert j in b && related(i, j);
    }
    forall j | j in b ensures exists i :: i in a && related(i, j) {
      var i: nat :| ResultOf(nodes, runs, i, j);
      assert i in a && related(i, j);
    }
    BijectionKeepsSize(a, b, related);
    FilterCountsPositions(runs, isRun);
  }

  lemma CoachingChildCount(s: ProjectState, id: ProjectId)
    requires ProposalsAndChildrenPairUp(s.nodes, s.coachingProposals, s.coachingProposalDecisions)
    ensures |Where(s.nodes, (n: Node) => n.projectId == id && n.origin.CoachingChild?)| == |ConfirmedProposals(s, id)|
  {
    var nodes, proposals, decisions := s.nodes, s.coachingProposals, s.coachingProposalDecisions;
    var isConfirmed := (p: CoachingProposal) => p.projectId == id && IsConfirmed(decisions, p.id);
    var isChild := (n: Node) => n.projectId == id && n.origin.CoachingChild?;
    var a, b := Where(nodes, isChild), Where(proposals, isConfirmed);
    var related: (nat, nat) -> bool := (i: nat, j: nat) => Answers(nodes, proposals, i, j);
    forall i | i in a ensures exists j :: j in b && related(i, j) {
      var j: nat :| Answers(nodes, proposals, i, j) && IsConfirmed(decisions, proposals[j].id)
                    && proposals[j].projectId == nodes[i].projectId;
      assert j in b && related(i, j);
    }
    forall j | j in b ensures exists i :: i in a && related(i, j) {
      var i: nat :| Answers(nodes, proposals, i, j) && nodes[i].projectId == proposals[j].projectId;
      assert i in a && related(i, j);
    }
    BijectionKeepsSize(a, b, related);
    FilterCountsPositions(proposals, isConfirmed);
  }

  lemma RootCount(projects: seq<Project>, nodes: seq<Node>, p: Project)
    requires TreeInv(projects, nodes) && RootsInv(projects, nodes, Settled) && p in projects
    ensures |Where(nodes, (n: Node) => n.projectId == p.id && n.origin.Root?)| == 1
  {
    var isRoot := (n: Node) => n.projectId == p.id && n.origin.Root?;
    assert Settled != AwaitingRoot(p.id) && HasRoot(nodes, p.id);
    var n :| n in nodes && isRoot(n);
    var k: nat :| k < |nodes| && nodes[k] == n;
    forall i | i in Where(nodes, isRoot) ensures i == k {
      assert nodes[i] in nodes && nodes[i].commitSha == p.rootNodeSha == n.commitSha;
      assert SameNode(nodes[i], nodes[k]);
    }
    assert Where(nodes, isRoot) == {k};
  }

  /** A Project has its root, one Node for each completed Run and one for each confirmed proposal, and no other Node. */
  lemma NodeCount(t: ProjectState, integrity: IntegrityBoundary, p: Project)
    requires Reachable(t, integrity) && p in t.projects
    ensures |NodesOf(t.nodes, p.id)| == 1 + |CompletedRuns(t.runs, p.id)| + |ConfirmedProposals(t, p.id)|
  {
    Bijections(t, integrity);
    ReachableSatisfiesInv(t, integrity);
    RootCount(t.projects, t.nodes, p);
    CountByOrigin(t, p.id);
  }

  lemma CountByOrigin(t: ProjectState, id: ProjectId)
    requires RunsAndChildrenPairUp(t.nodes, t.runs)
    requires ProposalsAndChildrenPairUp(t.nodes, t.coachingProposals, t.coachingProposalDecisions)
    requires |Where(t.nodes, (n: Node) => n.projectId == id && n.origin.Root?)| == 1
    ensures |NodesOf(t.nodes, id)| == 1 + |CompletedRuns(t.runs, id)| + |ConfirmedProposals(t, id)|
  {
    RunChildCount(t.nodes, t.runs, id);
    CoachingChildCount(t, id);
    NodesByOrigin(t.nodes, id);
    FilterCountsPositions(t.nodes, (n: Node) => n.projectId == id);
  }

  lemma NodesByOrigin(nodes: seq<Node>, id: ProjectId)
    ensures |Where(nodes, (n: Node) => n.projectId == id)|
            == |Where(nodes, (n: Node) => n.projectId == id && n.origin.Root?)|
             + |Where(nodes, (n: Node) => n.projectId == id && n.origin.RunChild?)|
             + |Where(nodes, (n: Node) => n.projectId == id && n.origin.CoachingChild?)|
  {
    var roots := Where(nodes, (n: Node) => n.projectId == id && n.origin.Root?);
    var runs := Where(nodes, (n: Node) => n.projectId == id && n.origin.RunChild?);
    var coached := Where(nodes, (n: Node) => n.projectId == id && n.origin.CoachingChild?);
    assert Where(nodes, (n: Node) => n.projectId == id) == roots + runs + coached;
    assert roots !! runs && (roots + runs) !! coached;
  }

  // ------------------------------------------------- both graph checks succeed

  lemma {:induction false} ProjectShasDiffer(nodes: seq<Node>, id: ProjectId)
    requires forall i, j | 0 <= i < j < |nodes| :: !SameNode(nodes[i], nodes[j])
    ensures DistinctShas(NodesOf(nodes, id))
  {
    if nodes != [] {
      var rest := nodes[1..];
      ProjectShasDiffer(rest, id);
      assert NodesOf(nodes, id) == (if nodes[0].projectId == id then [nodes[0]] else []) + NodesOf(rest, id);
      forall n | n in NodesOf(rest, id) ensures !SameNode(nodes[0], n) {
        var k :| 0 <= k < |rest| && rest[k] == n;
        assert nodes[k + 1] == n;
      }
    }
  }

  lemma {:induction false} RegisteredNodeIsGrounded(nodes: seq<Node>, i: nat)
    requires forall i, j | 0 <= i < j < |nodes| :: !SameNode(nodes[i], nodes[j])
    requires forall i | 0 <= i < |nodes| :: ParentBefore(nodes, i)
    requires i < |nodes|
    ensures Grounded(NodesOf(nodes, nodes[i].projectId), nodes[i])
  {
    var ns := NodesOf(nodes, nodes[i].projectId);
    if nodes[i].origin.Root? {
      assert ClimbsIn(ns, nodes[i], 0);
    } else {
      assert ParentBefore(nodes, i);
      var j :| 0 <= j < i && IsParent(nodes[j], nodes[i]);
      RegisteredNodeIsGrounded(nodes, j);
      ProjectShasDiffer(nodes, nodes[i].projectId);
      assert nodes[j] in nodes;
      NodeAtItsSha(ns, nodes[j]);
      ParentIsShallower(ns, nodes[i]);
    }
  }

  lemma ProjectHasOneRoot(nodes: seq<Node>, p: Project)
    requires DistinctShas(NodesOf(nodes, p.id)) && HasRoot(nodes, p.id)
    requires forall n | n in nodes && n.origin.Root? && n.projectId == p.id :: n.commitSha == p.rootNodeSha
    ensures OneRoot(NodesOf(nodes, p.id), p.rootNodeSha)
  {
    var ns := NodesOf(nodes, p.id);
    var root :| root in nodes && root.projectId == p.id && root.origin.Root?;
    var i: nat :| i < |ns| && ns[i] == root;
    forall j | 0 <= j < |ns| && ns[j].origin.Root? ensures j == i {
      assert ns[j] in ns && ns[j].commitSha == p.rootNodeSha == root.commitSha;
    }
    assert IsOnlyRoot(ns, p.rootNodeSha, i);
  }

  lemma ProjectIsStructurallyValid(projects: seq<Project>, nodes: seq<Node>, p: Project)
    requires TreeInv(projects, nodes) && RootsInv(projects, nodes, Settled) && p in projects
    ensures StructurallyValid(NodesOf(nodes, p.id), p.rootNodeSha)
  {
    var ns := NodesOf(nodes, p.id);
    ProjectShasDiffer(nodes, p.id);
    assert Settled != AwaitingRoot(p.id) && HasRoot(nodes, p.id);
    ProjectHasOneRoot(nodes, p);
    forall n | n in ns ensures Grounded(ns, n) {
      var k: nat :| k < |nodes| && nodes[k] == n;
      RegisteredNodeIsGrounded(nodes, k);
    }
  }

  lemma ProjectRunEdgesMatch(nodes: seq<Node>, runs: seq<Run>, id: ProjectId)
    requires DistinctShas(NodesOf(nodes, id))
    requires forall run | run in runs && run.status.Completed? :: exists n :: n in nodes && ChildOfRun(n, run)
    ensures RunEdgesMatch(NodesOf(nodes, id), runs, id)
  {
    forall run | run in runs && run.projectId == id && run.status.Completed? ensures RunEdgeMatches(NodesOf(nodes, id), run) {
      var n :| n in nodes && ChildOfRun(n, run);
      NodeAtItsSha(NodesOf(nodes, id), n);
    }
  }

  /** Both graph checks accept every Project of every reachable state. */
  lemma ReachableGraphsAreValid(state: ProjectState, integrity: IntegrityBoundary, p: Project)
    requires Reachable(state, integrity) && p in state.projects
    ensures StructurallyValid(NodesOf(state.nodes, p.id), p.rootNodeSha)
    ensures RunEdgesMatch(NodesOf(state.nodes, p.id), state.runs, p.id)
  {
    ReachableSatisfiesInv(state, integrity);
    ProjectIsStructurallyValid(state.projects, state.nodes, p);
    assert forall run | run in state.runs :: Settled != AwaitingRunChild(run.id);
    ProjectRunEdgesMatch(state.nodes, state.runs, p.id);
  }
}

/** What every accepted event stream keeps: the Project tree, its bijections, Run records and cohorts. */
module Invariant {
  import opened Prelude
  import opened Protocol
  import opened Engine
  import opened Batches

  // ------------------------------------------------------------ the Node tree

  ghost predicate HasProject(projects: seq<Project>, id: ProjectId) {
    exists p :: p in projects && p.id == id
  }

  ghost predicate HasRoot(nodes: seq<Node>, id: ProjectId) {
    exists n :: n in nodes && n.projectId == id && n.origin.Root?
  }

  predicate SameNode(a: Node, b: Node) {
    a.projectId == b.projectId && a.commitSha == b.commitSha
  }

  /** `parent` is the Node that `child` names as its parent. */
  predicate IsParent(parent: Node, child: Node) {
    !child.origin.Root? && parent.projectId == child.projectId && parent.commitSha == child.origin.parentSha
  }

  ghost predicate ParentBefore(nodes: seq<Node>, i: nat)
    requires i < |nodes|
  {
    nodes[i].origin.Root? || exists j :: 0 <= j < i && IsParent(nodes[j], nodes[i])
  }

  predicate NodeIsConsistent(n: Node) {
    && PlanIsValid(n.plan)
    && n.planDigest == Digest(n.plan)
    && n.payloadDigest == Digest(NodePayloadFor(n))
    && n.managedRef == ManagedNodeRef(n.projectId, n.commitSha)
  }

  /** A Run child keeps its parent's How and drops exactly the consumed Goal. */
  predicate DropsOneGoal(parent: Node, child: Node) {
    child.origin.RunChild? ==>
      && |MatchingGoals(parent.plan, child.origin.consumedGoalDigest)| == 1
      && child.plan == NodePlan(
           NODE_PLAN_SCHEMA,
           Filter(parent.plan.nextGoals, (goal: GoalValue) => Digest(goal) != child.origin.consumedGoalDigest),
           parent.plan.how)
  }

  ghost predicate TreeInv(projects: seq<Project>, nodes: seq<Node>) {
    && (forall i, j | 0 <= i < j < |projects| :: projects[i].id != projects[j].id)
    && (forall n | n in nodes :: HasProject(projects, n.projectId) && NodeIsConsistent(n))
    && (forall i, j | 0 <= i < j < |nodes| :: !SameNode(nodes[i], nodes[j]))
    && (forall i | 0 <= i < |nodes| :: ParentBefore(nodes, i))
    && (forall n, p | n in nodes && p in projects && n.origin.Root? && n.projectId == p.id :: n.commitSha == p.rootNodeSha)
    && (forall m, n | m in nodes && n in nodes && IsParent(m, n) :: DropsOneGoal(m, n))
  }

  // -------------------------------------------------------- Runs and evidence

  /** The Run snapshots one Goal and the Runner of the Node it starts from. */
  ghost predicate BoundToSource(nodes: seq<Node>, run: Run) {
    exists source :: source in nodes && source.projectId == run.projectId && source.commitSha == run.sourceNodeSha
                     && |MatchingGoals(source.plan, run.goalDigest)| == 1
                     && run.goalDigest == Digest(run.goal)
                     && run.runnerDigest == Digest(run.runner) && run.runner == source.plan.how
  }

  function EvidenceIdsOf(evidence: seq<EvidenceRef>, runId: RunId): seq<string> {
    if evidence == [] then []
    else
      var last := evidence[|evidence| - 1];
      EvidenceIdsOf(evidence[..|evidence| - 1], runId) + (if last.runId == runId then [last.id] else [])
  }

  ghost predicate CriteriaCovered(evidence: seq<EvidenceRef>, run: Run) {
    forall criterion | criterion in run.goal.acceptanceCriteria :: CriterionCovered(evidence, run, criterion)
  }

  ghost predicate RunInv(nodes: seq<Node>, runs: seq<Run>, evidence: seq<EvidenceRef>) {
    && (forall i, j | 0 <= i < j < |runs| :: runs[i].id != runs[j].id)
    && (forall i, j | 0 <= i < j < |evidence| :: evidence[i].id != evidence[j].id)
    && (forall run | run in runs :: BoundToSource(nodes, run))
    && (forall run | run in runs :: run.branch == RunBranchName(run.projectId, run.sourceNodeSha, run.id))
    && (forall run | run in runs :: run.evidenceIds == EvidenceIdsOf(evidence, run.id))
    && (forall e | e in evidence :: exists run :: run in runs && run.id == e.runId && run.projectId == e.projectId)
    && (forall run | run in runs && run.status.Completed? ::
          run.status.resultNodeSha != run.sourceNodeSha && CriteriaCovered(evidence, run))
  }

  // ------------------------------------- Nodes against Runs and confirmations

  /** The second half of a paired batch still to come. */
  datatype Pending =
    | Settled
    | AwaitingRoot(projectId: ProjectId)
    | AwaitingRunChild(runId: RunId)
    | AwaitingCoachingChild(proposalId: ProposalId)

  predicate ChildOfRun(node: Node, run: Run) {
    && run.status.Completed?
    && node.projectId == run.projectId
    && node.commitSha == run.status.resultNodeSha
    && node.origin == RunChild(run.sourceNodeSha, run.id, run.goalDigest)
  }

  predicate ChildOfProposal(node: Node, proposal: CoachingProposal, decision: ProposalDecision) {
    && decision.ConfirmedProposal? && decision.proposalId == proposal.id
    && node.projectId == proposal.projectId
    && node.commitSha == decision.childNodeSha
    && node.origin == CoachingChild(proposal.sourceNodeSha, proposal.id)
    && node.planDigest == proposal.proposedPlanDigest
  }

  ghost predicate RunChildrenInv(nodes: seq<Node>, runs: seq<Run>, pending: Pending) {
    && (forall n | n in nodes && n.origin.RunChild? :: exists run :: run in runs && ChildOfRun(n, run))
    && (forall run | run in runs && run.status.Completed? && pending != AwaitingRunChild(run.id) ::
          exists n :: n in nodes && ChildOfRun(n, run))
  }

  ghost predicate CoachingInv(nodes: seq<Node>, proposals: seq<CoachingProposal>, decisions: seq<ProposalDecision>, pending: Pending) {
    && (forall i, j | 0 <= i < j < |proposals| :: proposals[i].id != proposals[j].id)
    && (forall i, j | 0 <= i < j < |decisions| :: decisions[i].proposalId != decisions[j].proposalId)
    && (forall d | d in decisions :: exists p :: p in proposals && p.id == d.proposalId)
    && (forall n | n in nodes && n.origin.CoachingChild? ::
          exists p, d :: p in proposals && d in decisions && ChildOfProposal(n, p, d))
    && (forall p, d | p in proposals && d in decisions && d.ConfirmedProposal? && d.proposalId == p.id
                      && pending != AwaitingCoachingChild(p.id) ::
          exists n :: n in nodes && ChildOfProposal(n, p, d))
  }

  ghost predicate RootsInv(projects: seq<Project>, nodes: seq<Node>, pending: Pending) {
    && (forall p | p in projects && pending != AwaitingRoot(p.id) :: HasRoot(nodes, p.id))
    && (pending.AwaitingRoot? ==> forall n | n in nodes :: n.projectId != pending.projectId)
  }

  // ------------------------------------------------------------------ cohorts

  ghost predicate DecisionInComparison(c: AlternativeComparison, d: AlternativeDecision) {
    && c.id == d.comparisonId && c.projectId == d.projectId
    && (d.Selection? ==> d.selectedNodeSha in c.nodeShas)
    && (d.Rejection? ==> forall sha | sha in d.rejectedNodeShas :: sha in c.nodeShas)
  }

  ghost predicate ComparisonsInv(comparisons: seq<AlternativeComparison>) {
    && (forall i, j | 0 <= i < j < |comparisons| :: comparisons[i].id != comparisons[j].id)
    && (forall c | c in comparisons :: |c.nodeShas| >= 2 && Distinct(c.nodeShas))
    && (forall a, b | a in comparisons && b in comparisons && Overlap(a, b) :: ComparisonCohortKey(a) == ComparisonCohortKey(b))
  }

  ghost predicate DecisionsBacked(comparisons: seq<AlternativeComparison>, decisions: seq<AlternativeDecision>) {
    forall d | d in decisions :: exists c :: c in comparisons && DecisionInComparison(c, d)
  }

  ghost predicate SelectionsInv(comparisons: seq<AlternativeComparison>, decisions: seq<AlternativeDecision>) {
    forall i, j | 0 <= i < j < |decisions| && decisions[i].Selection? && decisions[j].Selection?
                  && decisions[i].projectId == decisions[j].projectId ::
      SelectionsInDifferentCohorts(comparisons, decisions[i], decisions[j])
  }

  predicate NoCommonSha(a: seq<Sha>, b: seq<Sha>) {
    forall sha | sha in a :: sha !in b
  }

  ghost predicate RejectionsInv(decisions: seq<AlternativeDecision>) {
    && (forall d | d in decisions && d.Rejection? :: Distinct(d.rejectedNodeShas))
    && (forall i, j | 0 <= i < j < |decisions| && decisions[i].Rejection? && decisions[j].Rejection?
                      && decisions[i].projectId == decisions[j].projectId ::
          NoCommonSha(decisions[i].rejectedNodeShas, decisions[j].rejectedNodeShas))
    && (forall s, r | s in decisions && r in decisions && s.Selection? && r.Rejection? && s.projectId == r.projectId ::
          s.selectedNodeSha !in r.rejectedNodeShas)
  }

  ghost predicate CohortInv(comparisons: seq<AlternativeComparison>, decisions: seq<AlternativeDecision>) {
    && ComparisonsInv(comparisons)
    && DecisionsBacked(comparisons, decisions)
    && SelectionsInv(comparisons, decisions)
    && RejectionsInv(decisions)
  }

  ghost predicate SelectionsInDifferentCohorts(comparisons: seq<AlternativeComparison>, s: AlternativeDecision, t: AlternativeDecision) {
    forall a, b | a in comparisons && b in comparisons && a.projectId == s.projectId && b.projectId == t.projectId
                  && a.id == s.comparisonId && b.id == t.comparisonId ::
      ComparisonCohortKey(a) != ComparisonCohortKey(b)
  }

  // ------------------------------------------------------------ the invariant

  ghost predicate Inv(s: ProjectState, pending: Pending) {
    && TreeInv(s.projects, s.nodes)
    && RunInv(s.nodes, s.runs, s.evidence)
    && RunChildrenInv(s.nodes, s.runs, pending)
    && CoachingInv(s.nodes, s.coachingProposals, s.coachingProposalDecisions, pending)
    && RootsInv(s.projects, s.nodes, pending)
    && CohortInv(s.comparisons, s.decisions)
  }

  // ------------------------------------------- what each kind of event preserves

  lemma TreeAfterProject(projects: seq<Project>, nodes: seq<Node>, project: Project)
    requires TreeInv(projects, nodes) && !HasProject(projects, project.id)
    ensures TreeInv(projects + [project], nodes)
  {
    forall n | n in nodes ensures HasProject(projects + [project], n.projectId) {
      var p :| p in projects && p.id == n.projectId;
      assert p in projects + [project];
    }
  }

  /** The facts `validateNewNode` establishes about a Node it accepts. */
  ghost predicate Registrable(projects: seq<Project>, nodes: seq<Node>, node: Node) {
    && HasProject(projects, node.projectId)
    && NodeIsConsistent(node)
    && (forall n | n in nodes :: !SameNode(n, node))
    && (node.origin.Root? ==>
          && (forall n | n in nodes :: !(n.projectId == node.projectId && n.origin.Root?))
          && exists p :: p in projects && p.id == node.projectId && p.rootNodeSha == node.commitSha)
    && (!node.origin.Root? ==> exists n :: n in nodes && IsParent(n, node))
  }

  /** A Node that is not yet registered is nobody's parent. */
  lemma NoChildBeforeRegistration(nodes: seq<Node>, node: Node)
    requires forall i | 0 <= i < |nodes| :: ParentBefore(nodes, i)
    requires forall n | n in nodes :: !SameNode(n, node)
    ensures forall n | n in nodes :: !IsParent(node, n)
  {
    forall n | n in nodes ensures !IsParent(node, n) {
      var i :| 0 <= i < |nodes| && nodes[i] == n;
      assert ParentBefore(nodes, i);
      if !n.origin.Root? {
        var j :| 0 <= j < i && IsParent(nodes[j], n);
        assert !SameNode(nodes[j], node);
      }
    }
  }

  lemma ParentBeforeAppend(nodes: seq<Node>, node: Node)
    requires forall i | 0 <= i < |nodes| :: ParentBefore(nodes, i)
    requires node.origin.Root? || exists n :: n in nodes && IsParent(n, node)
    ensures forall i | 0 <= i < |nodes| + 1 :: ParentBefore(nodes + [node], i)
  {
    var next := nodes + [node];
    forall i | 0 <= i < |next| ensures ParentBefore(next, i) {
      if !next[i].origin.Root? {
        if i < |nodes| {
          assert ParentBefore(nodes, i);
          var j :| 0 <= j < i && IsParent(nodes[j], nodes[i]);
          assert IsParent(next[j], next[i]);
        } else {
          var n :| n in nodes && IsParent(n, node);
          var j :| 0 <= j < |nodes| && nodes[j] == n;
          assert IsParent(next[j], next[i]);
        }
      }
    }
  }

  lemma TreeAfterNode(projects: seq<Project>, nodes: seq<Node>, node: Node)
    requires TreeInv(projects, nodes) && Registrable(projects, nodes, node)
    requires forall m | m in nodes && IsParent(m, node) :: DropsOneGoal(m, node)
    ensures TreeInv(projects, nodes + [node])
  {
    NoChildBeforeRegistration(nodes, node);
    ParentBeforeAppend(nodes, node);
    forall m, n | m in nodes + [node] && n in nodes + [node] && IsParent(m, n) ensures DropsOneGoal(m, n) {
      assert m in nodes;
    }
  }

  lemma RunsAfterNode(nodes: seq<Node>, runs: seq<Run>, evidence: seq<EvidenceRef>, node: Node)
    requires RunInv(nodes, runs, evidence)
    ensures RunInv(nodes + [node], runs, evidence)
  {
    forall run | run in runs ensures BoundToSource(nodes + [node], run) {
      assert BoundToSource(nodes, run);
      var source :| source in nodes && source.projectId == run.projectId && source.commitSha == run.sourceNodeSha
                    && |MatchingGoals(source.plan, run.goalDigest)| == 1
                    && run.goalDigest == Digest(run.goal)
                    && run.runnerDigest == Digest(run.runner) && run.runner == source.plan.how;
      assert source in nodes + [node];
    }
  }

  lemma {:induction false} NoEvidenceOf(evidence: seq<EvidenceRef>, runId: RunId)
    requires forall e | e in evidence :: e.runId != runId
    ensures EvidenceIdsOf(evidence, runId) == []
  {
    if evidence != [] {
      var last := evidence[|evidence| - 1];
      assert last in evidence;
      NoEvidenceOf(evidence[..|evidence| - 1], runId);
    }
  }

  lemma RunsAfterStart(nodes: seq<Node>, runs: seq<Run>, evidence: seq<EvidenceRef>, run: Run)
    requires RunInv(nodes, runs, evidence)
    requires run.status.Running? && run.evidenceIds == [] && BoundToSource(nodes, run)
    requires run.branch == RunBranchName(run.projectId, run.sourceNodeSha, run.id)
    requires forall r | r in runs :: r.id != run.id
    ensures RunInv(nodes, runs + [run], evidence)
  {
    forall e | e in evidence
      ensures e.runId != run.id && exists r :: r in runs + [run] && r.id == e.runId && r.projectId == e.projectId
    {
      var r :| r in runs && r.id == e.runId && r.projectId == e.projectId;
      assert r in runs + [run];
    }
    NoEvidenceOf(evidence, run.id);
  }

  /** Everything about a Run that is fixed when it starts. */
  predicate SameSnapshot(a: Run, b: Run) {
    && a.id == b.id && a.projectId == b.projectId && a.sourceNodeSha == b.sourceNodeSha
    && a.goal == b.goal && a.goalDigest == b.goalDigest
    && a.runner == b.runner && a.runnerDigest == b.runnerDigest
    && a.branch == b.branch && a.startedAt == b.startedAt
  }

  lemma BindingDependsOnSnapshot(nodes: seq<Node>, a: Run, b: Run)
    requires SameSnapshot(a, b) && BoundToSource(nodes, a)
    ensures BoundToSource(nodes, b)
  {
    var source :| source in nodes && source.projectId == a.projectId && source.commitSha == a.sourceNodeSha
                  && |MatchingGoals(source.plan, a.goalDigest)| == 1
                  && a.goalDigest == Digest(a.goal)
                  && a.runnerDigest == Digest(a.runner) && a.runner == source.plan.how;
    assert source.projectId == b.projectId && source.commitSha == b.sourceNodeSha;
  }

  /** `after` is `before` with some running Runs moved on. */
  ghost predicate RunsMoved(before: seq<Run>, after: seq<Run>) {
    && |before| == |after|
    && forall i | 0 <= i < |before| ::
         SameSnapshot(before[i], after[i]) && (!before[i].status.Running? ==> after[i] == before[i])
  }

  lemma MovedRunsKeepIdentity(nodes: seq<Node>, runs: seq<Run>, after: seq<Run>, evidence: seq<EvidenceRef>)
    requires RunInv(nodes, runs, evidence) && RunsMoved(runs, after)
    ensures forall i, j | 0 <= i < j < |after| :: after[i].id != after[j].id
    ensures forall run | run in after ::
              BoundToSource(nodes, run) && run.branch == RunBranchName(run.projectId, run.sourceNodeSha, run.id)
    ensures forall e | e in evidence :: exists run :: run in after && run.id == e.runId && run.projectId == e.projectId
  {
    forall run | run in after
      ensures BoundToSource(nodes, run) && run.branch == RunBranchName(run.projectId, run.sourceNodeSha, run.id)
    {
      var i :| 0 <= i < |after| && after[i] == run;
      assert runs[i] in runs && SameSnapshot(runs[i], after[i]);
      BindingDependsOnSnapshot(nodes, runs[i], run);
    }
    forall e | e in evidence ensures exists run :: run in after && run.id == e.runId && run.projectId == e.projectId {
      var r :| r in runs && r.id == e.runId && r.projectId == e.projectId;
      var i :| 0 <= i < |runs| && runs[i] == r;
      assert SameSnapshot(runs[i], after[i]) && after[i] in after;
    }
  }

  /** A move that touches neither evidence nor completion keeps the Run invariants. */
  lemma RunsAfterMove(nodes: seq<Node>, runs: seq<Run>, after: seq<Run>, evidence: seq<EvidenceRef>, pending: Pending)
    requires RunInv(nodes, runs, evidence) && RunChildrenInv(nodes, runs, pending) && RunsMoved(runs, after)
    requires forall i | 0 <= i < |runs| :: after[i].evidenceIds == runs[i].evidenceIds
    requires forall i | 0 <= i < |runs| && after[i] != runs[i] :: !after[i].status.Completed?
    ensures RunInv(nodes, after, evidence) && RunChildrenInv(nodes, after, pending)
  {
    MovedRunsKeepIdentity(nodes, runs, after, evidence);
    forall run | run in after
      ensures run.evidenceIds == EvidenceIdsOf(evidence, run.id)
      ensures run.status.Completed? ==> run in runs
    {
      var i :| 0 <= i < |after| && after[i] == run;
      assert runs[i] in runs && SameSnapshot(runs[i], after[i]);
    }
    ChildrenAfterMove(nodes, runs, after);
  }

  /** Terminal Runs stay, so registered Run children keep their Run. */
  lemma ChildrenAfterMove(nodes: seq<Node>, runs: seq<Run>, after: seq<Run>)
    requires RunsMoved(runs, after)
    requires forall n | n in nodes && n.origin.RunChild? :: exists run :: run in runs && ChildOfRun(n, run)
    ensures forall n | n in nodes && n.origin.RunChild? :: exists run :: run in after && ChildOfRun(n, run)
  {
    forall n | n in nodes && n.origin.RunChild? ensures exists run :: run in after && ChildOfRun(n, run) {
      var run :| run in runs && ChildOfRun(n, run);
      var i :| 0 <= i < |runs| && runs[i] == run;
      assert after[i] == run && after[i] in after;
    }
  }

  lemma RunsAfterCompletion(nodes: seq<Node>, runs: seq<Run>, after: seq<Run>, evidence: seq<EvidenceRef>, id: RunId)
    requires RunInv(nodes, runs, evidence) && RunChildrenInv(nodes, runs, Settled) && RunsMoved(runs, after)
    requires forall i | 0 <= i < |runs| :: after[i].evidenceIds == runs[i].evidenceIds
    requires forall i | 0 <= i < |runs| && after[i] != runs[i] ::
               runs[i].id == id && after[i].status.Completed?
               && after[i].status.resultNodeSha != after[i].sourceNodeSha && CriteriaCovered(evidence, runs[i])
    ensures RunInv(nodes, after, evidence) && RunChildrenInv(nodes, after, AwaitingRunChild(id))
  {
    MovedRunsKeepIdentity(nodes, runs, after, evidence);
    forall run | run in after
      ensures run.evidenceIds == EvidenceIdsOf(evidence, run.id)
      ensures run.status.Completed? ==> run.status.resultNodeSha != run.sourceNodeSha && CriteriaCovered(evidence, run)
      ensures run.status.Completed? && run.id != id ==> run in runs
    {
      var i :| 0 <= i < |after| && after[i] == run;
      assert runs[i] in runs && SameSnapshot(runs[i], after[i]);
      if after[i] != runs[i] {
        forall criterion | criterion in run.goal.acceptanceCriteria ensures CriterionCovered(evidence, run, criterion) {
          assert CriterionCovered(evidence, runs[i], criterion);
        }
      }
    }
    ChildrenAfterMove(nodes, runs, after);
  }

  /** The running Run that evidence names is the only one that changes. */
  lemma EvidenceIdsAfterAttach(runs: seq<Run>, after: seq<Run>, evidence: seq<EvidenceRef>, e: EvidenceRef, t: nat, i: nat)
    requires t < |runs| && i < |runs| == |after| && runs[t].id == e.runId
    requires i != t ==> runs[i].id != runs[t].id
    requires runs[i].evidenceIds == EvidenceIdsOf(evidence, runs[i].id)
    requires after[i] == if i == t then runs[i].(evidenceIds := runs[i].evidenceIds + [e.id]) else runs[i]
    ensures after[i].evidenceIds == EvidenceIdsOf(evidence + [e], after[i].id)
  {
    var grown := evidence + [e];
    assert grown[..|grown| - 1] == evidence;
  }

  lemma CoverageGrows(evidence: seq<EvidenceRef>, e: EvidenceRef, run: Run)
    requires CriteriaCovered(evidence, run)
    ensures CriteriaCovered(evidence + [e], run)
  {
    forall criterion | criterion in run.goal.acceptanceCriteria ensures CriterionCovered(evidence + [e], run, criterion) {
      assert CriterionCovered(evidence, run, criterion);
      var x :| x in evidence && x.runId == run.id && x.id in run.evidenceIds && x.target == CriterionTarget(criterion);
      assert x in evidence + [e];
    }
  }

  lemma RunsAfterEvidence(nodes: seq<Node>, runs: seq<Run>, after: seq<Run>, evidence: seq<EvidenceRef>, e: EvidenceRef,
                          t: nat, pending: Pending)
    requires RunInv(nodes, runs, evidence) && RunChildrenInv(nodes, runs, pending) && RunsMoved(runs, after)
    requires forall x | x in evidence :: x.id != e.id
    requires t < |runs| && runs[t].id == e.runId && runs[t].projectId == e.projectId && runs[t].status.Running?
    requires forall i | 0 <= i < |runs| ::
               after[i] == if i == t then runs[i].(evidenceIds := runs[i].evidenceIds + [e.id]) else runs[i]
    ensures RunInv(nodes, after, evidence + [e]) && RunChildrenInv(nodes, after, pending)
  {
    MovedRunsKeepIdentity(nodes, runs, after, evidence);
    assert after[t] in after && SameSnapshot(runs[t], after[t]);
    forall run | run in after
      ensures run.evidenceIds == EvidenceIdsOf(evidence + [e], run.id)
      ensures run.status.Completed? ==> run in runs && CriteriaCovered(evidence + [e], run)
    {
      var i :| 0 <= i < |after| && after[i] == run;
      assert runs[i] in runs && runs[i].evidenceIds == EvidenceIdsOf(evidence, runs[i].id);
      EvidenceIdsAfterAttach(runs, after, evidence, e, t, i);
      if run.status.Completed? {
        assert i != t;
        CoverageGrows(evidence, e, run);
      }
    }
    ChildrenAfterMove(nodes, runs, after);
  }

  // ------------------------------------------------- registrations and proposals

  lemma RunChildRegistered(nodes: seq<Node>, runs: seq<Run>, node: Node, run: Run)
    requires RunChildrenInv(nodes, runs, AwaitingRunChild(run.id)) && run in runs && ChildOfRun(node, run)
    requires forall r | r in runs && r.id == run.id :: r == run
    ensures RunChildrenInv(nodes + [node], runs, Settled)
  {
    forall r | r in runs && r.status.Completed? ensures exists n :: n in nodes + [node] && ChildOfRun(n, r) {
      var n := if r == run then node else (var n :| n in nodes && ChildOfRun(n, r); n);
      assert n in nodes + [node];
    }
  }

  lemma RunChildrenKeptByOtherNode(nodes: seq<Node>, runs: seq<Run>, node: Node, pending: Pending)
    requires RunChildrenInv(nodes, runs, pending) && !node.origin.RunChild?
    ensures RunChildrenInv(nodes + [node], runs, pending)
  {
    forall r | r in runs && r.status.Completed? && pending != AwaitingRunChild(r.id)
      ensures exists n :: n in nodes + [node] && ChildOfRun(n, r)
    {
      var n :| n in nodes && ChildOfRun(n, r);
      assert n in nodes + [node];
    }
  }

  lemma CoachingKeptByOtherNode(nodes: seq<Node>, proposals: seq<CoachingProposal>, decisions: seq<ProposalDecision>,
                                node: Node, pending: Pending)
    requires CoachingInv(nodes, proposals, decisions, pending) && !node.origin.CoachingChild?
    ensures CoachingInv(nodes + [node], proposals, decisions, pending)
  {
    forall p, d | p in proposals && d in decisions && d.ConfirmedProposal? && d.proposalId == p.id
                  && pending != AwaitingCoachingChild(p.id)
      ensures exists n :: n in nodes + [node] && ChildOfProposal(n, p, d)
    {
      var n :| n in nodes && ChildOfProposal(n, p, d);
      assert n in nodes + [node];
    }
  }

  lemma CoachingChildRegistered(nodes: seq<Node>, proposals: seq<CoachingProposal>, decisions: seq<ProposalDecision>,
                                node: Node, p: CoachingProposal, d: ProposalDecision, pending: Pending)
    requires CoachingInv(nodes, proposals, decisions, pending)
    requires p in proposals && d in decisions && ChildOfProposal(node, p, d)
    requires pending == AwaitingCoachingChild(p.id)
    ensures CoachingInv(nodes + [node], proposals, decisions, Settled)
  {
    forall q, c | q in proposals && c in decisions && c.ConfirmedProposal? && c.proposalId == q.id
      ensures exists n :: n in nodes + [node] && ChildOfProposal(n, q, c)
    {
      if q.id == p.id {
        assert q == p && c == d && node in nodes + [node];
      } else {
        var n :| n in nodes && ChildOfProposal(n, q, c);
        assert n in nodes + [node];
      }
    }
  }

  /** Coaching children keep their proposals when more are recorded. */
  lemma ChildrenAfterProposal(nodes: seq<Node>, proposals: seq<CoachingProposal>, decisions: seq<ProposalDecision>, p: CoachingProposal)
    requires forall n | n in nodes && n.origin.CoachingChild? ::
               exists q, d :: q in proposals && d in decisions && ChildOfProposal(n, q, d)
    ensures forall n | n in nodes && n.origin.CoachingChild? ::
              exists q, d :: q in proposals + [p] && d in decisions && ChildOfProposal(n, q, d)
  {
    forall n | n in nodes && n.origin.CoachingChild?
      ensures exists q, d :: q in proposals + [p] && d in decisions && ChildOfProposal(n, q, d)
    {
      var q, d :| q in proposals && d in decisions && ChildOfProposal(n, q, d);
      assert q in proposals + [p];
    }
  }

  lemma DecisionsAfterProposal(proposals: seq<CoachingProposal>, decisions: seq<ProposalDecision>, p: CoachingProposal)
    requires forall d | d in decisions :: exists q :: q in proposals && q.id == d.proposalId
    requires forall q | q in proposals :: q.id != p.id
    ensures forall d | d in decisions :: d.proposalId != p.id && exists q :: q in proposals + [p] && q.id == d.proposalId
  {
    forall d | d in decisions ensures d.proposalId != p.id && exists q :: q in proposals + [p] && q.id == d.proposalId {
      var q :| q in proposals && q.id == d.proposalId;
      assert q in proposals + [p];
    }
  }

  lemma AnswersAfterProposal(nodes: seq<Node>, proposals: seq<CoachingProposal>, decisions: seq<ProposalDecision>,
                             p: CoachingProposal, pending: Pending)
    requires forall q, d | q in proposals && d in decisions && d.ConfirmedProposal? && d.proposalId == q.id
                           && pending != AwaitingCoachingChild(q.id) :: exists n :: n in nodes && ChildOfProposal(n, q, d)
    requires forall d | d in decisions :: d.proposalId != p.id
    ensures forall q, d | q in proposals + [p] && d in decisions && d.ConfirmedProposal? && d.proposalId == q.id
                          && pending != AwaitingCoachingChild(q.id) :: exists n :: n in nodes && ChildOfProposal(n, q, d)
  {
  }

  lemma CoachingAfterProposal(nodes: seq<Node>, proposals: seq<CoachingProposal>, decisions: seq<ProposalDecision>,
                              p: CoachingProposal, pending: Pending)
    requires CoachingInv(nodes, proposals, decisions, pending) && forall q | q in proposals :: q.id != p.id
    ensures CoachingInv(nodes, proposals + [p], decisions, pending)
  {
    ChildrenAfterProposal(nodes, proposals, decisions, p);
    DecisionsAfterProposal(proposals, decisions, p);
    AnswersAfterProposal(nodes, proposals, decisions, p, pending);
  }

  lemma CoachingAfterDecision(nodes: seq<Node>, proposals: seq<CoachingProposal>, decisions: seq<ProposalDecision>, d: ProposalDecision)
    requires CoachingInv(nodes, proposals, decisions, Settled)
    requires exists p :: p in proposals && p.id == d.proposalId
    requires forall c | c in decisions :: c.proposalId != d.proposalId
    ensures CoachingInv(nodes, proposals, decisions + [d], if d.ConfirmedProposal? then AwaitingCoachingChild(d.proposalId) else Settled)
  {
    forall n | n in nodes && n.origin.CoachingChild?
      ensures exists p, c :: p in proposals && c in decisions + [d] && ChildOfProposal(n, p, c)
    {
      var p, c :| p in proposals && c in decisions && ChildOfProposal(n, p, c);
      assert c in decisions + [d];
    }
  }

  // ------------------------------------------------------- cohorts, step by step

  lemma ComparisonsAfterComparison(comparisons: seq<AlternativeComparison>, c: AlternativeComparison)
    requires ComparisonsInv(comparisons)
    requires forall x | x in comparisons :: x.id != c.id
    requires |c.nodeShas| >= 2 && Distinct(c.nodeShas)
    requires forall x | x in comparisons && Overlap(x, c) :: ComparisonCohortKey(x) == ComparisonCohortKey(c)
    ensures ComparisonsInv(comparisons + [c])
  {
    forall x | x in comparisons && Overlap(c, x) ensures Overlap(x, c) {
      var sha :| sha in c.nodeShas && sha in x.nodeShas;
    }
  }

  lemma DecisionsAfterComparison(comparisons: seq<AlternativeComparison>, decisions: seq<AlternativeDecision>, c: AlternativeComparison)
    requires DecisionsBacked(comparisons, decisions) && SelectionsInv(comparisons, decisions)
    requires forall x | x in comparisons :: x.id != c.id
    ensures DecisionsBacked(comparisons + [c], decisions) && SelectionsInv(comparisons + [c], decisions)
  {
    forall d | d in decisions ensures d.comparisonId != c.id && exists x :: x in comparisons + [c] && DecisionInComparison(x, d) {
      var x :| x in comparisons && DecisionInComparison(x, d);
      assert x in comparisons + [c];
    }
  }

  /** No prior selection of the Project lies in the cohort. */
  ghost predicate CohortUnselected(comparisons: seq<AlternativeComparison>, decisions: seq<AlternativeDecision>,
                                   projectId: ProjectId, key: CohortKey) {
    forall d, prior | d in decisions && d.Selection? && d.projectId == projectId
                      && prior in comparisons && prior.projectId == projectId && prior.id == d.comparisonId ::
      ComparisonCohortKey(prior) != key
  }

  lemma SelectionsAfterSelection(comparisons: seq<AlternativeComparison>, decisions: seq<AlternativeDecision>,
                                 d: AlternativeDecision, c: AlternativeComparison)
    requires SelectionsInv(comparisons, decisions)
    requires forall i, j | 0 <= i < j < |comparisons| :: comparisons[i].id != comparisons[j].id
    requires d.Selection? && c in comparisons && DecisionInComparison(c, d)
    requires CohortUnselected(comparisons, decisions, d.projectId, ComparisonCohortKey(c))
    ensures SelectionsInv(comparisons, decisions + [d])
  {
    forall x | x in decisions && x.Selection? && x.projectId == d.projectId
      ensures SelectionsInDifferentCohorts(comparisons, x, d)
    {
    }
  }

  lemma RejectionsAfterSelection(decisions: seq<AlternativeDecision>, d: AlternativeDecision)
    requires RejectionsInv(decisions) && d.Selection?
    requires !IsRejectedNode(decisions, d.projectId, d.selectedNodeSha)
    ensures RejectionsInv(decisions + [d])
  {
  }

  lemma RejectionsAfterRejection(decisions: seq<AlternativeDecision>, d: AlternativeDecision)
    requires RejectionsInv(decisions) && d.Rejection? && Distinct(d.rejectedNodeShas)
    requires forall sha | sha in d.rejectedNodeShas ::
               !IsSelectedNode(decisions, d.projectId, sha) && !IsRejectedNode(decisions, d.projectId, sha)
    ensures RejectionsInv(decisions + [d])
  {
    forall x | x in decisions && x.Rejection? && x.projectId == d.projectId
      ensures NoCommonSha(x.rejectedNodeShas, d.rejectedNodeShas)
    {
    }
  }

  // --------------------------------------------------- what an accepted event says

  ghost predicate StartedRun(s: ProjectState, run: Run) {
    && run.status.Running? && run.checkpoints == [] && run.evidenceIds == []
    && run.branch == RunBranchName(run.projectId, run.sourceNodeSha, run.id)
    && BoundToSource(s.nodes, run)
    && !IsRejectedNode(s.decisions, run.projectId, run.sourceNodeSha)
    && forall r | r in s.runs :: r.id != run.id
  }

  /** Exactly the running Runs with this id change, and only as `replace` says. */
  ghost predicate RunReplaced(before: seq<Run>, after: seq<Run>, id: RunId, replace: Run -> Run) {
    && |before| == |after|
    && (exists r :: r in before && r.id == id && r.status.Running?)
    && forall i | 0 <= i < |before| ::
         after[i] == if before[i].id == id && before[i].status.Running? then replace(before[i]) else before[i]
  }

  ghost predicate EvidenceAccepted(s: ProjectState, e: EvidenceRef) {
    && (forall x | x in s.evidence :: x.id != e.id)
    && exists r :: r in s.runs && r.id == e.runId && r.status.Running? && r.projectId == e.projectId
                   && (e.target.CriterionTarget? ==> e.target.criterion in r.goal.acceptanceCriteria)
  }

  ghost predicate CompletionAccepted(s: ProjectState, result: VerifiedRunResult) {
    exists r :: r in s.runs && r.id == result.runId && r.status.Running? && r.branch == result.branch
                && r.sourceNodeSha != result.resultSha && CriteriaCovered(s.evidence, r)
  }

  ghost predicate RunChildAccepted(s: ProjectState, node: Node) {
    && (exists run :: run in s.runs && ChildOfRun(node, run))
    && (exists parent :: parent in s.nodes && IsParent(parent, node) && DropsOneGoal(parent, node))
  }

  ghost predicate ProposalAccepted(s: ProjectState, p: CoachingProposal) {
    && PlanIsValid(p.proposedPlan) && p.proposedPlanDigest == Digest(p.proposedPlan)
    && p.proposedPlanDigest != p.sourcePlanDigest
    && !IsRejectedNode(s.decisions, p.projectId, p.sourceNodeSha)
    && forall q | q in s.coachingProposals :: q.id != p.id
  }

  ghost predicate DispositionAccepted(s: ProjectState, d: ProposalDecision) {
    && (exists p :: p in s.coachingProposals && p.id == d.proposalId)
    && forall c | c in s.coachingProposalDecisions :: c.proposalId != d.proposalId
  }

  ghost predicate CoachingChildAccepted(s: ProjectState, node: Node) {
    exists p, d :: p in s.coachingProposals && d in s.coachingProposalDecisions && ChildOfProposal(node, p, d)
  }

  ghost predicate ComparisonAccepted(s: ProjectState, c: AlternativeComparison) {
    && |c.nodeShas| >= 2 && Distinct(c.nodeShas)
    && (forall x | x in s.comparisons :: x.id != c.id)
    && forall x | x in s.comparisons && Overlap(x, c) :: ComparisonCohortKey(x) == ComparisonCohortKey(c)
  }

  ghost predicate SelectionAccepted(s: ProjectState, d: AlternativeDecision) {
    && d.Selection?
    && !IsRejectedNode(s.decisions, d.projectId, d.selectedNodeSha)
    && exists c :: c in s.comparisons && DecisionInComparison(c, d)
                   && CohortUnselected(s.comparisons, s.decisions, d.projectId, ComparisonCohortKey(c))
  }

  ghost predicate RejectionAccepted(s: ProjectState, d: AlternativeDecision) {
    && d.Rejection? && Distinct(d.rejectedNodeShas)
    && (forall sha | sha in d.rejectedNodeShas ::
          !IsSelectedNode(s.decisions, d.projectId, sha) && !IsRejectedNode(s.decisions, d.projectId, sha))
    && exists c :: c in s.comparisons && DecisionInComparison(c, d)
  }

  /** What acceptance of an event says about the states around it. */
  ghost predicate Follows(s: ProjectState, event: DomainEvent, t: ProjectState) {
    match event.body
    case ProjectCreated(project) =>
      !HasProject(s.projects, project.id) && t == s.(projects := s.projects + [project])
    case ProjectMaterializationsRebuilt(_) =>
      t == s
    case RootNodeRegistered(node, _) =>
      Registrable(s.projects, s.nodes, node) && t == s.(nodes := s.nodes + [node])
    case RunStarted(run) =>
      StartedRun(s, run) && t == s.(runs := s.runs + [run])
    case RunCheckpointed(checkpoint) =>
      && t == s.(runs := t.runs)
      && RunReplaced(s.runs, t.runs, checkpoint.runId, (run: Run) => run.(checkpoints := run.checkpoints + [checkpoint]))
    case RunEvidenceAttached(e) =>
      && EvidenceAccepted(s, e) && t == s.(evidence := s.evidence + [e], runs := t.runs)
      && RunReplaced(s.runs, t.runs, e.runId, (run: Run) => run.(evidenceIds := run.evidenceIds + [e.id]))
    case RunCompleted(result) =>
      && CompletionAccepted(s, result) && t == s.(runs := t.runs)
      && RunReplaced(s.runs, t.runs, result.runId, (run: Run) =>
           run.(status := Completed(result.resultSha, result.verifiedAt, event.meta.recordedAt)))
    case RunChildNodeRegistered(node, _) =>
      && Registrable(s.projects, s.nodes, node) && RunChildAccepted(s, node)
      && t == s.(nodes := s.nodes + [node])
    case RunFailed(runId, reason) =>
      && t == s.(runs := t.runs)
      && RunReplaced(s.runs, t.runs, runId, (run: Run) => run.(status := Failed(event.meta.recordedAt, reason)))
    case RunCanceled(runId, reason) =>
      && t == s.(runs := t.runs)
      && RunReplaced(s.runs, t.runs, runId, (run: Run) => run.(status := Canceled(event.meta.recordedAt, reason)))
    case CoachReviewRecorded(review) =>
      t == s.(coachReviews := s.coachReviews + [review])
    case CoachingProposalRecorded(p) =>
      ProposalAccepted(s, p) && t == s.(coachingProposals := s.coachingProposals + [p])
    case CoachingProposalConfirmed(d) =>
      DispositionAccepted(s, d) && t == s.(coachingProposalDecisions := s.coachingProposalDecisions + [d])
    case CoachingChildNodeRegistered(node, _) =>
      && Registrable(s.projects, s.nodes, node) && CoachingChildAccepted(s, node)
      && t == s.(nodes := s.nodes + [node])
    case CoachingProposalRejected(d) =>
      DispositionAccepted(s, d) && t == s.(coachingProposalDecisions := s.coachingProposalDecisions + [d])
    case AlternativesCompared(c) =>
      ComparisonAccepted(s, c) && t == s.(comparisons := s.comparisons + [c])
    case AlternativeSelected(d) =>
      SelectionAccepted(s, d) && t == s.(decisions := s.decisions + [d])
    case AlternativesRejected(d) =>
      RejectionAccepted(s, d) && t == s.(decisions := s.decisions + [d])
  }

  lemma ValidNodeIsRegistrable(s: ProjectState, node: Node, payload: NodePayloadEnvelope, recordedAt: Timestamp,
                               integrity: IntegrityBoundary)
    requires ValidateNewNode(s, node, payload, recordedAt, integrity).Ok?
    ensures Registrable(s.projects, s.nodes, node)
  {
    var project := FindProject(s.projects, node.projectId).value;
    assert project in s.projects;
    if !node.origin.Root? {
      var parent := FindNode(s.nodes, node.projectId, node.origin.parentSha).value;
      assert IsParent(parent, node);
    }
  }

  lemma ValidRunChildIsAccepted(s: ProjectState, run: Run, node: RunChildNode, payload: NodePayloadEnvelope,
                                recordedAt: Timestamp, integrity: IntegrityBoundary)
    requires run in s.runs && run.status.Completed? && ValidateRunChildNode(s, run, node, payload, recordedAt, integrity).Ok?
    ensures Registrable(s.projects, s.nodes, node) && RunChildAccepted(s, node)
  {
    ValidNodeIsRegistrable(s, node, payload, recordedAt, integrity);
    assert ChildOfRun(node, run);
    var source := FindNode(s.nodes, run.projectId, run.sourceNodeSha).value;
    assert IsParent(source, node) && DropsOneGoal(source, node);
  }

  lemma ValidCoachingChildIsAccepted(s: ProjectState, node: CoachingChildNode, payload: NodePayloadEnvelope,
                                     recordedAt: Timestamp, integrity: IntegrityBoundary)
    requires ValidateCoachingChildEvent(s, node, payload, recordedAt, integrity).Ok?
    ensures Registrable(s.projects, s.nodes, node) && CoachingChildAccepted(s, node)
  {
    var p := FindProposal(s.coachingProposals, node.origin.proposalId).value;
    var d := FindProposalDecision(s.coachingProposalDecisions, node.origin.proposalId).value;
    ValidNodeIsRegistrable(s, node, payload, recordedAt, integrity);
    assert node.planDigest == Digest(node.plan);
    assert ChildOfProposal(node, p, d);
  }

  lemma ValidRunStart(s: ProjectState, run: RunningRun)
    requires ValidateRunningRunEvent(s, run).Ok?
    ensures StartedRun(s, run)
  {
    var source := FindNode(s.nodes, run.projectId, run.sourceNodeSha).value;
    assert source in s.nodes;
  }

  lemma ValidSelection(s: ProjectState, d: SelectionDecision, actor: DomainActor)
    requires ValidateSelectionDecision(s, d, actor).Ok?
    requires forall i, j | 0 <= i < j < |s.comparisons| :: s.comparisons[i].id != s.comparisons[j].id
    ensures SelectionAccepted(s, d)
  {
    var c := FindComparison(s.comparisons, d.projectId, d.comparisonId).value;
    assert DecisionInComparison(c, d);
    forall x, prior | x in s.decisions && x.Selection? && x.projectId == d.projectId
                      && prior in s.comparisons && prior.projectId == d.projectId && prior.id == x.comparisonId
      ensures ComparisonCohortKey(prior) != ComparisonCohortKey(c)
    {
      var found := FindComparison(s.comparisons, d.projectId, x.comparisonId);
      assert found == Some(prior);
    }
  }

  lemma ValidRejection(s: ProjectState, d: RejectionDecision, actor: DomainActor)
    requires ValidateRejectionDecision(s, d, actor).Ok?
    ensures RejectionAccepted(s, d)
  {
    var c := FindComparison(s.comparisons, d.projectId, d.comparisonId).value;
    assert DecisionInComparison(c, d);
  }

  lemma RunIsReplaced(s: ProjectState, runId: RunId, replace: Run -> Run)
    requires FindRunningRun(s.runs, runId).Ok?
    ensures RunReplaced(s.runs, ReplaceRun(s.runs, runId, replace), runId, replace)
  {
    assert FindRunningRun(s.runs, runId).value in s.runs;
  }

  lemma ValidEvidenceIsAccepted(s: ProjectState, e: EvidenceRef)
    requires ValidateEvidence(s, e).Ok?
    ensures EvidenceAccepted(s, e) && FindRunningRun(s.runs, e.runId).Ok?
  {
    assert FindRunningRun(s.runs, e.runId).value in s.runs;
  }

  lemma ValidCompletionIsAccepted(s: ProjectState, result: VerifiedRunResult)
    requires ValidateVerifiedRunResult(s, result).Ok?
    ensures CompletionAccepted(s, result) && FindRunningRun(s.runs, result.runId).Ok?
  {
    var r := FindRunningRun(s.runs, result.runId).value;
    assert r in s.runs && CriteriaCovered(s.evidence, r);
  }

  lemma AcceptedRunMoveFollows(s: ProjectState, event: DomainEvent, integrity: IntegrityBoundary, t: ProjectState)
    requires event.body.RunCheckpointed? || event.body.RunFailed? || event.body.RunCanceled?
    requires RunEffect(s, event.body, event.meta.recordedAt, integrity) == Ok(t)
    ensures Follows(s, event, t)
  {
    var recordedAt := event.meta.recordedAt;
    match event.body
    case RunCheckpointed(c) =>
      RunIsReplaced(s, c.runId, (run: Run) => run.(checkpoints := run.checkpoints + [c]));
    case RunFailed(runId, reason) =>
      RunIsReplaced(s, runId, (run: Run) => run.(status := Failed(recordedAt, reason)));
    case RunCanceled(runId, reason) =>
      RunIsReplaced(s, runId, (run: Run) => run.(status := Canceled(recordedAt, reason)));
  }

  lemma AcceptedRunEventFollows(s: ProjectState, event: DomainEvent, integrity: IntegrityBoundary, t: ProjectState)
    requires IsRunBody(event.body) && RunEffect(s, event.body, event.meta.recordedAt, integrity) == Ok(t)
    ensures Follows(s, event, t)
  {
    var recordedAt := event.meta.recordedAt;
    match event.body
    case RunStarted(run) => ValidRunStart(s, run);
    case RunEvidenceAttached(e) =>
      ValidEvidenceIsAccepted(s, e);
      RunIsReplaced(s, e.runId, (run: Run) => run.(evidenceIds := run.evidenceIds + [e.id]));
    case RunCompleted(result) =>
      ValidCompletionIsAccepted(s, result);
      RunIsReplaced(s, result.runId, (run: Run) => run.(status := Completed(result.resultSha, result.verifiedAt, recordedAt)));
    case RunChildNodeRegistered(node, payload) =>
      ValidRunChildIsAccepted(s, FindCompletedRun(s.runs, node.origin.runId).value, node, payload, recordedAt, integrity);
    case _ => AcceptedRunMoveFollows(s, event, integrity, t);
  }

  lemma ValidProposalIsAccepted(s: ProjectState, p: CoachingProposal, actor: DomainActor)
    requires ValidateCoachingProposal(s, p, actor).Ok?
    ensures ProposalAccepted(s, p)
  {
  }

  lemma OpenProposalIsDisposable(s: ProjectState, d: ProposalDecision, actor: DomainActor)
    requires FindOpenCoachingProposal(s, d.proposalId, actor).Ok?
    ensures DispositionAccepted(s, d)
  {
  }

  lemma ValidComparisonIsAccepted(s: ProjectState, c: AlternativeComparison)
    requires ValidateComparison(s, c).Ok?
    ensures ComparisonAccepted(s, c)
  {
    assert ResolveCompletedRunCandidates(s, c.projectId, c.nodeShas).Ok?;
    assert ValidateComparisonCohortOverlap(s.comparisons, c).Ok?;
  }

  lemma AcceptedCoachingEventFollows(s: ProjectState, event: DomainEvent, integrity: IntegrityBoundary, t: ProjectState)
    requires IsCoachingBody(event.body) && CoachingEffect(s, event.body, event.meta, integrity) == Ok(t)
    ensures Follows(s, event, t)
  {
    var recordedAt, actor := event.meta.recordedAt, event.meta.actor;
    match event.body
    case CoachReviewRecorded(_) =>
    case CoachingChildNodeRegistered(node, payload) => ValidCoachingChildIsAccepted(s, node, payload, recordedAt, integrity);
    case CoachingProposalRecorded(p) => ValidProposalIsAccepted(s, p, actor);
    case CoachingProposalConfirmed(d) => OpenProposalIsDisposable(s, d, actor);
    case CoachingProposalRejected(d) => OpenProposalIsDisposable(s, d, actor);
  }

  lemma AcceptedAlternativesEventFollows(s: ProjectState, event: DomainEvent, t: ProjectState)
    requires IsAlternativesBody(event.body) && AlternativesEffect(s, event.body, event.meta.actor) == Ok(t)
    requires forall i, j | 0 <= i < j < |s.comparisons| :: s.comparisons[i].id != s.comparisons[j].id
    ensures Follows(s, event, t)
  {
    match event.body
    case AlternativesCompared(c) => ValidComparisonIsAccepted(s, c);
    case AlternativeSelected(d) => ValidSelection(s, d, event.meta.actor);
    case AlternativesRejected(d) => ValidRejection(s, d, event.meta.actor);
  }

  /** Every accepted event satisfies its description. */
  lemma AcceptedEventFollows(s: ProjectState, event: DomainEvent, integrity: IntegrityBoundary, t: ProjectState)
    requires Effect(s, event, integrity) == Ok(t)
    requires forall i, j | 0 <= i < j < |s.comparisons| :: s.comparisons[i].id != s.comparisons[j].id
    ensures Follows(s, event, t)
  {
    if IsRunBody(event.body) {
      AcceptedRunEventFollows(s, event, integrity, t);
    } else if IsCoachingBody(event.body) {
      AcceptedCoachingEventFollows(s, event, integrity, t);
    } else if IsAlternativesBody(event.body) {
      AcceptedAlternativesEventFollows(s, event, t);
    } else if event.body.RootNodeRegistered? {
      ValidNodeIsRegistrable(s, event.body.rootNode, event.body.payload, event.meta.recordedAt, integrity);
    }
  }
}

/**
 * The rules of the domain in terms of what is recorded: what may happen to a Project, said without looking anything up.
 * Each check of the engine is proved to be one of these rules.
 */
module CommandRules {
  import opened Prelude
  import opened Protocol
  import opened Engine
  import opened Lists
  import opened Invariant

  // ---------------------------------------------------------------------- words

  predicate IsNodeAt(s: ProjectState, n: Node, id: ProjectId, sha: Sha) {
    n in s.nodes && n.projectId == id && n.commitSha == sha
  }

  ghost predicate IsRejected(s: ProjectState, id: ProjectId, sha: Sha) {
    exists d :: d in s.decisions && d.Rejection? && d.projectId == id && sha in d.rejectedNodeShas
  }

  ghost predicate IsSelected(s: ProjectState, id: ProjectId, sha: Sha) {
    exists d :: d in s.decisions && d.Selection? && d.projectId == id && d.selectedNodeSha == sha
  }

  predicate IsRunningRun(s: ProjectState, run: Run, id: RunId) {
    run in s.runs && run.id == id && run.status.Running?
  }

  /** Goals differ in key and in content, and each has criteria that differ. */
  predicate PlanIsSound(plan: NodePlan) {
    && plan.schema == "hunsu.node-plan.v1"
    && (forall i, j | 0 <= i < j < |plan.nextGoals| ::
          plan.nextGoals[i].key != plan.nextGoals[j].key && plan.nextGoals[i] != plan.nextGoals[j])
    && forall i | 0 <= i < |plan.nextGoals| ::
         var criteria := plan.nextGoals[i].acceptanceCriteria;
         0 < |criteria| && forall j, k | 0 <= j < k < |criteria| :: criteria[j] != criteria[k]
  }

  /** The Node names itself, its plan and its payload correctly, and its payload is the one in the envelope, within size. */
  predicate ContentIsSound(node: Node, envelope: NodePayloadEnvelope, at: Timestamp, integrity: IntegrityBoundary) {
    var payload := NodePayload(node.projectId, node.commitSha, node.treeSha, node.plan);
    && PlanIsSound(node.plan) && node.planDigest.content == node.plan && node.payloadDigest.content == payload
    && node.managedRef == ManagedNodeRef(node.projectId, node.commitSha) && node.registeredAt == at
    && envelope.digest.content == payload && integrity.verifyNodePayload(payload, envelope)
    && envelope.decodedSize == integrity.canonicalByteLength(payload) <= 1_048_576
    && envelope.encodedSize == |envelope.data| <= 1_572_864
  }

  predicate IsNewSha(s: ProjectState, node: Node) {
    forall n | n in s.nodes && n.projectId == node.projectId :: n.commitSha != node.commitSha
  }

  /** Both kinds of decisions draw their ids from one space. */
  predicate IsNewDecision(s: ProjectState, id: DecisionId) {
    (forall d | d in s.decisions :: d.id != id) && forall d | d in s.coachingProposalDecisions :: d.id != id
  }

  // ---------------------------------------------------------------------- rules

  predicate MayCreate(s: ProjectState, project: Project, actor: DomainActor) {
    actor.User? && forall p | p in s.projects :: p.id != project.id
  }

  ghost predicate MayRebuild(s: ProjectState, id: ProjectId, actor: DomainActor) {
    actor.User? && exists p :: p in s.projects && p.id == id
  }

  ghost predicate MayRegisterRoot(s: ProjectState, node: Node, payload: NodePayloadEnvelope, actor: DomainActor, at: Timestamp,
                                  integrity: IntegrityBoundary)
  {
    && actor.User? && (exists p :: p in s.projects && p.id == node.projectId && p.rootNodeSha == node.commitSha)
    && (forall n | n in s.nodes && n.projectId == node.projectId :: !n.origin.Root?)
    && IsNewSha(s, node) && ContentIsSound(node, payload, at, integrity)
  }

  /** The Goal is one of the source's, and the source was not rejected. */
  predicate MayStart(s: ProjectState, run: Run, source: Node, goal: GoalValue) {
    && (forall r | r in s.runs :: r.id != run.id)
    && IsNodeAt(s, source, run.projectId, run.sourceNodeSha) && goal in source.plan.nextGoals && run.goalDigest.content == goal
    && run.branch == RunBranchName(run.projectId, run.sourceNodeSha, run.id)
  }

  ghost predicate MayCheckpoint(s: ProjectState, c: RunCheckpoint) {
    (exists run :: IsRunningRun(s, run, c.runId)) && forall run | run in s.runs :: forall d | d in run.checkpoints :: d.id != c.id
  }

  predicate MayAttach(s: ProjectState, e: EvidenceRef, run: Run) {
    && IsRunningRun(s, run, e.runId) && run.projectId == e.projectId && (forall d | d in s.evidence :: d.id != e.id)
    && (e.target.CriterionTarget? ==> e.target.criterion in run.goal.acceptanceCriteria)
  }

  /** Some evidence of the Run is aimed at each criterion of its Goal. */
  ghost predicate MayComplete(s: ProjectState, result: VerifiedRunResult, run: Run) {
    && IsRunningRun(s, run, result.runId) && run.branch == result.branch && run.sourceNodeSha != result.resultSha
    && forall criterion | criterion in run.goal.acceptanceCriteria ::
         exists e :: e in s.evidence && e.runId == run.id && e.target == CriterionTarget(criterion)
  }

  /** The child continues the Run's source with the Run's Goal taken out of the plan. */
  ghost predicate IsChildOf(node: Node, run: Run, source: Node) {
    && node.projectId == run.projectId && node.origin == RunChild(run.sourceNodeSha, run.id, run.goalDigest)
    && node.plan.schema == "hunsu.node-plan.v1" && node.plan.how == source.plan.how
    && exists k: nat :: k < |source.plan.nextGoals| && source.plan.nextGoals[k] == run.goalDigest.content
                   && node.plan.nextGoals == source.plan.nextGoals[..k] + source.plan.nextGoals[k + 1..]
  }

  ghost predicate MayReview(s: ProjectState, review: CoachReview, actor: DomainActor) {
    && actor.Coach? && (forall r | r in s.coachReviews :: r.id != review.id)
    && (exists p :: p in s.projects && p.id == review.projectId)
    && match review.target
       case NodeTarget(sha) => exists n :: IsNodeAt(s, n, review.projectId, sha)
       case RunReviewTarget(runId) => exists run :: run in s.runs && run.id == runId && run.projectId == review.projectId
       case ComparisonTarget(id) => exists c :: c in s.comparisons && c.id == id && c.projectId == review.projectId
  }

  /** The proposal was made for the plan its source has, which was not rejected, and changes it. */
  predicate MayPropose(s: ProjectState, proposal: CoachingProposal, actor: DomainActor, source: Node) {
    && actor.Coach? && (forall p | p in s.coachingProposals :: p.id != proposal.id)
    && IsNodeAt(s, source, proposal.projectId, proposal.sourceNodeSha)
    && proposal.sourcePayloadDigest.content == NodePayload(source.projectId, source.commitSha, source.treeSha, source.plan)
    && proposal.sourcePlanDigest.content == source.plan && PlanIsSound(proposal.proposedPlan)
    && proposal.proposedPlanDigest.content == proposal.proposedPlan != source.plan
  }

  predicate IsOpen(s: ProjectState, proposal: CoachingProposal, id: ProposalId, actor: DomainActor) {
    && actor.User? && proposal in s.coachingProposals && proposal.id == id
    && forall d | d in s.coachingProposalDecisions :: d.proposalId != id
  }

  /** The child has its parent's tree and the proposed plan. */
  predicate IsProposedChild(s: ProjectState, node: Node, proposal: CoachingProposal, source: Node) {
    && IsNodeAt(s, source, proposal.projectId, proposal.sourceNodeSha) && node.treeSha == source.treeSha
    && node.projectId == proposal.projectId && node.origin == CoachingChild(proposal.sourceNodeSha, proposal.id)
    && proposal.proposedPlanDigest.content == node.plan
  }

  /** Every finding speaks of each compared Node once. */
  predicate FindingsAreComplete(shas: seq<Sha>, findings: seq<ComparisonFinding>) {
    forall finding | finding in findings ::
      && |finding.summaries| == |shas|
      && (forall i, j | 0 <= i < j < |finding.summaries| :: finding.summaries[i].0 != finding.summaries[j].0)
      && forall sha | sha in shas :: exists i :: 0 <= i < |finding.summaries| && finding.summaries[i].0 == sha
  }

  predicate IsRunChildAt(s: ProjectState, n: Node, id: ProjectId, sha: Sha) {
    IsNodeAt(s, n, id, sha) && n.origin.RunChild?
  }

  ghost predicate MayCompare(s: ProjectState, c: AlternativeComparison) {
    && (forall d | d in s.comparisons :: d.id != c.id)
    && |c.nodeShas| >= 2 && (forall i, j | 0 <= i < j < |c.nodeShas| :: c.nodeShas[i] != c.nodeShas[j])
    && (forall sha | sha in c.nodeShas :: exists n :: IsRunChildAt(s, n, c.projectId, sha))
    && FindingsAreComplete(c.nodeShas, c.findings) && KindIsTrue(s, c)
    && forall d | d in s.comparisons && d.projectId == c.projectId && (exists sha :: sha in c.nodeShas && sha in d.nodeShas) :: d.kind == c.kind
  }

  /** What the compared Nodes have in common: their parent, or that one Goal was tried with different Runners. */
  ghost predicate KindIsTrue(s: ProjectState, c: AlternativeComparison) {
    match c.kind
    case SiblingRuns(parent) =>
      forall n, sha | sha in c.nodeShas && IsRunChildAt(s, n, c.projectId, sha) :: n.origin.parentSha == parent
    case CoachedHowExperiment(anchorSha, goalDigest) =>
      && (forall n, sha | sha in c.nodeShas && IsRunChildAt(s, n, c.projectId, sha) :: n.origin.consumedGoalDigest == goalDigest)
      && ParentsDiffer(s, c.projectId, c.nodeShas)
      && exists anchor :: IsNodeAt(s, anchor, c.projectId, anchorSha) && AllVariants(s, c.projectId, c.nodeShas, anchor)
  }

  /** The anchor itself, or a confirmed proposal to run the anchor's Goals on the anchor's tree in another way. */
  ghost predicate IsVariantOf(s: ProjectState, anchor: Node, source: Node) {
    && source.plan.nextGoals == anchor.plan.nextGoals
    && (source == anchor
        || (source.origin.CoachingChild? && source.origin.parentSha == anchor.commitSha && source.treeSha == anchor.treeSha
            && exists p :: p in s.coachingProposals && p.projectId == source.projectId && p.id == source.origin.proposalId
                           && p.proposedPlan == source.plan))
  }

  /** Different Nodes of the list have different parents. */
  ghost predicate ParentsDiffer(s: ProjectState, id: ProjectId, shas: seq<Sha>) {
    forall n, m, a, b | a in shas && b in shas && a != b && IsRunChildAt(s, n, id, a) && IsRunChildAt(s, m, id, b) ::
      n.origin.parentSha != m.origin.parentSha
  }

  /** All compared Runs started from such variants of the anchor. */
  ghost predicate AllVariants(s: ProjectState, id: ProjectId, shas: seq<Sha>, anchor: Node) {
    forall n, sha, source | sha in shas && IsRunChildAt(s, n, id, sha) && IsNodeAt(s, source, id, n.origin.parentSha) :: IsVariantOf(s, anchor, source)
  }

  ghost predicate MaySelect(s: ProjectState, d: AlternativeDecision, actor: DomainActor)
    requires d.Selection?
  {
    && actor.User? && IsNewDecision(s, d.id) && !IsRejected(s, d.projectId, d.selectedNodeSha)
    && exists c :: c in s.comparisons && c.projectId == d.projectId && c.id == d.comparisonId && d.selectedNodeSha in c.nodeShas
                   && forall e, x | e in s.decisions && e.Selection? && e.projectId == d.projectId
                                    && x in s.comparisons && x.projectId == d.projectId && x.id == e.comparisonId :: x.kind != c.kind
  }

  ghost predicate MayReject(s: ProjectState, d: AlternativeDecision, actor: DomainActor)
    requires d.Rejection?
  {
    && actor.User? && IsNewDecision(s, d.id)
    && (forall i, j | 0 <= i < j < |d.rejectedNodeShas| :: d.rejectedNodeShas[i] != d.rejectedNodeShas[j])
    && (forall sha | sha in d.rejectedNodeShas :: !IsRejected(s, d.projectId, sha) && !IsSelected(s, d.projectId, sha))
    && exists c :: c in s.comparisons && c.projectId == d.projectId && c.id == d.comparisonId
                   && forall sha | sha in d.rejectedNodeShas :: sha in c.nodeShas
  }

  // ------------------------------------------------ the checks are these rules

  lemma PlanRule(plan: NodePlan)
    ensures PlanIsValid(plan) <==> PlanIsSound(plan)
  {
    var keys, digests := GoalKeys(plan.nextGoals), GoalDigests(plan.nextGoals);
    if PlanIsValid(plan) {
      forall i, j | 0 <= i < j < |plan.nextGoals|
        ensures plan.nextGoals[i].key != plan.nextGoals[j].key && plan.nextGoals[i] != plan.nextGoals[j]
      {
        assert keys[i] != keys[j] && digests[i] != digests[j];
      }
    }
    if PlanIsSound(plan) {
      forall goal | goal in plan.nextGoals ensures goal.acceptanceCriteria != [] && Distinct(goal.acceptanceCriteria) {
        var i :| 0 <= i < |plan.nextGoals| && plan.nextGoals[i] == goal;
      }
    }
  }

  lemma ContentRule(node: Node, payload: NodePayloadEnvelope, at: Timestamp, integrity: IntegrityBoundary)
    ensures NodeContentIsValid(node, payload, at, integrity) <==> ContentIsSound(node, payload, at, integrity)
  {
    PlanRule(node.plan);
  }

  lemma NodeIsFound(s: ProjectState, n: Node, id: ProjectId, sha: Sha)
    requires TreeInv(s.projects, s.nodes)
    ensures FindNode(s.nodes, id, sha) == Ok(n) <==> IsNodeAt(s, n, id, sha)
  {
    var found := FindNode(s.nodes, id, sha);
    if IsNodeAt(s, n, id, sha) {
      var i :| 0 <= i < |s.nodes| && s.nodes[i] == n;
      var j :| 0 <= j < |s.nodes| && s.nodes[j] == found.value;
      assert i != j ==> !SameNode(s.nodes[i], s.nodes[j]);
    }
  }

  lemma RunIsFound(s: ProjectState, run: Run, id: RunId)
    requires forall i, j | 0 <= i < j < |s.runs| :: s.runs[i].id != s.runs[j].id
    ensures FindRun(s.runs, id) == Ok(run) <==> run in s.runs && run.id == id
    ensures FindRunningRun(s.runs, id) == Ok(run) <==> IsRunningRun(s, run, id)
  {
    var found := FindRun(s.runs, id);
    if run in s.runs && run.id == id {
      var i :| 0 <= i < |s.runs| && s.runs[i] == run;
      var j :| 0 <= j < |s.runs| && s.runs[j] == found.value;
    }
  }

  /** A Goal of a sound plan is the only one with its digest. */
  lemma OnlyGoal(plan: NodePlan, digest: Digest<GoalValue>)
    requires PlanIsValid(plan)
    ensures |MatchingGoals(plan, digest)| == 1 <==> digest.content in plan.nextGoals
    ensures digest.content in plan.nextGoals ==> MatchingGoals(plan, digest) == [digest.content]
  {
    var goals := plan.nextGoals;
    var p := (goal: GoalValue) => Digest(goal) == digest;
    if digest.content in goals {
      var k := PositionOf(plan, digest.content);
      FilterRange(goals, p, k, k + 1);
      assert goals[k..k + 1] == [digest.content];
    } else {
      FilterNone(goals, p);
    }
  }

  lemma PositionOf(plan: NodePlan, goal: GoalValue) returns (k: nat)
    requires PlanIsValid(plan) && goal in plan.nextGoals
    ensures k < |plan.nextGoals| && plan.nextGoals[k] == goal
    ensures forall i | 0 <= i < |plan.nextGoals| && plan.nextGoals[i] == goal :: i == k
  {
    k :| 0 <= k < |plan.nextGoals| && plan.nextGoals[k] == goal;
    forall i | 0 <= i < |plan.nextGoals| && plan.nextGoals[i] == goal ensures i == k {
      assert GoalDigests(plan.nextGoals)[i] == GoalDigests(plan.nextGoals)[k];
    }
  }

  lemma OneTakenOut(plan: NodePlan, goal: GoalValue, k: nat)
    requires PlanIsValid(plan) && k < |plan.nextGoals| && plan.nextGoals[k] == goal
    ensures Filter(plan.nextGoals, (g: GoalValue) => Digest(g) != Digest(goal)) == plan.nextGoals[..k] + plan.nextGoals[k + 1..]
  {
    var at := PositionOf(plan, goal);
    FilterAllBut(plan.nextGoals, (g: GoalValue) => Digest(g) != Digest(goal), k);
  }

  ghost predicate RunsDiffer(runs: seq<Run>) {
    forall i, j | 0 <= i < j < |runs| :: runs[i].id != runs[j].id
  }

  lemma CreationRule(s: ProjectState, project: Project, actor: DomainActor)
    ensures ValidateProjectEvent(s, project, actor).Ok? <==> MayCreate(s, project, actor)
  {
  }

  lemma RebuildRule(s: ProjectState, id: ProjectId, actor: DomainActor)
    ensures ValidateProjectRebuild(s, id, actor).Ok? <==> MayRebuild(s, id, actor)
  {
  }

  /** Below a registered parent a Node may be registered whose SHA is new and whose content is sound. */
  lemma ChildNodeRule(s: ProjectState, node: Node, payload: NodePayloadEnvelope, at: Timestamp, integrity: IntegrityBoundary, parent: Node)
    requires TreeInv(s.projects, s.nodes) && !node.origin.Root? && IsNodeAt(s, parent, node.projectId, node.origin.parentSha)
    ensures ValidateNewNode(s, node, payload, at, integrity).Ok? <==> IsNewSha(s, node) && ContentIsSound(node, payload, at, integrity)
  {
    assert HasProject(s.projects, parent.projectId);
    NodeIsFound(s, parent, node.projectId, node.origin.parentSha);
    ChildNodeChecks(s, node, payload, at, integrity, parent);
  }

  lemma ChildNodeChecks(s: ProjectState, node: Node, payload: NodePayloadEnvelope, at: Timestamp, integrity: IntegrityBoundary, parent: Node)
    requires HasProject(s.projects, node.projectId) && !node.origin.Root?
    requires FindNode(s.nodes, node.projectId, node.origin.parentSha) == Ok(parent)
    ensures ValidateNewNode(s, node, payload, at, integrity).Ok? <==> IsNewSha(s, node) && ContentIsSound(node, payload, at, integrity)
  {
    ContentRule(node, payload, at, integrity);
    if IsNewSha(s, node) {
      assert FindNode(s.nodes, node.projectId, node.commitSha).Err?;
    }
  }

  lemma RootNodeRule(s: ProjectState, node: RootNode, payload: NodePayloadEnvelope, project: Project, at: Timestamp, integrity: IntegrityBoundary)
    requires FindProject(s.projects, node.projectId) == Ok(project)
    ensures ValidateNewNode(s, node, payload, at, integrity).Ok? <==>
            && (forall n | n in s.nodes && n.projectId == node.projectId :: !n.origin.Root?) && node.commitSha == project.rootNodeSha
            && IsNewSha(s, node) && ContentIsSound(node, payload, at, integrity)
  {
    ContentRule(node, payload, at, integrity);
  }

  lemma CheckpointRule(s: ProjectState, c: RunCheckpoint)
    requires RunsDiffer(s.runs)
    ensures ValidateCheckpoint(s, c).Ok? <==> MayCheckpoint(s, c)
  {
    var found := FindRunningRun(s.runs, c.runId);
    if run :| IsRunningRun(s, run, c.runId) {
      RunIsFound(s, run, c.runId);
    } else if found.Ok? {
      RunIsFound(s, found.value, c.runId);
    }
  }

  lemma EvidenceRule(s: ProjectState, e: EvidenceRef)
    requires RunsDiffer(s.runs)
    ensures ValidateEvidence(s, e).Ok? <==> exists run :: MayAttach(s, e, run)
  {
    var found := FindRunningRun(s.runs, e.runId);
    if run :| MayAttach(s, e, run) {
      RunIsFound(s, run, e.runId);
    } else if found.Ok? {
      RunIsFound(s, found.value, e.runId);
      assert !MayAttach(s, e, found.value);
    }
  }

  lemma StopRule(s: ProjectState, id: RunId)
    requires RunsDiffer(s.runs)
    ensures FindRunningRun(s.runs, id).Ok? <==> exists run :: IsRunningRun(s, run, id)
  {
    var found := FindRunningRun(s.runs, id);
    if run :| IsRunningRun(s, run, id) {
      RunIsFound(s, run, id);
    } else if found.Ok? {
      RunIsFound(s, found.value, id);
    }
  }

  lemma {:induction false} RecordedEvidence(evidence: seq<EvidenceRef>, e: EvidenceRef)
    requires e in evidence
    ensures e.id in EvidenceIdsOf(evidence, e.runId)
  {
    var front, last := evidence[..|evidence| - 1], evidence[|evidence| - 1];
    assert evidence == front + [last];
    if e in front {
      RecordedEvidence(front, e);
    }
  }

  lemma CoverageRule(s: ProjectState, run: Run, criterion: string)
    requires run.evidenceIds == EvidenceIdsOf(s.evidence, run.id)
    ensures CriterionCovered(s.evidence, run, criterion) <==>
            exists e :: e in s.evidence && e.runId == run.id && e.target == CriterionTarget(criterion)
  {
    if e :| e in s.evidence && e.runId == run.id && e.target == CriterionTarget(criterion) {
      RecordedEvidence(s.evidence, e);
    }
  }

  lemma ResultOfRun(s: ProjectState, result: VerifiedRunResult, run: Run)
    requires RunInv(s.nodes, s.runs, s.evidence) && FindRunningRun(s.runs, result.runId) == Ok(run)
    ensures ValidateVerifiedRunResult(s, result).Ok? <==> MayComplete(s, result, run)
  {
    RunIsFound(s, run, result.runId);
    forall criterion | criterion in run.goal.acceptanceCriteria
      ensures CriterionCovered(s.evidence, run, criterion) <==>
              exists e :: e in s.evidence && e.runId == run.id && e.target == CriterionTarget(criterion)
    {
      CoverageRule(s, run, criterion);
    }
  }

  lemma ResultRule(s: ProjectState, result: VerifiedRunResult)
    requires RunInv(s.nodes, s.runs, s.evidence)
    ensures ValidateVerifiedRunResult(s, result).Ok? <==> exists run :: MayComplete(s, result, run)
    ensures ValidateVerifiedRunResult(s, result).Ok? ==> MayComplete(s, result, ValidateVerifiedRunResult(s, result).value)
  {
    var found := FindRunningRun(s.runs, result.runId);
    if run :| MayComplete(s, result, run) {
      RunIsFound(s, run, result.runId);
      ResultOfRun(s, result, run);
    } else if found.Ok? {
      ResultOfRun(s, result, found.value);
    }
  }

  /** A plan is inherited when it is the source's without the Goal. */
  lemma InheritanceRule(node: Node, source: Node, run: Run)
    requires PlanIsValid(source.plan)
    ensures (InheritRunChildPlan(source, run.goalDigest).Ok? && Digest(node.plan) == Digest(InheritRunChildPlan(source, run.goalDigest).value))
            <==> && node.plan.schema == "hunsu.node-plan.v1" && node.plan.how == source.plan.how
                 && exists k: nat :: k < |source.plan.nextGoals| && source.plan.nextGoals[k] == run.goalDigest.content
                                && node.plan.nextGoals == source.plan.nextGoals[..k] + source.plan.nextGoals[k + 1..]
  {
    OnlyGoal(source.plan, run.goalDigest);
    forall k: nat | k < |source.plan.nextGoals| && source.plan.nextGoals[k] == run.goalDigest.content
      ensures Filter(source.plan.nextGoals, (g: GoalValue) => Digest(g) != run.goalDigest)
              == source.plan.nextGoals[..k] + source.plan.nextGoals[k + 1..]
    {
      OneTakenOut(source.plan, run.goalDigest.content, k);
    }
    if run.goalDigest.content in source.plan.nextGoals {
      var k := PositionOf(source.plan, run.goalDigest.content);
    }
  }

  lemma RunChildRule(s: ProjectState, run: Run, node: RunChildNode, payload: NodePayloadEnvelope, at: Timestamp, integrity: IntegrityBoundary, source: Node)
    requires TreeInv(s.projects, s.nodes) && IsNodeAt(s, source, run.projectId, run.sourceNodeSha)
    ensures ValidateRunChildNode(s, run, node, payload, at, integrity).Ok? <==>
            && (run.status.Completed? ==> run.status.resultNodeSha == node.commitSha)
            && IsChildOf(node, run, source) && IsNewSha(s, node) && ContentIsSound(node, payload, at, integrity)
  {
    NodeIsFound(s, source, run.projectId, run.sourceNodeSha);
    assert NodeIsConsistent(source);
    InheritanceRule(node, source, run);
    if node.projectId == run.projectId && node.origin == RunChild(run.sourceNodeSha, run.id, run.goalDigest) {
      ChildNodeRule(s, node, payload, at, integrity, source);
    }
  }

  lemma ReviewRule(s: ProjectState, review: CoachReview, actor: DomainActor)
    requires RunsDiffer(s.runs) && forall i, j | 0 <= i < j < |s.comparisons| :: s.comparisons[i].id != s.comparisons[j].id
    ensures ValidateCoachReview(s, review, actor).Ok? <==> MayReview(s, review, actor)
  {
    match review.target
    case NodeTarget(sha) =>
      var found := FindNode(s.nodes, review.projectId, sha);
      assert found.Ok? ==> IsNodeAt(s, found.value, review.projectId, sha);
    case RunReviewTarget(runId) =>
      if run :| run in s.runs && run.id == runId && run.projectId == review.projectId {
        RunIsFound(s, run, runId);
      }
    case ComparisonTarget(id) =>
      if c :| c in s.comparisons && c.id == id && c.projectId == review.projectId {
        ComparisonIsFound(s.comparisons, c);
      }
  }

  lemma ComparisonIsFound(comparisons: seq<AlternativeComparison>, c: AlternativeComparison)
    requires c in comparisons && forall i, j | 0 <= i < j < |comparisons| :: comparisons[i].id != comparisons[j].id
    ensures First(comparisons, (d: AlternativeComparison) => d.id == c.id) == Some(c)
    ensures FindComparison(comparisons, c.projectId, c.id) == Some(c)
  {
    var i :| 0 <= i < |comparisons| && comparisons[i] == c;
    var a := First(comparisons, (d: AlternativeComparison) => d.id == c.id);
    var j :| 0 <= j < |comparisons| && comparisons[j] == a.value;
    var b := FindComparison(comparisons, c.projectId, c.id);
    var k :| 0 <= k < |comparisons| && comparisons[k] == b.value;
  }

  lemma ProposalOfSource(s: ProjectState, proposal: CoachingProposal, actor: DomainActor, source: Node)
    requires TreeInv(s.projects, s.nodes) && FindNode(s.nodes, proposal.projectId, proposal.sourceNodeSha) == Ok(source)
    ensures ValidateCoachingProposal(s, proposal, actor).Ok? <==>
            MayPropose(s, proposal, actor, source) && !IsRejected(s, proposal.projectId, proposal.sourceNodeSha)
  {
    assert NodeIsConsistent(source);
    PlanRule(proposal.proposedPlan);
  }

  lemma ProposalRule(s: ProjectState, proposal: CoachingProposal, actor: DomainActor)
    requires TreeInv(s.projects, s.nodes)
    ensures ValidateCoachingProposal(s, proposal, actor).Ok? <==>
            !IsRejected(s, proposal.projectId, proposal.sourceNodeSha) && exists source :: MayPropose(s, proposal, actor, source)
  {
    var found := FindNode(s.nodes, proposal.projectId, proposal.sourceNodeSha);
    if source :| MayPropose(s, proposal, actor, source) {
      NodeIsFound(s, source, proposal.projectId, proposal.sourceNodeSha);
      ProposalOfSource(s, proposal, actor, source);
    } else if found.Ok? {
      ProposalOfSource(s, proposal, actor, found.value);
    }
  }

  ghost predicate ProposalsDiffer(proposals: seq<CoachingProposal>) {
    forall i, j | 0 <= i < j < |proposals| :: proposals[i].id != proposals[j].id
  }

  lemma ProposalIsFound(proposals: seq<CoachingProposal>, p: CoachingProposal)
    requires ProposalsDiffer(proposals) && p in proposals
    ensures FindProposal(proposals, p.id) == Some(p)
  {
    var i :| 0 <= i < |proposals| && proposals[i] == p;
    var j :| 0 <= j < |proposals| && proposals[j] == FindProposal(proposals, p.id).value;
  }

  lemma OpenRule(s: ProjectState, p: CoachingProposal, id: ProposalId, actor: DomainActor)
    requires ProposalsDiffer(s.coachingProposals)
    ensures FindOpenCoachingProposal(s, id, actor) == Ok(p) <==> IsOpen(s, p, id, actor)
    ensures FindConfirmableCoachingProposal(s, id, actor) == Ok(p) <==> IsOpen(s, p, id, actor) && !IsRejected(s, p.projectId, p.sourceNodeSha)
  {
    if p in s.coachingProposals {
      ProposalIsFound(s.coachingProposals, p);
    }
  }

  lemma DecisionIdRule(s: ProjectState, id: DecisionId)
    ensures ValidateDecisionId(s, id).Ok? <==> IsNewDecision(s, id)
  {
  }

  lemma CoachingChildRule(s: ProjectState, p: CoachingProposal, node: CoachingChildNode, payload: NodePayloadEnvelope, at: Timestamp,
                          integrity: IntegrityBoundary)
    requires TreeInv(s.projects, s.nodes)
    ensures ValidateCoachingChild(s, p, node, payload, at, integrity).Ok? <==>
            && (exists source :: IsProposedChild(s, node, p, source)) && IsNewSha(s, node) && ContentIsSound(node, payload, at, integrity)
  {
    var found := FindNode(s.nodes, p.projectId, p.sourceNodeSha);
    if found.Ok? {
      NodeIsFound(s, found.value, p.projectId, p.sourceNodeSha);
      CoachingChildOfSource(s, p, node, payload, at, integrity, found.value);
    }
    if source :| IsProposedChild(s, node, p, source) {
      NodeIsFound(s, source, p.projectId, p.sourceNodeSha);
    }
  }

  lemma CoachingChildOfSource(s: ProjectState, p: CoachingProposal, node: CoachingChildNode, payload: NodePayloadEnvelope, at: Timestamp,
                              integrity: IntegrityBoundary, source: Node)
    requires TreeInv(s.projects, s.nodes) && FindNode(s.nodes, p.projectId, p.sourceNodeSha) == Ok(source)
    ensures ValidateCoachingChild(s, p, node, payload, at, integrity).Ok? <==>
            && IsProposedChild(s, node, p, source) && IsNewSha(s, node) && ContentIsSound(node, payload, at, integrity)
  {
    ProposedChildChecks(s, p, node, payload, at, integrity, source);
    if node.projectId == p.projectId && node.origin == CoachingChild(p.sourceNodeSha, p.id) {
      ChildNodeRule(s, node, payload, at, integrity, source);
    }
  }

  lemma ProposedChildChecks(s: ProjectState, p: CoachingProposal, node: CoachingChildNode, payload: NodePayloadEnvelope, at: Timestamp,
                            integrity: IntegrityBoundary, source: Node)
    requires FindNode(s.nodes, p.projectId, p.sourceNodeSha) == Ok(source)
    ensures ValidateCoachingChild(s, p, node, payload, at, integrity).Ok? <==>
            IsProposedChild(s, node, p, source) && ValidateNewNode(s, node, payload, at, integrity).Ok?
  {
  }

  // ------------------------------------------------------- comparing alternatives

  /** In a settled or half-finished state every Run child stands for a completed Run of its parent, bound to the parent's plan. */
  lemma CandidateOfChild(s: ProjectState, n: Node, id: ProjectId, sha: Sha, pending: Pending) returns (c: Candidate)
    requires TreeInv(s.projects, s.nodes) && RunInv(s.nodes, s.runs, s.evidence) && RunChildrenInv(s.nodes, s.runs, pending)
    requires IsRunChildAt(s, n, id, sha)
    ensures ResolveCandidate(s, id, sha) == Ok(c) && c.node == n && c.run.goalDigest == n.origin.consumedGoalDigest
    ensures IsNodeAt(s, c.source, id, n.origin.parentSha)
  {
    NodeIsFound(s, n, id, sha);
    var run :| run in s.runs && ChildOfRun(n, run);
    RunIsFound(s, run, n.origin.runId);
    var source := SourceOfRun(s, run);
    c := Candidate(n, run, source);
  }

  lemma SourceOfRun(s: ProjectState, run: Run) returns (source: Node)
    requires TreeInv(s.projects, s.nodes) && RunInv(s.nodes, s.runs, s.evidence) && run in s.runs
    ensures IsNodeAt(s, source, run.projectId, run.sourceNodeSha) && FindNode(s.nodes, run.projectId, run.sourceNodeSha) == Ok(source)
    ensures |MatchingGoals(source.plan, run.goalDigest)| == 1 && Digest(run.goal) == run.goalDigest
    ensures run.runnerDigest == Digest(run.runner) == Digest(source.plan.how)
  {
    assert BoundToSource(s.nodes, run);
    source :| source in s.nodes && source.projectId == run.projectId && source.commitSha == run.sourceNodeSha
              && |MatchingGoals(source.plan, run.goalDigest)| == 1
              && run.goalDigest == Digest(run.goal)
              && run.runnerDigest == Digest(run.runner) && run.runner == source.plan.how;
    NodeIsFound(s, source, run.projectId, run.sourceNodeSha);
  }

  lemma CandidateIsChild(s: ProjectState, id: ProjectId, sha: Sha)
    requires ResolveCandidate(s, id, sha).Ok?
    ensures IsRunChildAt(s, ResolveCandidate(s, id, sha).value.node, id, sha)
  {
  }

  ghost predicate IsCandidate(s: ProjectState, id: ProjectId, sha: Sha, c: Candidate) {
    && IsRunChildAt(s, c.node, id, sha) && c.run.goalDigest == c.node.origin.consumedGoalDigest
    && IsNodeAt(s, c.source, id, c.node.origin.parentSha)
  }

  ghost predicate IsResolvedRightly(s: ProjectState, id: ProjectId, sha: Sha) {
    match ResolveCandidate(s, id, sha)
    case Ok(c) => IsCandidate(s, id, sha, c)
    case Err(_) => forall n :: !IsRunChildAt(s, n, id, sha)
  }

  lemma CandidateRule(s: ProjectState, id: ProjectId, sha: Sha, pending: Pending)
    requires TreeInv(s.projects, s.nodes) && RunInv(s.nodes, s.runs, s.evidence) && RunChildrenInv(s.nodes, s.runs, pending)
    ensures IsResolvedRightly(s, id, sha)
  {
    var resolved := ResolveCandidate(s, id, sha);
    if resolved.Ok? {
      CandidateIsChild(s, id, sha);
      var c := CandidateOfChild(s, resolved.value.node, id, sha, pending);
    } else {
      forall n ensures !IsRunChildAt(s, n, id, sha) {
        if IsRunChildAt(s, n, id, sha) {
          var c := CandidateOfChild(s, n, id, sha, pending);
        }
      }
    }
  }

  /** The candidates are the compared Nodes in order, each with its Run and the Run's source. */
  ghost predicate AreCandidates(s: ProjectState, id: ProjectId, shas: seq<Sha>, candidates: seq<Candidate>) {
    |candidates| == |shas| && forall i | 0 <= i < |shas| :: IsCandidate(s, id, shas[i], candidates[i])
  }

  ghost predicate AreRunChildren(s: ProjectState, id: ProjectId, shas: seq<Sha>) {
    forall sha | sha in shas :: exists n :: IsRunChildAt(s, n, id, sha)
  }

  lemma OneMoreChild(s: ProjectState, id: ProjectId, shas: seq<Sha>, sha: Sha)
    ensures AreRunChildren(s, id, shas + [sha]) <==> AreRunChildren(s, id, shas) && exists n :: IsRunChildAt(s, n, id, sha)
  {
    if AreRunChildren(s, id, shas + [sha]) {
      assert sha in shas + [sha];
      forall x | x in shas ensures exists n :: IsRunChildAt(s, n, id, x) {
        assert x in shas + [sha];
      }
    }
  }

  lemma OneMoreCandidate(s: ProjectState, id: ProjectId, shas: seq<Sha>, sha: Sha, candidates: seq<Candidate>, c: Candidate)
    requires AreCandidates(s, id, shas, candidates) && IsCandidate(s, id, sha, c)
    ensures AreCandidates(s, id, shas + [sha], candidates + [c])
  {
  }

  lemma {:induction false} CandidatesRule(s: ProjectState, id: ProjectId, shas: seq<Sha>)
    requires forall sha {:trigger IsResolvedRightly(s, id, sha)} | sha in shas :: IsResolvedRightly(s, id, sha)
    ensures ResolveCandidates(s, id, shas).Ok? <==> AreRunChildren(s, id, shas)
    ensures ResolveCandidates(s, id, shas).Ok? ==> AreCandidates(s, id, shas, ResolveCandidates(s, id, shas).value)
  {
    if shas != [] {
      var k := |shas| - 1;
      var front, last := shas[..k], shas[k];
      assert shas == front + [last];
      CandidatesRule(s, id, front);
      assert IsResolvedRightly(s, id, last);
      OneMoreChild(s, id, front, last);
      var rest, c := ResolveCandidates(s, id, front), ResolveCandidate(s, id, last);
      if rest.Ok? && c.Ok? {
        OneMoreCandidate(s, id, front, last, rest.value, c.value);
      }
    }
  }

  lemma ResolvedRule(s: ProjectState, id: ProjectId, shas: seq<Sha>, pending: Pending)
    requires TreeInv(s.projects, s.nodes) && RunInv(s.nodes, s.runs, s.evidence) && RunChildrenInv(s.nodes, s.runs, pending)
    ensures IsListResolvedRightly(s, id, shas)
  {
    forall sha | sha in shas ensures IsResolvedRightly(s, id, sha) {
      CandidateRule(s, id, sha, pending);
    }
    ListRule(s, id, shas);
  }

  ghost predicate IsListResolvedRightly(s: ProjectState, id: ProjectId, shas: seq<Sha>) {
    match ResolveCompletedRunCandidates(s, id, shas)
    case Ok(candidates) => |shas| >= 2 && Distinct(shas) && AreCandidates(s, id, shas, candidates)
    case Err(_) => !(|shas| >= 2 && Distinct(shas) && AreRunChildren(s, id, shas))
  }

  lemma ListRule(s: ProjectState, id: ProjectId, shas: seq<Sha>)
    requires forall sha {:trigger IsResolvedRightly(s, id, sha)} | sha in shas :: IsResolvedRightly(s, id, sha)
    ensures IsListResolvedRightly(s, id, shas)
  {
    CandidatesRule(s, id, shas);
  }

  lemma FindingsRule(shas: seq<Sha>, findings: seq<ComparisonFinding>)
    ensures ValidateComparisonFindings(shas, findings).Ok? <==> FindingsAreComplete(shas, findings)
  {
    forall finding | finding in findings
      ensures Distinct(SummaryShas(finding)) <==> forall i, j | 0 <= i < j < |finding.summaries| :: finding.summaries[i].0 != finding.summaries[j].0
      ensures forall sha :: sha in SummaryShas(finding) <==> exists i :: 0 <= i < |finding.summaries| && finding.summaries[i].0 == sha
    {
      OneFindingRule(finding);
    }
  }

  lemma OneFindingRule(finding: ComparisonFinding)
    ensures Distinct(SummaryShas(finding)) <==> forall i, j | 0 <= i < j < |finding.summaries| :: finding.summaries[i].0 != finding.summaries[j].0
    ensures forall sha :: sha in SummaryShas(finding) <==> exists i :: 0 <= i < |finding.summaries| && finding.summaries[i].0 == sha
  {
    var shas := SummaryShas(finding);
    if Distinct(shas) {
      forall i, j | 0 <= i < j < |finding.summaries| ensures finding.summaries[i].0 != finding.summaries[j].0 {
        assert shas[i] != shas[j];
      }
    }
    forall sha | exists i :: 0 <= i < |finding.summaries| && finding.summaries[i].0 == sha ensures sha in shas {
      var i :| 0 <= i < |finding.summaries| && finding.summaries[i].0 == sha;
      assert shas[i] == sha;
    }
  }

  lemma CohortRule(s: ProjectState, c: AlternativeComparison)
    ensures ValidateComparisonCohortOverlap(s.comparisons, c).Ok? <==>
            forall d | d in s.comparisons && d.projectId == c.projectId && (exists sha :: sha in c.nodeShas && sha in d.nodeShas) :: d.kind == c.kind
  {
    forall d | d in s.comparisons && d.projectId == c.projectId
      ensures ComparisonCohortKey(d) == ComparisonCohortKey(c) <==> d.kind == c.kind
      ensures Overlap(d, c) <==> exists sha :: sha in c.nodeShas && sha in d.nodeShas
    {
    }
  }

  lemma SiblingRule(s: ProjectState, id: ProjectId, shas: seq<Sha>, candidates: seq<Candidate>, parent: Sha)
    requires TreeInv(s.projects, s.nodes) && AreCandidates(s, id, shas, candidates)
    ensures (forall c | c in candidates :: c.node.origin.parentSha == parent) <==>
            forall n, sha | sha in shas && IsRunChildAt(s, n, id, sha) :: n.origin.parentSha == parent
  {
    forall n, sha | sha in shas && IsRunChildAt(s, n, id, sha) ensures exists c :: c in candidates && c.node == n {
      var i := CandidateAt(s, id, shas, candidates, n, sha);
    }
    forall c | c in candidates ensures exists sha :: sha in shas && IsRunChildAt(s, c.node, id, sha) {
      var i :| 0 <= i < |candidates| && candidates[i] == c;
      assert shas[i] in shas;
    }
  }

  lemma CandidateAt(s: ProjectState, id: ProjectId, shas: seq<Sha>, candidates: seq<Candidate>, n: Node, sha: Sha) returns (i: nat)
    requires TreeInv(s.projects, s.nodes) && AreCandidates(s, id, shas, candidates) && sha in shas && IsRunChildAt(s, n, id, sha)
    ensures i < |candidates| && shas[i] == sha && candidates[i].node == n && candidates[i] in candidates
  {
    i :| 0 <= i < |shas| && shas[i] == sha;
    NodeIsFound(s, n, id, sha);
    NodeIsFound(s, candidates[i].node, id, sha);
  }

  /** The confirmed proposal behind a coaching child. */
  lemma ProposalOfChild(s: ProjectState, n: Node, pending: Pending) returns (p: CoachingProposal, d: ProposalDecision)
    requires CoachingInv(s.nodes, s.coachingProposals, s.coachingProposalDecisions, pending) && n in s.nodes && n.origin.CoachingChild?
    ensures p in s.coachingProposals && d in s.coachingProposalDecisions && ChildOfProposal(n, p, d)
    ensures First(s.coachingProposals, (q: CoachingProposal) => q.projectId == n.projectId && q.id == n.origin.proposalId) == Some(p)
    ensures forall q | q in s.coachingProposals && q.id == n.origin.proposalId :: q == p
  {
    p, d :| p in s.coachingProposals && d in s.coachingProposalDecisions && ChildOfProposal(n, p, d);
    OnlyProposal(s.coachingProposals, p);
  }

  lemma OnlyProposal(proposals: seq<CoachingProposal>, p: CoachingProposal)
    requires ProposalsDiffer(proposals) && p in proposals
    ensures forall q | q in proposals && q.id == p.id :: q == p
  {
    forall q | q in proposals && q.id == p.id ensures q == p {
      var i :| 0 <= i < |proposals| && proposals[i] == p;
      var j :| 0 <= j < |proposals| && proposals[j] == q;
    }
  }

  lemma VariantRule(s: ProjectState, id: ProjectId, anchor: Node, source: Node, pending: Pending)
    requires TreeInv(s.projects, s.nodes) && CoachingInv(s.nodes, s.coachingProposals, s.coachingProposalDecisions, pending)
    requires IsNodeAt(s, anchor, id, anchor.commitSha) && IsNodeAt(s, source, id, source.commitSha)
    ensures ExperimentSourceIsValid(s, id, anchor, source) <==> IsVariantOf(s, anchor, source)
  {
    NodeIsFound(s, anchor, id, anchor.commitSha);
    NodeIsFound(s, source, id, anchor.commitSha);
    assert NodeIsConsistent(anchor) && NodeIsConsistent(source);
    if source.origin.CoachingChild? {
      var p, d := ProposalOfChild(s, source, pending);
      ConfirmedSourceRule(s, id, anchor, source, p, d);
    }
  }

  lemma ConfirmedSourceRule(s: ProjectState, id: ProjectId, anchor: Node, source: Node, p: CoachingProposal, d: ProposalDecision)
    requires source.origin.CoachingChild? && source.projectId == id && source.planDigest == Digest(source.plan)
    requires p in s.coachingProposals && d in s.coachingProposalDecisions && ChildOfProposal(source, p, d)
    requires First(s.coachingProposals, (q: CoachingProposal) => q.projectId == source.projectId && q.id == source.origin.proposalId) == Some(p)
    requires forall q | q in s.coachingProposals && q.id == source.origin.proposalId :: q == p
    ensures ConfirmedExperimentSource(s, id, anchor, source) <==>
            && source.origin.parentSha == anchor.commitSha && source.treeSha == anchor.treeSha
            && exists q :: q in s.coachingProposals && q.projectId == source.projectId && q.id == source.origin.proposalId && q.proposedPlan == source.plan
  {
  }

  lemma GoalsRule(s: ProjectState, id: ProjectId, shas: seq<Sha>, candidates: seq<Candidate>, goalDigest: Digest<GoalValue>)
    requires TreeInv(s.projects, s.nodes) && AreCandidates(s, id, shas, candidates)
    ensures (forall c | c in candidates :: c.run.goalDigest == goalDigest) <==>
            forall n, sha | sha in shas && IsRunChildAt(s, n, id, sha) :: n.origin.consumedGoalDigest == goalDigest
  {
    forall n, sha | sha in shas && IsRunChildAt(s, n, id, sha)
      ensures exists c :: c in candidates && c.node == n && c.run.goalDigest == n.origin.consumedGoalDigest
    {
      var i := CandidateAt(s, id, shas, candidates, n, sha);
      assert IsCandidate(s, id, shas[i], candidates[i]);
    }
    forall c | c in candidates
      ensures c.run.goalDigest == c.node.origin.consumedGoalDigest && exists sha :: sha in shas && IsRunChildAt(s, c.node, id, sha)
    {
      var i :| 0 <= i < |candidates| && candidates[i] == c;
      assert shas[i] in shas && IsCandidate(s, id, shas[i], candidates[i]);
    }
  }

  lemma SourcesAreParents(s: ProjectState, id: ProjectId, shas: seq<Sha>, candidates: seq<Candidate>)
    requires AreCandidates(s, id, shas, candidates)
    ensures forall i | 0 <= i < |shas| :: IsRunChildAt(s, candidates[i].node, id, shas[i])
                                          && CandidateSources(candidates)[i] == candidates[i].node.origin.parentSha
  {
    forall i | 0 <= i < |shas|
      ensures IsRunChildAt(s, candidates[i].node, id, shas[i]) && CandidateSources(candidates)[i] == candidates[i].node.origin.parentSha
    {
      assert IsCandidate(s, id, shas[i], candidates[i]);
    }
  }

  lemma SourcesRule(s: ProjectState, id: ProjectId, shas: seq<Sha>, candidates: seq<Candidate>)
    requires TreeInv(s.projects, s.nodes) && AreCandidates(s, id, shas, candidates) && Distinct(shas)
    ensures Distinct(CandidateSources(candidates)) <==> ParentsDiffer(s, id, shas)
  {
    SourcesAreParents(s, id, shas, candidates);
    if Distinct(CandidateSources(candidates)) {
      forall n, m, a, b | a in shas && b in shas && a != b && IsRunChildAt(s, n, id, a) && IsRunChildAt(s, m, id, b)
        ensures n.origin.parentSha != m.origin.parentSha
      {
        var i := CandidateAt(s, id, shas, candidates, n, a);
        var j := CandidateAt(s, id, shas, candidates, m, b);
        assert CandidateSources(candidates)[i] != CandidateSources(candidates)[j];
      }
    } else {
      SharedSource(s, id, shas, candidates);
    }
  }

  lemma SharedSource(s: ProjectState, id: ProjectId, shas: seq<Sha>, candidates: seq<Candidate>)
    requires |candidates| == |shas| && Distinct(shas) && !Distinct(CandidateSources(candidates))
    requires forall i | 0 <= i < |shas| :: IsRunChildAt(s, candidates[i].node, id, shas[i])
                                           && CandidateSources(candidates)[i] == candidates[i].node.origin.parentSha
    ensures !ParentsDiffer(s, id, shas)
  {
    var i, j :| 0 <= i < j < |shas| && CandidateSources(candidates)[i] == CandidateSources(candidates)[j];
    assert shas[i] in shas && shas[j] in shas && shas[i] != shas[j];
  }

  lemma VariantsRule(s: ProjectState, id: ProjectId, shas: seq<Sha>, candidates: seq<Candidate>, anchor: Node, pending: Pending)
    requires TreeInv(s.projects, s.nodes) && CoachingInv(s.nodes, s.coachingProposals, s.coachingProposalDecisions, pending)
    requires AreCandidates(s, id, shas, candidates) && IsNodeAt(s, anchor, id, anchor.commitSha)
    ensures (forall c | c in candidates :: ExperimentSourceIsValid(s, id, anchor, c.source)) <==> AllVariants(s, id, shas, anchor)
  {
    forall c | c in candidates
      ensures ExperimentSourceIsValid(s, id, anchor, c.source) <==> IsVariantOf(s, anchor, c.source)
      ensures exists sha :: sha in shas && IsRunChildAt(s, c.node, id, sha) && IsNodeAt(s, c.source, id, c.node.origin.parentSha)
    {
      var i :| 0 <= i < |candidates| && candidates[i] == c;
      assert shas[i] in shas && IsCandidate(s, id, shas[i], candidates[i]);
      VariantRule(s, id, anchor, c.source, pending);
    }
    forall n, sha, source | sha in shas && IsRunChildAt(s, n, id, sha) && IsNodeAt(s, source, id, n.origin.parentSha)
      ensures exists c :: c in candidates && c.source == source
    {
      var i := CandidateAt(s, id, shas, candidates, n, sha);
      assert IsCandidate(s, id, shas[i], candidates[i]);
      NodeIsFound(s, source, id, n.origin.parentSha);
      NodeIsFound(s, candidates[i].source, id, n.origin.parentSha);
    }
  }

  lemma ExperimentRule(s: ProjectState, id: ProjectId, shas: seq<Sha>, candidates: seq<Candidate>, anchorSha: Sha, goalDigest: Digest<GoalValue>,
                       pending: Pending)
    requires TreeInv(s.projects, s.nodes) && CoachingInv(s.nodes, s.coachingProposals, s.coachingProposalDecisions, pending)
    requires AreCandidates(s, id, shas, candidates) && Distinct(shas) && candidates != []
    ensures ValidateCoachedHowExperimentCandidates(s, id, anchorSha, candidates) == Ok(goalDigest) <==>
            && (forall c | c in candidates :: c.run.goalDigest == goalDigest) && ParentsDiffer(s, id, shas)
            && exists anchor :: IsNodeAt(s, anchor, id, anchorSha) && AllVariants(s, id, shas, anchor)
  {
    var found := FindNode(s.nodes, id, anchorSha);
    SourcesRule(s, id, shas, candidates);
    if found.Ok? {
      NodeIsFound(s, found.value, id, anchorSha);
      VariantsRule(s, id, shas, candidates, found.value, pending);
      ExperimentAt(s, id, shas, candidates, anchorSha, goalDigest, found.value);
    }
    if anchor :| IsNodeAt(s, anchor, id, anchorSha) && AllVariants(s, id, shas, anchor) {
      NodeIsFound(s, anchor, id, anchorSha);
    }
  }

  lemma ExperimentAt(s: ProjectState, id: ProjectId, shas: seq<Sha>, candidates: seq<Candidate>, anchorSha: Sha, goalDigest: Digest<GoalValue>,
                     anchor: Node)
    requires FindNode(s.nodes, id, anchorSha) == Ok(anchor) && candidates != [] && NodeIsConsistent(anchor)
    ensures ValidateCoachedHowExperimentCandidates(s, id, anchorSha, candidates) == Ok(goalDigest) <==>
            && (forall c | c in candidates :: c.run.goalDigest == goalDigest) && Distinct(CandidateSources(candidates))
            && forall c | c in candidates :: ExperimentSourceIsValid(s, id, anchor, c.source)
  {
    assert candidates[0] in candidates;
  }

  lemma KindRule(s: ProjectState, c: AlternativeComparison, candidates: seq<Candidate>, pending: Pending)
    requires TreeInv(s.projects, s.nodes) && CoachingInv(s.nodes, s.coachingProposals, s.coachingProposalDecisions, pending)
    requires AreCandidates(s, c.projectId, c.nodeShas, candidates) && Distinct(c.nodeShas) && candidates != []
    ensures KindIsTrue(s, c) <==>
            match c.kind
            case SiblingRuns(parent) => forall d | d in candidates :: d.node.origin.parentSha == parent
            case CoachedHowExperiment(anchorSha, goalDigest) =>
              ValidateCoachedHowExperimentCandidates(s, c.projectId, anchorSha, candidates) == Ok(goalDigest)
  {
    match c.kind
    case SiblingRuns(parent) => SiblingRule(s, c.projectId, c.nodeShas, candidates, parent);
    case CoachedHowExperiment(anchorSha, goalDigest) =>
      GoalsRule(s, c.projectId, c.nodeShas, candidates, goalDigest);
      ExperimentRule(s, c.projectId, c.nodeShas, candidates, anchorSha, goalDigest, pending);
  }

  lemma ComparisonChecks(s: ProjectState, c: AlternativeComparison, candidates: seq<Candidate>)
    requires ResolveCompletedRunCandidates(s, c.projectId, c.nodeShas) == Ok(candidates)
    ensures ValidateComparison(s, c).Ok? <==>
            && (forall d | d in s.comparisons :: d.id != c.id) && ValidateComparisonFindings(c.nodeShas, c.findings).Ok?
            && (match c.kind
                case SiblingRuns(parent) => forall d | d in candidates :: d.node.origin.parentSha == parent
                case CoachedHowExperiment(anchorSha, goalDigest) =>
                  ValidateCoachedHowExperimentCandidates(s, c.projectId, anchorSha, candidates) == Ok(goalDigest))
            && ValidateComparisonCohortOverlap(s.comparisons, c).Ok?
  {
  }

  lemma ComparisonRule(s: ProjectState, c: AlternativeComparison, pending: Pending)
    requires TreeInv(s.projects, s.nodes) && RunInv(s.nodes, s.runs, s.evidence) && RunChildrenInv(s.nodes, s.runs, pending)
    requires CoachingInv(s.nodes, s.coachingProposals, s.coachingProposalDecisions, pending)
    ensures ValidateComparison(s, c).Ok? <==> MayCompare(s, c)
  {
    ResolvedRule(s, c.projectId, c.nodeShas, pending);
    var resolved := ResolveCompletedRunCandidates(s, c.projectId, c.nodeShas);
    if resolved.Ok? {
      KindRule(s, c, resolved.value, pending);
      ComparisonParts(s, c, resolved.value);
    } else {
      UnresolvedComparison(s, c);
    }
  }

  lemma ComparisonParts(s: ProjectState, c: AlternativeComparison, candidates: seq<Candidate>)
    requires ResolveCompletedRunCandidates(s, c.projectId, c.nodeShas) == Ok(candidates) && IsListResolvedRightly(s, c.projectId, c.nodeShas)
    requires KindIsTrue(s, c) <==>
             match c.kind
             case SiblingRuns(parent) => forall d | d in candidates :: d.node.origin.parentSha == parent
             case CoachedHowExperiment(anchorSha, goalDigest) =>
               ValidateCoachedHowExperimentCandidates(s, c.projectId, anchorSha, candidates) == Ok(goalDigest)
    ensures ValidateComparison(s, c).Ok? <==> MayCompare(s, c)
  {
    ComparisonChecks(s, c, candidates);
    FindingsRule(c.nodeShas, c.findings);
    CohortRule(s, c);
    CandidatesAreChildren(s, c.projectId, c.nodeShas, candidates);
  }

  lemma CandidatesAreChildren(s: ProjectState, id: ProjectId, shas: seq<Sha>, candidates: seq<Candidate>)
    requires AreCandidates(s, id, shas, candidates)
    ensures forall sha | sha in shas :: exists n :: IsRunChildAt(s, n, id, sha)
  {
    forall sha | sha in shas ensures exists n :: IsRunChildAt(s, n, id, sha) {
      var i :| 0 <= i < |shas| && shas[i] == sha;
      assert IsCandidate(s, id, shas[i], candidates[i]);
    }
  }

  lemma UnresolvedComparison(s: ProjectState, c: AlternativeComparison)
    requires ResolveCompletedRunCandidates(s, c.projectId, c.nodeShas).Err? && IsListResolvedRightly(s, c.projectId, c.nodeShas)
    ensures ValidateComparison(s, c).Err? && !MayCompare(s, c)
  {
  }

  // ------------------------------------------------------------------- judging

  lemma SelectionAt(s: ProjectState, d: SelectionDecision, actor: DomainActor, c: AlternativeComparison)
    requires FindComparison(s.comparisons, d.projectId, d.comparisonId) == Some(c)
    ensures ValidateSelectionDecision(s, d, actor).Ok? <==>
            && actor.User? && IsNewDecision(s, d.id) && d.selectedNodeSha in c.nodeShas && !IsRejected(s, d.projectId, d.selectedNodeSha)
            && !CohortHasSelection(s, d.projectId, ComparisonCohortKey(c))
  {
    DecisionIdRule(s, d.id);
  }

  lemma SelectionRule(s: ProjectState, d: SelectionDecision, actor: DomainActor)
    requires forall i, j | 0 <= i < j < |s.comparisons| :: s.comparisons[i].id != s.comparisons[j].id
    ensures ValidateSelectionDecision(s, d, actor).Ok? <==> MaySelect(s, d, actor)
  {
    var found := FindComparison(s.comparisons, d.projectId, d.comparisonId);
    if found.Some? {
      SelectionAt(s, d, actor, found.value);
      TakenCohort(s, d.projectId, found.value);
    }
    forall c | c in s.comparisons && c.projectId == d.projectId && c.id == d.comparisonId ensures found == Some(c) {
      ComparisonIsFound(s.comparisons, c);
    }
  }

  lemma TakenCohort(s: ProjectState, id: ProjectId, c: AlternativeComparison)
    requires c.projectId == id && forall i, j | 0 <= i < j < |s.comparisons| :: s.comparisons[i].id != s.comparisons[j].id
    ensures CohortHasSelection(s, id, ComparisonCohortKey(c)) <==>
            exists e, x :: e in s.decisions && e.Selection? && e.projectId == id
                           && x in s.comparisons && x.projectId == id && x.id == e.comparisonId && x.kind == c.kind
  {
    forall x | x in s.comparisons && x.projectId == id ensures FindComparison(s.comparisons, id, x.id) == Some(x) {
      ComparisonIsFound(s.comparisons, x);
    }
  }

  lemma RejectionRule(s: ProjectState, d: RejectionDecision, actor: DomainActor)
    requires forall i, j | 0 <= i < j < |s.comparisons| :: s.comparisons[i].id != s.comparisons[j].id
    ensures ValidateRejectionDecision(s, d, actor).Ok? <==> MayReject(s, d, actor)
  {
    DecisionIdRule(s, d.id);
    var found := FindComparison(s.comparisons, d.projectId, d.comparisonId);
    forall c | c in s.comparisons && c.projectId == d.projectId && c.id == d.comparisonId ensures found == Some(c) {
      ComparisonIsFound(s.comparisons, c);
    }
  }
}
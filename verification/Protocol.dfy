/** The value types of the domain: commands, events and the Project state. */
module Protocol {

  type ProjectId = string
  type Sha = string
  type RunId = string
  type EventId = string
  type ProposalId = string
  type ComparisonId = string
  type DecisionId = string
  type Timestamp = string

  const NODE_PLAN_SCHEMA := "hunsu.node-plan.v1"
  const MAX_NODE_PAYLOAD_DECODED_BYTES: nat := 1_048_576
  const MAX_NODE_PAYLOAD_ENCODED_BYTES: nat := 1_572_864

  /** A collision-free digest: two digests are equal exactly when their contents are. */
  datatype Digest<+T> = Digest(content: T)

  /** Managed refs and Run branches print their parts between slashes that the parts cannot contain. */
  datatype GitRef = ManagedNodeRef(projectId: ProjectId, commitSha: Sha) | OtherRef(text: string)
  datatype GitBranch = RunBranchName(projectId: ProjectId, sourceNodeSha: Sha, runId: RunId) | OtherBranch(text: string)

  datatype Project = Project(
    id: ProjectId, workspaceId: string, repository: string, baseRef: string, title: string,
    rootNodeSha: Sha, createdAt: Timestamp)

  datatype GoalValue = GoalValue(
    key: string, title: string, desiredOutcome: string,
    acceptanceCriteria: seq<string>, constraints: seq<string>, priority: nat)

  datatype RunnerValue = RunnerValue(typeLock: string, name: string, value: string)

  datatype NodePlan = NodePlan(schema: string, nextGoals: seq<GoalValue>, how: RunnerValue)

  datatype NodePayload = NodePayload(projectId: ProjectId, commitSha: Sha, treeSha: Sha, plan: NodePlan)

  datatype NodePayloadEnvelope = NodePayloadEnvelope(
    decodedSize: nat, encodedSize: nat, digest: Digest<NodePayload>, data: string)

  datatype NodeOrigin =
    | Root
    | RunChild(parentSha: Sha, runId: RunId, consumedGoalDigest: Digest<GoalValue>)
    | CoachingChild(parentSha: Sha, proposalId: ProposalId)

  datatype Node = Node(
    projectId: ProjectId, commitSha: Sha, treeSha: Sha, managedRef: GitRef, commitTitle: string,
    plan: NodePlan, planDigest: Digest<NodePlan>, payloadDigest: Digest<NodePayload>,
    registeredAt: Timestamp, origin: NodeOrigin)

  const EMPTY_PLAN := NodePlan(NODE_PLAN_SCHEMA, [], RunnerValue("", "", ""))
  const EMPTY_NODE := Node("", "", "", ManagedNodeRef("", ""), "", EMPTY_PLAN, Digest(EMPTY_PLAN),
                           Digest(NodePayload("", "", "", EMPTY_PLAN)), "", Root)

  type RootNode = n: Node | n.origin.Root? witness EMPTY_NODE
  type RunChildNode = n: Node | n.origin.RunChild?
    witness EMPTY_NODE.(origin := RunChild("", "", Digest(GoalValue("", "", "", [], [], 0))))
  type CoachingChildNode = n: Node | n.origin.CoachingChild?
    witness EMPTY_NODE.(origin := CoachingChild("", ""))

  datatype RunCheckpoint = RunCheckpoint(id: string, runId: RunId, summary: string, location: string, recordedAt: Timestamp)

  datatype EvidenceTarget = RunTarget | CriterionTarget(criterion: string)

  datatype EvidenceRef = EvidenceRef(
    id: string, projectId: ProjectId, runId: RunId, target: EvidenceTarget,
    kind: string, summary: string, location: string, recordedAt: Timestamp)

  datatype RunStatus =
    | Running
    | Completed(resultNodeSha: Sha, verifiedAt: Timestamp, completedAt: Timestamp)
    | Failed(failedAt: Timestamp, failureReason: string)
    | Canceled(canceledAt: Timestamp, cancellationReason: string)

  datatype Run = Run(
    id: RunId, projectId: ProjectId, sourceNodeSha: Sha, goal: GoalValue, goalDigest: Digest<GoalValue>,
    runner: RunnerValue, runnerDigest: Digest<RunnerValue>, branch: GitBranch,
    checkpoints: seq<RunCheckpoint>, evidenceIds: seq<string>, startedAt: Timestamp, status: RunStatus)

  type RunningRun = r: Run | r.status.Running?
    witness Run("", "", "", GoalValue("", "", "", [], [], 0), Digest(GoalValue("", "", "", [], [], 0)),
                RunnerValue("", "", ""), Digest(RunnerValue("", "", "")), OtherBranch(""), [], [], "", Running)

  datatype VerifiedRunResult = VerifiedRunResult(runId: RunId, branch: GitBranch, resultSha: Sha, verifiedAt: Timestamp)

  datatype CoachReviewTarget =
    | NodeTarget(nodeSha: Sha) | RunReviewTarget(runId: RunId) | ComparisonTarget(comparisonId: ComparisonId)

  datatype CoachReview = CoachReview(
    id: string, projectId: ProjectId, target: CoachReviewTarget, assessment: string,
    recommendations: seq<string>, recordedAt: Timestamp)

  datatype CoachingProposal = CoachingProposal(
    id: ProposalId, projectId: ProjectId, sourceNodeSha: Sha, sourcePayloadDigest: Digest<NodePayload>,
    sourcePlanDigest: Digest<NodePlan>, proposedPlan: NodePlan, proposedPlanDigest: Digest<NodePlan>,
    expectedStateSha: Sha, summary: string, rationale: string, proposedAt: Timestamp)

  datatype ProposalDecision =
    | ConfirmedProposal(id: DecisionId, proposalId: ProposalId, childNodeSha: Sha, reason: string, decidedAt: Timestamp)
    | RejectedProposal(id: DecisionId, proposalId: ProposalId, reason: string, decidedAt: Timestamp)

  type ConfirmedDecision = d: ProposalDecision | d.ConfirmedProposal? witness ConfirmedProposal("", "", "", "", "")
  type RejectedDecision = d: ProposalDecision | d.RejectedProposal? witness RejectedProposal("", "", "", "")

  datatype ComparisonFinding = ComparisonFinding(subject: string, summaries: seq<(Sha, string)>)

  datatype ComparisonKind =
    | SiblingRuns(parentNodeSha: Sha)
    | CoachedHowExperiment(anchorNodeSha: Sha, goalDigest: Digest<GoalValue>)

  datatype AlternativeComparison = AlternativeComparison(
    id: ComparisonId, projectId: ProjectId, nodeShas: seq<Sha>, findings: seq<ComparisonFinding>,
    summary: string, recordedAt: Timestamp, kind: ComparisonKind)

  datatype AlternativeDecision =
    | Selection(id: DecisionId, projectId: ProjectId, comparisonId: ComparisonId,
                selectedNodeSha: Sha, rationale: string, decidedAt: Timestamp)
    | Rejection(id: DecisionId, projectId: ProjectId, comparisonId: ComparisonId,
                rejectedNodeShas: seq<Sha>, rationale: string, decidedAt: Timestamp)

  type SelectionDecision = d: AlternativeDecision | d.Selection? witness Selection("", "", "", "", "", "")
  type RejectionDecision = d: AlternativeDecision | d.Rejection? witness Rejection("", "", "", [], "", "")

  /** Structural equality is `sameDomainActor`. */
  datatype DomainActor = User(id: string) | Coach(id: string) | Plugin(id: string) | System

  datatype CommandMetadata = CommandMetadata(
    eventId: EventId, idempotencyKey: string, fingerprint: string, expectedStateSha: Sha,
    actor: DomainActor, requestedAt: Timestamp)

  datatype EventMetadata = EventMetadata(
    eventId: EventId, idempotencyKey: string, fingerprint: string, actor: DomainActor, recordedAt: Timestamp)

  datatype ComparisonRequest = CompareSiblingRuns | CompareCoachedHow(anchorNodeSha: Sha)

  /** A command is its metadata and what it asks for; the source inlines both in one record. */
  datatype ProjectCommand = ProjectCommand(meta: CommandMetadata, body: CommandBody)

  datatype CommandBody =
    | CreateProject(rootNodeEventId: EventId, project: Project, rootNode: Node, payload: NodePayloadEnvelope)
    | RebuildProjectMaterializations(projectId: ProjectId)
    | StartRun(runId: RunId, projectId: ProjectId, sourceNodeSha: Sha,
               goalDigest: Digest<GoalValue>, branch: GitBranch)
    | CheckpointRun(checkpoint: RunCheckpoint)
    | AttachRunEvidence(evidence: EvidenceRef)
    | CompleteRun(nodeEventId: EventId, result: VerifiedRunResult, runChild: RunChildNode,
                  payload: NodePayloadEnvelope)
    | FailRun(runId: RunId, reason: string)
    | CancelRun(runId: RunId, reason: string)
    | RecordCoachReview(review: CoachReview)
    | RecordCoachingProposal(proposal: CoachingProposal)
    | ConfirmCoachingProposal(nodeEventId: EventId, decisionId: DecisionId, proposalId: ProposalId,
                              reason: string, coachingChild: CoachingChildNode, payload: NodePayloadEnvelope)
    | RejectCoachingProposal(decisionId: DecisionId, proposalId: ProposalId, reason: string)
    | CompareAlternatives(comparisonId: ComparisonId, projectId: ProjectId, nodeShas: seq<Sha>,
                          findings: seq<ComparisonFinding>, summary: string, request: ComparisonRequest)
    | SelectAlternative(decisionId: DecisionId, projectId: ProjectId, comparisonId: ComparisonId,
                        selectedNodeSha: Sha, rationale: string)
    | RejectAlternatives(decisionId: DecisionId, projectId: ProjectId, comparisonId: ComparisonId,
                         rejectedNodeShas: seq<Sha>, rationale: string)

  /** An event is its metadata and what happened. */
  datatype DomainEvent = DomainEvent(meta: EventMetadata, body: EventBody)

  datatype EventBody =
    | ProjectCreated(project: Project)
    | ProjectMaterializationsRebuilt(projectId: ProjectId)
    | RootNodeRegistered(rootNode: RootNode, payload: NodePayloadEnvelope)
    | RunStarted(run: RunningRun)
    | RunCheckpointed(checkpoint: RunCheckpoint)
    | RunEvidenceAttached(evidence: EvidenceRef)
    | RunCompleted(result: VerifiedRunResult)
    | RunChildNodeRegistered(runChild: RunChildNode, payload: NodePayloadEnvelope)
    | RunFailed(runId: RunId, reason: string)
    | RunCanceled(runId: RunId, reason: string)
    | CoachReviewRecorded(review: CoachReview)
    | CoachingProposalRecorded(proposal: CoachingProposal)
    | CoachingProposalConfirmed(confirmation: ConfirmedDecision)
    | CoachingChildNodeRegistered(coachingChild: CoachingChildNode, payload: NodePayloadEnvelope)
    | CoachingProposalRejected(rejection: RejectedDecision)
    | AlternativesCompared(comparison: AlternativeComparison)
    | AlternativeSelected(selection: SelectionDecision)
    | AlternativesRejected(alternatives: RejectionDecision)

  datatype ProcessedCommand = ProcessedCommand(idempotencyKey: string, fingerprint: string, eventIds: seq<EventId>)

  datatype ProjectState = ProjectState(
    projects: seq<Project>,
    nodes: seq<Node>,
    runs: seq<Run>,
    evidence: seq<EvidenceRef>,
    coachReviews: seq<CoachReview>,
    coachingProposals: seq<CoachingProposal>,
    coachingProposalDecisions: seq<ProposalDecision>,
    comparisons: seq<AlternativeComparison>,
    decisions: seq<AlternativeDecision>,
    processedCommands: seq<ProcessedCommand>)

  const EMPTY_STATE := ProjectState([], [], [], [], [], [], [], [], [], [])

  function NodePayloadFor(node: Node): NodePayload {
    NodePayload(node.projectId, node.commitSha, node.treeSha, node.plan)
  }
}

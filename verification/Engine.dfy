/**
 * The domain engine: what a command decides, what an event changes, and the checks both share.
 * Error messages are dropped; every error keeps its code.
 */
module Engine {
  import opened Prelude
  import opened Protocol

  datatype ErrorCode =
    | IdempotencyConflict
    | DuplicateId
    | NotFound
    | InvalidTransition
    | InvariantViolation
    | UserConfirmationRequired
    | InvalidEvent

  type Outcome<+T> = Result<T, ErrorCode>

  /** The payload codec: whether an envelope decodes to a payload, and the payload's canonical byte length. */
  datatype IntegrityBoundary = IntegrityBoundary(
    verifyNodePayload: (NodePayload, NodePayloadEnvelope) -> bool,
    canonicalByteLength: NodePayload -> nat)

  datatype CommandDecision =
    | Accepted(events: seq<DomainEvent>)
    | Reused(eventIds: seq<EventId>)

  datatype CommandApplication = CommandApplication(
    state: ProjectState, emittedEvents: seq<DomainEvent>, reusedEventIds: seq<EventId>)

  function Need(condition: bool, code: ErrorCode): (r: Outcome<()>) {
    if condition then Ok(()) else Err(code)
  }

  function AsInvalidEvent<T>(r: Outcome<T>): (o: Outcome<T>)
    ensures o.Ok? <==> r.Ok?
    ensures o.Ok? ==> o == r
  {
    if r.Ok? then r else Err(InvalidEvent)
  }

  // ------------------------------------------------------------------ lookups

  function FindProject(projects: seq<Project>, id: ProjectId): (r: Outcome<Project>)
    ensures r.Ok? ==> r.value in projects && r.value.id == id
    ensures r.Ok? <==> exists p :: p in projects && p.id == id
    ensures r.Err? ==> r.error == NotFound
  {
    var found := First(projects, (p: Project) => p.id == id);
    if found.Some? then Ok(found.value) else Err(NotFound)
  }

  function FindNode(nodes: seq<Node>, projectId: ProjectId, sha: Sha): (r: Outcome<Node>)
    ensures r.Ok? ==> r.value in nodes && r.value.projectId == projectId && r.value.commitSha == sha
    ensures r.Ok? <==> exists n :: n in nodes && n.projectId == projectId && n.commitSha == sha
    ensures r.Err? ==> r.error == NotFound
  {
    var found := First(nodes, (n: Node) => n.projectId == projectId && n.commitSha == sha);
    if found.Some? then Ok(found.value) else Err(NotFound)
  }

  function FindRun(runs: seq<Run>, id: RunId): (r: Outcome<Run>)
    ensures r.Ok? ==> r.value in runs && r.value.id == id
    ensures r.Ok? <==> exists run :: run in runs && run.id == id
    ensures r.Err? ==> r.error == NotFound
  {
    var found := First(runs, (run: Run) => run.id == id);
    if found.Some? then Ok(found.value) else Err(NotFound)
  }

  function FindRunningRun(runs: seq<Run>, id: RunId): (r: Outcome<Run>)
    ensures r.Ok? ==> FindRun(runs, id) == r && r.value.status.Running?
  {
    var run :- FindRun(runs, id);
    if run.status.Running? then Ok(run) else Err(InvalidTransition)
  }

  function FindCompletedRun(runs: seq<Run>, id: RunId): (r: Outcome<Run>)
    ensures r.Ok? ==> FindRun(runs, id) == r && r.value.status.Completed?
  {
    var run :- FindRun(runs, id);
    if run.status.Completed? then Ok(run) else Err(InvalidTransition)
  }

  function FindProposal(proposals: seq<CoachingProposal>, id: ProposalId): (r: Option<CoachingProposal>)
    ensures r.Some? ==> r.value in proposals && r.value.id == id
    ensures r.Some? <==> exists p :: p in proposals && p.id == id
  {
    First(proposals, (p: CoachingProposal) => p.id == id)
  }

  function FindProposalDecision(decisions: seq<ProposalDecision>, proposalId: ProposalId): (r: Option<ProposalDecision>)
    ensures r.Some? ==> r.value in decisions && r.value.proposalId == proposalId
    ensures r.Some? <==> exists d :: d in decisions && d.proposalId == proposalId
  {
    First(decisions, (d: ProposalDecision) => d.proposalId == proposalId)
  }

  function FindComparison(comparisons: seq<AlternativeComparison>, projectId: ProjectId, id: ComparisonId)
    : (r: Option<AlternativeComparison>)
    ensures r.Some? ==> r.value in comparisons && r.value.projectId == projectId && r.value.id == id
    ensures r.Some? <==> exists c :: c in comparisons && c.projectId == projectId && c.id == id
  {
    First(comparisons, (c: AlternativeComparison) => c.projectId == projectId && c.id == id)
  }

  function FindProcessed(processed: seq<ProcessedCommand>, key: string): (r: Option<ProcessedCommand>)
    ensures r.Some? ==> r.value in processed && r.value.idempotencyKey == key
    ensures r.Some? <==> exists p :: p in processed && p.idempotencyKey == key
  {
    First(processed, (p: ProcessedCommand) => p.idempotencyKey == key)
  }

  predicate IsRejectedNode(decisions: seq<AlternativeDecision>, projectId: ProjectId, sha: Sha) {
    exists d :: d in decisions && d.Rejection? && d.projectId == projectId && sha in d.rejectedNodeShas
  }

  predicate IsSelectedNode(decisions: seq<AlternativeDecision>, projectId: ProjectId, sha: Sha) {
    exists d :: d in decisions && d.Selection? && d.projectId == projectId && d.selectedNodeSha == sha
  }

  // ------------------------------------------------- idempotency and metadata

  predicate EventIdUsed(processed: seq<ProcessedCommand>, eventId: EventId) {
    exists p :: p in processed && eventId in p.eventIds
  }

  function DecideRetry(processed: seq<ProcessedCommand>, meta: CommandMetadata): Outcome<Option<CommandDecision>> {
    var found := FindProcessed(processed, meta.idempotencyKey);
    if found.None? then Ok(None)
    else if found.value.fingerprint == meta.fingerprint then Ok(Some(Reused(found.value.eventIds)))
    else Err(IdempotencyConflict)
  }

  function ValidateAdditionalEventId(processed: seq<ProcessedCommand>, primary: EventId, additional: EventId): Outcome<()> {
    Need(primary != additional && !EventIdUsed(processed, additional), DuplicateId)
  }

  function ValidateEventIdentity(processed: seq<ProcessedCommand>, meta: EventMetadata): Outcome<()> {
    var _ :- Need(!EventIdUsed(processed, meta.eventId), InvalidEvent);
    var found := FindProcessed(processed, meta.idempotencyKey);
    Need(found.Some? ==> found.value.fingerprint == meta.fingerprint, InvalidEvent)
  }

  function EventMeta(meta: CommandMetadata, eventId: EventId): EventMetadata {
    EventMetadata(eventId, meta.idempotencyKey, meta.fingerprint, meta.actor, meta.requestedAt)
  }

  /** Records the event under its command, opening the command's record if it has none. */
  function RecordEvent(processed: seq<ProcessedCommand>, meta: EventMetadata): (r: seq<ProcessedCommand>)
    ensures FindProcessed(processed, meta.idempotencyKey).None? ==>
              r == processed + [ProcessedCommand(meta.idempotencyKey, meta.fingerprint, [meta.eventId])]
    ensures FindProcessed(processed, meta.idempotencyKey).Some? ==>
              |r| == |processed|
              && forall i | 0 <= i < |r| :: r[i] ==
                   if processed[i].idempotencyKey == meta.idempotencyKey
                   then processed[i].(eventIds := processed[i].eventIds + [meta.eventId])
                   else processed[i]
  {
    if FindProcessed(processed, meta.idempotencyKey).None? then
      processed + [ProcessedCommand(meta.idempotencyKey, meta.fingerprint, [meta.eventId])]
    else
      seq(|processed|, i requires 0 <= i < |processed| =>
        if processed[i].idempotencyKey == meta.idempotencyKey
        then processed[i].(eventIds := processed[i].eventIds + [meta.eventId])
        else processed[i])
  }

  function Finish(state: ProjectState, meta: EventMetadata): ProjectState {
    state.(processedCommands := RecordEvent(state.processedCommands, meta))
  }

  // ------------------------------------------------------------ plans and Nodes

  function GoalDigests(goals: seq<GoalValue>): (r: seq<Digest<GoalValue>>)
    ensures |r| == |goals| && forall i | 0 <= i < |goals| :: r[i] == Digest(goals[i])
  {
    seq(|goals|, i requires 0 <= i < |goals| => Digest(goals[i]))
  }

  function GoalKeys(goals: seq<GoalValue>): (r: seq<string>)
    ensures |r| == |goals| && forall i | 0 <= i < |goals| :: r[i] == goals[i].key
  {
    seq(|goals|, i requires 0 <= i < |goals| => goals[i].key)
  }

  predicate PlanIsValid(plan: NodePlan) {
    && plan.schema == NODE_PLAN_SCHEMA
    && Distinct(GoalKeys(plan.nextGoals))
    && Distinct(GoalDigests(plan.nextGoals))
    && forall goal | goal in plan.nextGoals :: goal.acceptanceCriteria != [] && Distinct(goal.acceptanceCriteria)
  }

  function MatchingGoals(plan: NodePlan, digest: Digest<GoalValue>): seq<GoalValue> {
    Filter(plan.nextGoals, (goal: GoalValue) => Digest(goal) == digest)
  }

  function InheritRunChildPlan(source: Node, consumedGoalDigest: Digest<GoalValue>): Outcome<NodePlan> {
    var _ :- Need(|MatchingGoals(source.plan, consumedGoalDigest)| == 1, InvariantViolation);
    Ok(NodePlan(
         NODE_PLAN_SCHEMA,
         Filter(source.plan.nextGoals, (goal: GoalValue) => Digest(goal) != consumedGoalDigest),
         source.plan.how))
  }

  predicate NodeContentIsValid(node: Node, payload: NodePayloadEnvelope, recordedAt: Timestamp, integrity: IntegrityBoundary) {
    var decoded := NodePayloadFor(node);
    && PlanIsValid(node.plan)
    && node.planDigest == Digest(node.plan)
    && node.managedRef == ManagedNodeRef(node.projectId, node.commitSha)
    && node.registeredAt == recordedAt
    && node.payloadDigest == Digest(decoded) && payload.digest == Digest(decoded)
    && payload.decodedSize == integrity.canonicalByteLength(decoded)
    && integrity.canonicalByteLength(decoded) <= MAX_NODE_PAYLOAD_DECODED_BYTES
    && payload.encodedSize == |payload.data| && payload.encodedSize <= MAX_NODE_PAYLOAD_ENCODED_BYTES
    && integrity.verifyNodePayload(decoded, payload)
  }

  function ValidateNodeContent(node: Node, payload: NodePayloadEnvelope, recordedAt: Timestamp, integrity: IntegrityBoundary)
    : Outcome<()>
  {
    Need(NodeContentIsValid(node, payload, recordedAt, integrity), InvariantViolation)
  }

  function ValidateNewNode(state: ProjectState, node: Node, payload: NodePayloadEnvelope, recordedAt: Timestamp,
                           integrity: IntegrityBoundary): Outcome<()>
  {
    var project :- FindProject(state.projects, node.projectId);
    var _ :- Need(FindNode(state.nodes, node.projectId, node.commitSha).Err?, DuplicateId);
    var _ :- (if node.origin.Root? then
                var _ :- Need(!(exists n :: n in state.nodes && n.projectId == node.projectId && n.origin.Root?), InvariantViolation);
                Need(node.commitSha == project.rootNodeSha, InvariantViolation)
              else
                var _ :- Need(node.origin.parentSha != node.commitSha, InvariantViolation);
                var _ :- FindNode(state.nodes, node.projectId, node.origin.parentSha);
                Ok(()));
    ValidateNodeContent(node, payload, recordedAt, integrity)
  }

  // ------------------------------------------------------------------- Projects

  function ValidateProjectEvent(state: ProjectState, project: Project, actor: DomainActor): Outcome<()> {
    var _ :- Need(actor.User?, UserConfirmationRequired);
    Need(FindProject(state.projects, project.id).Err?, DuplicateId)
  }

  function ValidateProjectCreation(state: ProjectState, project: Project, rootNode: Node, payload: NodePayloadEnvelope,
                                   actor: DomainActor, integrity: IntegrityBoundary): Outcome<()>
  {
    var _ :- ValidateProjectEvent(state, project, actor);
    var _ :- Need(rootNode.projectId == project.id && rootNode.commitSha == project.rootNodeSha, InvariantViolation);
    var _ :- Need(rootNode.origin.Root?, InvariantViolation);
    ValidateNodeContent(rootNode, payload, rootNode.registeredAt, integrity)
  }

  function ValidateProjectRebuild(state: ProjectState, projectId: ProjectId, actor: DomainActor): Outcome<()> {
    var _ :- Need(actor.User?, UserConfirmationRequired);
    var _ :- FindProject(state.projects, projectId);
    Ok(())
  }

  // ----------------------------------------------------------------------- Runs

  function BuildRunningRun(state: ProjectState, command: ProjectCommand): (r: Outcome<Run>)
    requires command.body.StartRun?
    ensures r.Ok? ==> r.value.status.Running?
  {
    var _ :- Need(FindRun(state.runs, command.body.runId).Err?, DuplicateId);
    var _ :- FindProject(state.projects, command.body.projectId);
    var source :- FindNode(state.nodes, command.body.projectId, command.body.sourceNodeSha);
    var _ :- Need(!IsRejectedNode(state.decisions, command.body.projectId, source.commitSha), InvalidTransition);
    var goals := MatchingGoals(source.plan, command.body.goalDigest);
    if |goals| != 1 then Err(InvariantViolation)
    else if command.body.branch != RunBranchName(command.body.projectId, command.body.sourceNodeSha, command.body.runId) then
      Err(InvariantViolation)
    else
      Ok(Run(command.body.runId, command.body.projectId, command.body.sourceNodeSha, goals[0], command.body.goalDigest,
             source.plan.how, Digest(source.plan.how), command.body.branch, [], [], command.meta.requestedAt, Running))
  }

  function ValidateRunningRunEvent(state: ProjectState, run: Run): Outcome<()> {
    var _ :- Need(FindRun(state.runs, run.id).Err?, DuplicateId);
    var source :- FindNode(state.nodes, run.projectId, run.sourceNodeSha);
    var _ :- Need(!IsRejectedNode(state.decisions, run.projectId, source.commitSha), InvalidTransition);
    var _ :- Need(|MatchingGoals(source.plan, run.goalDigest)| == 1 && Digest(run.goal) == run.goalDigest, InvariantViolation);
    var _ :- Need(Digest(run.runner) == run.runnerDigest && run.runnerDigest == Digest(source.plan.how), InvariantViolation);
    var _ :- Need(run.branch == RunBranchName(run.projectId, run.sourceNodeSha, run.id), InvariantViolation);
    Need(run.checkpoints == [] && run.evidenceIds == [], InvariantViolation)
  }

  /** Applies `replace` to the running Runs with the given id. */
  function ReplaceRun(runs: seq<Run>, id: RunId, replace: Run -> Run): (r: seq<Run>)
    ensures |r| == |runs|
    ensures forall i | 0 <= i < |runs| ::
              r[i] == if runs[i].id == id && runs[i].status.Running? then replace(runs[i]) else runs[i]
  {
    seq(|runs|, i requires 0 <= i < |runs| =>
      if runs[i].id == id && runs[i].status.Running? then replace(runs[i]) else runs[i])
  }

  function ValidateCheckpoint(state: ProjectState, checkpoint: RunCheckpoint): Outcome<()> {
    var _ :- FindRunningRun(state.runs, checkpoint.runId);
    Need(!(exists run :: run in state.runs && exists c :: c in run.checkpoints && c.id == checkpoint.id), DuplicateId)
  }

  function ValidateEvidence(state: ProjectState, evidence: EvidenceRef): Outcome<()> {
    var _ :- Need(!(exists e :: e in state.evidence && e.id == evidence.id), DuplicateId);
    var run :- FindRunningRun(state.runs, evidence.runId);
    var _ :- Need(run.projectId == evidence.projectId, InvariantViolation);
    Need(evidence.target.CriterionTarget? ==> evidence.target.criterion in run.goal.acceptanceCriteria, InvariantViolation)
  }

  /** Some recorded evidence of the Run is aimed at the criterion. */
  predicate CriterionCovered(evidence: seq<EvidenceRef>, run: Run, criterion: string) {
    exists e :: e in evidence && e.runId == run.id && e.id in run.evidenceIds && e.target == CriterionTarget(criterion)
  }

  function ValidateVerifiedRunResult(state: ProjectState, result: VerifiedRunResult): (r: Outcome<Run>)
    ensures r.Ok? ==> FindRunningRun(state.runs, result.runId) == r
  {
    var run :- FindRunningRun(state.runs, result.runId);
    var _ :- Need(run.branch == result.branch, InvariantViolation);
    var _ :- Need(run.sourceNodeSha != result.resultSha, InvariantViolation);
    var _ :- Need(forall criterion | criterion in run.goal.acceptanceCriteria ::
                    CriterionCovered(state.evidence, run, criterion), InvariantViolation);
    Ok(run)
  }

  function ValidateRunChildNode(state: ProjectState, run: Run, node: RunChildNode, payload: NodePayloadEnvelope,
                                recordedAt: Timestamp, integrity: IntegrityBoundary): Outcome<()>
  {
    var _ :- Need(run.status.Completed? ==> run.status.resultNodeSha == node.commitSha, InvariantViolation);
    var _ :- Need(node.projectId == run.projectId
                  && node.origin == RunChild(run.sourceNodeSha, run.id, run.goalDigest), InvariantViolation);
    var source :- FindNode(state.nodes, run.projectId, run.sourceNodeSha);
    var inherited :- InheritRunChildPlan(source, run.goalDigest);
    var _ :- Need(Digest(node.plan) == Digest(inherited), InvariantViolation);
    ValidateNewNode(state, node, payload, recordedAt, integrity)
  }

  function ValidateRunCompletion(state: ProjectState, result: VerifiedRunResult, node: RunChildNode, payload: NodePayloadEnvelope,
                                 recordedAt: Timestamp, integrity: IntegrityBoundary): Outcome<()>
  {
    var run :- ValidateVerifiedRunResult(state, result);
    var _ :- Need(node.commitSha == result.resultSha, InvariantViolation);
    ValidateRunChildNode(state, run, node, payload, recordedAt, integrity)
  }

  // ------------------------------------------------------------------- Coaching

  function ValidateCoachReview(state: ProjectState, review: CoachReview, actor: DomainActor): Outcome<()> {
    var _ :- Need(actor.Coach?, InvariantViolation);
    var _ :- Need(!(exists r :: r in state.coachReviews && r.id == review.id), DuplicateId);
    var _ :- FindProject(state.projects, review.projectId);
    match review.target
    case NodeTarget(sha) =>
      var _ :- FindNode(state.nodes, review.projectId, sha);
      Ok(())
    case RunReviewTarget(runId) =>
      var run :- FindRun(state.runs, runId);
      Need(run.projectId == review.projectId, InvariantViolation)
    case ComparisonTarget(comparisonId) =>
      var found := First(state.comparisons, (c: AlternativeComparison) => c.id == comparisonId);
      if found.None? then Err(NotFound)
      else Need(found.value.projectId == review.projectId, InvariantViolation)
  }

  function ValidateCoachingProposal(state: ProjectState, proposal: CoachingProposal, actor: DomainActor): Outcome<()> {
    var _ :- Need(actor.Coach?, InvariantViolation);
    var _ :- Need(FindProposal(state.coachingProposals, proposal.id).None?, DuplicateId);
    var source :- FindNode(state.nodes, proposal.projectId, proposal.sourceNodeSha);
    var _ :- Need(!IsRejectedNode(state.decisions, proposal.projectId, source.commitSha), InvalidTransition);
    var _ :- Need(source.payloadDigest == proposal.sourcePayloadDigest
                  && Digest(NodePayloadFor(source)) == proposal.sourcePayloadDigest, InvariantViolation);
    var _ :- Need(source.planDigest == proposal.sourcePlanDigest
                  && Digest(source.plan) == proposal.sourcePlanDigest, InvariantViolation);
    var _ :- Need(PlanIsValid(proposal.proposedPlan), InvariantViolation);
    var _ :- Need(Digest(proposal.proposedPlan) == proposal.proposedPlanDigest, InvariantViolation);
    Need(proposal.proposedPlanDigest != proposal.sourcePlanDigest, InvariantViolation)
  }

  function FindOpenCoachingProposal(state: ProjectState, proposalId: ProposalId, actor: DomainActor): (r: Outcome<CoachingProposal>)
    ensures r.Ok? ==> FindProposal(state.coachingProposals, proposalId) == Some(r.value)
    ensures r.Ok? ==> actor.User? && FindProposalDecision(state.coachingProposalDecisions, proposalId).None?
  {
    var _ :- Need(actor.User?, UserConfirmationRequired);
    var found := FindProposal(state.coachingProposals, proposalId);
    if found.None? then Err(NotFound)
    else if FindProposalDecision(state.coachingProposalDecisions, proposalId).Some? then Err(InvalidTransition)
    else Ok(found.value)
  }

  function FindConfirmableCoachingProposal(state: ProjectState, proposalId: ProposalId, actor: DomainActor)
    : (r: Outcome<CoachingProposal>)
    ensures r.Ok? ==> FindOpenCoachingProposal(state, proposalId, actor) == r
  {
    var proposal :- FindOpenCoachingProposal(state, proposalId, actor);
    if IsRejectedNode(state.decisions, proposal.projectId, proposal.sourceNodeSha) then Err(InvalidTransition)
    else Ok(proposal)
  }

  /** Coaching decisions and alternative decisions draw their ids from one namespace. */
  function ValidateDecisionId(state: ProjectState, id: DecisionId): Outcome<()> {
    Need(!(exists d :: d in state.coachingProposalDecisions && d.id == id)
         && !(exists d :: d in state.decisions && d.id == id), DuplicateId)
  }

  function ValidateCoachingChild(state: ProjectState, proposal: CoachingProposal, node: CoachingChildNode,
                                 payload: NodePayloadEnvelope, recordedAt: Timestamp, integrity: IntegrityBoundary): Outcome<()>
  {
    var source :- FindNode(state.nodes, proposal.projectId, proposal.sourceNodeSha);
    var _ :- Need(node.projectId == proposal.projectId
                  && node.origin == CoachingChild(proposal.sourceNodeSha, proposal.id), InvariantViolation);
    var _ :- Need(node.treeSha == source.treeSha, InvariantViolation);
    var _ :- Need(Digest(node.plan) == proposal.proposedPlanDigest, InvariantViolation);
    ValidateNewNode(state, node, payload, recordedAt, integrity)
  }

  function ValidateCoachingChildEvent(state: ProjectState, node: CoachingChildNode, payload: NodePayloadEnvelope,
                                      recordedAt: Timestamp, integrity: IntegrityBoundary): Outcome<()>
  {
    var proposal := FindProposal(state.coachingProposals, node.origin.proposalId);
    var decision := FindProposalDecision(state.coachingProposalDecisions, node.origin.proposalId);
    if proposal.None? then Err(NotFound)
    else if decision.None? || !decision.value.ConfirmedProposal? || decision.value.childNodeSha != node.commitSha then
      Err(InvalidTransition)
    else ValidateCoachingChild(state, proposal.value, node, payload, recordedAt, integrity)
  }

  function BuildCoachingConfirmation(state: ProjectState, command: ProjectCommand, integrity: IntegrityBoundary)
    : (r: Outcome<ProposalDecision>)
    requires command.body.ConfirmCoachingProposal?
    ensures r.Ok? ==> r.value.ConfirmedProposal?
  {
    var proposal :- FindConfirmableCoachingProposal(state, command.body.proposalId, command.meta.actor);
    var _ :- ValidateDecisionId(state, command.body.decisionId);
    var _ :- ValidateCoachingChild(state, proposal, command.body.coachingChild, command.body.payload, command.meta.requestedAt, integrity);
    Ok(ConfirmedProposal(command.body.decisionId, command.body.proposalId, command.body.coachingChild.commitSha,
                         command.body.reason, command.meta.requestedAt))
  }

  function BuildCoachingRejection(state: ProjectState, command: ProjectCommand): (r: Outcome<ProposalDecision>)
    requires command.body.RejectCoachingProposal?
    ensures r.Ok? ==> r.value.RejectedProposal?
  {
    var _ :- FindOpenCoachingProposal(state, command.body.proposalId, command.meta.actor);
    var _ :- ValidateDecisionId(state, command.body.decisionId);
    Ok(RejectedProposal(command.body.decisionId, command.body.proposalId, command.body.reason, command.meta.requestedAt))
  }

  // ---------------------------------------------------------------- Alternatives

  datatype Candidate = Candidate(node: RunChildNode, run: Run, source: Node)

  /** The completed Run and source Node behind one compared result Node. */
  function ResolveCandidate(state: ProjectState, projectId: ProjectId, nodeSha: Sha): Outcome<Candidate> {
    var node :- FindNode(state.nodes, projectId, nodeSha);
    if !node.origin.RunChild? then Err(InvariantViolation)
    else
      var run :- FindCompletedRun(state.runs, node.origin.runId);
      var _ :- Need(run.projectId == projectId && run.sourceNodeSha == node.origin.parentSha
                    && run.status.resultNodeSha == node.commitSha && run.goalDigest == node.origin.consumedGoalDigest,
                    InvariantViolation);
      var source :- FindNode(state.nodes, projectId, run.sourceNodeSha);
      var _ :- Need(|MatchingGoals(source.plan, run.goalDigest)| == 1 && Digest(run.goal) == run.goalDigest, InvariantViolation);
      var _ :- Need(run.runnerDigest == Digest(run.runner) && run.runnerDigest == Digest(source.plan.how), InvariantViolation);
      Ok(Candidate(node, run, source))
  }

  function ResolveCandidates(state: ProjectState, projectId: ProjectId, nodeShas: seq<Sha>): (r: Outcome<seq<Candidate>>)
    ensures r.Ok? ==> |r.value| == |nodeShas|
    ensures r.Ok? ==> forall i | 0 <= i < |nodeShas| :: ResolveCandidate(state, projectId, nodeShas[i]) == Ok(r.value[i])
  {
    if nodeShas == [] then Ok([])
    else
      var n := |nodeShas| - 1;
      assert forall i | 0 <= i < n :: nodeShas[..n][i] == nodeShas[i];
      var rest :- ResolveCandidates(state, projectId, nodeShas[..n]);
      var last :- ResolveCandidate(state, projectId, nodeShas[n]);
      Ok(rest + [last])
  }

  function ResolveCompletedRunCandidates(state: ProjectState, projectId: ProjectId, nodeShas: seq<Sha>)
    : (r: Outcome<seq<Candidate>>)
    ensures r.Ok? ==> |nodeShas| >= 2 && Distinct(nodeShas) && |r.value| == |nodeShas|
    ensures r.Ok? ==> forall i | 0 <= i < |nodeShas| :: ResolveCandidate(state, projectId, nodeShas[i]) == Ok(r.value[i])
  {
    var _ :- Need(|nodeShas| >= 2, InvariantViolation);
    var _ :- Need(Distinct(nodeShas), InvariantViolation);
    ResolveCandidates(state, projectId, nodeShas)
  }

  /** The loop of the source: candidates are pushed one by one and the first failure is returned. */
  method ResolveCompletedRunCandidatesLoop(state: ProjectState, projectId: ProjectId, nodeShas: seq<Sha>)
    returns (r: Outcome<seq<Candidate>>)
    ensures r == ResolveCompletedRunCandidates(state, projectId, nodeShas)
  {
    if |nodeShas| < 2 || !Distinct(nodeShas) {
      return Err(InvariantViolation);
    }
    var candidates := [];
    for i := 0 to |nodeShas|
      invariant ResolveCandidates(state, projectId, nodeShas[..i]) == Ok(candidates)
    {
      assert nodeShas[..i + 1][..i] == nodeShas[..i];
      var candidate := ResolveCandidate(state, projectId, nodeShas[i]);
      if candidate.Err? {
        ResolveCandidatesPrefixFails(state, projectId, nodeShas, i + 1);
        return Err(candidate.error);
      }
      candidates := candidates + [candidate.value];
    }
    assert nodeShas[..|nodeShas|] == nodeShas;
    return Ok(candidates);
  }

  lemma {:induction false} ResolveCandidatesPrefixFails(state: ProjectState, projectId: ProjectId, nodeShas: seq<Sha>, k: nat)
    requires k <= |nodeShas| && ResolveCandidates(state, projectId, nodeShas[..k]).Err?
    ensures ResolveCandidates(state, projectId, nodeShas) == ResolveCandidates(state, projectId, nodeShas[..k])
  {
    if k == |nodeShas| {
      assert nodeShas[..k] == nodeShas;
    } else {
      var shorter := nodeShas[..|nodeShas| - 1];
      assert shorter[..k] == nodeShas[..k];
      ResolveCandidatesPrefixFails(state, projectId, shorter, k);
    }
  }

  function SummaryShas(finding: ComparisonFinding): (r: seq<Sha>)
    ensures |r| == |finding.summaries| && forall i | 0 <= i < |r| :: r[i] == finding.summaries[i].0
  {
    seq(|finding.summaries|, i requires 0 <= i < |finding.summaries| => finding.summaries[i].0)
  }

  function ValidateComparisonFindings(nodeShas: seq<Sha>, findings: seq<ComparisonFinding>): Outcome<()> {
    Need(forall finding | finding in findings ::
           && |finding.summaries| == |nodeShas|
           && Distinct(SummaryShas(finding))
           && forall sha | sha in nodeShas :: sha in SummaryShas(finding),
         InvariantViolation)
  }

  /** The cohort a comparison belongs to; the source prints these parts as one colon-separated key. */
  datatype CohortKey =
    | SiblingCohort(projectId: ProjectId, parentNodeSha: Sha)
    | CoachedCohort(projectId: ProjectId, anchorNodeSha: Sha, goalDigest: Digest<GoalValue>)

  function ComparisonCohortKey(c: AlternativeComparison): CohortKey {
    match c.kind
    case SiblingRuns(parentNodeSha) => SiblingCohort(c.projectId, parentNodeSha)
    case CoachedHowExperiment(anchorNodeSha, goalDigest) => CoachedCohort(c.projectId, anchorNodeSha, goalDigest)
  }

  predicate Overlap(a: AlternativeComparison, b: AlternativeComparison) {
    a.projectId == b.projectId && exists sha :: sha in a.nodeShas && sha in b.nodeShas
  }

  function ValidateComparisonCohortOverlap(comparisons: seq<AlternativeComparison>, comparison: AlternativeComparison): Outcome<()> {
    Need(forall existing | existing in comparisons && Overlap(existing, comparison) ::
           ComparisonCohortKey(existing) == ComparisonCohortKey(comparison),
         InvariantViolation)
  }

  predicate ConfirmedExperimentSource(state: ProjectState, projectId: ProjectId, anchor: Node, source: Node) {
    && source.origin.CoachingChild? && source.origin.parentSha == anchor.commitSha
    && source.treeSha == anchor.treeSha
    && var proposal := First(state.coachingProposals,
                             (p: CoachingProposal) => p.projectId == projectId && p.id == source.origin.proposalId);
    && proposal.Some?
    && (exists d :: d in state.coachingProposalDecisions && d.ConfirmedProposal?
                    && d.proposalId == source.origin.proposalId && d.childNodeSha == source.commitSha)
    && proposal.value.sourceNodeSha == anchor.commitSha
    && proposal.value.proposedPlanDigest == Digest(source.plan)
    && Digest(proposal.value.proposedPlan) == proposal.value.proposedPlanDigest
  }

  predicate ExperimentSourceIsValid(state: ProjectState, projectId: ProjectId, anchor: Node, source: Node) {
    && source.planDigest == Digest(source.plan)
    && (source.commitSha != anchor.commitSha ==> ConfirmedExperimentSource(state, projectId, anchor, source))
    && Digest(NodePlan(source.plan.schema, source.plan.nextGoals, anchor.plan.how)) == Digest(anchor.plan)
  }

  function CandidateSources(candidates: seq<Candidate>): (r: seq<Sha>)
    ensures |r| == |candidates| && forall i | 0 <= i < |r| :: r[i] == candidates[i].source.commitSha
  {
    seq(|candidates|, i requires 0 <= i < |candidates| => candidates[i].source.commitSha)
  }

  function ValidateCoachedHowExperimentCandidates(state: ProjectState, projectId: ProjectId, anchorNodeSha: Sha,
                                                  candidates: seq<Candidate>): Outcome<Digest<GoalValue>>
    requires candidates != []
  {
    var anchor :- FindNode(state.nodes, projectId, anchorNodeSha);
    var _ :- Need(Distinct(CandidateSources(candidates)), InvariantViolation);
    var goalDigest := candidates[0].run.goalDigest;
    var _ :- Need(forall c | c in candidates :: c.run.goalDigest == goalDigest, InvariantViolation);
    var _ :- Need(anchor.planDigest == Digest(anchor.plan), InvariantViolation);
    var _ :- Need(forall c | c in candidates :: ExperimentSourceIsValid(state, projectId, anchor, c.source), InvariantViolation);
    Ok(goalDigest)
  }

  /** What the candidates have in common, as the request wants it. */
  function RequestedKind(state: ProjectState, projectId: ProjectId, request: ComparisonRequest, candidates: seq<Candidate>)
    : Outcome<ComparisonKind>
    requires candidates != []
  {
    match request
    case CompareSiblingRuns =>
      var parentNodeSha := candidates[0].node.origin.parentSha;
      if forall c | c in candidates :: c.node.origin.parentSha == parentNodeSha
      then Ok(SiblingRuns(parentNodeSha))
      else Err(InvariantViolation)
    case CompareCoachedHow(anchorNodeSha) =>
      var goalDigest :- ValidateCoachedHowExperimentCandidates(state, projectId, anchorNodeSha, candidates);
      Ok(CoachedHowExperiment(anchorNodeSha, goalDigest))
  }

  function BuildComparison(state: ProjectState, command: ProjectCommand): Outcome<AlternativeComparison>
    requires command.body.CompareAlternatives?
  {
    var _ :- Need(!(exists c :: c in state.comparisons && c.id == command.body.comparisonId), DuplicateId);
    var candidates :- ResolveCompletedRunCandidates(state, command.body.projectId, command.body.nodeShas);
    var _ :- ValidateComparisonFindings(command.body.nodeShas, command.body.findings);
    var kind :- RequestedKind(state, command.body.projectId, command.body.request, candidates);
    var comparison := AlternativeComparison(command.body.comparisonId, command.body.projectId, command.body.nodeShas, command.body.findings,
                                            command.body.summary, command.meta.requestedAt, kind);
    var _ :- ValidateComparisonCohortOverlap(state.comparisons, comparison);
    Ok(comparison)
  }

  function ValidateComparison(state: ProjectState, comparison: AlternativeComparison): Outcome<()> {
    var _ :- Need(!(exists c :: c in state.comparisons && c.id == comparison.id), DuplicateId);
    var candidates :- ResolveCompletedRunCandidates(state, comparison.projectId, comparison.nodeShas);
    var _ :- ValidateComparisonFindings(comparison.nodeShas, comparison.findings);
    var _ :- (match comparison.kind
              case SiblingRuns(parentNodeSha) =>
                Need(forall c | c in candidates :: c.node.origin.parentSha == parentNodeSha, InvariantViolation)
              case CoachedHowExperiment(anchorNodeSha, goalDigest) =>
                var actual :- ValidateCoachedHowExperimentCandidates(state, comparison.projectId, anchorNodeSha, candidates);
                Need(actual == goalDigest, InvariantViolation));
    ValidateComparisonCohortOverlap(state.comparisons, comparison)
  }

  /** A prior selection of the Project whose comparison lies in the cohort. */
  predicate CohortHasSelection(state: ProjectState, projectId: ProjectId, key: CohortKey) {
    exists d :: d in state.decisions && d.Selection? && d.projectId == projectId
                && var prior := FindComparison(state.comparisons, projectId, d.comparisonId);
                prior.Some? && ComparisonCohortKey(prior.value) == key
  }

  function ValidateSelectionDecision(state: ProjectState, decision: SelectionDecision, actor: DomainActor): Outcome<()> {
    var _ :- Need(actor.User?, UserConfirmationRequired);
    var _ :- ValidateDecisionId(state, decision.id);
    var comparison := FindComparison(state.comparisons, decision.projectId, decision.comparisonId);
    if comparison.None? then Err(NotFound)
    else
      var _ :- Need(decision.selectedNodeSha in comparison.value.nodeShas, InvariantViolation);
      var _ :- Need(!IsRejectedNode(state.decisions, decision.projectId, decision.selectedNodeSha), InvalidTransition);
      Need(!CohortHasSelection(state, decision.projectId, ComparisonCohortKey(comparison.value)), InvalidTransition)
  }

  function ValidateRejectionDecision(state: ProjectState, decision: RejectionDecision, actor: DomainActor): Outcome<()> {
    var _ :- Need(actor.User?, UserConfirmationRequired);
    var _ :- ValidateDecisionId(state, decision.id);
    var comparison := FindComparison(state.comparisons, decision.projectId, decision.comparisonId);
    if comparison.None? then Err(NotFound)
    else
      var _ :- Need(Distinct(decision.rejectedNodeShas), InvariantViolation);
      var _ :- Need(forall sha | sha in decision.rejectedNodeShas :: sha in comparison.value.nodeShas, InvariantViolation);
      var _ :- Need(forall sha | sha in decision.rejectedNodeShas ::
                      !IsSelectedNode(state.decisions, decision.projectId, sha), InvalidTransition);
      Need(forall sha | sha in decision.rejectedNodeShas ::
             !IsRejectedNode(state.decisions, decision.projectId, sha), InvalidTransition)
  }

  // ------------------------------------------------------------- decide and apply

  /** What an accepted command emits: one event, or a pair whose second event has an id of its own. */
  datatype Decided = One(body: EventBody) | Two(first: EventBody, second: EventBody, secondId: EventId)

  function DecideCreateProject(state: ProjectState, command: ProjectCommand, integrity: IntegrityBoundary): Outcome<Decided>
    requires command.body.CreateProject?
  {
    var body := command.body;
    var _ :- ValidateProjectCreation(state, body.project, body.rootNode, body.payload, command.meta.actor, integrity);
    Ok(Two(ProjectCreated(body.project), RootNodeRegistered(body.rootNode, body.payload), body.rootNodeEventId))
  }

  function DecideRebuild(state: ProjectState, projectId: ProjectId, actor: DomainActor): Outcome<Decided> {
    var _ :- ValidateProjectRebuild(state, projectId, actor);
    Ok(One(ProjectMaterializationsRebuilt(projectId)))
  }

  function DecideStartRun(state: ProjectState, command: ProjectCommand): Outcome<Decided>
    requires command.body.StartRun?
  {
    var run :- BuildRunningRun(state, command);
    Ok(One(RunStarted(run)))
  }

  function DecideCheckpoint(state: ProjectState, checkpoint: RunCheckpoint): Outcome<Decided> {
    var _ :- ValidateCheckpoint(state, checkpoint);
    Ok(One(RunCheckpointed(checkpoint)))
  }

  function DecideEvidence(state: ProjectState, evidence: EvidenceRef): Outcome<Decided> {
    var _ :- ValidateEvidence(state, evidence);
    Ok(One(RunEvidenceAttached(evidence)))
  }

  function DecideCompleteRun(state: ProjectState, command: ProjectCommand, integrity: IntegrityBoundary): Outcome<Decided>
    requires command.body.CompleteRun?
  {
    var body := command.body;
    var _ :- ValidateRunCompletion(state, body.result, body.runChild, body.payload, command.meta.requestedAt, integrity);
    Ok(Two(RunCompleted(body.result), RunChildNodeRegistered(body.runChild, body.payload), body.nodeEventId))
  }

  function DecideFailRun(state: ProjectState, runId: RunId, reason: string): Outcome<Decided> {
    var _ :- FindRunningRun(state.runs, runId);
    Ok(One(RunFailed(runId, reason)))
  }

  function DecideCancelRun(state: ProjectState, runId: RunId, reason: string): Outcome<Decided> {
    var _ :- FindRunningRun(state.runs, runId);
    Ok(One(RunCanceled(runId, reason)))
  }

  function DecideCoachReview(state: ProjectState, review: CoachReview, actor: DomainActor): Outcome<Decided> {
    var _ :- ValidateCoachReview(state, review, actor);
    Ok(One(CoachReviewRecorded(review)))
  }

  function DecideProposal(state: ProjectState, proposal: CoachingProposal, meta: CommandMetadata): Outcome<Decided> {
    var _ :- Need(proposal.expectedStateSha == meta.expectedStateSha, InvariantViolation);
    var _ :- ValidateCoachingProposal(state, proposal, meta.actor);
    Ok(One(CoachingProposalRecorded(proposal)))
  }

  function DecideConfirmation(state: ProjectState, command: ProjectCommand, integrity: IntegrityBoundary): Outcome<Decided>
    requires command.body.ConfirmCoachingProposal?
  {
    var body := command.body;
    var confirmation :- BuildCoachingConfirmation(state, command, integrity);
    Ok(Two(CoachingProposalConfirmed(confirmation), CoachingChildNodeRegistered(body.coachingChild, body.payload), body.nodeEventId))
  }

  function DecideProposalRejection(state: ProjectState, command: ProjectCommand): Outcome<Decided>
    requires command.body.RejectCoachingProposal?
  {
    var rejection :- BuildCoachingRejection(state, command);
    Ok(One(CoachingProposalRejected(rejection)))
  }

  function DecideComparison(state: ProjectState, command: ProjectCommand): Outcome<Decided>
    requires command.body.CompareAlternatives?
  {
    var comparison :- BuildComparison(state, command);
    Ok(One(AlternativesCompared(comparison)))
  }

  function DecideSelection(state: ProjectState, decision: SelectionDecision, actor: DomainActor): Outcome<Decided> {
    var _ :- ValidateSelectionDecision(state, decision, actor);
    Ok(One(AlternativeSelected(decision)))
  }

  function DecideRejection(state: ProjectState, decision: RejectionDecision, actor: DomainActor): Outcome<Decided> {
    var _ :- ValidateRejectionDecision(state, decision, actor);
    Ok(One(AlternativesRejected(decision)))
  }

  predicate IsRunCommand(body: CommandBody) {
    body.StartRun? || body.CheckpointRun? || body.AttachRunEvidence? || body.CompleteRun? || body.FailRun? || body.CancelRun?
  }

  predicate IsCoachingCommand(body: CommandBody) {
    body.RecordCoachReview? || body.RecordCoachingProposal? || body.ConfirmCoachingProposal? || body.RejectCoachingProposal?
  }

  predicate IsAlternativesCommand(body: CommandBody) {
    body.CompareAlternatives? || body.SelectAlternative? || body.RejectAlternatives?
  }

  function DecideRunCommand(state: ProjectState, command: ProjectCommand, integrity: IntegrityBoundary): Outcome<Decided>
    requires IsRunCommand(command.body)
  {
    match command.body
    case StartRun(_, _, _, _, _) => DecideStartRun(state, command)
    case CheckpointRun(checkpoint) => DecideCheckpoint(state, checkpoint)
    case AttachRunEvidence(evidence) => DecideEvidence(state, evidence)
    case CompleteRun(_, _, _, _) => DecideCompleteRun(state, command, integrity)
    case FailRun(runId, reason) => DecideFailRun(state, runId, reason)
    case CancelRun(runId, reason) => DecideCancelRun(state, runId, reason)
  }

  function DecideCoachingCommand(state: ProjectState, command: ProjectCommand, integrity: IntegrityBoundary): Outcome<Decided>
    requires IsCoachingCommand(command.body)
  {
    match command.body
    case RecordCoachReview(review) => DecideCoachReview(state, review, command.meta.actor)
    case RecordCoachingProposal(proposal) => DecideProposal(state, proposal, command.meta)
    case ConfirmCoachingProposal(_, _, _, _, _, _) => DecideConfirmation(state, command, integrity)
    case RejectCoachingProposal(_, _, _) => DecideProposalRejection(state, command)
  }

  function DecideAlternativesCommand(state: ProjectState, command: ProjectCommand): Outcome<Decided>
    requires IsAlternativesCommand(command.body)
  {
    match command.body
    case CompareAlternatives(_, _, _, _, _, _) => DecideComparison(state, command)
    case SelectAlternative(decisionId, projectId, comparisonId, selectedNodeSha, rationale) =>
      DecideSelection(state, Selection(decisionId, projectId, comparisonId, selectedNodeSha, rationale, command.meta.requestedAt),
                      command.meta.actor)
    case RejectAlternatives(decisionId, projectId, comparisonId, rejectedNodeShas, rationale) =>
      DecideRejection(state, Rejection(decisionId, projectId, comparisonId, rejectedNodeShas, rationale, command.meta.requestedAt),
                      command.meta.actor)
  }

  /** The cases of `decideProjectCommand`, before ids and metadata. */
  function Decide(state: ProjectState, command: ProjectCommand, integrity: IntegrityBoundary): Outcome<Decided> {
    if IsRunCommand(command.body) then DecideRunCommand(state, command, integrity)
    else if IsCoachingCommand(command.body) then DecideCoachingCommand(state, command, integrity)
    else if IsAlternativesCommand(command.body) then DecideAlternativesCommand(state, command)
    else match command.body
    case CreateProject(_, _, _, _) => DecideCreateProject(state, command, integrity)
    case RebuildProjectMaterializations(projectId) => DecideRebuild(state, projectId, command.meta.actor)
  }

  function Emit(meta: CommandMetadata, decided: Decided): seq<DomainEvent> {
    match decided
    case One(body) => [DomainEvent(EventMeta(meta, meta.eventId), body)]
    case Two(first, second, secondId) =>
      [DomainEvent(EventMeta(meta, meta.eventId), first), DomainEvent(EventMeta(meta, secondId), second)]
  }

  function DecideProjectCommand(state: ProjectState, command: ProjectCommand, integrity: IntegrityBoundary): Outcome<CommandDecision> {
    var retry :- DecideRetry(state.processedCommands, command.meta);
    if retry.Some? then Ok(retry.value) else
    var decided :- Decide(state, command, integrity);
    var _ :- if decided.Two? then ValidateAdditionalEventId(state.processedCommands, command.meta.eventId, decided.secondId) else Ok(());
    Ok(Accepted(Emit(command.meta, decided)))
  }

  // The state each kind of event leads to, apart from the record of processed commands.

  function ApplyProjectCreated(state: ProjectState, project: Project, actor: DomainActor): Outcome<ProjectState> {
    var _ :- AsInvalidEvent(ValidateProjectEvent(state, project, actor));
    Ok(state.(projects := state.projects + [project]))
  }

  function ApplyMaterializationsRebuilt(state: ProjectState, projectId: ProjectId, actor: DomainActor): Outcome<ProjectState> {
    var _ :- AsInvalidEvent(ValidateProjectRebuild(state, projectId, actor));
    Ok(state)
  }

  function ApplyRootNode(state: ProjectState, node: RootNode, payload: NodePayloadEnvelope, meta: EventMetadata,
                         integrity: IntegrityBoundary): Outcome<ProjectState>
  {
    var _ :- Need(meta.actor.User?, InvalidEvent);
    var project :- FindProject(state.projects, node.projectId);
    var _ :- Need(project.rootNodeSha == node.commitSha, InvalidEvent);
    var _ :- AsInvalidEvent(ValidateNewNode(state, node, payload, meta.recordedAt, integrity));
    Ok(state.(nodes := state.nodes + [node]))
  }

  function ApplyRunStarted(state: ProjectState, run: RunningRun): Outcome<ProjectState> {
    var _ :- AsInvalidEvent(ValidateRunningRunEvent(state, run));
    Ok(state.(runs := state.runs + [run]))
  }

  function ApplyCheckpoint(state: ProjectState, checkpoint: RunCheckpoint): Outcome<ProjectState> {
    var _ :- AsInvalidEvent(ValidateCheckpoint(state, checkpoint));
    Ok(state.(runs := ReplaceRun(state.runs, checkpoint.runId,
                                 (run: Run) => run.(checkpoints := run.checkpoints + [checkpoint]))))
  }

  function ApplyEvidence(state: ProjectState, evidence: EvidenceRef): Outcome<ProjectState> {
    var _ :- AsInvalidEvent(ValidateEvidence(state, evidence));
    Ok(state.(evidence := state.evidence + [evidence],
              runs := ReplaceRun(state.runs, evidence.runId,
                                 (run: Run) => run.(evidenceIds := run.evidenceIds + [evidence.id]))))
  }

  function ApplyCompletion(state: ProjectState, result: VerifiedRunResult, recordedAt: Timestamp): Outcome<ProjectState> {
    var _ :- AsInvalidEvent(ValidateVerifiedRunResult(state, result));
    Ok(state.(runs := ReplaceRun(state.runs, result.runId,
                                 (run: Run) => run.(status := Completed(result.resultSha, result.verifiedAt, recordedAt)))))
  }

  function ApplyRunChild(state: ProjectState, node: RunChildNode, payload: NodePayloadEnvelope, recordedAt: Timestamp,
                         integrity: IntegrityBoundary): Outcome<ProjectState>
  {
    var run :- AsInvalidEvent(FindCompletedRun(state.runs, node.origin.runId));
    var _ :- AsInvalidEvent(ValidateRunChildNode(state, run, node, payload, recordedAt, integrity));
    Ok(state.(nodes := state.nodes + [node]))
  }

  function ApplyRunFailed(state: ProjectState, runId: RunId, reason: string, recordedAt: Timestamp): Outcome<ProjectState> {
    var _ :- AsInvalidEvent(FindRunningRun(state.runs, runId));
    Ok(state.(runs := ReplaceRun(state.runs, runId, (run: Run) => run.(status := Failed(recordedAt, reason)))))
  }

  function ApplyRunCanceled(state: ProjectState, runId: RunId, reason: string, recordedAt: Timestamp): Outcome<ProjectState> {
    var _ :- AsInvalidEvent(FindRunningRun(state.runs, runId));
    Ok(state.(runs := ReplaceRun(state.runs, runId, (run: Run) => run.(status := Canceled(recordedAt, reason)))))
  }

  function ApplyCoachReview(state: ProjectState, review: CoachReview, actor: DomainActor): Outcome<ProjectState> {
    var _ :- AsInvalidEvent(ValidateCoachReview(state, review, actor));
    Ok(state.(coachReviews := state.coachReviews + [review]))
  }

  function ApplyProposal(state: ProjectState, proposal: CoachingProposal, actor: DomainActor): Outcome<ProjectState> {
    var _ :- AsInvalidEvent(ValidateCoachingProposal(state, proposal, actor));
    Ok(state.(coachingProposals := state.coachingProposals + [proposal]))
  }

  function ApplyConfirmation(state: ProjectState, confirmation: ConfirmedDecision, actor: DomainActor): Outcome<ProjectState> {
    var _ :- AsInvalidEvent(FindConfirmableCoachingProposal(state, confirmation.proposalId, actor));
    var _ :- AsInvalidEvent(ValidateDecisionId(state, confirmation.id));
    Ok(state.(coachingProposalDecisions := state.coachingProposalDecisions + [confirmation]))
  }

  function ApplyCoachingChild(state: ProjectState, node: CoachingChildNode, payload: NodePayloadEnvelope, recordedAt: Timestamp,
                              integrity: IntegrityBoundary): Outcome<ProjectState>
  {
    var _ :- AsInvalidEvent(ValidateCoachingChildEvent(state, node, payload, recordedAt, integrity));
    Ok(state.(nodes := state.nodes + [node]))
  }

  function ApplyProposalRejection(state: ProjectState, rejection: RejectedDecision, actor: DomainActor): Outcome<ProjectState> {
    var _ :- AsInvalidEvent(FindOpenCoachingProposal(state, rejection.proposalId, actor));
    var _ :- AsInvalidEvent(ValidateDecisionId(state, rejection.id));
    Ok(state.(coachingProposalDecisions := state.coachingProposalDecisions + [rejection]))
  }

  function ApplyComparison(state: ProjectState, comparison: AlternativeComparison): Outcome<ProjectState> {
    var _ :- AsInvalidEvent(ValidateComparison(state, comparison));
    Ok(state.(comparisons := state.comparisons + [comparison]))
  }

  function ApplySelection(state: ProjectState, selection: SelectionDecision, actor: DomainActor): Outcome<ProjectState> {
    var _ :- AsInvalidEvent(ValidateSelectionDecision(state, selection, actor));
    Ok(state.(decisions := state.decisions + [selection]))
  }

  function ApplyRejection(state: ProjectState, rejection: RejectionDecision, actor: DomainActor): Outcome<ProjectState> {
    var _ :- AsInvalidEvent(ValidateRejectionDecision(state, rejection, actor));
    Ok(state.(decisions := state.decisions + [rejection]))
  }

  predicate IsRunBody(body: EventBody) {
    body.RunStarted? || body.RunCheckpointed? || body.RunEvidenceAttached? || body.RunCompleted?
    || body.RunChildNodeRegistered? || body.RunFailed? || body.RunCanceled?
  }

  predicate IsCoachingBody(body: EventBody) {
    body.CoachReviewRecorded? || body.CoachingProposalRecorded? || body.CoachingProposalConfirmed?
    || body.CoachingChildNodeRegistered? || body.CoachingProposalRejected?
  }

  predicate IsAlternativesBody(body: EventBody) {
    body.AlternativesCompared? || body.AlternativeSelected? || body.AlternativesRejected?
  }

  function RunEffect(state: ProjectState, body: EventBody, recordedAt: Timestamp, integrity: IntegrityBoundary): Outcome<ProjectState>
    requires IsRunBody(body)
  {
    match body
    case RunStarted(run) => ApplyRunStarted(state, run)
    case RunCheckpointed(checkpoint) => ApplyCheckpoint(state, checkpoint)
    case RunEvidenceAttached(evidence) => ApplyEvidence(state, evidence)
    case RunCompleted(result) => ApplyCompletion(state, result, recordedAt)
    case RunChildNodeRegistered(node, payload) => ApplyRunChild(state, node, payload, recordedAt, integrity)
    case RunFailed(runId, reason) => ApplyRunFailed(state, runId, reason, recordedAt)
    case RunCanceled(runId, reason) => ApplyRunCanceled(state, runId, reason, recordedAt)
  }

  function CoachingEffect(state: ProjectState, body: EventBody, meta: EventMetadata, integrity: IntegrityBoundary): Outcome<ProjectState>
    requires IsCoachingBody(body)
  {
    match body
    case CoachReviewRecorded(review) => ApplyCoachReview(state, review, meta.actor)
    case CoachingProposalRecorded(proposal) => ApplyProposal(state, proposal, meta.actor)
    case CoachingProposalConfirmed(confirmation) => ApplyConfirmation(state, confirmation, meta.actor)
    case CoachingChildNodeRegistered(node, payload) => ApplyCoachingChild(state, node, payload, meta.recordedAt, integrity)
    case CoachingProposalRejected(rejection) => ApplyProposalRejection(state, rejection, meta.actor)
  }

  function AlternativesEffect(state: ProjectState, body: EventBody, actor: DomainActor): Outcome<ProjectState>
    requires IsAlternativesBody(body)
  {
    match body
    case AlternativesCompared(comparison) => ApplyComparison(state, comparison)
    case AlternativeSelected(selection) => ApplySelection(state, selection, actor)
    case AlternativesRejected(rejection) => ApplyRejection(state, rejection, actor)
  }

  function Effect(state: ProjectState, event: DomainEvent, integrity: IntegrityBoundary): Outcome<ProjectState> {
    if IsRunBody(event.body) then RunEffect(state, event.body, event.meta.recordedAt, integrity)
    else if IsCoachingBody(event.body) then CoachingEffect(state, event.body, event.meta, integrity)
    else if IsAlternativesBody(event.body) then AlternativesEffect(state, event.body, event.meta.actor)
    else match event.body
    case ProjectCreated(project) => ApplyProjectCreated(state, project, event.meta.actor)
    case ProjectMaterializationsRebuilt(projectId) => ApplyMaterializationsRebuilt(state, projectId, event.meta.actor)
    case RootNodeRegistered(node, payload) => ApplyRootNode(state, node, payload, event.meta, integrity)
  }

  function ApplyDomainEvent(state: ProjectState, event: DomainEvent, integrity: IntegrityBoundary): Outcome<ProjectState> {
    var _ :- ValidateEventIdentity(state.processedCommands, event.meta);
    var next :- Effect(state, event, integrity);
    Ok(Finish(next, event.meta))
  }

  /** Applies the events in order, stopping at the first failure. */
  function ApplyEvents(state: ProjectState, events: seq<DomainEvent>, integrity: IntegrityBoundary): Outcome<ProjectState>
    decreases |events|
  {
    if events == [] then Ok(state)
    else
      var next :- ApplyDomainEvent(state, events[0], integrity);
      ApplyEvents(next, events[1..], integrity)
  }

  function ApplyProjectCommand(state: ProjectState, command: ProjectCommand, integrity: IntegrityBoundary): Outcome<CommandApplication> {
    var decision :- DecideProjectCommand(state, command, integrity);
    match decision
    case Reused(eventIds) => Ok(CommandApplication(state, [], eventIds))
    case Accepted(events) =>
      var next :- ApplyEvents(state, events, integrity);
      Ok(CommandApplication(next, events, []))
  }
}

/** Deciding and applying are written separately; here is exactly when what one emits the other accepts. */
module EngineAgreement {
  import opened Prelude
  import opened Protocol
  import opened Engine
  import opened Batches
  import opened Invariant
  import opened Replay

  // ------------------------------------------------ the shape of what is decided

  lemma DecidedTypes(s: ProjectState, command: ProjectCommand, integrity: IntegrityBoundary, d: Decided)
    requires Decide(s, command, integrity) == Ok(d)
    ensures CompleteBatch(Emit(command.meta, d))
  {
  }

  lemma DecisionShape(s: ProjectState, command: ProjectCommand, integrity: IntegrityBoundary, events: seq<DomainEvent>)
    requires DecideProjectCommand(s, command, integrity) == Ok(Accepted(events))
    ensures CompleteBatch(events)
    ensures FindProcessed(s.processedCommands, command.meta.idempotencyKey).None?
    ensures events[0].meta == EventMeta(command.meta, command.meta.eventId)
    ensures |events| == 2 ==>
              && events[1].meta == EventMeta(command.meta, events[1].meta.eventId)
              && events[1].meta.eventId != command.meta.eventId
              && !EventIdUsed(s.processedCommands, events[1].meta.eventId)
  {
    DecidedTypes(s, command, integrity, Decide(s, command, integrity).value);
  }

  // ------------------------------------- the first effect, one command at a time

  function FirstBody(d: Decided): EventBody {
    if d.One? then d.body else d.first
  }

  ghost predicate FirstApplies(s: ProjectState, d: Decided, meta: EventMetadata, integrity: IntegrityBoundary) {
    Effect(s, DomainEvent(meta, FirstBody(d)), integrity).Ok?
  }

  lemma RebuildIsApplied(s: ProjectState, projectId: ProjectId, meta: EventMetadata, integrity: IntegrityBoundary, d: Decided)
    requires DecideRebuild(s, projectId, meta.actor) == Ok(d)
    ensures FirstApplies(s, d, meta, integrity)
  {
  }

  lemma CheckpointIsApplied(s: ProjectState, checkpoint: RunCheckpoint, meta: EventMetadata, integrity: IntegrityBoundary, d: Decided)
    requires DecideCheckpoint(s, checkpoint) == Ok(d)
    ensures FirstApplies(s, d, meta, integrity)
  {
  }

  lemma EvidenceIsApplied(s: ProjectState, evidence: EvidenceRef, meta: EventMetadata, integrity: IntegrityBoundary, d: Decided)
    requires DecideEvidence(s, evidence) == Ok(d)
    ensures FirstApplies(s, d, meta, integrity)
  {
  }

  lemma FailureIsApplied(s: ProjectState, runId: RunId, reason: string, meta: EventMetadata, integrity: IntegrityBoundary, d: Decided)
    requires DecideFailRun(s, runId, reason) == Ok(d)
    ensures FirstApplies(s, d, meta, integrity)
  {
  }

  lemma CancellationIsApplied(s: ProjectState, runId: RunId, reason: string, meta: EventMetadata, integrity: IntegrityBoundary, d: Decided)
    requires DecideCancelRun(s, runId, reason) == Ok(d)
    ensures FirstApplies(s, d, meta, integrity)
  {
  }

  lemma CoachReviewIsApplied(s: ProjectState, review: CoachReview, meta: EventMetadata, integrity: IntegrityBoundary, d: Decided)
    requires DecideCoachReview(s, review, meta.actor) == Ok(d)
    ensures FirstApplies(s, d, meta, integrity)
  {
  }

  lemma ProposalIsApplied(s: ProjectState, proposal: CoachingProposal, request: CommandMetadata, meta: EventMetadata, integrity: IntegrityBoundary, d: Decided)
    requires DecideProposal(s, proposal, request) == Ok(d) && meta.actor == request.actor
    ensures FirstApplies(s, d, meta, integrity)
  {
  }

  lemma SelectionIsApplied(s: ProjectState, decision: SelectionDecision, meta: EventMetadata, integrity: IntegrityBoundary, d: Decided)
    requires DecideSelection(s, decision, meta.actor) == Ok(d)
    ensures FirstApplies(s, d, meta, integrity)
  {
  }

  lemma RejectionIsApplied(s: ProjectState, decision: RejectionDecision, meta: EventMetadata, integrity: IntegrityBoundary, d: Decided)
    requires DecideRejection(s, decision, meta.actor) == Ok(d)
    ensures FirstApplies(s, d, meta, integrity)
  {
  }

  lemma CreationIsApplied(s: ProjectState, command: ProjectCommand, integrity: IntegrityBoundary, d: Decided)
    requires command.body.CreateProject? && DecideCreateProject(s, command, integrity) == Ok(d)
    ensures FirstApplies(s, d, EventMeta(command.meta, command.meta.eventId), integrity)
  {
  }

  lemma StartIsApplied(s: ProjectState, command: ProjectCommand, integrity: IntegrityBoundary, d: Decided)
    requires command.body.StartRun? && DecideStartRun(s, command) == Ok(d)
    ensures FirstApplies(s, d, EventMeta(command.meta, command.meta.eventId), integrity)
  {
    var source := FindNode(s.nodes, command.body.projectId, command.body.sourceNodeSha).value;
    var goals := MatchingGoals(source.plan, command.body.goalDigest);
    assert goals[0] in goals;
    assert ValidateRunningRunEvent(s, BuildRunningRun(s, command).value).Ok?;
  }

  lemma CompletionIsApplied(s: ProjectState, command: ProjectCommand, integrity: IntegrityBoundary, d: Decided)
    requires command.body.CompleteRun? && DecideCompleteRun(s, command, integrity) == Ok(d)
    ensures FirstApplies(s, d, EventMeta(command.meta, command.meta.eventId), integrity)
  {
    assert ValidateVerifiedRunResult(s, command.body.result).Ok?;
  }

  lemma DecidedConfirmation(s: ProjectState, command: ProjectCommand, integrity: IntegrityBoundary, d: Decided)
    requires command.body.ConfirmCoachingProposal? && DecideConfirmation(s, command, integrity) == Ok(d)
    ensures BuildCoachingConfirmation(s, command, integrity).Ok?
    ensures d == Two(CoachingProposalConfirmed(BuildCoachingConfirmation(s, command, integrity).value),
                     CoachingChildNodeRegistered(command.body.coachingChild, command.body.payload), command.body.nodeEventId)
  {
  }

  lemma ConfirmationIsValid(s: ProjectState, command: ProjectCommand, integrity: IntegrityBoundary)
    requires command.body.ConfirmCoachingProposal? && BuildCoachingConfirmation(s, command, integrity).Ok?
    ensures ApplyConfirmation(s, BuildCoachingConfirmation(s, command, integrity).value, command.meta.actor).Ok?
  {
  }

  lemma ConfirmationIsApplied(s: ProjectState, command: ProjectCommand, integrity: IntegrityBoundary, d: Decided)
    requires command.body.ConfirmCoachingProposal? && DecideConfirmation(s, command, integrity) == Ok(d)
    ensures FirstApplies(s, d, EventMeta(command.meta, command.meta.eventId), integrity)
  {
    DecidedConfirmation(s, command, integrity, d);
    ConfirmationIsValid(s, command, integrity);
  }

  lemma ProposalRejectionIsApplied(s: ProjectState, command: ProjectCommand, integrity: IntegrityBoundary, d: Decided)
    requires command.body.RejectCoachingProposal? && DecideProposalRejection(s, command) == Ok(d)
    ensures FirstApplies(s, d, EventMeta(command.meta, command.meta.eventId), integrity)
  {
  }

  lemma BuiltComparisonIsValid(s: ProjectState, command: ProjectCommand)
    requires command.body.CompareAlternatives? && BuildComparison(s, command).Ok?
    ensures ApplyComparison(s, BuildComparison(s, command).value).Ok?
  {
    BuiltComparisonValidates(s, command);
  }

  /** What the check of a comparison asks of its kind. */
  ghost predicate KindFits(s: ProjectState, projectId: ProjectId, candidates: seq<Candidate>, kind: ComparisonKind) {
    match kind
    case SiblingRuns(parentNodeSha) => forall c | c in candidates :: c.node.origin.parentSha == parentNodeSha
    case CoachedHowExperiment(anchorNodeSha, goalDigest) =>
      candidates != [] && ValidateCoachedHowExperimentCandidates(s, projectId, anchorNodeSha, candidates) == Ok(goalDigest)
  }

  lemma RequestedKindFits(s: ProjectState, projectId: ProjectId, request: ComparisonRequest, candidates: seq<Candidate>)
    requires candidates != [] && RequestedKind(s, projectId, request, candidates).Ok?
    ensures KindFits(s, projectId, candidates, RequestedKind(s, projectId, request, candidates).value)
  {
  }

  lemma BuiltFromParts(s: ProjectState, command: ProjectCommand)
    requires command.body.CompareAlternatives? && BuildComparison(s, command).Ok?
    ensures var built := BuildComparison(s, command).value;
            var candidates := ResolveCompletedRunCandidates(s, command.body.projectId, command.body.nodeShas);
            && candidates.Ok? && candidates.value != []
            && RequestedKind(s, command.body.projectId, command.body.request, candidates.value) == Ok(built.kind)
            && built.id == command.body.comparisonId && built.projectId == command.body.projectId
            && built.nodeShas == command.body.nodeShas && built.findings == command.body.findings
            && !(exists c :: c in s.comparisons && c.id == built.id)
            && ValidateComparisonFindings(built.nodeShas, built.findings).Ok?
            && ValidateComparisonCohortOverlap(s.comparisons, built).Ok?
  {
  }

  lemma FittingComparisonIsValid(s: ProjectState, comparison: AlternativeComparison, candidates: seq<Candidate>)
    requires !(exists c :: c in s.comparisons && c.id == comparison.id)
    requires ResolveCompletedRunCandidates(s, comparison.projectId, comparison.nodeShas) == Ok(candidates)
    requires ValidateComparisonFindings(comparison.nodeShas, comparison.findings).Ok?
    requires KindFits(s, comparison.projectId, candidates, comparison.kind)
    requires ValidateComparisonCohortOverlap(s.comparisons, comparison).Ok?
    ensures ValidateComparison(s, comparison).Ok?
  {
  }

  lemma BuiltComparisonValidates(s: ProjectState, command: ProjectCommand)
    requires command.body.CompareAlternatives? && BuildComparison(s, command).Ok?
    ensures ValidateComparison(s, BuildComparison(s, command).value).Ok?
  {
    BuiltFromParts(s, command);
    var candidates := ResolveCompletedRunCandidates(s, command.body.projectId, command.body.nodeShas).value;
    RequestedKindFits(s, command.body.projectId, command.body.request, candidates);
    FittingComparisonIsValid(s, BuildComparison(s, command).value, candidates);
  }

  lemma ValidComparisonIsApplied(s: ProjectState, comparison: AlternativeComparison, meta: EventMetadata, integrity: IntegrityBoundary)
    requires ApplyComparison(s, comparison).Ok?
    ensures FirstApplies(s, One(AlternativesCompared(comparison)), meta, integrity)
  {
  }

  lemma DecidedComparison(s: ProjectState, command: ProjectCommand, d: Decided)
    requires command.body.CompareAlternatives? && DecideComparison(s, command) == Ok(d)
    ensures BuildComparison(s, command).Ok? && d == One(AlternativesCompared(BuildComparison(s, command).value))
  {
  }

  lemma ComparisonIsApplied(s: ProjectState, command: ProjectCommand, integrity: IntegrityBoundary, d: Decided)
    requires command.body.CompareAlternatives? && DecideComparison(s, command) == Ok(d)
    ensures FirstApplies(s, d, EventMeta(command.meta, command.meta.eventId), integrity)
  {
    DecidedComparison(s, command, d);
    BuiltComparisonIsValid(s, command);
    ValidComparisonIsApplied(s, BuildComparison(s, command).value, EventMeta(command.meta, command.meta.eventId), integrity);
  }

  lemma FirstRunEffect(s: ProjectState, command: ProjectCommand, integrity: IntegrityBoundary, d: Decided)
    requires IsRunCommand(command.body) && DecideRunCommand(s, command, integrity) == Ok(d)
    ensures FirstApplies(s, d, EventMeta(command.meta, command.meta.eventId), integrity)
  {
    var meta := EventMeta(command.meta, command.meta.eventId);
    match command.body
    case StartRun(_, _, _, _, _) => StartIsApplied(s, command, integrity, d);
    case CheckpointRun(checkpoint) => CheckpointIsApplied(s, checkpoint, meta, integrity, d);
    case AttachRunEvidence(evidence) => EvidenceIsApplied(s, evidence, meta, integrity, d);
    case CompleteRun(_, _, _, _) => CompletionIsApplied(s, command, integrity, d);
    case FailRun(runId, reason) => FailureIsApplied(s, runId, reason, meta, integrity, d);
    case CancelRun(runId, reason) => CancellationIsApplied(s, runId, reason, meta, integrity, d);
  }

  lemma FirstCoachingEffect(s: ProjectState, command: ProjectCommand, integrity: IntegrityBoundary, d: Decided)
    requires IsCoachingCommand(command.body) && DecideCoachingCommand(s, command, integrity) == Ok(d)
    ensures FirstApplies(s, d, EventMeta(command.meta, command.meta.eventId), integrity)
  {
    var meta := EventMeta(command.meta, command.meta.eventId);
    match command.body
    case RecordCoachReview(review) => CoachReviewIsApplied(s, review, meta, integrity, d);
    case RecordCoachingProposal(proposal) => ProposalIsApplied(s, proposal, command.meta, meta, integrity, d);
    case ConfirmCoachingProposal(_, _, _, _, _, _) => ConfirmationIsApplied(s, command, integrity, d);
    case RejectCoachingProposal(_, _, _) => ProposalRejectionIsApplied(s, command, integrity, d);
  }

  lemma FirstAlternativesEffect(s: ProjectState, command: ProjectCommand, integrity: IntegrityBoundary, d: Decided)
    requires IsAlternativesCommand(command.body) && DecideAlternativesCommand(s, command) == Ok(d)
    ensures FirstApplies(s, d, EventMeta(command.meta, command.meta.eventId), integrity)
  {
    var meta, requestedAt := EventMeta(command.meta, command.meta.eventId), command.meta.requestedAt;
    match command.body
    case CompareAlternatives(_, _, _, _, _, _) => ComparisonIsApplied(s, command, integrity, d);
    case SelectAlternative(decisionId, projectId, comparisonId, sha, rationale) =>
      SelectionIsApplied(s, Selection(decisionId, projectId, comparisonId, sha, rationale, requestedAt), meta, integrity, d);
    case RejectAlternatives(decisionId, projectId, comparisonId, shas, rationale) =>
      RejectionIsApplied(s, Rejection(decisionId, projectId, comparisonId, shas, rationale, requestedAt), meta, integrity, d);
  }

  /** The first event of a decision is always accepted by the state that was decided on. */
  lemma FirstEffect(s: ProjectState, command: ProjectCommand, integrity: IntegrityBoundary, d: Decided)
    requires Decide(s, command, integrity) == Ok(d)
    ensures FirstApplies(s, d, EventMeta(command.meta, command.meta.eventId), integrity)
  {
    if IsRunCommand(command.body) {
      FirstRunEffect(s, command, integrity, d);
    } else if IsCoachingCommand(command.body) {
      FirstCoachingEffect(s, command, integrity, d);
    } else if IsAlternativesCommand(command.body) {
      FirstAlternativesEffect(s, command, integrity, d);
    } else if command.body.CreateProject? {
      CreationIsApplied(s, command, integrity, d);
    } else {
      RebuildIsApplied(s, command.body.projectId, EventMeta(command.meta, command.meta.eventId), integrity, d);
    }
  }

  lemma {:induction false} FirstSkips<T>(s: seq<T>, x: T, p: T -> bool)
    requires First(s, p).None?
    ensures First(s + [x], p) == if p(x) then Some(x) else None
  {
    if s == [] {
      assert s + [x] == [x];
    } else {
      assert (s + [x])[1..] == s[1..] + [x];
      FirstSkips(s[1..], x, p);
    }
  }

  /** The root of a new Project is accepted exactly when it was registered at the time of the request. */
  lemma RootIsApplied(s: ProjectState, project: Project, node: RootNode, payload: NodePayloadEnvelope, meta: EventMetadata,
                      integrity: IntegrityBoundary, t: ProjectState)
    requires ValidateProjectCreation(s, project, node, payload, meta.actor, integrity).Ok?
    requires forall n | n in s.nodes :: HasProject(s.projects, n.projectId)
    requires t.projects == s.projects + [project] && t.nodes == s.nodes
    ensures ApplyRootNode(t, node, payload, meta, integrity).Ok? <==> node.registeredAt == meta.recordedAt
  {
    FirstSkips(s.projects, project, (p: Project) => p.id == node.projectId);
    assert FindProject(t.projects, node.projectId) == Ok(project);
    forall n | n in s.nodes ensures n.projectId != node.projectId {
      assert HasProject(s.projects, n.projectId);
    }
    assert FindNode(t.nodes, node.projectId, node.commitSha).Err?;
  }

  lemma {:induction false} CompletedRunIsFound(runs: seq<Run>, id: RunId, replace: Run -> Run)
    requires FindRunningRun(runs, id).Ok?
    requires forall run: Run :: replace(run).id == run.id
    ensures FindRun(ReplaceRun(runs, id, replace), id) == Ok(replace(FindRun(runs, id).value))
  {
    var after := ReplaceRun(runs, id, replace);
    if runs[0].id != id {
      assert after[1..] == ReplaceRun(runs[1..], id, replace);
      CompletedRunIsFound(runs[1..], id, replace);
    }
  }

  predicate CompletedBy(before: ProjectState, command: ProjectCommand, after: ProjectState)
    requires command.body.CompleteRun?
  {
    && after.projects == before.projects && after.nodes == before.nodes
    && after.runs == ReplaceRun(before.runs, command.body.result.runId, (run: Run) =>
         run.(status := Completed(command.body.result.resultSha, command.body.result.verifiedAt, command.meta.requestedAt)))
  }

  lemma RunChildIsValidAfterCompletion(s: ProjectState, run: Run, done: Run, node: RunChildNode, payload: NodePayloadEnvelope,
                                       recordedAt: Timestamp, integrity: IntegrityBoundary, t: ProjectState)
    requires ValidateRunChildNode(s, run, node, payload, recordedAt, integrity).Ok?
    requires done == run.(status := done.status) && done.status.Completed? && done.status.resultNodeSha == node.commitSha
    requires t.projects == s.projects && t.nodes == s.nodes
    ensures ValidateRunChildNode(t, done, node, payload, recordedAt, integrity).Ok?
    ensures node.origin.runId == run.id
  {
  }

  lemma RunChildIsApplied(s: ProjectState, command: ProjectCommand, integrity: IntegrityBoundary, t: ProjectState)
    requires command.body.CompleteRun? && DecideCompleteRun(s, command, integrity).Ok? && CompletedBy(s, command, t)
    ensures ApplyRunChild(t, command.body.runChild, command.body.payload, command.meta.requestedAt, integrity).Ok?
  {
    var result := command.body.result;
    var replace := (run: Run) => run.(status := Completed(result.resultSha, result.verifiedAt, command.meta.requestedAt));
    CompletedRunIsFound(s.runs, result.runId, replace);
    var run := ValidateVerifiedRunResult(s, result).value;
    RunChildIsValidAfterCompletion(s, run, replace(run), command.body.runChild, command.body.payload,
                                   command.meta.requestedAt, integrity, t);
  }

  predicate ConfirmedBy(before: ProjectState, confirmation: ProposalDecision, after: ProjectState) {
    && after.projects == before.projects && after.nodes == before.nodes
    && after.coachingProposals == before.coachingProposals
    && after.coachingProposalDecisions == before.coachingProposalDecisions + [confirmation]
  }

  lemma CoachingChildIsValidAfterConfirmation(s: ProjectState, proposal: CoachingProposal, node: CoachingChildNode,
                                              payload: NodePayloadEnvelope, recordedAt: Timestamp, integrity: IntegrityBoundary,
                                              confirmation: ConfirmedDecision, t: ProjectState)
    requires FindProposal(s.coachingProposals, proposal.id) == Some(proposal)
    requires FindProposalDecision(s.coachingProposalDecisions, proposal.id).None?
    requires ValidateCoachingChild(s, proposal, node, payload, recordedAt, integrity).Ok?
    requires confirmation.proposalId == proposal.id && confirmation.childNodeSha == node.commitSha
    requires ConfirmedBy(s, confirmation, t)
    ensures ApplyCoachingChild(t, node, payload, recordedAt, integrity).Ok?
  {
    FirstSkips(s.coachingProposalDecisions, confirmation, (d: ProposalDecision) => d.proposalId == proposal.id);
    assert FindProposalDecision(t.coachingProposalDecisions, proposal.id) == Some(confirmation);
    SameChildChecks(s, proposal, node, payload, recordedAt, integrity, confirmation, t);
  }

  lemma SameChildChecks(s: ProjectState, proposal: CoachingProposal, node: CoachingChildNode, payload: NodePayloadEnvelope,
                        recordedAt: Timestamp, integrity: IntegrityBoundary, confirmation: ConfirmedDecision, t: ProjectState)
    requires ConfirmedBy(s, confirmation, t)
    ensures ValidateCoachingChild(t, proposal, node, payload, recordedAt, integrity)
         == ValidateCoachingChild(s, proposal, node, payload, recordedAt, integrity)
  {
  }

  lemma CoachingChildIsApplied(s: ProjectState, command: ProjectCommand, integrity: IntegrityBoundary, t: ProjectState)
    requires command.body.ConfirmCoachingProposal? && BuildCoachingConfirmation(s, command, integrity).Ok?
    requires ConfirmedBy(s, BuildCoachingConfirmation(s, command, integrity).value, t)
    ensures ApplyCoachingChild(t, command.body.coachingChild, command.body.payload, command.meta.requestedAt, integrity).Ok?
  {
    var proposal := FindConfirmableCoachingProposal(s, command.body.proposalId, command.meta.actor).value;
    CoachingChildIsValidAfterConfirmation(s, proposal, command.body.coachingChild, command.body.payload, command.meta.requestedAt,
                                          integrity, BuildCoachingConfirmation(s, command, integrity).value, t);
  }

  ghost predicate SecondApplies(t: ProjectState, d: Decided, meta: EventMetadata, integrity: IntegrityBoundary)
    requires d.Two?
  {
    Effect(t, DomainEvent(meta, d.second), integrity).Ok?
  }

  /** `t` is what the first event makes of `s`, whatever the record of processed commands says. */
  ghost predicate AfterFirst(s: ProjectState, d: Decided, meta: EventMetadata, integrity: IntegrityBoundary, t: ProjectState) {
    var u := Effect(s, DomainEvent(meta, FirstBody(d)), integrity);
    u.Ok? && t == u.value.(processedCommands := t.processedCommands)
  }

  lemma DecidedCreation(s: ProjectState, command: ProjectCommand, integrity: IntegrityBoundary, d: Decided)
    requires command.body.CreateProject? && DecideCreateProject(s, command, integrity) == Ok(d)
    ensures d == Two(ProjectCreated(command.body.project), RootNodeRegistered(command.body.rootNode, command.body.payload),
                     command.body.rootNodeEventId)
    ensures ValidateProjectCreation(s, command.body.project, command.body.rootNode, command.body.payload, command.meta.actor, integrity).Ok?
  {
  }

  lemma AfterCreation(s: ProjectState, project: Project, d: Decided, meta: EventMetadata, integrity: IntegrityBoundary, t: ProjectState)
    requires d.Two? && d.first == ProjectCreated(project) && AfterFirst(s, d, meta, integrity, t)
    ensures t.projects == s.projects + [project] && t.nodes == s.nodes
  {
  }

  lemma RootApplies(t: ProjectState, node: RootNode, payload: NodePayloadEnvelope, d: Decided, meta: EventMetadata, integrity: IntegrityBoundary)
    requires d.Two? && d.second == RootNodeRegistered(node, payload)
    ensures SecondApplies(t, d, meta, integrity) <==> ApplyRootNode(t, node, payload, meta, integrity).Ok?
  {
  }

  lemma SecondOfCreation(s: ProjectState, command: ProjectCommand, integrity: IntegrityBoundary, d: Decided, t: ProjectState)
    requires forall n | n in s.nodes :: HasProject(s.projects, n.projectId)
    requires command.body.CreateProject? && DecideCreateProject(s, command, integrity) == Ok(d)
    requires AfterFirst(s, d, EventMeta(command.meta, command.meta.eventId), integrity, t)
    ensures d.Two? && (SecondApplies(t, d, EventMeta(command.meta, d.secondId), integrity)
                       <==> command.body.rootNode.registeredAt == command.meta.requestedAt)
  {
    var body := command.body;
    DecidedCreation(s, command, integrity, d);
    AfterCreation(s, body.project, d, EventMeta(command.meta, command.meta.eventId), integrity, t);
    RootApplies(t, body.rootNode, body.payload, d, EventMeta(command.meta, d.secondId), integrity);
    RootIsApplied(s, body.project, body.rootNode, body.payload, EventMeta(command.meta, d.secondId), integrity, t);
  }

  lemma DecidedCompletion(s: ProjectState, command: ProjectCommand, integrity: IntegrityBoundary, d: Decided)
    requires command.body.CompleteRun? && DecideCompleteRun(s, command, integrity) == Ok(d)
    ensures d == Two(RunCompleted(command.body.result), RunChildNodeRegistered(command.body.runChild, command.body.payload),
                     command.body.nodeEventId)
  {
  }

  lemma AfterCompletion(s: ProjectState, command: ProjectCommand, integrity: IntegrityBoundary, d: Decided, t: ProjectState)
    requires command.body.CompleteRun? && d.Two? && d.first == RunCompleted(command.body.result)
    requires AfterFirst(s, d, EventMeta(command.meta, command.meta.eventId), integrity, t)
    ensures CompletedBy(s, command, t)
  {
  }

  lemma RunChildApplies(t: ProjectState, node: RunChildNode, payload: NodePayloadEnvelope, meta: EventMetadata,
                        integrity: IntegrityBoundary, d: Decided)
    requires ApplyRunChild(t, node, payload, meta.recordedAt, integrity).Ok? && d.Two? && d.second == RunChildNodeRegistered(node, payload)
    ensures SecondApplies(t, d, meta, integrity)
  {
  }

  lemma SecondOfCompletion(s: ProjectState, command: ProjectCommand, integrity: IntegrityBoundary, d: Decided, t: ProjectState)
    requires command.body.CompleteRun? && DecideCompleteRun(s, command, integrity) == Ok(d)
    requires AfterFirst(s, d, EventMeta(command.meta, command.meta.eventId), integrity, t)
    ensures d.Two? && SecondApplies(t, d, EventMeta(command.meta, d.secondId), integrity)
  {
    DecidedCompletion(s, command, integrity, d);
    AfterCompletion(s, command, integrity, d, t);
    RunChildIsApplied(s, command, integrity, t);
    RunChildApplies(t, command.body.runChild, command.body.payload, EventMeta(command.meta, d.secondId), integrity, d);
  }

  lemma AfterConfirmation(s: ProjectState, confirmation: ConfirmedDecision, meta: EventMetadata, integrity: IntegrityBoundary,
                          d: Decided, t: ProjectState)
    requires d.Two? && d.first == CoachingProposalConfirmed(confirmation) && AfterFirst(s, d, meta, integrity, t)
    ensures ConfirmedBy(s, confirmation, t)
  {
  }

  lemma CoachingChildApplies(t: ProjectState, node: CoachingChildNode, payload: NodePayloadEnvelope, meta: EventMetadata,
                             integrity: IntegrityBoundary, d: Decided)
    requires ApplyCoachingChild(t, node, payload, meta.recordedAt, integrity).Ok?
    requires d.Two? && d.second == CoachingChildNodeRegistered(node, payload)
    ensures SecondApplies(t, d, meta, integrity)
  {
  }

  lemma SecondOfConfirmation(s: ProjectState, command: ProjectCommand, integrity: IntegrityBoundary, d: Decided, t: ProjectState)
    requires command.body.ConfirmCoachingProposal? && DecideConfirmation(s, command, integrity) == Ok(d)
    requires AfterFirst(s, d, EventMeta(command.meta, command.meta.eventId), integrity, t)
    ensures d.Two? && SecondApplies(t, d, EventMeta(command.meta, d.secondId), integrity)
  {
    DecidedConfirmation(s, command, integrity, d);
    AfterConfirmation(s, BuildCoachingConfirmation(s, command, integrity).value, EventMeta(command.meta, command.meta.eventId), integrity, d, t);
    CoachingChildIsApplied(s, command, integrity, t);
    CoachingChildApplies(t, command.body.coachingChild, command.body.payload, EventMeta(command.meta, d.secondId), integrity, d);
  }

  lemma PairedCommands(s: ProjectState, command: ProjectCommand, integrity: IntegrityBoundary, d: Decided)
    requires Decide(s, command, integrity) == Ok(d) && d.Two?
    ensures command.body.CreateProject? || command.body.CompleteRun? || command.body.ConfirmCoachingProposal?
  {
  }

  /** The second event is accepted on top of the first, but for a root registered at another time. */
  lemma SecondEffect(s: ProjectState, command: ProjectCommand, integrity: IntegrityBoundary, d: Decided, t: ProjectState)
    requires forall n | n in s.nodes :: HasProject(s.projects, n.projectId)
    requires Decide(s, command, integrity) == Ok(d) && d.Two?
    requires AfterFirst(s, d, EventMeta(command.meta, command.meta.eventId), integrity, t)
    ensures SecondApplies(t, d, EventMeta(command.meta, d.secondId), integrity) <==>
            (command.body.CreateProject? ==> command.body.rootNode.registeredAt == command.meta.requestedAt)
  {
    PairedCommands(s, command, integrity, d);
    if command.body.CreateProject? {
      SecondOfCreation(s, command, integrity, d, t);
    } else if command.body.CompleteRun? {
      SecondOfCompletion(s, command, integrity, d, t);
    } else {
      SecondOfConfirmation(s, command, integrity, d, t);
    }
  }

  // ------------------------------------------------------------------ agreement

  /** What deciding leaves to be checked when its events are applied. */
  predicate Applicable(s: ProjectState, command: ProjectCommand) {
    && !EventIdUsed(s.processedCommands, command.meta.eventId)
    && (command.body.CreateProject? ==> command.body.rootNode.registeredAt == command.meta.requestedAt)
  }

  lemma FirstEventApplies(s: ProjectState, command: ProjectCommand, integrity: IntegrityBoundary, d: Decided)
    requires FindProcessed(s.processedCommands, command.meta.idempotencyKey).None?
    requires FirstApplies(s, d, EventMeta(command.meta, command.meta.eventId), integrity)
    ensures var meta := EventMeta(command.meta, command.meta.eventId);
            ApplyDomainEvent(s, DomainEvent(meta, FirstBody(d)), integrity)
            == if EventIdUsed(s.processedCommands, command.meta.eventId) then Err(InvalidEvent)
               else Ok(Finish(Effect(s, DomainEvent(meta, FirstBody(d)), integrity).value, meta))
  {
  }

  /** The second event of a pair finds its command's record open and its own id free. */
  lemma SecondIdentity(processed: seq<ProcessedCommand>, command: CommandMetadata, secondId: EventId)
    requires FindProcessed(processed, command.idempotencyKey).None?
    requires secondId != command.eventId && !EventIdUsed(processed, secondId)
    ensures ValidateEventIdentity(RecordEvent(processed, EventMeta(command, command.eventId)), EventMeta(command, secondId)).Ok?
  {
    var after := RecordEvent(processed, EventMeta(command, command.eventId));
    forall p | p in after ensures secondId !in p.eventIds {
      assert p in processed || p == after[|processed|];
    }
    FirstSkips(processed, after[|processed|], (p: ProcessedCommand) => p.idempotencyKey == command.idempotencyKey);
  }

  lemma EffectsKeepRecords(s: ProjectState, event: DomainEvent, integrity: IntegrityBoundary)
    requires Effect(s, event, integrity).Ok?
    ensures Effect(s, event, integrity).value.processedCommands == s.processedCommands
  {
  }

  lemma PairApplies(s: ProjectState, command: ProjectCommand, integrity: IntegrityBoundary, d: Decided, mid: ProjectState)
    requires FindProcessed(s.processedCommands, command.meta.idempotencyKey).None?
    requires d.Two? && d.secondId != command.meta.eventId && !EventIdUsed(s.processedCommands, d.secondId)
    requires mid.processedCommands == RecordEvent(s.processedCommands, EventMeta(command.meta, command.meta.eventId))
    ensures ApplyDomainEvent(mid, DomainEvent(EventMeta(command.meta, d.secondId), d.second), integrity).Ok?
            <==> SecondApplies(mid, d, EventMeta(command.meta, d.secondId), integrity)
  {
    SecondIdentity(s.processedCommands, command.meta, d.secondId);
  }

  lemma AgreementForPair(s: ProjectState, command: ProjectCommand, integrity: IntegrityBoundary, d: Decided)
    requires forall n | n in s.nodes :: HasProject(s.projects, n.projectId)
    requires Decide(s, command, integrity) == Ok(d) && d.Two?
    requires FindProcessed(s.processedCommands, command.meta.idempotencyKey).None?
    requires d.secondId != command.meta.eventId && !EventIdUsed(s.processedCommands, d.secondId)
    ensures ApplyEvents(s, Emit(command.meta, d), integrity).Ok? <==> Applicable(s, command)
  {
    var meta := EventMeta(command.meta, command.meta.eventId);
    FirstEffect(s, command, integrity, d);
    FirstEventApplies(s, command, integrity, d);
    ApplyPair(s, Emit(command.meta, d), integrity);
    EffectsKeepRecords(s, DomainEvent(meta, d.first), integrity);
    var mid := Finish(Effect(s, DomainEvent(meta, d.first), integrity).value, meta);
    SecondEffect(s, command, integrity, d, mid);
    PairApplies(s, command, integrity, d, mid);
  }

  lemma ApplyOne(s: ProjectState, event: DomainEvent, integrity: IntegrityBoundary)
    ensures ApplyEvents(s, [event], integrity) == ApplyDomainEvent(s, event, integrity)
  {
    var next := ApplyDomainEvent(s, event, integrity);
    if next.Ok? {
      assert ApplyEvents(next.value, [], integrity) == next;
    }
  }

  lemma AgreementForSingle(s: ProjectState, command: ProjectCommand, integrity: IntegrityBoundary, d: Decided)
    requires Decide(s, command, integrity) == Ok(d) && d.One?
    requires FindProcessed(s.processedCommands, command.meta.idempotencyKey).None?
    ensures ApplyEvents(s, Emit(command.meta, d), integrity).Ok? <==> Applicable(s, command)
  {
    assert !command.body.CreateProject?;
    FirstEffect(s, command, integrity, d);
    FirstEventApplies(s, command, integrity, d);
    ApplyOne(s, Emit(command.meta, d)[0], integrity);
  }

  /**
   * On every reachable state, the events of an accepted command apply if and only if the command's event id is
   * unused and, for a new Project, the root is registered at the time of the request. Deciding checks neither.
   */
  lemma DecideApplyAgreement(s: ProjectState, command: ProjectCommand, integrity: IntegrityBoundary, events: seq<DomainEvent>)
    requires Reachable(s, integrity) && DecideProjectCommand(s, command, integrity) == Ok(Accepted(events))
    ensures ApplyEvents(s, events, integrity).Ok? <==> Applicable(s, command)
    ensures ApplyProjectCommand(s, command, integrity).Ok? <==> Applicable(s, command)
  {
    ReachableSatisfiesInv(s, integrity);
    var d := Decide(s, command, integrity).value;
    DecisionShape(s, command, integrity, events);
    if d.One? {
      AgreementForSingle(s, command, integrity, d);
    } else {
      AgreementForPair(s, command, integrity, d);
    }
  }

  /**
   * In any reachable state, any user may ask for a new Project whose root passes every check but carries another time than
   * the request: the command is accepted and its events are then refused.
   */
  lemma RootOfAnotherTime(s: ProjectState, integrity: IntegrityBoundary, meta: CommandMetadata, rootEventId: EventId,
                          project: Project, root: RootNode, payload: NodePayloadEnvelope)
    requires Reachable(s, integrity) && meta.actor.User? && !HasProject(s.projects, project.id)
    requires FindProcessed(s.processedCommands, meta.idempotencyKey).None?
    requires rootEventId != meta.eventId && !EventIdUsed(s.processedCommands, rootEventId)
    requires root.projectId == project.id && root.commitSha == project.rootNodeSha
    requires NodeContentIsValid(root, payload, root.registeredAt, integrity) && root.registeredAt != meta.requestedAt
    ensures var command := ProjectCommand(meta, CreateProject(rootEventId, project, root, payload));
            && DecideProjectCommand(s, command, integrity).Ok?
            && DecideProjectCommand(s, command, integrity).value.Accepted?
            && ApplyProjectCommand(s, command, integrity).Err?
  {
    var command := ProjectCommand(meta, CreateProject(rootEventId, project, root, payload));
    CreationIsDecided(s, integrity, command);
    DecideApplyAgreement(s, command, integrity, DecideProjectCommand(s, command, integrity).value.events);
  }

  lemma CreationIsDecided(s: ProjectState, integrity: IntegrityBoundary, command: ProjectCommand)
    requires command.body.CreateProject? && command.meta.actor.User? && !HasProject(s.projects, command.body.project.id)
    requires FindProcessed(s.processedCommands, command.meta.idempotencyKey).None?
    requires command.body.rootNodeEventId != command.meta.eventId && !EventIdUsed(s.processedCommands, command.body.rootNodeEventId)
    requires command.body.rootNode.projectId == command.body.project.id && command.body.rootNode.commitSha == command.body.project.rootNodeSha
    requires command.body.rootNode.origin.Root?
    requires NodeContentIsValid(command.body.rootNode, command.body.payload, command.body.rootNode.registeredAt, integrity)
    ensures DecideProjectCommand(s, command, integrity).Ok? && DecideProjectCommand(s, command, integrity).value.Accepted?
  {
    assert DecideCreateProject(s, command, integrity).Ok?;
  }

  const FIRST_SHA := "5f0c6e0b8d3a4c1e9f7b2a6d4c8e0f1a3b5d7c9e"
  const FIRST_PLAN := NodePlan(NODE_PLAN_SCHEMA, [], RunnerValue("default", "Codex", "{}"))
  const FIRST_PAYLOAD := NodePayload("project-1", FIRST_SHA, "9e7c5b3a1f0e8c4d6a2b7f9e1c4a3d8b0e6c0f5f", FIRST_PLAN)
  const FIRST_ROOT: RootNode :=
    Node("project-1", FIRST_SHA, FIRST_PAYLOAD.treeSha, ManagedNodeRef("project-1", FIRST_SHA), "Start", FIRST_PLAN,
         Digest(FIRST_PLAN), Digest(FIRST_PAYLOAD), "2024-01-01T00:00:00.000Z", Root)

  /** Such a command for a first Project, under any boundary that accepts the root with some envelope. */
  lemma FirstProjectOfAnotherTime(integrity: IntegrityBoundary, envelope: NodePayloadEnvelope) returns (command: ProjectCommand)
    requires NodeContentIsValid(FIRST_ROOT, envelope, FIRST_ROOT.registeredAt, integrity)
    ensures DecideProjectCommand(EMPTY_STATE, command, integrity).Ok?
    ensures DecideProjectCommand(EMPTY_STATE, command, integrity).value.Accepted?
    ensures ApplyProjectCommand(EMPTY_STATE, command, integrity).Err?
  {
    var project := Project("project-1", "workspace-1", "octocat/hello-world", "main", "Hello", FIRST_SHA, "2024-01-01T00:00:00.000Z");
    var meta := CommandMetadata("event-1", "key-1", "createProject", FIRST_SHA, User("user-1"), "2024-01-01T00:00:01.000Z");
    assert WellBatched([]) && Replayed([], integrity) == Ok(EMPTY_STATE);
    RootOfAnotherTime(EMPTY_STATE, integrity, meta, "event-2", project, FIRST_ROOT, envelope);
    command := ProjectCommand(meta, CreateProject("event-2", project, FIRST_ROOT, envelope));
  }

  /** In any reachable state, a fresh command that reuses an event id is accepted and its event is then refused. */
  lemma ReusedEventId(s: ProjectState, integrity: IntegrityBoundary, meta: CommandMetadata, project: Project)
    requires Reachable(s, integrity) && project in s.projects && meta.actor.User?
    requires EventIdUsed(s.processedCommands, meta.eventId) && FindProcessed(s.processedCommands, meta.idempotencyKey).None?
    ensures var command := ProjectCommand(meta, RebuildProjectMaterializations(project.id));
            && DecideProjectCommand(s, command, integrity).Ok?
            && DecideProjectCommand(s, command, integrity).value.Accepted?
            && ApplyProjectCommand(s, command, integrity).Err?
  {
    var command := ProjectCommand(meta, RebuildProjectMaterializations(project.id));
    RebuildIsDecided(s, integrity, meta, project);
    DecideApplyAgreement(s, command, integrity, DecideProjectCommand(s, command, integrity).value.events);
  }

  lemma RebuildIsDecided(s: ProjectState, integrity: IntegrityBoundary, meta: CommandMetadata, project: Project)
    requires project in s.projects && meta.actor.User? && FindProcessed(s.processedCommands, meta.idempotencyKey).None?
    ensures var decision := DecideProjectCommand(s, ProjectCommand(meta, RebuildProjectMaterializations(project.id)), integrity);
            decision.Ok? && decision.value.Accepted?
  {
    assert DecideRebuild(s, project.id, meta.actor).Ok?;
  }
}

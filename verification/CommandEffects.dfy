/** What an event makes of a state, and a command of a replayed state: exactly when it is accepted, and what is different then. */
module CommandEffects {
  import opened Prelude
  import opened Protocol
  import opened Engine
  import opened Batches
  import opened Invariant
  import opened Replay
  import opened EngineAgreement
  import opened CommandRules

  // --------------------------------------------------------------------- events

  /** The event may happen now. */
  ghost predicate Admitted(s: ProjectState, e: DomainEvent, integrity: IntegrityBoundary) {
    var actor, at := e.meta.actor, e.meta.recordedAt;
    match e.body
    case ProjectCreated(project) => MayCreate(s, project, actor)
    case ProjectMaterializationsRebuilt(id) => MayRebuild(s, id, actor)
    case RootNodeRegistered(node, payload) => MayRegisterRoot(s, node, payload, actor, at, integrity)
    case RunStarted(run) =>
      && !IsRejected(s, run.projectId, run.sourceNodeSha) && run.checkpoints == [] && run.evidenceIds == []
      && exists source :: MayStart(s, run, source, run.goal) && run.runner == source.plan.how && run.runnerDigest.content == run.runner
    case RunCheckpointed(checkpoint) => MayCheckpoint(s, checkpoint)
    case RunEvidenceAttached(evidence) => exists run :: MayAttach(s, evidence, run)
    case RunCompleted(result) => exists run :: MayComplete(s, result, run)
    case RunChildNodeRegistered(node, payload) => MayRegisterRunChild(s, node, payload, at, integrity)
    case RunFailed(id, _) => exists run :: IsRunningRun(s, run, id)
    case RunCanceled(id, _) => exists run :: IsRunningRun(s, run, id)
    case CoachReviewRecorded(review) => MayReview(s, review, actor)
    case CoachingProposalRecorded(proposal) =>
      !IsRejected(s, proposal.projectId, proposal.sourceNodeSha) && exists source :: MayPropose(s, proposal, actor, source)
    case CoachingProposalConfirmed(d) => IsNewDecision(s, d.id) && exists p :: IsConfirmable(s, p, d.proposalId, actor)
    case CoachingChildNodeRegistered(node, payload) => MayRegisterCoachingChild(s, node, payload, at, integrity)
    case CoachingProposalRejected(d) => IsNewDecision(s, d.id) && exists p :: IsOpen(s, p, d.proposalId, actor)
    case AlternativesCompared(comparison) => MayCompare(s, comparison)
    case AlternativeSelected(d) => MaySelect(s, d, actor)
    case AlternativesRejected(d) => MayReject(s, d, actor)
  }

  predicate IsCompletedAs(s: ProjectState, run: Run, node: RunChildNode) {
    run in s.runs && run.id == node.origin.runId && run.status.Completed? && run.status.resultNodeSha == node.commitSha
  }

  ghost predicate MayRegisterRunChild(s: ProjectState, node: RunChildNode, payload: NodePayloadEnvelope, at: Timestamp, integrity: IntegrityBoundary) {
    && IsNewSha(s, node) && ContentIsSound(node, payload, at, integrity)
    && exists run, source :: IsCompletedAs(s, run, node) && IsNodeAt(s, source, run.projectId, run.sourceNodeSha) && IsChildOf(node, run, source)
  }

  ghost predicate MayRegisterCoachingChild(s: ProjectState, node: CoachingChildNode, payload: NodePayloadEnvelope, at: Timestamp,
                                           integrity: IntegrityBoundary)
  {
    && IsNewSha(s, node) && ContentIsSound(node, payload, at, integrity)
    && exists p, d, source :: IsConfirmedAs(s, p, d, node) && IsProposedChild(s, node, p, source)
  }

  ghost predicate IsConfirmable(s: ProjectState, p: CoachingProposal, id: ProposalId, actor: DomainActor) {
    IsOpen(s, p, id, actor) && !IsRejected(s, p.projectId, p.sourceNodeSha)
  }

  predicate IsConfirmedAs(s: ProjectState, p: CoachingProposal, d: ProposalDecision, node: CoachingChildNode) {
    && p in s.coachingProposals && p.id == node.origin.proposalId
    && d in s.coachingProposalDecisions && d.proposalId == p.id && d.ConfirmedProposal? && d.childNodeSha == node.commitSha
  }

  /** The running Run with the id, and no other, is now `next`. */
  predicate RunBecomes(before: seq<Run>, after: seq<Run>, id: RunId, i: nat, next: Run) {
    i < |before| && before[i].id == id && before[i].status.Running? && after == before[i := next]
  }

  /** What is different afterwards, the record of processed commands aside. */
  ghost predicate Happened(s: ProjectState, body: EventBody, at: Timestamp, t: ProjectState) {
    match body
    case ProjectCreated(project) => t == s.(projects := s.projects + [project])
    case ProjectMaterializationsRebuilt(_) => t == s
    case RootNodeRegistered(node, _) => t == s.(nodes := s.nodes + [node])
    case RunStarted(run) => t == s.(runs := s.runs + [run])
    case RunCheckpointed(c) =>
      && t == s.(runs := t.runs)
      && exists i: nat :: i < |s.runs| && RunBecomes(s.runs, t.runs, c.runId, i, s.runs[i].(checkpoints := s.runs[i].checkpoints + [c]))
    case RunEvidenceAttached(e) =>
      && t == s.(runs := t.runs, evidence := s.evidence + [e])
      && exists i: nat :: i < |s.runs| && RunBecomes(s.runs, t.runs, e.runId, i, s.runs[i].(evidenceIds := s.runs[i].evidenceIds + [e.id]))
    case RunCompleted(result) =>
      && t == s.(runs := t.runs)
      && exists i: nat :: i < |s.runs|
           && RunBecomes(s.runs, t.runs, result.runId, i, s.runs[i].(status := Completed(result.resultSha, result.verifiedAt, at)))
    case RunChildNodeRegistered(node, _) => t == s.(nodes := s.nodes + [node])
    case RunFailed(id, reason) =>
      && t == s.(runs := t.runs)
      && exists i: nat :: i < |s.runs| && RunBecomes(s.runs, t.runs, id, i, s.runs[i].(status := Failed(at, reason)))
    case RunCanceled(id, reason) =>
      && t == s.(runs := t.runs)
      && exists i: nat :: i < |s.runs| && RunBecomes(s.runs, t.runs, id, i, s.runs[i].(status := Canceled(at, reason)))
    case CoachReviewRecorded(review) => t == s.(coachReviews := s.coachReviews + [review])
    case CoachingProposalRecorded(proposal) => t == s.(coachingProposals := s.coachingProposals + [proposal])
    case CoachingProposalConfirmed(d) => t == s.(coachingProposalDecisions := s.coachingProposalDecisions + [d])
    case CoachingChildNodeRegistered(node, _) => t == s.(nodes := s.nodes + [node])
    case CoachingProposalRejected(d) => t == s.(coachingProposalDecisions := s.coachingProposalDecisions + [d])
    case AlternativesCompared(c) => t == s.(comparisons := s.comparisons + [c])
    case AlternativeSelected(d) => t == s.(decisions := s.decisions + [d])
    case AlternativesRejected(d) => t == s.(decisions := s.decisions + [d])
  }

  lemma OneRunReplaced(runs: seq<Run>, id: RunId, replace: Run -> Run) returns (i: nat)
    requires RunsDiffer(runs) && FindRunningRun(runs, id).Ok?
    ensures i < |runs| && RunBecomes(runs, ReplaceRun(runs, id, replace), id, i, replace(runs[i]))
  {
    i :| 0 <= i < |runs| && runs[i] == FindRunningRun(runs, id).value;
    assert ReplaceRun(runs, id, replace) == runs[i := replace(runs[i])];
  }

  lemma CheckpointHappens(s: ProjectState, c: RunCheckpoint, at: Timestamp)
    requires RunsDiffer(s.runs)
    ensures ApplyCheckpoint(s, c).Ok? <==> MayCheckpoint(s, c)
    ensures ApplyCheckpoint(s, c).Ok? ==> Happened(s, RunCheckpointed(c), at, ApplyCheckpoint(s, c).value)
  {
    CheckpointRule(s, c);
    if ApplyCheckpoint(s, c).Ok? {
      var i := OneRunReplaced(s.runs, c.runId, (run: Run) => run.(checkpoints := run.checkpoints + [c]));
    }
  }

  lemma EvidenceHappens(s: ProjectState, e: EvidenceRef, at: Timestamp)
    requires RunsDiffer(s.runs)
    ensures ApplyEvidence(s, e).Ok? <==> exists run :: MayAttach(s, e, run)
    ensures ApplyEvidence(s, e).Ok? ==> Happened(s, RunEvidenceAttached(e), at, ApplyEvidence(s, e).value)
  {
    EvidenceRule(s, e);
    if ApplyEvidence(s, e).Ok? {
      var i := OneRunReplaced(s.runs, e.runId, (run: Run) => run.(evidenceIds := run.evidenceIds + [e.id]));
    }
  }

  lemma CompletionHappens(s: ProjectState, result: VerifiedRunResult, at: Timestamp)
    requires RunInv(s.nodes, s.runs, s.evidence)
    ensures ApplyCompletion(s, result, at).Ok? <==> exists run :: MayComplete(s, result, run)
    ensures ApplyCompletion(s, result, at).Ok? ==> Happened(s, RunCompleted(result), at, ApplyCompletion(s, result, at).value)
  {
    ResultRule(s, result);
    if ApplyCompletion(s, result, at).Ok? {
      var i := OneRunReplaced(s.runs, result.runId, (run: Run) => run.(status := Completed(result.resultSha, result.verifiedAt, at)));
    }
  }

  lemma FailureHappens(s: ProjectState, id: RunId, reason: string, at: Timestamp)
    requires RunsDiffer(s.runs)
    ensures ApplyRunFailed(s, id, reason, at).Ok? <==> exists run :: IsRunningRun(s, run, id)
    ensures ApplyRunFailed(s, id, reason, at).Ok? ==> Happened(s, RunFailed(id, reason), at, ApplyRunFailed(s, id, reason, at).value)
  {
    StopRule(s, id);
    if ApplyRunFailed(s, id, reason, at).Ok? {
      var i := OneRunReplaced(s.runs, id, (run: Run) => run.(status := Failed(at, reason)));
    }
  }

  lemma CancellationHappens(s: ProjectState, id: RunId, reason: string, at: Timestamp)
    requires RunsDiffer(s.runs)
    ensures ApplyRunCanceled(s, id, reason, at).Ok? <==> exists run :: IsRunningRun(s, run, id)
    ensures ApplyRunCanceled(s, id, reason, at).Ok? ==> Happened(s, RunCanceled(id, reason), at, ApplyRunCanceled(s, id, reason, at).value)
  {
    StopRule(s, id);
    if ApplyRunCanceled(s, id, reason, at).Ok? {
      var i := OneRunReplaced(s.runs, id, (run: Run) => run.(status := Canceled(at, reason)));
    }
  }

  lemma StartHappens(s: ProjectState, run: RunningRun)
    requires TreeInv(s.projects, s.nodes)
    ensures ApplyRunStarted(s, run).Ok? <==>
            && !IsRejected(s, run.projectId, run.sourceNodeSha) && run.checkpoints == [] && run.evidenceIds == []
            && exists source :: MayStart(s, run, source, run.goal) && run.runner == source.plan.how && run.runnerDigest.content == run.runner
  {
    var found := FindNode(s.nodes, run.projectId, run.sourceNodeSha);
    if found.Ok? {
      StartFrom(s, run, found.value);
    }
    if source :| MayStart(s, run, source, run.goal) && run.runner == source.plan.how && run.runnerDigest.content == run.runner {
      NodeIsFound(s, source, run.projectId, run.sourceNodeSha);
    }
  }

  lemma StartFrom(s: ProjectState, run: RunningRun, source: Node)
    requires TreeInv(s.projects, s.nodes) && FindNode(s.nodes, run.projectId, run.sourceNodeSha) == Ok(source)
    ensures ApplyRunStarted(s, run).Ok? <==>
            && !IsRejected(s, run.projectId, run.sourceNodeSha) && run.checkpoints == [] && run.evidenceIds == []
            && MayStart(s, run, source, run.goal) && run.runner == source.plan.how && run.runnerDigest.content == run.runner
  {
    assert NodeIsConsistent(source);
    OnlyGoal(source.plan, run.goalDigest);
  }

  lemma RunChildHappens(s: ProjectState, node: RunChildNode, payload: NodePayloadEnvelope, at: Timestamp, integrity: IntegrityBoundary)
    requires TreeInv(s.projects, s.nodes) && RunInv(s.nodes, s.runs, s.evidence)
    ensures ApplyRunChild(s, node, payload, at, integrity).Ok? <==>
            MayRegisterRunChild(s, node, payload, at, integrity)
  {
    var found := FindRun(s.runs, node.origin.runId);
    if found.Ok? {
      RunIsFound(s, found.value, node.origin.runId);
      var source := SourceOfRun(s, found.value);
      RunChildRule(s, found.value, node, payload, at, integrity, source);
      RunChildOf(s, found.value, node, payload, at, integrity, source);
    }
    if run, source :| IsCompletedAs(s, run, node) && IsNodeAt(s, source, run.projectId, run.sourceNodeSha) && IsChildOf(node, run, source) {
      RunIsFound(s, run, node.origin.runId);
      NodeIsFound(s, source, run.projectId, run.sourceNodeSha);
    }
  }

  lemma RunChildOf(s: ProjectState, run: Run, node: RunChildNode, payload: NodePayloadEnvelope, at: Timestamp, integrity: IntegrityBoundary,
                   source: Node)
    requires FindRun(s.runs, node.origin.runId) == Ok(run)
    requires ValidateRunChildNode(s, run, node, payload, at, integrity).Ok? <==>
             && (run.status.Completed? ==> run.status.resultNodeSha == node.commitSha)
             && IsChildOf(node, run, source) && IsNewSha(s, node) && ContentIsSound(node, payload, at, integrity)
    ensures ApplyRunChild(s, node, payload, at, integrity).Ok? <==>
            && IsCompletedAs(s, run, node) && IsChildOf(node, run, source) && IsNewSha(s, node) && ContentIsSound(node, payload, at, integrity)
  {
  }

  lemma RootHappens(s: ProjectState, node: RootNode, payload: NodePayloadEnvelope, meta: EventMetadata, integrity: IntegrityBoundary)
    requires TreeInv(s.projects, s.nodes)
    ensures ApplyRootNode(s, node, payload, meta, integrity).Ok? <==> MayRegisterRoot(s, node, payload, meta.actor, meta.recordedAt, integrity)
  {
    var found := FindProject(s.projects, node.projectId);
    if found.Ok? {
      RootNodeRule(s, node, payload, found.value, meta.recordedAt, integrity);
    }
    if p :| p in s.projects && p.id == node.projectId && p.rootNodeSha == node.commitSha {
      var i :| 0 <= i < |s.projects| && s.projects[i] == p;
      var j :| 0 <= j < |s.projects| && s.projects[j] == found.value;
    }
  }

  lemma ConfirmationHappens(s: ProjectState, d: ConfirmedDecision, actor: DomainActor)
    requires ProposalsDiffer(s.coachingProposals)
    ensures ApplyConfirmation(s, d, actor).Ok? <==> IsNewDecision(s, d.id) && exists p :: IsConfirmable(s, p, d.proposalId, actor)
  {
    DecisionIdRule(s, d.id);
    var found := FindConfirmableCoachingProposal(s, d.proposalId, actor);
    forall p ensures found == Ok(p) <==> IsConfirmable(s, p, d.proposalId, actor) {
      OpenRule(s, p, d.proposalId, actor);
    }
    assert found.Ok? ==> IsConfirmable(s, found.value, d.proposalId, actor);
  }

  lemma ProposalRejectionHappens(s: ProjectState, d: RejectedDecision, actor: DomainActor)
    requires ProposalsDiffer(s.coachingProposals)
    ensures ApplyProposalRejection(s, d, actor).Ok? <==> IsNewDecision(s, d.id) && exists p :: IsOpen(s, p, d.proposalId, actor)
  {
    DecisionIdRule(s, d.id);
    var found := FindOpenCoachingProposal(s, d.proposalId, actor);
    forall p ensures found == Ok(p) <==> IsOpen(s, p, d.proposalId, actor) {
      OpenRule(s, p, d.proposalId, actor);
    }
    assert found.Ok? ==> IsOpen(s, found.value, d.proposalId, actor);
  }

  lemma DecisionIsFound(decisions: seq<ProposalDecision>, d: ProposalDecision)
    requires d in decisions && forall i, j | 0 <= i < j < |decisions| :: decisions[i].proposalId != decisions[j].proposalId
    ensures FindProposalDecision(decisions, d.proposalId) == Some(d)
  {
    var i :| 0 <= i < |decisions| && decisions[i] == d;
    var j :| 0 <= j < |decisions| && decisions[j] == FindProposalDecision(decisions, d.proposalId).value;
  }

  lemma CoachingChildHappens(s: ProjectState, node: CoachingChildNode, payload: NodePayloadEnvelope, at: Timestamp, integrity: IntegrityBoundary,
                             pending: Pending)
    requires TreeInv(s.projects, s.nodes) && CoachingInv(s.nodes, s.coachingProposals, s.coachingProposalDecisions, pending)
    ensures ApplyCoachingChild(s, node, payload, at, integrity).Ok? <==>
            MayRegisterCoachingChild(s, node, payload, at, integrity)
  {
    var p := FindProposal(s.coachingProposals, node.origin.proposalId);
    var d := FindProposalDecision(s.coachingProposalDecisions, node.origin.proposalId);
    forall q, e | IsConfirmedAs(s, q, e, node) ensures p == Some(q) && d == Some(e) {
      ProposalIsFound(s.coachingProposals, q);
      DecisionIsFound(s.coachingProposalDecisions, e);
    }
    if p.Some? && d.Some? {
      CoachingChildRule(s, p.value, node, payload, at, integrity);
      ConfirmedChildChecks(s, node, payload, at, integrity, p.value, d.value);
    }
  }

  lemma ConfirmedChildChecks(s: ProjectState, node: CoachingChildNode, payload: NodePayloadEnvelope, at: Timestamp, integrity: IntegrityBoundary,
                             p: CoachingProposal, d: ProposalDecision)
    requires FindProposal(s.coachingProposals, node.origin.proposalId) == Some(p)
    requires FindProposalDecision(s.coachingProposalDecisions, node.origin.proposalId) == Some(d)
    ensures ApplyCoachingChild(s, node, payload, at, integrity).Ok? <==>
            IsConfirmedAs(s, p, d, node) && ValidateCoachingChild(s, p, node, payload, at, integrity).Ok?
  {
  }

  // The groups of events, then all of them.

  /** The event takes effect exactly when it is admitted, and as it should. */
  ghost predicate FollowsRules(s: ProjectState, e: DomainEvent, integrity: IntegrityBoundary) {
    match Effect(s, e, integrity)
    case Ok(t) => Admitted(s, e, integrity) && Happened(s, e.body, e.meta.recordedAt, t)
    case Err(_) => !Admitted(s, e, integrity)
  }

  lemma StartEffect(s: ProjectState, e: DomainEvent, integrity: IntegrityBoundary)
    requires TreeInv(s.projects, s.nodes) && e.body.RunStarted?
    ensures FollowsRules(s, e, integrity)
  {
    StartHappens(s, e.body.run);
  }

  lemma ProgressEffect(s: ProjectState, e: DomainEvent, integrity: IntegrityBoundary)
    requires RunsDiffer(s.runs) && (e.body.RunCheckpointed? || e.body.RunEvidenceAttached?)
    ensures FollowsRules(s, e, integrity)
  {
    if e.body.RunCheckpointed? {
      CheckpointHappens(s, e.body.checkpoint, e.meta.recordedAt);
    } else {
      EvidenceHappens(s, e.body.evidence, e.meta.recordedAt);
    }
  }

  lemma CompletionEffect(s: ProjectState, e: DomainEvent, integrity: IntegrityBoundary)
    requires RunInv(s.nodes, s.runs, s.evidence) && e.body.RunCompleted?
    ensures FollowsRules(s, e, integrity)
  {
    CompletionHappens(s, e.body.result, e.meta.recordedAt);
  }

  lemma RunChildEffect(s: ProjectState, e: DomainEvent, integrity: IntegrityBoundary)
    requires TreeInv(s.projects, s.nodes) && RunInv(s.nodes, s.runs, s.evidence) && e.body.RunChildNodeRegistered?
    ensures FollowsRules(s, e, integrity)
  {
    RunChildHappens(s, e.body.runChild, e.body.payload, e.meta.recordedAt, integrity);
    RunChildFollows(s, e, integrity);
  }

  lemma RunChildFollows(s: ProjectState, e: DomainEvent, integrity: IntegrityBoundary)
    requires e.body.RunChildNodeRegistered?
    requires var node, payload, at := e.body.runChild, e.body.payload, e.meta.recordedAt;
             ApplyRunChild(s, node, payload, at, integrity).Ok? <==> MayRegisterRunChild(s, node, payload, at, integrity)
    ensures FollowsRules(s, e, integrity)
  {
  }

  lemma StopEffect(s: ProjectState, e: DomainEvent, integrity: IntegrityBoundary)
    requires RunsDiffer(s.runs) && (e.body.RunFailed? || e.body.RunCanceled?)
    ensures FollowsRules(s, e, integrity)
  {
    if e.body.RunFailed? {
      FailureHappens(s, e.body.runId, e.body.reason, e.meta.recordedAt);
    } else {
      CancellationHappens(s, e.body.runId, e.body.reason, e.meta.recordedAt);
    }
  }

  lemma CoachEffect(s: ProjectState, e: DomainEvent, integrity: IntegrityBoundary)
    requires TreeInv(s.projects, s.nodes) && RunsDiffer(s.runs) && ComparisonsInv(s.comparisons)
    requires e.body.CoachReviewRecorded? || e.body.CoachingProposalRecorded?
    ensures FollowsRules(s, e, integrity)
  {
    if e.body.CoachReviewRecorded? {
      ReviewRule(s, e.body.review, e.meta.actor);
    } else {
      ProposalRule(s, e.body.proposal, e.meta.actor);
    }
  }

  lemma ProposalDecisionEffect(s: ProjectState, e: DomainEvent, integrity: IntegrityBoundary)
    requires ProposalsDiffer(s.coachingProposals) && (e.body.CoachingProposalConfirmed? || e.body.CoachingProposalRejected?)
    ensures FollowsRules(s, e, integrity)
  {
    if e.body.CoachingProposalConfirmed? {
      ConfirmationHappens(s, e.body.confirmation, e.meta.actor);
    } else {
      ProposalRejectionHappens(s, e.body.rejection, e.meta.actor);
    }
  }

  lemma CoachingChildEffect(s: ProjectState, e: DomainEvent, integrity: IntegrityBoundary, pending: Pending)
    requires TreeInv(s.projects, s.nodes) && CoachingInv(s.nodes, s.coachingProposals, s.coachingProposalDecisions, pending)
    requires e.body.CoachingChildNodeRegistered?
    ensures FollowsRules(s, e, integrity)
  {
    CoachingChildHappens(s, e.body.coachingChild, e.body.payload, e.meta.recordedAt, integrity, pending);
  }

  lemma ComparisonEffect(s: ProjectState, e: DomainEvent, integrity: IntegrityBoundary, pending: Pending)
    requires TreeInv(s.projects, s.nodes) && RunInv(s.nodes, s.runs, s.evidence) && RunChildrenInv(s.nodes, s.runs, pending)
    requires CoachingInv(s.nodes, s.coachingProposals, s.coachingProposalDecisions, pending) && e.body.AlternativesCompared?
    ensures FollowsRules(s, e, integrity)
  {
    ComparisonRule(s, e.body.comparison, pending);
  }

  lemma JudgementEffect(s: ProjectState, e: DomainEvent, integrity: IntegrityBoundary)
    requires ComparisonsInv(s.comparisons) && (e.body.AlternativeSelected? || e.body.AlternativesRejected?)
    ensures FollowsRules(s, e, integrity)
  {
    if e.body.AlternativeSelected? {
      SelectionRule(s, e.body.selection, e.meta.actor);
    } else {
      RejectionRule(s, e.body.alternatives, e.meta.actor);
    }
  }

  lemma ProjectEffect(s: ProjectState, e: DomainEvent, integrity: IntegrityBoundary)
    requires TreeInv(s.projects, s.nodes)
    requires e.body.ProjectCreated? || e.body.ProjectMaterializationsRebuilt? || e.body.RootNodeRegistered?
    ensures FollowsRules(s, e, integrity)
  {
    match e.body
    case ProjectCreated(project) => CreationRule(s, project, e.meta.actor);
    case ProjectMaterializationsRebuilt(id) => RebuildRule(s, id, e.meta.actor);
    case RootNodeRegistered(node, payload) => RootHappens(s, node, payload, e.meta, integrity);
  }

  lemma EffectFollowsRules(s: ProjectState, e: DomainEvent, integrity: IntegrityBoundary, pending: Pending)
    requires Inv(s, pending)
    ensures FollowsRules(s, e, integrity)
  {
    match e.body
    case RunStarted(_) => StartEffect(s, e, integrity);
    case RunCheckpointed(_) => ProgressEffect(s, e, integrity);
    case RunEvidenceAttached(_) => ProgressEffect(s, e, integrity);
    case RunCompleted(_) => CompletionEffect(s, e, integrity);
    case RunChildNodeRegistered(_, _) => RunChildEffect(s, e, integrity);
    case RunFailed(_, _) => StopEffect(s, e, integrity);
    case RunCanceled(_, _) => StopEffect(s, e, integrity);
    case CoachReviewRecorded(_) => CoachEffect(s, e, integrity);
    case CoachingProposalRecorded(_) => CoachEffect(s, e, integrity);
    case CoachingProposalConfirmed(_) => ProposalDecisionEffect(s, e, integrity);
    case CoachingChildNodeRegistered(_, _) => CoachingChildEffect(s, e, integrity, pending);
    case CoachingProposalRejected(_) => ProposalDecisionEffect(s, e, integrity);
    case AlternativesCompared(_) => ComparisonEffect(s, e, integrity, pending);
    case AlternativeSelected(_) => JudgementEffect(s, e, integrity);
    case AlternativesRejected(_) => JudgementEffect(s, e, integrity);
    case _ => ProjectEffect(s, e, integrity);
  }

  /**
   * In every state an accepted stream goes through, an event whose id is new and whose key is new, or used with its
   * fingerprint, applies exactly when it is admitted, and changes exactly what it says.
   */
  lemma EventFollowsRules(s: ProjectState, e: DomainEvent, integrity: IntegrityBoundary, pending: Pending)
    requires Inv(s, pending)
    requires forall p | p in s.processedCommands :: e.meta.eventId !in p.eventIds && (p.idempotencyKey == e.meta.idempotencyKey ==> p.fingerprint == e.meta.fingerprint)
    ensures ApplyDomainEvent(s, e, integrity).Ok? <==> Admitted(s, e, integrity)
    ensures ApplyDomainEvent(s, e, integrity).Ok? ==>
              var t := ApplyDomainEvent(s, e, integrity).value;
              Happened(s, e.body, e.meta.recordedAt, t.(processedCommands := s.processedCommands))
  {
    EffectFollowsRules(s, e, integrity, pending);
    var u := Effect(s, e, integrity);
    if u.Ok? {
      EffectsKeepRecords(s, e, integrity);
      assert Finish(u.value, e.meta).(processedCommands := s.processedCommands) == u.value;
    }
  }

  // ------------------------------------------------------------------- commands

  /** The command may be carried out now. */
  ghost predicate Permitted(s: ProjectState, c: ProjectCommand, integrity: IntegrityBoundary) {
    var actor, at := c.meta.actor, c.meta.requestedAt;
    match c.body
    case CreateProject(_, project, root, payload) =>
      && MayCreate(s, project, actor) && root.origin.Root? && root.projectId == project.id && root.commitSha == project.rootNodeSha
      && ContentIsSound(root, payload, root.registeredAt, integrity)
    case RebuildProjectMaterializations(id) => MayRebuild(s, id, actor)
    case StartRun(id, projectId, sourceSha, goalDigest, branch) =>
      && !IsRejected(s, projectId, sourceSha) && (forall run | run in s.runs :: run.id != id)
      && branch == RunBranchName(projectId, sourceSha, id)
      && exists source :: IsNodeAt(s, source, projectId, sourceSha) && goalDigest.content in source.plan.nextGoals
    case CheckpointRun(checkpoint) => MayCheckpoint(s, checkpoint)
    case AttachRunEvidence(evidence) => exists run :: MayAttach(s, evidence, run)
    case CompleteRun(_, result, node, payload) =>
      && node.commitSha == result.resultSha && IsNewSha(s, node) && ContentIsSound(node, payload, at, integrity)
      && exists run, source :: MayComplete(s, result, run) && IsNodeAt(s, source, run.projectId, run.sourceNodeSha) && IsChildOf(node, run, source)
    case FailRun(id, _) => exists run :: IsRunningRun(s, run, id)
    case CancelRun(id, _) => exists run :: IsRunningRun(s, run, id)
    case RecordCoachReview(review) => MayReview(s, review, actor)
    case RecordCoachingProposal(proposal) =>
      && proposal.expectedStateSha == c.meta.expectedStateSha && !IsRejected(s, proposal.projectId, proposal.sourceNodeSha)
      && exists source :: MayPropose(s, proposal, actor, source)
    case ConfirmCoachingProposal(_, decisionId, id, _, node, payload) =>
      && IsNewDecision(s, decisionId) && IsNewSha(s, node) && ContentIsSound(node, payload, at, integrity)
      && exists p, source :: IsConfirmable(s, p, id, actor) && IsProposedChild(s, node, p, source)
    case RejectCoachingProposal(decisionId, id, _) => IsNewDecision(s, decisionId) && exists p :: IsOpen(s, p, id, actor)
    case CompareAlternatives(id, projectId, shas, findings, summary, request) =>
      exists kind :: IsAnswer(request, kind) && MayCompare(s, AlternativeComparison(id, projectId, shas, findings, summary, at, kind))
    case SelectAlternative(id, projectId, comparisonId, sha, rationale) =>
      MaySelect(s, Selection(id, projectId, comparisonId, sha, rationale, at), actor)
    case RejectAlternatives(id, projectId, comparisonId, shas, rationale) =>
      MayReject(s, Rejection(id, projectId, comparisonId, shas, rationale, at), actor)
  }

  /** Siblings are compared as such, and an experiment names the anchor it was asked about. */
  predicate IsAnswer(request: ComparisonRequest, kind: ComparisonKind) {
    match request
    case CompareSiblingRuns => kind.SiblingRuns?
    case CompareCoachedHow(anchorSha) => kind.CoachedHowExperiment? && kind.anchorNodeSha == anchorSha
  }

  /** The id of the second event of a command that has two. */
  function SecondId(c: ProjectCommand): Option<EventId> {
    match c.body
    case CreateProject(id, _, _, _) => Some(id)
    case CompleteRun(id, _, _, _) => Some(id)
    case ConfirmCoachingProposal(id, _, _, _, _, _) => Some(id)
    case _ => None
  }

  predicate IsNewEvent(s: ProjectState, id: EventId) {
    forall p | p in s.processedCommands :: id !in p.eventIds
  }

  predicate SecondIsNew(s: ProjectState, c: ProjectCommand) {
    SecondId(c).Some? ==> SecondId(c).value != c.meta.eventId && IsNewEvent(s, SecondId(c).value)
  }

  predicate IsNewKey(s: ProjectState, key: string) {
    forall p | p in s.processedCommands :: p.idempotencyKey != key
  }

  /** What the command leads to, the record of processed commands aside. */
  ghost predicate Done(s: ProjectState, c: ProjectCommand, t: ProjectState) {
    var at := c.meta.requestedAt;
    match c.body
    case CreateProject(_, project, root, _) => t == s.(projects := s.projects + [project], nodes := s.nodes + [root])
    case RebuildProjectMaterializations(_) => t == s
    case StartRun(id, projectId, sourceSha, goalDigest, branch) =>
      exists source ::
        && IsNodeAt(s, source, projectId, sourceSha)
        && t == s.(runs := s.runs + [Run(id, projectId, sourceSha, goalDigest.content, goalDigest, source.plan.how, Digest(source.plan.how),
                                         branch, [], [], at, Running)])
    case CheckpointRun(checkpoint) =>
      && t == s.(runs := t.runs)
      && exists i: nat :: i < |s.runs|
           && RunBecomes(s.runs, t.runs, checkpoint.runId, i, s.runs[i].(checkpoints := s.runs[i].checkpoints + [checkpoint]))
    case AttachRunEvidence(e) =>
      && t == s.(runs := t.runs, evidence := s.evidence + [e])
      && exists i: nat :: i < |s.runs| && RunBecomes(s.runs, t.runs, e.runId, i, s.runs[i].(evidenceIds := s.runs[i].evidenceIds + [e.id]))
    case CompleteRun(_, result, node, _) =>
      && t == s.(runs := t.runs, nodes := s.nodes + [node])
      && exists i: nat :: i < |s.runs|
           && RunBecomes(s.runs, t.runs, result.runId, i, s.runs[i].(status := Completed(result.resultSha, result.verifiedAt, at)))
    case FailRun(id, reason) =>
      && t == s.(runs := t.runs)
      && exists i: nat :: i < |s.runs| && RunBecomes(s.runs, t.runs, id, i, s.runs[i].(status := Failed(at, reason)))
    case CancelRun(id, reason) =>
      && t == s.(runs := t.runs)
      && exists i: nat :: i < |s.runs| && RunBecomes(s.runs, t.runs, id, i, s.runs[i].(status := Canceled(at, reason)))
    case RecordCoachReview(review) => t == s.(coachReviews := s.coachReviews + [review])
    case RecordCoachingProposal(proposal) => t == s.(coachingProposals := s.coachingProposals + [proposal])
    case ConfirmCoachingProposal(_, decisionId, id, reason, node, _) =>
      t == s.(coachingProposalDecisions := s.coachingProposalDecisions + [ConfirmedProposal(decisionId, id, node.commitSha, reason, at)],
              nodes := s.nodes + [node])
    case RejectCoachingProposal(decisionId, id, reason) =>
      t == s.(coachingProposalDecisions := s.coachingProposalDecisions + [RejectedProposal(decisionId, id, reason, at)])
    case CompareAlternatives(id, projectId, shas, findings, summary, request) =>
      exists kind ::
        var comparison := AlternativeComparison(id, projectId, shas, findings, summary, at, kind);
        IsAnswer(request, kind) && KindIsTrue(s, comparison) && t == s.(comparisons := s.comparisons + [comparison])
    case SelectAlternative(id, projectId, comparisonId, sha, rationale) =>
      t == s.(decisions := s.decisions + [Selection(id, projectId, comparisonId, sha, rationale, at)])
    case RejectAlternatives(id, projectId, comparisonId, shas, rationale) =>
      t == s.(decisions := s.decisions + [Rejection(id, projectId, comparisonId, shas, rationale, at)])
  }

  /** The events a command announces. */
  ghost predicate Announces(s: ProjectState, c: ProjectCommand, d: Decided) {
    var at := c.meta.requestedAt;
    match c.body
    case CreateProject(id, project, root, payload) => root.origin.Root? && d == Two(ProjectCreated(project), RootNodeRegistered(root, payload), id)
    case RebuildProjectMaterializations(id) => d == One(ProjectMaterializationsRebuilt(id))
    case StartRun(id, projectId, sourceSha, goalDigest, branch) =>
      exists source ::
        && IsNodeAt(s, source, projectId, sourceSha)
        && d == One(RunStarted(Run(id, projectId, sourceSha, goalDigest.content, goalDigest, source.plan.how, Digest(source.plan.how),
                                   branch, [], [], at, Running)))
    case CheckpointRun(checkpoint) => d == One(RunCheckpointed(checkpoint))
    case AttachRunEvidence(e) => d == One(RunEvidenceAttached(e))
    case CompleteRun(id, result, node, payload) => d == Two(RunCompleted(result), RunChildNodeRegistered(node, payload), id)
    case FailRun(id, reason) => d == One(RunFailed(id, reason))
    case CancelRun(id, reason) => d == One(RunCanceled(id, reason))
    case RecordCoachReview(review) => d == One(CoachReviewRecorded(review))
    case RecordCoachingProposal(proposal) => d == One(CoachingProposalRecorded(proposal))
    case ConfirmCoachingProposal(eventId, decisionId, id, reason, node, payload) =>
      d == Two(CoachingProposalConfirmed(ConfirmedProposal(decisionId, id, node.commitSha, reason, at)),
               CoachingChildNodeRegistered(node, payload), eventId)
    case RejectCoachingProposal(decisionId, id, reason) => d == One(CoachingProposalRejected(RejectedProposal(decisionId, id, reason, at)))
    case CompareAlternatives(id, projectId, shas, findings, summary, request) =>
      exists kind ::
        var comparison := AlternativeComparison(id, projectId, shas, findings, summary, at, kind);
        IsAnswer(request, kind) && KindIsTrue(s, comparison) && d == One(AlternativesCompared(comparison))
    case SelectAlternative(id, projectId, comparisonId, sha, rationale) =>
      d == One(AlternativeSelected(Selection(id, projectId, comparisonId, sha, rationale, at)))
    case RejectAlternatives(id, projectId, comparisonId, shas, rationale) =>
      d == One(AlternativesRejected(Rejection(id, projectId, comparisonId, shas, rationale, at)))
  }

  ghost predicate IsRightAnswer(s: ProjectState, c: ProjectCommand, integrity: IntegrityBoundary, r: Outcome<Decided>) {
    match r
    case Ok(d) => Permitted(s, c, integrity) && Announces(s, c, d)
    case Err(_) => !Permitted(s, c, integrity)
  }

  lemma CreationDecided(s: ProjectState, c: ProjectCommand, integrity: IntegrityBoundary)
    requires c.body.CreateProject?
    ensures IsRightAnswer(s, c, integrity, DecideCreateProject(s, c, integrity))
  {
    CreationRule(s, c.body.project, c.meta.actor);
    ContentRule(c.body.rootNode, c.body.payload, c.body.rootNode.registeredAt, integrity);
  }

  lemma RebuildDecided(s: ProjectState, c: ProjectCommand, integrity: IntegrityBoundary)
    requires c.body.RebuildProjectMaterializations?
    ensures IsRightAnswer(s, c, integrity, DecideRebuild(s, c.body.projectId, c.meta.actor))
  {
    RebuildRule(s, c.body.projectId, c.meta.actor);
  }

  lemma StartDecided(s: ProjectState, c: ProjectCommand, integrity: IntegrityBoundary)
    requires TreeInv(s.projects, s.nodes) && c.body.StartRun?
    ensures IsRightAnswer(s, c, integrity, DecideStartRun(s, c))
  {
    var found := FindNode(s.nodes, c.body.projectId, c.body.sourceNodeSha);
    if found.Ok? {
      assert HasProject(s.projects, found.value.projectId);
      StartDecidedAt(s, c, integrity, found.value);
    }
    forall source | IsNodeAt(s, source, c.body.projectId, c.body.sourceNodeSha) ensures found == Ok(source) {
      NodeIsFound(s, source, c.body.projectId, c.body.sourceNodeSha);
    }
  }

  lemma StartDecidedAt(s: ProjectState, c: ProjectCommand, integrity: IntegrityBoundary, source: Node)
    requires c.body.StartRun? && FindNode(s.nodes, c.body.projectId, c.body.sourceNodeSha) == Ok(source) && PlanIsValid(source.plan)
    requires HasProject(s.projects, c.body.projectId)
    ensures var goal, body := c.body.goalDigest, c.body;
            DecideStartRun(s, c).Ok? <==>
            && !IsRejected(s, body.projectId, body.sourceNodeSha) && (forall run | run in s.runs :: run.id != body.runId)
            && body.branch == RunBranchName(body.projectId, body.sourceNodeSha, body.runId) && goal.content in source.plan.nextGoals
    ensures var body := c.body;
            DecideStartRun(s, c).Ok? ==>
              DecideStartRun(s, c) == Ok(One(RunStarted(Run(body.runId, body.projectId, body.sourceNodeSha, body.goalDigest.content, body.goalDigest,
                                                            source.plan.how, Digest(source.plan.how), body.branch, [], [], c.meta.requestedAt, Running))))
  {
    OnlyGoal(source.plan, c.body.goalDigest);
  }

  lemma ProgressDecided(s: ProjectState, c: ProjectCommand, integrity: IntegrityBoundary)
    requires RunsDiffer(s.runs) && (c.body.CheckpointRun? || c.body.AttachRunEvidence?)
    ensures IsRightAnswer(s, c, integrity, DecideRunCommand(s, c, integrity))
  {
    if c.body.CheckpointRun? {
      CheckpointRule(s, c.body.checkpoint);
    } else {
      EvidenceRule(s, c.body.evidence);
    }
  }

  lemma StopDecided(s: ProjectState, c: ProjectCommand, integrity: IntegrityBoundary)
    requires RunsDiffer(s.runs) && (c.body.FailRun? || c.body.CancelRun?)
    ensures IsRightAnswer(s, c, integrity, DecideRunCommand(s, c, integrity))
  {
    StopRule(s, c.body.runId);
  }

  lemma CompletionDecided(s: ProjectState, c: ProjectCommand, integrity: IntegrityBoundary)
    requires TreeInv(s.projects, s.nodes) && RunInv(s.nodes, s.runs, s.evidence) && c.body.CompleteRun?
    ensures IsRightAnswer(s, c, integrity, DecideCompleteRun(s, c, integrity))
  {
    ResultRule(s, c.body.result);
    var run := ValidateVerifiedRunResult(s, c.body.result);
    if run.Ok? {
      var source := SourceOfRun(s, run.value);
      RunChildRule(s, run.value, c.body.runChild, c.body.payload, c.meta.requestedAt, integrity, source);
      OnlyRunAndSource(s, c.body.result, run.value, source);
      CompletionDecidedFor(s, c, integrity, run.value, source);
    } else {
      NothingToComplete(s, c, integrity);
    }
  }

  lemma OnlyRunAndSource(s: ProjectState, result: VerifiedRunResult, run: Run, source: Node)
    requires TreeInv(s.projects, s.nodes) && RunsDiffer(s.runs)
    requires MayComplete(s, result, run) && IsNodeAt(s, source, run.projectId, run.sourceNodeSha)
    ensures forall r | MayComplete(s, result, r) :: r == run
    ensures forall n | IsNodeAt(s, n, run.projectId, run.sourceNodeSha) :: n == source
  {
    forall r | MayComplete(s, result, r) ensures r == run {
      RunIsFound(s, r, result.runId);
      RunIsFound(s, run, result.runId);
    }
    forall n | IsNodeAt(s, n, run.projectId, run.sourceNodeSha) ensures n == source {
      NodeIsFound(s, n, run.projectId, run.sourceNodeSha);
      NodeIsFound(s, source, run.projectId, run.sourceNodeSha);
    }
  }

  lemma NothingToComplete(s: ProjectState, c: ProjectCommand, integrity: IntegrityBoundary)
    requires c.body.CompleteRun? && ValidateVerifiedRunResult(s, c.body.result).Err? && forall run :: !MayComplete(s, c.body.result, run)
    ensures IsRightAnswer(s, c, integrity, DecideCompleteRun(s, c, integrity))
  {
  }

  lemma CompletionDecidedFor(s: ProjectState, c: ProjectCommand, integrity: IntegrityBoundary, run: Run, source: Node)
    requires c.body.CompleteRun? && ValidateVerifiedRunResult(s, c.body.result) == Ok(run) && run.status.Running?
    requires MayComplete(s, c.body.result, run) && IsNodeAt(s, source, run.projectId, run.sourceNodeSha)
    requires forall r | MayComplete(s, c.body.result, r) :: r == run
    requires forall n | IsNodeAt(s, n, run.projectId, run.sourceNodeSha) :: n == source
    requires ValidateRunChildNode(s, run, c.body.runChild, c.body.payload, c.meta.requestedAt, integrity).Ok? <==>
             && IsChildOf(c.body.runChild, run, source) && IsNewSha(s, c.body.runChild)
             && ContentIsSound(c.body.runChild, c.body.payload, c.meta.requestedAt, integrity)
    ensures IsRightAnswer(s, c, integrity, DecideCompleteRun(s, c, integrity))
  {
  }

  lemma CoachDecided(s: ProjectState, c: ProjectCommand, integrity: IntegrityBoundary)
    requires TreeInv(s.projects, s.nodes) && RunsDiffer(s.runs) && ComparisonsInv(s.comparisons)
    requires c.body.RecordCoachReview? || c.body.RecordCoachingProposal?
    ensures IsRightAnswer(s, c, integrity, DecideCoachingCommand(s, c, integrity))
  {
    if c.body.RecordCoachReview? {
      ReviewRule(s, c.body.review, c.meta.actor);
    } else {
      ProposalRule(s, c.body.proposal, c.meta.actor);
    }
  }

  lemma ProposalRejectionDecided(s: ProjectState, c: ProjectCommand, integrity: IntegrityBoundary)
    requires ProposalsDiffer(s.coachingProposals) && c.body.RejectCoachingProposal?
    ensures IsRightAnswer(s, c, integrity, DecideProposalRejection(s, c))
  {
    DecisionIdRule(s, c.body.decisionId);
    var found := FindOpenCoachingProposal(s, c.body.proposalId, c.meta.actor);
    forall p ensures found == Ok(p) <==> IsOpen(s, p, c.body.proposalId, c.meta.actor) {
      OpenRule(s, p, c.body.proposalId, c.meta.actor);
    }
    assert found.Ok? ==> IsOpen(s, found.value, c.body.proposalId, c.meta.actor);
  }

  lemma ConfirmationDecided(s: ProjectState, c: ProjectCommand, integrity: IntegrityBoundary)
    requires TreeInv(s.projects, s.nodes) && ProposalsDiffer(s.coachingProposals) && c.body.ConfirmCoachingProposal?
    ensures IsRightAnswer(s, c, integrity, DecideConfirmation(s, c, integrity))
  {
    DecisionIdRule(s, c.body.decisionId);
    var found := FindConfirmableCoachingProposal(s, c.body.proposalId, c.meta.actor);
    forall p ensures found == Ok(p) <==> IsConfirmable(s, p, c.body.proposalId, c.meta.actor) {
      OpenRule(s, p, c.body.proposalId, c.meta.actor);
    }
    if found.Ok? {
      assert IsConfirmable(s, found.value, c.body.proposalId, c.meta.actor);
      CoachingChildRule(s, found.value, c.body.coachingChild, c.body.payload, c.meta.requestedAt, integrity);
    }
  }

  lemma RequestedKindIsTheKind(s: ProjectState, id: ProjectId, request: ComparisonRequest, candidates: seq<Candidate>, kind: ComparisonKind)
    requires candidates != [] && IsAnswer(request, kind) && KindFits(s, id, candidates, kind)
    ensures RequestedKind(s, id, request, candidates) == Ok(kind)
  {
    assert candidates[0] in candidates;
  }

  lemma ComparisonDecided(s: ProjectState, c: ProjectCommand, integrity: IntegrityBoundary)
    requires Inv(s, Settled) && c.body.CompareAlternatives?
    ensures IsRightAnswer(s, c, integrity, DecideComparison(s, c))
  {
    var body := c.body;
    if BuildComparison(s, c).Ok? {
      BuiltAnswers(s, c);
      ComparisonRule(s, BuildComparison(s, c).value, Settled);
      ComparisonAnnounced(s, c, integrity, BuildComparison(s, c).value);
    } else {
      forall kind | IsAnswer(body.request, kind)
        ensures !MayCompare(s, AlternativeComparison(body.comparisonId, body.projectId, body.nodeShas, body.findings, body.summary, c.meta.requestedAt, kind))
      {
        var comparison := AlternativeComparison(body.comparisonId, body.projectId, body.nodeShas, body.findings, body.summary, c.meta.requestedAt, kind);
        ComparisonRule(s, comparison, Settled);
        if ValidateComparison(s, comparison).Ok? {
          ValidIsBuilt(s, c, comparison);
        }
      }
    }
  }

  lemma BuiltAnswers(s: ProjectState, c: ProjectCommand)
    requires c.body.CompareAlternatives? && BuildComparison(s, c).Ok?
    ensures var built := BuildComparison(s, c).value;
            && IsAnswer(c.body.request, built.kind) && ValidateComparison(s, built).Ok?
            && built == AlternativeComparison(c.body.comparisonId, c.body.projectId, c.body.nodeShas, c.body.findings, c.body.summary,
                                              c.meta.requestedAt, built.kind)
  {
    BuiltFromParts(s, c);
    BuiltComparisonValidates(s, c);
  }

  lemma ComparisonAnnounced(s: ProjectState, c: ProjectCommand, integrity: IntegrityBoundary, built: AlternativeComparison)
    requires c.body.CompareAlternatives? && BuildComparison(s, c) == Ok(built) && IsAnswer(c.body.request, built.kind) && MayCompare(s, built)
    requires built == AlternativeComparison(c.body.comparisonId, c.body.projectId, c.body.nodeShas, c.body.findings, c.body.summary,
                                            c.meta.requestedAt, built.kind)
    ensures IsRightAnswer(s, c, integrity, DecideComparison(s, c))
  {
  }

  lemma ValidIsBuilt(s: ProjectState, c: ProjectCommand, comparison: AlternativeComparison)
    requires c.body.CompareAlternatives? && IsAnswer(c.body.request, comparison.kind) && ValidateComparison(s, comparison).Ok?
    requires comparison == AlternativeComparison(c.body.comparisonId, c.body.projectId, c.body.nodeShas, c.body.findings, c.body.summary,
                                                 c.meta.requestedAt, comparison.kind)
    ensures BuildComparison(s, c).Ok?
  {
    var candidates := ResolveCompletedRunCandidates(s, comparison.projectId, comparison.nodeShas).value;
    ComparisonChecks(s, comparison, candidates);
    RequestedKindIsTheKind(s, comparison.projectId, c.body.request, candidates, comparison.kind);
  }

  lemma JudgementDecided(s: ProjectState, c: ProjectCommand, integrity: IntegrityBoundary)
    requires ComparisonsInv(s.comparisons) && (c.body.SelectAlternative? || c.body.RejectAlternatives?)
    ensures IsRightAnswer(s, c, integrity, DecideAlternativesCommand(s, c))
  {
    match c.body
    case SelectAlternative(id, projectId, comparisonId, sha, rationale) =>
      SelectionRule(s, Selection(id, projectId, comparisonId, sha, rationale, c.meta.requestedAt), c.meta.actor);
    case RejectAlternatives(id, projectId, comparisonId, shas, rationale) =>
      RejectionRule(s, Rejection(id, projectId, comparisonId, shas, rationale, c.meta.requestedAt), c.meta.actor);
  }

  lemma RunCommandDecided(s: ProjectState, c: ProjectCommand, integrity: IntegrityBoundary)
    requires Inv(s, Settled) && IsRunCommand(c.body)
    ensures IsRightAnswer(s, c, integrity, Decide(s, c, integrity))
  {
    match c.body
    case StartRun(_, _, _, _, _) => StartDecided(s, c, integrity);
    case CheckpointRun(_) => ProgressDecided(s, c, integrity);
    case AttachRunEvidence(_) => ProgressDecided(s, c, integrity);
    case CompleteRun(_, _, _, _) => CompletionDecided(s, c, integrity);
    case FailRun(_, _) => StopDecided(s, c, integrity);
    case CancelRun(_, _) => StopDecided(s, c, integrity);
  }

  lemma OtherCommandDecided(s: ProjectState, c: ProjectCommand, integrity: IntegrityBoundary)
    requires Inv(s, Settled) && !IsRunCommand(c.body)
    ensures IsRightAnswer(s, c, integrity, Decide(s, c, integrity))
  {
    match c.body
    case CreateProject(_, _, _, _) => CreationDecided(s, c, integrity);
    case RebuildProjectMaterializations(_) => RebuildDecided(s, c, integrity);
    case RecordCoachReview(_) => CoachDecided(s, c, integrity);
    case RecordCoachingProposal(_) => CoachDecided(s, c, integrity);
    case ConfirmCoachingProposal(_, _, _, _, _, _) => ConfirmationDecided(s, c, integrity);
    case RejectCoachingProposal(_, _, _) => ProposalRejectionDecided(s, c, integrity);
    case CompareAlternatives(_, _, _, _, _, _) => ComparisonDecided(s, c, integrity);
    case SelectAlternative(_, _, _, _, _) => JudgementDecided(s, c, integrity);
    case RejectAlternatives(_, _, _, _, _) => JudgementDecided(s, c, integrity);
  }

  lemma DecideFollowsRules(s: ProjectState, c: ProjectCommand, integrity: IntegrityBoundary)
    requires Inv(s, Settled)
    ensures IsRightAnswer(s, c, integrity, Decide(s, c, integrity))
  {
    if IsRunCommand(c.body) {
      RunCommandDecided(s, c, integrity);
    } else {
      OtherCommandDecided(s, c, integrity);
    }
  }

  lemma AnnouncedIds(s: ProjectState, c: ProjectCommand, d: Decided)
    requires Announces(s, c, d)
    ensures d.Two? <==> SecondId(c).Some?
    ensures d.Two? ==> SecondId(c) == Some(d.secondId)
  {
  }

  /** Deciding accepts exactly what is permitted, and events with ids of their own. */
  lemma AcceptedExactly(s: ProjectState, c: ProjectCommand, integrity: IntegrityBoundary)
    requires Inv(s, Settled) && IsNewKey(s, c.meta.idempotencyKey)
    ensures IsAcceptedRightly(s, c, integrity)
  {
    DecideFollowsRules(s, c, integrity);
    AnswerIsAccepted(s, c, integrity);
  }

  ghost predicate IsAcceptedRightly(s: ProjectState, c: ProjectCommand, integrity: IntegrityBoundary) {
    match DecideProjectCommand(s, c, integrity)
    case Ok(decision) =>
      && Permitted(s, c, integrity) && SecondIsNew(s, c)
      && Decide(s, c, integrity).Ok? && Announces(s, c, Decide(s, c, integrity).value)
      && decision == Accepted(Emit(c.meta, Decide(s, c, integrity).value))
    case Err(_) => !(Permitted(s, c, integrity) && SecondIsNew(s, c))
  }

  lemma AnswerIsAccepted(s: ProjectState, c: ProjectCommand, integrity: IntegrityBoundary)
    requires IsNewKey(s, c.meta.idempotencyKey) && IsRightAnswer(s, c, integrity, Decide(s, c, integrity))
    ensures IsAcceptedRightly(s, c, integrity)
  {
    assert FindProcessed(s.processedCommands, c.meta.idempotencyKey).None?;
    var d := Decide(s, c, integrity);
    if d.Ok? {
      AnnouncedIds(s, c, d.value);
    }
  }

  lemma SingleIsDone(s: ProjectState, c: ProjectCommand, body: EventBody, t: ProjectState)
    requires Announces(s, c, One(body)) && Happened(s, body, c.meta.requestedAt, t)
    ensures Done(s, c, t)
  {
  }

  lemma PairIsDone(s: ProjectState, c: ProjectCommand, d: Decided, u: ProjectState, t: ProjectState)
    requires Announces(s, c, d) && d.Two? && Happened(s, d.first, c.meta.requestedAt, u) && Happened(u, d.second, c.meta.requestedAt, t)
    ensures Done(s, c, t)
  {
  }

  /** The record of a command is opened with its first event, and takes the second one in. */
  lemma RecordedPair(processed: seq<ProcessedCommand>, meta: CommandMetadata, secondId: EventId)
    requires forall p | p in processed :: p.idempotencyKey != meta.idempotencyKey
    ensures RecordEvent(RecordEvent(processed, EventMeta(meta, meta.eventId)), EventMeta(meta, secondId))
            == processed + [ProcessedCommand(meta.idempotencyKey, meta.fingerprint, [meta.eventId, secondId])]
  {
    var one := processed + [ProcessedCommand(meta.idempotencyKey, meta.fingerprint, [meta.eventId])];
    assert FindProcessed(processed, meta.idempotencyKey).None?;
    SecondInRecord(processed, meta, secondId, one);
  }

  lemma SecondInRecord(processed: seq<ProcessedCommand>, meta: CommandMetadata, secondId: EventId, one: seq<ProcessedCommand>)
    requires forall p | p in processed :: p.idempotencyKey != meta.idempotencyKey
    requires one == processed + [ProcessedCommand(meta.idempotencyKey, meta.fingerprint, [meta.eventId])]
    ensures RecordEvent(one, EventMeta(meta, secondId))
            == processed + [ProcessedCommand(meta.idempotencyKey, meta.fingerprint, [meta.eventId, secondId])]
  {
    var two := RecordEvent(one, EventMeta(meta, secondId));
    assert one[|processed|] in one;
    assert [meta.eventId] + [secondId] == [meta.eventId, secondId];
    forall i | 0 <= i < |processed| ensures two[i] == processed[i] {
      assert processed[i] in processed && one[i] == processed[i];
    }
  }

  function IdsOf(c: ProjectCommand): seq<EventId> {
    [c.meta.eventId] + if SecondId(c).Some? then [SecondId(c).value] else []
  }

  /** The state is what the command leads to, and the command is recorded with the ids of its events. */
  ghost predicate IsDoneAndRecorded(s: ProjectState, c: ProjectCommand, t: ProjectState) {
    && Done(s, c, t.(processedCommands := s.processedCommands))
    && t.processedCommands == s.processedCommands + [ProcessedCommand(c.meta.idempotencyKey, c.meta.fingerprint, IdsOf(c))]
  }

  lemma SingleCarriedOut(s: ProjectState, c: ProjectCommand, integrity: IntegrityBoundary, d: Decided, t: ProjectState)
    requires Inv(s, Settled) && IsNewKey(s, c.meta.idempotencyKey) && Announces(s, c, d) && d.One?
    requires ApplyEvents(s, Emit(c.meta, d), integrity) == Ok(t)
    ensures IsDoneAndRecorded(s, c, t)
  {
    var e := DomainEvent(EventMeta(c.meta, c.meta.eventId), d.body);
    ApplyOne(s, e, integrity);
    EffectFollowsRules(s, e, integrity, Settled);
    EffectsKeepRecords(s, e, integrity);
    var u := Effect(s, e, integrity).value;
    SingleIsDone(s, c, d.body, u);
    AnnouncedIds(s, c, d);
    Recorded(s, c, u, e.meta);
    assert IdsOf(c) == [c.meta.eventId];
  }

  lemma Recorded(s: ProjectState, c: ProjectCommand, u: ProjectState, meta: EventMetadata)
    requires IsNewKey(s, c.meta.idempotencyKey) && u.processedCommands == s.processedCommands && meta == EventMeta(c.meta, c.meta.eventId)
    ensures Finish(u, meta).(processedCommands := s.processedCommands) == u
    ensures Finish(u, meta).processedCommands
            == s.processedCommands + [ProcessedCommand(c.meta.idempotencyKey, c.meta.fingerprint, [c.meta.eventId])]
  {
    assert FindProcessed(s.processedCommands, c.meta.idempotencyKey).None?;
  }

  /** What the two events of a batch do, one after the other. */
  lemma PairRuns(s: ProjectState, first: DomainEvent, second: DomainEvent, integrity: IntegrityBoundary, t: ProjectState)
    returns (u: ProjectState, mid: ProjectState, v: ProjectState)
    requires Inv(s, Settled) && !ClosesPair(first) && ApplyEvents(s, [first, second], integrity) == Ok(t)
    ensures Happened(s, first.body, first.meta.recordedAt, u) && u.processedCommands == s.processedCommands && mid == Finish(u, first.meta)
    ensures Happened(mid, second.body, second.meta.recordedAt, v) && v.processedCommands == mid.processedCommands && t == Finish(v, second.meta)
  {
    ApplyPair(s, [first, second], integrity);
    mid := ApplyDomainEvent(s, first, integrity).value;
    u, v := Effect(s, first, integrity).value, Effect(mid, second, integrity).value;
    EffectFollowsRules(s, first, integrity, Settled);
    EffectsKeepRecords(s, first, integrity);
    FirstEventKeepsInv(s, first, integrity, mid);
    EffectFollowsRules(mid, second, integrity, Opens(first));
    EffectsKeepRecords(mid, second, integrity);
  }

  lemma PairCarriedOut(s: ProjectState, c: ProjectCommand, integrity: IntegrityBoundary, d: Decided, t: ProjectState)
    requires Inv(s, Settled) && IsNewKey(s, c.meta.idempotencyKey) && Announces(s, c, d) && d.Two?
    requires ApplyEvents(s, Emit(c.meta, d), integrity) == Ok(t)
    ensures IsDoneAndRecorded(s, c, t)
  {
    var first := DomainEvent(EventMeta(c.meta, c.meta.eventId), d.first);
    var second := DomainEvent(EventMeta(c.meta, d.secondId), d.second);
    PairStarts(s, c, d);
    var u, mid, v := PairRuns(s, first, second, integrity, t);
    NodeIsAdded(s, c, d, mid, v, u);
    PairIsRecorded(s, c, d, u, mid, v, t);
  }

  lemma PairIsRecorded(s: ProjectState, c: ProjectCommand, d: Decided, u: ProjectState, mid: ProjectState, v: ProjectState, t: ProjectState)
    requires IsNewKey(s, c.meta.idempotencyKey) && Announces(s, c, d) && d.Two?
    requires u.processedCommands == s.processedCommands && mid == Finish(u, EventMeta(c.meta, c.meta.eventId))
    requires v.processedCommands == mid.processedCommands && t == Finish(v, EventMeta(c.meta, d.secondId))
    ensures t.processedCommands == s.processedCommands + [ProcessedCommand(c.meta.idempotencyKey, c.meta.fingerprint, IdsOf(c))]
    ensures t.(processedCommands := s.processedCommands) == v.(processedCommands := s.processedCommands)
  {
    AnnouncedIds(s, c, d);
    RecordedPair(s.processedCommands, c.meta, d.secondId);
    assert IdsOf(c) == [c.meta.eventId, d.secondId];
  }

  lemma PairStarts(s: ProjectState, c: ProjectCommand, d: Decided)
    requires Announces(s, c, d) && d.Two?
    ensures !ClosesPair(DomainEvent(EventMeta(c.meta, c.meta.eventId), d.first))
  {
  }

  /** The second event does not look at the record of processed commands. */
  lemma NodeIsAdded(s: ProjectState, c: ProjectCommand, d: Decided, mid: ProjectState, v: ProjectState, u: ProjectState)
    requires Announces(s, c, d) && d.Two? && Happened(s, d.first, c.meta.requestedAt, u) && mid == u.(processedCommands := mid.processedCommands)
    requires Happened(mid, d.second, c.meta.requestedAt, v)
    ensures Done(s, c, v.(processedCommands := s.processedCommands))
  {
    var w := v.(processedCommands := s.processedCommands);
    assert u.processedCommands == s.processedCommands;
    assert Happened(u, d.second, c.meta.requestedAt, w);
    PairIsDone(s, c, d, u, w);
  }

  /**
   * Every command of a replayed state, under a new key, is carried out exactly if it is permitted and its events have new
   * ids, and for a new Project if the root carries the time of the request; and then the state is exactly what the command
   * leads to.
   */
  lemma CommandsFollowRules(s: ProjectState, c: ProjectCommand, integrity: IntegrityBoundary)
    requires Reachable(s, integrity) && IsNewKey(s, c.meta.idempotencyKey)
    ensures DecideProjectCommand(s, c, integrity).Ok? <==> Permitted(s, c, integrity) && SecondIsNew(s, c)
    ensures ApplyProjectCommand(s, c, integrity).Ok? <==>
            && Permitted(s, c, integrity) && SecondIsNew(s, c) && IsNewEvent(s, c.meta.eventId)
            && (c.body.CreateProject? ==> c.body.rootNode.registeredAt == c.meta.requestedAt)
    ensures ApplyProjectCommand(s, c, integrity).Ok? ==> IsDoneAndRecorded(s, c, ApplyProjectCommand(s, c, integrity).value.state)
  {
    ReachableSatisfiesInv(s, integrity);
    AcceptedExactly(s, c, integrity);
    if DecideProjectCommand(s, c, integrity).Ok? {
      var d := Decide(s, c, integrity).value;
      DecideApplyAgreement(s, c, integrity, Emit(c.meta, d));
      if ApplyProjectCommand(s, c, integrity).Ok? {
        CarriedOut(s, c, integrity, d, ApplyProjectCommand(s, c, integrity).value.state);
      }
    }
  }

  lemma CarriedOut(s: ProjectState, c: ProjectCommand, integrity: IntegrityBoundary, d: Decided, t: ProjectState)
    requires Inv(s, Settled) && IsNewKey(s, c.meta.idempotencyKey) && Announces(s, c, d)
    requires ApplyEvents(s, Emit(c.meta, d), integrity) == Ok(t)
    ensures IsDoneAndRecorded(s, c, t)
  {
    if d.One? {
      SingleCarriedOut(s, c, integrity, d, t);
    } else {
      PairCarriedOut(s, c, integrity, d, t);
    }
  }

  // ------------------------------------------------------------------- refusals

  /** Whoever decides for a Project must be a user. */
  lemma UserIsRequired(s: ProjectState, c: ProjectCommand, integrity: IntegrityBoundary)
    requires IsNewKey(s, c.meta.idempotencyKey) && !c.meta.actor.User?
    requires c.body.CreateProject? || c.body.RebuildProjectMaterializations? || c.body.ConfirmCoachingProposal?
             || c.body.RejectCoachingProposal? || c.body.SelectAlternative? || c.body.RejectAlternatives?
    ensures DecideProjectCommand(s, c, integrity) == Err(UserConfirmationRequired)
  {
    assert FindProcessed(s.processedCommands, c.meta.idempotencyKey).None?;
  }

  /** A Run that is not known is not found, and one that has stopped cannot be moved on. */
  lemma RunMustBeRunning(s: ProjectState, c: ProjectCommand, integrity: IntegrityBoundary, id: RunId)
    requires IsNewKey(s, c.meta.idempotencyKey) && RunsDiffer(s.runs)
    requires match c.body
             case CheckpointRun(checkpoint) => checkpoint.runId == id
             case CompleteRun(_, result, _, _) => result.runId == id
             case FailRun(runId, _) => runId == id
             case CancelRun(runId, _) => runId == id
             case _ => false
    ensures (forall run | run in s.runs :: run.id != id) ==> DecideProjectCommand(s, c, integrity) == Err(NotFound)
    ensures (exists run :: run in s.runs && run.id == id && !run.status.Running?) ==> DecideProjectCommand(s, c, integrity) == Err(InvalidTransition)
  {
    assert FindProcessed(s.processedCommands, c.meta.idempotencyKey).None?;
    if run :| run in s.runs && run.id == id && !run.status.Running? {
      RunIsFound(s, run, id);
    }
  }

  /** Nothing is recorded twice under one id. */
  lemma DuplicateIsRefused(s: ProjectState, c: ProjectCommand, integrity: IntegrityBoundary)
    requires IsNewKey(s, c.meta.idempotencyKey)
    requires match c.body
             case CreateProject(_, project, _, _) => c.meta.actor.User? && exists p :: p in s.projects && p.id == project.id
             case StartRun(id, _, _, _, _) => exists run :: run in s.runs && run.id == id
             case AttachRunEvidence(evidence) => exists e :: e in s.evidence && e.id == evidence.id
             case RecordCoachReview(review) => c.meta.actor.Coach? && exists r :: r in s.coachReviews && r.id == review.id
             case RecordCoachingProposal(proposal) =>
               && c.meta.actor.Coach? && proposal.expectedStateSha == c.meta.expectedStateSha
               && exists p :: p in s.coachingProposals && p.id == proposal.id
             case CompareAlternatives(id, _, _, _, _, _) => exists d :: d in s.comparisons && d.id == id
             case SelectAlternative(id, _, _, _, _) => c.meta.actor.User? && !IsNewDecision(s, id)
             case RejectAlternatives(id, _, _, _, _) => c.meta.actor.User? && !IsNewDecision(s, id)
             case _ => false
    ensures DecideProjectCommand(s, c, integrity) == Err(DuplicateId)
  {
    assert FindProcessed(s.processedCommands, c.meta.idempotencyKey).None?;
  }
}

/** What a stream can do to a Run, and what it can never undo. */
module Lifecycle {
  import opened Prelude
  import opened Protocol
  import opened Engine
  import opened Batches
  import opened Invariant
  import opened Replay

  // ----------------------------------------------------------- history only grows

  /** Later states keep everything earlier ones recorded, in place. */
  predicate AppendOnly(s: ProjectState, t: ProjectState) {
    && s.projects <= t.projects && s.nodes <= t.nodes && s.evidence <= t.evidence && s.coachReviews <= t.coachReviews
    && s.coachingProposals <= t.coachingProposals && s.coachingProposalDecisions <= t.coachingProposalDecisions
    && s.comparisons <= t.comparisons && s.decisions <= t.decisions
  }

  /** A Run keeps its snapshot; a terminal Run keeps everything; a running one only gains checkpoints and evidence. */
  predicate RunEvolves(a: Run, b: Run) {
    && SameSnapshot(a, b)
    && (!a.status.Running? ==> b == a)
    && a.checkpoints <= b.checkpoints && a.evidenceIds <= b.evidenceIds
  }

  ghost predicate RunsEvolve(before: seq<Run>, after: seq<Run>) {
    |before| <= |after| && forall i | 0 <= i < |before| :: RunEvolves(before[i], after[i])
  }

  lemma RunsEvolveTransitive(a: seq<Run>, b: seq<Run>, c: seq<Run>)
    requires RunsEvolve(a, b) && RunsEvolve(b, c)
    ensures RunsEvolve(a, c)
  {
    forall i | 0 <= i < |a| ensures RunEvolves(a[i], c[i]) {
      assert RunEvolves(a[i], b[i]) && RunEvolves(b[i], c[i]);
    }
  }

  lemma ReplacedRunsEvolve(runs: seq<Run>, id: RunId, replace: Run -> Run)
    requires forall run: Run | run.status.Running? :: RunEvolves(run, replace(run))
    ensures RunsEvolve(runs, ReplaceRun(runs, id, replace))
  {
  }

  lemma StartGrows(s: ProjectState, run: RunningRun, t: ProjectState)
    requires ApplyRunStarted(s, run) == Ok(t)
    ensures AppendOnly(s, t) && RunsEvolve(s.runs, t.runs)
  {
  }

  lemma CheckpointGrows(s: ProjectState, c: RunCheckpoint, t: ProjectState)
    requires ApplyCheckpoint(s, c) == Ok(t)
    ensures AppendOnly(s, t) && RunsEvolve(s.runs, t.runs)
  {
    ReplacedRunsEvolve(s.runs, c.runId, (run: Run) => run.(checkpoints := run.checkpoints + [c]));
  }

  lemma EvidenceGrows(s: ProjectState, e: EvidenceRef, t: ProjectState)
    requires ApplyEvidence(s, e) == Ok(t)
    ensures AppendOnly(s, t) && RunsEvolve(s.runs, t.runs)
  {
    ReplacedRunsEvolve(s.runs, e.runId, (run: Run) => run.(evidenceIds := run.evidenceIds + [e.id]));
  }

  lemma CompletionGrows(s: ProjectState, result: VerifiedRunResult, recordedAt: Timestamp, t: ProjectState)
    requires ApplyCompletion(s, result, recordedAt) == Ok(t)
    ensures AppendOnly(s, t) && RunsEvolve(s.runs, t.runs)
  {
    ReplacedRunsEvolve(s.runs, result.runId, (run: Run) => run.(status := Completed(result.resultSha, result.verifiedAt, recordedAt)));
  }

  lemma RunChildGrows(s: ProjectState, node: RunChildNode, payload: NodePayloadEnvelope, recordedAt: Timestamp,
                      integrity: IntegrityBoundary, t: ProjectState)
    requires ApplyRunChild(s, node, payload, recordedAt, integrity) == Ok(t)
    ensures AppendOnly(s, t) && RunsEvolve(s.runs, t.runs)
  {
  }

  lemma FailureGrows(s: ProjectState, runId: RunId, reason: string, recordedAt: Timestamp, t: ProjectState)
    requires ApplyRunFailed(s, runId, reason, recordedAt) == Ok(t) || ApplyRunCanceled(s, runId, reason, recordedAt) == Ok(t)
    ensures AppendOnly(s, t) && RunsEvolve(s.runs, t.runs)
  {
    ReplacedRunsEvolve(s.runs, runId, (run: Run) => run.(status := Failed(recordedAt, reason)));
    ReplacedRunsEvolve(s.runs, runId, (run: Run) => run.(status := Canceled(recordedAt, reason)));
  }

  lemma RunEventGrows(s: ProjectState, body: EventBody, recordedAt: Timestamp, integrity: IntegrityBoundary, t: ProjectState)
    requires IsRunBody(body) && RunEffect(s, body, recordedAt, integrity) == Ok(t)
    ensures AppendOnly(s, t) && RunsEvolve(s.runs, t.runs)
  {
    match body
    case RunStarted(run) => StartGrows(s, run, t);
    case RunCheckpointed(c) => CheckpointGrows(s, c, t);
    case RunEvidenceAttached(e) => EvidenceGrows(s, e, t);
    case RunCompleted(result) => CompletionGrows(s, result, recordedAt, t);
    case RunChildNodeRegistered(node, payload) => RunChildGrows(s, node, payload, recordedAt, integrity, t);
    case RunFailed(runId, reason) => FailureGrows(s, runId, reason, recordedAt, t);
    case RunCanceled(runId, reason) => FailureGrows(s, runId, reason, recordedAt, t);
  }

  lemma CoachingEventGrows(s: ProjectState, body: EventBody, meta: EventMetadata, integrity: IntegrityBoundary, t: ProjectState)
    requires IsCoachingBody(body) && CoachingEffect(s, body, meta, integrity) == Ok(t)
    ensures AppendOnly(s, t) && t.runs == s.runs
  {
  }

  lemma AlternativesEventGrows(s: ProjectState, body: EventBody, actor: DomainActor, t: ProjectState)
    requires IsAlternativesBody(body) && AlternativesEffect(s, body, actor) == Ok(t)
    ensures AppendOnly(s, t) && t.runs == s.runs
  {
  }

  lemma ProjectEventGrows(s: ProjectState, event: DomainEvent, integrity: IntegrityBoundary, t: ProjectState)
    requires !IsRunBody(event.body) && !IsCoachingBody(event.body) && !IsAlternativesBody(event.body)
    requires Effect(s, event, integrity) == Ok(t)
    ensures AppendOnly(s, t) && t.runs == s.runs
  {
  }

  lemma EffectGrows(s: ProjectState, event: DomainEvent, integrity: IntegrityBoundary, t: ProjectState)
    requires Effect(s, event, integrity) == Ok(t)
    ensures AppendOnly(s, t) && RunsEvolve(s.runs, t.runs)
  {
    if IsRunBody(event.body) {
      RunEventGrows(s, event.body, event.meta.recordedAt, integrity, t);
    } else if IsCoachingBody(event.body) {
      CoachingEventGrows(s, event.body, event.meta, integrity, t);
    } else if IsAlternativesBody(event.body) {
      AlternativesEventGrows(s, event.body, event.meta.actor, t);
    } else {
      ProjectEventGrows(s, event, integrity, t);
    }
  }

  lemma EventGrows(s: ProjectState, event: DomainEvent, integrity: IntegrityBoundary, t: ProjectState)
    requires ApplyDomainEvent(s, event, integrity) == Ok(t)
    ensures AppendOnly(s, t) && RunsEvolve(s.runs, t.runs)
  {
    EffectGrows(s, event, integrity, Effect(s, event, integrity).value);
  }

  /**
   * Over any accepted continuation of any state nothing recorded is lost or changed: a Run keeps its Goal, Runner
   * and source, leaves `running` at most once, and is frozen from then on.
   */
  lemma {:induction false} HistoryGrows(s: ProjectState, events: seq<DomainEvent>, integrity: IntegrityBoundary, t: ProjectState)
    requires ApplyEvents(s, events, integrity) == Ok(t)
    ensures AppendOnly(s, t) && RunsEvolve(s.runs, t.runs)
    decreases |events|
  {
    if events != [] {
      var mid := ApplyDomainEvent(s, events[0], integrity).value;
      EventGrows(s, events[0], integrity, mid);
      HistoryGrows(mid, events[1..], integrity, t);
      RunsEvolveTransitive(s.runs, mid.runs, t.runs);
    }
  }

  // --------------------------------------------- Runs of a reachable state

  /** A Run's evidence ids are those of its evidence, in order; a completed Run covers every criterion of its Goal. */
  lemma RunRecordsAreComplete(state: ProjectState, integrity: IntegrityBoundary, run: Run)
    requires Reachable(state, integrity) && run in state.runs
    ensures run.evidenceIds == EvidenceIdsOf(state.evidence, run.id)
    ensures run.status.Completed? ==> CriteriaCovered(state.evidence, run) && run.status.resultNodeSha != run.sourceNodeSha
    ensures BoundToSource(state.nodes, run)
    ensures forall e | e in state.evidence && e.runId == run.id :: e.projectId == run.projectId
  {
    ReachableSatisfiesInv(state, integrity);
    forall e | e in state.evidence && e.runId == run.id ensures e.projectId == run.projectId {
      var r :| r in state.runs && r.id == e.runId && r.projectId == e.projectId;
      RunIsUnique(state.runs, r, run);
    }
  }

  // ---------------------------------------------- chains of Run children

  /** Each Node is the Run child of the one before it. */
  ghost predicate RunChain(nodes: seq<Node>, chain: seq<Node>) {
    && chain != [] && (forall n | n in chain :: n in nodes)
    && forall i | 0 < i < |chain| :: chain[i].origin.RunChild? && IsParent(chain[i - 1], chain[i])
  }

  lemma {:induction false} FilterPartition<T>(s: seq<T>, p: T -> bool, q: T -> bool)
    requires forall x | x in s :: q(x) == !p(x)
    ensures |Filter(s, p)| + |Filter(s, q)| == |s|
  {
    if s != [] {
      assert s[0] in s;
      FilterPartition(s[1..], p, q);
    }
  }

  lemma OneGoalFewer(parent: Node, child: Node)
    requires child.origin.RunChild? && DropsOneGoal(parent, child)
    ensures |child.plan.nextGoals| == |parent.plan.nextGoals| - 1 && child.plan.how == parent.plan.how
  {
    var digest := child.origin.consumedGoalDigest;
    FilterPartition(parent.plan.nextGoals, (goal: GoalValue) => Digest(goal) == digest, (goal: GoalValue) => Digest(goal) != digest);
  }

  lemma {:induction false} GoalsAlongChain(nodes: seq<Node>, chain: seq<Node>)
    requires RunChain(nodes, chain)
    requires forall m, n | m in nodes && n in nodes && IsParent(m, n) :: DropsOneGoal(m, n)
    ensures |chain[|chain| - 1].plan.nextGoals| + |chain| - 1 == |chain[0].plan.nextGoals|
    ensures chain[|chain| - 1].plan.how == chain[0].plan.how
  {
    var n := |chain| - 1;
    if n > 0 {
      GoalsAlongChain(nodes, chain[..n]);
      assert chain[n - 1] in nodes && chain[n] in nodes;
      OneGoalFewer(chain[n - 1], chain[n]);
    }
  }

  /** Following Run children from a Node uses up its Goals one by one, so no chain is longer than its first Node's Goal list. */
  lemma RunChainIsBounded(state: ProjectState, integrity: IntegrityBoundary, chain: seq<Node>)
    requires Reachable(state, integrity) && RunChain(state.nodes, chain)
    ensures |chain| - 1 <= |chain[0].plan.nextGoals|
    ensures |chain[|chain| - 1].plan.nextGoals| == |chain[0].plan.nextGoals| - (|chain| - 1)
    ensures chain[|chain| - 1].plan.how == chain[0].plan.how
  {
    ReachableSatisfiesInv(state, integrity);
    GoalsAlongChain(state.nodes, chain);
  }
}

/** The invariant over whole accepted streams, and what it says about a replayed Project. */
module Replay {
  import opened Prelude
  import opened Protocol
  import opened Engine
  import opened Batches
  import opened Invariant

  function Opens(event: DomainEvent): Pending {
    match event.body
    case ProjectCreated(project) => AwaitingRoot(project.id)
    case RunCompleted(result) => AwaitingRunChild(result.runId)
    case CoachingProposalConfirmed(confirmation) => AwaitingCoachingChild(confirmation.proposalId)
    case _ => Settled
  }

  function Closes(event: DomainEvent): Pending
    requires ClosesPair(event)
  {
    match event.body
    case RootNodeRegistered(node, _) => AwaitingRoot(node.projectId)
    case RunChildNodeRegistered(node, _) => AwaitingRunChild(node.origin.runId)
    case CoachingChildNodeRegistered(node, _) => AwaitingCoachingChild(node.origin.proposalId)
  }

  // ------------------------------------------------------ one invariant at a time

  lemma TreeStep(s: ProjectState, event: DomainEvent, t: ProjectState)
    requires TreeInv(s.projects, s.nodes) && Follows(s, event, t)
    ensures TreeInv(t.projects, t.nodes)
  {
    match event.body
    case ProjectCreated(project) => TreeAfterProject(s.projects, s.nodes, project);
    case RootNodeRegistered(node, _) => TreeAfterNode(s.projects, s.nodes, node);
    case CoachingChildNodeRegistered(node, _) =>
      assert !node.origin.RunChild?;
      TreeAfterNode(s.projects, s.nodes, node);
    case RunChildNodeRegistered(node, _) =>
      OnlyParentDropsGoal(s, node);
      TreeAfterNode(s.projects, s.nodes, node);
    case _ =>
  }

  lemma OnlyParentDropsGoal(s: ProjectState, node: Node)
    requires TreeInv(s.projects, s.nodes) && RunChildAccepted(s, node)
    ensures forall m | m in s.nodes && IsParent(m, node) :: DropsOneGoal(m, node)
  {
    var parent :| parent in s.nodes && IsParent(parent, node) && DropsOneGoal(parent, node);
    forall m | m in s.nodes && IsParent(m, node) ensures m == parent {
      SameNodeIsUnique(s.nodes, m, parent);
    }
  }

  lemma SameNodeIsUnique(nodes: seq<Node>, m: Node, n: Node)
    requires forall i, j | 0 <= i < j < |nodes| :: !SameNode(nodes[i], nodes[j])
    requires m in nodes && n in nodes && SameNode(m, n)
    ensures m == n
  {
  }

  lemma RunIsUnique(runs: seq<Run>, a: Run, b: Run)
    requires forall i, j | 0 <= i < j < |runs| :: runs[i].id != runs[j].id
    requires a in runs && b in runs && a.id == b.id
    ensures a == b
  {
  }

  /** The running Run that an accepted event changes sits at one index. */
  lemma ReplacedIndex(before: seq<Run>, after: seq<Run>, id: RunId, replace: Run -> Run) returns (t: nat)
    requires forall i, j | 0 <= i < j < |before| :: before[i].id != before[j].id
    requires RunReplaced(before, after, id, replace)
    ensures t < |before| && before[t].id == id && before[t].status.Running?
    ensures |before| == |after| && forall i | 0 <= i < |before| :: after[i] == if i == t then replace(before[i]) else before[i]
  {
    var r :| r in before && r.id == id && r.status.Running?;
    t :| 0 <= t < |before| && before[t] == r;
  }

  lemma EvidenceStep(s: ProjectState, e: EvidenceRef, t: ProjectState)
    requires RunInv(s.nodes, s.runs, s.evidence) && RunChildrenInv(s.nodes, s.runs, Settled)
    requires EvidenceAccepted(s, e) && t == s.(evidence := s.evidence + [e], runs := t.runs)
    requires RunReplaced(s.runs, t.runs, e.runId, (run: Run) => run.(evidenceIds := run.evidenceIds + [e.id]))
    ensures RunInv(t.nodes, t.runs, t.evidence) && RunChildrenInv(t.nodes, t.runs, Settled)
  {
    var i := ReplacedIndex(s.runs, t.runs, e.runId, (run: Run) => run.(evidenceIds := run.evidenceIds + [e.id]));
    var r :| r in s.runs && r.id == e.runId && r.status.Running? && r.projectId == e.projectId;
    RunIsUnique(s.runs, r, s.runs[i]);
    RunsAfterEvidence(s.nodes, s.runs, t.runs, s.evidence, e, i, Settled);
  }

  lemma CompletionStep(s: ProjectState, result: VerifiedRunResult, recordedAt: Timestamp, t: ProjectState)
    requires RunInv(s.nodes, s.runs, s.evidence) && RunChildrenInv(s.nodes, s.runs, Settled)
    requires CompletionAccepted(s, result) && t == s.(runs := t.runs)
    requires RunReplaced(s.runs, t.runs, result.runId, (run: Run) =>
               run.(status := Completed(result.resultSha, result.verifiedAt, recordedAt)))
    ensures RunInv(t.nodes, t.runs, t.evidence) && RunChildrenInv(t.nodes, t.runs, AwaitingRunChild(result.runId))
  {
    var i := ReplacedIndex(s.runs, t.runs, result.runId, (run: Run) =>
      run.(status := Completed(result.resultSha, result.verifiedAt, recordedAt)));
    var r :| r in s.runs && r.id == result.runId && r.status.Running? && r.branch == result.branch
             && r.sourceNodeSha != result.resultSha && CriteriaCovered(s.evidence, r);
    RunIsUnique(s.runs, r, s.runs[i]);
    RunsAfterCompletion(s.nodes, s.runs, t.runs, s.evidence, result.runId);
  }

  /** Checkpoints, failure and cancellation leave evidence and completion alone. */
  lemma HarmlessMove(before: seq<Run>, event: DomainEvent, after: seq<Run>)
    requires match event.body
             case RunCheckpointed(c) =>
               RunReplaced(before, after, c.runId, (run: Run) => run.(checkpoints := run.checkpoints + [c]))
             case RunFailed(runId, reason) =>
               RunReplaced(before, after, runId, (run: Run) => run.(status := Failed(event.meta.recordedAt, reason)))
             case RunCanceled(runId, reason) =>
               RunReplaced(before, after, runId, (run: Run) => run.(status := Canceled(event.meta.recordedAt, reason)))
             case _ => false
    ensures RunsMoved(before, after)
    ensures forall i | 0 <= i < |before| :: after[i].evidenceIds == before[i].evidenceIds
    ensures forall i | 0 <= i < |before| && after[i] != before[i] :: !after[i].status.Completed?
  {
  }

  lemma OpenerRunStep(s: ProjectState, event: DomainEvent, t: ProjectState)
    requires RunInv(s.nodes, s.runs, s.evidence) && RunChildrenInv(s.nodes, s.runs, Settled)
    requires Follows(s, event, t) && !ClosesPair(event)
    ensures RunInv(t.nodes, t.runs, t.evidence) && RunChildrenInv(t.nodes, t.runs, Opens(event))
  {
    match event.body
    case RunStarted(run) => RunsAfterStart(s.nodes, s.runs, s.evidence, run);
    case RunCheckpointed(_) =>
      HarmlessMove(s.runs, event, t.runs);
      RunsAfterMove(s.nodes, s.runs, t.runs, s.evidence, Settled);
    case RunFailed(_, _) =>
      HarmlessMove(s.runs, event, t.runs);
      RunsAfterMove(s.nodes, s.runs, t.runs, s.evidence, Settled);
    case RunCanceled(_, _) =>
      HarmlessMove(s.runs, event, t.runs);
      RunsAfterMove(s.nodes, s.runs, t.runs, s.evidence, Settled);
    case RunEvidenceAttached(e) => EvidenceStep(s, e, t);
    case RunCompleted(result) => CompletionStep(s, result, event.meta.recordedAt, t);
    case _ =>
  }

  lemma OpenerCoachingStep(s: ProjectState, event: DomainEvent, t: ProjectState)
    requires CoachingInv(s.nodes, s.coachingProposals, s.coachingProposalDecisions, Settled)
    requires Follows(s, event, t) && !ClosesPair(event)
    ensures CoachingInv(t.nodes, t.coachingProposals, t.coachingProposalDecisions, Opens(event))
  {
    match event.body
    case CoachingProposalRecorded(p) =>
      CoachingAfterProposal(s.nodes, s.coachingProposals, s.coachingProposalDecisions, p, Settled);
    case CoachingProposalConfirmed(d) =>
      CoachingAfterDecision(s.nodes, s.coachingProposals, s.coachingProposalDecisions, d);
    case CoachingProposalRejected(d) =>
      CoachingAfterDecision(s.nodes, s.coachingProposals, s.coachingProposalDecisions, d);
    case _ =>
  }

  lemma OpenerRootsStep(s: ProjectState, event: DomainEvent, t: ProjectState)
    requires TreeInv(s.projects, s.nodes) && RootsInv(s.projects, s.nodes, Settled)
    requires Follows(s, event, t) && !ClosesPair(event)
    ensures RootsInv(t.projects, t.nodes, Opens(event))
  {
    forall p | p in s.projects ensures HasRoot(s.nodes, p.id) {
      assert Settled != AwaitingRoot(p.id);
    }
    if event.body.ProjectCreated? {
      forall n | n in s.nodes ensures n.projectId != event.body.project.id {
        assert HasProject(s.projects, n.projectId);
      }
    }
  }

  lemma CohortStep(s: ProjectState, event: DomainEvent, t: ProjectState)
    requires CohortInv(s.comparisons, s.decisions) && Follows(s, event, t)
    ensures CohortInv(t.comparisons, t.decisions)
  {
    match event.body
    case AlternativesCompared(c) =>
      ComparisonsAfterComparison(s.comparisons, c);
      DecisionsAfterComparison(s.comparisons, s.decisions, c);
    case AlternativeSelected(d) =>
      var c :| c in s.comparisons && DecisionInComparison(c, d)
               && CohortUnselected(s.comparisons, s.decisions, d.projectId, ComparisonCohortKey(c));
      SelectionsAfterSelection(s.comparisons, s.decisions, d, c);
      RejectionsAfterSelection(s.decisions, d);
    case AlternativesRejected(d) =>
      RejectionsAfterRejection(s.decisions, d);
    case _ =>
  }

  /** An event that is not the second half of a pair keeps the invariant, up to the half it opens. */
  lemma OpenerStep(s: ProjectState, event: DomainEvent, t: ProjectState)
    requires Inv(s, Settled) && Follows(s, event, t) && !ClosesPair(event)
    ensures Inv(t, Opens(event))
  {
    TreeStep(s, event, t);
    OpenerRunStep(s, event, t);
    OpenerCoachingStep(s, event, t);
    OpenerRootsStep(s, event, t);
    CohortStep(s, event, t);
  }

  /** The Node an accepted second half registers belongs to the very thing the first half left open. */
  lemma HalvesMatch(s: ProjectState, event: DomainEvent, t: ProjectState, pending: Pending)
    requires Inv(s, pending) && Follows(s, event, t) && ClosesPair(event)
    requires event.body.RootNodeRegistered? ==> pending.AwaitingRoot?
    requires event.body.RunChildNodeRegistered? ==> pending.AwaitingRunChild?
    requires event.body.CoachingChildNodeRegistered? ==> pending.AwaitingCoachingChild?
    ensures Closes(event) == pending
  {
    match event.body
    case RootNodeRegistered(node, _) => RootHalfMatches(s, node, pending);
    case RunChildNodeRegistered(node, _) => RunChildHalfMatches(s, node, pending);
    case CoachingChildNodeRegistered(node, _) => CoachingHalfMatches(s, node, pending);
  }

  lemma RootHalfMatches(s: ProjectState, node: Node, pending: Pending)
    requires RootsInv(s.projects, s.nodes, pending) && pending.AwaitingRoot?
    requires node.origin.Root? && Registrable(s.projects, s.nodes, node)
    ensures pending == AwaitingRoot(node.projectId)
  {
    var p :| p in s.projects && p.id == node.projectId;
  }

  lemma RunChildHalfMatches(s: ProjectState, node: Node, pending: Pending)
    requires RunChildrenInv(s.nodes, s.runs, pending) && pending.AwaitingRunChild?
    requires RunChildAccepted(s, node) && Registrable(s.projects, s.nodes, node) && node.origin.RunChild?
    ensures pending == AwaitingRunChild(node.origin.runId)
  {
    var run :| run in s.runs && ChildOfRun(node, run);
  }

  lemma CoachingHalfMatches(s: ProjectState, node: Node, pending: Pending)
    requires CoachingInv(s.nodes, s.coachingProposals, s.coachingProposalDecisions, pending) && pending.AwaitingCoachingChild?
    requires CoachingChildAccepted(s, node) && Registrable(s.projects, s.nodes, node) && node.origin.CoachingChild?
    ensures pending == AwaitingCoachingChild(node.origin.proposalId)
  {
    var p, d :| p in s.coachingProposals && d in s.coachingProposalDecisions && ChildOfProposal(node, p, d);
  }

  lemma CloserRunStep(s: ProjectState, event: DomainEvent, t: ProjectState)
    requires ClosesPair(event) && Follows(s, event, t)
    requires RunInv(s.nodes, s.runs, s.evidence) && RunChildrenInv(s.nodes, s.runs, Closes(event))
    ensures RunInv(t.nodes, t.runs, t.evidence) && RunChildrenInv(t.nodes, t.runs, Settled)
  {
    match event.body
    case RootNodeRegistered(node, _) =>
      RunsAfterNode(s.nodes, s.runs, s.evidence, node);
      RunChildrenKeptByOtherNode(s.nodes, s.runs, node, Closes(event));
    case CoachingChildNodeRegistered(node, _) =>
      RunsAfterNode(s.nodes, s.runs, s.evidence, node);
      RunChildrenKeptByOtherNode(s.nodes, s.runs, node, Closes(event));
    case RunChildNodeRegistered(node, _) =>
      RunsAfterNode(s.nodes, s.runs, s.evidence, node);
      var run :| run in s.runs && ChildOfRun(node, run);
      RunChildRegistered(s.nodes, s.runs, node, run);
  }

  lemma CloserCoachingStep(s: ProjectState, event: DomainEvent, t: ProjectState)
    requires ClosesPair(event) && Follows(s, event, t)
    requires CoachingInv(s.nodes, s.coachingProposals, s.coachingProposalDecisions, Closes(event))
    ensures CoachingInv(t.nodes, t.coachingProposals, t.coachingProposalDecisions, Settled)
  {
    match event.body
    case RootNodeRegistered(node, _) =>
      CoachingKeptByOtherNode(s.nodes, s.coachingProposals, s.coachingProposalDecisions, node, Closes(event));
    case RunChildNodeRegistered(node, _) =>
      CoachingKeptByOtherNode(s.nodes, s.coachingProposals, s.coachingProposalDecisions, node, Closes(event));
    case CoachingChildNodeRegistered(node, _) =>
      var p, d :| p in s.coachingProposals && d in s.coachingProposalDecisions && ChildOfProposal(node, p, d);
      CoachingChildRegistered(s.nodes, s.coachingProposals, s.coachingProposalDecisions, node, p, d, Closes(event));
  }

  lemma CloserRootsStep(s: ProjectState, event: DomainEvent, t: ProjectState)
    requires ClosesPair(event) && Follows(s, event, t) && RootsInv(s.projects, s.nodes, Closes(event))
    ensures RootsInv(t.projects, t.nodes, Settled)
  {
    forall p | p in t.projects ensures HasRoot(t.nodes, p.id) {
      if Closes(event) == AwaitingRoot(p.id) {
        assert t.nodes[|s.nodes|] in t.nodes;
      } else {
        var n :| n in s.nodes && n.projectId == p.id && n.origin.Root?;
        assert n in t.nodes;
      }
    }
  }

  /** The second half of a pair settles what the first half opened. */
  lemma CloserStep(s: ProjectState, event: DomainEvent, t: ProjectState)
    requires ClosesPair(event) && Inv(s, Closes(event)) && Follows(s, event, t)
    ensures Inv(t, Settled)
  {
    TreeStep(s, event, t);
    CloserRunStep(s, event, t);
    CloserCoachingStep(s, event, t);
    CloserRootsStep(s, event, t);
    CohortStep(s, event, t);
  }

  // ------------------------------------------------------------- whole streams

  lemma AppliedEventFollows(s: ProjectState, event: DomainEvent, integrity: IntegrityBoundary, t: ProjectState) returns (u: ProjectState)
    requires ApplyDomainEvent(s, event, integrity) == Ok(t)
    requires forall i, j | 0 <= i < j < |s.comparisons| :: s.comparisons[i].id != s.comparisons[j].id
    ensures Follows(s, event, u) && t == Finish(u, event.meta)
  {
    u := Effect(s, event, integrity).value;
    AcceptedEventFollows(s, event, integrity, u);
  }

  lemma FirstEventKeepsInv(s: ProjectState, event: DomainEvent, integrity: IntegrityBoundary, t: ProjectState)
    requires Inv(s, Settled) && !ClosesPair(event) && ApplyDomainEvent(s, event, integrity) == Ok(t)
    ensures Inv(t, Opens(event))
  {
    var u := AppliedEventFollows(s, event, integrity, t);
    OpenerStep(s, event, u);
  }

  lemma TypesMatch(first: DomainEvent, event: DomainEvent)
    requires MatchingTypes(first, event)
    ensures ClosesPair(event)
    ensures event.body.RootNodeRegistered? ==> Opens(first).AwaitingRoot?
    ensures event.body.RunChildNodeRegistered? ==> Opens(first).AwaitingRunChild?
    ensures event.body.CoachingChildNodeRegistered? ==> Opens(first).AwaitingCoachingChild?
  {
  }

  lemma SettlingStep(s: ProjectState, first: DomainEvent, event: DomainEvent, t: ProjectState)
    requires MatchingTypes(first, event) && Inv(s, Opens(first)) && Follows(s, event, t)
    ensures Inv(t, Settled)
  {
    TypesMatch(first, event);
    HalvesMatch(s, event, t, Opens(first));
    CloserStep(s, event, t);
  }

  lemma SecondEventKeepsInv(s: ProjectState, first: DomainEvent, event: DomainEvent, integrity: IntegrityBoundary, t: ProjectState)
    requires MatchingTypes(first, event) && Inv(s, Opens(first)) && ApplyDomainEvent(s, event, integrity) == Ok(t)
    ensures Inv(t, Settled)
  {
    var u := AppliedEventFollows(s, event, integrity, t);
    SettlingStep(s, first, event, u);
  }

  lemma ApplyPair(s: ProjectState, batch: seq<DomainEvent>, integrity: IntegrityBoundary)
    requires |batch| == 2
    ensures ApplyEvents(s, batch, integrity) ==
            var mid := ApplyDomainEvent(s, batch[0], integrity);
            if mid.Ok? then ApplyDomainEvent(mid.value, batch[1], integrity) else mid
  {
    assert batch[1..] == [batch[1]];
    var mid := ApplyDomainEvent(s, batch[0], integrity);
    if mid.Ok? {
      var last := ApplyDomainEvent(mid.value, batch[1], integrity);
      assert ApplyEvents(mid.value, [batch[1]], integrity) == if last.Ok? then ApplyEvents(last.value, [], integrity) else last;
    }
  }

  /** A complete batch leads from settled states to settled states. */
  lemma BatchKeepsInv(s: ProjectState, batch: seq<DomainEvent>, integrity: IntegrityBoundary, t: ProjectState)
    requires Inv(s, Settled) && CompleteBatch(batch) && ApplyEvents(s, batch, integrity) == Ok(t)
    ensures Inv(t, Settled)
  {
    var mid := ApplyDomainEvent(s, batch[0], integrity).value;
    FirstEventKeepsInv(s, batch[0], integrity, mid);
    if |batch| == 1 {
      assert ApplyEvents(mid, batch[1..], integrity) == Ok(mid);
    } else {
      ApplyPair(s, batch, integrity);
      SecondEventKeepsInv(mid, batch[0], batch[1], integrity, t);
    }
  }

  ghost predicate KeptBy(property: ProjectState -> bool, s: ProjectState, batch: seq<DomainEvent>, integrity: IntegrityBoundary, t: ProjectState) {
    property(s) && CompleteBatch(batch) && ApplyEvents(s, batch, integrity) == Ok(t) ==> property(t)
  }

  /** A property of states that no complete batch breaks. */
  ghost predicate KeptByBatches(property: ProjectState -> bool, integrity: IntegrityBoundary) {
    forall s, batch, t {:trigger KeptBy(property, s, batch, integrity, t)} :: KeptBy(property, s, batch, integrity, t)
  }

  lemma {:induction false} StreamInduction(property: ProjectState -> bool, s: ProjectState, events: seq<DomainEvent>,
                                           closed: set<string>, integrity: IntegrityBoundary, t: ProjectState)
    requires KeptByBatches(property, integrity)
    requires property(s) && Parses(events, closed) && ApplyEvents(s, events, integrity) == Ok(t)
    ensures property(t)
    decreases |events|
  {
    if events != [] {
      var n := HeadBatch(events);
      assert events == events[..n] + events[n..];
      ApplyEventsAppend(s, events[..n], events[n..], integrity);
      var mid := ApplyEvents(s, events[..n], integrity).value;
      assert KeptBy(property, s, events[..n], integrity, mid);
      StreamInduction(property, mid, events[n..], closed + {events[0].meta.idempotencyKey}, integrity, t);
    }
  }

  lemma InvKeptByBatches(integrity: IntegrityBoundary)
    ensures KeptByBatches(s => Inv(s, Settled), integrity)
  {
    var property := (s: ProjectState) => Inv(s, Settled);
    forall s, batch, t ensures KeptBy(property, s, batch, integrity, t) {
      if Inv(s, Settled) && CompleteBatch(batch) && ApplyEvents(s, batch, integrity) == Ok(t) {
        BatchKeepsInv(s, batch, integrity, t);
      }
    }
  }

  /** Every accepted stream, however it came about, ends in a state satisfying the invariant. */
  lemma ReplayedStateSatisfiesInv(events: seq<DomainEvent>, integrity: IntegrityBoundary, t: ProjectState)
    requires Replayed(events, integrity) == Ok(t)
    ensures Inv(t, Settled)
  {
    assert Inv(EMPTY_STATE, Settled);
    InvKeptByBatches(integrity);
    StreamInduction(s => Inv(s, Settled), EMPTY_STATE, events, {}, integrity, t);
  }

  /** The states some accepted stream replays to. */
  ghost predicate Reachable(state: ProjectState, integrity: IntegrityBoundary) {
    exists events :: Replayed(events, integrity) == Ok(state)
  }

  lemma ReachableSatisfiesInv(state: ProjectState, integrity: IntegrityBoundary)
    requires Reachable(state, integrity)
    ensures Inv(state, Settled)
  {
    var events :| Replayed(events, integrity) == Ok(state);
    ReplayedStateSatisfiesInv(events, integrity, state);
  }
}

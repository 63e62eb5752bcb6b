/** At most one winner for each cohort, and no Node judged twice. */
module Cohorts {
  import opened Prelude
  import opened Protocol
  import opened Engine
  import opened Invariant
  import opened Replay

  predicate BothOf(a: AlternativeDecision, b: AlternativeDecision, id: ProjectId) {
    a.projectId == id && b.projectId == id
  }

  lemma ComparisonsOf(comparisons: seq<AlternativeComparison>, a: AlternativeDecision, b: AlternativeDecision)
    returns (c: AlternativeComparison, d: AlternativeComparison)
    requires exists x :: x in comparisons && DecisionInComparison(x, a)
    requires exists x :: x in comparisons && DecisionInComparison(x, b)
    ensures c in comparisons && d in comparisons && DecisionInComparison(c, a) && DecisionInComparison(d, b)
  {
    c :| c in comparisons && DecisionInComparison(c, a);
    d :| d in comparisons && DecisionInComparison(d, b);
  }

  /** The comparisons behind two selections lie in different cohorts. */
  ghost predicate DifferentCohorts(comparisons: seq<AlternativeComparison>, a: AlternativeDecision, b: AlternativeDecision) {
    exists c, d :: c in comparisons && d in comparisons && DecisionInComparison(c, a) && DecisionInComparison(d, b)
                   && ComparisonCohortKey(c) != ComparisonCohortKey(d)
  }

  lemma SelectedNodesDiffer(comparisons: seq<AlternativeComparison>, decisions: seq<AlternativeDecision>, i: nat, j: nat)
    requires ComparisonsInv(comparisons) && DecisionsBacked(comparisons, decisions) && SelectionsInv(comparisons, decisions)
    requires i < j < |decisions| && decisions[i].Selection? && decisions[j].Selection?
    requires decisions[i].projectId == decisions[j].projectId
    ensures decisions[i].selectedNodeSha != decisions[j].selectedNodeSha
    ensures DifferentCohorts(comparisons, decisions[i], decisions[j])
  {
    assert decisions[i] in decisions && decisions[j] in decisions;
    var c, d := ComparisonsOf(comparisons, decisions[i], decisions[j]);
    assert SelectionsInDifferentCohorts(comparisons, decisions[i], decisions[j]);
    assert ComparisonCohortKey(c) != ComparisonCohortKey(d);
    assert !Overlap(c, d);
  }

  /** Comparisons of a Project that share a Node belong to one cohort. */
  lemma OverlapMeansSameCohort(state: ProjectState, integrity: IntegrityBoundary, a: AlternativeComparison, b: AlternativeComparison)
    requires Reachable(state, integrity) && a in state.comparisons && b in state.comparisons && Overlap(a, b)
    ensures ComparisonCohortKey(a) == ComparisonCohortKey(b)
  {
    ReachableSatisfiesInv(state, integrity);
  }

  /** Two selections of a Project never fall in one cohort and never select one Node. */
  lemma SelectionsAreUnique(state: ProjectState, integrity: IntegrityBoundary, i: nat, j: nat)
    requires Reachable(state, integrity) && i < j < |state.decisions|
    requires state.decisions[i].Selection? && state.decisions[j].Selection?
    requires state.decisions[i].projectId == state.decisions[j].projectId
    ensures state.decisions[i].selectedNodeSha != state.decisions[j].selectedNodeSha
    ensures DifferentCohorts(state.comparisons, state.decisions[i], state.decisions[j])
  {
    ReachableSatisfiesInv(state, integrity);
    SelectedNodesDiffer(state.comparisons, state.decisions, i, j);
  }

  /** No Node of a Project is rejected twice, and none is both selected and rejected. */
  lemma JudgedOnce(state: ProjectState, integrity: IntegrityBoundary, id: ProjectId, sha: Sha)
    requires Reachable(state, integrity)
    ensures !(IsSelectedNode(state.decisions, id, sha) && IsRejectedNode(state.decisions, id, sha))
    ensures forall i, j | 0 <= i < j < |state.decisions| && BothOf(state.decisions[i], state.decisions[j], id)
                          && state.decisions[i].Rejection? && state.decisions[j].Rejection? ::
              !(sha in state.decisions[i].rejectedNodeShas && sha in state.decisions[j].rejectedNodeShas)
    ensures forall d | d in state.decisions && d.Rejection? :: Distinct(d.rejectedNodeShas)
  {
    ReachableSatisfiesInv(state, integrity);
  }
}

/**
 * How many alternatives of a Project still need a decision. The engine and the projection count them separately:
 * the engine keeps the decisions that name the Project, the projection those whose comparison belongs to it.
 */
module Divergence {
  import opened Prelude
  import opened Protocol
  import opened Engine
  import opened Invariant
  import opened Replay
  import opened NodeGraph

  // ------------------------------------------------------- what is to be counted

  function RunChildrenOf(nodes: seq<Node>, id: ProjectId, parentSha: Sha): seq<Node> {
    Filter(nodes, (n: Node) => n.projectId == id && n.origin.RunChild? && n.origin.parentSha == parentSha)
  }

  function ParentShas(nodes: seq<Node>, id: ProjectId): set<Sha> {
    set n | n in nodes && n.projectId == id && n.origin.RunChild? :: n.origin.parentSha
  }

  /** All candidates are rejected, or one is selected and the others are rejected. */
  predicate CohortResolved(shas: seq<Sha>, selected: set<Sha>, rejected: set<Sha>) {
    var chosen := Filter(shas, (sha: Sha) => sha in selected && sha !in rejected);
    || (forall sha | sha in shas :: sha in rejected)
    || (|chosen| == 1 && forall sha | sha in shas :: sha == chosen[0] || sha in rejected)
  }

  predicate Unresolved(shas: seq<Sha>, selected: set<Sha>, rejected: set<Sha>) {
    |shas| >= 2 && !CohortResolved(shas, selected, rejected)
  }

  predicate Divergent(nodes: seq<Node>, id: ProjectId, parentSha: Sha, selected: set<Sha>, rejected: set<Sha>) {
    Unresolved(Shas(RunChildrenOf(nodes, id, parentSha)), selected, rejected)
  }

  function DivergentParents(nodes: seq<Node>, id: ProjectId, selected: set<Sha>, rejected: set<Sha>): set<Sha> {
    set sha | sha in ParentShas(nodes, id) && Divergent(nodes, id, sha, selected, rejected)
  }

  predicate IsExperiment(c: AlternativeComparison, id: ProjectId) {
    c.projectId == id && c.kind.CoachedHowExperiment?
  }

  /** Appends the SHAs not yet present, as adding to an insertion-ordered Set does. */
  function AddAll(members: seq<Sha>, shas: seq<Sha>): (r: seq<Sha>)
    ensures forall sha :: sha in r <==> sha in members || sha in shas
    decreases |shas|
  {
    if shas == [] then members
    else
      assert shas == [shas[0]] + shas[1..];
      AddAll(if shas[0] in members then members else members + [shas[0]], shas[1..])
  }

  /** The candidates of one coached experiment cohort: those of all its comparisons, in order of first appearance. */
  function CohortShas<K(==)>(comparisons: seq<AlternativeComparison>, id: ProjectId, keyOf: AlternativeComparison -> K, key: K): seq<Sha> {
    if comparisons == [] then []
    else
      var last := comparisons[|comparisons| - 1];
      var earlier := CohortShas(comparisons[..|comparisons| - 1], id, keyOf, key);
      if IsExperiment(last, id) && keyOf(last) == key then AddAll(earlier, last.nodeShas) else earlier
  }

  lemma {:induction false} AddAllKeepsDistinct(members: seq<Sha>, shas: seq<Sha>)
    requires Distinct(members)
    ensures Distinct(AddAll(members, shas))
    decreases |shas|
  {
    if shas != [] {
      AddAllKeepsDistinct(if shas[0] in members then members else members + [shas[0]], shas[1..]);
    }
  }

  /** A cohort lists the candidates of its comparisons, each once. */
  lemma {:induction false} CohortShasMeaning<K>(comparisons: seq<AlternativeComparison>, id: ProjectId,
                                                keyOf: AlternativeComparison -> K, key: K)
    ensures Distinct(CohortShas(comparisons, id, keyOf, key))
    ensures forall sha :: sha in CohortShas(comparisons, id, keyOf, key) <==>
              exists c :: c in comparisons && IsExperiment(c, id) && keyOf(c) == key && sha in c.nodeShas
  {
    if comparisons != [] {
      var front, last := comparisons[..|comparisons| - 1], comparisons[|comparisons| - 1];
      CohortShasMeaning(front, id, keyOf, key);
      assert forall c :: c in comparisons <==> c in front || c == last;
      AddAllKeepsDistinct(CohortShas(front, id, keyOf, key), last.nodeShas);
    }
  }

  function CohortKeys<K(==)>(comparisons: seq<AlternativeComparison>, id: ProjectId, keyOf: AlternativeComparison -> K): set<K> {
    set c | c in comparisons && IsExperiment(c, id) :: keyOf(c)
  }

  function DivergentCohorts<K(==)>(comparisons: seq<AlternativeComparison>, id: ProjectId, keyOf: AlternativeComparison -> K,
                                   selected: set<Sha>, rejected: set<Sha>): set<K> {
    set key | key in CohortKeys(comparisons, id, keyOf) && Unresolved(CohortShas(comparisons, id, keyOf, key), selected, rejected)
  }

  function SelectedShas(decisions: seq<AlternativeDecision>): set<Sha> {
    set d | d in decisions && d.Selection? :: d.selectedNodeSha
  }

  function RejectedShas(decisions: seq<AlternativeDecision>): set<Sha> {
    set d, sha | d in decisions && d.Rejection? && sha in d.rejectedNodeShas :: sha
  }

  /** The engine's decisions of a Project. */
  function DecisionsNaming(decisions: seq<AlternativeDecision>, id: ProjectId): seq<AlternativeDecision> {
    Filter(decisions, (d: AlternativeDecision) => d.projectId == id)
  }

  /** `projectDecisions`: the projection's decisions of a Project. */
  function ProjectDecisions(state: ProjectState, id: ProjectId): seq<AlternativeDecision> {
    var comparisonIds := set c | c in state.comparisons && c.projectId == id :: c.id;
    Filter(state.decisions, (d: AlternativeDecision) => d.comparisonId in comparisonIds)
  }

  function Count<K(==)>(state: ProjectState, id: ProjectId, decisions: seq<AlternativeDecision>, keyOf: AlternativeComparison -> K): nat {
    var selected, rejected := SelectedShas(decisions), RejectedShas(decisions);
    |DivergentParents(state.nodes, id, selected, rejected)| + |DivergentCohorts(state.comparisons, id, keyOf, selected, rejected)|
  }

  // --------------------------------------------------------------- the two loops

  method GatherCohorts<K(==)>(comparisons: seq<AlternativeComparison>, id: ProjectId, keyOf: AlternativeComparison -> K)
    returns (cohorts: map<K, seq<Sha>>)
    ensures cohorts.Keys == CohortKeys(comparisons, id, keyOf)
    ensures forall key | key in cohorts :: cohorts[key] == CohortShas(comparisons, id, keyOf, key)
  {
    cohorts := map[];
    for i := 0 to |comparisons|
      invariant cohorts.Keys == CohortKeys(comparisons[..i], id, keyOf)
      invariant forall key :: CohortShas(comparisons[..i], id, keyOf, key) == if key in cohorts then cohorts[key] else []
    {
      var comparison := comparisons[i];
      ghost var next := comparisons[..i + 1];
      assert next == comparisons[..i] + [comparison] && next[..|next| - 1] == comparisons[..i];
      if IsExperiment(comparison, id) {
        var key := keyOf(comparison);
        var members := if key in cohorts then cohorts[key] else [];
        cohorts := cohorts[key := AddAll(members, comparison.nodeShas)];
      }
    }
    assert comparisons[..|comparisons|] == comparisons;
  }

  method CountUnresolved<K(==)>(cohorts: map<K, seq<Sha>>, selected: set<Sha>, rejected: set<Sha>) returns (n: nat)
    ensures n == |set key | key in cohorts && Unresolved(cohorts[key], selected, rejected)|
  {
    n := 0;
    var pending := cohorts.Keys;
    ghost var counted: set<K> := {};
    while pending != {}
      invariant pending <= cohorts.Keys
      invariant counted == set key | key in cohorts && key !in pending && Unresolved(cohorts[key], selected, rejected)
      invariant n == |counted|
      decreases |pending|
    {
      var key :| key in pending;
      pending := pending - {key};
      if Unresolved(cohorts[key], selected, rejected) {
        n := n + 1;
        counted := counted + {key};
      }
    }
    assert counted == set key | key in cohorts && Unresolved(cohorts[key], selected, rejected);
  }

  function RunChildren(nodes: seq<Node>, id: ProjectId): seq<Node> {
    Filter(nodes, (n: Node) => n.projectId == id && n.origin.RunChild?)
  }

  function Siblings(children: seq<Node>, parentSha: Sha): seq<Node> {
    Filter(children, (n: Node) => n.origin.RunChild? && n.origin.parentSha == parentSha)
  }

  predicate DivergentAmong(children: seq<Node>, parentSha: Sha, selected: set<Sha>, rejected: set<Sha>) {
    Unresolved(Shas(Siblings(children, parentSha)), selected, rejected)
  }

  /** The engine's loop over the parents of Run children. */
  method CountDivergent(children: seq<Node>, parents: set<Sha>, selected: set<Sha>, rejected: set<Sha>) returns (n: nat)
    ensures n == |set sha | sha in parents && DivergentAmong(children, sha, selected, rejected)|
  {
    n := 0;
    var pending := parents;
    ghost var counted: set<Sha> := {};
    while pending != {}
      invariant pending <= parents
      invariant counted == set sha | sha in parents && sha !in pending && DivergentAmong(children, sha, selected, rejected)
      invariant n == |counted|
      decreases |pending|
    {
      var parentSha :| parentSha in pending;
      pending := pending - {parentSha};
      var diverges := DivergentAmong(children, parentSha, selected, rejected);
      if diverges {
        n := n + 1;
        counted := counted + {parentSha};
      }
    }
    assert counted == set sha | sha in parents && DivergentAmong(children, sha, selected, rejected);
  }

  lemma DivergentBySiblings(nodes: seq<Node>, id: ProjectId, selected: set<Sha>, rejected: set<Sha>)
    ensures var children := RunChildren(nodes, id);
            DivergentParents(nodes, id, selected, rejected)
            == set sha | sha in ParentShas(children, id) && DivergentAmong(children, sha, selected, rejected)
  {
    var children := RunChildren(nodes, id);
    assert ParentShas(nodes, id) == ParentShas(children, id);
    forall sha ensures Divergent(nodes, id, sha, selected, rejected) == DivergentAmong(children, sha, selected, rejected) {
      SiblingsOfProject(nodes, id, sha);
    }
  }

  /** The engine's `unresolvedDivergenceCount`. */
  method EngineDivergenceCount(state: ProjectState, id: ProjectId) returns (n: nat)
    ensures n == Count(state, id, DecisionsNaming(state.decisions, id), ComparisonCohortKey)
  {
    var decisions := DecisionsNaming(state.decisions, id);
    var selected, rejected := SelectedShas(decisions), RejectedShas(decisions);
    var children := RunChildren(state.nodes, id);
    var unresolved := CountDivergent(children, ParentShas(children, id), selected, rejected);
    DivergentBySiblings(state.nodes, id, selected, rejected);
    var cohorts := GatherCohorts(state.comparisons, id, ComparisonCohortKey);
    var more := CountUnresolved(cohorts, selected, rejected);
    assert DivergentCohorts(state.comparisons, id, ComparisonCohortKey, selected, rejected)
        == set key | key in cohorts && Unresolved(cohorts[key], selected, rejected);
    return unresolved + more;
  }

  lemma {:induction false} SiblingsOfProject(nodes: seq<Node>, id: ProjectId, parentSha: Sha)
    ensures Siblings(RunChildren(nodes, id), parentSha) == RunChildrenOf(nodes, id, parentSha)
  {
    if nodes != [] {
      SiblingsOfProject(nodes[1..], id, parentSha);
      var head := RunChildren([nodes[0]], id);
      assert RunChildren(nodes, id) == head + RunChildren(nodes[1..], id);
      FilterAppend(head, RunChildren(nodes[1..], id), (n: Node) => n.origin.RunChild? && n.origin.parentSha == parentSha);
    }
  }

  /** What the projection tells two experiment cohorts of a Project apart by. */
  datatype ExperimentKey = ExperimentKey(anchorNodeSha: Sha, goalDigest: Digest<GoalValue>) | NoExperiment

  function ExperimentKeyOf(c: AlternativeComparison): ExperimentKey {
    match c.kind
    case CoachedHowExperiment(anchorNodeSha, goalDigest) => ExperimentKey(anchorNodeSha, goalDigest)
    case SiblingRuns(_) => NoExperiment
  }

  method GatherSiblings(nodes: seq<Node>, id: ProjectId) returns (byParent: map<Sha, seq<Sha>>)
    ensures byParent.Keys == ParentShas(nodes, id)
    ensures forall sha | sha in byParent :: byParent[sha] == Shas(RunChildrenOf(nodes, id, sha))
  {
    byParent := map[];
    for i := 0 to |nodes|
      invariant byParent.Keys == ParentShas(nodes[..i], id)
      invariant forall sha :: Shas(RunChildrenOf(nodes[..i], id, sha)) == if sha in byParent then byParent[sha] else []
    {
      var node := nodes[i];
      assert nodes[..i + 1] == nodes[..i] + [node];
      forall sha ensures Shas(RunChildrenOf(nodes[..i + 1], id, sha)) == Shas(RunChildrenOf(nodes[..i], id, sha))
          + (if node.projectId == id && node.origin.RunChild? && node.origin.parentSha == sha then [node.commitSha] else [])
      {
        NextSibling(nodes[..i], node, id, sha);
      }
      if node.projectId == id && node.origin.RunChild? {
        var sha := node.origin.parentSha;
        var siblings := if sha in byParent then byParent[sha] else [];
        byParent := byParent[sha := siblings + [node.commitSha]];
      }
    }
    assert nodes[..|nodes|] == nodes;
  }

  lemma NextSibling(nodes: seq<Node>, node: Node, id: ProjectId, sha: Sha)
    ensures Shas(RunChildrenOf(nodes + [node], id, sha)) == Shas(RunChildrenOf(nodes, id, sha))
      + (if node.projectId == id && node.origin.RunChild? && node.origin.parentSha == sha then [node.commitSha] else [])
  {
    var p := (n: Node) => n.projectId == id && n.origin.RunChild? && n.origin.parentSha == sha;
    FilterAppend(nodes, [node], p);
    assert Filter([node], p) == if p(node) then [node] else [];
  }

  /** The projection's `unresolvedDivergenceCount`. */
  method ProjectionDivergenceCount(state: ProjectState, id: ProjectId) returns (n: nat)
    ensures n == Count(state, id, ProjectDecisions(state, id), ExperimentKeyOf)
  {
    var byParent := GatherSiblings(state.nodes, id);
    var decisions := ProjectDecisions(state, id);
    var selected, rejected := SelectedShas(decisions), RejectedShas(decisions);
    var count := CountUnresolved(byParent, selected, rejected);
    assert forall sha | sha in byParent :: Divergent(state.nodes, id, sha, selected, rejected) == Unresolved(byParent[sha], selected, rejected);
    assert DivergentParents(state.nodes, id, selected, rejected)
        == set sha | sha in byParent && Unresolved(byParent[sha], selected, rejected);
    var cohorts := GatherCohorts(state.comparisons, id, ExperimentKeyOf);
    var more := CountUnresolved(cohorts, selected, rejected);
    assert DivergentCohorts(state.comparisons, id, ExperimentKeyOf, selected, rejected)
        == set key | key in cohorts && Unresolved(cohorts[key], selected, rejected);
    return count + more;
  }

  // ---------------------------------------------------------------- they agree

  lemma {:induction false} FilterSame<T>(s: seq<T>, p: T -> bool, q: T -> bool)
    requires forall x | x in s :: p(x) == q(x)
    ensures Filter(s, p) == Filter(s, q)
  {
    if s != [] {
      assert s == [s[0]] + s[1..];
      FilterSame(s[1..], p, q);
    }
  }

  lemma SameDecisions(state: ProjectState, id: ProjectId)
    requires forall i, j | 0 <= i < j < |state.comparisons| :: state.comparisons[i].id != state.comparisons[j].id
    requires DecisionsBacked(state.comparisons, state.decisions)
    ensures DecisionsNaming(state.decisions, id) == ProjectDecisions(state, id)
  {
    var comparisonIds := set c | c in state.comparisons && c.projectId == id :: c.id;
    forall d | d in state.decisions ensures (d.projectId == id) == (d.comparisonId in comparisonIds) {
      var c :| c in state.comparisons && DecisionInComparison(c, d);
    }
    FilterSame(state.decisions, (d: AlternativeDecision) => d.projectId == id, (d: AlternativeDecision) => d.comparisonId in comparisonIds);
  }

  lemma {:induction false} SameCohort(comparisons: seq<AlternativeComparison>, id: ProjectId, key: ExperimentKey)
    requires key.ExperimentKey?
    ensures CohortShas(comparisons, id, ExperimentKeyOf, key)
         == CohortShas(comparisons, id, ComparisonCohortKey, CoachedCohort(id, key.anchorNodeSha, key.goalDigest))
  {
    if comparisons != [] {
      SameCohort(comparisons[..|comparisons| - 1], id, key);
    }
  }

  lemma {:induction false} ImageSize<A, B>(a: set<A>, b: set<B>, f: A -> B)
    requires forall x | x in a :: f(x) in b
    requires forall y | y in b :: exists x :: x in a && f(x) == y
    requires forall x, z | x in a && z in a && f(x) == f(z) :: x == z
    ensures |a| == |b|
    decreases |a|
  {
    if a != {} {
      var x :| x in a;
      ImageSize(a - {x}, b - {f(x)}, f);
    } else {
      assert b == {};
    }
  }

  lemma SameCohortCount(comparisons: seq<AlternativeComparison>, id: ProjectId, selected: set<Sha>, rejected: set<Sha>)
    ensures |DivergentCohorts(comparisons, id, ExperimentKeyOf, selected, rejected)|
         == |DivergentCohorts(comparisons, id, ComparisonCohortKey, selected, rejected)|
  {
    var a := DivergentCohorts(comparisons, id, ExperimentKeyOf, selected, rejected);
    var b := DivergentCohorts(comparisons, id, ComparisonCohortKey, selected, rejected);
    var f := (key: ExperimentKey) =>
      if key.ExperimentKey? then CoachedCohort(id, key.anchorNodeSha, key.goalDigest) else SiblingCohort(id, "");
    forall key | key in a ensures key.ExperimentKey? && f(key) in b {
      var c :| c in comparisons && IsExperiment(c, id) && ExperimentKeyOf(c) == key;
      SameCohort(comparisons, id, key);
      assert ComparisonCohortKey(c) == f(key);
    }
    forall key | key in b ensures exists x :: x in a && f(x) == key {
      var c :| c in comparisons && IsExperiment(c, id) && ComparisonCohortKey(c) == key;
      SameCohort(comparisons, id, ExperimentKeyOf(c));
      assert ExperimentKeyOf(c) in a;
    }
    ImageSize(a, b, f);
  }

  /** On every reachable state the two counts are the same number. */
  lemma CountsAgree(state: ProjectState, integrity: IntegrityBoundary, id: ProjectId)
    requires Reachable(state, integrity)
    ensures Count(state, id, DecisionsNaming(state.decisions, id), ComparisonCohortKey)
         == Count(state, id, ProjectDecisions(state, id), ExperimentKeyOf)
  {
    ReachableSatisfiesInv(state, integrity);
    SameDecisions(state, id);
    var decisions := ProjectDecisions(state, id);
    SameCohortCount(state.comparisons, id, SelectedShas(decisions), RejectedShas(decisions));
  }
}

/** Which alternatives are still open, said of the decisions themselves, and what a decision does to the number of them. */
module OpenAlternatives {
  import opened Prelude
  import opened Protocol
  import opened Engine
  import opened Lists
  import opened Invariant
  import opened Replay
  import opened NodeGraph
  import opened Divergence
  import opened CommandRules
  import opened CommandEffects
  import opened Batches
  import opened CommandRuns

  // ---------------------------------------------------------------- what is open

  /** The Nodes that Runs from one parent led to. */
  function Family(s: ProjectState, id: ProjectId, parentSha: Sha): set<Sha> {
    set n | n in s.nodes && n.projectId == id && n.origin.RunChild? && n.origin.parentSha == parentSha :: n.commitSha
  }

  /** The Nodes compared in one coached experiment, in however many comparisons. */
  function Contestants(s: ProjectState, id: ProjectId, kind: ComparisonKind): set<Sha> {
    set c, sha | c in s.comparisons && c.projectId == id && c.kind == kind && sha in c.nodeShas :: sha
  }

  /** Decisions reject every one, or every one but one that a decision selects. */
  ghost predicate IsSettled(s: ProjectState, id: ProjectId, shas: set<Sha>) {
    || (forall sha | sha in shas :: IsRejected(s, id, sha))
    || exists winner :: winner in shas && IsSelected(s, id, winner) && forall sha | sha in shas && sha != winner :: IsRejected(s, id, sha)
  }

  ghost predicate IsUndecided(s: ProjectState, id: ProjectId, shas: set<Sha>) {
    |shas| >= 2 && !IsSettled(s, id, shas)
  }

  ghost function OpenFamilies(s: ProjectState, id: ProjectId): set<Sha> {
    set n | n in s.nodes && n.projectId == id && n.origin.RunChild? && IsUndecided(s, id, Family(s, id, n.origin.parentSha)) :: n.origin.parentSha
  }

  ghost function OpenExperiments(s: ProjectState, id: ProjectId): set<ComparisonKind> {
    set c | c in s.comparisons && c.projectId == id && c.kind.CoachedHowExperiment? && IsUndecided(s, id, Contestants(s, id, c.kind)) :: c.kind
  }

  // -------------------------------------------------------- and that it is counted

  /** With distinct candidates, none both selected and rejected, the counts' own test says just that. */
  lemma ResolvedMeaning(shas: seq<Sha>, selected: set<Sha>, rejected: set<Sha>)
    requires Distinct(shas) && forall sha | sha in shas :: !(sha in selected && sha in rejected)
    ensures CohortResolved(shas, selected, rejected) <==>
            || (forall sha | sha in shas :: sha in rejected)
            || exists winner :: winner in shas && winner in selected && forall sha | sha in shas && sha != winner :: sha in rejected
  {
    var p := (sha: Sha) => sha in selected && sha !in rejected;
    var chosen := Filter(shas, p);
    if winner :| winner in shas && winner in selected && forall sha | sha in shas && sha != winner :: sha in rejected {
      var k :| 0 <= k < |shas| && shas[k] == winner;
      forall i | 0 <= i < |shas| ensures p(shas[i]) <==> k <= i < k + 1 {
        assert shas[i] in shas && (i != k ==> shas[i] != winner);
      }
      FilterRange(shas, p, k, k + 1);
      assert chosen == [winner];
    }
    if |chosen| == 1 {
      assert chosen[0] in chosen;
    }
  }

  ghost predicate DecisionsAre(s: ProjectState, id: ProjectId, selected: set<Sha>, rejected: set<Sha>) {
    && (forall sha :: sha in selected <==> IsSelected(s, id, sha)) && (forall sha :: sha in rejected <==> IsRejected(s, id, sha))
    && forall sha :: !(sha in selected && sha in rejected)
  }

  lemma UnresolvedIsUndecided(s: ProjectState, id: ProjectId, shas: seq<Sha>, selected: set<Sha>, rejected: set<Sha>)
    requires Distinct(shas) && DecisionsAre(s, id, selected, rejected)
    ensures Unresolved(shas, selected, rejected) <==> IsUndecided(s, id, Elements(shas))
  {
    ResolvedMeaning(shas, selected, rejected);
    DistinctSize(shas);
  }

  lemma DecisionsOf(s: ProjectState, id: ProjectId)
    requires CohortInv(s.comparisons, s.decisions)
    ensures var decisions := DecisionsNaming(s.decisions, id); DecisionsAre(s, id, SelectedShas(decisions), RejectedShas(decisions))
  {
    var decisions := DecisionsNaming(s.decisions, id);
    assert forall sha :: !(sha in SelectedShas(decisions) && sha in RejectedShas(decisions));
  }

  lemma FamilyOf(s: ProjectState, id: ProjectId, parentSha: Sha)
    requires TreeInv(s.projects, s.nodes)
    ensures Distinct(Shas(RunChildrenOf(s.nodes, id, parentSha)))
    ensures Elements(Shas(RunChildrenOf(s.nodes, id, parentSha))) == Family(s, id, parentSha)
  {
    var children := RunChildrenOf(s.nodes, id, parentSha);
    NodesDiffer(s);
    FilterKeepsDistinct(s.nodes, (n: Node) => n.projectId == id && n.origin.RunChild? && n.origin.parentSha == parentSha);
    forall i, j | 0 <= i < j < |children| ensures Shas(children)[i] != Shas(children)[j] {
      assert children[i] in children && children[j] in children && children[i] != children[j];
      DifferentNodes(s, children[i], children[j]);
    }
    forall sha ensures sha in Shas(children) <==> exists n :: n in children && n.commitSha == sha {
      if n :| n in children && n.commitSha == sha {
        var i :| 0 <= i < |children| && children[i] == n;
        assert Shas(children)[i] == sha;
      }
    }
  }

  lemma NodesDiffer(s: ProjectState)
    requires TreeInv(s.projects, s.nodes)
    ensures Distinct(s.nodes)
  {
    forall i, j | 0 <= i < j < |s.nodes| ensures s.nodes[i] != s.nodes[j] {
      assert !SameNode(s.nodes[i], s.nodes[j]);
    }
  }

  lemma DifferentNodes(s: ProjectState, m: Node, n: Node)
    requires TreeInv(s.projects, s.nodes) && m in s.nodes && n in s.nodes && m != n
    ensures !SameNode(m, n)
  {
    var i :| 0 <= i < |s.nodes| && s.nodes[i] == m;
    var j :| 0 <= j < |s.nodes| && s.nodes[j] == n;
  }

  lemma FamiliesAreCounted(s: ProjectState, id: ProjectId, selected: set<Sha>, rejected: set<Sha>)
    requires TreeInv(s.projects, s.nodes) && DecisionsAre(s, id, selected, rejected)
    ensures DivergentParents(s.nodes, id, selected, rejected) == OpenFamilies(s, id)
  {
    forall sha ensures Divergent(s.nodes, id, sha, selected, rejected) <==> IsUndecided(s, id, Family(s, id, sha)) {
      FamilyOf(s, id, sha);
      UnresolvedIsUndecided(s, id, Shas(RunChildrenOf(s.nodes, id, sha)), selected, rejected);
    }
  }

  lemma ContestantsOf(s: ProjectState, id: ProjectId, kind: ComparisonKind)
    requires kind.CoachedHowExperiment?
    ensures var shas := CohortShas(s.comparisons, id, ComparisonCohortKey, CoachedCohort(id, kind.anchorNodeSha, kind.goalDigest));
            Distinct(shas) && Elements(shas) == Contestants(s, id, kind)
  {
    var key := CoachedCohort(id, kind.anchorNodeSha, kind.goalDigest);
    CohortShasMeaning(s.comparisons, id, ComparisonCohortKey, key);
    forall c | c in s.comparisons ensures (IsExperiment(c, id) && ComparisonCohortKey(c) == key) <==> (c.projectId == id && c.kind == kind) {
    }
  }

  lemma ExperimentsAreCounted(s: ProjectState, id: ProjectId, selected: set<Sha>, rejected: set<Sha>)
    requires DecisionsAre(s, id, selected, rejected)
    ensures |DivergentCohorts(s.comparisons, id, ComparisonCohortKey, selected, rejected)| == |OpenExperiments(s, id)|
  {
    var a, b := OpenExperiments(s, id), DivergentCohorts(s.comparisons, id, ComparisonCohortKey, selected, rejected);
    var f := (kind: ComparisonKind) =>
      if kind.CoachedHowExperiment? then CoachedCohort(id, kind.anchorNodeSha, kind.goalDigest) else SiblingCohort(id, "");
    forall c | c in s.comparisons && IsExperiment(c, id)
      ensures ComparisonCohortKey(c) == f(c.kind)
      ensures Unresolved(CohortShas(s.comparisons, id, ComparisonCohortKey, f(c.kind)), selected, rejected) <==> IsUndecided(s, id, Contestants(s, id, c.kind))
    {
      ContestantsOf(s, id, c.kind);
      UnresolvedIsUndecided(s, id, CohortShas(s.comparisons, id, ComparisonCohortKey, f(c.kind)), selected, rejected);
    }
    forall kind | kind in a ensures f(kind) in b {
      var c :| c in s.comparisons && IsExperiment(c, id) && c.kind == kind;
    }
    forall key | key in b ensures exists kind :: kind in a && f(kind) == key {
      var c :| c in s.comparisons && IsExperiment(c, id) && ComparisonCohortKey(c) == key;
      assert c.kind in a;
    }
    forall x, z | x in a && z in a && f(x) == f(z) ensures x == z {
    }
    ImageSize(a, b, f);
  }

  ghost function OpenCount(s: ProjectState, id: ProjectId): nat {
    |OpenFamilies(s, id)| + |OpenExperiments(s, id)|
  }

  /** On every replayed state both counts are the number of families and experiments that are still undecided. */
  lemma CountsAreOpen(s: ProjectState, integrity: IntegrityBoundary, id: ProjectId)
    requires Reachable(s, integrity)
    ensures Count(s, id, DecisionsNaming(s.decisions, id), ComparisonCohortKey) == OpenCount(s, id)
    ensures Count(s, id, ProjectDecisions(s, id), ExperimentKeyOf) == OpenCount(s, id)
  {
    ReachableSatisfiesInv(s, integrity);
    var decisions := DecisionsNaming(s.decisions, id);
    DecisionsOf(s, id);
    FamiliesAreCounted(s, id, SelectedShas(decisions), RejectedShas(decisions));
    ExperimentsAreCounted(s, id, SelectedShas(decisions), RejectedShas(decisions));
    CountsAgree(s, integrity, id);
  }

  // -------------------------------------------------------- what a decision settles

  /** `t` is `s` with one more decision. */
  predicate Decides(s: ProjectState, d: AlternativeDecision, t: ProjectState) {
    t.decisions == s.decisions + [d] && t.nodes == s.nodes && t.comparisons == s.comparisons
  }

  lemma JudgedAfter(s: ProjectState, d: AlternativeDecision, t: ProjectState, id: ProjectId, sha: Sha)
    requires Decides(s, d, t)
    ensures IsRejected(t, id, sha) <==> IsRejected(s, id, sha) || (d.Rejection? && d.projectId == id && sha in d.rejectedNodeShas)
    ensures IsSelected(t, id, sha) <==> IsSelected(s, id, sha) || (d.Selection? && d.projectId == id && d.selectedNodeSha == sha)
  {
    if e :| e in s.decisions && e.Rejection? && e.projectId == id && sha in e.rejectedNodeShas {
      assert e in t.decisions;
    }
    if e :| e in s.decisions && e.Selection? && e.projectId == id && e.selectedNodeSha == sha {
      assert e in t.decisions;
    }
    assert d in t.decisions;
  }

  lemma AllJudgedAfter(s: ProjectState, d: AlternativeDecision, t: ProjectState, id: ProjectId)
    requires Decides(s, d, t)
    ensures forall sha :: IsRejected(t, id, sha) <==> IsRejected(s, id, sha) || (d.Rejection? && d.projectId == id && sha in d.rejectedNodeShas)
    ensures forall sha :: IsSelected(t, id, sha) <==> IsSelected(s, id, sha) || (d.Selection? && d.projectId == id && d.selectedNodeSha == sha)
  {
    forall sha
      ensures IsRejected(t, id, sha) <==> IsRejected(s, id, sha) || (d.Rejection? && d.projectId == id && sha in d.rejectedNodeShas)
      ensures IsSelected(t, id, sha) <==> IsSelected(s, id, sha) || (d.Selection? && d.projectId == id && d.selectedNodeSha == sha)
    {
      JudgedAfter(s, d, t, id, sha);
    }
  }

  /** A selection settles an undecided cohort exactly when it selects one of it and all others are rejected already. */
  lemma SelectionSettles(s: ProjectState, d: AlternativeDecision, t: ProjectState, id: ProjectId, shas: set<Sha>)
    requires Decides(s, d, t) && d.Selection? && !IsSettled(s, id, shas)
    ensures IsSettled(t, id, shas) <==>
            && d.projectId == id && d.selectedNodeSha in shas
            && forall sha | sha in shas && sha != d.selectedNodeSha :: IsRejected(s, id, sha)
  {
    AllJudgedAfter(s, d, t, id);
    if d.projectId == id && d.selectedNodeSha in shas && forall sha | sha in shas && sha != d.selectedNodeSha :: IsRejected(s, id, sha) {
      assert IsSelected(t, id, d.selectedNodeSha);
    }
  }

  /**
   * A rejection settles an undecided cohort exactly when it names every candidate that was neither rejected before nor,
   * for one of them, selected.
   */
  lemma RejectionSettles(s: ProjectState, d: AlternativeDecision, t: ProjectState, id: ProjectId, shas: set<Sha>)
    requires Decides(s, d, t) && d.Rejection? && !IsSettled(s, id, shas)
    ensures IsSettled(t, id, shas) <==>
            && d.projectId == id
            && exists spared: Option<Sha> ::
                 && (spared.Some? ==> spared.value in shas && IsSelected(s, id, spared.value))
                 && forall sha | sha in shas && Some(sha) != spared :: IsRejected(s, id, sha) || sha in d.rejectedNodeShas
  {
    AllJudgedAfter(s, d, t, id);
    if IsSettled(t, id, shas) {
      var spared := RejectionSpares(s, d, t, id, shas);
    }
    if d.projectId == id {
      forall spared: Option<Sha> |
        && (spared.Some? ==> spared.value in shas && IsSelected(s, id, spared.value))
        && forall sha | sha in shas && Some(sha) != spared :: IsRejected(s, id, sha) || sha in d.rejectedNodeShas
        ensures IsSettled(t, id, shas)
      {
        if spared.Some? {
          assert IsSelected(t, id, spared.value);
        }
      }
    }
  }

  lemma RejectionSpares(s: ProjectState, d: AlternativeDecision, t: ProjectState, id: ProjectId, shas: set<Sha>) returns (spared: Option<Sha>)
    requires Decides(s, d, t) && d.Rejection? && !IsSettled(s, id, shas) && IsSettled(t, id, shas)
    ensures d.projectId == id && (spared.Some? ==> spared.value in shas && IsSelected(s, id, spared.value))
    ensures forall sha | sha in shas && Some(sha) != spared :: IsRejected(s, id, sha) || sha in d.rejectedNodeShas
  {
    AllJudgedAfter(s, d, t, id);
    if forall sha | sha in shas :: IsRejected(t, id, sha) {
      spared := None;
    } else {
      var winner :| winner in shas && IsSelected(t, id, winner) && forall sha | sha in shas && sha != winner :: IsRejected(t, id, sha);
      spared := Some(winner);
    }
  }

  lemma SettledStays(s: ProjectState, d: AlternativeDecision, t: ProjectState, id: ProjectId, shas: set<Sha>)
    requires Decides(s, d, t) && IsSettled(s, id, shas)
    ensures IsSettled(t, id, shas)
  {
    AllJudgedAfter(s, d, t, id);
    if winner :| winner in shas && IsSelected(s, id, winner) && forall sha | sha in shas && sha != winner :: IsRejected(s, id, sha) {
      assert IsSelected(t, id, winner);
    }
  }

  /** The families and experiments that a decision settles. */
  ghost function SettledFamilies(s: ProjectState, t: ProjectState, id: ProjectId): set<Sha> {
    set sha | sha in OpenFamilies(s, id) && IsSettled(t, id, Family(s, id, sha))
  }

  ghost function SettledExperiments(s: ProjectState, t: ProjectState, id: ProjectId): set<ComparisonKind> {
    set kind | kind in OpenExperiments(s, id) && IsSettled(t, id, Contestants(s, id, kind))
  }

  lemma FewerOpen(s: ProjectState, d: AlternativeDecision, t: ProjectState, id: ProjectId)
    requires Decides(s, d, t)
    ensures OpenFamilies(t, id) == OpenFamilies(s, id) - SettledFamilies(s, t, id)
    ensures OpenExperiments(t, id) == OpenExperiments(s, id) - SettledExperiments(s, t, id)
    ensures OpenCount(t, id) == OpenCount(s, id) - |SettledFamilies(s, t, id)| - |SettledExperiments(s, t, id)|
  {
    forall shas ensures IsUndecided(t, id, shas) <==> IsUndecided(s, id, shas) && !IsSettled(t, id, shas) {
      if IsSettled(s, id, shas) {
        SettledStays(s, d, t, id, shas);
      }
    }
    assert forall sha :: Family(t, id, sha) == Family(s, id, sha);
    assert forall kind :: Contestants(t, id, kind) == Contestants(s, id, kind);
    assert SettledFamilies(s, t, id) <= OpenFamilies(s, id) && SettledExperiments(s, t, id) <= OpenExperiments(s, id);
  }

  lemma StateAfterDecision(s: ProjectState, c: ProjectCommand, t: ProjectState) returns (d: AlternativeDecision)
    requires IsDoneAndRecorded(s, c, t) && (c.body.SelectAlternative? || c.body.RejectAlternatives?)
    ensures Decides(s, d, t) && d.projectId == c.body.projectId && (d.Selection? <==> c.body.SelectAlternative?)
  {
    d := t.decisions[|s.decisions|];
  }

  lemma CommandLeadsOn(s: ProjectState, c: ProjectCommand, integrity: IntegrityBoundary, app: CommandApplication)
    requires Reachable(s, integrity) && ApplyProjectCommand(s, c, integrity) == Ok(app)
    ensures Reachable(app.state, integrity)
  {
    var prior :| Replayed(prior, integrity) == Ok(s);
    CommandExtendsStream(prior, s, c, integrity, app);
  }

  /**
   * A selection or a rejection accepted in a replayed state lowers both counts by exactly the families and experiments it
   * settles: to nothing, when it settles the last ones.
   */
  lemma DecisionLowersCounts(s: ProjectState, c: ProjectCommand, integrity: IntegrityBoundary, app: CommandApplication, id: ProjectId)
    requires Reachable(s, integrity) && IsNewKey(s, c.meta.idempotencyKey)
    requires (c.body.SelectAlternative? || c.body.RejectAlternatives?) && ApplyProjectCommand(s, c, integrity) == Ok(app)
    ensures var before := Count(s, id, DecisionsNaming(s.decisions, id), ComparisonCohortKey);
            var settled := |SettledFamilies(s, app.state, id)| + |SettledExperiments(s, app.state, id)|;
            && Count(app.state, id, DecisionsNaming(app.state.decisions, id), ComparisonCohortKey) == before - settled
            && Count(app.state, id, ProjectDecisions(app.state, id), ExperimentKeyOf) == before - settled
            && (c.body.projectId != id ==> settled == 0)
  {
    CommandsFollowRules(s, c, integrity);
    CommandLeadsOn(s, c, integrity, app);
    CountsAreOpen(s, integrity, id);
    CountsAreOpen(app.state, integrity, id);
    var d := StateAfterDecision(s, c, app.state);
    FewerOpen(s, d, app.state, id);
    if c.body.projectId != id {
      NothingSettledElsewhere(s, d, app.state, id);
    }
  }

  lemma NothingSettledElsewhere(s: ProjectState, d: AlternativeDecision, t: ProjectState, id: ProjectId)
    requires Decides(s, d, t) && d.projectId != id
    ensures SettledFamilies(s, t, id) == {} && SettledExperiments(s, t, id) == {}
  {
    AllJudgedAfter(s, d, t, id);
  }
}

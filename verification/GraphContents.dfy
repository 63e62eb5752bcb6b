/** What the Graph files of a Project show, said of its state alone. */
module GraphContents {
  import opened Prelude
  import opened Protocol
  import opened Engine
  import opened Lists
  import opened NodeGraph
  import opened Invariant
  import opened Replay
  import opened GraphPages
  import opened Materialize
  import opened GraphMaterializer

  // -------------------------------------------------------------- what is shown

  /** The card is the Node registered at the ordinal: what it is, where it comes from, and at which ordinal its parent stands. */
  ghost predicate IsCardOf(state: ProjectState, o: nat, card: Card, display: Display)
    requires o < |state.nodes|
  {
    var node, identity := state.nodes[o], card.identity;
    && card.details == display.node(node) && identity.sha == node.commitSha && identity.managedRef == node.managedRef && identity.ordinal == o
    && match node.origin
       case Root => identity.kind == RootCard && identity.lineage == RootLineage && identity.parentOrdinal == None
       case RunChild(parentSha, runId, goalDigest) =>
         identity.kind == RunChildCard && identity.lineage == RunLineage(parentSha, runId, goalDigest) && IsParentAt(state, o, identity.parentOrdinal)
       case CoachingChild(parentSha, proposalId) =>
         identity.kind == CoachingChildCard && identity.lineage == CoachingLineage(parentSha, proposalId) && IsParentAt(state, o, identity.parentOrdinal)
  }

  predicate IsParentAt(state: ProjectState, o: nat, parent: Option<nat>)
    requires o < |state.nodes| && !state.nodes[o].origin.Root?
  {
    parent.Some? && parent.value < o && state.nodes[parent.value].commitSha == state.nodes[o].origin.parentSha
  }

  /** The edge leads from the Node's parent to it and tells of the completed Run or the confirmed proposal behind it. */
  ghost predicate IsEdgeInto(state: ProjectState, node: Node, edge: Edge, display: Display) {
    match node.origin
    case Root => false
    case RunChild(parentSha, runId, _) =>
      exists run ::
        && run in state.runs && run.id == runId && run.projectId == node.projectId && run.status.Completed?
        && edge == RunEdge(parentSha, node.commitSha, runId, display.run(run))
    case CoachingChild(parentSha, proposalId) =>
      exists p, d ::
        && p in state.coachingProposals && p.id == proposalId && p.projectId == node.projectId
        && d in state.coachingProposalDecisions && d.proposalId == proposalId && d.ConfirmedProposal?
        && edge == CoachingEdge(parentSha, node.commitSha, proposalId, display.proposal(p, d))
  }

  ghost function ShowsEdge(state: ProjectState, display: Display): (Node, Edge) -> bool {
    (node: Node, edge: Edge) => IsEdgeInto(state, node, edge, display)
  }

  ghost function ShowsRun(display: Display): (Run, ActiveRun) -> bool {
    (run: Run, active: ActiveRun) => active.id == run.id && active.sourceNodeSha == run.sourceNodeSha && active.details == display.active(run)
  }

  /** The edges into these Nodes, in the order of their registration. */
  ghost predicate AreEdgesInto(state: ProjectState, shas: seq<Sha>, edges: seq<Edge>, display: Display) {
    ListsExactly(state.nodes, (n: Node) => !n.origin.Root? && n.commitSha in shas, ShowsEdge(state, display), edges)
  }

  ghost predicate AreEdgesFrom(state: ProjectState, sha: Sha, edges: seq<Edge>, display: Display) {
    ListsExactly(state.nodes, (n: Node) => !n.origin.Root? && n.origin.parentSha == sha, ShowsEdge(state, display), edges)
  }

  /** The Runs that are running from these Nodes, in the order of their start. */
  ghost predicate AreRunningFrom(state: ProjectState, id: ProjectId, shas: seq<Sha>, runs: seq<ActiveRun>, display: Display) {
    ListsExactly(state.runs, (run: Run) => run.status.Running? && run.projectId == id && run.sourceNodeSha in shas, ShowsRun(display), runs)
  }

  ghost predicate PageShows(state: ProjectState, p: Project, page: Page, i: nat, display: Display) {
    && page.index == i && page.projectId == p.id && page.ordinalStart == 300 * i
    && 300 * i < |state.nodes| && |page.nodes| == (if |state.nodes| - 300 * i < 300 then |state.nodes| - 300 * i else 300)
    && (forall k | 0 <= k < |page.nodes| :: IsCardOf(state, 300 * i + k, page.nodes[k], display))
    && AreEdgesInto(state, CardShas(page.nodes), page.edges, display)
    && AreRunningFrom(state, p.id, CardShas(page.nodes), page.activeRuns, display)
  }

  ghost predicate ShardShows(state: ProjectState, p: Project, shard: NodeShard, o: nat, display: Display)
    requires o < |state.nodes|
  {
    && shard.projectId == p.id && IsCardOf(state, o, shard.node, display)
    && AreEdgesFrom(state, state.nodes[o].commitSha, shard.outgoingEdges, display)
    && AreRunningFrom(state, p.id, [state.nodes[o].commitSha], shard.activeRuns, display)
  }

  /** Pages of 300 Nodes and a shard for each Node show the whole Project. */
  ghost predicate FilesShow(state: ProjectState, p: Project, checkpoint: string, files: GraphFiles, display: Display) {
    && files.manifest.checkpoint == checkpoint && files.manifest.topology.projectId == p.id
    && files.manifest.topology.rootNodeSha == p.rootNodeSha && files.manifest.topology.nodeCount == |state.nodes|
    && 300 * (|files.pages| - 1) < |state.nodes| <= 300 * |files.pages|
    && (forall i | 0 <= i < |files.pages| :: files.pages[i].checkpoint == checkpoint && PageShows(state, p, files.pages[i], i, display))
    && (forall sha :: sha in files.shards <==> exists n :: n in state.nodes && n.commitSha == sha)
    && forall o | 0 <= o < |state.nodes| ::
         && state.nodes[o].commitSha in files.shards && files.shards[state.nodes[o].commitSha].checkpoint == checkpoint
         && ShardShows(state, p, files.shards[state.nodes[o].commitSha], o, display)
  }

  // ------------------------------------------------------------ and it is shown

  lemma CardShows(state: ProjectState, o: nat, display: Display)
    requires o < |state.nodes| && ParentIsEarlier(state.nodes, o)
    ensures IsCardOf(state, o, CardOf(state.nodes, o, display), display)
  {
  }

  lemma EdgeShows(state: ProjectState, node: Node, display: Display)
    requires EdgeInto(state, node, display).Some?
    ensures IsEdgeInto(state, node, EdgeInto(state, node, display).value, display)
  {
  }

  lemma {:induction false} RunningAreListed(runs: seq<Run>, id: ProjectId, display: Display)
    ensures ListsExactly(runs, (run: Run) => run.status.Running? && run.projectId == id, ShowsRun(display), ActiveRuns(runs, id, display))
  {
    var p := (run: Run) => run.status.Running? && run.projectId == id;
    if runs != [] {
      var front, run := runs[..|runs| - 1], runs[|runs| - 1];
      RunningAreListed(front, id, display);
      var last := if p(run) then [ActiveRun(run.id, run.sourceNodeSha, display.active(run))] else [];
      assert ListsExactly([], p, ShowsRun(display), []);
      assert [run][1..] == [] && (p(run) ==> last[1..] == []);
      assert ListsExactly([run], p, ShowsRun(display), last);
      ListsBoth(front, [run], p, ShowsRun(display), ActiveRuns(front, id, display), last);
      assert front + [run] == runs;
    }
  }

  lemma {:induction false} EdgesAreListed(state: ProjectState, nodes: seq<Node>, display: Display)
    requires forall n | n in nodes && !n.origin.Root? :: EdgeInto(state, n, display).Some?
    ensures ListsExactly(nodes, (n: Node) => !n.origin.Root?, ShowsEdge(state, display), GraphEdges(state, nodes, display))
  {
    var p := (n: Node) => !n.origin.Root?;
    if nodes != [] {
      var front, node := nodes[..|nodes| - 1], nodes[|nodes| - 1];
      EdgesAreListed(state, front, display);
      var edge := EdgeInto(state, node, display);
      var last := if edge.Some? then [edge.value] else [];
      if p(node) {
        EdgeShows(state, node, display);
      }
      assert ListsExactly([], p, ShowsEdge(state, display), []);
      assert [node][1..] == [] && (p(node) ==> last[1..] == []);
      assert ListsExactly([node], p, ShowsEdge(state, display), last);
      ListsBoth(front, [node], p, ShowsEdge(state, display), GraphEdges(state, front, display), last);
      assert front + [node] == nodes;
    }
  }

  lemma RunsFromAreListed(state: ProjectState, id: ProjectId, shas: seq<Sha>, q: ActiveRun -> bool, display: Display)
    requires forall a: ActiveRun :: q(a) <==> a.sourceNodeSha in shas
    ensures AreRunningFrom(state, id, shas, Filter(ActiveRuns(state.runs, id, display), q), display)
  {
    RunningAreListed(state.runs, id, display);
    FilterLists(state.runs, (run: Run) => run.status.Running? && run.projectId == id, ShowsRun(display), ActiveRuns(state.runs, id, display), q,
                (run: Run) => run.status.Running? && run.projectId == id && run.sourceNodeSha in shas);
  }

  lemma EdgesIntoAreListed(state: ProjectState, shas: seq<Sha>, q: Edge -> bool, display: Display)
    requires forall n | n in state.nodes && !n.origin.Root? :: EdgeInto(state, n, display).Some?
    requires forall e: Edge :: q(e) <==> e.targetSha in shas
    ensures AreEdgesInto(state, shas, Filter(GraphEdges(state, state.nodes, display), q), display)
  {
    EdgesAreListed(state, state.nodes, display);
    FilterLists(state.nodes, (n: Node) => !n.origin.Root?, ShowsEdge(state, display), GraphEdges(state, state.nodes, display), q,
                (n: Node) => !n.origin.Root? && n.commitSha in shas);
  }

  lemma EdgesFromAreListed(state: ProjectState, sha: Sha, q: Edge -> bool, display: Display)
    requires forall n | n in state.nodes && !n.origin.Root? :: EdgeInto(state, n, display).Some?
    requires forall e: Edge :: q(e) <==> e.sourceSha == sha
    ensures AreEdgesFrom(state, sha, Filter(GraphEdges(state, state.nodes, display), q), display)
  {
    EdgesAreListed(state, state.nodes, display);
    FilterLists(state.nodes, (n: Node) => !n.origin.Root?, ShowsEdge(state, display), GraphEdges(state, state.nodes, display), q,
                (n: Node) => !n.origin.Root? && n.origin.parentSha == sha);
  }

  /** A settled one-Project state, and what its Nodes and Runs allow. */
  ghost predicate IsShowable(state: ProjectState, p: Project, display: Display) {
    && NodesOf(state.nodes, p.id) == state.nodes
    && (forall o | 0 <= o < |state.nodes| :: ParentIsEarlier(state.nodes, o))
    && forall n | n in state.nodes && !n.origin.Root? :: EdgeInto(state, n, display).Some?
  }

  lemma ReachableIsShowable(state: ProjectState, integrity: IntegrityBoundary, p: Project, checkpoint: string, display: Display)
    requires Reachable(state, integrity) && state.projects == [p]
    ensures IsShowable(state, p, display)
  {
    ReachableGraphIsTree(state, integrity, p, checkpoint, display);
    ReachableSatisfiesInv(state, integrity);
    CardsAreValid(state.nodes, p, display);
    forall n | n in state.nodes && !n.origin.Root? ensures EdgeInto(state, n, display).Some? {
      EdgeOfNode(state, n, display);
    }
  }

  lemma WrittenPageShows(state: ProjectState, p: Project, checkpoint: string, display: Display, i: nat)
    requires IsShowable(state, p, display) && i < PageCount(|state.nodes|)
    ensures PageShows(state, p, PageOf(DataOf(state, p, checkpoint, display), i), i, display)
  {
    var g := DataOf(state, p, checkpoint, display);
    var nodes := PageCards(g.cards, i);
    var shas := CardShas(nodes);
    EdgesIntoAreListed(state, shas, (edge: Edge) => edge.targetSha in CardShas(nodes), display);
    RunsFromAreListed(state, p.id, shas, (run: ActiveRun) => run.sourceNodeSha in CardShas(nodes), display);
    forall k | 0 <= k < |nodes| ensures IsCardOf(state, 300 * i + k, nodes[k], display) {
      CardShows(state, 300 * i + k, display);
    }
  }

  lemma WrittenShardShows(state: ProjectState, p: Project, checkpoint: string, display: Display, o: nat)
    requires IsShowable(state, p, display) && o < |state.nodes| && ShardOf(DataOf(state, p, checkpoint, display), o).Some?
    ensures ShardShows(state, p, ShardOf(DataOf(state, p, checkpoint, display), o).value, o, display)
  {
    var g := DataOf(state, p, checkpoint, display);
    var card := g.cards[o];
    CardShows(state, o, display);
    EdgesFromAreListed(state, card.identity.sha, (edge: Edge) => edge.sourceSha == card.identity.sha, display);
    RunsFromAreListed(state, p.id, [card.identity.sha], (run: ActiveRun) => run.sourceNodeSha == card.identity.sha, display);
  }

  /**
   * For every replayed one-Project state the files its Graph is written to show the Project: every Node with its origin and
   * its parent's ordinal, an edge for every child, and exactly the Runs that are running, on the page and in the shard of
   * their source.
   */
  lemma WrittenFilesShow(state: ProjectState, integrity: IntegrityBoundary, p: Project, checkpoint: string, display: Display, files: GraphFiles)
    requires Reachable(state, integrity) && state.projects == [p] && AreFilesOf(DataOf(state, p, checkpoint, display), files)
    ensures FilesShow(state, p, checkpoint, files, display)
  {
    var g := DataOf(state, p, checkpoint, display);
    ReachableIsShowable(state, integrity, p, checkpoint, display);
    forall i | 0 <= i < |files.pages| ensures files.pages[i].checkpoint == checkpoint && PageShows(state, p, files.pages[i], i, display) {
      WrittenPageShows(state, p, checkpoint, display, i);
    }
    forall o | 0 <= o < |state.nodes|
      ensures state.nodes[o].commitSha in files.shards && files.shards[state.nodes[o].commitSha].checkpoint == checkpoint
      ensures ShardShows(state, p, files.shards[state.nodes[o].commitSha], o, display)
    {
      FileOfOrdinal(g, files, o);
      WrittenShardShows(state, p, checkpoint, display, o);
    }
    ShardsOfNodes(state, p, checkpoint, display, files);
  }

  lemma ShardsOfNodes(state: ProjectState, p: Project, checkpoint: string, display: Display, files: GraphFiles)
    requires IsShowable(state, p, display) && AreFilesOf(DataOf(state, p, checkpoint, display), files)
    ensures forall sha :: sha in files.shards <==> exists n :: n in state.nodes && n.commitSha == sha
  {
    var g := DataOf(state, p, checkpoint, display);
    assert forall o | 0 <= o < |g.cards| :: CardShas(g.cards)[o] == state.nodes[o].commitSha;
    forall sha | exists n :: n in state.nodes && n.commitSha == sha ensures sha in files.shards {
      var o :| 0 <= o < |state.nodes| && state.nodes[o].commitSha == sha;
      assert CardShas(g.cards)[o] == sha;
    }
  }

  // ------------------------------------------------------------ which states are written

  /** The Node has its canonical ref, and is the root if it comes first and else a child of an earlier one. */
  ghost predicate StandsRight(nodes: seq<Node>, id: ProjectId, i: nat)
    requires i < |nodes|
  {
    && nodes[i].managedRef == ManagedNodeRef(id, nodes[i].commitSha)
    && if nodes[i].origin.Root? then i == 0 else exists j :: 0 <= j < i && nodes[j].commitSha == nodes[i].origin.parentSha
  }

  lemma EarlierParentMeaning(nodes: seq<Node>, i: nat)
    requires DistinctShas(nodes) && i < |nodes|
    ensures ParentIsEarlier(nodes, i)
            <==> nodes[i].origin.Root? || exists j :: 0 <= j < i && nodes[j].commitSha == nodes[i].origin.parentSha
  {
    if !nodes[i].origin.Root? {
      if j :| 0 <= j < i && nodes[j].commitSha == nodes[i].origin.parentSha {
        IndexIsUnique(nodes, j);
      }
    }
  }

  lemma ValidIdentityMeaning(nodes: seq<Node>, i: nat, id: ProjectId, display: Display)
    requires DistinctShas(nodes) && i < |nodes| && ParentIsEarlier(nodes, i)
    ensures IdentityIsValid(CardOf(nodes, i, display).identity, id)
            <==> nodes[i].managedRef == ManagedNodeRef(id, nodes[i].commitSha) && (nodes[i].origin.Root? ==> i == 0)
  {
  }

  /** Every edge leads to its Node, so that no two lead to one. */
  lemma {:induction false} EdgesLeadToNodes(state: ProjectState, nodes: seq<Node>, display: Display)
    requires DistinctShas(nodes)
    ensures forall edge | edge in GraphEdges(state, nodes, display) :: edge.targetSha in Shas(nodes)
    ensures Distinct(EdgeTargets(GraphEdges(state, nodes, display)))
    decreases |nodes|
  {
    if nodes != [] {
      var n := |nodes| - 1;
      EdgesLeadToNodes(state, nodes[..n], display);
      assert Shas(nodes) == Shas(nodes[..n]) + [nodes[n].commitSha];
      EdgeLeadsToNode(state, nodes[n], display);
      if EdgeInto(state, nodes[n], display).Some? {
        OneMoreTarget(GraphEdges(state, nodes[..n], display), Shas(nodes[..n]), EdgeInto(state, nodes[n], display).value);
      }
    }
  }

  lemma EdgeLeadsToNode(state: ProjectState, node: Node, display: Display)
    ensures EdgeInto(state, node, display).Some? ==> EdgeInto(state, node, display).value.targetSha == node.commitSha
  {
  }

  lemma OneMoreTarget(edges: seq<Edge>, shas: seq<Sha>, edge: Edge)
    requires Distinct(EdgeTargets(edges)) && (forall e | e in edges :: e.targetSha in shas) && edge.targetSha !in shas
    ensures Distinct(EdgeTargets(edges + [edge]))
  {
    assert EdgeTargets(edges + [edge]) == EdgeTargets(edges) + [edge.targetSha];
    assert forall i | 0 <= i < |edges| :: edges[i] in edges && EdgeTargets(edges)[i] == edges[i].targetSha;
  }

  lemma ShardsCanBeWritten(state: ProjectState, p: Project, checkpoint: string, display: Display, o: nat)
    requires var nodes := NodesOf(state.nodes, p.id); DistinctShas(nodes) && o < |nodes| && ParentIsEarlier(nodes, o)
    ensures ShardOf(DataOf(state, p, checkpoint, display), o).Some?
  {
    var nodes, g := NodesOf(state.nodes, p.id), DataOf(state, p, checkpoint, display);
    EdgesLeadToNodes(state, nodes, display);
    var edges := OutgoingEdges(g, g.cards[o].identity.sha);
    forall edge | edge in edges ensures OrdinalOf(g.cards, edge.targetSha).Some? {
      var k :| 0 <= k < |nodes| && Shas(nodes)[k] == edge.targetSha;
      assert g.cards[k].identity.sha == edge.targetSha;
    }
  }

  lemma RightMeaning(nodes: seq<Node>, id: ProjectId, i: nat, display: Display)
    requires DistinctShas(nodes) && i < |nodes|
    ensures ParentIsEarlier(nodes, i) && IdentityIsValid(CardOf(nodes, i, display).identity, id) <==> StandsRight(nodes, id, i)
  {
    EarlierParentMeaning(nodes, i);
    if ParentIsEarlier(nodes, i) {
      ValidIdentityMeaning(nodes, i, id, display);
    }
  }

  lemma AllRightMeaning(nodes: seq<Node>, id: ProjectId, display: Display)
    requires DistinctShas(nodes)
    ensures (forall i | 0 <= i < |nodes| :: ParentIsEarlier(nodes, i))
            && (forall i | 0 <= i < |nodes| :: IdentityIsValid(Cards(nodes, display)[i].identity, id))
            <==> forall i | 0 <= i < |nodes| :: StandsRight(nodes, id, i)
  {
    forall i | 0 <= i < |nodes|
      ensures ParentIsEarlier(nodes, i) && IdentityIsValid(Cards(nodes, display)[i].identity, id) <==> StandsRight(nodes, id, i)
    {
      RightMeaning(nodes, id, i, display);
    }
    assert forall i {:trigger StandsRight(nodes, id, i)} | 0 <= i < |nodes| && StandsRight(nodes, id, i) :: ParentIsEarlier(nodes, i);
  }

  /** The states a Graph can be written for: SHAs differ, and every Node stands where it should. */
  lemma WritableMeaning(state: ProjectState, p: Project, checkpoint: string, display: Display)
    ensures var nodes := NodesOf(state.nodes, p.id);
            Writable(state, p, checkpoint, display) <==>
            && (forall i, j | 0 <= i < j < |nodes| :: nodes[i].commitSha != nodes[j].commitSha)
            && forall i | 0 <= i < |nodes| :: StandsRight(nodes, p.id, i)
  {
    var nodes, g := NodesOf(state.nodes, p.id), DataOf(state, p, checkpoint, display);
    if DistinctShas(nodes) {
      EdgesLeadToNodes(state, nodes, display);
      AllRightMeaning(nodes, p.id, display);
      if forall i | 0 <= i < |nodes| :: ParentIsEarlier(nodes, i) {
        forall o | 0 <= o < |g.cards| ensures ShardOf(g, o).Some? {
          ShardsCanBeWritten(state, p, checkpoint, display, o);
        }
      }
    }
  }
}

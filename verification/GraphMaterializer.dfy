/** `materializeGraph`: from a Project state to its Graph files, and why no reader ever refuses them. */
module GraphMaterializer {
  import opened Prelude
  import opened Protocol
  import opened Engine
  import opened Invariant
  import opened Replay
  import opened NodeGraph
  import opened Lists
  import opened Merkle
  import opened GraphPages
  import opened Materialize

  /** The texts a reader is shown, which no check looks at. */
  datatype Display = Display(
    node: Node -> string, run: Run -> string, proposal: (CoachingProposal, ProposalDecision) -> string, active: Run -> string)

  function IndexOfSha(nodes: seq<Node>, sha: Sha): (r: Option<nat>)
    ensures r.Some? ==> r.value < |nodes| && nodes[r.value].commitSha == sha
    ensures r.None? ==> forall n | n in nodes :: n.commitSha != sha
  {
    if nodes == [] then None
    else
      assert nodes == nodes[..|nodes| - 1] + [nodes[|nodes| - 1]];
      if nodes[|nodes| - 1].commitSha == sha then Some(|nodes| - 1) else IndexOfSha(nodes[..|nodes| - 1], sha)
  }

  function KindOf(node: Node): CardType {
    match node.origin
    case Root => RootCard
    case RunChild(_, _, _) => RunChildCard
    case CoachingChild(_, _) => CoachingChildCard
  }

  function LineageOf(node: Node): Lineage {
    match node.origin
    case Root => RootLineage
    case RunChild(parentSha, runId, consumedGoalDigest) => RunLineage(parentSha, runId, consumedGoalDigest)
    case CoachingChild(parentSha, proposalId) => CoachingLineage(parentSha, proposalId)
  }

  function CardOf(nodes: seq<Node>, i: nat, display: Display): Card
    requires i < |nodes|
  {
    var node := nodes[i];
    Card(Identity(KindOf(node), node.commitSha, node.managedRef, i,
                  if node.origin.Root? then None else IndexOfSha(nodes, node.origin.parentSha), LineageOf(node)),
         display.node(node))
  }

  /** Every Node but a root has its parent at a smaller ordinal. */
  predicate ParentIsEarlier(nodes: seq<Node>, i: nat)
    requires i < |nodes|
  {
    nodes[i].origin.Root?
    || (IndexOfSha(nodes, nodes[i].origin.parentSha).Some? && IndexOfSha(nodes, nodes[i].origin.parentSha).value < i)
  }

  function EdgeInto(state: ProjectState, node: Node, display: Display): Option<Edge> {
    match node.origin
    case Root => None
    case RunChild(parentSha, runId, _) =>
      var run := First(state.runs, (r: Run) => r.projectId == node.projectId && r.id == runId && r.status.Completed?);
      if run.None? then None else Some(RunEdge(parentSha, node.commitSha, run.value.id, display.run(run.value)))
    case CoachingChild(parentSha, proposalId) =>
      var proposal := First(state.coachingProposals, (p: CoachingProposal) => p.projectId == node.projectId && p.id == proposalId);
      var decision := First(state.coachingProposalDecisions, (d: ProposalDecision) => d.proposalId == proposalId && d.ConfirmedProposal?);
      if proposal.None? || decision.None? then None
      else Some(CoachingEdge(parentSha, node.commitSha, proposalId, display.proposal(proposal.value, decision.value)))
  }

  /** `graphEdges`: the incoming edges of the Nodes that have one, in registration order. */
  function GraphEdges(state: ProjectState, nodes: seq<Node>, display: Display): seq<Edge> {
    if nodes == [] then []
    else
      var edge := EdgeInto(state, nodes[|nodes| - 1], display);
      GraphEdges(state, nodes[..|nodes| - 1], display) + if edge.Some? then [edge.value] else []
  }

  function ActiveRuns(runs: seq<Run>, id: ProjectId, display: Display): seq<ActiveRun> {
    if runs == [] then []
    else
      var run := runs[|runs| - 1];
      ActiveRuns(runs[..|runs| - 1], id, display)
      + if run.projectId == id && run.status.Running? then [ActiveRun(run.id, run.sourceNodeSha, display.active(run))] else []
  }

  function Cards(nodes: seq<Node>, display: Display): (r: seq<Card>)
    ensures |r| == |nodes| && forall i | 0 <= i < |r| :: r[i] == CardOf(nodes, i, display)
  {
    seq(|nodes|, i requires 0 <= i < |nodes| => CardOf(nodes, i, display))
  }

  function DataOf(state: ProjectState, project: Project, checkpoint: string, display: Display): GraphData {
    var nodes := NodesOf(state.nodes, project.id);
    GraphData(checkpoint, project.id, project.rootNodeSha, Cards(nodes, display), GraphEdges(state, nodes, display),
              ActiveRuns(state.runs, project.id, display))
  }

  // ------------------------------------------------------------------ the writer

  datatype GraphFiles = GraphFiles(manifest: Manifest, pages: seq<Page>, shards: map<Sha, NodeShard>)

  /** What committing to the identities checks of each: the canonical ref of its Node, and a lineage that fits its kind. */
  predicate IdentitiesAreValid(g: GraphData) {
    forall i | 0 <= i < |g.cards| :: IdentityIsValid(g.cards[i].identity, g.projectId)
  }

  ghost predicate Writable(state: ProjectState, project: Project, checkpoint: string, display: Display) {
    var nodes, g := NodesOf(state.nodes, project.id), DataOf(state, project, checkpoint, display);
    && DistinctShas(nodes) && (forall i | 0 <= i < |nodes| :: ParentIsEarlier(nodes, i))
    && IdentitiesAreValid(g) && Distinct(EdgeTargets(g.edges))
    && forall o | 0 <= o < |g.cards| :: ShardOf(g, o).Some?
  }

  ghost predicate AreFilesOf(g: GraphData, files: GraphFiles) {
    && files.manifest == ManifestOf(g)
    && |files.pages| == PageCount(|g.cards|) && (forall i | 0 <= i < |files.pages| :: files.pages[i] == PageOf(g, i))
    && files.shards.Keys == (set o | 0 <= o < |g.cards| :: CardShas(g.cards)[o])
    && forall o | 0 <= o < |g.cards| :: Some(files.shards[CardShas(g.cards)[o]]) == ShardOf(g, o)
  }

  method BuildCards(nodes: seq<Node>, display: Display) returns (r: Option<seq<Card>>)
    ensures r.Some? <==> forall i | 0 <= i < |nodes| :: ParentIsEarlier(nodes, i)
    ensures r.Some? ==> r.value == Cards(nodes, display)
  {
    var cards: seq<Card> := [];
    for i := 0 to |nodes|
      invariant cards == Cards(nodes, display)[..i]
      invariant forall j | 0 <= j < i :: ParentIsEarlier(nodes, j)
    {
      if !ParentIsEarlier(nodes, i) {
        return None;
      }
      cards := cards + [CardOf(nodes, i, display)];
    }
    return Some(cards);
  }

  method CheckIdentities(g: GraphData) returns (ok: bool)
    ensures ok <==> IdentitiesAreValid(g)
  {
    for i := 0 to |g.cards|
      invariant forall j | 0 <= j < i :: IdentityIsValid(g.cards[j].identity, g.projectId)
    {
      if !IdentityIsValid(g.cards[i].identity, g.projectId) {
        return false;
      }
    }
    return true;
  }

  /** The proofs of all cards, in ordinal order. */
  ghost predicate AreProofs(g: GraphData, proofs: seq<IdentityProof>) {
    |proofs| == |g.cards| && forall o {:trigger ProofOf(g, o)} | 0 <= o < |g.cards| :: proofs[o] == ProofOf(g, o)
  }

  lemma ProofOnPage(g: GraphData, i: nat, k: nat)
    requires i < PageCount(|g.cards|) && k < |PageCards(g.cards, i)|
    ensures i * GRAPH_PAGE_SIZE + k < |g.cards|
    ensures ProofOf(g, i * GRAPH_PAGE_SIZE + k) == IdentityProof(i, k, PageCards(g.cards, i)[k].identity, Siblings(PageLeaves(g, i), k))
  {
    assert (i * GRAPH_PAGE_SIZE + k) / GRAPH_PAGE_SIZE == i && (i * GRAPH_PAGE_SIZE + k) % GRAPH_PAGE_SIZE == k;
  }

  /** `buildGraphIdentityPageCommitment` for a page whose identities are valid: the bound on proofs is never reached. */
  method CommitPage(g: GraphData, i: nat, ghost all: seq<IdentityProof>) returns (root: Hash<IdentityLeaf>, proofs: seq<IdentityProof>)
    requires i < PageCount(|g.cards|) && AreProofs(g, all)
    ensures root == Merkle.Root(PageLeaves(g, i)) && |proofs| == PageEnd(|g.cards|, i) - i * GRAPH_PAGE_SIZE
    ensures forall k | 0 <= k < |proofs| :: proofs[k] == all[i * GRAPH_PAGE_SIZE + k]
  {
    var leaves := PageLeaves(g, i);
    GraphPageProofsFit(|leaves|);
    var commitment := BuildCommitment(leaves, MAX_GRAPH_IDENTITY_PROOF_STEPS);
    root := commitment.value.root;
    proofs := NumberProofs(i, PageCards(g.cards, i), commitment.value.proofs);
    forall k | 0 <= k < |proofs| ensures proofs[k] == all[i * GRAPH_PAGE_SIZE + k] {
      ProofOnPage(g, i, k);
    }
  }

  method NumberProofs(i: nat, nodes: seq<Card>, siblings: seq<seq<Merkle.Step<IdentityLeaf>>>) returns (proofs: seq<IdentityProof>)
    requires |siblings| == |nodes|
    ensures |proofs| == |nodes| && forall k | 0 <= k < |proofs| :: proofs[k] == IdentityProof(i, k, nodes[k].identity, siblings[k])
  {
    proofs := [];
    for k := 0 to |nodes|
      invariant |proofs| == k && forall j | 0 <= j < k :: proofs[j] == IdentityProof(i, j, nodes[j].identity, siblings[j])
    {
      proofs := proofs + [IdentityProof(i, k, nodes[k].identity, siblings[k])];
    }
  }

  lemma PagesFillUp(n: nat, i: nat)
    requires i * GRAPH_PAGE_SIZE < n
    ensures i < PageCount(n) && PageEnd(n, i) == if (i + 1) * GRAPH_PAGE_SIZE < n then (i + 1) * GRAPH_PAGE_SIZE else n
  {
  }

  /** The roots of all pages and the proofs of all cards. */
  method CommitPages(g: GraphData, ghost all: seq<IdentityProof>) returns (roots: seq<Hash<IdentityLeaf>>, proofs: seq<IdentityProof>)
    requires AreProofs(g, all)
    ensures |roots| == PageCount(|g.cards|) && forall i | 0 <= i < |roots| :: roots[i] == Merkle.Root(PageLeaves(g, i))
    ensures proofs == all
  {
    roots, proofs := [], [];
    var offset, index := 0, 0;
    while offset < |g.cards|
      invariant offset == index * GRAPH_PAGE_SIZE && index == |roots| <= PageCount(|g.cards|)
      invariant |proofs| == (if offset < |g.cards| then offset else |g.cards|) && proofs <= all
      invariant forall i | 0 <= i < |roots| :: roots[i] == Merkle.Root(PageLeaves(g, i))
    {
      PagesFillUp(|g.cards|, index);
      var root, pageProofs := CommitPage(g, index, all);
      roots, proofs := roots + [root], proofs + pageProofs;
      offset, index := offset + GRAPH_PAGE_SIZE, index + 1;
    }
  }

  /** The proofs of earlier cards that are parents of cards on the page. */
  method ExternalProofs(g: GraphData, i: nat, proofs: seq<IdentityProof>) returns (r: seq<IdentityProof>)
    requires i < PageCount(|g.cards|) && AreProofs(g, proofs)
    ensures r == PageOf(g, i).externalParents
  {
    EarlierOrdinals(g.cards, i);
    r := LookUp(ExternalParents(g.cards, i), proofs);
    ProofsAreLookedUp(g, ExternalParents(g.cards, i), proofs, r);
  }

  method LookUp<T>(ordinals: seq<nat>, all: seq<T>) returns (r: seq<T>)
    requires forall o | o in ordinals :: o < |all|
    ensures |r| == |ordinals| && forall k | 0 <= k < |r| :: ordinals[k] in ordinals && r[k] == all[ordinals[k]]
  {
    r := [];
    for k := 0 to |ordinals|
      invariant |r| == k && forall j | 0 <= j < k :: ordinals[j] in ordinals && r[j] == all[ordinals[j]]
    {
      assert ordinals[k] in ordinals;
      r := r + [all[ordinals[k]]];
    }
  }

  lemma ProofsAreLookedUp(g: GraphData, ordinals: seq<nat>, all: seq<IdentityProof>, r: seq<IdentityProof>)
    requires AreProofs(g, all) && forall o | o in ordinals :: o < |g.cards|
    requires |r| == |ordinals| && forall k | 0 <= k < |r| :: ordinals[k] in ordinals && r[k] == all[ordinals[k]]
    ensures r == ProofsOf(g, ordinals)
  {
    forall k | 0 <= k < |r| ensures r[k] == ProofsOf(g, ordinals)[k] {
      assert ordinals[k] in ordinals && ProofsOf(g, ordinals)[k] == ProofOf(g, ordinals[k]);
    }
  }

  method WritePage(g: GraphData, i: nat, proofs: seq<IdentityProof>) returns (page: Page)
    requires i < PageCount(|g.cards|) && AreProofs(g, proofs)
    ensures page == PageOf(g, i)
  {
    var nodes := PageCards(g.cards, i);
    var externalParents := ExternalProofs(g, i, proofs);
    return Page(g.checkpoint, g.projectId, i, i * GRAPH_PAGE_SIZE, nodes, externalParents, EdgesInto(g.edges, nodes),
                Filter(g.activeRuns, (run: ActiveRun) => run.sourceNodeSha in CardShas(nodes)));
  }

  method WritePages(g: GraphData, proofs: seq<IdentityProof>, ghost all: seq<Page>) returns (pages: seq<Page>)
    requires AreProofs(g, proofs) && |all| == PageCount(|g.cards|)
    requires forall i {:trigger PageOf(g, i)} | 0 <= i < |all| :: all[i] == PageOf(g, i)
    ensures pages == all
  {
    pages := [];
    var offset, index := 0, 0;
    while offset < |g.cards|
      invariant offset == index * GRAPH_PAGE_SIZE && index == |pages| <= PageCount(|g.cards|) && pages <= all
    {
      var page := WritePage(g, index, proofs);
      pages := pages + [page];
      offset, index := offset + GRAPH_PAGE_SIZE, index + 1;
    }
  }

  method WriteManifest(g: GraphData, pages: seq<Page>, roots: seq<Hash<IdentityLeaf>>) returns (manifest: Manifest)
    requires |pages| == PageCount(|g.cards|) && forall i | 0 <= i < |pages| :: pages[i] == PageOf(g, i)
    requires |roots| == |pages| && forall i | 0 <= i < |roots| :: roots[i] == Merkle.Root(PageLeaves(g, i))
    ensures manifest == ManifestOf(g)
  {
    var descriptors: seq<PageDescriptor> := [];
    for i := 0 to |pages|
      invariant |descriptors| == i && forall j | 0 <= j < i :: descriptors[j] == DescriptorOf(g, j)
    {
      var page := pages[i];
      descriptors := descriptors + [PageDescriptor(i, page.ordinalStart, page.ordinalStart + |page.nodes| - 1, |page.nodes|, |page.edges|,
                                                   Digest(page), roots[i])];
    }
    var topology := Topology(g.projectId, g.rootNodeSha, |g.cards|, |g.edges|, descriptors);
    assert descriptors == ManifestOf(g).topology.pages;
    return Manifest(g.checkpoint, topology, Digest(topology));
  }

  /** The proofs of the cards that edges lead to, unless one leads to no card. */
  method ProveTargets(g: GraphData, edges: seq<Edge>, proofs: seq<IdentityProof>) returns (r: Option<seq<IdentityProof>>)
    requires AreProofs(g, proofs)
    ensures r == TargetProofs(g, edges)
  {
    var targets: seq<IdentityProof> := [];
    for k := 0 to |edges|
      invariant |targets| == k
      invariant forall j | 0 <= j < k ::
                  OrdinalOf(g.cards, edges[j].targetSha).Some? && targets[j] == proofs[OrdinalOf(g.cards, edges[j].targetSha).value]
    {
      var ordinal := OrdinalOf(g.cards, edges[k].targetSha);
      if ordinal.None? {
        assert edges[k] in edges;
        return None;
      }
      targets := targets + [proofs[ordinal.value]];
    }
    assert TargetProofs(g, edges).Some? && targets == TargetProofs(g, edges).value;
    return Some(targets);
  }

  method WriteShard(g: GraphData, ordinal: nat, proofs: seq<IdentityProof>) returns (r: Option<NodeShard>)
    requires ordinal < |g.cards| && AreProofs(g, proofs)
    ensures r == ShardOf(g, ordinal)
  {
    var card := g.cards[ordinal];
    var parentOrdinal := card.identity.parentOrdinal;
    var outgoing := OutgoingEdges(g, card.identity.sha);
    var targets := ProveTargets(g, outgoing, proofs);
    if targets.None? || (parentOrdinal.Some? && parentOrdinal.value >= |g.cards|) {
      return None;
    }
    var parentProof: Option<IdentityProof> := None;
    if parentOrdinal.Some? {
      parentProof := Some(proofs[parentOrdinal.value]);
    }
    return Some(NodeShard(g.checkpoint, g.projectId, card, proofs[ordinal], parentProof, outgoing, targets.value,
                          Filter(g.activeRuns, (run: ActiveRun) => run.sourceNodeSha == card.identity.sha)));
  }

  method WriteShards(g: GraphData, proofs: seq<IdentityProof>, ghost all: seq<Option<NodeShard>>) returns (r: Option<seq<NodeShard>>)
    requires AreProofs(g, proofs) && |all| == |g.cards|
    requires forall o {:trigger ShardOf(g, o)} | 0 <= o < |g.cards| :: all[o] == ShardOf(g, o)
    ensures r.Some? <==> forall o | 0 <= o < |all| :: all[o].Some?
    ensures r.Some? ==> |r.value| == |all| && forall o | 0 <= o < |all| :: all[o] == Some(r.value[o])
  {
    var shards: seq<NodeShard> := [];
    for o := 0 to |g.cards|
      invariant |shards| == o && forall j | 0 <= j < o :: all[j] == Some(shards[j])
    {
      var shard := WriteShard(g, o, proofs);
      if shard.None? {
        return None;
      }
      shards := shards + [shard.value];
    }
    return Some(shards);
  }

  /** One file for each SHA. */
  method WriteFiles(shas: seq<Sha>, shards: seq<NodeShard>) returns (files: map<Sha, NodeShard>)
    requires |shas| == |shards| && Distinct(shas)
    ensures files.Keys == (set i | 0 <= i < |shas| :: shas[i]) && forall i | 0 <= i < |shas| :: files[shas[i]] == shards[i]
  {
    files := map[];
    for i := 0 to |shas|
      invariant files.Keys == (set j | 0 <= j < i :: shas[j]) && forall j | 0 <= j < i :: files[shas[j]] == shards[j]
    {
      files := files[shas[i] := shards[i]];
    }
  }

  /** `materializeGraph` without its size limits: it succeeds exactly for writable states, and writes the files of the graph. */
  method MaterializeGraph(state: ProjectState, project: Project, checkpoint: string, display: Display) returns (r: Option<GraphFiles>)
    ensures r.Some? <==> Writable(state, project, checkpoint, display)
    ensures r.Some? ==> AreFilesOf(DataOf(state, project, checkpoint, display), r.value)
  {
    var nodes := NodesOf(state.nodes, project.id);
    var distinct := HasDistinctShas(nodes);
    if !distinct {
      return None;
    }
    var cards := BuildCards(nodes, display);
    if cards.None? {
      return None;
    }
    var g := DataOf(state, project, checkpoint, display);
    if !Distinct(EdgeTargets(g.edges)) {
      return None;
    }
    forall i, j | 0 <= i < j < |g.cards| ensures CardShas(g.cards)[i] != CardShas(g.cards)[j] {
      assert nodes[i].commitSha != nodes[j].commitSha;
    }
    var valid := CheckIdentities(g);
    if !valid {
      return None;
    }
    ghost var allProofs := seq(|g.cards|, o requires 0 <= o < |g.cards| => ProofOf(g, o));
    ghost var allPages := seq(PageCount(|g.cards|), i requires 0 <= i < PageCount(|g.cards|) => PageOf(g, i));
    ghost var allShards := seq(|g.cards|, o requires 0 <= o < |g.cards| => ShardOf(g, o));
    var roots, proofs := CommitPages(g, allProofs);
    var pages := WritePages(g, proofs, allPages);
    var shards := WriteShards(g, proofs, allShards);
    if shards.None? {
      return None;
    }
    var files := WriteFiles(CardShas(g.cards), shards.value);
    var manifest := WriteManifest(g, pages, roots);
    return Some(GraphFiles(manifest, pages, files));
  }

  // ------------------------------------------------ reachable states give a tree

  lemma {:induction false} IndexIsUnique(nodes: seq<Node>, j: nat)
    requires DistinctShas(nodes) && j < |nodes|
    ensures IndexOfSha(nodes, nodes[j].commitSha) == Some(j)
  {
    var found := IndexOfSha(nodes, nodes[j].commitSha).value;
    assert found == j;
  }

  /** A one-Project state: every Node is the Project's, the first is its root and no other is. */
  ghost predicate RootedFirst(nodes: seq<Node>, p: Project) {
    && nodes != [] && DistinctShas(nodes)
    && (forall n | n in nodes :: n.projectId == p.id && n.managedRef == ManagedNodeRef(p.id, n.commitSha))
    && (forall i | 0 <= i < |nodes| :: nodes[i].origin.Root? <==> i == 0)
    && nodes[0].commitSha == p.rootNodeSha
    && forall i | 0 <= i < |nodes| :: ParentBefore(nodes, i)
  }

  lemma ReachableIsRootedFirst(nodes: seq<Node>, p: Project)
    requires TreeInv([p], nodes) && RootsInv([p], nodes, Settled)
    ensures RootedFirst(nodes, p)
  {
    assert p in [p] && Settled != AwaitingRoot(p.id) && HasRoot(nodes, p.id);
    forall n | n in nodes ensures n.projectId == p.id && n.managedRef == ManagedNodeRef(p.id, n.commitSha) {
      assert HasProject([p], n.projectId);
    }
    assert ParentBefore(nodes, 0);
    forall i | 0 <= i < |nodes| ensures nodes[i].origin.Root? <==> i == 0 {
      assert nodes[i] in nodes && nodes[0] in nodes;
      assert i > 0 ==> !SameNode(nodes[0], nodes[i]);
    }
    forall i, j | 0 <= i < j < |nodes| ensures nodes[i].commitSha != nodes[j].commitSha {
      assert nodes[i] in nodes && nodes[j] in nodes && !SameNode(nodes[i], nodes[j]);
    }
  }

  lemma CardIsValid(nodes: seq<Node>, p: Project, i: nat, display: Display)
    requires RootedFirst(nodes, p) && i < |nodes|
    ensures ParentIsEarlier(nodes, i) && IdentityIsValid(CardOf(nodes, i, display).identity, p.id)
    ensures i > 0 ==> HangsFromEarlier(Cards(nodes, display), i)
  {
    assert nodes[i] in nodes && ParentBefore(nodes, i);
    if i > 0 {
      var j :| 0 <= j < i && IsParent(nodes[j], nodes[i]);
      IndexIsUnique(nodes, j);
    }
  }

  lemma EdgeOfRunChild(state: ProjectState, node: Node, display: Display)
    requires node.origin.RunChild? && exists run :: run in state.runs && ChildOfRun(node, run)
    ensures EdgeInto(state, node, display).Some?
    ensures var edge := EdgeInto(state, node, display).value;
            edge.targetSha == node.commitSha && EdgeFits(edge, LineageOf(node))
  {
    var run :| run in state.runs && ChildOfRun(node, run);
  }

  lemma EdgeOfCoachingChild(state: ProjectState, node: Node, display: Display)
    requires node.origin.CoachingChild?
    requires exists p, d :: p in state.coachingProposals && d in state.coachingProposalDecisions && ChildOfProposal(node, p, d)
    ensures EdgeInto(state, node, display).Some?
    ensures var edge := EdgeInto(state, node, display).value;
            edge.targetSha == node.commitSha && EdgeFits(edge, LineageOf(node))
  {
    var p, d :| p in state.coachingProposals && d in state.coachingProposalDecisions && ChildOfProposal(node, p, d);
  }

  lemma EdgeOfNode(state: ProjectState, node: Node, display: Display)
    requires node in state.nodes && !node.origin.Root?
    requires forall n | n in state.nodes && n.origin.RunChild? :: exists run :: run in state.runs && ChildOfRun(n, run)
    requires forall n | n in state.nodes && n.origin.CoachingChild? ::
               exists p, d :: p in state.coachingProposals && d in state.coachingProposalDecisions && ChildOfProposal(n, p, d)
    ensures EdgeInto(state, node, display).Some?
    ensures var edge := EdgeInto(state, node, display).value;
            edge.targetSha == node.commitSha && EdgeFits(edge, LineageOf(node))
  {
    if node.origin.RunChild? {
      EdgeOfRunChild(state, node, display);
    } else {
      EdgeOfCoachingChild(state, node, display);
    }
  }

  lemma LastEdge(state: ProjectState, nodes: seq<Node>, display: Display, edges: seq<Edge>, edge: Edge)
    requires nodes != [] && GraphEdges(state, nodes[..|nodes| - 1], display) == edges
    requires EdgeInto(state, nodes[|nodes| - 1], display) == Some(edge)
    ensures GraphEdges(state, nodes, display) == edges + [edge]
  {
  }

  lemma CardsAreValid(nodes: seq<Node>, p: Project, display: Display)
    requires RootedFirst(nodes, p)
    ensures forall i | 0 <= i < |nodes| :: ParentIsEarlier(nodes, i)
    ensures forall i | 0 <= i < |nodes| :: IdentityIsValid(Cards(nodes, display)[i].identity, p.id)
    ensures forall i | 0 < i < |nodes| :: HangsFromEarlier(Cards(nodes, display), i)
    ensures Distinct(CardShas(Cards(nodes, display)))
  {
    forall i | 0 <= i < |nodes|
      ensures ParentIsEarlier(nodes, i) && IdentityIsValid(Cards(nodes, display)[i].identity, p.id)
      ensures i > 0 ==> HangsFromEarlier(Cards(nodes, display), i)
    {
      CardIsValid(nodes, p, i, display);
    }
    forall i, j | 0 <= i < j < |nodes| ensures CardShas(Cards(nodes, display))[i] != CardShas(Cards(nodes, display))[j] {
      assert nodes[i].commitSha != nodes[j].commitSha;
    }
  }

  predicate HasFittingEdge(state: ProjectState, node: Node, display: Display) {
    var edge := EdgeInto(state, node, display);
    edge.Some? && edge.value.targetSha == node.commitSha && EdgeFits(edge.value, LineageOf(node))
  }

  ghost predicate AreFittingEdges(nodes: seq<Node>, edges: seq<Edge>) {
    && |edges| + 1 == |nodes|
    && forall k | 0 <= k < |edges| :: edges[k].targetSha == nodes[k + 1].commitSha && EdgeFits(edges[k], LineageOf(nodes[k + 1]))
  }

  lemma OneMoreFits(nodes: seq<Node>, edges: seq<Edge>, edge: Edge)
    requires |nodes| > 1 && AreFittingEdges(nodes[..|nodes| - 1], edges)
    requires edge.targetSha == nodes[|nodes| - 1].commitSha && EdgeFits(edge, LineageOf(nodes[|nodes| - 1]))
    ensures AreFittingEdges(nodes, edges + [edge])
  {
  }

  lemma {:induction false} EdgesFitNodes(state: ProjectState, nodes: seq<Node>, display: Display)
    requires nodes != [] && nodes[0].origin.Root? && forall i | 0 < i < |nodes| :: HasFittingEdge(state, nodes[i], display)
    ensures AreFittingEdges(nodes, GraphEdges(state, nodes, display))
    decreases |nodes|
  {
    var n := |nodes| - 1;
    if n > 0 {
      EdgesFitNodes(state, nodes[..n], display);
      assert HasFittingEdge(state, nodes[n], display);
      var edge := EdgeInto(state, nodes[n], display).value;
      LastEdge(state, nodes, display, GraphEdges(state, nodes[..n], display), edge);
      OneMoreFits(nodes, GraphEdges(state, nodes[..n], display), edge);
    } else {
      assert GraphEdges(state, [], display) == [];
    }
  }

  lemma GraphIsTree(state: ProjectState, p: Project, checkpoint: string, display: Display)
    requires RootedFirst(state.nodes, p) && NodesOf(state.nodes, p.id) == state.nodes
    requires forall i | 0 < i < |state.nodes| :: HasFittingEdge(state, state.nodes[i], display)
    ensures IsTree(DataOf(state, p, checkpoint, display))
  {
    CardsAreValid(state.nodes, p, display);
    EdgesFitNodes(state, state.nodes, display);
  }

  lemma ReachableGraphIsTree(state: ProjectState, integrity: IntegrityBoundary, p: Project, checkpoint: string, display: Display)
    requires Reachable(state, integrity) && state.projects == [p]
    ensures IsTree(DataOf(state, p, checkpoint, display)) && NodesOf(state.nodes, p.id) == state.nodes
    ensures RootedFirst(state.nodes, p)
  {
    ReachableSatisfiesInv(state, integrity);
    ReachableIsRootedFirst(state.nodes, p);
    FilterAll(state.nodes, (n: Node) => n.projectId == p.id);
    forall i | 0 < i < |state.nodes| ensures HasFittingEdge(state, state.nodes[i], display) {
      EdgeOfNode(state, state.nodes[i], display);
    }
    GraphIsTree(state, p, checkpoint, display);
  }

  // ---------------------------------------------------------- and are accepted

  ghost predicate HasLocators(files: GraphFiles, page: Page) {
    forall sha | sha in CardShas(page.nodes) :: sha in files.shards
  }

  /** The files the page's cards name, in card order. */
  ghost function LocatorsOf(files: GraphFiles, page: Page): (r: seq<NodeShard>)
    requires HasLocators(files, page)
    ensures |r| == |page.nodes| && forall k | 0 <= k < |r| :: CardShas(page.nodes)[k] in files.shards && r[k] == files.shards[CardShas(page.nodes)[k]]
  {
    seq(|page.nodes|, k requires 0 <= k < |page.nodes| =>
      assert CardShas(page.nodes)[k] in CardShas(page.nodes); files.shards[CardShas(page.nodes)[k]])
  }

  /** Every reader's check passes on every file. */
  ghost predicate AllAccepted(files: GraphFiles) {
    && ManifestIsValid(files.manifest)
    && (forall page | page in files.pages :: PageTopologyHolds(files.manifest, page))
    && (forall sha | sha in files.shards :: NodeTopologyHolds(files.manifest, files.shards[sha]))
    && (forall page | page in files.pages ::
          HasLocators(files, page) && LocatorsHold(files.manifest, page, LocatorsOf(files, page)))
  }

  lemma FileOfOrdinal(g: GraphData, files: GraphFiles, o: nat)
    requires AreFilesOf(g, files) && o < |g.cards|
    ensures g.cards[o].identity.sha in files.shards && Some(files.shards[g.cards[o].identity.sha]) == ShardOf(g, o)
  {
    assert CardShas(g.cards)[o] in files.shards;
  }

  /** The shard of each card of the page is the file under the card's SHA. */
  ghost predicate PageIsFiled(g: GraphData, files: GraphFiles, i: nat)
    requires i < PageCount(|g.cards|)
  {
    forall k | 0 <= k < |PageCards(g.cards, i)| ::
      var sha := CardShas(PageCards(g.cards, i))[k];
      sha in files.shards && Some(files.shards[sha]) == ShardOf(g, i * GRAPH_PAGE_SIZE + k)
  }

  lemma PagesAreFiled(g: GraphData, files: GraphFiles, i: nat)
    requires AreFilesOf(g, files) && i < PageCount(|g.cards|)
    ensures PageIsFiled(g, files, i)
  {
    forall k | 0 <= k < |PageCards(g.cards, i)|
      ensures var sha := CardShas(PageCards(g.cards, i))[k];
              sha in files.shards && Some(files.shards[sha]) == ShardOf(g, i * GRAPH_PAGE_SIZE + k)
    {
      FileOfOrdinal(g, files, i * GRAPH_PAGE_SIZE + k);
    }
  }

  lemma PageHasLocators(g: GraphData, files: GraphFiles, i: nat)
    requires i < PageCount(|g.cards|) && PageIsFiled(g, files, i)
    ensures HasLocators(files, PageOf(g, i)) && AreShardsOf(g, i, LocatorsOf(files, PageOf(g, i)))
  {
    var nodes := PageCards(g.cards, i);
    forall sha | sha in CardShas(nodes) ensures sha in files.shards {
      var k :| 0 <= k < |nodes| && CardShas(nodes)[k] == sha;
    }
  }

  lemma WrittenPagesAccepted(g: GraphData, files: GraphFiles, page: Page)
    requires IsTree(g) && AreFilesOf(g, files) && page in files.pages
    ensures PageTopologyHolds(files.manifest, page)
    ensures HasLocators(files, page) && LocatorsHold(files.manifest, page, LocatorsOf(files, page))
  {
    var i: nat :| i < |files.pages| && files.pages[i] == page;
    WrittenPageHolds(g, i);
    PagesAreFiled(g, files, i);
    PageHasLocators(g, files, i);
    WrittenLocatorsHold(g, i, LocatorsOf(files, page));
  }

  lemma WrittenFilesAccepted(g: GraphData, files: GraphFiles)
    requires IsTree(g) && AreFilesOf(g, files)
    ensures AllAccepted(files)
  {
    WrittenManifestHolds(g);
    forall page | page in files.pages
      ensures PageTopologyHolds(files.manifest, page)
      ensures HasLocators(files, page) && LocatorsHold(files.manifest, page, LocatorsOf(files, page))
    {
      WrittenPagesAccepted(g, files, page);
    }
    forall sha | sha in files.shards ensures NodeTopologyHolds(files.manifest, files.shards[sha]) {
      var o: nat :| o < |g.cards| && CardShas(g.cards)[o] == sha;
      WrittenShardHolds(g, o);
    }
  }

  lemma TreeIsWritable(state: ProjectState, p: Project, checkpoint: string, display: Display)
    requires IsTree(DataOf(state, p, checkpoint, display)) && NodesOf(state.nodes, p.id) == state.nodes
    requires RootedFirst(state.nodes, p)
    ensures Writable(state, p, checkpoint, display)
  {
    var g := DataOf(state, p, checkpoint, display);
    CardsAreValid(state.nodes, p, display);
    TargetsDiffer(g);
    forall o | 0 <= o < |g.cards| ensures ShardOf(g, o).Some? {
      WrittenShardHolds(g, o);
    }
  }

  /**
   * For every reachable one-Project state the writer succeeds, and its manifest, every page, every Node shard
   * and every page's locators pass the readers' checks.
   */
  lemma MaterializedGraphIsAccepted(state: ProjectState, integrity: IntegrityBoundary, p: Project, checkpoint: string,
                                    display: Display, files: GraphFiles)
    requires Reachable(state, integrity) && state.projects == [p]
    ensures Writable(state, p, checkpoint, display)
    ensures AreFilesOf(DataOf(state, p, checkpoint, display), files) ==> AllAccepted(files)
  {
    ReachableGraphIsTree(state, integrity, p, checkpoint, display);
    TreeIsWritable(state, p, checkpoint, display);
    if AreFilesOf(DataOf(state, p, checkpoint, display), files) {
      WrittenFilesAccepted(DataOf(state, p, checkpoint, display), files);
    }
  }
}

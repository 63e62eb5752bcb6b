/**
 * The sharded Graph read model: a manifest, pages of at most 300 cards, one shard for each Node.
 * Every reader checks one file against the manifest; here is what all those local checks say together.
 */
module GraphPages {
  import opened Prelude
  import opened Protocol
  import opened Merkle

  const GRAPH_PAGE_SIZE: nat := 300
  const MAX_GRAPH_IDENTITY_PROOF_STEPS: nat := 9

  datatype CardType = RootCard | RunChildCard | CoachingChildCard

  datatype Lineage =
    | RootLineage
    | RunLineage(parentSha: Sha, runId: RunId, consumedGoalDigest: Digest<GoalValue>)
    | CoachingLineage(parentSha: Sha, proposalId: ProposalId)

  /** The part of a card that page roots commit to. */
  datatype Identity = Identity(
    kind: CardType, sha: Sha, managedRef: GitRef, ordinal: nat, parentOrdinal: Option<nat>, lineage: Lineage)

  /** A Node as a Graph page shows it; `details` stands for the remaining display fields. */
  datatype Card = Card(identity: Identity, details: string)

  datatype Edge =
    | RunEdge(sourceSha: Sha, targetSha: Sha, runId: RunId, details: string)
    | CoachingEdge(sourceSha: Sha, targetSha: Sha, proposalId: ProposalId, details: string)

  /** What an identity digest is taken of. */
  datatype IdentityLeaf = IdentityLeaf(projectId: ProjectId, identity: Identity)

  datatype IdentityProof = IdentityProof(pageIndex: nat, leafIndex: nat, identity: Identity, siblings: seq<Step<IdentityLeaf>>)

  datatype ActiveRun = ActiveRun(id: RunId, sourceNodeSha: Sha, details: string)

  datatype Page = Page(
    checkpoint: string, projectId: ProjectId, index: nat, ordinalStart: nat, nodes: seq<Card>,
    externalParents: seq<IdentityProof>, edges: seq<Edge>, activeRuns: seq<ActiveRun>)

  datatype PageDescriptor = PageDescriptor(
    index: nat, ordinalStart: nat, ordinalEnd: int, nodeCount: nat, edgeCount: nat,
    digest: Digest<Page>, nodeIdentityRoot: Hash<IdentityLeaf>)

  /** The part of a manifest its topology digest covers. */
  datatype Topology = Topology(
    projectId: ProjectId, rootNodeSha: Sha, nodeCount: nat, edgeCount: nat, pages: seq<PageDescriptor>)

  datatype Manifest = Manifest(checkpoint: string, topology: Topology, topologyDigest: Digest<Topology>)

  datatype NodeShard = NodeShard(
    checkpoint: string, projectId: ProjectId, node: Card, nodeProof: IdentityProof, parentProof: Option<IdentityProof>,
    outgoingEdges: seq<Edge>, outgoingTargetProofs: seq<IdentityProof>, activeRuns: seq<ActiveRun>)

  // ------------------------------------------------------------- the local checks

  predicate IdentityIsValid(identity: Identity, projectId: ProjectId) {
    && identity.managedRef == ManagedNodeRef(projectId, identity.sha)
    && (identity.kind.RootCard? <==> identity.parentOrdinal.None?)
    && (identity.kind.RootCard? ==> identity.ordinal == 0 && identity.lineage.RootLineage?)
    && (identity.kind.RunChildCard? ==> identity.lineage.RunLineage?)
    && (identity.kind.CoachingChildCard? ==> identity.lineage.CoachingLineage?)
    && (identity.parentOrdinal.Some? ==> identity.parentOrdinal.value < identity.ordinal)
  }

  /** The edge leads from the lineage's parent, for the same Run or proposal. */
  predicate EdgeFits(edge: Edge, lineage: Lineage) {
    match lineage
    case RootLineage => false
    case RunLineage(parentSha, runId, _) => edge.RunEdge? && edge.sourceSha == parentSha && edge.runId == runId
    case CoachingLineage(parentSha, proposalId) => edge.CoachingEdge? && edge.sourceSha == parentSha && edge.proposalId == proposalId
  }

  function CardShas(nodes: seq<Card>): (r: seq<Sha>)
    ensures |r| == |nodes| && forall i | 0 <= i < |r| :: r[i] == nodes[i].identity.sha
  {
    seq(|nodes|, i requires 0 <= i < |nodes| => nodes[i].identity.sha)
  }

  function EdgeTargets(edges: seq<Edge>): (r: seq<Sha>)
    ensures |r| == |edges| && forall i | 0 <= i < |r| :: r[i] == edges[i].targetSha
  {
    seq(|edges|, i requires 0 <= i < |edges| => edges[i].targetSha)
  }

  function ProofOrdinals(proofs: seq<IdentityProof>): (r: seq<nat>)
    ensures |r| == |proofs| && forall i | 0 <= i < |r| :: r[i] == proofs[i].identity.ordinal
  {
    seq(|proofs|, i requires 0 <= i < |proofs| => proofs[i].identity.ordinal)
  }

  predicate OrdinalsAre(nodes: seq<Card>, start: nat) {
    forall i | 0 <= i < |nodes| :: nodes[i].identity.ordinal == start + i
  }

  predicate OnPage(page: Page, ordinal: nat) {
    page.ordinalStart <= ordinal < page.ordinalStart + |page.nodes|
  }

  /** The parent a child card names by ordinal is, on this page or by a proof, the one its lineage names by SHA. */
  predicate ParentFits(page: Page, node: Card)
    requires node.identity.parentOrdinal.Some? && !node.identity.lineage.RootLineage?
  {
    var parentOrdinal, parentSha := node.identity.parentOrdinal.value, node.identity.lineage.parentSha;
    if OnPage(page, parentOrdinal) then page.nodes[parentOrdinal - page.ordinalStart].identity.sha == parentSha
    else exists proof :: proof in page.externalParents && proof.identity.ordinal == parentOrdinal && proof.identity.sha == parentSha
  }

  predicate NodeFits(page: Page, node: Card) {
    if node.identity.kind.RootCard? then
      node.identity.ordinal == 0 && forall edge | edge in page.edges :: edge.targetSha != node.identity.sha
    else
      && !node.identity.lineage.RootLineage? && node.identity.parentOrdinal.Some?
      && (exists edge :: edge in page.edges && edge.targetSha == node.identity.sha && EdgeFits(edge, node.identity.lineage))
      && ParentFits(page, node)
  }

  /** Some card of the page has this parent ordinal, and it lies on another page. */
  predicate NeedsExternal(page: Page, ordinal: nat) {
    && !OnPage(page, ordinal)
    && exists node :: node in page.nodes && node.identity.parentOrdinal == Some(ordinal)
  }

  predicate PageOrdinalsAreValid(page: Page) {
    && 0 < |page.nodes| <= GRAPH_PAGE_SIZE && page.ordinalStart == page.index * GRAPH_PAGE_SIZE
    && OrdinalsAre(page.nodes, page.ordinalStart) && Distinct(CardShas(page.nodes))
  }

  predicate PageEdgesAreValid(page: Page) {
    && Distinct(EdgeTargets(page.edges))
    && forall edge | edge in page.edges :: edge.targetSha in CardShas(page.nodes) && edge.sourceSha != edge.targetSha
  }

  /** What `validateGraphPage` accepts. */
  predicate PageIsValid(page: Page) {
    && PageOrdinalsAreValid(page)
    && (forall node | node in page.nodes :: IdentityIsValid(node.identity, page.projectId))
    && (forall proof | proof in page.externalParents :: IdentityIsValid(proof.identity, page.projectId))
    && PageEdgesAreValid(page)
    && Distinct(ProofOrdinals(page.externalParents))
    && (forall node | node in page.nodes :: NodeFits(page, node))
    && (forall proof | proof in page.externalParents :: NeedsExternal(page, proof.identity.ordinal))
    && (forall run | run in page.activeRuns :: run.sourceNodeSha in CardShas(page.nodes))
  }

  function IdentityLeaves(projectId: ProjectId, nodes: seq<Card>): (r: seq<Hash<IdentityLeaf>>)
    ensures |r| == |nodes| && forall i | 0 <= i < |r| :: r[i] == Leaf(IdentityLeaf(projectId, nodes[i].identity))
  {
    seq(|nodes|, i requires 0 <= i < |nodes| => Leaf(IdentityLeaf(projectId, nodes[i].identity)))
  }

  /** What `verifyGraphNodeIdentityProof` accepts. */
  predicate ProofHolds(topology: Topology, proof: IdentityProof) {
    && IdentityIsValid(proof.identity, topology.projectId)
    && proof.pageIndex < |topology.pages|
    && var descriptor := topology.pages[proof.pageIndex];
    && descriptor.index == proof.pageIndex
    && proof.identity.ordinal == descriptor.ordinalStart + proof.leafIndex
    && Accepts(Leaf(IdentityLeaf(topology.projectId, proof.identity)), proof.leafIndex, descriptor.nodeCount,
               proof.siblings, descriptor.nodeIdentityRoot, MAX_GRAPH_IDENTITY_PROOF_STEPS)
  }

  predicate MatchesManifest(manifest: Manifest, projectId: ProjectId, checkpoint: string) {
    && manifest.topologyDigest == Digest(manifest.topology)
    && projectId == manifest.topology.projectId && checkpoint == manifest.checkpoint
  }

  /** What `validateGraphPageTopology` accepts. */
  predicate PageTopologyHolds(manifest: Manifest, page: Page) {
    && MatchesManifest(manifest, page.projectId, page.checkpoint)
    && PageIsValid(page)
    && page.index < |manifest.topology.pages|
    && var descriptor := manifest.topology.pages[page.index];
    && descriptor.index == page.index && descriptor.ordinalStart == page.ordinalStart
    && descriptor.nodeCount == |page.nodes| && descriptor.edgeCount == |page.edges|
    && Merkle.Root(IdentityLeaves(page.projectId, page.nodes)) == descriptor.nodeIdentityRoot
    && (forall proof | proof in page.externalParents :: ProofHolds(manifest.topology, proof))
    && (page.index == 0 ==> page.nodes[0].identity.sha == manifest.topology.rootNodeSha)
  }

  /** The proof is of the parent the card names. */
  predicate IsParentProof(node: Card, proof: IdentityProof) {
    && node.identity.parentOrdinal == Some(proof.identity.ordinal)
    && !node.identity.lineage.RootLineage? && node.identity.lineage.parentSha == proof.identity.sha
  }

  /** The proven identity is the child this outgoing edge leads to. */
  predicate IsChildProof(node: Card, edge: Edge, proof: IdentityProof) {
    && proof.identity.sha == edge.targetSha
    && proof.identity.parentOrdinal == Some(node.identity.ordinal)
    && !proof.identity.lineage.RootLineage? && proof.identity.lineage.parentSha == node.identity.sha
    && !proof.identity.kind.RootCard? && EdgeFits(edge, proof.identity.lineage)
  }

  function ProofShas(proofs: seq<IdentityProof>): (r: seq<Sha>)
    ensures |r| == |proofs| && forall i | 0 <= i < |r| :: r[i] == proofs[i].identity.sha
  {
    seq(|proofs|, i requires 0 <= i < |proofs| => proofs[i].identity.sha)
  }

  /** What `validateGraphNodeShardShape` accepts. */
  predicate ShardShapeIsValid(shard: NodeShard) {
    && IdentityIsValid(shard.node.identity, shard.projectId) && shard.nodeProof.identity == shard.node.identity
    && (if shard.node.identity.kind.RootCard? then shard.parentProof.None?
        else shard.parentProof.Some? && IsParentProof(shard.node, shard.parentProof.value)
             && IdentityIsValid(shard.parentProof.value.identity, shard.projectId))
    && Distinct(EdgeTargets(shard.outgoingEdges)) && Distinct(ProofShas(shard.outgoingTargetProofs))
    && |shard.outgoingEdges| == |shard.outgoingTargetProofs|
    && (forall edge | edge in shard.outgoingEdges ::
          edge.sourceSha == shard.node.identity.sha && edge.targetSha != shard.node.identity.sha)
    && (forall run | run in shard.activeRuns :: run.sourceNodeSha == shard.node.identity.sha)
    && (forall edge | edge in shard.outgoingEdges ::
          exists proof :: proof in shard.outgoingTargetProofs && IsChildProof(shard.node, edge, proof)
                          && IdentityIsValid(proof.identity, shard.projectId))
  }

  /** What `validateGraphNodeTopology` accepts. */
  predicate NodeTopologyHolds(manifest: Manifest, shard: NodeShard) {
    && MatchesManifest(manifest, shard.projectId, shard.checkpoint)
    && ShardShapeIsValid(shard)
    && ProofHolds(manifest.topology, shard.nodeProof)
    && (shard.parentProof.Some? ==> ProofHolds(manifest.topology, shard.parentProof.value))
    && (forall proof | proof in shard.outgoingTargetProofs :: ProofHolds(manifest.topology, proof))
    && (shard.node.identity.ordinal == 0 ==> shard.node.identity.sha == manifest.topology.rootNodeSha)
  }

  function ShardShas(shards: seq<NodeShard>): (r: seq<Sha>)
    ensures |r| == |shards| && forall i | 0 <= i < |r| :: r[i] == shards[i].node.identity.sha
  {
    seq(|shards|, i requires 0 <= i < |shards| => shards[i].node.identity.sha)
  }

  /** What `validateGraphPageNodeLocators` accepts. */
  predicate LocatorsHold(manifest: Manifest, page: Page, locators: seq<NodeShard>) {
    && PageTopologyHolds(manifest, page)
    && |locators| == |page.nodes| && Distinct(ShardShas(locators))
    && forall node | node in page.nodes ::
         exists locator :: locator in locators && locator.node == node && NodeTopologyHolds(manifest, locator)
  }

  function NodeCountSum(pages: seq<PageDescriptor>): nat {
    if pages == [] then 0 else NodeCountSum(pages[..|pages| - 1]) + pages[|pages| - 1].nodeCount
  }

  function EdgeCountSum(pages: seq<PageDescriptor>): nat {
    if pages == [] then 0 else EdgeCountSum(pages[..|pages| - 1]) + pages[|pages| - 1].edgeCount
  }

  predicate DescriptorIsCanonical(topology: Topology, i: nat)
    requires i < |topology.pages|
  {
    var page := topology.pages[i];
    && page.index == i && 0 < page.nodeCount <= GRAPH_PAGE_SIZE
    && page.ordinalStart == i * GRAPH_PAGE_SIZE && page.ordinalEnd == page.ordinalStart + page.nodeCount - 1
  }

  /** What `decodeGraphManifest` demands of the counts. */
  predicate ManifestIsValid(manifest: Manifest) {
    var topology := manifest.topology;
    && topology.nodeCount > 0
    && (forall i | 0 <= i < |topology.pages| :: DescriptorIsCanonical(topology, i))
    && |topology.pages| == (topology.nodeCount + GRAPH_PAGE_SIZE - 1) / GRAPH_PAGE_SIZE
    && (forall i | 0 <= i < |topology.pages| ::
          if i < |topology.pages| - 1 then topology.pages[i].nodeCount == GRAPH_PAGE_SIZE
          else topology.pages[i].nodeCount == topology.nodeCount - topology.pages[i].ordinalStart
               && topology.pages[i].ordinalEnd == topology.nodeCount - 1)
    && NodeCountSum(topology.pages) == topology.nodeCount
    && EdgeCountSum(topology.pages) == topology.edgeCount
    && topology.edgeCount == topology.nodeCount - 1
    && manifest.topologyDigest == Digest(topology)
  }
}

/** What the readers' checks of single pages and shards let through, under the manifest written for a tree: exactly what shows it. */
module GraphExactness {
  import opened Prelude
  import opened Protocol
  import opened Merkle
  import opened GraphPages
  import opened Materialize

  /** The edge is the one into a card of this lineage. */
  ghost predicate Links(edge: Edge, lineage: Lineage) {
    match lineage
    case RootLineage => false
    case RunLineage(parentSha, runId, _) => edge.RunEdge? && edge.sourceSha == parentSha && edge.runId == runId
    case CoachingLineage(parentSha, proposalId) => edge.CoachingEdge? && edge.sourceSha == parentSha && edge.proposalId == proposalId
  }

  /** The proof is the written one of the card at its ordinal. */
  ghost predicate IsWrittenProof(g: GraphData, proof: IdentityProof) {
    proof.identity.ordinal < |g.cards| && proof == ProofOf(g, proof.identity.ordinal)
  }

  lemma AcceptedAtLeaf(g: GraphData, proof: IdentityProof)
    requires proof.pageIndex < PageCount(|g.cards|)
    requires forall o | 0 <= o < |g.cards| :: g.cards[o].identity.ordinal == o
    requires var leaves := PageLeaves(g, proof.pageIndex);
             Accepts(Leaf(IdentityLeaf(g.projectId, proof.identity)), proof.leafIndex, |leaves|, proof.siblings, Merkle.Root(leaves), 9)
    ensures IsWrittenProof(g, proof)
  {
    var i, k := proof.pageIndex, proof.leafIndex;
    var leaves := PageLeaves(g, i);
    GraphPageProofsFit(|leaves|);
    MembershipIsExact(leaves, Leaf(IdentityLeaf(g.projectId, proof.identity)), k, proof.siblings, 9);
    assert PageCards(g.cards, i)[k] == g.cards[i * GRAPH_PAGE_SIZE + k];
    assert (i * GRAPH_PAGE_SIZE + k) / GRAPH_PAGE_SIZE == i && (i * GRAPH_PAGE_SIZE + k) % GRAPH_PAGE_SIZE == k;
  }

  /** Under the written manifest an identity proof is accepted if and only if it is the written one. */
  lemma ProofIsWritten(g: GraphData, proof: IdentityProof)
    requires IsTree(g)
    ensures ProofHolds(ManifestOf(g).topology, proof) <==> IsWrittenProof(g, proof)
  {
    if ProofHolds(ManifestOf(g).topology, proof) {
      assert ManifestOf(g).topology.pages[proof.pageIndex] == DescriptorOf(g, proof.pageIndex);
      AcceptedAtLeaf(g, proof);
    }
    if IsWrittenProof(g, proof) {
      WrittenProofHolds(g, proof.identity.ordinal);
    }
  }

  // ------------------------------------------------------------------------- pages

  /** The page carries the identities of the up to 300 cards from `start` on. */
  ghost predicate ShowsCards(g: GraphData, start: nat, nodes: seq<Card>) {
    && start < |g.cards| && (|nodes| == 300 <= |g.cards| - start || |nodes| == |g.cards| - start < 300)
    && forall k | 0 <= k < |nodes| :: nodes[k].identity == g.cards[start + k].identity
  }

  /** The edge leads into a card on the page, and is the one its lineage names. */
  ghost predicate LeadsOntoPage(g: GraphData, start: nat, nodes: seq<Card>, edge: Edge)
    requires ShowsCards(g, start, nodes)
  {
    exists k :: 0 <= k < |nodes| && edge.targetSha == nodes[k].identity.sha && Links(edge, nodes[k].identity.lineage)
  }

  /** One edge into every card on the page but the root. */
  ghost predicate ShowsEdges(g: GraphData, start: nat, nodes: seq<Card>, edges: seq<Edge>)
    requires ShowsCards(g, start, nodes)
  {
    && |edges| == (if start == 0 then |nodes| - 1 else |nodes|)
    && (forall i, j | 0 <= i < j < |edges| :: edges[i].targetSha != edges[j].targetSha)
    && (forall edge | edge in edges :: LeadsOntoPage(g, start, nodes, edge))
    && forall k | 0 <= k < |nodes| && start + k > 0 :: exists edge :: edge in edges && edge.targetSha == nodes[k].identity.sha
  }

  /** The written proof of every parent before the page, once each, and of no other card. */
  ghost predicate ShowsParents(g: GraphData, start: nat, nodes: seq<Card>, proofs: seq<IdentityProof>)
    requires ShowsCards(g, start, nodes)
  {
    && (forall i, j | 0 <= i < j < |proofs| :: proofs[i].identity.ordinal != proofs[j].identity.ordinal)
    && (forall proof | proof in proofs :: IsWrittenProof(g, proof) && proof.identity.ordinal < start
                                          && exists node :: node in nodes && node.identity.parentOrdinal == Some(proof.identity.ordinal))
    && forall node | node in nodes && node.identity.parentOrdinal.Some? && node.identity.parentOrdinal.value < start ::
         exists proof :: proof in proofs && proof.identity.ordinal == node.identity.parentOrdinal.value
  }

  ghost predicate ShowsPage(g: GraphData, page: Page) {
    && page.projectId == g.projectId && page.checkpoint == g.checkpoint && page.ordinalStart == 300 * page.index
    && ShowsCards(g, 300 * page.index, page.nodes) && ShowsEdges(g, 300 * page.index, page.nodes, page.edges)
    && ShowsParents(g, 300 * page.index, page.nodes, page.externalParents)
    && forall run | run in page.activeRuns :: exists node :: node in page.nodes && run.sourceNodeSha == node.identity.sha
  }

  lemma PageStarts(g: GraphData, i: nat)
    ensures 300 * i < |g.cards| <==> i < PageCount(|g.cards|)
    ensures i < PageCount(|g.cards|) ==>
              |PageCards(g.cards, i)| == if 300 <= |g.cards| - 300 * i then 300 else |g.cards| - 300 * i
  {
  }

  lemma InShas(nodes: seq<Card>, sha: Sha)
    ensures sha in CardShas(nodes) <==> exists node :: node in nodes && node.identity.sha == sha
  {
    if sha in CardShas(nodes) {
      var k :| 0 <= k < |nodes| && CardShas(nodes)[k] == sha;
      assert nodes[k] in nodes;
    }
    if node :| node in nodes && node.identity.sha == sha {
      var k :| 0 <= k < |nodes| && nodes[k] == node;
      assert CardShas(nodes)[k] == sha;
    }
  }

  lemma LeavesTellIdentities(projectId: ProjectId, a: seq<Card>, b: seq<Card>)
    requires |a| == |b| > 0
    ensures Merkle.Root(IdentityLeaves(projectId, a)) == Merkle.Root(IdentityLeaves(projectId, b))
            <==> forall k | 0 <= k < |a| :: a[k].identity == b[k].identity
  {
    var x, y := IdentityLeaves(projectId, a), IdentityLeaves(projectId, b);
    if Merkle.Root(x) == Merkle.Root(y) {
      RootIsInjective(x, y);
      forall k | 0 <= k < |a| ensures a[k].identity == b[k].identity {
        assert x[k] == y[k];
      }
    }
    if forall k | 0 <= k < |a| :: a[k].identity == b[k].identity {
      assert x == y;
    }
  }

  /** The root over the identities tells them. */
  lemma RootShowsCards(g: GraphData, page: Page)
    requires page.index < PageCount(|g.cards|) && page.projectId == g.projectId
    requires |page.nodes| == |PageCards(g.cards, page.index)|
    ensures Merkle.Root(IdentityLeaves(page.projectId, page.nodes)) == Merkle.Root(PageLeaves(g, page.index))
            <==> ShowsCards(g, 300 * page.index, page.nodes)
  {
    PageStarts(g, page.index);
    LeavesTellIdentities(g.projectId, page.nodes, PageCards(g.cards, page.index));
  }

  lemma EdgeCount(g: GraphData, i: nat)
    requires IsTree(g) && i < PageCount(|g.cards|)
    ensures |PageOf(g, i).edges| == if i == 0 then |PageCards(g.cards, i)| - 1 else |PageCards(g.cards, i)|
  {
    PageEdges(g, i);
  }

  lemma ShownCardsAreValid(g: GraphData, page: Page)
    requires IsTree(g) && ShowsCards(g, 300 * page.index, page.nodes) && page.ordinalStart == 300 * page.index && page.projectId == g.projectId
    ensures PageOrdinalsAreValid(page) && forall node | node in page.nodes :: IdentityIsValid(node.identity, page.projectId)
  {
    forall j, k | 0 <= j < k < |page.nodes| ensures CardShas(page.nodes)[j] != CardShas(page.nodes)[k] {
      assert CardShas(g.cards)[300 * page.index + j] != CardShas(g.cards)[300 * page.index + k];
    }
  }

  /** A card on the page that is not the root hangs from an earlier card. */
  lemma ShownCardHangs(g: GraphData, start: nat, nodes: seq<Card>, k: nat)
    requires IsTree(g) && ShowsCards(g, start, nodes) && k < |nodes|
    ensures nodes[k].identity.kind.RootCard? <==> start + k == 0
    ensures nodes[k].identity.lineage.RootLineage? <==> start + k == 0
    ensures nodes[k].identity.ordinal == start + k && IdentityIsValid(nodes[k].identity, g.projectId)
    ensures start + k > 0 ==>
              && nodes[k].identity.parentOrdinal.Some? && nodes[k].identity.parentOrdinal.value < start + k
              && g.cards[nodes[k].identity.parentOrdinal.value].identity.sha == nodes[k].identity.lineage.parentSha != nodes[k].identity.sha
  {
    if start + k > 0 {
      assert HangsFromEarlier(g.cards, start + k);
      var parent := nodes[k].identity.parentOrdinal.value;
      assert CardShas(g.cards)[parent] != CardShas(g.cards)[start + k];
    }
  }

  lemma SameTarget(edges: seq<Edge>, a: Edge, b: Edge)
    requires Distinct(EdgeTargets(edges)) && a in edges && b in edges && a.targetSha == b.targetSha
    ensures a == b
  {
    var i :| 0 <= i < |edges| && edges[i] == a;
    var j :| 0 <= j < |edges| && edges[j] == b;
    assert EdgeTargets(edges)[i] == EdgeTargets(edges)[j];
  }

  lemma TargetsAreDistinct(edges: seq<Edge>)
    ensures Distinct(EdgeTargets(edges)) <==> forall i, j | 0 <= i < j < |edges| :: edges[i].targetSha != edges[j].targetSha
  {
    if Distinct(EdgeTargets(edges)) {
      forall i, j | 0 <= i < j < |edges| ensures edges[i].targetSha != edges[j].targetSha {
        assert EdgeTargets(edges)[i] != EdgeTargets(edges)[j];
      }
    }
  }

  lemma ProofOrdinalsAreDistinct(proofs: seq<IdentityProof>)
    ensures Distinct(ProofOrdinals(proofs)) <==> forall i, j | 0 <= i < j < |proofs| :: proofs[i].identity.ordinal != proofs[j].identity.ordinal
  {
    if Distinct(ProofOrdinals(proofs)) {
      forall i, j | 0 <= i < j < |proofs| ensures proofs[i].identity.ordinal != proofs[j].identity.ordinal {
        assert ProofOrdinals(proofs)[i] != ProofOrdinals(proofs)[j];
      }
    }
  }

  /** What the page check says of an edge and of a card. */
  lemma CheckedEdge(page: Page, edge: Edge) returns (k: nat)
    requires PageIsValid(page) && edge in page.edges
    ensures k < |page.nodes| && edge.targetSha == page.nodes[k].identity.sha && Links(edge, page.nodes[k].identity.lineage)
  {
    InShas(page.nodes, edge.targetSha);
    var node :| node in page.nodes && node.identity.sha == edge.targetSha;
    k :| 0 <= k < |page.nodes| && page.nodes[k] == node;
    assert NodeFits(page, node);
    var own :| own in page.edges && own.targetSha == node.identity.sha && EdgeFits(own, node.identity.lineage);
    SameTarget(page.edges, edge, own);
  }

  lemma CheckedCard(page: Page, k: nat)
    requires PageIsValid(page) && k < |page.nodes| && !page.nodes[k].identity.kind.RootCard?
    ensures exists edge :: edge in page.edges && edge.targetSha == page.nodes[k].identity.sha
    ensures page.nodes[k].identity.parentOrdinal.Some?
            && (page.nodes[k].identity.parentOrdinal.value < page.ordinalStart ==>
                  exists proof :: proof in page.externalParents && proof.identity.ordinal == page.nodes[k].identity.parentOrdinal.value)
  {
    assert page.nodes[k] in page.nodes && NodeFits(page, page.nodes[k]);
  }

  /** A proof on the page is of the parent of some card there. */
  lemma CheckedProof(page: Page, proof: IdentityProof) returns (k: nat)
    requires PageOrdinalsAreValid(page) && NeedsExternal(page, proof.identity.ordinal)
    requires forall node | node in page.nodes :: IdentityIsValid(node.identity, page.projectId)
    ensures k < |page.nodes| && page.nodes[k].identity.parentOrdinal == Some(proof.identity.ordinal) && page.nodes[k] in page.nodes
    ensures proof.identity.ordinal < page.ordinalStart
  {
    var node :| node in page.nodes && node.identity.parentOrdinal == Some(proof.identity.ordinal);
    k :| 0 <= k < |page.nodes| && page.nodes[k] == node;
    assert IdentityIsValid(node.identity, page.projectId) && node.identity.ordinal == page.ordinalStart + k;
  }

  lemma PassingShowsEdges(g: GraphData, page: Page)
    requires PageIsValid(page) && ShowsCards(g, 300 * page.index, page.nodes)
    requires |page.edges| == if page.index == 0 then |page.nodes| - 1 else |page.nodes|
    requires forall k | 0 <= k < |page.nodes| && 300 * page.index + k > 0 :: !page.nodes[k].identity.kind.RootCard?
    ensures ShowsEdges(g, 300 * page.index, page.nodes, page.edges)
  {
    assert PageEdgesAreValid(page);
    TargetsAreDistinct(page.edges);
    forall edge | edge in page.edges ensures LeadsOntoPage(g, 300 * page.index, page.nodes, edge) {
      var k := CheckedEdge(page, edge);
    }
    forall k | 0 <= k < |page.nodes| && 300 * page.index + k > 0
      ensures exists edge :: edge in page.edges && edge.targetSha == page.nodes[k].identity.sha
    {
      CheckedCard(page, k);
    }
    assert forall i, j | 0 <= i < j < |page.edges| :: page.edges[i].targetSha != page.edges[j].targetSha;
  }

  lemma PassingShowsParents(g: GraphData, page: Page)
    requires PageIsValid(page) && ShowsCards(g, 300 * page.index, page.nodes)
    requires forall proof | proof in page.externalParents :: IsWrittenProof(g, proof)
    ensures ShowsParents(g, 300 * page.index, page.nodes, page.externalParents)
  {
    ProofOrdinalsAreDistinct(page.externalParents);
    forall proof | proof in page.externalParents
      ensures proof.identity.ordinal < 300 * page.index
      ensures exists node :: node in page.nodes && node.identity.parentOrdinal == Some(proof.identity.ordinal)
    {
      var k := CheckedProof(page, proof);
    }
    forall node | node in page.nodes && node.identity.parentOrdinal.Some? && node.identity.parentOrdinal.value < 300 * page.index
      ensures exists proof :: proof in page.externalParents && proof.identity.ordinal == node.identity.parentOrdinal.value
    {
      var k :| 0 <= k < |page.nodes| && page.nodes[k] == node;
      assert IdentityIsValid(node.identity, page.projectId);
      CheckedCard(page, k);
    }
  }

  /** Behind the first card there is no root. */
  lemma ShownKinds(g: GraphData, start: nat, nodes: seq<Card>)
    requires IsTree(g) && ShowsCards(g, start, nodes)
    ensures forall k | 0 <= k < |nodes| && start + k > 0 :: !nodes[k].identity.kind.RootCard?
  {
    forall k | 0 <= k < |nodes| && start + k > 0 ensures !nodes[k].identity.kind.RootCard? {
      ShownCardHangs(g, start, nodes, k);
    }
  }

  lemma PassingShowsPage(g: GraphData, page: Page)
    requires IsTree(g) && PageTopologyHolds(ManifestOf(g), page)
    ensures ShowsPage(g, page)
  {
    PageStarts(g, page.index);
    assert ManifestOf(g).topology.pages[page.index] == DescriptorOf(g, page.index);
    RootShowsCards(g, page);
    EdgeCount(g, page.index);
    ShownKinds(g, 300 * page.index, page.nodes);
    PassingShowsEdges(g, page);
    forall proof | proof in page.externalParents ensures IsWrittenProof(g, proof) {
      ProofIsWritten(g, proof);
    }
    PassingShowsParents(g, page);
    forall run | run in page.activeRuns ensures exists node :: node in page.nodes && run.sourceNodeSha == node.identity.sha {
      InShas(page.nodes, run.sourceNodeSha);
    }
  }

  lemma ShownEdgesAreValid(g: GraphData, page: Page)
    requires IsTree(g) && ShowsCards(g, 300 * page.index, page.nodes) && ShowsEdges(g, 300 * page.index, page.nodes, page.edges)
    ensures PageEdgesAreValid(page)
  {
    TargetsAreDistinct(page.edges);
    forall edge | edge in page.edges ensures edge.targetSha in CardShas(page.nodes) && edge.sourceSha != edge.targetSha {
      assert LeadsOntoPage(g, 300 * page.index, page.nodes, edge);
      var k :| 0 <= k < |page.nodes| && edge.targetSha == page.nodes[k].identity.sha && Links(edge, page.nodes[k].identity.lineage);
      ShownCardHangs(g, 300 * page.index, page.nodes, k);
      assert CardShas(page.nodes)[k] == edge.targetSha;
    }
  }

  lemma ShownCardFits(g: GraphData, page: Page, k: nat)
    requires IsTree(g) && ShowsPage(g, page) && k < |page.nodes|
    ensures NodeFits(page, page.nodes[k])
  {
    var start, node := 300 * page.index, page.nodes[k];
    ShownCardHangs(g, start, page.nodes, k);
    ShownCardsAreValid(g, page);
    if start + k == 0 {
      forall edge | edge in page.edges ensures edge.targetSha != node.identity.sha {
        LinkedIs(g, start, page.nodes, edge, k);
      }
    } else {
      var edge :| edge in page.edges && edge.targetSha == node.identity.sha;
      LinkedIs(g, start, page.nodes, edge, k);
      ShownParentFits(g, page, k);
    }
  }

  /** An edge into a card on the page is linked to that card. */
  lemma LinkedIs(g: GraphData, start: nat, nodes: seq<Card>, edge: Edge, k: nat)
    requires ShowsCards(g, start, nodes) && k < |nodes| && LeadsOntoPage(g, start, nodes, edge) && Distinct(CardShas(nodes))
    ensures edge.targetSha == nodes[k].identity.sha ==> Links(edge, nodes[k].identity.lineage)
  {
    var j :| 0 <= j < |nodes| && edge.targetSha == nodes[j].identity.sha && Links(edge, nodes[j].identity.lineage);
    assert CardShas(nodes)[j] == nodes[j].identity.sha && CardShas(nodes)[k] == nodes[k].identity.sha;
  }

  lemma ShownParentFits(g: GraphData, page: Page, k: nat)
    requires IsTree(g) && ShowsPage(g, page) && k < |page.nodes| && 300 * page.index + k > 0
    ensures !page.nodes[k].identity.lineage.RootLineage? && page.nodes[k].identity.parentOrdinal.Some? && ParentFits(page, page.nodes[k])
  {
    var start, node := 300 * page.index, page.nodes[k];
    ShownCardHangs(g, start, page.nodes, k);
    var parent := node.identity.parentOrdinal.value;
    if parent < start {
      ShownParentProof(g, start, page.nodes, page.externalParents, k);
    } else {
      assert page.nodes[parent - start].identity == g.cards[parent].identity;
    }
  }

  lemma ShownParentProof(g: GraphData, start: nat, nodes: seq<Card>, proofs: seq<IdentityProof>, k: nat)
    requires ShowsCards(g, start, nodes) && ShowsParents(g, start, nodes, proofs) && k < |nodes|
    requires nodes[k].identity.parentOrdinal.Some? && nodes[k].identity.parentOrdinal.value < start
    ensures var parent := nodes[k].identity.parentOrdinal.value;
            exists proof :: proof in proofs && proof.identity.ordinal == parent && proof.identity.sha == g.cards[parent].identity.sha
  {
    assert nodes[k] in nodes;
    var proof :| proof in proofs && proof.identity.ordinal == nodes[k].identity.parentOrdinal.value;
    assert IsWrittenProof(g, proof);
  }

  lemma ShownProofsHold(g: GraphData, page: Page)
    requires IsTree(g) && ShowsPage(g, page)
    ensures Distinct(ProofOrdinals(page.externalParents))
    ensures forall proof | proof in page.externalParents ::
              && IdentityIsValid(proof.identity, page.projectId) && NeedsExternal(page, proof.identity.ordinal)
              && ProofHolds(ManifestOf(g).topology, proof)
  {
    ProofOrdinalsAreDistinct(page.externalParents);
    forall proof | proof in page.externalParents
      ensures IdentityIsValid(proof.identity, page.projectId) && NeedsExternal(page, proof.identity.ordinal)
      ensures ProofHolds(ManifestOf(g).topology, proof)
    {
      ProofIsWritten(g, proof);
    }
  }

  lemma ShownPageIsValid(g: GraphData, page: Page)
    requires IsTree(g) && ShowsPage(g, page)
    ensures PageIsValid(page)
  {
    ShownCardsAreValid(g, page);
    ShownEdgesAreValid(g, page);
    ShownProofsHold(g, page);
    forall node | node in page.nodes ensures NodeFits(page, node) {
      var k :| 0 <= k < |page.nodes| && page.nodes[k] == node;
      ShownCardFits(g, page, k);
    }
    forall run | run in page.activeRuns ensures run.sourceNodeSha in CardShas(page.nodes) {
      InShas(page.nodes, run.sourceNodeSha);
    }
  }

  lemma ShownPagePasses(g: GraphData, page: Page)
    requires IsTree(g) && ShowsPage(g, page)
    ensures PageTopologyHolds(ManifestOf(g), page)
  {
    PageStarts(g, page.index);
    assert ManifestOf(g).topology.pages[page.index] == DescriptorOf(g, page.index);
    ShownPageIsValid(g, page);
    RootShowsCards(g, page);
    EdgeCount(g, page.index);
    ShownProofsHold(g, page);
  }

  /**
   * A page passes under the written manifest if and only if it carries the identities of its cards, exactly one edge into
   * each of them but the root and that the one its lineage names, exactly the proofs of the parents before it, and no Run
   * from elsewhere. What the cards and edges display is open.
   */
  lemma PagePassesExactly(g: GraphData, page: Page)
    requires IsTree(g)
    ensures PageTopologyHolds(ManifestOf(g), page) <==> ShowsPage(g, page)
  {
    if PageTopologyHolds(ManifestOf(g), page) {
      PassingShowsPage(g, page);
    }
    if ShowsPage(g, page) {
      ShownPagePasses(g, page);
    }
  }

  // ------------------------------------------------------------------------ shards

  /** The edge leads from the card at ordinal `o` to one of its children. */
  ghost predicate LeadsToChild(g: GraphData, o: nat, edge: Edge) {
    exists c :: 0 < c < |g.cards| && g.cards[c].identity.parentOrdinal == Some(o) && edge.targetSha == g.cards[c].identity.sha
                && Links(edge, g.cards[c].identity.lineage)
  }

  /** Some of the edges to the children, each with the written proof of its target. */
  ghost predicate ShowsChildren(g: GraphData, o: nat, edges: seq<Edge>, proofs: seq<IdentityProof>) {
    && |edges| == |proofs|
    && (forall i, j | 0 <= i < j < |edges| :: edges[i].targetSha != edges[j].targetSha)
    && (forall i, j | 0 <= i < j < |proofs| :: proofs[i].identity.sha != proofs[j].identity.sha)
    && (forall edge | edge in edges :: LeadsToChild(g, o, edge) && exists proof :: proof in proofs && proof.identity.sha == edge.targetSha)
    && forall proof | proof in proofs :: IsWrittenProof(g, proof)
  }

  ghost predicate ShowsShard(g: GraphData, shard: NodeShard) {
    var o := shard.node.identity.ordinal;
    && shard.projectId == g.projectId && shard.checkpoint == g.checkpoint
    && o < |g.cards| && shard.node.identity == g.cards[o].identity && shard.nodeProof == ProofOf(g, o)
    && (if o == 0 then shard.parentProof == None
        else shard.parentProof.Some? && IsWrittenProof(g, shard.parentProof.value)
             && g.cards[o].identity.parentOrdinal == Some(shard.parentProof.value.identity.ordinal))
    && ShowsChildren(g, o, shard.outgoingEdges, shard.outgoingTargetProofs)
    && forall run | run in shard.activeRuns :: run.sourceNodeSha == shard.node.identity.sha
  }

  lemma CardHangs(g: GraphData, o: nat)
    requires IsTree(g) && o < |g.cards|
    ensures g.cards[o].identity.kind.RootCard? <==> o == 0
    ensures g.cards[o].identity.lineage.RootLineage? <==> o == 0
    ensures o > 0 ==> && g.cards[o].identity.parentOrdinal.Some? && g.cards[o].identity.parentOrdinal.value < o
                      && g.cards[g.cards[o].identity.parentOrdinal.value].identity.sha == g.cards[o].identity.lineage.parentSha != g.cards[o].identity.sha
  {
    if o > 0 {
      assert HangsFromEarlier(g.cards, o);
      assert CardShas(g.cards)[g.cards[o].identity.parentOrdinal.value] != CardShas(g.cards)[o];
    }
  }

  lemma ProofShasAreDistinct(proofs: seq<IdentityProof>)
    ensures Distinct(ProofShas(proofs)) <==> forall i, j | 0 <= i < j < |proofs| :: proofs[i].identity.sha != proofs[j].identity.sha
  {
    if Distinct(ProofShas(proofs)) {
      forall i, j | 0 <= i < j < |proofs| ensures proofs[i].identity.sha != proofs[j].identity.sha {
        assert ProofShas(proofs)[i] != ProofShas(proofs)[j];
      }
    }
  }

  /** A proven child of the card at the other end of its edge. */
  lemma ChildProofMeaning(g: GraphData, node: Card, edge: Edge, proof: IdentityProof)
    requires IsTree(g) && IsWrittenProof(g, proof) && node.identity.ordinal < |g.cards|
    requires node.identity == g.cards[node.identity.ordinal].identity
    ensures IsChildProof(node, edge, proof)
            <==> && proof.identity.ordinal > 0 && g.cards[proof.identity.ordinal].identity.parentOrdinal == Some(node.identity.ordinal)
                 && proof.identity.sha == edge.targetSha && Links(edge, proof.identity.lineage)
  {
    CardHangs(g, proof.identity.ordinal);
  }

  lemma PassingShowsChildren(g: GraphData, shard: NodeShard)
    requires IsTree(g) && ShardShapeIsValid(shard) && shard.node.identity.ordinal < |g.cards|
    requires shard.node.identity == g.cards[shard.node.identity.ordinal].identity
    requires forall proof | proof in shard.outgoingTargetProofs :: ProofHolds(ManifestOf(g).topology, proof)
    ensures ShowsChildren(g, shard.node.identity.ordinal, shard.outgoingEdges, shard.outgoingTargetProofs)
  {
    var o := shard.node.identity.ordinal;
    TargetsAreDistinct(shard.outgoingEdges);
    ProofShasAreDistinct(shard.outgoingTargetProofs);
    forall proof | proof in shard.outgoingTargetProofs ensures IsWrittenProof(g, proof) {
      ProofIsWritten(g, proof);
    }
    forall edge | edge in shard.outgoingEdges
      ensures LeadsToChild(g, o, edge) && exists proof :: proof in shard.outgoingTargetProofs && proof.identity.sha == edge.targetSha
    {
      var proof :| proof in shard.outgoingTargetProofs && IsChildProof(shard.node, edge, proof)
                   && IdentityIsValid(proof.identity, shard.projectId);
      ChildProofMeaning(g, shard.node, edge, proof);
    }
  }

  lemma PassingShowsShard(g: GraphData, shard: NodeShard)
    requires IsTree(g) && NodeTopologyHolds(ManifestOf(g), shard)
    ensures ShowsShard(g, shard)
  {
    ProofIsWritten(g, shard.nodeProof);
    CardHangs(g, shard.node.identity.ordinal);
    if shard.parentProof.Some? {
      ProofIsWritten(g, shard.parentProof.value);
    }
    PassingShowsChildren(g, shard);
  }

  lemma ShownChildrenAreValid(g: GraphData, shard: NodeShard)
    requires IsTree(g) && ShowsShard(g, shard)
    ensures Distinct(EdgeTargets(shard.outgoingEdges)) && Distinct(ProofShas(shard.outgoingTargetProofs))
    ensures forall edge | edge in shard.outgoingEdges ::
              edge.sourceSha == shard.node.identity.sha && edge.targetSha != shard.node.identity.sha
    ensures forall edge | edge in shard.outgoingEdges ::
              exists proof :: proof in shard.outgoingTargetProofs && IsChildProof(shard.node, edge, proof)
                              && IdentityIsValid(proof.identity, shard.projectId)
  {
    var o := shard.node.identity.ordinal;
    TargetsAreDistinct(shard.outgoingEdges);
    ProofShasAreDistinct(shard.outgoingTargetProofs);
    forall edge | edge in shard.outgoingEdges
      ensures edge.sourceSha == shard.node.identity.sha && edge.targetSha != shard.node.identity.sha
      ensures exists proof :: proof in shard.outgoingTargetProofs && IsChildProof(shard.node, edge, proof)
                              && IdentityIsValid(proof.identity, shard.projectId)
    {
      assert LeadsToChild(g, o, edge);
      var c :| 0 < c < |g.cards| && g.cards[c].identity.parentOrdinal == Some(o) && edge.targetSha == g.cards[c].identity.sha
               && Links(edge, g.cards[c].identity.lineage);
      CardHangs(g, c);
      var proof :| proof in shard.outgoingTargetProofs && proof.identity.sha == edge.targetSha;
      CardsDiffer(g, c, proof.identity.ordinal);
      ChildProofMeaning(g, shard.node, edge, proof);
    }
  }

  lemma ShownShardPasses(g: GraphData, shard: NodeShard)
    requires IsTree(g) && ShowsShard(g, shard)
    ensures NodeTopologyHolds(ManifestOf(g), shard)
  {
    var o := shard.node.identity.ordinal;
    CardHangs(g, o);
    ProofIsWritten(g, shard.nodeProof);
    if shard.parentProof.Some? {
      ProofIsWritten(g, shard.parentProof.value);
    }
    ShownChildrenAreValid(g, shard);
    forall proof | proof in shard.outgoingTargetProofs ensures ProofHolds(ManifestOf(g).topology, proof) {
      ProofIsWritten(g, proof);
    }
  }

  /**
   * A shard passes under the written manifest if and only if it carries the identity and the proofs of a card and of its
   * parent, and edges to some of the card's children with their proofs. Nothing makes it show all of them.
   */
  lemma ShardPassesExactly(g: GraphData, shard: NodeShard)
    requires IsTree(g)
    ensures NodeTopologyHolds(ManifestOf(g), shard) <==> ShowsShard(g, shard)
  {
    if NodeTopologyHolds(ManifestOf(g), shard) {
      PassingShowsShard(g, shard);
    }
    if ShowsShard(g, shard) {
      ShownShardPasses(g, shard);
    }
  }
}

/** The local checks of the sharded Graph, taken over all its files, describe one tree. */
module GraphTree {
  import opened Prelude
  import opened Protocol
  import opened Merkle
  import opened GraphPages

  /** One accepted page for each descriptor of an accepted manifest. */
  ghost predicate AllPagesHold(manifest: Manifest, pages: seq<Page>) {
    && ManifestIsValid(manifest)
    && |pages| == |manifest.topology.pages|
    && forall i | 0 <= i < |pages| :: pages[i].index == i && PageTopologyHolds(manifest, pages[i])
  }

  predicate HasOrdinal(pages: seq<Page>, ordinal: nat) {
    ordinal / GRAPH_PAGE_SIZE < |pages| && ordinal % GRAPH_PAGE_SIZE < |pages[ordinal / GRAPH_PAGE_SIZE].nodes|
  }

  function CardAt(pages: seq<Page>, ordinal: nat): Card
    requires HasOrdinal(pages, ordinal)
  {
    pages[ordinal / GRAPH_PAGE_SIZE].nodes[ordinal % GRAPH_PAGE_SIZE]
  }

  lemma OrdinalsAreCovered(manifest: Manifest, pages: seq<Page>, ordinal: nat)
    requires AllPagesHold(manifest, pages)
    ensures HasOrdinal(pages, ordinal) <==> ordinal < manifest.topology.nodeCount
    ensures HasOrdinal(pages, ordinal) ==> CardAt(pages, ordinal).identity.ordinal == ordinal
  {
    var i, k := ordinal / GRAPH_PAGE_SIZE, ordinal % GRAPH_PAGE_SIZE;
    var n := |pages|;
    if i < n {
      assert PageTopologyHolds(manifest, pages[i]) && DescriptorIsCanonical(manifest.topology, i);
      assert pages[i].ordinalStart == i * GRAPH_PAGE_SIZE;
    }
    if n > 0 {
      assert DescriptorIsCanonical(manifest.topology, n - 1);
    }
  }

  lemma ProofIsOfPageCard(topology: Topology, page: Page, proof: IdentityProof)
    requires ProofHolds(topology, proof) && page.nodes != [] && |page.nodes| <= GRAPH_PAGE_SIZE
    requires topology.pages[proof.pageIndex].nodeCount == |page.nodes|
    requires topology.pages[proof.pageIndex].nodeIdentityRoot == Merkle.Root(IdentityLeaves(topology.projectId, page.nodes))
    ensures proof.leafIndex < |page.nodes| && page.nodes[proof.leafIndex].identity == proof.identity
  {
    var leaves := IdentityLeaves(topology.projectId, page.nodes);
    GraphPageProofsFit(|leaves|);
    MembershipIsExact(leaves, Leaf(IdentityLeaf(topology.projectId, proof.identity)), proof.leafIndex, proof.siblings,
                      MAX_GRAPH_IDENTITY_PROOF_STEPS);
    assert leaves[proof.leafIndex] == Leaf(IdentityLeaf(topology.projectId, page.nodes[proof.leafIndex].identity));
  }

  /** A proof accepted against the manifest is of the very card at its ordinal. */
  lemma ProofIsOfCard(manifest: Manifest, pages: seq<Page>, proof: IdentityProof)
    requires AllPagesHold(manifest, pages) && ProofHolds(manifest.topology, proof)
    ensures HasOrdinal(pages, proof.identity.ordinal) && CardAt(pages, proof.identity.ordinal).identity == proof.identity
  {
    var i, k := proof.pageIndex, proof.leafIndex;
    assert PageTopologyHolds(manifest, pages[i]) && DescriptorIsCanonical(manifest.topology, i);
    ProofIsOfPageCard(manifest.topology, pages[i], proof);
    OrdinalOnPage(pages, i, k, proof.identity.ordinal);
  }

  lemma OrdinalOnPage(pages: seq<Page>, i: nat, k: nat, ordinal: nat)
    requires i < |pages| && k < |pages[i].nodes| && |pages[i].nodes| <= GRAPH_PAGE_SIZE && ordinal == i * GRAPH_PAGE_SIZE + k
    requires k < GRAPH_PAGE_SIZE
    ensures HasOrdinal(pages, ordinal) && CardAt(pages, ordinal) == pages[i].nodes[k]
  {
    assert ordinal / GRAPH_PAGE_SIZE == i && ordinal % GRAPH_PAGE_SIZE == k;
  }

  /** The card is the root at ordinal 0, or its parent is a card at a smaller ordinal with the SHA its lineage names. */
  ghost predicate CardHangs(manifest: Manifest, pages: seq<Page>, ordinal: nat)
    requires HasOrdinal(pages, ordinal)
  {
    var identity := CardAt(pages, ordinal).identity;
    && identity.ordinal == ordinal
    && (identity.kind.RootCard? <==> ordinal == 0)
    && (ordinal == 0 ==> identity.sha == manifest.topology.rootNodeSha)
    && (ordinal > 0 ==>
          && identity.parentOrdinal.Some? && identity.parentOrdinal.value < ordinal
          && HasOrdinal(pages, identity.parentOrdinal.value)
          && !identity.lineage.RootLineage?
          && CardAt(pages, identity.parentOrdinal.value).identity.sha == identity.lineage.parentSha)
  }

  lemma ParentOnOtherPage(manifest: Manifest, pages: seq<Page>, page: Page, node: Card)
    requires AllPagesHold(manifest, pages) && page in pages && node in page.nodes && !node.identity.kind.RootCard?
    requires node.identity.parentOrdinal.Some? && !OnPage(page, node.identity.parentOrdinal.value)
    ensures !node.identity.lineage.RootLineage?
    ensures HasOrdinal(pages, node.identity.parentOrdinal.value)
    ensures CardAt(pages, node.identity.parentOrdinal.value).identity.sha == node.identity.lineage.parentSha
  {
    assert NodeFits(page, node) && ParentFits(page, node);
    var proof :| proof in page.externalParents && proof.identity.ordinal == node.identity.parentOrdinal.value
                 && proof.identity.sha == node.identity.lineage.parentSha;
    ProofIsOfCard(manifest, pages, proof);
  }

  lemma ParentOnSamePage(page: Page, node: Card)
    requires PageIsValid(page) && node in page.nodes && !node.identity.kind.RootCard?
    requires node.identity.parentOrdinal.Some? && OnPage(page, node.identity.parentOrdinal.value)
    ensures !node.identity.lineage.RootLineage?
    ensures page.nodes[node.identity.parentOrdinal.value - page.ordinalStart].identity.sha == node.identity.lineage.parentSha
  {
    assert NodeFits(page, node) && ParentFits(page, node);
  }

  /** Accepting the manifest and every page means accepting one tree, parents before children. */
  lemma LocalChecksGiveTree(manifest: Manifest, pages: seq<Page>, ordinal: nat)
    requires AllPagesHold(manifest, pages) && ordinal < manifest.topology.nodeCount
    ensures HasOrdinal(pages, ordinal) && CardHangs(manifest, pages, ordinal)
  {
    OrdinalsAreCovered(manifest, pages, ordinal);
    var i := ordinal / GRAPH_PAGE_SIZE;
    var page, node := pages[i], CardAt(pages, ordinal);
    assert PageTopologyHolds(manifest, page) && node in page.nodes && IdentityIsValid(node.identity, page.projectId);
    if ordinal > 0 {
      var parentOrdinal := node.identity.parentOrdinal.value;
      if OnPage(page, parentOrdinal) {
        ParentOnSamePage(page, node);
        assert parentOrdinal / GRAPH_PAGE_SIZE == i && parentOrdinal % GRAPH_PAGE_SIZE == parentOrdinal - page.ordinalStart;
      } else {
        ParentOnOtherPage(manifest, pages, page, node);
      }
    }
  }

  /** Following parent ordinals for at most `ordinal` steps arrives at the root. */
  function ClimbOrdinals(pages: seq<Page>, ordinal: nat): nat
    decreases ordinal
  {
    if !HasOrdinal(pages, ordinal) then ordinal
    else
      var parent := CardAt(pages, ordinal).identity.parentOrdinal;
      if parent.Some? && parent.value < ordinal then ClimbOrdinals(pages, parent.value) else ordinal
  }

  lemma {:induction false} EveryCardReachesRoot(manifest: Manifest, pages: seq<Page>, ordinal: nat)
    requires AllPagesHold(manifest, pages) && ordinal < manifest.topology.nodeCount
    ensures ClimbOrdinals(pages, ordinal) == 0
    decreases ordinal
  {
    LocalChecksGiveTree(manifest, pages, ordinal);
    if ordinal > 0 {
      EveryCardReachesRoot(manifest, pages, CardAt(pages, ordinal).identity.parentOrdinal.value);
    }
  }

  // ---------------------------------------------------------------- edges

  function TotalEdges(pages: seq<Page>): nat {
    if pages == [] then 0 else TotalEdges(pages[..|pages| - 1]) + |pages[|pages| - 1].edges|
  }

  lemma {:induction false} EdgesAddUp(descriptors: seq<PageDescriptor>, pages: seq<Page>)
    requires |pages| == |descriptors| && forall i | 0 <= i < |pages| :: descriptors[i].edgeCount == |pages[i].edges|
    ensures TotalEdges(pages) == EdgeCountSum(descriptors)
  {
    if pages != [] {
      EdgesAddUp(descriptors[..|descriptors| - 1], pages[..|pages| - 1]);
    }
  }

  /** There is one edge fewer than there are cards. */
  lemma OneEdgeFewer(manifest: Manifest, pages: seq<Page>)
    requires AllPagesHold(manifest, pages)
    ensures TotalEdges(pages) == manifest.topology.nodeCount - 1
  {
    forall i | 0 <= i < |pages| ensures manifest.topology.pages[i].edgeCount == |pages[i].edges| {
      assert PageTopologyHolds(manifest, pages[i]);
    }
    EdgesAddUp(manifest.topology.pages, pages);
  }

  /** On an accepted page every card but the root is the target of exactly one edge, which agrees with its lineage. */
  lemma IncomingEdge(page: Page, node: Card)
    requires PageIsValid(page) && node in page.nodes
    ensures node.identity.kind.RootCard? ==> forall edge | edge in page.edges :: edge.targetSha != node.identity.sha
    ensures !node.identity.kind.RootCard? ==>
              exists i :: 0 <= i < |page.edges| && EdgeFits(page.edges[i], node.identity.lineage)
                          && forall j | 0 <= j < |page.edges| :: page.edges[j].targetSha == node.identity.sha <==> j == i
  {
    assert NodeFits(page, node);
    if !node.identity.kind.RootCard? {
      var edge :| edge in page.edges && edge.targetSha == node.identity.sha && EdgeFits(edge, node.identity.lineage);
      var i :| 0 <= i < |page.edges| && page.edges[i] == edge;
      forall j | 0 <= j < |page.edges| ensures page.edges[j].targetSha == node.identity.sha <==> j == i {
        assert EdgeTargets(page.edges)[j] == page.edges[j].targetSha && EdgeTargets(page.edges)[i] == edge.targetSha;
      }
    }
  }

  // --------------------------------------------------------------- locators

  /** The locators of a page are the files its cards' SHAs name. */
  ghost predicate ReadFrom(files: map<Sha, NodeShard>, locators: seq<NodeShard>) {
    forall locator | locator in locators :: locator.node.identity.sha in files && files[locator.node.identity.sha] == locator
  }

  /** When every page is accepted with its locators, and a SHA names one file, no SHA stands at two ordinals. */
  lemma ShasAreUnique(manifest: Manifest, pages: seq<Page>, locators: seq<seq<NodeShard>>, files: map<Sha, NodeShard>, a: nat, b: nat)
    requires AllPagesHold(manifest, pages) && |locators| == |pages|
    requires forall i | 0 <= i < |pages| :: LocatorsHold(manifest, pages[i], locators[i]) && ReadFrom(files, locators[i])
    requires a < manifest.topology.nodeCount && b < manifest.topology.nodeCount
    requires HasOrdinal(pages, a) && HasOrdinal(pages, b)
    requires CardAt(pages, a).identity.sha == CardAt(pages, b).identity.sha
    ensures a == b
  {
    OrdinalsAreCovered(manifest, pages, a);
    OrdinalsAreCovered(manifest, pages, b);
    LocatedCard(manifest, pages[a / GRAPH_PAGE_SIZE], locators[a / GRAPH_PAGE_SIZE], files, CardAt(pages, a));
    LocatedCard(manifest, pages[b / GRAPH_PAGE_SIZE], locators[b / GRAPH_PAGE_SIZE], files, CardAt(pages, b));
  }

  lemma LocatedCard(manifest: Manifest, page: Page, locators: seq<NodeShard>, files: map<Sha, NodeShard>, node: Card)
    requires LocatorsHold(manifest, page, locators) && ReadFrom(files, locators) && node in page.nodes
    ensures node.identity.sha in files && files[node.identity.sha].node == node
  {
    var locator :| locator in locators && locator.node == node && NodeTopologyHolds(manifest, locator);
  }
}

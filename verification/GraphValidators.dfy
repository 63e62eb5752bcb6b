/** The validators of the sharded Graph as the source runs them, proved to accept exactly what `GraphPages` describes. */
module GraphValidators {
  import opened Prelude
  import opened Protocol
  import opened Lists
  import opened Merkle
  import opened GraphPages

  /** The cards before `i` whose parent lies on another page name these ordinals. */
  ghost function ExternalOrdinals(page: Page, i: nat): set<nat>
    requires i <= |page.nodes|
  {
    set j | 0 <= j < i && page.nodes[j].identity.parentOrdinal.Some? && !OnPage(page, page.nodes[j].identity.parentOrdinal.value)
      :: page.nodes[j].identity.parentOrdinal.value
  }

  lemma NextExternalOrdinal(page: Page, i: nat)
    requires i < |page.nodes|
    ensures var parent := page.nodes[i].identity.parentOrdinal;
            ExternalOrdinals(page, i + 1)
            == ExternalOrdinals(page, i) + if parent.Some? && !OnPage(page, parent.value) then {parent.value} else {}
  {
  }

  lemma ExternalOrdinalsMeaning(page: Page)
    ensures forall o :: o in ExternalOrdinals(page, |page.nodes|) <==> NeedsExternal(page, o)
  {
    forall o | NeedsExternal(page, o) ensures o in ExternalOrdinals(page, |page.nodes|) {
      var node :| node in page.nodes && node.identity.parentOrdinal == Some(o);
      var j :| 0 <= j < |page.nodes| && page.nodes[j] == node;
    }
  }

  /** The checks of one card inside the loop of `validateGraphPage`. */
  method CheckCard(page: Page, node: Card) returns (ok: bool, external: Option<nat>)
    requires IdentityIsValid(node.identity, page.projectId) && PageOrdinalsAreValid(page)
    requires Distinct(EdgeTargets(page.edges)) && Distinct(ProofOrdinals(page.externalParents))
    ensures ok <==> NodeFits(page, node)
    ensures ok ==> external == if node.identity.parentOrdinal.Some? && !OnPage(page, node.identity.parentOrdinal.value)
                               then node.identity.parentOrdinal else None
    ensures ok && external.Some? ==> external.value in ProofOrdinals(page.externalParents)
  {
    var edge := First(page.edges, (e: Edge) => e.targetSha == node.identity.sha);
    if node.identity.kind.RootCard? {
      return edge.None? && node.identity.ordinal == 0, None;
    }
    OnlyEdge(page, node, edge);
    if edge.None? || !EdgeFits(edge.value, node.identity.lineage) {
      return false, None;
    }
    var parentOrdinal, parentSha := node.identity.parentOrdinal.value, node.identity.lineage.parentSha;
    if OnPage(page, parentOrdinal) {
      return page.nodes[parentOrdinal - page.ordinalStart].identity.sha == parentSha, None;
    }
    var proof := First(page.externalParents, (p: IdentityProof) => p.identity.ordinal == parentOrdinal);
    OnlyProof(page, parentOrdinal, proof);
    if proof.None? || proof.value.identity.sha != parentSha {
      return false, Some(parentOrdinal);
    }
    var k :| 0 <= k < |page.externalParents| && page.externalParents[k] == proof.value;
    assert ProofOrdinals(page.externalParents)[k] == parentOrdinal;
    return true, Some(parentOrdinal);
  }

  lemma OnlyEdge(page: Page, node: Card, found: Option<Edge>)
    requires Distinct(EdgeTargets(page.edges))
    requires found == First(page.edges, (e: Edge) => e.targetSha == node.identity.sha)
    ensures forall edge | edge in page.edges && edge.targetSha == node.identity.sha :: found == Some(edge)
  {
    forall edge | edge in page.edges && edge.targetSha == node.identity.sha ensures found == Some(edge) {
      var i :| 0 <= i < |page.edges| && page.edges[i] == edge;
      var j :| 0 <= j < |page.edges| && page.edges[j] == found.value;
      assert EdgeTargets(page.edges)[i] == EdgeTargets(page.edges)[j];
    }
  }

  lemma OnlyProof(page: Page, ordinal: nat, found: Option<IdentityProof>)
    requires Distinct(ProofOrdinals(page.externalParents))
    requires found == First(page.externalParents, (p: IdentityProof) => p.identity.ordinal == ordinal)
    ensures forall proof | proof in page.externalParents && proof.identity.ordinal == ordinal :: found == Some(proof)
  {
    forall proof | proof in page.externalParents && proof.identity.ordinal == ordinal ensures found == Some(proof) {
      var i :| 0 <= i < |page.externalParents| && page.externalParents[i] == proof;
      var j :| 0 <= j < |page.externalParents| && page.externalParents[j] == found.value;
      assert ProofOrdinals(page.externalParents)[i] == ProofOrdinals(page.externalParents)[j];
    }
  }

  /** A subset of a list without repetitions that contains all of it has its length. */
  lemma SameSize(required: set<nat>, ordinals: seq<nat>)
    requires Distinct(ordinals) && forall o | o in required :: o in ordinals
    ensures (forall o | o in ordinals :: o in required) ==> |required| == |ordinals|
  {
    DistinctSize(ordinals);
    if forall o | o in ordinals :: o in required {
      assert required == Elements(ordinals);
    }
  }

  lemma NoUnusedProof(page: Page, required: set<nat>)
    requires required == ExternalOrdinals(page, |page.nodes|)
    requires Distinct(ProofOrdinals(page.externalParents)) && forall o | o in required :: o in ProofOrdinals(page.externalParents)
    ensures (|required| == |page.externalParents| && forall proof | proof in page.externalParents :: proof.identity.ordinal in required)
            <==> forall proof | proof in page.externalParents :: NeedsExternal(page, proof.identity.ordinal)
  {
    var ordinals := ProofOrdinals(page.externalParents);
    ExternalOrdinalsMeaning(page);
    SameSize(required, ordinals);
    if forall proof | proof in page.externalParents :: NeedsExternal(page, proof.identity.ordinal) {
      forall o | o in ordinals ensures o in required {
        var k :| 0 <= k < |ordinals| && ordinals[k] == o;
        assert page.externalParents[k] in page.externalParents;
      }
    }
  }

  /** The loop of `validateGraphPage`: every card fits, and the proofs on the page are the ones the cards need. */
  method CheckCards(page: Page) returns (ok: bool)
    requires PageOrdinalsAreValid(page) && forall node | node in page.nodes :: IdentityIsValid(node.identity, page.projectId)
    requires Distinct(EdgeTargets(page.edges)) && Distinct(ProofOrdinals(page.externalParents))
    ensures ok <==> (forall node | node in page.nodes :: NodeFits(page, node))
                    && forall proof | proof in page.externalParents :: NeedsExternal(page, proof.identity.ordinal)
  {
    var ordinals := ProofOrdinals(page.externalParents);
    var required: set<nat> := {};
    for i := 0 to |page.nodes|
      invariant required == ExternalOrdinals(page, i)
      invariant forall j | 0 <= j < i :: NodeFits(page, page.nodes[j])
      invariant forall o | o in required :: o in ordinals
    {
      NextExternalOrdinal(page, i);
      assert page.nodes[i] in page.nodes;
      var fits, external := CheckCard(page, page.nodes[i]);
      if !fits {
        return false;
      }
      if external.Some? {
        required := required + {external.value};
      }
    }
    NoUnusedProof(page, required);
    return |required| == |page.externalParents| && forall proof | proof in page.externalParents :: proof.identity.ordinal in required;
  }

  method ValidateGraphPage(page: Page) returns (ok: bool)
    ensures ok <==> PageIsValid(page)
  {
    if !PageOrdinalsAreValid(page) || !(forall node | node in page.nodes :: IdentityIsValid(node.identity, page.projectId))
       || !(forall proof | proof in page.externalParents :: IdentityIsValid(proof.identity, page.projectId)) {
      return false;
    }
    if !PageEdgesAreValid(page) || !Distinct(ProofOrdinals(page.externalParents)) {
      return false;
    }
    ok := CheckCards(page);
    if !ok {
      return;
    }
    return forall run | run in page.activeRuns :: run.sourceNodeSha in CardShas(page.nodes);
  }

  method VerifyIdentityProof(topology: Topology, proof: IdentityProof) returns (ok: bool)
    ensures ok <==> ProofHolds(topology, proof)
  {
    if !IdentityIsValid(proof.identity, topology.projectId) || proof.pageIndex >= |topology.pages| {
      return false;
    }
    var descriptor := topology.pages[proof.pageIndex];
    if descriptor.index != proof.pageIndex || proof.identity.ordinal != descriptor.ordinalStart + proof.leafIndex {
      return false;
    }
    ok := VerifyMembership(Leaf(IdentityLeaf(topology.projectId, proof.identity)), proof.leafIndex, descriptor.nodeCount,
                           proof.siblings, descriptor.nodeIdentityRoot, MAX_GRAPH_IDENTITY_PROOF_STEPS);
  }

  method VerifyIdentityProofs(topology: Topology, proofs: seq<IdentityProof>) returns (ok: bool)
    ensures ok <==> forall proof | proof in proofs :: ProofHolds(topology, proof)
  {
    for i := 0 to |proofs|
      invariant forall j | 0 <= j < i :: ProofHolds(topology, proofs[j])
    {
      var holds := VerifyIdentityProof(topology, proofs[i]);
      if !holds {
        assert proofs[i] in proofs;
        return false;
      }
    }
    return true;
  }

  method ValidateGraphPageTopology(manifest: Manifest, page: Page) returns (ok: bool)
    ensures ok <==> PageTopologyHolds(manifest, page)
  {
    if !MatchesManifest(manifest, page.projectId, page.checkpoint) {
      return false;
    }
    var valid := ValidateGraphPage(page);
    if !valid || page.index >= |manifest.topology.pages| {
      return false;
    }
    var descriptor := manifest.topology.pages[page.index];
    if descriptor.index != page.index || descriptor.ordinalStart != page.ordinalStart
       || descriptor.nodeCount != |page.nodes| || descriptor.edgeCount != |page.edges| {
      return false;
    }
    GraphPageProofsFit(|page.nodes|);
    var commitment := BuildCommitment(IdentityLeaves(page.projectId, page.nodes), MAX_GRAPH_IDENTITY_PROOF_STEPS);
    if commitment.None? || commitment.value.root != descriptor.nodeIdentityRoot {
      return false;
    }
    var proven := VerifyIdentityProofs(manifest.topology, page.externalParents);
    return proven && (page.index == 0 ==> page.nodes[0].identity.sha == manifest.topology.rootNodeSha);
  }

  method ValidateGraphNodeTopology(manifest: Manifest, shard: NodeShard) returns (ok: bool)
    ensures ok <==> NodeTopologyHolds(manifest, shard)
  {
    if !MatchesManifest(manifest, shard.projectId, shard.checkpoint) || !ShardShapeIsValid(shard) {
      return false;
    }
    ok := VerifyIdentityProof(manifest.topology, shard.nodeProof);
    if ok && shard.parentProof.Some? {
      ok := VerifyIdentityProof(manifest.topology, shard.parentProof.value);
    }
    if ok {
      ok := VerifyIdentityProofs(manifest.topology, shard.outgoingTargetProofs);
    }
    return ok && (shard.node.identity.ordinal == 0 ==> shard.node.identity.sha == manifest.topology.rootNodeSha);
  }

  /** The locator of one card, found by SHA, checked and compared. */
  method CheckLocator(manifest: Manifest, locators: seq<NodeShard>, node: Card) returns (ok: bool)
    requires Distinct(ShardShas(locators))
    ensures ok <==> exists locator :: locator in locators && locator.node == node && NodeTopologyHolds(manifest, locator)
  {
    var locator := First(locators, (l: NodeShard) => l.node.identity.sha == node.identity.sha);
    OnlyLocator(locators, node, locator);
    if locator.None? || locator.value.node != node {
      return false;
    }
    ok := ValidateGraphNodeTopology(manifest, locator.value);
  }

  method ValidateGraphPageNodeLocators(manifest: Manifest, page: Page, locators: seq<NodeShard>) returns (ok: bool)
    ensures ok <==> LocatorsHold(manifest, page, locators)
  {
    ok := ValidateGraphPageTopology(manifest, page);
    if !ok || |locators| != |page.nodes| || !Distinct(ShardShas(locators)) {
      return false;
    }
    for i := 0 to |page.nodes|
      invariant forall j | 0 <= j < i :: exists locator :: locator in locators && locator.node == page.nodes[j] && NodeTopologyHolds(manifest, locator)
    {
      var located := CheckLocator(manifest, locators, page.nodes[i]);
      if !located {
        assert page.nodes[i] in page.nodes;
        return false;
      }
    }
    return true;
  }

  lemma OnlyLocator(locators: seq<NodeShard>, node: Card, found: Option<NodeShard>)
    requires Distinct(ShardShas(locators))
    requires found == First(locators, (l: NodeShard) => l.node.identity.sha == node.identity.sha)
    ensures forall locator | locator in locators && locator.node == node :: found == Some(locator)
  {
    forall locator | locator in locators && locator.node == node ensures found == Some(locator) {
      var i :| 0 <= i < |locators| && locators[i] == locator;
      var j :| 0 <= j < |locators| && locators[j] == found.value;
      assert ShardShas(locators)[i] == ShardShas(locators)[j];
    }
  }
}

/** Writing the sharded Graph: pages, manifest and Node shards, and why every reader's check accepts them. */
module Materialize {
  import opened Prelude
  import opened Protocol
  import opened Lists
  import opened Merkle
  import opened GraphPages

  /** Cards in ordinal order, edges in the order of their target cards, active Runs. */
  datatype GraphData = GraphData(
    checkpoint: string, projectId: ProjectId, rootNodeSha: Sha,
    cards: seq<Card>, edges: seq<Edge>, activeRuns: seq<ActiveRun>)

  /** A tree in parent-before-child order with one edge into every card but the root. */
  ghost predicate IsTree(g: GraphData) {
    && g.cards != [] && Distinct(CardShas(g.cards))
    && (forall i | 0 <= i < |g.cards| :: g.cards[i].identity.ordinal == i && IdentityIsValid(g.cards[i].identity, g.projectId))
    && g.cards[0].identity.kind.RootCard? && g.cards[0].identity.sha == g.rootNodeSha
    && (forall i | 0 < i < |g.cards| :: HangsFromEarlier(g.cards, i))
    && |g.edges| == |g.cards| - 1
    && forall k | 0 <= k < |g.edges| ::
         g.edges[k].targetSha == g.cards[k + 1].identity.sha && EdgeFits(g.edges[k], g.cards[k + 1].identity.lineage)
  }

  predicate HangsFromEarlier(cards: seq<Card>, i: nat)
    requires i < |cards|
  {
    var identity := cards[i].identity;
    && !identity.kind.RootCard? && !identity.lineage.RootLineage?
    && identity.parentOrdinal.Some? && identity.parentOrdinal.value < i
    && cards[identity.parentOrdinal.value].identity.sha == identity.lineage.parentSha
  }

  // --------------------------------------------------------------- what is written

  function PageCount(n: nat): nat {
    (n + GRAPH_PAGE_SIZE - 1) / GRAPH_PAGE_SIZE
  }

  function PageEnd(n: nat, i: nat): nat {
    if (i + 1) * GRAPH_PAGE_SIZE < n then (i + 1) * GRAPH_PAGE_SIZE else n
  }

  function PageCards(cards: seq<Card>, i: nat): (r: seq<Card>)
    requires i < PageCount(|cards|)
    ensures 0 < |r| <= GRAPH_PAGE_SIZE
    ensures |r| == PageEnd(|cards|, i) - i * GRAPH_PAGE_SIZE
    ensures forall k | 0 <= k < |r| :: r[k] == cards[i * GRAPH_PAGE_SIZE + k]
  {
    cards[i * GRAPH_PAGE_SIZE..PageEnd(|cards|, i)]
  }

  function PageLeaves(g: GraphData, i: nat): (r: seq<Hash<IdentityLeaf>>)
    requires i < PageCount(|g.cards|)
    ensures r != []
  {
    IdentityLeaves(g.projectId, PageCards(g.cards, i))
  }

  function ProofOf(g: GraphData, ordinal: nat): (proof: IdentityProof)
    requires ordinal < |g.cards|
    ensures proof.identity == g.cards[ordinal].identity
  {
    var i, k := ordinal / GRAPH_PAGE_SIZE, ordinal % GRAPH_PAGE_SIZE;
    IdentityProof(i, k, g.cards[ordinal].identity, Siblings(PageLeaves(g, i), k))
  }

  predicate IsExternalParent(cards: seq<Card>, i: nat, ordinal: nat)
    requires i < PageCount(|cards|)
  {
    exists card :: card in PageCards(cards, i) && card.identity.parentOrdinal == Some(ordinal)
  }

  function UpTo(n: nat): (r: seq<nat>)
    ensures |r| == n && forall k | 0 <= k < n :: r[k] == k
  {
    seq(n, k => k)
  }

  /** The parents of the page's cards on earlier pages, each once, in ascending order. */
  function ExternalParents(cards: seq<Card>, i: nat): seq<nat>
    requires i < PageCount(|cards|)
  {
    Filter(UpTo(i * GRAPH_PAGE_SIZE), (o: nat) => IsExternalParent(cards, i, o))
  }

  function ProofsOf(g: GraphData, ordinals: seq<nat>): (r: seq<IdentityProof>)
    requires forall o | o in ordinals :: o < |g.cards|
    ensures |r| == |ordinals|
    ensures forall k | 0 <= k < |r| :: ordinals[k] in ordinals && r[k] == ProofOf(g, ordinals[k])
  {
    if ordinals == [] then []
    else
      assert ordinals[0] in ordinals && forall o | o in ordinals[1..] :: o in ordinals;
      [ProofOf(g, ordinals[0])] + ProofsOf(g, ordinals[1..])
  }

  function EdgesInto(edges: seq<Edge>, nodes: seq<Card>): seq<Edge> {
    Filter(edges, (edge: Edge) => edge.targetSha in CardShas(nodes))
  }

  function PageOf(g: GraphData, i: nat): Page
    requires i < PageCount(|g.cards|)
  {
    var nodes := PageCards(g.cards, i);
    var externalParents := ExternalParents(g.cards, i);
    assert forall o | o in externalParents :: o < |g.cards| by { EarlierOrdinals(g.cards, i); }
    Page(g.checkpoint, g.projectId, i, i * GRAPH_PAGE_SIZE, nodes, ProofsOf(g, externalParents), EdgesInto(g.edges, nodes),
         Filter(g.activeRuns, (run: ActiveRun) => run.sourceNodeSha in CardShas(nodes)))
  }

  lemma EarlierOrdinals(cards: seq<Card>, i: nat)
    requires i < PageCount(|cards|)
    ensures forall o | o in ExternalParents(cards, i) :: o < i * GRAPH_PAGE_SIZE < |cards|
    ensures forall o: nat :: o in ExternalParents(cards, i) <==> o < i * GRAPH_PAGE_SIZE && IsExternalParent(cards, i, o)
  {
    var earlier := UpTo(i * GRAPH_PAGE_SIZE);
    forall o: nat ensures o in earlier <==> o < i * GRAPH_PAGE_SIZE {
      if o < i * GRAPH_PAGE_SIZE {
        assert earlier[o] == o;
      }
    }
  }

  function DescriptorOf(g: GraphData, i: nat): PageDescriptor
    requires i < PageCount(|g.cards|)
  {
    var page := PageOf(g, i);
    PageDescriptor(i, page.ordinalStart, page.ordinalStart + |page.nodes| - 1, |page.nodes|, |page.edges|, Digest(page),
                   Merkle.Root(PageLeaves(g, i)))
  }

  function ManifestOf(g: GraphData): Manifest {
    var pages := seq(PageCount(|g.cards|), i requires 0 <= i < PageCount(|g.cards|) => DescriptorOf(g, i));
    var topology := Topology(g.projectId, g.rootNodeSha, |g.cards|, |g.edges|, pages);
    Manifest(g.checkpoint, topology, Digest(topology))
  }

  function OrdinalOf(cards: seq<Card>, sha: Sha): (r: Option<nat>)
    ensures r.Some? ==> r.value < |cards| && cards[r.value].identity.sha == sha
    ensures r.None? ==> forall k | 0 <= k < |cards| :: cards[k].identity.sha != sha
  {
    if cards == [] then None
    else if cards[|cards| - 1].identity.sha == sha then Some(|cards| - 1)
    else OrdinalOf(cards[..|cards| - 1], sha)
  }

  /** The proofs of an edge list's targets, or None when a target is not a card of the graph. */
  function TargetProofs(g: GraphData, edges: seq<Edge>): (r: Option<seq<IdentityProof>>)
    ensures r.Some? ==> |r.value| == |edges|
    ensures r.Some? ==> forall k | 0 <= k < |edges| ::
              OrdinalOf(g.cards, edges[k].targetSha).Some? && r.value[k] == ProofOf(g, OrdinalOf(g.cards, edges[k].targetSha).value)
    ensures r.None? <==> exists edge :: edge in edges && OrdinalOf(g.cards, edge.targetSha).None?
  {
    if edges == [] then Some([])
    else
      var last := edges[|edges| - 1];
      assert edges == edges[..|edges| - 1] + [last];
      var earlier := TargetProofs(g, edges[..|edges| - 1]);
      var ordinal := OrdinalOf(g.cards, last.targetSha);
      if earlier.None? || ordinal.None? then None else Some(earlier.value + [ProofOf(g, ordinal.value)])
  }

  function OutgoingEdges(g: GraphData, sha: Sha): seq<Edge> {
    Filter(g.edges, (edge: Edge) => edge.sourceSha == sha)
  }

  function ShardOf(g: GraphData, ordinal: nat): Option<NodeShard>
    requires ordinal < |g.cards|
  {
    var card := g.cards[ordinal];
    var parentOrdinal := card.identity.parentOrdinal;
    var outgoing := OutgoingEdges(g, card.identity.sha);
    var targets := TargetProofs(g, outgoing);
    if targets.None? || (parentOrdinal.Some? && parentOrdinal.value >= |g.cards|) then None
    else
      Some(NodeShard(g.checkpoint, g.projectId, card, ProofOf(g, ordinal),
                     if parentOrdinal.Some? then Some(ProofOf(g, parentOrdinal.value)) else None,
                     outgoing, targets.value,
                     Filter(g.activeRuns, (run: ActiveRun) => run.sourceNodeSha == card.identity.sha)))
  }

  // ------------------------------------------------------- what the tree gives

  lemma CardsDiffer(g: GraphData, i: nat, j: nat)
    requires IsTree(g) && i < |g.cards| && j < |g.cards| && g.cards[i].identity.sha == g.cards[j].identity.sha
    ensures i == j
  {
    assert CardShas(g.cards)[i] == CardShas(g.cards)[j];
  }

  lemma OrdinalOfCard(g: GraphData, i: nat)
    requires IsTree(g) && i < |g.cards|
    ensures OrdinalOf(g.cards, g.cards[i].identity.sha) == Some(i)
  {
    CardsDiffer(g, i, OrdinalOf(g.cards, g.cards[i].identity.sha).value);
  }

  lemma PageOfOrdinal(n: nat, ordinal: nat)
    requires ordinal < n
    ensures ordinal / GRAPH_PAGE_SIZE < PageCount(n)
    ensures ordinal / GRAPH_PAGE_SIZE * GRAPH_PAGE_SIZE <= ordinal < PageEnd(n, ordinal / GRAPH_PAGE_SIZE)
  {
  }

  /** The page at which an accepted ordinal lies, and the card there. */
  lemma CardOnPage(g: GraphData, i: nat, sha: Sha)
    requires IsTree(g) && i < PageCount(|g.cards|)
    ensures sha in CardShas(PageCards(g.cards, i)) <==>
            exists o :: i * GRAPH_PAGE_SIZE <= o < PageEnd(|g.cards|, i) && g.cards[o].identity.sha == sha
  {
    var nodes := PageCards(g.cards, i);
    if sha in CardShas(nodes) {
      var k :| 0 <= k < |nodes| && CardShas(nodes)[k] == sha;
      assert g.cards[i * GRAPH_PAGE_SIZE + k].identity.sha == sha;
    }
    if o :| i * GRAPH_PAGE_SIZE <= o < PageEnd(|g.cards|, i) && g.cards[o].identity.sha == sha {
      assert CardShas(nodes)[o - i * GRAPH_PAGE_SIZE] == sha;
    }
  }

  /** Where the edges into the cards of page `i` begin in the edge list, which has none for the root. */
  function EdgeStart(i: nat): nat {
    if i == 0 then 0 else i * GRAPH_PAGE_SIZE - 1
  }

  lemma PageEdges(g: GraphData, i: nat)
    requires IsTree(g) && i < PageCount(|g.cards|)
    ensures EdgeStart(i) <= PageEnd(|g.cards|, i) - 1 <= |g.edges|
    ensures EdgesInto(g.edges, PageCards(g.cards, i)) == g.edges[EdgeStart(i)..PageEnd(|g.cards|, i) - 1]
  {
    var nodes := PageCards(g.cards, i);
    forall k | 0 <= k < |g.edges|
      ensures g.edges[k].targetSha in CardShas(nodes) <==> EdgeStart(i) <= k < PageEnd(|g.cards|, i) - 1
    {
      CardOnPage(g, i, g.edges[k].targetSha);
      if o :| i * GRAPH_PAGE_SIZE <= o < PageEnd(|g.cards|, i) && g.cards[o].identity.sha == g.edges[k].targetSha {
        CardsDiffer(g, o, k + 1);
      }
    }
    FilterRange(g.edges, (edge: Edge) => edge.targetSha in CardShas(nodes), EdgeStart(i), PageEnd(|g.cards|, i) - 1);
  }

  /** The proof written for a card is the one its page's root accepts. */
  lemma WrittenProofHolds(g: GraphData, ordinal: nat)
    requires IsTree(g) && ordinal < |g.cards|
    ensures ProofHolds(ManifestOf(g).topology, ProofOf(g, ordinal))
  {
    var i, k := ordinal / GRAPH_PAGE_SIZE, ordinal % GRAPH_PAGE_SIZE;
    PageOfOrdinal(|g.cards|, ordinal);
    var leaves := PageLeaves(g, i);
    assert PageCards(g.cards, i)[k] == g.cards[ordinal];
    GraphPageProofsFit(|leaves|);
    MembershipIsExact(leaves, Leaf(IdentityLeaf(g.projectId, g.cards[ordinal].identity)), k, ProofOf(g, ordinal).siblings,
                      MAX_GRAPH_IDENTITY_PROOF_STEPS);
    assert ManifestOf(g).topology.pages[i] == DescriptorOf(g, i);
  }

  // ---------------------------------------------------------- pages are accepted

  lemma PageOrdinals(g: GraphData, i: nat)
    requires IsTree(g) && i < PageCount(|g.cards|)
    ensures PageOrdinalsAreValid(PageOf(g, i))
    ensures forall node | node in PageOf(g, i).nodes :: IdentityIsValid(node.identity, g.projectId)
  {
    var nodes := PageCards(g.cards, i);
    forall j, k | 0 <= j < k < |nodes| ensures CardShas(nodes)[j] != CardShas(nodes)[k] {
      assert CardShas(g.cards)[i * GRAPH_PAGE_SIZE + j] != CardShas(g.cards)[i * GRAPH_PAGE_SIZE + k];
    }
  }

  lemma EdgeHasParent(g: GraphData, k: nat)
    requires IsTree(g) && k < |g.edges|
    ensures g.edges[k].sourceSha == g.cards[k + 1].identity.lineage.parentSha != g.edges[k].targetSha
  {
    assert HangsFromEarlier(g.cards, k + 1);
    var o := g.cards[k + 1].identity.parentOrdinal.value;
    assert CardShas(g.cards)[o] != CardShas(g.cards)[k + 1];
  }

  lemma PageEdgesValid(g: GraphData, i: nat)
    requires IsTree(g) && i < PageCount(|g.cards|)
    ensures PageEdgesAreValid(PageOf(g, i))
  {
    PageEdges(g, i);
    var edges, start := PageOf(g, i).edges, EdgeStart(i);
    forall j, k | 0 <= j < k < |edges| ensures EdgeTargets(edges)[j] != EdgeTargets(edges)[k] {
      assert CardShas(g.cards)[start + j + 1] != CardShas(g.cards)[start + k + 1];
    }
    forall edge | edge in edges ensures edge.sourceSha != edge.targetSha {
      var k :| 0 <= k < |g.edges| && g.edges[k] == edge;
      EdgeHasParent(g, k);
    }
  }

  lemma PageProofOrdinals(g: GraphData, i: nat)
    requires i < PageCount(|g.cards|) && forall k | 0 <= k < |g.cards| :: g.cards[k].identity.ordinal == k
    ensures |PageOf(g, i).externalParents| == |ExternalParents(g.cards, i)|
    ensures ProofOrdinals(PageOf(g, i).externalParents) == ExternalParents(g.cards, i)
  {
    EarlierOrdinals(g.cards, i);
    var ordinals, proofs := ExternalParents(g.cards, i), PageOf(g, i).externalParents;
    forall k | 0 <= k < |proofs| ensures ProofOrdinals(proofs)[k] == ordinals[k] {
      assert ordinals[k] in ordinals;
    }
  }

  lemma ExternalParentsDiffer(cards: seq<Card>, i: nat)
    requires i < PageCount(|cards|)
    ensures Distinct(ExternalParents(cards, i))
  {
    FilterKeepsDistinct(UpTo(i * GRAPH_PAGE_SIZE), (o: nat) => IsExternalParent(cards, i, o));
  }

  lemma ExternalParentIsNeeded(g: GraphData, i: nat, o: nat)
    requires i < PageCount(|g.cards|) && o in ExternalParents(g.cards, i)
    ensures NeedsExternal(PageOf(g, i), o) && o < |g.cards|
  {
    EarlierOrdinals(g.cards, i);
    assert IsExternalParent(g.cards, i, o);
  }

  lemma ExternalProofHolds(g: GraphData, i: nat, o: nat)
    requires IsTree(g) && i < PageCount(|g.cards|) && o in ExternalParents(g.cards, i)
    ensures o < |g.cards| && IdentityIsValid(ProofOf(g, o).identity, g.projectId) && ProofHolds(ManifestOf(g).topology, ProofOf(g, o))
    ensures NeedsExternal(PageOf(g, i), ProofOf(g, o).identity.ordinal)
  {
    ExternalParentIsNeeded(g, i, o);
    WrittenProofHolds(g, o);
  }

  lemma PageProofs(g: GraphData, i: nat)
    requires IsTree(g) && i < PageCount(|g.cards|)
    ensures forall proof | proof in PageOf(g, i).externalParents ::
              && IdentityIsValid(proof.identity, g.projectId) && ProofHolds(ManifestOf(g).topology, proof)
              && NeedsExternal(PageOf(g, i), proof.identity.ordinal)
  {
    var ordinals, proofs := ExternalParents(g.cards, i), PageOf(g, i).externalParents;
    EarlierOrdinals(g.cards, i);
    forall proof | proof in proofs
      ensures IdentityIsValid(proof.identity, g.projectId) && ProofHolds(ManifestOf(g).topology, proof)
              && NeedsExternal(PageOf(g, i), proof.identity.ordinal)
    {
      var k :| 0 <= k < |proofs| && proofs[k] == proof;
      ExternalProofHolds(g, i, ordinals[k]);
    }
  }

  lemma CardEdge(g: GraphData, i: nat, o: nat)
    requires IsTree(g) && i < PageCount(|g.cards|) && i * GRAPH_PAGE_SIZE <= o < PageEnd(|g.cards|, i) && o > 0
    ensures g.edges[o - 1] in PageOf(g, i).edges
    ensures g.edges[o - 1].targetSha == g.cards[o].identity.sha && EdgeFits(g.edges[o - 1], g.cards[o].identity.lineage)
  {
    PageEdges(g, i);
    assert PageOf(g, i).edges[o - 1 - EdgeStart(i)] == g.edges[o - 1];
  }

  lemma CardParent(g: GraphData, i: nat, o: nat)
    requires IsTree(g) && i < PageCount(|g.cards|) && i * GRAPH_PAGE_SIZE <= o < PageEnd(|g.cards|, i) && o > 0
    ensures HangsFromEarlier(g.cards, o) && ParentFits(PageOf(g, i), g.cards[o])
  {
    assert HangsFromEarlier(g.cards, o);
    var page, card := PageOf(g, i), g.cards[o];
    var parentOrdinal := card.identity.parentOrdinal.value;
    if !OnPage(page, parentOrdinal) {
      assert PageCards(g.cards, i)[o - i * GRAPH_PAGE_SIZE] == card && card in PageCards(g.cards, i);
      assert IsExternalParent(g.cards, i, parentOrdinal);
      EarlierOrdinals(g.cards, i);
      var ordinals := ExternalParents(g.cards, i);
      var k :| 0 <= k < |ordinals| && ordinals[k] == parentOrdinal;
      assert page.externalParents[k] == ProofOf(g, parentOrdinal) && page.externalParents[k] in page.externalParents;
    }
  }

  lemma NoEdgeIntoRoot(g: GraphData, edges: seq<Edge>)
    requires IsTree(g) && forall edge | edge in edges :: edge in g.edges
    ensures forall edge | edge in edges :: edge.targetSha != g.cards[0].identity.sha
  {
    forall edge | edge in edges ensures edge.targetSha != g.cards[0].identity.sha {
      var j :| 0 <= j < |g.edges| && g.edges[j] == edge;
      assert CardShas(g.cards)[0] != CardShas(g.cards)[j + 1];
    }
  }

  lemma CardFits(g: GraphData, i: nat, k: nat)
    requires IsTree(g) && i < PageCount(|g.cards|) && k < |PageOf(g, i).nodes|
    ensures NodeFits(PageOf(g, i), PageOf(g, i).nodes[k])
  {
    var o := i * GRAPH_PAGE_SIZE + k;
    assert PageOf(g, i).nodes[k] == g.cards[o];
    if o > 0 {
      CardEdge(g, i, o);
      CardParent(g, i, o);
    } else {
      NoEdgeIntoRoot(g, PageOf(g, i).edges);
    }
  }

  lemma PageCardsFit(g: GraphData, i: nat)
    requires IsTree(g) && i < PageCount(|g.cards|)
    ensures forall k | 0 <= k < |PageOf(g, i).nodes| :: NodeFits(PageOf(g, i), PageOf(g, i).nodes[k])
  {
    forall k | 0 <= k < |PageOf(g, i).nodes| ensures NodeFits(PageOf(g, i), PageOf(g, i).nodes[k]) {
      CardFits(g, i, k);
    }
  }

  /** Every page written for a tree is accepted against the manifest written for it. */
  lemma WrittenPageHolds(g: GraphData, i: nat)
    requires IsTree(g) && i < PageCount(|g.cards|)
    ensures PageTopologyHolds(ManifestOf(g), PageOf(g, i))
  {
    PageOrdinals(g, i);
    PageEdgesValid(g, i);
    PageProofOrdinals(g, i);
    ExternalParentsDiffer(g.cards, i);
    PageProofs(g, i);
    PageCardsFit(g, i);
    assert PageIsValid(PageOf(g, i));
    assert ManifestOf(g).topology.pages[i] == DescriptorOf(g, i);
  }

  // ------------------------------------------------------- the manifest is accepted

  lemma {:induction false} CountsAddUp(g: GraphData, pages: seq<PageDescriptor>)
    requires IsTree(g) && |pages| <= PageCount(|g.cards|)
    requires forall i | 0 <= i < |pages| :: pages[i] == DescriptorOf(g, i)
    ensures NodeCountSum(pages) == if pages == [] then 0 else PageEnd(|g.cards|, |pages| - 1)
    ensures EdgeCountSum(pages) == if pages == [] then 0 else PageEnd(|g.cards|, |pages| - 1) - 1
  {
    if pages != [] {
      CountsAddUp(g, pages[..|pages| - 1]);
      PageEdges(g, |pages| - 1);
    }
  }

  /** The manifest written for a tree passes its own count rules. */
  lemma WrittenManifestHolds(g: GraphData)
    requires IsTree(g)
    ensures ManifestIsValid(ManifestOf(g))
  {
    var pages := ManifestOf(g).topology.pages;
    CountsAddUp(g, pages);
    assert pages != [] && PageEnd(|g.cards|, |pages| - 1) == |g.cards|;
    forall i | 0 <= i < |pages| ensures DescriptorIsCanonical(ManifestOf(g).topology, i) {
      assert pages[i] == DescriptorOf(g, i);
    }
  }

  // ----------------------------------------------------- Node shards are accepted

  lemma OutgoingTarget(g: GraphData, ordinal: nat, edge: Edge) returns (target: nat)
    requires IsTree(g) && ordinal < |g.cards| && edge in OutgoingEdges(g, g.cards[ordinal].identity.sha)
    ensures target < |g.cards| && OrdinalOf(g.cards, edge.targetSha) == Some(target)
    ensures edge.targetSha == g.cards[target].identity.sha && edge.targetSha != edge.sourceSha
    ensures IsChildProof(g.cards[ordinal], edge, ProofOf(g, target))
  {
    var k: nat :| k < |g.edges| && g.edges[k] == edge;
    target := k + 1;
    EdgeHasParent(g, k);
    OrdinalOfCard(g, target);
    assert HangsFromEarlier(g.cards, target);
    CardsDiffer(g, g.cards[target].identity.parentOrdinal.value, ordinal);
  }

  lemma OutgoingEdgesDiffer(g: GraphData, sha: Sha)
    requires IsTree(g)
    ensures Distinct(EdgeTargets(OutgoingEdges(g, sha)))
  {
    TargetsDiffer(g);
    FilterKeepsDistinctTargets(g.edges, (edge: Edge) => edge.sourceSha == sha);
  }

  lemma TargetsDiffer(g: GraphData)
    requires IsTree(g)
    ensures Distinct(EdgeTargets(g.edges))
  {
    forall j, k | 0 <= j < k < |g.edges| ensures EdgeTargets(g.edges)[j] != EdgeTargets(g.edges)[k] {
      assert CardShas(g.cards)[j + 1] != CardShas(g.cards)[k + 1];
    }
  }

  lemma {:induction false} FilterKeepsDistinctTargets(edges: seq<Edge>, p: Edge -> bool)
    requires Distinct(EdgeTargets(edges))
    ensures Distinct(EdgeTargets(Filter(edges, p)))
  {
    if edges != [] {
      assert EdgeTargets(edges)[1..] == EdgeTargets(edges[1..]);
      FilterKeepsDistinctTargets(edges[1..], p);
      forall edge | edge in Filter(edges[1..], p) ensures edge.targetSha != edges[0].targetSha {
        var k :| 0 <= k < |edges[1..]| && edges[1..][k] == edge;
        assert EdgeTargets(edges)[0] != EdgeTargets(edges)[k + 1];
      }
    }
  }

  /** Every outgoing edge of a card leads to a card, so its target proofs can be written. */
  lemma TargetsAreProven(g: GraphData, ordinal: nat)
    requires IsTree(g) && ordinal < |g.cards|
    ensures var edges := OutgoingEdges(g, g.cards[ordinal].identity.sha);
            && TargetProofs(g, edges).Some?
            && forall k | 0 <= k < |edges| ::
                 && TargetProofs(g, edges).value[k].identity.sha == edges[k].targetSha
                 && edges[k].targetSha != edges[k].sourceSha
                 && IsChildProof(g.cards[ordinal], edges[k], TargetProofs(g, edges).value[k])
                 && ProofHolds(ManifestOf(g).topology, TargetProofs(g, edges).value[k])
  {
    var edges := OutgoingEdges(g, g.cards[ordinal].identity.sha);
    forall edge | edge in edges ensures OrdinalOf(g.cards, edge.targetSha).Some? {
      var target := OutgoingTarget(g, ordinal, edge);
    }
    var proofs := TargetProofs(g, edges).value;
    forall k | 0 <= k < |edges|
      ensures proofs[k].identity.sha == edges[k].targetSha && edges[k].targetSha != edges[k].sourceSha
      ensures IsChildProof(g.cards[ordinal], edges[k], proofs[k]) && ProofHolds(ManifestOf(g).topology, proofs[k])
    {
      var target := OutgoingTarget(g, ordinal, edges[k]);
      WrittenProofHolds(g, target);
    }
  }

  lemma ShardTargets(g: GraphData, ordinal: nat, shard: NodeShard)
    requires ordinal < |g.cards| && ShardOf(g, ordinal) == Some(shard)
    ensures TargetProofs(g, OutgoingEdges(g, g.cards[ordinal].identity.sha)) == Some(shard.outgoingTargetProofs)
    ensures |shard.outgoingTargetProofs| == |OutgoingEdges(g, g.cards[ordinal].identity.sha)|
  {
  }

  lemma WrittenTargetsHold(g: GraphData, ordinal: nat, shard: NodeShard)
    requires IsTree(g) && ordinal < |g.cards| && ShardOf(g, ordinal) == Some(shard)
    ensures forall proof | proof in shard.outgoingTargetProofs :: ProofHolds(ManifestOf(g).topology, proof)
  {
    TargetsAreProven(g, ordinal);
    ShardTargets(g, ordinal, shard);
    var proofs := shard.outgoingTargetProofs;
    assert forall k | 0 <= k < |proofs| :: ProofHolds(ManifestOf(g).topology, proofs[k]);
  }

  lemma WrittenParentHolds(g: GraphData, ordinal: nat)
    requires IsTree(g) && ordinal < |g.cards|
    ensures ShardOf(g, ordinal).Some?
    ensures ShardOf(g, ordinal).value.parentProof.Some? ==> ProofHolds(ManifestOf(g).topology, ShardOf(g, ordinal).value.parentProof.value)
    ensures ordinal == 0 <==> ShardOf(g, ordinal).value.node.identity.ordinal == 0
  {
    TargetsAreProven(g, ordinal);
    if ordinal > 0 {
      assert HangsFromEarlier(g.cards, ordinal);
      WrittenProofHolds(g, g.cards[ordinal].identity.parentOrdinal.value);
    }
  }

  /** Every Node shard written for a tree is accepted against the manifest written for it. */
  lemma WrittenShardHolds(g: GraphData, ordinal: nat)
    requires IsTree(g) && ordinal < |g.cards|
    ensures ShardOf(g, ordinal).Some? && NodeTopologyHolds(ManifestOf(g), ShardOf(g, ordinal).value)
  {
    WrittenParentHolds(g, ordinal);
    WrittenProofHolds(g, ordinal);
    WrittenShardShape(g, ordinal, ShardOf(g, ordinal).value);
    WrittenTargetsHold(g, ordinal, ShardOf(g, ordinal).value);
  }

  lemma WrittenShardShape(g: GraphData, ordinal: nat, shard: NodeShard)
    requires IsTree(g) && ordinal < |g.cards| && ShardOf(g, ordinal) == Some(shard)
    ensures ShardShapeIsValid(shard)
  {
    var edges, proofs := shard.outgoingEdges, shard.outgoingTargetProofs;
    TargetsAreProven(g, ordinal);
    OutgoingEdgesDiffer(g, g.cards[ordinal].identity.sha);
    assert ProofShas(proofs) == EdgeTargets(edges);
    forall edge | edge in edges
      ensures edge.targetSha != shard.node.identity.sha
      ensures exists proof :: proof in proofs && IsChildProof(shard.node, edge, proof) && IdentityIsValid(proof.identity, shard.projectId)
    {
      var k :| 0 <= k < |edges| && edges[k] == edge;
      assert proofs[k] in proofs;
    }
    if ordinal > 0 {
      assert HangsFromEarlier(g.cards, ordinal);
    }
  }

  /** The shards of a page's cards, in card order. */
  ghost predicate AreShardsOf(g: GraphData, i: nat, locators: seq<NodeShard>)
    requires i < PageCount(|g.cards|)
  {
    && |locators| == |PageCards(g.cards, i)|
    && forall k | 0 <= k < |locators| :: Some(locators[k]) == ShardOf(g, i * GRAPH_PAGE_SIZE + k)
  }

  lemma AlignedLocatorsHold(manifest: Manifest, page: Page, locators: seq<NodeShard>)
    requires PageTopologyHolds(manifest, page) && |locators| == |page.nodes|
    requires forall k | 0 <= k < |locators| :: locators[k].node == page.nodes[k] && NodeTopologyHolds(manifest, locators[k])
    ensures LocatorsHold(manifest, page, locators)
  {
    assert PageIsValid(page) && Distinct(CardShas(page.nodes));
    assert ShardShas(locators) == CardShas(page.nodes);
    forall node | node in page.nodes
      ensures exists locator :: locator in locators && locator.node == node && NodeTopologyHolds(manifest, locator)
    {
      var k :| 0 <= k < |page.nodes| && page.nodes[k] == node;
      assert locators[k] in locators;
    }
  }

  lemma WrittenShardAt(g: GraphData, i: nat, k: nat, shard: NodeShard)
    requires IsTree(g) && i < PageCount(|g.cards|) && k < |PageOf(g, i).nodes|
    requires Some(shard) == ShardOf(g, i * GRAPH_PAGE_SIZE + k)
    ensures shard.node == PageOf(g, i).nodes[k] && NodeTopologyHolds(ManifestOf(g), shard)
  {
    ShardShowsCard(g, i, k, shard);
    WrittenShardHolds(g, i * GRAPH_PAGE_SIZE + k);
  }

  lemma ShardShowsCard(g: GraphData, i: nat, k: nat, shard: NodeShard)
    requires i < PageCount(|g.cards|) && k < |PageOf(g, i).nodes| && Some(shard) == ShardOf(g, i * GRAPH_PAGE_SIZE + k)
    ensures shard.node == PageOf(g, i).nodes[k]
  {
  }

  lemma WrittenShardsHold(g: GraphData, i: nat, locators: seq<NodeShard>)
    requires IsTree(g) && i < PageCount(|g.cards|) && AreShardsOf(g, i, locators)
    ensures |locators| == |PageOf(g, i).nodes|
    ensures forall k | 0 <= k < |locators| :: locators[k].node == PageOf(g, i).nodes[k] && NodeTopologyHolds(ManifestOf(g), locators[k])
  {
    forall k | 0 <= k < |locators| ensures locators[k].node == PageOf(g, i).nodes[k] && NodeTopologyHolds(ManifestOf(g), locators[k]) {
      WrittenShardAt(g, i, k, locators[k]);
    }
  }

  /** The written shards are accepted as the locators of the written page. */
  lemma WrittenLocatorsHold(g: GraphData, i: nat, locators: seq<NodeShard>)
    requires IsTree(g) && i < PageCount(|g.cards|) && AreShardsOf(g, i, locators)
    ensures LocatorsHold(ManifestOf(g), PageOf(g, i), locators)
  {
    WrittenPageHolds(g, i);
    WrittenShardsHold(g, i, locators);
    AlignedLocatorsHold(ManifestOf(g), PageOf(g, i), locators);
  }
}

/** Reading the Graph from stored files, all of them checked first: what a request can answer, whatever the files hold. */
module GraphLoading {
  import opened Prelude
  import opened Protocol
  import opened Engine
  import opened NodeGraph
  import opened Replay
  import opened Lists
  import opened Merkle
  import opened GraphPages
  import opened GraphValidators
  import opened Materialize
  import opened GraphMaterializer
  import opened GraphReading
  import opened GraphContents

  /** The files at a state head, as far as they decode. */
  datatype StoredGraph = StoredGraph(manifest: Option<Manifest>, pages: map<nat, Page>, shards: map<Sha, NodeShard>)

  /** What the catalog at that head says of the Project. */
  datatype Catalog = Catalog(headSha: Sha, projectId: ProjectId, rootNodeSha: Sha, checkpoint: string, nodeCount: nat)

  datatype Cursor = Cursor(headSha: Sha, offset: nat)

  datatype ReadCode = InvalidRequest | IntegrityFailure

  type ReadResult<+T> = Result<T, ReadCode>

  // ------------------------------------------------------------------- the checks

  /** `graphManifestIntegrityError`. */
  predicate ManifestFits(catalog: Catalog, manifest: Manifest) {
    && manifest.topology.projectId == catalog.projectId && manifest.topology.rootNodeSha == catalog.rootNodeSha
    && manifest.checkpoint == catalog.checkpoint
    && manifest.topology.nodeCount == catalog.nodeCount && manifest.topology.edgeCount == manifest.topology.nodeCount - 1
  }

  predicate PageFits(catalog: Catalog, manifest: Manifest, page: Page, index: nat) {
    && index < |manifest.topology.pages|
    && var descriptor := manifest.topology.pages[index];
    && page.index == index && page.projectId == catalog.projectId && page.checkpoint == manifest.checkpoint
    && |page.nodes| == descriptor.nodeCount && |page.edges| == descriptor.edgeCount && Digest(page) == descriptor.digest
  }

  /** `graphNodeIntegrityError`. */
  predicate ShardFits(catalog: Catalog, manifest: Manifest, shard: NodeShard, sha: Sha) {
    var identity := shard.node.identity;
    && shard.projectId == catalog.projectId && identity.sha == sha && shard.checkpoint == manifest.checkpoint
    && identity.ordinal < manifest.topology.nodeCount && identity.managedRef == ManagedNodeRef(catalog.projectId, sha)
    && (identity.ordinal == 0 <==> identity.kind.RootCard?)
    && (identity.kind.RootCard? ==> identity.sha == manifest.topology.rootNodeSha)
  }

  /** The card's own shard is there and in order. */
  predicate IsLocated(catalog: Catalog, stored: StoredGraph, manifest: Manifest, sha: Sha) {
    && sha in stored.shards && ShardFits(catalog, manifest, stored.shards[sha], sha) && NodeTopologyHolds(manifest, stored.shards[sha])
  }

  predicate AllLocated(catalog: Catalog, stored: StoredGraph, manifest: Manifest, shas: seq<Sha>) {
    forall k | 0 <= k < |shas| :: IsLocated(catalog, stored, manifest, shas[k])
  }

  function LocatorsAt(stored: StoredGraph, shas: seq<Sha>): (r: seq<NodeShard>)
    requires forall k | 0 <= k < |shas| :: shas[k] in stored.shards
    ensures |r| == |shas| && forall k | 0 <= k < |r| :: r[k] == stored.shards[shas[k]]
  {
    seq(|shas|, k requires 0 <= k < |shas| => stored.shards[shas[k]])
  }

  predicate ManifestLoads(catalog: Catalog, stored: StoredGraph) {
    stored.manifest.Some? && ManifestIsValid(stored.manifest.value) && ManifestFits(catalog, stored.manifest.value)
  }

  predicate PageLoads(catalog: Catalog, stored: StoredGraph, index: nat) {
    && ManifestLoads(catalog, stored) && index in stored.pages
    && var manifest, page := stored.manifest.value, stored.pages[index];
    && PageFits(catalog, manifest, page, index) && PageTopologyHolds(manifest, page) && Distinct(CardShas(page.nodes))
    && AllLocated(catalog, stored, manifest, CardShas(page.nodes))
    && LocatorsHold(manifest, page, LocatorsAt(stored, CardShas(page.nodes)))
  }

  method LoadLocators(catalog: Catalog, stored: StoredGraph, manifest: Manifest, shas: seq<Sha>) returns (r: Option<seq<NodeShard>>)
    ensures r.Some? <==> AllLocated(catalog, stored, manifest, shas)
    ensures r.Some? ==> r.value == LocatorsAt(stored, shas)
  {
    var locators: seq<NodeShard> := [];
    for k := 0 to |shas|
      invariant |locators| == k
      invariant forall j | 0 <= j < k :: IsLocated(catalog, stored, manifest, shas[j]) && locators[j] == stored.shards[shas[j]]
    {
      if shas[k] !in stored.shards {
        return None;
      }
      var locator := stored.shards[shas[k]];
      if !ShardFits(catalog, manifest, locator, shas[k]) {
        return None;
      }
      var holds := ValidateGraphNodeTopology(manifest, locator);
      if !holds {
        return None;
      }
      locators := locators + [locator];
    }
    return Some(locators);
  }

  /** `#loadGraphWindow`, for the one page a request needs. */
  method LoadGraphPage(catalog: Catalog, stored: StoredGraph, index: nat) returns (r: Option<Page>)
    ensures r == if PageLoads(catalog, stored, index) then Some(stored.pages[index]) else None
  {
    if stored.manifest.None? || !ManifestIsValid(stored.manifest.value) || !ManifestFits(catalog, stored.manifest.value) {
      return None;
    }
    var manifest := stored.manifest.value;
    if index !in stored.pages || !PageFits(catalog, manifest, stored.pages[index], index) {
      return None;
    }
    var page := stored.pages[index];
    var holds := ValidateGraphPageTopology(manifest, page);
    if !holds || !Distinct(CardShas(page.nodes)) {
      return None;
    }
    var locators := LoadLocators(catalog, stored, manifest, CardShas(page.nodes));
    if locators.None? {
      return None;
    }
    var located := ValidateGraphPageNodeLocators(manifest, page, locators.value);
    return if located then Some(page) else None;
  }

  // ------------------------------------------------------------------ the request

  predicate CursorFits(catalog: Catalog, cursor: Option<Cursor>) {
    cursor.Some? ==> cursor.value.headSha == catalog.headSha && cursor.value.offset <= MAX_SAFE_INTEGER
  }

  function OffsetOf(cursor: Option<Cursor>): nat {
    if cursor.None? then 0 else cursor.value.offset
  }

  /** What a request answers. */
  function Answer(catalog: Catalog, stored: StoredGraph, limit: int, cursor: Option<Cursor>): ReadResult<GraphWindow> {
    var offset := OffsetOf(cursor);
    if !CursorFits(catalog, cursor) then Err(InvalidRequest)
    else if !PageLoads(catalog, stored, offset / GRAPH_PAGE_SIZE) || offset > catalog.nodeCount then Err(IntegrityFailure)
    else Ok(WindowOn(stored.pages[offset / GRAPH_PAGE_SIZE], catalog.nodeCount, offset, limit))
  }

  /** `#readGraph`. */
  method ReadStoredGraph(catalog: Catalog, stored: StoredGraph, limit: int, cursor: Option<Cursor>) returns (r: ReadResult<GraphWindow>)
    ensures r == Answer(catalog, stored, limit, cursor)
  {
    if !CursorFits(catalog, cursor) {
      return Err(InvalidRequest);
    }
    var offset := OffsetOf(cursor);
    var page := LoadGraphPage(catalog, stored, offset / GRAPH_PAGE_SIZE);
    if page.None? || offset > stored.manifest.value.topology.nodeCount {
      return Err(IntegrityFailure);
    }
    return Ok(WindowOn(page.value, stored.manifest.value.topology.nodeCount, offset, limit));
  }

  // ----------------------------------------------- whatever loads was written so

  /** Under the written manifest a stored page loads only if it is the written one: the manifest names its digest. */
  lemma LoadedPageIsWritten(g: GraphData, catalog: Catalog, stored: StoredGraph, index: nat)
    requires stored.manifest == Some(ManifestOf(g)) && PageLoads(catalog, stored, index)
    ensures index < PageCount(|g.cards|) && stored.pages[index] == PageOf(g, index)
  {
    assert ManifestOf(g).topology.pages[index] == DescriptorOf(g, index);
  }

  lemma EmptyWindow(g: GraphData, limit: int)
    requires IsTree(g) && |g.cards| / GRAPH_PAGE_SIZE < PageCount(|g.cards|)
    ensures WindowOn(PageOf(g, |g.cards| / GRAPH_PAGE_SIZE), |g.cards|, |g.cards|, limit) == GraphWindow([], [], [], None)
  {
    var page := PageOf(g, |g.cards| / GRAPH_PAGE_SIZE);
    FilterNone(page.nodes, (node: Card) => |g.cards| <= node.identity.ordinal < |g.cards|);
    FilterNone(page.edges, (edge: Edge) => edge.targetSha in CardShas([]));
    FilterNone(page.activeRuns, (run: ActiveRun) => run.sourceNodeSha in CardShas([]));
  }

  /**
   * Whatever the other files hold, a request under the written manifest is refused or answers the very stretch of the
   * graph it asked for: its cards, the edges into them, the Runs from them, and where to continue.
   */
  lemma AnswersAreTheGraph(g: GraphData, catalog: Catalog, stored: StoredGraph, limit: int, cursor: Option<Cursor>)
    requires IsTree(g) && stored.manifest == Some(ManifestOf(g)) && Answer(catalog, stored, limit, cursor).Ok?
    ensures && catalog.projectId == g.projectId && catalog.rootNodeSha == g.rootNodeSha && catalog.checkpoint == g.checkpoint
            && catalog.nodeCount == |g.cards| && (cursor.Some? ==> cursor.value.headSha == catalog.headSha)
    ensures var offset, window := if cursor.None? then 0 else cursor.value.offset, Answer(catalog, stored, limit, cursor).value;
            && offset <= |g.cards|
            && if offset == |g.cards| then window == GraphWindow([], [], [], None) else IsStretch(g, offset, limit, window)
  {
    var offset := OffsetOf(cursor);
    LoadedPageIsWritten(g, catalog, stored, offset / GRAPH_PAGE_SIZE);
    if offset == |g.cards| {
      EmptyWindow(g, limit);
    } else {
      WindowIsStretch(g, offset, limit);
    }
  }

  // --------------------------------------------------- and whatever was written loads

  function StoredOf(files: GraphFiles): StoredGraph {
    StoredGraph(Some(files.manifest), map i: nat | i < |files.pages| :: files.pages[i], files.shards)
  }

  predicate CatalogFits(catalog: Catalog, g: GraphData) {
    && catalog.projectId == g.projectId && catalog.rootNodeSha == g.rootNodeSha && catalog.checkpoint == g.checkpoint
    && catalog.nodeCount == |g.cards|
  }

  lemma WrittenShardFits(g: GraphData, catalog: Catalog, files: GraphFiles, o: nat)
    requires IsTree(g) && AreFilesOf(g, files) && CatalogFits(catalog, g) && o < |g.cards|
    ensures IsLocated(catalog, StoredOf(files), files.manifest, g.cards[o].identity.sha)
  {
    FileOfOrdinal(g, files, o);
    WrittenShardHolds(g, o);
    if o > 0 {
      assert HangsFromEarlier(g.cards, o);
    }
  }

  lemma WrittenPageIsLocated(g: GraphData, catalog: Catalog, files: GraphFiles, index: nat)
    requires IsTree(g) && AreFilesOf(g, files) && CatalogFits(catalog, g) && index < PageCount(|g.cards|)
    ensures AllLocated(catalog, StoredOf(files), files.manifest, CardShas(PageCards(g.cards, index)))
  {
    var nodes := PageCards(g.cards, index);
    forall k | 0 <= k < |nodes| ensures IsLocated(catalog, StoredOf(files), files.manifest, CardShas(nodes)[k]) {
      WrittenShardFits(g, catalog, files, index * GRAPH_PAGE_SIZE + k);
    }
  }

  lemma WrittenPageFits(g: GraphData, catalog: Catalog, index: nat)
    requires IsTree(g) && CatalogFits(catalog, g) && index < PageCount(|g.cards|)
    ensures ManifestIsValid(ManifestOf(g)) && ManifestFits(catalog, ManifestOf(g))
    ensures PageFits(catalog, ManifestOf(g), PageOf(g, index), index) && Distinct(CardShas(PageOf(g, index).nodes))
  {
    WrittenManifestHolds(g);
    PageOrdinals(g, index);
    assert ManifestOf(g).topology.pages[index] == DescriptorOf(g, index);
  }

  lemma WrittenPageIsChecked(g: GraphData, files: GraphFiles, index: nat)
    requires IsTree(g) && AreFilesOf(g, files) && index < PageCount(|g.cards|)
    requires forall k | 0 <= k < |PageOf(g, index).nodes| :: CardShas(PageOf(g, index).nodes)[k] in files.shards
    ensures PageTopologyHolds(files.manifest, PageOf(g, index))
    ensures LocatorsHold(files.manifest, PageOf(g, index), LocatorsAt(StoredOf(files), CardShas(PageOf(g, index).nodes)))
  {
    var page := PageOf(g, index);
    assert files.pages[index] == page && page in files.pages;
    WrittenPagesAccepted(g, files, page);
    assert LocatorsAt(StoredOf(files), CardShas(page.nodes)) == LocatorsOf(files, page);
  }

  /** Every page of a written graph loads. */
  lemma WrittenPageLoads(g: GraphData, catalog: Catalog, files: GraphFiles, index: nat)
    requires IsTree(g) && AreFilesOf(g, files) && CatalogFits(catalog, g) && index < PageCount(|g.cards|)
    ensures PageLoads(catalog, StoredOf(files), index) && StoredOf(files).pages[index] == PageOf(g, index)
  {
    WrittenPageFits(g, catalog, index);
    WrittenPageIsLocated(g, catalog, files, index);
    WrittenPageIsChecked(g, files, index);
  }

  lemma WrittenGraphAnswers(g: GraphData, catalog: Catalog, files: GraphFiles, limit: int, cursor: Option<Cursor>)
    requires IsTree(g) && AreFilesOf(g, files) && CatalogFits(catalog, g)
    requires CursorFits(catalog, cursor) && OffsetOf(cursor) < |g.cards|
    ensures Answer(catalog, StoredOf(files), limit, cursor) == Ok(ReadGraph(g, OffsetOf(cursor), limit))
  {
    PageOfOrdinal(|g.cards|, OffsetOf(cursor));
    WrittenPageLoads(g, catalog, files, OffsetOf(cursor) / GRAPH_PAGE_SIZE);
  }

  /** The catalog names this very graph, and the cursor, made for this head, points into a page of it. */
  ghost predicate MayAnswer(g: GraphData, catalog: Catalog, cursor: Option<Cursor>) {
    && catalog.projectId == g.projectId && catalog.rootNodeSha == g.rootNodeSha && catalog.checkpoint == g.checkpoint
    && catalog.nodeCount == |g.cards|
    && match cursor
       case None => |g.cards| > 0
       case Some(c) =>
         c.headSha == catalog.headSha && c.offset <= 9007199254740991 && c.offset <= |g.cards| && c.offset / 300 * 300 < |g.cards|
  }

  lemma AnswerMeaning(catalog: Catalog, stored: StoredGraph, limit: int, cursor: Option<Cursor>)
    ensures Answer(catalog, stored, limit, cursor).Ok? <==>
            CursorFits(catalog, cursor) && PageLoads(catalog, stored, OffsetOf(cursor) / GRAPH_PAGE_SIZE) && OffsetOf(cursor) <= catalog.nodeCount
    ensures Answer(catalog, stored, limit, cursor) == Err(InvalidRequest) <==>
            cursor.Some? && (cursor.value.headSha != catalog.headSha || cursor.value.offset > 9007199254740991)
  {
  }

  lemma WrittenPageLoadsExactly(g: GraphData, catalog: Catalog, files: GraphFiles, index: nat)
    requires IsTree(g) && AreFilesOf(g, files)
    ensures PageLoads(catalog, StoredOf(files), index) <==> CatalogFits(catalog, g) && index * 300 < |g.cards|
  {
    if PageLoads(catalog, StoredOf(files), index) {
      LoadedPageIsWritten(g, catalog, StoredOf(files), index);
    }
    if CatalogFits(catalog, g) && index < PageCount(|g.cards|) {
      WrittenPageLoads(g, catalog, files, index);
    }
  }

  lemma MayAnswerMeaning(g: GraphData, catalog: Catalog, cursor: Option<Cursor>)
    requires g.cards != []
    ensures MayAnswer(g, catalog, cursor) <==>
            && CatalogFits(catalog, g) && CursorFits(catalog, cursor) && OffsetOf(cursor) / GRAPH_PAGE_SIZE * 300 < |g.cards|
            && OffsetOf(cursor) <= catalog.nodeCount
  {
  }

  /** A request for written files is answered exactly then. A cursor of another head is an invalid request. */
  lemma AnsweredExactly(g: GraphData, catalog: Catalog, files: GraphFiles, limit: int, cursor: Option<Cursor>)
    requires IsTree(g) && AreFilesOf(g, files)
    ensures Answer(catalog, StoredOf(files), limit, cursor).Ok? <==> MayAnswer(g, catalog, cursor)
    ensures Answer(catalog, StoredOf(files), limit, cursor) == Err(InvalidRequest) <==>
            cursor.Some? && (cursor.value.headSha != catalog.headSha || cursor.value.offset > 9007199254740991)
  {
    AnswerMeaning(catalog, StoredOf(files), limit, cursor);
    WrittenPageLoadsExactly(g, catalog, files, OffsetOf(cursor) / GRAPH_PAGE_SIZE);
    MayAnswerMeaning(g, catalog, cursor);
  }

  /** Everything read by following the cursors of the answers. */
  function FollowAnswers(catalog: Catalog, stored: StoredGraph, limit: int, cursor: Option<Cursor>): ReadResult<(seq<Card>, seq<Edge>)>
    decreases catalog.nodeCount - OffsetOf(cursor)
  {
    var window :- Answer(catalog, stored, limit, cursor);
    if window.next.None? || window.next.value <= OffsetOf(cursor) then Ok((window.nodes, window.edges))
    else
      var rest :- FollowAnswers(catalog, stored, limit, Some(Cursor(catalog.headSha, window.next.value)));
      Ok((window.nodes + rest.0, window.edges + rest.1))
  }

  lemma FollowingStep(catalog: Catalog, stored: StoredGraph, limit: int, cursor: Option<Cursor>, window: GraphWindow)
    requires Answer(catalog, stored, limit, cursor) == Ok(window)
    ensures FollowAnswers(catalog, stored, limit, cursor)
            == if window.next.None? || window.next.value <= OffsetOf(cursor) then Ok((window.nodes, window.edges))
               else match FollowAnswers(catalog, stored, limit, Some(Cursor(catalog.headSha, window.next.value)))
                    case Ok(rest) => Ok((window.nodes + rest.0, window.edges + rest.1))
                    case Err(code) => Err(code)
  {
  }

  lemma {:induction false} FollowingAnswersIsFollowing(g: GraphData, catalog: Catalog, files: GraphFiles, limit: int, cursor: Option<Cursor>)
    requires IsTree(g) && AreFilesOf(g, files) && CatalogFits(catalog, g) && |g.cards| <= MAX_SAFE_INTEGER
    requires CursorFits(catalog, cursor) && OffsetOf(cursor) < |g.cards|
    ensures FollowAnswers(catalog, StoredOf(files), limit, cursor) == Ok(FollowGraph(g, OffsetOf(cursor), limit))
    decreases |g.cards| - OffsetOf(cursor)
  {
    var offset := OffsetOf(cursor);
    var window, end := ReadGraph(g, offset, limit), WindowEnd(g, offset, limit);
    WrittenGraphAnswers(g, catalog, files, limit, cursor);
    FollowingStep(catalog, StoredOf(files), limit, cursor, window);
    NextOrdinal(g, offset, limit, window);
    if end < |g.cards| {
      FollowingAnswersIsFollowing(g, catalog, files, limit, Some(Cursor(catalog.headSha, end)));
    }
  }

  function CatalogOf(state: ProjectState, p: Project, checkpoint: string, headSha: Sha): Catalog {
    Catalog(headSha, p.id, p.rootNodeSha, checkpoint, |NodesOf(state.nodes, p.id)|)
  }

  /**
   * End to end, from events to answers: for every one-Project state that some stream replays to, and every way its Graph
   * files can have been written, no request is refused, and following the cursors from the first request on lists the
   * card of every Node and the edge into every child once, in the order of registration.
   */
  lemma ReplayedGraphIsReadWhole(state: ProjectState, integrity: IntegrityBoundary, p: Project, checkpoint: string, display: Display,
                                 files: GraphFiles, headSha: Sha, limit: int) returns (cards: seq<Card>, edges: seq<Edge>)
    requires Reachable(state, integrity) && state.projects == [p] && |state.nodes| <= MAX_SAFE_INTEGER
    requires AreFilesOf(DataOf(state, p, checkpoint, display), files)
    ensures FollowAnswers(CatalogOf(state, p, checkpoint, headSha), StoredOf(files), limit, None) == Ok((cards, edges))
    ensures |cards| == |state.nodes| && forall o | 0 <= o < |cards| :: IsCardOf(state, o, cards[o], display)
    ensures ListsExactly(state.nodes, (n: Node) => !n.origin.Root?, ShowsEdge(state, display), edges)
  {
    var g, catalog := DataOf(state, p, checkpoint, display), CatalogOf(state, p, checkpoint, headSha);
    ReachableGraphIsTree(state, integrity, p, checkpoint, display);
    FollowingAnswersIsFollowing(g, catalog, files, limit, None);
    GraphCursorsCover(g, 0, limit);
    assert g.cards[0..] == g.cards && g.edges[0..] == g.edges;
    cards, edges := g.cards, g.edges;
    AllAreShown(state, integrity, p, checkpoint, display);
  }

  lemma AllAreShown(state: ProjectState, integrity: IntegrityBoundary, p: Project, checkpoint: string, display: Display)
    requires Reachable(state, integrity) && state.projects == [p]
    ensures var g := DataOf(state, p, checkpoint, display);
            && |g.cards| == |state.nodes| && (forall o | 0 <= o < |g.cards| :: IsCardOf(state, o, g.cards[o], display))
            && ListsExactly(state.nodes, (n: Node) => !n.origin.Root?, ShowsEdge(state, display), g.edges)
  {
    ReachableIsShowable(state, integrity, p, checkpoint, display);
    EdgesAreListed(state, state.nodes, display);
    forall o | 0 <= o < |state.nodes| ensures IsCardOf(state, o, DataOf(state, p, checkpoint, display).cards[o], display) {
      CardShows(state, o, display);
    }
  }
}

/** Reading the Graph window by window: one page for each request, the next cursor bound to an ordinal. */
module GraphReading {
  import opened Prelude
  import opened Protocol
  import opened Lists
  import opened GraphPages
  import opened Materialize

  datatype GraphWindow = GraphWindow(nodes: seq<Card>, edges: seq<Edge>, activeRuns: seq<ActiveRun>, next: Option<nat>)

  function Least(a: nat, b: nat): nat {
    if a < b then a else b
  }

  /** The limit a request gets: at least 1 and at most a page. */
  function Clamp(limit: int): (r: nat)
    ensures 1 <= r <= GRAPH_PAGE_SIZE
  {
    if limit < 1 then 1 else if limit > GRAPH_PAGE_SIZE then GRAPH_PAGE_SIZE else limit
  }

  function RunsFrom(runs: seq<ActiveRun>, nodes: seq<Card>): seq<ActiveRun> {
    Filter(runs, (run: ActiveRun) => run.sourceNodeSha in CardShas(nodes))
  }

  /** What `#readGraph` makes of a loaded page: its cards in range, the edges into them, their Runs, and where to continue. */
  function WindowOn(page: Page, nodeCount: nat, offset: nat, limit: int): GraphWindow {
    var end := Least(nodeCount, Least(offset + Clamp(limit), (offset / GRAPH_PAGE_SIZE + 1) * GRAPH_PAGE_SIZE));
    var nodes := Filter(page.nodes, (node: Card) => offset <= node.identity.ordinal < end);
    GraphWindow(nodes, EdgesInto(page.edges, nodes), RunsFrom(page.activeRuns, nodes), if end < nodeCount then Some(end) else None)
  }

  /** A request on the pages as they are written. */
  function ReadGraph(g: GraphData, offset: nat, limit: int): GraphWindow
    requires offset < |g.cards|
  {
    WindowOn(PageOf(g, offset / GRAPH_PAGE_SIZE), |g.cards|, offset, limit)
  }

  function WindowEnd(g: GraphData, offset: nat, limit: int): (end: nat)
    requires offset < |g.cards|
    ensures offset < end <= |g.cards|
    ensures end <= PageEnd(|g.cards|, offset / GRAPH_PAGE_SIZE)
  {
    Least(|g.cards|, Least(offset + Clamp(limit), (offset / GRAPH_PAGE_SIZE + 1) * GRAPH_PAGE_SIZE))
  }

  /** The edge list has none for the root, so the edge into ordinal `o` is at position `o - 1`. */
  function EdgesBefore(ordinal: nat): nat {
    if ordinal == 0 then 0 else ordinal - 1
  }

  lemma CardsInRange(cards: seq<Card>, i: nat, offset: nat, end: nat)
    requires i < PageCount(|cards|) && forall k | 0 <= k < |cards| :: cards[k].identity.ordinal == k
    requires i * GRAPH_PAGE_SIZE <= offset < end <= PageEnd(|cards|, i)
    ensures Filter(PageCards(cards, i), (node: Card) => offset <= node.identity.ordinal < end) == cards[offset..end]
  {
    FilterSlice(cards, (node: Card) => offset <= node.identity.ordinal < end, i * GRAPH_PAGE_SIZE, PageEnd(|cards|, i), offset, end);
  }

  lemma WindowNodes(g: GraphData, offset: nat, limit: int)
    requires IsTree(g) && offset < |g.cards|
    ensures ReadGraph(g, offset, limit).nodes == g.cards[offset..WindowEnd(g, offset, limit)]
  {
    CardsInRange(g.cards, offset / GRAPH_PAGE_SIZE, offset, WindowEnd(g, offset, limit));
  }

  lemma VisibleTarget(g: GraphData, offset: nat, end: nat, o: nat)
    requires IsTree(g) && offset < end <= |g.cards| && o < |g.cards|
    ensures g.cards[o].identity.sha in CardShas(g.cards[offset..end]) <==> offset <= o < end
  {
    var shas := CardShas(g.cards[offset..end]);
    if g.cards[o].identity.sha in shas {
      var k :| 0 <= k < |shas| && shas[k] == g.cards[o].identity.sha;
      CardsDiffer(g, offset + k, o);
    }
    if offset <= o < end {
      assert shas[o - offset] == g.cards[o].identity.sha;
    }
  }

  lemma EdgesInRange(edges: seq<Edge>, from: nat, to: nat, nodes: seq<Card>, a: nat, b: nat)
    requires from <= a <= b <= to <= |edges|
    requires forall k | from <= k < to :: edges[k].targetSha in CardShas(nodes) <==> a <= k < b
    ensures EdgesInto(edges[from..to], nodes) == edges[a..b]
  {
    FilterSlice(edges, (edge: Edge) => edge.targetSha in CardShas(nodes), from, to, a, b);
  }

  lemma VisibleEdge(g: GraphData, offset: nat, end: nat, k: nat)
    requires IsTree(g) && offset < end <= |g.cards| && k < |g.edges|
    ensures g.edges[k].targetSha in CardShas(g.cards[offset..end]) <==> EdgesBefore(offset) <= k < EdgesBefore(end)
  {
    VisibleTarget(g, offset, end, k + 1);
  }

  lemma PageEdgesAre(g: GraphData, i: nat)
    requires IsTree(g) && i < PageCount(|g.cards|)
    ensures EdgeStart(i) <= PageEnd(|g.cards|, i) - 1 <= |g.edges| == |g.cards| - 1
    ensures PageOf(g, i).edges == g.edges[EdgeStart(i)..PageEnd(|g.cards|, i) - 1]
  {
    PageEdges(g, i);
  }

  lemma VisibleEdges(g: GraphData, offset: nat, end: nat)
    requires IsTree(g) && offset < end <= PageEnd(|g.cards|, offset / GRAPH_PAGE_SIZE)
    ensures EdgesBefore(offset) <= EdgesBefore(end) <= |g.edges|
    ensures EdgesInto(PageOf(g, offset / GRAPH_PAGE_SIZE).edges, g.cards[offset..end]) == g.edges[EdgesBefore(offset)..EdgesBefore(end)]
  {
    var i := offset / GRAPH_PAGE_SIZE;
    PageEdgesAre(g, i);
    TargetsInRange(g, offset, end);
    EdgesInRange(g.edges, EdgeStart(i), PageEnd(|g.cards|, i) - 1, g.cards[offset..end], EdgesBefore(offset), EdgesBefore(end));
  }

  lemma TargetsInRange(g: GraphData, offset: nat, end: nat)
    requires IsTree(g) && offset < end <= |g.cards|
    ensures forall k | 0 <= k < |g.edges| ::
              g.edges[k].targetSha in CardShas(g.cards[offset..end]) <==> EdgesBefore(offset) <= k < EdgesBefore(end)
  {
    forall k | 0 <= k < |g.edges|
      ensures g.edges[k].targetSha in CardShas(g.cards[offset..end]) <==> EdgesBefore(offset) <= k < EdgesBefore(end)
    {
      VisibleEdge(g, offset, end, k);
    }
  }

  lemma StretchIsOnPage(g: GraphData, offset: nat, end: nat)
    requires offset < end <= PageEnd(|g.cards|, offset / GRAPH_PAGE_SIZE)
    ensures forall sha | sha in CardShas(g.cards[offset..end]) :: sha in CardShas(PageCards(g.cards, offset / GRAPH_PAGE_SIZE))
  {
    var page, start := CardShas(PageCards(g.cards, offset / GRAPH_PAGE_SIZE)), offset / GRAPH_PAGE_SIZE * GRAPH_PAGE_SIZE;
    var stretch := CardShas(g.cards[offset..end]);
    forall sha | sha in stretch ensures sha in page {
      var k :| 0 <= k < |stretch| && stretch[k] == sha;
      assert page[offset + k - start] == sha;
    }
  }

  lemma VisibleRuns(g: GraphData, offset: nat, end: nat)
    requires offset < end <= PageEnd(|g.cards|, offset / GRAPH_PAGE_SIZE)
    ensures RunsFrom(PageOf(g, offset / GRAPH_PAGE_SIZE).activeRuns, g.cards[offset..end]) == RunsFrom(g.activeRuns, g.cards[offset..end])
  {
    var all := CardShas(PageCards(g.cards, offset / GRAPH_PAGE_SIZE));
    var some := CardShas(g.cards[offset..end]);
    StretchIsOnPage(g, offset, end);
    FilterTwice(g.activeRuns, (run: ActiveRun) => run.sourceNodeSha in all, (run: ActiveRun) => run.sourceNodeSha in some);
  }

  lemma WindowUpToEnd(g: GraphData, offset: nat, limit: int)
    requires IsTree(g) && offset < |g.cards|
    ensures var end := WindowEnd(g, offset, limit);
            && EdgesBefore(offset) <= EdgesBefore(end) <= |g.edges|
            && ReadGraph(g, offset, limit) ==
               GraphWindow(g.cards[offset..end], g.edges[EdgesBefore(offset)..EdgesBefore(end)], RunsFrom(g.activeRuns, g.cards[offset..end]),
                           if end < |g.cards| then Some(end) else None)
  {
    WindowNodes(g, offset, limit);
    VisibleEdges(g, offset, WindowEnd(g, offset, limit));
    VisibleRuns(g, offset, WindowEnd(g, offset, limit));
  }

  /** `n` is the smallest of the limit, brought between 1 and 300, the rest of the page and the rest of the graph. */
  predicate IsWindowLength(n: nat, total: nat, offset: nat, limit: int)
    requires offset < total
  {
    var onPage, left := 300 - offset % 300, total - offset;
    && 1 <= n <= onPage && n <= left && n <= 300 && (1 <= limit ==> n <= limit) && (limit < 1 ==> n == 1)
    && (n == onPage || n == left || n == 300 || n == limit || limit < 1)
  }

  /**
   * The window holds the cards from the offset on, as many as the limit, the page and the graph allow, the edges into
   * them and the Runs from them, and continues behind them exactly when cards are left.
   */
  ghost predicate IsStretch(g: GraphData, offset: nat, limit: int, w: GraphWindow)
    requires offset < |g.cards|
  {
    var n := |w.nodes|;
    && IsWindowLength(n, |g.cards|, offset, limit) && w.nodes == g.cards[offset..offset + n]
    && |g.edges| == |g.cards| - 1
    && w.edges == (if offset == 0 then g.edges[..n - 1] else g.edges[offset - 1..offset + n - 1])
    && w.activeRuns == Filter(g.activeRuns, (run: ActiveRun) => run.sourceNodeSha in CardShas(w.nodes))
    && w.next == (if offset + n < |g.cards| then Some(offset + n) else None)
  }

  /** A request for the written pages answers just that. */
  lemma WindowIsStretch(g: GraphData, offset: nat, limit: int)
    requires IsTree(g) && offset < |g.cards|
    ensures IsStretch(g, offset, limit, ReadGraph(g, offset, limit))
  {
    WindowUpToEnd(g, offset, limit);
    EndIsLength(g, offset, limit);
    UpToIsStretch(g, offset, limit, WindowEnd(g, offset, limit), ReadGraph(g, offset, limit));
  }

  lemma UpToIsStretch(g: GraphData, offset: nat, limit: int, end: nat, w: GraphWindow)
    requires offset < end <= |g.cards| && |g.edges| == |g.cards| - 1 && IsWindowLength(end - offset, |g.cards|, offset, limit)
    requires w == GraphWindow(g.cards[offset..end], g.edges[EdgesBefore(offset)..EdgesBefore(end)], RunsFrom(g.activeRuns, g.cards[offset..end]),
                              if end < |g.cards| then Some(end) else None)
    ensures IsStretch(g, offset, limit, w)
  {
    assert |w.nodes| == end - offset && offset + |w.nodes| == end;
    assert g.edges[0..end - 1] == g.edges[..end - 1];
  }

  lemma EndIsLength(g: GraphData, offset: nat, limit: int)
    requires offset < |g.cards|
    ensures IsWindowLength(WindowEnd(g, offset, limit) - offset, |g.cards|, offset, limit)
  {
  }

  /** There is only one such length. */
  lemma WindowLengthIsUnique(n: nat, m: nat, total: nat, offset: nat, limit: int)
    requires offset < total && IsWindowLength(n, total, offset, limit) && IsWindowLength(m, total, offset, limit)
    ensures n == m
  {
  }

  /** Everything read by following the cursors from an ordinal on. */
  function FollowGraph(g: GraphData, offset: nat, limit: int): (seq<Card>, seq<Edge>)
    requires offset < |g.cards|
    decreases |g.cards| - offset
  {
    var window := ReadGraph(g, offset, limit);
    if window.next.None? || window.next.value <= offset || window.next.value >= |g.cards| then (window.nodes, window.edges)
    else
      var rest := FollowGraph(g, window.next.value, limit);
      (window.nodes + rest.0, window.edges + rest.1)
  }

  lemma NextOrdinal(g: GraphData, offset: nat, limit: int, window: GraphWindow)
    requires offset < |g.cards| && window == ReadGraph(g, offset, limit)
    ensures var end := WindowEnd(g, offset, limit);
            && window.next == (if end < |g.cards| then Some(end) else None)
            && FollowGraph(g, offset, limit)
               == if end < |g.cards| then (window.nodes + FollowGraph(g, end, limit).0, window.edges + FollowGraph(g, end, limit).1)
                  else (window.nodes, window.edges)
  {
  }

  lemma Rejoin<T>(s: seq<T>, a: nat, b: nat)
    requires a <= b <= |s|
    ensures s[a..b] + s[b..] == s[a..]
    ensures s[a..|s|] == s[a..]
  {
  }

  /** Following Graph cursors lists every card and every incoming edge from the first ordinal on exactly once, in order. */
  lemma {:induction false} GraphCursorsCover(g: GraphData, offset: nat, limit: int)
    requires IsTree(g) && offset < |g.cards|
    ensures EdgesBefore(offset) <= |g.edges|
    ensures FollowGraph(g, offset, limit) == (g.cards[offset..], g.edges[EdgesBefore(offset)..])
    decreases |g.cards| - offset
  {
    var end := WindowEnd(g, offset, limit);
    WindowUpToEnd(g, offset, limit);
    Rejoin(g.cards, offset, end);
    Rejoin(g.edges, EdgesBefore(offset), EdgesBefore(end));
    if end < |g.cards| {
      GraphCursorsCover(g, end, limit);
    } else {
      assert EdgesBefore(end) == |g.edges|;
    }
  }
}

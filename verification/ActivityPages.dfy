/** Activity of a Node: one list cut into pages of 50, committed behind one root and read through windows. */
module ActivityPages {
  import opened Prelude
  import opened Merkle
  import opened Lists

  const NODE_ACTIVITY_PAGE_SIZE: nat := 50
  const MAX_NODE_ACTIVITY_PROOF_STEPS: nat := 48

  /** The list an index and its pages belong to. */
  datatype Category = Category(checkpoint: string, projectId: string, nodeSha: string, kind: string)

  datatype ActivityLeaf<+E> =
    | PageLeaf(category: Category, index: nat, offset: nat, entries: seq<E>)
    | EmptyList(category: Category)

  datatype ActivityIndex<+E> = ActivityIndex(category: Category, count: nat, pageCount: nat, root: Hash<ActivityLeaf<E>>)

  datatype ActivityPage<+E> = ActivityPage(
    category: Category, index: nat, offset: nat, entries: seq<E>, siblings: seq<Step<ActivityLeaf<E>>>)

  function PageCount(n: nat): nat {
    (n + NODE_ACTIVITY_PAGE_SIZE - 1) / NODE_ACTIVITY_PAGE_SIZE
  }

  function PageEnd(n: nat, i: nat): nat {
    if (i + 1) * NODE_ACTIVITY_PAGE_SIZE < n then (i + 1) * NODE_ACTIVITY_PAGE_SIZE else n
  }

  function PageEntries<E>(entries: seq<E>, i: nat): (r: seq<E>)
    requires i < PageCount(|entries|)
    ensures 0 < |r| <= NODE_ACTIVITY_PAGE_SIZE && |r| == PageEnd(|entries|, i) - i * NODE_ACTIVITY_PAGE_SIZE
  {
    entries[i * NODE_ACTIVITY_PAGE_SIZE..PageEnd(|entries|, i)]
  }

  function Leaves<E>(category: Category, entries: seq<E>): (r: seq<Hash<ActivityLeaf<E>>>)
    ensures |r| == PageCount(|entries|)
    ensures forall i | 0 <= i < |r| ::
              r[i] == Leaf(PageLeaf(category, i, i * NODE_ACTIVITY_PAGE_SIZE, PageEntries(entries, i)))
  {
    seq(PageCount(|entries|), i requires 0 <= i < PageCount(|entries|) =>
      Leaf(PageLeaf(category, i, i * NODE_ACTIVITY_PAGE_SIZE, PageEntries(entries, i))))
  }

  function CommittedRoot<E>(category: Category, entries: seq<E>): Hash<ActivityLeaf<E>> {
    if entries == [] then Leaf(EmptyList(category)) else Merkle.Root(Leaves(category, entries))
  }

  function IndexOf<E>(category: Category, entries: seq<E>): ActivityIndex<E> {
    ActivityIndex(category, |entries|, PageCount(|entries|), CommittedRoot(category, entries))
  }

  function WrittenPage<E>(category: Category, entries: seq<E>, i: nat): ActivityPage<E>
    requires i < PageCount(|entries|)
  {
    ActivityPage(category, i, i * NODE_ACTIVITY_PAGE_SIZE, PageEntries(entries, i), Siblings(Leaves(category, entries), i))
  }

  /** The page of an index holds the 50 entries that start there, or the rest of the list. */
  ghost predicate IsPageOf<E>(category: Category, entries: seq<E>, i: nat, page: ActivityPage<E>) {
    && page.category == category && page.index == i && page.offset == 50 * i < |entries|
    && page.entries == entries[50 * i..if 50 * i + 50 <= |entries| then 50 * i + 50 else |entries|]
  }

  /** `materializeNodeActivityPages`: refused only when a proof would have more than 48 steps. */
  method MaterializeActivity<E>(category: Category, entries: seq<E>)
    returns (r: Option<(ActivityIndex<E>, seq<ActivityPage<E>>)>)
    ensures r.Some? <==> Depth(PageCount(|entries|)) <= MAX_NODE_ACTIVITY_PROOF_STEPS
    ensures r.Some? ==> r.value.0 == IndexOf(category, entries) && |r.value.1| == PageCount(|entries|)
    ensures r.Some? ==> forall i | 0 <= i < |r.value.1| :: r.value.1[i] == WrittenPage(category, entries, i)
    ensures r.Some? ==> r.value.0.count == |entries| && r.value.0.pageCount == |r.value.1| == (|entries| + 49) / 50
    ensures r.Some? ==> forall i | 0 <= i < |r.value.1| :: IsPageOf(category, entries, i, r.value.1[i])
  {
    if entries == [] {
      return Some((IndexOf(category, entries), []));
    }
    var commitment := BuildCommitment(Leaves(category, entries), MAX_NODE_ACTIVITY_PROOF_STEPS);
    if commitment.None? {
      return None;
    }
    var pages: seq<ActivityPage<E>> := [];
    for i := 0 to PageCount(|entries|)
      invariant |pages| == i && forall j | 0 <= j < i :: pages[j] == WrittenPage(category, entries, j)
    {
      pages := pages + [ActivityPage(category, i, i * NODE_ACTIVITY_PAGE_SIZE, PageEntries(entries, i), commitment.value.proofs[i])];
    }
    return Some((ActivityIndex(category, |entries|, PageCount(|entries|), commitment.value.root), pages));
  }

  /** What `validateNodeActivityPageCommitment` accepts. */
  predicate PageIsCommitted<E(==)>(index: ActivityIndex<E>, page: ActivityPage<E>) {
    && page.category == index.category && page.index < index.pageCount && page.offset == page.index * NODE_ACTIVITY_PAGE_SIZE
    && |page.entries| == (if page.index < index.pageCount - 1 then NODE_ACTIVITY_PAGE_SIZE else index.count - page.offset)
    && 0 < |page.entries| <= NODE_ACTIVITY_PAGE_SIZE
    && Accepts(Leaf(PageLeaf(page.category, page.index, page.offset, page.entries)), page.index, index.pageCount, page.siblings,
               index.root, MAX_NODE_ACTIVITY_PROOF_STEPS)
  }

  method ValidatePageCommitment<E(==)>(index: ActivityIndex<E>, page: ActivityPage<E>) returns (ok: bool)
    ensures ok <==> PageIsCommitted(index, page)
  {
    if page.category != index.category || page.index >= index.pageCount || page.offset != page.index * NODE_ACTIVITY_PAGE_SIZE {
      return false;
    }
    var expectedCount := if page.index < index.pageCount - 1 then NODE_ACTIVITY_PAGE_SIZE else index.count - page.offset;
    if |page.entries| != expectedCount || expectedCount <= 0 || expectedCount > NODE_ACTIVITY_PAGE_SIZE {
      return false;
    }
    ok := VerifyMembership(Leaf(PageLeaf(page.category, page.index, page.offset, page.entries)), page.index, index.pageCount,
                           page.siblings, index.root, MAX_NODE_ACTIVITY_PROOF_STEPS);
  }

  /** Against a written index exactly the written pages are accepted. */
  lemma CommitmentIsExact<E>(category: Category, entries: seq<E>, page: ActivityPage<E>)
    requires Depth(PageCount(|entries|)) <= MAX_NODE_ACTIVITY_PROOF_STEPS
    ensures PageIsCommitted(IndexOf(category, entries), page)
            <==> page.index < PageCount(|entries|) && page == WrittenPage(category, entries, page.index)
  {
    if page.index < PageCount(|entries|) {
      var leaves := Leaves(category, entries);
      MembershipIsExact(leaves, Leaf(PageLeaf(page.category, page.index, page.offset, page.entries)), page.index, page.siblings,
                        MAX_NODE_ACTIVITY_PROOF_STEPS);
    }
  }

  // ------------------------------------------------------------------- windows

  datatype Window<+E> = Window(entries: seq<E>, next: Option<nat>)

  function WindowEnd(count: nat, offset: nat, limit: nat): nat {
    if offset + limit < count then offset + limit else count
  }

  /** One read: up to `limit` entries from `offset` on, and where to continue. */
  function WindowAt<E>(entries: seq<E>, offset: nat, limit: nat): Window<E>
    requires offset <= |entries|
  {
    var end := WindowEnd(|entries|, offset, limit);
    Window(entries[offset..end], if end < |entries| then Some(end) else None)
  }

  /** The window holds as many entries as were asked for or as are left, and continues only when some are left. */
  ghost predicate IsWindow<E>(entries: seq<E>, offset: nat, limit: nat, window: Window<E>) {
    && offset + |window.entries| <= |entries| && window.entries <= entries[offset..]
    && (|window.entries| == limit <= |entries| - offset || |window.entries| == |entries| - offset < limit)
    && window.next == if offset + |window.entries| == |entries| then None else Some(offset + |window.entries|)
  }

  lemma WindowIsStretch<E>(entries: seq<E>, offset: nat, limit: nat)
    requires offset <= |entries|
    ensures IsWindow(entries, offset, limit, WindowAt(entries, offset, limit))
  {
    assert entries[offset..WindowEnd(|entries|, offset, limit)] <= entries[offset..];
  }


  /** Reading on from each returned cursor until there is none. */
  function FollowWindows<E>(entries: seq<E>, offset: nat, limit: nat): seq<E>
    requires offset <= |entries| && limit > 0
    decreases |entries| - offset
  {
    var window := WindowAt(entries, offset, limit);
    window.entries + if window.next.Some? then FollowWindows(entries, window.next.value, limit) else []
  }

  /** Following the cursors lists every entry from the first offset on exactly once and in order. */
  lemma {:induction false} WindowsCoverList<E>(entries: seq<E>, offset: nat, limit: nat)
    requires offset <= |entries| && limit > 0
    ensures FollowWindows(entries, offset, limit) == entries[offset..]
    ensures WindowAt(entries, offset, limit).next.Some? ==> offset < WindowAt(entries, offset, limit).next.value < |entries|
    decreases |entries| - offset
  {
    var window := WindowAt(entries, offset, limit);
    if window.next.Some? {
      WindowsCoverList(entries, window.next.value, limit);
    }
  }

  /** The entries of a page, each with its offset in the whole list. */
  function Placed<E>(page: ActivityPage<E>): (r: seq<(nat, E)>)
    ensures |r| == |page.entries| && forall k | 0 <= k < |r| :: r[k] == (page.offset + k, page.entries[k])
  {
    seq(|page.entries|, k requires 0 <= k < |page.entries| => (page.offset + k, page.entries[k]))
  }

  function Unplaced<E>(items: seq<(nat, E)>): (r: seq<E>)
    ensures |r| == |items| && forall k | 0 <= k < |r| :: r[k] == items[k].1
  {
    seq(|items|, k requires 0 <= k < |items| => items[k].1)
  }

  /** `items` is the stretch of the list from page `first` up to page `next`, each entry with its offset. */
  ghost predicate IsStretch<E>(entries: seq<E>, first: nat, next: nat, items: seq<(nat, E)>) {
    && next * NODE_ACTIVITY_PAGE_SIZE < |entries| + NODE_ACTIVITY_PAGE_SIZE
    && |items| == (if next * NODE_ACTIVITY_PAGE_SIZE < |entries| then next * NODE_ACTIVITY_PAGE_SIZE else |entries|) - first * NODE_ACTIVITY_PAGE_SIZE
    && forall k | 0 <= k < |items| ::
         first * NODE_ACTIVITY_PAGE_SIZE + k < |entries|
         && items[k] == (first * NODE_ACTIVITY_PAGE_SIZE + k, entries[first * NODE_ACTIVITY_PAGE_SIZE + k])
  }

  lemma StretchGrows<E>(category: Category, entries: seq<E>, first: nat, i: nat, items: seq<(nat, E)>)
    requires first <= i < PageCount(|entries|) && IsStretch(entries, first, i, items)
    ensures IsStretch(entries, first, i + 1, items + Placed(WrittenPage(category, entries, i)))
  {
  }

  /** The items are the entries from `start` on, each with its offset. */
  predicate ArePlaced<E(==)>(entries: seq<E>, items: seq<(nat, E)>, start: nat) {
    start + |items| <= |entries| && forall k | 0 <= k < |items| :: items[k] == (start + k, entries[start + k])
  }

  lemma UnplacedSlice<E>(entries: seq<E>, items: seq<(nat, E)>, start: nat, offset: nat, end: nat)
    requires ArePlaced(entries, items, start) && start <= offset <= end <= start + |items|
    ensures Unplaced(items[offset - start..end - start]) == entries[offset..end]
  {
    var left, right := Unplaced(items[offset - start..end - start]), entries[offset..end];
    forall k | 0 <= k < end - offset ensures left[k] == right[k] {
      assert items[offset - start..end - start][k] == items[offset - start + k];
    }
  }

  lemma FilterByOffset<E>(items: seq<(nat, E)>, start: nat, offset: nat, end: nat)
    requires forall k | 0 <= k < |items| :: items[k].0 == start + k
    requires start <= offset <= end <= start + |items|
    ensures Filter(items, (item: (nat, E)) => offset <= item.0 < end) == items[offset - start..end - start]
  {
    FilterRange(items, (item: (nat, E)) => offset <= item.0 < end, offset - start, end - start);
  }

  lemma PlacedOffsets<E>(entries: seq<E>, items: seq<(nat, E)>, start: nat)
    requires ArePlaced(entries, items, start)
    ensures forall k | 0 <= k < |items| :: items[k].0 == start + k
  {
  }

  lemma WindowOfItems<E>(entries: seq<E>, items: seq<(nat, E)>, start: nat, offset: nat, end: nat)
    requires ArePlaced(entries, items, start) && start <= offset <= end <= start + |items|
    ensures Unplaced(Filter(items, (item: (nat, E)) => offset <= item.0 < end)) == entries[offset..end]
  {
    PlacedOffsets(entries, items, start);
    FilterByOffset(items, start, offset, end);
    UnplacedSlice(entries, items, start, offset, end);
  }

  lemma StretchWindow<E>(entries: seq<E>, first: nat, next: nat, items: seq<(nat, E)>, offset: nat, end: nat)
    requires IsStretch(entries, first, next, items)
    requires first * NODE_ACTIVITY_PAGE_SIZE <= offset < end <= first * NODE_ACTIVITY_PAGE_SIZE + |items|
    ensures Unplaced(Filter(items, (item: (nat, E)) => offset <= item.0 < end)) == entries[offset..end]
  {
    WindowOfItems(entries, items, first * NODE_ACTIVITY_PAGE_SIZE, offset, end);
  }

  /** The loader of one window: reads the pages it needs, checks each against the index, keeps what lies in range. */
  method ReadWindow<E(==)>(index: ActivityIndex<E>, files: seq<ActivityPage<E>>, offset: nat, limit: nat, ghost entries: seq<E>)
    returns (r: Option<Window<E>>)
    requires limit > 0 && |files| == index.pageCount && index == IndexOf(index.category, entries)
    requires Depth(PageCount(|entries|)) <= MAX_NODE_ACTIVITY_PROOF_STEPS
    ensures offset > index.count ==> r.None?
    ensures offset <= index.count && (forall i | 0 <= i < |files| :: files[i] == WrittenPage(index.category, entries, i)) ==> r.Some?
    ensures r.Some? ==> offset <= index.count && IsWindow(entries, offset, limit, r.value) && r.value == WindowAt(entries, offset, limit)
  {
    if offset > index.count {
      return None;
    }
    var end := WindowEnd(index.count, offset, limit);
    var selected: seq<E> := [];
    if offset < end {
      var first, last := offset / NODE_ACTIVITY_PAGE_SIZE, (end - 1) / NODE_ACTIVITY_PAGE_SIZE;
      var items: seq<(nat, E)> := [];
      for i := first to last + 1
        invariant IsStretch(entries, first, i, items)
      {
        var page := files[i];
        var valid := ValidatePageCommitment(index, page);
        CommitmentIsExact(index.category, entries, page);
        if !valid || page.index != i {
          return None;
        }
        StretchGrows(index.category, entries, first, i, items);
        items := items + Placed(page);
      }
      StretchWindow(entries, first, last + 1, items, offset, end);
      selected := Unplaced(Filter(items, (item: (nat, E)) => offset <= item.0 < end));
    }
    WindowIsStretch(entries, offset, limit);
    return Some(Window(selected, if end < index.count then Some(end) else None));
  }
}

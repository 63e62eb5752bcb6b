/** Reading the Event log newest first: at most four shards for each request, any filter, any limit. */
module EventReading {
  import opened Prelude

  const EVENT_INDEX_SHARD_SIZE: nat := 256
  const MAX_EVENT_SHARDS_PER_PAGE: nat := 4

  datatype Entry = Entry(sequence: nat, content: string)

  datatype ScanResult = ScanResult(entries: seq<Entry>, lastInspected: Option<nat>, hasOlder: bool, inspectedCount: nat)

  /** The log numbers its entries from 1 on. */
  predicate IsLog(log: seq<Entry>) {
    forall k | 0 <= k < |log| :: log[k].sequence == k + 1
  }

  // ------------------------------------------------------- gathering candidates

  function Reverse(s: seq<Entry>): (r: seq<Entry>)
    ensures |r| == |s| && forall k | 0 <= k < |s| :: r[k] == s[|s| - 1 - k]
  {
    seq(|s|, k requires 0 <= k < |s| => s[|s| - 1 - k])
  }

  function Flatten(shards: seq<seq<Entry>>): seq<Entry> {
    if shards == [] then [] else Reverse(shards[0]) + Flatten(shards[1..])
  }

  function Insert(e: Entry, sorted: seq<Entry>): seq<Entry> {
    if sorted == [] || sorted[0].sequence < e.sequence then [e] + sorted else [sorted[0]] + Insert(e, sorted[1..])
  }

  /** The stable sort by descending sequence. */
  function SortDescending(s: seq<Entry>): seq<Entry> {
    if s == [] then [] else Insert(s[0], SortDescending(s[1..]))
  }

  predicate Descends(s: seq<Entry>) {
    forall i, j | 0 <= i < j < |s| :: s[i].sequence > s[j].sequence
  }

  lemma {:induction false} SortedStays(s: seq<Entry>)
    requires Descends(s)
    ensures SortDescending(s) == s
  {
    if s != [] {
      SortedStays(s[1..]);
    }
  }

  // ------------------------------------------------------------------- scanning

  /** The loop of the scan, from candidate `i` on. */
  function ScanOn(candidates: seq<Entry>, i: nat, cursor: nat, limit: nat, matches: Entry -> bool,
                  entries: seq<Entry>, last: Option<nat>, count: nat): ScanResult
    decreases |candidates| - i
  {
    if i >= |candidates| || |entries| >= limit then ScanResult(entries, last, last.Some? && last.value > 1, count)
    else
      var entry := candidates[i];
      if entry.sequence >= cursor then ScanOn(candidates, i + 1, cursor, limit, matches, entries, last, count)
      else ScanOn(candidates, i + 1, cursor, limit, matches, if matches(entry) then entries + [entry] else entries,
                  Some(entry.sequence), count + 1)
  }

  function Scan(shards: seq<seq<Entry>>, cursor: nat, limit: nat, matches: Entry -> bool): ScanResult {
    ScanOn(SortDescending(Flatten(shards)), 0, cursor, limit, matches, [], None, 0)
  }

  /** `scanReverseEventShards`. */
  method ScanReverseEventShards(shards: seq<seq<Entry>>, cursor: nat, limit: nat, matches: Entry -> bool) returns (r: ScanResult)
    requires limit > 0
    ensures r == Scan(shards, cursor, limit, matches)
  {
    var candidates := SortDescending(Flatten(shards));
    var entries: seq<Entry> := [];
    var lastInspected: Option<nat> := None;
    var inspectedCount := 0;
    for i := 0 to |candidates|
      invariant |entries| < limit
      invariant Scan(shards, cursor, limit, matches)
             == ScanOn(candidates, i, cursor, limit, matches, entries, lastInspected, inspectedCount)
    {
      var entry := candidates[i];
      if entry.sequence >= cursor {
        continue;
      }
      lastInspected := Some(entry.sequence);
      inspectedCount := inspectedCount + 1;
      if matches(entry) {
        entries := entries + [entry];
      }
      if |entries| == limit {
        break;
      }
    }
    return ScanResult(entries, lastInspected, lastInspected.Some? && lastInspected.value > 1, inspectedCount);
  }

  /** How far down from position `b` a scan for `limit` matches goes, `floor` at the lowest. */
  function Reached(log: seq<Entry>, floor: nat, b: nat, limit: nat, matches: Entry -> bool): (low: nat)
    requires floor <= b <= |log|
    ensures floor <= low <= b && (floor < b && limit > 0 ==> low < b)
    decreases b
  {
    if b == floor || limit == 0 then b
    else Reached(log, floor, b - 1, if matches(log[b - 1]) then limit - 1 else limit, matches)
  }

  /** The matching entries after position `a` up to position `b`, newest first. */
  function Matching(log: seq<Entry>, a: nat, b: nat, matches: Entry -> bool): seq<Entry>
    requires a <= b <= |log|
    decreases b
  {
    if a == b then [] else (if matches(log[b - 1]) then [log[b - 1]] else []) + Matching(log, a, b - 1, matches)
  }

  /** They are the matching entries, each once, in descending order. */
  lemma {:induction false} MatchingMeaning(log: seq<Entry>, a: nat, b: nat, matches: Entry -> bool)
    requires IsLog(log) && a <= b <= |log|
    ensures forall e :: e in Matching(log, a, b, matches) <==> matches(e) && exists k :: a <= k < b && log[k] == e
    ensures Descends(Matching(log, a, b, matches))
    decreases b
  {
    if a < b {
      MatchingMeaning(log, a, b - 1, matches);
      assert forall e | e in Matching(log, a, b - 1, matches) :: e.sequence < b;
    }
  }

  lemma {:induction false} MatchingSplits(log: seq<Entry>, a: nat, m: nat, b: nat, matches: Entry -> bool)
    requires a <= m <= b <= |log|
    ensures Matching(log, a, b, matches) == Matching(log, m, b, matches) + Matching(log, a, m, matches)
    decreases b
  {
    if m < b {
      MatchingSplits(log, a, m, b - 1, matches);
    }
  }

  /** A scan never returns more than it was asked for. */
  lemma {:induction false} ReachedWithinLimit(log: seq<Entry>, floor: nat, b: nat, limit: nat, matches: Entry -> bool)
    requires floor <= b <= |log|
    ensures |Matching(log, Reached(log, floor, b, limit, matches), b, matches)| <= limit
    decreases b
  {
    if b > floor && limit > 0 {
      ReachedWithinLimit(log, floor, b - 1, if matches(log[b - 1]) then limit - 1 else limit, matches);
    }
  }

  // ------------------------------------------------------- one request, all requests

  /** Shard `i` of the log. */
  function Shard(log: seq<Entry>, i: nat): seq<Entry>
    requires i * EVENT_INDEX_SHARD_SIZE <= |log|
  {
    log[i * EVENT_INDEX_SHARD_SIZE..ShardEnd(log, i)]
  }

  function ShardEnd(log: seq<Entry>, i: nat): nat {
    if (i + 1) * EVENT_INDEX_SHARD_SIZE < |log| then (i + 1) * EVENT_INDEX_SHARD_SIZE else |log|
  }

  function NewestSequence(log: seq<Entry>, cursor: nat): nat
    requires cursor > 0
  {
    if cursor - 1 < |log| then cursor - 1 else |log|
  }

  /** The shards one request reads: from the one holding the newest sequence wanted, at most `count`, down to shard 0. */
  function Window(log: seq<Entry>, newest: nat, count: nat): seq<seq<Entry>>
    requires newest * EVENT_INDEX_SHARD_SIZE <= |log|
    decreases newest
  {
    if count == 0 then []
    else [Shard(log, newest)] + if newest == 0 then [] else Window(log, newest - 1, count - 1)
  }

  function WindowFor(log: seq<Entry>, cursor: nat): seq<seq<Entry>>
    requires cursor > 0
  {
    var newest := NewestSequence(log, cursor);
    if newest == 0 then [] else Window(log, (newest - 1) / EVENT_INDEX_SHARD_SIZE, MAX_EVENT_SHARDS_PER_PAGE)
  }

  /** `#readEvents` at a cursor: the matching events of one window, and the next cursor when older ones remain. */
  function ReadEvents(log: seq<Entry>, cursor: nat, limit: nat, matches: Entry -> bool): ScanResult
    requires cursor > 0
  {
    Scan(WindowFor(log, cursor), cursor, limit, matches)
  }

  /** The candidates are the log after position `floor` up to position `end`, newest first. */
  predicate IsStretch(candidates: seq<Entry>, log: seq<Entry>, floor: nat, end: nat) {
    && floor <= end <= |log| && |candidates| == end - floor
    && forall k | 0 <= k < |candidates| :: candidates[k] == log[end - 1 - k]
  }

  lemma StretchJoins(x: seq<Entry>, y: seq<Entry>, log: seq<Entry>, floor: nat, m: nat, end: nat)
    requires IsStretch(x, log, m, end) && IsStretch(y, log, floor, m)
    ensures IsStretch(x + y, log, floor, end)
  {
  }

  /** The lowest position the window reaches. */
  function WindowFloor(newestShard: nat, count: nat): nat {
    if newestShard + 1 <= count then 0 else (newestShard + 1 - count) * EVENT_INDEX_SHARD_SIZE
  }

  lemma FloorIsBelow(log: seq<Entry>, newest: nat, count: nat)
    requires newest * EVENT_INDEX_SHARD_SIZE <= |log| && count > 0
    ensures WindowFloor(newest, count) <= newest * EVENT_INDEX_SHARD_SIZE <= ShardEnd(log, newest) <= |log|
    ensures newest > 0 ==> ShardEnd(log, newest - 1) == newest * EVENT_INDEX_SHARD_SIZE
    ensures newest > 0 && count > 1 ==> WindowFloor(newest - 1, count - 1) == WindowFloor(newest, count)
    ensures newest == 0 || count == 1 ==> WindowFloor(newest, count) == newest * EVENT_INDEX_SHARD_SIZE
  {
  }

  lemma ShardIsStretch(log: seq<Entry>, i: nat)
    requires i * EVENT_INDEX_SHARD_SIZE <= |log|
    ensures IsStretch(Reverse(Shard(log, i)), log, i * EVENT_INDEX_SHARD_SIZE, ShardEnd(log, i))
  {
  }

  lemma FlattenCons(shard: seq<Entry>, rest: seq<seq<Entry>>)
    ensures Flatten([shard] + rest) == Reverse(shard) + Flatten(rest)
  {
    assert ([shard] + rest)[1..] == rest;
  }

  lemma {:induction false} WindowIsStretch(log: seq<Entry>, newest: nat, count: nat)
    requires newest * EVENT_INDEX_SHARD_SIZE <= |log| && count > 0
    ensures IsStretch(Flatten(Window(log, newest, count)), log, WindowFloor(newest, count), ShardEnd(log, newest))
    decreases newest
  {
    FloorIsBelow(log, newest, count);
    ShardIsStretch(log, newest);
    var start := newest * EVENT_INDEX_SHARD_SIZE;
    var rest := if newest == 0 then [] else Window(log, newest - 1, count - 1);
    FlattenCons(Shard(log, newest), rest);
    if newest > 0 && count > 1 {
      WindowIsStretch(log, newest - 1, count - 1);
    } else {
      assert rest == [] && IsStretch([], log, start, start);
    }
    StretchJoins(Reverse(Shard(log, newest)), Flatten(rest), log, WindowFloor(newest, count), start, ShardEnd(log, newest));
  }

  /** What a scan from position `b` down adds to what it has. */
  function Outcome(log: seq<Entry>, floor: nat, b: nat, left: nat, matches: Entry -> bool,
                   entries: seq<Entry>, last: Option<nat>, count: nat): ScanResult
    requires floor <= b <= |log|
  {
    var low := Reached(log, floor, b, left, matches);
    var newLast := if low < b then Some(low + 1) else last;
    ScanResult(entries + Matching(log, low, b, matches), newLast, newLast.Some? && newLast.value > 1, count + (b - low))
  }

  lemma MoreMatching(entries: seq<Entry>, log: seq<Entry>, low: nat, b: nat, matches: Entry -> bool)
    requires low < b <= |log|
    ensures entries + Matching(log, low, b, matches)
         == (if matches(log[b - 1]) then entries + [log[b - 1]] else entries) + Matching(log, low, b - 1, matches)
  {
  }

  lemma OutcomeStep(log: seq<Entry>, floor: nat, b: nat, left: nat, matches: Entry -> bool,
                    entries: seq<Entry>, last: Option<nat>, count: nat)
    requires floor < b <= |log| && left > 0
    ensures var hit := matches(log[b - 1]);
            Outcome(log, floor, b, left, matches, entries, last, count)
            == Outcome(log, floor, b - 1, if hit then left - 1 else left, matches, if hit then entries + [log[b - 1]] else entries,
                       Some(b), count + 1)
  {
    var low := Reached(log, floor, b, left, matches);
    MoreMatching(entries, log, low, b, matches);
  }

  lemma OutcomeEnds(log: seq<Entry>, floor: nat, b: nat, left: nat, matches: Entry -> bool,
                    entries: seq<Entry>, last: Option<nat>, count: nat)
    requires floor <= b <= |log| && (floor == b || left == 0)
    ensures Outcome(log, floor, b, left, matches, entries, last, count) == ScanResult(entries, last, last.Some? && last.value > 1, count)
  {
    assert entries + [] == entries;
  }

  /** Scanning a stretch once below the cursor. */
  lemma {:induction false} ScanBelow(candidates: seq<Entry>, log: seq<Entry>, floor: nat, end: nat, i: nat, cursor: nat,
                                     limit: nat, matches: Entry -> bool, entries: seq<Entry>, last: Option<nat>, count: nat)
    requires IsLog(log) && IsStretch(candidates, log, floor, end) && i <= |candidates| && end - i < cursor && |entries| <= limit
    ensures ScanOn(candidates, i, cursor, limit, matches, entries, last, count)
         == Outcome(log, floor, end - i, limit - |entries|, matches, entries, last, count)
    decreases |candidates| - i
  {
    if i < |candidates| && |entries| < limit {
      var entry := candidates[i];
      assert entry == log[end - i - 1] && entry.sequence == end - i;
      OutcomeStep(log, floor, end - i, limit - |entries|, matches, entries, last, count);
      ScanBelow(candidates, log, floor, end, i + 1, cursor, limit, matches,
                if matches(entry) then entries + [entry] else entries, Some(entry.sequence), count + 1);
    } else {
      OutcomeEnds(log, floor, end - i, limit - |entries|, matches, entries, last, count);
    }
  }

  /** Entries at or above the cursor are passed over. */
  lemma {:induction false} ScanSkips(candidates: seq<Entry>, log: seq<Entry>, floor: nat, end: nat, i: nat, cursor: nat,
                                     limit: nat, matches: Entry -> bool)
    requires IsLog(log) && IsStretch(candidates, log, floor, end) && limit > 0 && floor < cursor <= end
    requires i <= end - (cursor - 1)
    ensures ScanOn(candidates, i, cursor, limit, matches, [], None, 0)
         == ScanOn(candidates, end - (cursor - 1), cursor, limit, matches, [], None, 0)
    decreases end - i
  {
    if i < end - (cursor - 1) {
      assert candidates[i] == log[end - i - 1] && candidates[i].sequence == end - i;
      ScanSkips(candidates, log, floor, end, i + 1, cursor, limit, matches);
    }
  }

  lemma StretchDescends(candidates: seq<Entry>, log: seq<Entry>, floor: nat, end: nat)
    requires IsLog(log) && IsStretch(candidates, log, floor, end)
    ensures Descends(candidates)
  {
  }

  /** Where the window of a request ends at the bottom. */
  function Floor(log: seq<Entry>, cursor: nat): nat
    requires cursor > 0 && NewestSequence(log, cursor) > 0
  {
    WindowFloor((NewestSequence(log, cursor) - 1) / EVENT_INDEX_SHARD_SIZE, MAX_EVENT_SHARDS_PER_PAGE)
  }

  lemma FloorFits(log: seq<Entry>, cursor: nat)
    requires cursor > 0 && NewestSequence(log, cursor) > 0
    ensures var newest := NewestSequence(log, cursor);
            var end := ShardEnd(log, (newest - 1) / EVENT_INDEX_SHARD_SIZE);
            && Floor(log, cursor) < newest <= end <= |log|
            && newest - Floor(log, cursor) <= MAX_EVENT_SHARDS_PER_PAGE * EVENT_INDEX_SHARD_SIZE
            && newest == (if cursor - 1 < end then cursor - 1 else end)
  {
  }

  lemma ScanOfStretch(candidates: seq<Entry>, log: seq<Entry>, floor: nat, end: nat, cursor: nat, limit: nat, matches: Entry -> bool)
    requires IsLog(log) && IsStretch(candidates, log, floor, end) && limit > 0 && floor < cursor
    ensures var newest := if cursor - 1 < end then cursor - 1 else end;
            ScanOn(candidates, 0, cursor, limit, matches, [], None, 0) == Outcome(log, floor, newest, limit, matches, [], None, 0)
  {
    if cursor <= end {
      ScanSkips(candidates, log, floor, end, 0, cursor, limit, matches);
      ScanBelow(candidates, log, floor, end, end - (cursor - 1), cursor, limit, matches, [], None, 0);
    } else {
      ScanBelow(candidates, log, floor, end, 0, cursor, limit, matches, [], None, 0);
    }
  }

  lemma WindowScan(log: seq<Entry>, shard: nat, cursor: nat, limit: nat, matches: Entry -> bool)
    requires IsLog(log) && shard * EVENT_INDEX_SHARD_SIZE <= |log| && limit > 0
    requires WindowFloor(shard, MAX_EVENT_SHARDS_PER_PAGE) < cursor
    ensures WindowFloor(shard, MAX_EVENT_SHARDS_PER_PAGE) <= ShardEnd(log, shard) <= |log|
    ensures var end := ShardEnd(log, shard);
            Scan(Window(log, shard, MAX_EVENT_SHARDS_PER_PAGE), cursor, limit, matches)
            == Outcome(log, WindowFloor(shard, MAX_EVENT_SHARDS_PER_PAGE), if cursor - 1 < end then cursor - 1 else end,
                       limit, matches, [], None, 0)
  {
    var floor, end := WindowFloor(shard, MAX_EVENT_SHARDS_PER_PAGE), ShardEnd(log, shard);
    var candidates := Flatten(Window(log, shard, MAX_EVENT_SHARDS_PER_PAGE));
    WindowIsStretch(log, shard, MAX_EVENT_SHARDS_PER_PAGE);
    StretchDescends(candidates, log, floor, end);
    SortedStays(candidates);
    ScanOfStretch(candidates, log, floor, end, cursor, limit, matches);
  }

  lemma FreshOutcome(log: seq<Entry>, floor: nat, newest: nat, limit: nat, matches: Entry -> bool)
    requires floor < newest <= |log| && limit > 0
    ensures var low := Reached(log, floor, newest, limit, matches);
            Outcome(log, floor, newest, limit, matches, [], None, 0)
            == ScanResult(Matching(log, low, newest, matches), Some(low + 1), low > 0, newest - low)
  {
    var low := Reached(log, floor, newest, limit, matches);
    assert [] + Matching(log, low, newest, matches) == Matching(log, low, newest, matches);
  }

  lemma RequestScans(log: seq<Entry>, cursor: nat, limit: nat, matches: Entry -> bool)
    requires IsLog(log) && cursor > 0 && limit > 0 && NewestSequence(log, cursor) > 0
    ensures Floor(log, cursor) < NewestSequence(log, cursor) <= |log|
    ensures ReadEvents(log, cursor, limit, matches)
            == Outcome(log, Floor(log, cursor), NewestSequence(log, cursor), limit, matches, [], None, 0)
  {
    FloorFits(log, cursor);
    WindowScan(log, (NewestSequence(log, cursor) - 1) / EVENT_INDEX_SHARD_SIZE, cursor, limit, matches);
  }

  /** What one request returns, for a cursor above the oldest entry. */
  lemma RequestReads(log: seq<Entry>, cursor: nat, limit: nat, matches: Entry -> bool)
    requires IsLog(log) && cursor > 0 && limit > 0 && NewestSequence(log, cursor) > 0
    ensures Floor(log, cursor) <= NewestSequence(log, cursor) <= |log|
    ensures var newest := NewestSequence(log, cursor);
            var low := Reached(log, Floor(log, cursor), newest, limit, matches);
            ReadEvents(log, cursor, limit, matches)
            == ScanResult(Matching(log, low, newest, matches), Some(low + 1), low > 0, newest - low)
  {
    RequestScans(log, cursor, limit, matches);
    FreshOutcome(log, Floor(log, cursor), NewestSequence(log, cursor), limit, matches);
  }

  lemma NothingOlder(log: seq<Entry>, cursor: nat, limit: nat, matches: Entry -> bool)
    requires cursor > 0 && NewestSequence(log, cursor) == 0
    ensures ReadEvents(log, cursor, limit, matches) == ScanResult([], None, false, 0)
  {
  }

  /** A scan stops short of the floor only at the match that fills the limit. */
  lemma {:induction false} ReachedStops(log: seq<Entry>, floor: nat, b: nat, limit: nat, matches: Entry -> bool)
    requires floor <= b <= |log|
    ensures var low := Reached(log, floor, b, limit, matches);
            floor < low < b ==> matches(log[low]) && |Matching(log, low, b, matches)| == limit
    decreases b
  {
    if b > floor && limit > 0 {
      ReachedStops(log, floor, b - 1, if matches(log[b - 1]) then limit - 1 else limit, matches);
    }
  }

  /**
   * What a request owes: from the newest entry below its cursor down it has looked at an unbroken stretch, within four
   * shards of 256, and returns what matches there. It stops early only at the match that fills the limit, and names the
   * last entry it looked at.
   */
  ghost predicate IsAnswer(log: seq<Entry>, cursor: nat, limit: nat, matches: Entry -> bool, r: ScanResult) {
    var newest := if cursor <= |log| then cursor - 1 else |log|;
    && cursor > 0 && r.inspectedCount <= newest
    && var low := newest - r.inspectedCount;
    && r.entries == Matching(log, low, newest, matches) && |r.entries| <= limit && (r.hasOlder <==> low > 0)
    && r.lastInspected == (if newest == 0 then None else Some(low + 1))
    && (low == newest ==> newest == 0)
    && 256 * ((newest - 1) / 256 - 3) <= low
    && (low == 0 || low == 256 * ((newest - 1) / 256 - 3) || (|r.entries| == limit && matches(log[low])))
  }

  lemma RequestIsAnswered(log: seq<Entry>, cursor: nat, limit: nat, matches: Entry -> bool)
    requires IsLog(log) && cursor > 0 && limit > 0
    ensures IsAnswer(log, cursor, limit, matches, ReadEvents(log, cursor, limit, matches))
  {
    var newest := NewestSequence(log, cursor);
    if newest == 0 {
      NothingOlder(log, cursor, limit, matches);
    } else {
      RequestReads(log, cursor, limit, matches);
      FloorFits(log, cursor);
      ReachedWithinLimit(log, Floor(log, cursor), newest, limit, matches);
      ReachedStops(log, Floor(log, cursor), newest, limit, matches);
    }
  }

  /** The cursor of a request lies strictly below the one it was sent, and it looks at no more than 1024 entries. */
  lemma RequestIsBounded(log: seq<Entry>, cursor: nat, limit: nat, matches: Entry -> bool)
    requires IsLog(log) && cursor > 0 && limit > 0
    ensures var r := ReadEvents(log, cursor, limit, matches);
            && r.inspectedCount <= 1024
            && (r.hasOlder ==> r.lastInspected.Some? && 0 < r.lastInspected.value < cursor)
  {
    RequestIsAnswered(log, cursor, limit, matches);
  }

  /** Following the cursors from one on, collecting what each request returns. */
  function FollowEvents(log: seq<Entry>, cursor: nat, limit: nat, matches: Entry -> bool): seq<Entry>
    requires cursor > 0
    decreases cursor
  {
    var r := ReadEvents(log, cursor, limit, matches);
    if r.hasOlder && r.lastInspected.Some? && 0 < r.lastInspected.value < cursor then
      r.entries + FollowEvents(log, r.lastInspected.value, limit, matches)
    else r.entries
  }

  /**
   * For every log, filter, limit and cursor: following the cursors returns every matching event below the first
   * cursor exactly once, newest first.
   */
  lemma {:induction false} EventCursorsCover(log: seq<Entry>, cursor: nat, limit: nat, matches: Entry -> bool)
    requires IsLog(log) && cursor > 0 && limit > 0
    ensures FollowEvents(log, cursor, limit, matches) == Matching(log, 0, if cursor <= |log| then cursor - 1 else |log|, matches)
    decreases cursor
  {
    var newest := NewestSequence(log, cursor);
    if newest == 0 {
      NothingOlder(log, cursor, limit, matches);
    } else {
      RequestReads(log, cursor, limit, matches);
      FloorFits(log, cursor);
      var low := Reached(log, Floor(log, cursor), newest, limit, matches);
      if low > 0 {
        EventCursorsCover(log, low + 1, limit, matches);
        MatchingSplits(log, 0, low, newest, matches);
      }
    }
  }
}

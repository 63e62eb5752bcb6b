/** Reading the events of a Project back from its files, and what an append makes of them. */
module StateStore {
  import opened Prelude
  import opened Protocol
  import opened Lists
  import opened StoreTypes
  import opened StoredBatches

  // -------------------------------------------------------------------- decoding

  predicate EnvelopeIsValid<E>(stored: StoredEvent<E>) {
    stored.commandEventCount > 0 && stored.sequence > 0 && 1 <= stored.occurredAt.month <= 12
  }

  /** The file holds an event of the Project, in the place its envelope names. */
  predicate IsOwnEvent<E(==)>(content: Content<E>, path: Path, repository: Repository, projectId: string) {
    && content.EventJson? && EnvelopeIsValid(content.stored) && content.stored.projectId == projectId
    && SameRepository(content.stored.repository, repository) && EventPath(content.stored) == path
  }

  /** The events are exactly the Project's event files, numbered from 1. */
  ghost predicate Holds<E>(files: Files<E>, repository: Repository, projectId: string, events: seq<StoredEvent<E>>) {
    && IsNumbered(events)
    && (forall e | e in events ::
          IsEventPath(EventPath(e), projectId) && EventPath(e) in files && files[EventPath(e)] == EventJson(e))
    && (forall path {:trigger IsEventPath(path, projectId)} | path in files && IsEventPath(path, projectId) ::
          IsOwnEvent(files[path], path, repository, projectId) && files[path].stored in events)
  }

  /** They form valid batches too: this is what reading the Project gives. */
  ghost predicate Decodes<E>(files: Files<E>, repository: Repository, projectId: string, events: seq<StoredEvent<E>>) {
    Holds(files, repository, projectId, events) && BatchesAreValid(events, projectId)
  }

  /** Files hold one numbered list of events at most. */
  lemma ListingIsUnique<E>(files: Files<E>, repository: Repository, projectId: string, a: seq<StoredEvent<E>>, b: seq<StoredEvent<E>>)
    requires Holds(files, repository, projectId, a) && Holds(files, repository, projectId, b)
    ensures a == b
  {
    DecodedIsIn(files, repository, projectId, a, b);
    DecodedIsIn(files, repository, projectId, b, a);
  }

  lemma DecodedIsIn<E>(files: Files<E>, repository: Repository, projectId: string, a: seq<StoredEvent<E>>, b: seq<StoredEvent<E>>)
    requires Holds(files, repository, projectId, a) && Holds(files, repository, projectId, b)
    ensures |a| <= |b| && forall i | 0 <= i < |a| :: a[i] == b[i]
  {
    if |a| > 0 {
      DecodedAt(files, repository, projectId, a, b, |a| - 1);
    }
    forall i | 0 <= i < |a| ensures a[i] == b[i] {
      DecodedAt(files, repository, projectId, a, b, i);
    }
  }

  lemma DecodedAt<E>(files: Files<E>, repository: Repository, projectId: string, a: seq<StoredEvent<E>>, b: seq<StoredEvent<E>>, i: nat)
    requires Holds(files, repository, projectId, a) && Holds(files, repository, projectId, b) && i < |a|
    ensures i < |b| && a[i] == b[i]
  {
    assert a[i] in a && IsEventPath(EventPath(a[i]), projectId);
    assert a[i] in b;
    var k :| 0 <= k < |b| && b[k] == a[i];
  }

  // --------------------------------------------------------------------- sorting

  function Insert<E>(e: StoredEvent<E>, sorted: seq<StoredEvent<E>>): seq<StoredEvent<E>> {
    if sorted == [] || e.sequence <= sorted[0].sequence then [e] + sorted else [sorted[0]] + Insert(e, sorted[1..])
  }

  function SortBySequence<E>(s: seq<StoredEvent<E>>): seq<StoredEvent<E>> {
    if s == [] then [] else Insert(s[0], SortBySequence(s[1..]))
  }

  predicate SameElements<T(==)>(a: seq<T>, b: seq<T>) {
    (forall x | x in a :: x in b) && forall x | x in b :: x in a
  }

  predicate Ascends<E>(s: seq<StoredEvent<E>>) {
    forall i, j | 0 <= i < j < |s| :: s[i].sequence <= s[j].sequence
  }

  lemma PrependKeeps<E>(e: StoredEvent<E>, s: seq<StoredEvent<E>>)
    requires Ascends(s) && Distinct(s) && e !in s && forall x | x in s :: e.sequence <= x.sequence
    ensures Ascends([e] + s) && Distinct([e] + s)
  {
  }

  lemma {:induction false} InsertKeeps<E>(e: StoredEvent<E>, s: seq<StoredEvent<E>>)
    requires Ascends(s) && Distinct(s) && e !in s
    ensures Ascends(Insert(e, s)) && Distinct(Insert(e, s)) && SameElements(Insert(e, s), [e] + s)
  {
    if s != [] && e.sequence > s[0].sequence {
      assert s == [s[0]] + s[1..] && s[0] !in s[1..];
      InsertKeeps(e, s[1..]);
      forall x | x in s[1..] ensures s[0].sequence <= x.sequence {
        var k :| 0 <= k < |s| - 1 && s[1..][k] == x;
        assert s[k + 1] == x;
      }
      forall x | x in Insert(e, s[1..]) ensures s[0].sequence <= x.sequence && x != s[0] {
        assert x == e || x in s[1..];
      }
      PrependKeeps(s[0], Insert(e, s[1..]));
    } else {
      forall x | x in s ensures e.sequence <= x.sequence {
        assert s != [] && s[0].sequence <= x.sequence;
      }
      PrependKeeps(e, s);
    }
  }

  lemma {:induction false} SortKeeps<E>(s: seq<StoredEvent<E>>)
    requires Distinct(s)
    ensures Ascends(SortBySequence(s)) && Distinct(SortBySequence(s)) && SameElements(SortBySequence(s), s)
  {
    if s != [] {
      assert s == [s[0]] + s[1..] && s[0] !in s[1..];
      SortKeeps(s[1..]);
      InsertKeeps(s[0], SortBySequence(s[1..]));
    }
  }

  /** Distinct members of a numbered list, in ascending order and as many of them, are that list. */
  lemma SortedIsNumbered<E>(sorted: seq<StoredEvent<E>>, events: seq<StoredEvent<E>>)
    requires Ascends(sorted) && Distinct(sorted) && IsNumbered(events)
    requires SameElements(sorted, events)
    ensures sorted == events
  {
    NumberedIsDistinct(events);
    DistinctSize(sorted);
    DistinctSize(events);
    assert Elements(sorted) == Elements(events);
    forall i | 0 <= i < |sorted| ensures sorted[i] in events && 1 <= sorted[i].sequence <= |events| && events[sorted[i].sequence - 1] == sorted[i] {
      assert sorted[i] in sorted;
      var k :| 0 <= k < |events| && events[k] == sorted[i];
    }
    forall i, j | 0 <= i < j < |sorted| ensures sorted[i].sequence < sorted[j].sequence {
      assert sorted[i] != sorted[j];
    }
    forall i | 0 <= i < |sorted| ensures sorted[i].sequence == i + 1 {
      AscendingFills(sorted, i);
    }
  }

  lemma NumberedIsDistinct<E>(events: seq<StoredEvent<E>>)
    requires IsNumbered(events)
    ensures Distinct(events)
  {
    forall i, j | 0 <= i < j < |events| ensures events[i] != events[j] {
      assert events[i].sequence != events[j].sequence;
    }
  }

  lemma AscendingFills<E>(s: seq<StoredEvent<E>>, i: nat)
    requires i < |s| && forall j | 0 <= j < |s| :: 1 <= s[j].sequence <= |s|
    requires forall j, k | 0 <= j < k < |s| :: s[j].sequence < s[k].sequence
    ensures s[i].sequence == i + 1
  {
    AtLeast(s, i);
    AtMost(s, i);
  }

  lemma {:induction false} AtLeast<E>(s: seq<StoredEvent<E>>, i: nat)
    requires i < |s| && forall j | 0 <= j < |s| :: 1 <= s[j].sequence
    requires forall j, k | 0 <= j < k < |s| :: s[j].sequence < s[k].sequence
    ensures s[i].sequence >= i + 1
  {
    if i > 0 {
      AtLeast(s, i - 1);
    }
  }

  lemma {:induction false} AtMost<E>(s: seq<StoredEvent<E>>, i: nat)
    requires i < |s| && forall j | 0 <= j < |s| :: s[j].sequence <= |s|
    requires forall j, k | 0 <= j < k < |s| :: s[j].sequence < s[k].sequence
    ensures s[i].sequence <= i + 1
    decreases |s| - i
  {
    if i < |s| - 1 {
      AtMost(s, i + 1);
    }
  }

  // ------------------------------------------------------------------ the decoder

  function EventPaths<E>(files: Files<E>, projectId: string): set<Path> {
    set path | path in files && IsEventPath(path, projectId)
  }

  /** The stored events of the given files, each once. */
  ghost predicate Collected<E>(files: Files<E>, paths: set<Path>, events: seq<StoredEvent<E>>) {
    && Distinct(events)
    && (forall e {:trigger e in events} | e in events :: EventPath(e) in paths && EventPath(e) in files && files[EventPath(e)] == EventJson(e))
    && forall path {:trigger path in paths} | path in paths :: path in files && files[path].EventJson? && files[path].stored in events
  }

  /** The events of the listed files, in the order listed. */
  predicate AreEventsAt<E(==)>(files: Files<E>, repository: Repository, projectId: string, paths: seq<Path>, events: seq<StoredEvent<E>>) {
    && |events| == |paths|
    && forall i | 0 <= i < |paths| ::
         && paths[i] in files && IsOwnEvent(files[paths[i]], paths[i], repository, projectId) && events[i] == files[paths[i]].stored
  }

  lemma ListedIsCollected<E>(files: Files<E>, repository: Repository, projectId: string, all: set<Path>, paths: seq<Path>, events: seq<StoredEvent<E>>)
    requires Distinct(paths) && (forall path | path in paths :: path in all) && forall path | path in all :: path in paths
    requires AreEventsAt(files, repository, projectId, paths, events)
    ensures Collected(files, all, events)
    ensures forall path | path in all :: path in files && IsOwnEvent(files[path], path, repository, projectId)
  {
    forall path | path in all
      ensures path in files && IsOwnEvent(files[path], path, repository, projectId) && files[path].stored in events
    {
      var i :| 0 <= i < |paths| && paths[i] == path;
      assert events[i] in events;
    }
    forall e | e in events ensures EventPath(e) in all && EventPath(e) in files && files[EventPath(e)] == EventJson(e) {
      var i :| 0 <= i < |events| && events[i] == e;
      assert paths[i] in paths;
    }
    forall i, j | 0 <= i < j < |events| ensures events[i] != events[j] {
      assert EventPath(events[i]) == paths[i] && EventPath(events[j]) == paths[j];
    }
  }

  lemma CollectedDecodes<E>(files: Files<E>, repository: Repository, projectId: string, events: seq<StoredEvent<E>>, sorted: seq<StoredEvent<E>>)
    requires Collected(files, EventPaths(files, projectId), events)
    requires forall path | path in EventPaths(files, projectId) :: IsOwnEvent(files[path], path, repository, projectId)
    requires SameElements(sorted, events)
    ensures IsNumbered(sorted) ==> Holds(files, repository, projectId, sorted)
  {
    forall e | e in sorted
      ensures IsEventPath(EventPath(e), projectId) && EventPath(e) in files && files[EventPath(e)] == EventJson(e)
    {
      assert e in events && EventPath(e) in EventPaths(files, projectId);
    }
    forall path | path in files && IsEventPath(path, projectId)
      ensures IsOwnEvent(files[path], path, repository, projectId) && files[path].stored in sorted
    {
      assert path in EventPaths(files, projectId);
    }
  }

  lemma DecodedIsCollected<E>(files: Files<E>, repository: Repository, projectId: string, events: seq<StoredEvent<E>>, decoded: seq<StoredEvent<E>>)
    requires Collected(files, EventPaths(files, projectId), events) && Holds(files, repository, projectId, decoded)
    ensures SameElements(events, decoded)
  {
    forall x | x in events ensures x in decoded {
      assert EventPath(x) in EventPaths(files, projectId) && IsEventPath(EventPath(x), projectId);
    }
    forall x | x in decoded ensures x in events {
      assert EventPath(x) in EventPaths(files, projectId);
    }
  }

  /** Once every event file is collected, its sorted list is the only one the files can hold. */
  lemma ListingOutcome<E(!new)>(files: Files<E>, repository: Repository, projectId: string, events: seq<StoredEvent<E>>)
    requires Collected(files, EventPaths(files, projectId), events)
    requires forall path | path in EventPaths(files, projectId) :: IsOwnEvent(files[path], path, repository, projectId)
    ensures var sorted := SortBySequence(events);
            && (IsNumbered(sorted) ==> Holds(files, repository, projectId, sorted))
            && forall listed | Holds(files, repository, projectId, listed) :: listed == sorted
  {
    var sorted := SortBySequence(events);
    SortKeeps(events);
    CollectedDecodes(files, repository, projectId, events, sorted);
    forall listed | Holds(files, repository, projectId, listed) ensures listed == sorted {
      DecodedIsCollected(files, repository, projectId, events, listed);
      SortedIsNumbered(sorted, listed);
    }
  }

  /** What reading a Project answers, whatever order its files come in. */
  ghost function Decoding<E(!new)>(files: Files<E>, repository: Repository, projectId: string): StoreResult<seq<StoredEvent<E>>> {
    if exists events :: Holds(files, repository, projectId, events) then
      var events :| Holds(files, repository, projectId, events);
      match ScanFrom(events, projectId, 0, map[], {})
      case Err(code) => Err(code)
      case Ok(_) => Ok(events)
    else Err(InvalidEvent)
  }

  lemma DecodingOfListed<E(!new)>(files: Files<E>, repository: Repository, projectId: string, events: seq<StoredEvent<E>>)
    requires Holds(files, repository, projectId, events)
    ensures Decoding(files, repository, projectId)
            == match ScanFrom(events, projectId, 0, map[], {}) case Err(code) => Err(code) case Ok(_) => Ok(events)
  {
    var chosen :| Holds(files, repository, projectId, chosen)
                  && Decoding(files, repository, projectId)
                     == match ScanFrom(chosen, projectId, 0, map[], {}) case Err(code) => Err(code) case Ok(_) => Ok(chosen);
    ListingIsUnique(files, repository, projectId, chosen, events);
  }

  /** Reading succeeds with a list exactly when the files decode to it. */
  lemma DecodingMeaning<E(!new)>(files: Files<E>, repository: Repository, projectId: string, events: seq<StoredEvent<E>>)
    ensures Decoding(files, repository, projectId) == Ok(events) <==> Decodes(files, repository, projectId, events)
  {
    if Holds(files, repository, projectId, events) {
      DecodingOfListed(files, repository, projectId, events);
      ScanFromMeaning(events, projectId, 0, map[], {});
    } else if listed :| Holds(files, repository, projectId, listed) {
      DecodingOfListed(files, repository, projectId, listed);
    }
  }

  /** Files decode to one list of events at most. */
  lemma DecodingIsUnique<E(!new)>(files: Files<E>, repository: Repository, projectId: string, a: seq<StoredEvent<E>>, b: seq<StoredEvent<E>>)
    requires Decodes(files, repository, projectId, a) && Decodes(files, repository, projectId, b)
    ensures a == b
  {
    ListingIsUnique(files, repository, projectId, a, b);
  }

  /** The paths, listed in some order. */
  method ListPaths(paths: set<Path>) returns (listed: seq<Path>)
    ensures Distinct(listed) && (forall path | path in listed :: path in paths) && forall path | path in paths :: path in listed
  {
    listed := [];
    var pending := paths;
    while pending != {}
      invariant Distinct(listed) && pending <= paths
      invariant forall path | path in listed :: path in paths && path !in pending
      invariant forall path | path in paths :: path in listed || path in pending
      decreases |pending|
    {
      var path :| path in pending;
      pending := pending - {path};
      listed := listed + [path];
    }
  }

  /** The pushing loop of the decoder. */
  method CollectEvents<E(==)>(files: Files<E>, repository: Repository, projectId: string, paths: seq<Path>) returns (r: StoreResult<seq<StoredEvent<E>>>)
    requires forall path | path in paths :: path in files
    ensures r.Ok? ==> AreEventsAt(files, repository, projectId, paths, r.value)
    ensures r.Err? ==> exists path :: path in paths && !IsOwnEvent(files[path], path, repository, projectId)
  {
    var events: seq<StoredEvent<E>> := [];
    for i := 0 to |paths|
      invariant AreEventsAt(files, repository, projectId, paths[..i], events)
    {
      assert paths[i] in paths;
      if !IsOwnEvent(files[paths[i]], paths[i], repository, projectId) {
        return Err(InvalidEvent);
      }
      assert paths[..i + 1] == paths[..i] + [paths[i]];
      events := events + [files[paths[i]].stored];
    }
    assert paths[..|paths|] == paths;
    return Ok(events);
  }

  /** `#decodeStoredEvents`. */
  method DecodeStoredEvents<E(==,!new)>(files: Files<E>, repository: Repository, projectId: string) returns (r: StoreResult<seq<StoredEvent<E>>>)
    ensures r == Decoding(files, repository, projectId)
  {
    var all := EventPaths(files, projectId);
    var paths := ListPaths(all);
    var collected := CollectEvents(files, repository, projectId, paths);
    if collected.Err? {
      ForeignFileIsNotListed(files, repository, projectId);
      return Err(InvalidEvent);
    }
    ListedIsCollected(files, repository, projectId, all, paths, collected.value);
    ListingOutcome(files, repository, projectId, collected.value);
    var sorted := SortBySequence(collected.value);
    if !IsNumbered(sorted) {
      return Err(InvalidEvent);
    }
    DecodingOfListed(files, repository, projectId, sorted);
    var batches := ValidateCommandBatches(sorted, projectId);
    if batches.Err? {
      return Err(batches.error);
    }
    return Ok(sorted);
  }

  lemma ForeignFileIsNotListed<E(!new)>(files: Files<E>, repository: Repository, projectId: string)
    requires !forall path | path in EventPaths(files, projectId) :: IsOwnEvent(files[path], path, repository, projectId)
    ensures forall events :: !Holds(files, repository, projectId, events)
  {
    var path :| path in EventPaths(files, projectId) && !IsOwnEvent(files[path], path, repository, projectId);
    assert IsEventPath(path, projectId);
  }
}

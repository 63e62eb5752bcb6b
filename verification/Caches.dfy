/** The read-Project and Node-anchor caches: loads publish only what no invalidation has overtaken. */
module Caches {
  import opened Prelude
  import opened Lists
  import opened Transport
  import opened Generations

  const MAX_NODE_ANCHOR_CACHE_ENTRIES := 3000

  datatype ProjectEntry<+V> = ProjectEntry(value: V, cachedAt: int)

  /** Names the verified anchor of one card of a Project of the repository. */
  datatype AnchorKey = AnchorKey(repository: RepositoryKey, card: string)
  datatype AnchorEntry = AnchorEntry(key: AnchorKey, cachedAt: int)

  /** The cards whose verification readers wait for together. */
  datatype FlightKey = FlightKey(repository: RepositoryKey, cards: set<string>)

  /** What a load is for: the Projects of the repository, or the anchors of some of its cards. */
  datatype Purpose = ProjectsOf | AnchorsOf(cards: set<string>)

  /** A load on its way, with the generation it began in. */
  datatype Load = Load(repository: RepositoryKey, purpose: Purpose, generation: Generation)

  predicate IsFresh(cachedAt: int, now: int, ttl: int) {
    0 <= now - cachedAt < ttl
  }

  function Without(entries: seq<AnchorEntry>, key: AnchorKey): seq<AnchorEntry> {
    Filter(entries, (e: AnchorEntry) => e.key != key)
  }

  /** Entries are kept in the order they were last set. */
  function Refresh(entries: seq<AnchorEntry>, keys: seq<AnchorKey>, cachedAt: int): (r: seq<AnchorEntry>)
    ensures forall e | e in r :: e in entries || (e.key in keys && e.cachedAt == cachedAt)
  {
    if keys == [] then entries
    else
      var last := keys[|keys| - 1];
      Without(Refresh(entries, keys[..|keys| - 1], cachedAt), last) + [AnchorEntry(last, cachedAt)]
  }

  predicate DistinctKeys(entries: seq<AnchorEntry>) {
    forall i, j | 0 <= i < j < |entries| :: entries[i].key != entries[j].key
  }

  lemma {:induction false} WithoutKeepsDistinct(entries: seq<AnchorEntry>, key: AnchorKey)
    requires DistinctKeys(entries)
    ensures DistinctKeys(Without(entries, key))
  {
    if entries != [] {
      WithoutKeepsDistinct(entries[1..], key);
      forall e | e in Without(entries[1..], key) ensures e.key != entries[0].key {
        var i :| 0 <= i < |entries[1..]| && entries[1..][i] == e;
        assert entries[i + 1] == e;
      }
    }
  }

  /** The other entries stay as they are and in order; behind them stands one new entry for each key. */
  ghost predicate IsRefreshed(entries: seq<AnchorEntry>, keys: seq<AnchorKey>, cachedAt: int, refreshed: seq<AnchorEntry>) {
    var others := Filter(entries, (e: AnchorEntry) => e.key !in keys);
    others <= refreshed && AreAdded(keys, cachedAt, refreshed[|others|..])
  }

  ghost predicate AreAdded(keys: seq<AnchorKey>, cachedAt: int, added: seq<AnchorEntry>) {
    && (forall e | e in added :: e.key in keys && e.cachedAt == cachedAt) && DistinctKeys(added)
    && forall key | key in keys :: AnchorEntry(key, cachedAt) in added
  }

  lemma AddedFor(keys: seq<AnchorKey>, key: AnchorKey, cachedAt: int, added: seq<AnchorEntry>)
    requires AreAdded(keys, cachedAt, added)
    ensures AreAdded(keys + [key], cachedAt, Without(added, key) + [AnchorEntry(key, cachedAt)])
  {
    var entry := AnchorEntry(key, cachedAt);
    var more := Without(added, key) + [entry];
    WithoutKeepsDistinct(added, key);
    assert more[|more| - 1] == entry;
    forall k | k in keys + [key] ensures AnchorEntry(k, cachedAt) in more {
      if k != key {
        assert AnchorEntry(k, cachedAt) in Without(added, key);
      }
    }
  }

  lemma {:induction false} RefreshMeaning(entries: seq<AnchorEntry>, keys: seq<AnchorKey>, cachedAt: int)
    ensures IsRefreshed(entries, keys, cachedAt, Refresh(entries, keys, cachedAt))
  {
    if keys == [] {
      FilterAll(entries, (e: AnchorEntry) => e.key !in keys);
    } else {
      var last, fewer := keys[|keys| - 1], keys[..|keys| - 1];
      assert keys == fewer + [last];
      RefreshMeaning(entries, fewer, cachedAt);
      OneMoreKey(entries, fewer, last, cachedAt, Refresh(entries, fewer, cachedAt));
    }
  }

  lemma OthersOfMore(entries: seq<AnchorEntry>, keys: seq<AnchorKey>, key: AnchorKey)
    ensures Without(Filter(entries, (e: AnchorEntry) => e.key !in keys), key) == Filter(entries, (e: AnchorEntry) => e.key !in keys + [key])
  {
    var p, q, both := (e: AnchorEntry) => e.key !in keys, (e: AnchorEntry) => e.key != key, (e: AnchorEntry) => e.key !in keys + [key];
    FilterTwice(entries, p, both);
    FilterAgrees(Filter(entries, p), q, both);
  }

  lemma OneMoreKey(entries: seq<AnchorEntry>, keys: seq<AnchorKey>, key: AnchorKey, cachedAt: int, refreshed: seq<AnchorEntry>)
    requires IsRefreshed(entries, keys, cachedAt, refreshed)
    ensures IsRefreshed(entries, keys + [key], cachedAt, Without(refreshed, key) + [AnchorEntry(key, cachedAt)])
  {
    var others := Filter(entries, (e: AnchorEntry) => e.key !in keys);
    var added := refreshed[|others|..];
    assert refreshed == others + added;
    FilterAppend(others, added, (e: AnchorEntry) => e.key != key);
    OthersOfMore(entries, keys, key);
    AddedFor(keys, key, cachedAt, added);
    OthersThenAdded(entries, keys + [key], cachedAt, Without(others, key), Without(added, key) + [AnchorEntry(key, cachedAt)]);
    assert Without(others, key) + (Without(added, key) + [AnchorEntry(key, cachedAt)]) == Without(refreshed, key) + [AnchorEntry(key, cachedAt)];
  }

  lemma OthersThenAdded(entries: seq<AnchorEntry>, keys: seq<AnchorKey>, cachedAt: int, others: seq<AnchorEntry>, added: seq<AnchorEntry>)
    requires others == Filter(entries, (e: AnchorEntry) => e.key !in keys) && AreAdded(keys, cachedAt, added)
    ensures IsRefreshed(entries, keys, cachedAt, others + added)
  {
    assert (others + added)[|others|..] == added;
  }

  function KeysOf(repository: RepositoryKey, cards: seq<string>): (r: seq<AnchorKey>)
    ensures |r| == |cards| && forall i | 0 <= i < |r| :: r[i] == AnchorKey(repository, cards[i])
  {
    seq(|cards|, i requires 0 <= i < |cards| => AnchorKey(repository, cards[i]))
  }

  function Newest(entries: seq<AnchorEntry>): seq<AnchorEntry> {
    if |entries| <= MAX_NODE_ANCHOR_CACHE_ENTRIES then entries else entries[|entries| - MAX_NODE_ANCHOR_CACHE_ENTRIES..]
  }

  /** What an invalidation leaves of the caches and flights. */
  function UncoveredAnchors(anchors: seq<AnchorEntry>, i: Invalidation): seq<AnchorEntry> {
    Filter(anchors, (e: AnchorEntry) => !Covers(i, e.key.repository))
  }

  function Uncovered<T>(m: map<RepositoryKey, T>, i: Invalidation): map<RepositoryKey, T> {
    map key | key in m && !Covers(i, key) :: m[key]
  }

  function UncoveredFlights(m: map<FlightKey, nat>, i: Invalidation): map<FlightKey, nat> {
    map flight | flight in m && !Covers(i, flight.repository) :: m[flight]
  }

  lemma UncoveredByRepository<T>(m: map<RepositoryKey, T>, flights: map<FlightKey, nat>, anchors: seq<AnchorEntry>, key: RepositoryKey)
    ensures Uncovered(m, Repository(key)) == map other | other in m && other != key :: m[other]
    ensures UncoveredFlights(flights, Repository(key)) == map flight | flight in flights && flight.repository != key :: flights[flight]
    ensures UncoveredAnchors(anchors, Repository(key)) == Filter(anchors, (e: AnchorEntry) => e.key.repository != key)
  {
    FilterAgrees(anchors, (e: AnchorEntry) => !Covers(Repository(key), e.key.repository), (e: AnchorEntry) => e.key.repository != key);
  }

  lemma UncoveredByInstallation<T>(m: map<RepositoryKey, T>, flights: map<FlightKey, nat>, anchors: seq<AnchorEntry>, id: nat)
    ensures Uncovered(m, Installation(id)) == map key | key in m && key.installationId != id :: m[key]
    ensures UncoveredFlights(flights, Installation(id))
            == map flight | flight in flights && flight.repository.installationId != id :: flights[flight]
    ensures UncoveredAnchors(anchors, Installation(id)) == Filter(anchors, (e: AnchorEntry) => e.key.repository.installationId != id)
  {
    FilterAgrees(anchors, (e: AnchorEntry) => !Covers(Installation(id), e.key.repository),
                 (e: AnchorEntry) => e.key.repository.installationId != id);
  }

  lemma AllAnchorsCovered(anchors: seq<AnchorEntry>)
    ensures UncoveredAnchors(anchors, All) == []
  {
    if UncoveredAnchors(anchors, All) != [] {
      HasMember(UncoveredAnchors(anchors, All));
    }
  }

  lemma LongerUntouched(history: seq<Invalidation>, i: Invalidation, from: nat, key: RepositoryKey)
    requires from <= |history|
    ensures Untouched(history + [i], from, key) <==> Untouched(history, from, key) && !Covers(i, key)
  {
    var longer := history + [i];
    assert longer[|history|] == i;
    forall k | from <= k < |history| ensures longer[k] == history[k] {
    }
    if Untouched(longer, from, key) {
      forall k | from <= k < |history| ensures !Covers(history[k], key) {
        assert !Covers(longer[k], key);
      }
    }
  }

  /** The load began after the last invalidation of its repository. */
  ghost predicate BeganAfter(loads: map<nat, Load>, births: map<nat, nat>, history: seq<Invalidation>, id: nat, key: RepositoryKey, purpose: Purpose) {
    && id in loads && loads[id].repository == key && loads[id].purpose == purpose
    && id in births && births[id] <= |history| && Untouched(history, births[id], key)
  }

  ghost predicate KnowTheirGeneration(loads: map<nat, Load>, births: map<nat, nat>, history: seq<Invalidation>, nextLoad: nat) {
    forall id | id in loads ::
      && id < nextLoad && id in births && births[id] <= |history|
      && loads[id].generation == GenerationOf(InvalidateEach(INITIAL, history[..births[id]]), loads[id].repository)
  }

  /** Only loads that no invalidation has overtaken can be joined. */
  ghost predicate AreCurrent(projectFlights: map<RepositoryKey, nat>, anchorFlights: map<FlightKey, nat>, loads: map<nat, Load>,
                             births: map<nat, nat>, history: seq<Invalidation>)
  {
    && (forall key | key in projectFlights :: BeganAfter(loads, births, history, projectFlights[key], key, ProjectsOf))
    && forall flight | flight in anchorFlights ::
         BeganAfter(loads, births, history, anchorFlights[flight], flight.repository, AnchorsOf(flight.cards))
  }

  /** What is cached was loaded after the last invalidation of its repository. */
  ghost predicate ProjectsAreCurrent<V>(projects: map<RepositoryKey, V>, births: map<RepositoryKey, nat>, history: seq<Invalidation>) {
    forall key | key in projects :: key in births && births[key] <= |history| && Untouched(history, births[key], key)
  }

  ghost predicate AnchorsAreCurrent(anchors: seq<AnchorEntry>, births: map<AnchorKey, nat>, history: seq<Invalidation>) {
    forall e | e in anchors :: e.key in births && births[e.key] <= |history| && Untouched(history, births[e.key], e.key.repository)
  }

  lemma InvalidatingKeepsFlights(projectFlights: map<RepositoryKey, nat>, anchorFlights: map<FlightKey, nat>, loads: map<nat, Load>,
                                 births: map<nat, nat>, history: seq<Invalidation>, i: Invalidation)
    requires AreCurrent(projectFlights, anchorFlights, loads, births, history)
    ensures AreCurrent(Uncovered(projectFlights, i), UncoveredFlights(anchorFlights, i), loads, births, history + [i])
  {
    forall key, from: nat | from <= |history| && Untouched(history, from, key) && !Covers(i, key)
      ensures Untouched(history + [i], from, key)
    {
      LongerUntouched(history, i, from, key);
    }
  }

  lemma InvalidatingKeepsEntries<V>(projects: map<RepositoryKey, V>, projectBirths: map<RepositoryKey, nat>, anchors: seq<AnchorEntry>,
                                    anchorBirths: map<AnchorKey, nat>, history: seq<Invalidation>, i: Invalidation)
    requires ProjectsAreCurrent(projects, projectBirths, history) && AnchorsAreCurrent(anchors, anchorBirths, history)
    ensures ProjectsAreCurrent(Uncovered(projects, i), projectBirths, history + [i])
    ensures AnchorsAreCurrent(UncoveredAnchors(anchors, i), anchorBirths, history + [i])
  {
    forall key, from: nat | from <= |history| && Untouched(history, from, key) && !Covers(i, key)
      ensures Untouched(history + [i], from, key)
    {
      LongerUntouched(history, i, from, key);
    }
  }

  lemma InvalidatingKeepsLoads(loads: map<nat, Load>, births: map<nat, nat>, history: seq<Invalidation>, nextLoad: nat, i: Invalidation)
    requires KnowTheirGeneration(loads, births, history, nextLoad)
    ensures KnowTheirGeneration(loads, births, history + [i], nextLoad)
    ensures InvalidateEach(INITIAL, history + [i]) == Invalidate(InvalidateEach(INITIAL, history), i)
  {
    assert (history + [i])[..|history|] == history;
    forall id | id in loads ensures (history + [i])[..births[id]] == history[..births[id]] {
    }
  }

  lemma StartingKeepsLoads(loads: map<nat, Load>, births: map<nat, nat>, history: seq<Invalidation>, nextLoad: nat,
                           key: RepositoryKey, purpose: Purpose)
    requires KnowTheirGeneration(loads, births, history, nextLoad)
    ensures var load := Load(key, purpose, GenerationOf(InvalidateEach(INITIAL, history), key));
            && KnowTheirGeneration(loads[nextLoad := load], births[nextLoad := |history|], history, nextLoad + 1)
            && BeganAfter(loads[nextLoad := load], births[nextLoad := |history|], history, nextLoad, key, purpose)
    ensures nextLoad !in loads
  {
    assert history[..|history|] == history;
  }

  lemma StartingKeepsFlights(projectFlights: map<RepositoryKey, nat>, anchorFlights: map<FlightKey, nat>, loads: map<nat, Load>,
                             births: map<nat, nat>, history: seq<Invalidation>, id: nat, load: Load)
    requires AreCurrent(projectFlights, anchorFlights, loads, births, history) && id !in loads
    ensures AreCurrent(projectFlights, anchorFlights, loads[id := load], births[id := |history|], history)
  {
  }

  lemma LandingProjectsKeeps(projectFlights: map<RepositoryKey, nat>, anchorFlights: map<FlightKey, nat>, loads: map<nat, Load>,
                             births: map<nat, nat>, history: seq<Invalidation>, id: nat)
    requires AreCurrent(projectFlights, anchorFlights, loads, births, history) && id in loads && loads[id].purpose == ProjectsOf
    ensures var key := loads[id].repository;
            var left := if key in projectFlights && projectFlights[key] == id then projectFlights - {key} else projectFlights;
            AreCurrent(left, anchorFlights, loads - {id}, births, history)
  {
  }

  lemma LandingAnchorsKeeps(projectFlights: map<RepositoryKey, nat>, anchorFlights: map<FlightKey, nat>, loads: map<nat, Load>,
                            births: map<nat, nat>, history: seq<Invalidation>, id: nat)
    requires AreCurrent(projectFlights, anchorFlights, loads, births, history) && id in loads && loads[id].purpose.AnchorsOf?
    ensures var flight := FlightKey(loads[id].repository, loads[id].purpose.cards);
            var left := if flight in anchorFlights && anchorFlights[flight] == id then anchorFlights - {flight} else anchorFlights;
            AreCurrent(projectFlights, left, loads - {id}, births, history)
  {
  }

  class ReadCaches<V> {
    const projectTtl: int
    const nodeAnchorTtl: int
    var counters: Counters
    var projects: map<RepositoryKey, ProjectEntry<V>>
    var projectFlights: map<RepositoryKey, nat>
    var anchors: seq<AnchorEntry>
    var anchorFlights: map<FlightKey, nat>
    var loads: map<nat, Load>
    var nextLoad: nat
    /** Every invalidation so far, and how many of them each load, and what it published, came after. */
    ghost var history: seq<Invalidation>
    ghost var births: map<nat, nat>
    ghost var projectBirths: map<RepositoryKey, nat>
    ghost var anchorBirths: map<AnchorKey, nat>

    ghost predicate IsCurrentLoad(id: nat, key: RepositoryKey, purpose: Purpose)
      reads this`loads, this`births, this`history
    {
      BeganAfter(loads, births, history, id, key, purpose)
    }

    /** Nothing cached comes from a load that began before an invalidation of its repository, and nobody can still join one. */
    ghost predicate Valid()
      reads this
    {
      && |history| <= MAX_SAFE_INTEGER && counters == InvalidateEach(INITIAL, history)
      && KnowTheirGeneration(loads, births, history, nextLoad)
      && AreCurrent(projectFlights, anchorFlights, loads, births, history)
      && ProjectsAreCurrent(projects, projectBirths, history) && AnchorsAreCurrent(anchors, anchorBirths, history)
    }

    constructor (projectTtl: int, nodeAnchorTtl: int)
      ensures Valid() && history == [] && projects == map[] && anchors == [] && loads == map[]
    {
      this.projectTtl, this.nodeAnchorTtl := projectTtl, nodeAnchorTtl;
      counters := INITIAL;
      projects, projectFlights, anchors, anchorFlights := map[], map[], [], map[];
      loads, nextLoad := map[], 0;
      history, births, projectBirths, anchorBirths := [], map[], map[], map[];
    }

    /** The load still has the generation it began in exactly when nothing has touched its repository since. */
    lemma GenerationIsCurrent(id: nat)
      requires Valid() && id in loads
      ensures loads[id].generation == GenerationOf(counters, loads[id].repository)
              <==> Untouched(history, births[id], loads[id].repository)
    {
      GenerationTellsInvalidations(history, births[id], loads[id].repository);
    }

    /** What every invalidation leaves: the entries and flights of the repositories it does not cover. */
    twostate predicate KeepsUncovered(i: Invalidation)
      reads this
    {
      && history == old(history) + [i] && loads == old(loads) && nextLoad == old(nextLoad) && births == old(births)
      && projects == Uncovered(old(projects), i) && projectFlights == Uncovered(old(projectFlights), i)
      && anchors == UncoveredAnchors(old(anchors), i) && anchorFlights == UncoveredFlights(old(anchorFlights), i)
      && projectBirths == old(projectBirths) && anchorBirths == old(anchorBirths)
      && counters == Invalidate(old(counters), i)
    }

    lemma InvalidatingKeepsValid(i: Invalidation)
      requires Valid()
      ensures KnowTheirGeneration(loads, births, history + [i], nextLoad)
      ensures InvalidateEach(INITIAL, history + [i]) == Invalidate(counters, i)
      ensures AreCurrent(Uncovered(projectFlights, i), UncoveredFlights(anchorFlights, i), loads, births, history + [i])
      ensures ProjectsAreCurrent(Uncovered(projects, i), projectBirths, history + [i])
      ensures AnchorsAreCurrent(UncoveredAnchors(anchors, i), anchorBirths, history + [i])
    {
      InvalidatingKeepsLoads(loads, births, history, nextLoad, i);
      InvalidatingKeepsFlights(projectFlights, anchorFlights, loads, births, history, i);
      InvalidatingKeepsEntries(projects, projectBirths, anchors, anchorBirths, history, i);
    }

    method Invalidated(i: Invalidation)
      requires Valid() && |history| < MAX_SAFE_INTEGER
      modifies this
      ensures Valid() && KeepsUncovered(i)
    {
      InvalidatingKeepsValid(i);
      counters, projects, projectFlights := Invalidate(counters, i), Uncovered(projects, i), Uncovered(projectFlights, i);
      anchors, anchorFlights, history := UncoveredAnchors(anchors, i), UncoveredFlights(anchorFlights, i), history + [i];
    }

    method InvalidateAll()
      requires Valid() && |history| < MAX_SAFE_INTEGER
      modifies this
      ensures Valid() && KeepsUncovered(All)
      ensures projects == map[] && projectFlights == map[] && anchors == [] && anchorFlights == map[]
    {
      AllAnchorsCovered(anchors);
      Invalidated(All);
    }

    method InvalidateRepository(key: RepositoryKey)
      requires Valid() && |history| < MAX_SAFE_INTEGER
      modifies this
      ensures Valid() && KeepsUncovered(Repository(key))
      ensures projects == map other | other in old(projects) && other != key :: old(projects)[other]
      ensures projectFlights == map other | other in old(projectFlights) && other != key :: old(projectFlights)[other]
      ensures anchors == Filter(old(anchors), (e: AnchorEntry) => e.key.repository != key)
      ensures anchorFlights == map flight | flight in old(anchorFlights) && flight.repository != key :: old(anchorFlights)[flight]
    {
      UncoveredByRepository(projects, anchorFlights, anchors, key);
      UncoveredByRepository(projectFlights, anchorFlights, anchors, key);
      Invalidated(Repository(key));
    }

    method InvalidateInstallation(id: nat)
      requires Valid() && |history| < MAX_SAFE_INTEGER
      modifies this
      ensures Valid() && KeepsUncovered(Installation(id))
      ensures projects == map key | key in old(projects) && key.installationId != id :: old(projects)[key]
      ensures projectFlights == map key | key in old(projectFlights) && key.installationId != id :: old(projectFlights)[key]
      ensures anchors == Filter(old(anchors), (e: AnchorEntry) => e.key.repository.installationId != id)
      ensures anchorFlights == map flight | flight in old(anchorFlights) && flight.repository.installationId != id :: old(anchorFlights)[flight]
    {
      UncoveredByInstallation(projects, anchorFlights, anchors, id);
      UncoveredByInstallation(projectFlights, anchorFlights, anchors, id);
      Invalidated(Installation(id));
    }

    /** Starts a load in the present generation. */
    method Begin(key: RepositoryKey, purpose: Purpose) returns (id: nat)
      requires Valid()
      modifies this`loads, this`nextLoad, this`births
      ensures Valid() && id == old(nextLoad) && id !in old(loads) && IsCurrentLoad(id, key, purpose) && births[id] == |history|
      ensures loads == old(loads)[id := Load(key, purpose, GenerationOf(counters, key))]
      ensures forall other | other in old(loads) :: other in old(births) && births[other] == old(births)[other]
    {
      StartingKeepsLoads(loads, births, history, nextLoad, key, purpose);
      StartingKeepsFlights(projectFlights, anchorFlights, loads, births, history, nextLoad, Load(key, purpose, GenerationOf(counters, key)));
      id := nextLoad;
      nextLoad := nextLoad + 1;
      loads := loads[id := Load(key, purpose, GenerationOf(counters, key))];
      births := births[id := |history|];
    }

    /** `#loadRepositoryReadProjects`: joins the load on its way, or starts one. */
    method LoadProjects(key: RepositoryKey) returns (id: nat)
      requires Valid()
      modifies this`loads, this`nextLoad, this`births, this`projectFlights
      ensures Valid() && IsCurrentLoad(id, key, ProjectsOf)
      ensures if key in old(projectFlights) then id == old(projectFlights)[key] && loads == old(loads)
              else id !in old(loads) && births[id] == |history|
      ensures projectFlights == old(projectFlights)[key := id]
    {
      if key in projectFlights {
        return projectFlights[key];
      }
      id := Begin(key, ProjectsOf);
      projectFlights := projectFlights[key := id];
    }

    /** A load first looks at the cache: what it serves was loaded after the last invalidation. */
    method CachedProjects(key: RepositoryKey, now: int) returns (r: Option<V>)
      requires Valid()
      ensures r.Some? <==> key in projects && projects[key].cachedAt <= now < projects[key].cachedAt + projectTtl
      ensures r.Some? ==> r.value == projects[key].value && key in projectBirths && Untouched(history, projectBirths[key], key)
    {
      if key in projects && IsFresh(projects[key].cachedAt, now, projectTtl) {
        return Some(projects[key].value);
      }
      return None;
    }

    /** `#publishReadProjectCache`: a load that was overtaken publishes nothing. */
    method PublishProjects(id: nat, entry: ProjectEntry<V>)
      requires Valid() && id in loads
      modifies this`projects, this`projectBirths
      ensures Valid()
      ensures var key := loads[id].repository;
              projects == if Untouched(history, births[id], key) then old(projects)[key := entry] else old(projects)
      ensures var key := loads[id].repository; Untouched(history, births[id], key) ==> projectBirths == old(projectBirths)[key := births[id]]
    {
      var key := loads[id].repository;
      GenerationIsCurrent(id);
      if loads[id].generation == GenerationOf(counters, key) {
        projects := projects[key := entry];
        projectBirths := projectBirths[key := births[id]];
      }
    }

    /** The load has answered: nobody joins it any more. */
    method LandProjects(id: nat)
      requires Valid() && id in loads && loads[id].purpose == ProjectsOf
      modifies this`projectFlights, this`loads
      ensures Valid() && loads == old(loads) - {id}
      ensures var key := old(loads)[id].repository;
              projectFlights == if key in old(projectFlights) && old(projectFlights)[key] == id then old(projectFlights) - {key}
                                else old(projectFlights)
    {
      var key := loads[id].repository;
      LandingProjectsKeeps(projectFlights, anchorFlights, loads, births, history, id);
      if key in projectFlights && projectFlights[key] == id {
        projectFlights := projectFlights - {key};
      }
      loads := loads - {id};
    }

    /** Whether the anchor counts as verified: if so, by a load that began after the last invalidation. An expired entry is dropped. */
    method VerifiedAnchor(key: AnchorKey, now: int) returns (r: bool)
      requires Valid()
      modifies this`anchors
      ensures Valid()
      ensures r ==> key in anchorBirths && anchorBirths[key] <= |history| && Untouched(history, anchorBirths[key], key.repository)
      ensures r <==> var found := First(old(anchors), (e: AnchorEntry) => e.key == key);
                     found.Some? && found.value.cachedAt <= now < found.value.cachedAt + nodeAnchorTtl
      ensures anchors == if r then old(anchors) else Filter(old(anchors), (e: AnchorEntry) => e.key != key)
    {
      var cached := First(anchors, (e: AnchorEntry) => e.key == key);
      r := cached.Some? && IsFresh(cached.value.cachedAt, now, nodeAnchorTtl);
      if !r {
        anchors := Without(anchors, key);
      }
    }

    /** Joins the verification of exactly these cards, or starts it. */
    method LoadAnchors(flight: FlightKey) returns (id: nat)
      requires Valid()
      modifies this`loads, this`nextLoad, this`births, this`anchorFlights
      ensures Valid() && IsCurrentLoad(id, flight.repository, AnchorsOf(flight.cards))
      ensures if flight in old(anchorFlights) then id == old(anchorFlights)[flight] && loads == old(loads)
              else id !in old(loads) && births[id] == |history|
      ensures anchorFlights == old(anchorFlights)[flight := id]
    {
      if flight in anchorFlights {
        return anchorFlights[flight];
      }
      id := Begin(flight.repository, AnchorsOf(flight.cards));
      anchorFlights := anchorFlights[flight := id];
    }

    /** Enters the verified anchors, unless the load was overtaken, and drops the oldest beyond the limit. */
    method PublishAnchors(id: nat, cards: seq<string>, cachedAt: int)
      requires Valid() && id in loads
      modifies this`anchors, this`anchorBirths
      ensures Valid()
      ensures var all := Refresh(old(anchors), KeysOf(loads[id].repository, cards), cachedAt);
              anchors == if !Untouched(history, births[id], loads[id].repository) then old(anchors)
                         else if |all| <= 3000 then all else all[|all| - 3000..]
    {
      GenerationIsCurrent(id);
      if loads[id].generation == GenerationOf(counters, loads[id].repository) {
        EnterAnchors(id, cards, cachedAt);
        DropOldest();
      }
    }

    method EnterAnchors(id: nat, cards: seq<string>, cachedAt: int)
      requires AnchorsAreCurrent(anchors, anchorBirths, history) && id in loads && id in births && births[id] <= |history|
      requires Untouched(history, births[id], loads[id].repository)
      modifies this`anchors, this`anchorBirths
      ensures AnchorsAreCurrent(anchors, anchorBirths, history) && anchors == Refresh(old(anchors), KeysOf(loads[id].repository, cards), cachedAt)
    {
      var repository := loads[id].repository;
      ghost var keys := KeysOf(repository, cards);
      for i := 0 to |cards|
        invariant AnchorsAreCurrent(anchors, anchorBirths, history) && anchors == Refresh(old(anchors), keys[..i], cachedAt)
      {
        var key := AnchorKey(repository, cards[i]);
        assert keys[..i + 1][..i] == keys[..i];
        anchors := Without(anchors, key) + [AnchorEntry(key, cachedAt)];
        anchorBirths := anchorBirths[key := births[id]];
      }
      assert keys[..|cards|] == keys;
    }

    method DropOldest()
      requires AnchorsAreCurrent(anchors, anchorBirths, history)
      modifies this`anchors
      ensures AnchorsAreCurrent(anchors, anchorBirths, history) && anchors == Newest(old(anchors))
    {
      ghost var all := anchors;
      while |anchors| > MAX_NODE_ANCHOR_CACHE_ENTRIES
        invariant AnchorsAreCurrent(anchors, anchorBirths, history) && |anchors| <= |all| && anchors == all[|all| - |anchors|..]
        invariant |anchors| == |all| || |anchors| >= MAX_NODE_ANCHOR_CACHE_ENTRIES
      {
        anchors := anchors[1..];
      }
    }

    /** The verification has answered: nobody joins it any more. */
    method LandAnchors(id: nat)
      requires Valid() && id in loads && loads[id].purpose.AnchorsOf?
      modifies this`anchorFlights, this`loads
      ensures Valid() && loads == old(loads) - {id}
      ensures var flight := FlightKey(old(loads)[id].repository, old(loads)[id].purpose.cards);
              anchorFlights == if flight in old(anchorFlights) && old(anchorFlights)[flight] == id then old(anchorFlights) - {flight}
                               else old(anchorFlights)
    {
      var flight := FlightKey(loads[id].repository, loads[id].purpose.cards);
      LandingAnchorsKeeps(projectFlights, anchorFlights, loads, births, history, id);
      if flight in anchorFlights && anchorFlights[flight] == id {
        anchorFlights := anchorFlights - {flight};
      }
      loads := loads - {id};
    }
  }
}

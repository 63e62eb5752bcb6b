/** The generation counters that tell a load whether the caches were invalidated while it ran. */
module Generations {
  import opened Prelude
  import opened Transport

  datatype Invalidation = All | Installation(id: nat) | Repository(key: RepositoryKey)

  /** The three kinds of counters; one that is missing counts as 0. */
  datatype Counters = Counters(global: nat, installations: map<nat, nat>, repositories: map<RepositoryKey, nat>)

  datatype Generation = Generation(global: nat, installation: nat, repository: nat)

  const INITIAL := Counters(0, map[], map[])

  /** Counters wrap around. */
  function Next(value: nat): nat {
    if value == MAX_SAFE_INTEGER then 0 else value + 1
  }

  function Get<K>(counters: map<K, nat>, key: K): nat {
    if key in counters then counters[key] else 0
  }

  function GenerationOf(c: Counters, key: RepositoryKey): Generation {
    Generation(c.global, Get(c.installations, key.installationId), Get(c.repositories, key))
  }

  /** Invalidating more resets the counters below. */
  function Invalidate(c: Counters, i: Invalidation): Counters {
    match i
    case All => Counters(Next(c.global), map[], map[])
    case Installation(id) =>
      c.(installations := c.installations[id := Next(Get(c.installations, id))],
         repositories := map key | key in c.repositories && key.installationId != id :: c.repositories[key])
    case Repository(key) => c.(repositories := c.repositories[key := Next(Get(c.repositories, key))])
  }

  function InvalidateEach(c: Counters, history: seq<Invalidation>): Counters {
    if history == [] then c else Invalidate(InvalidateEach(c, history[..|history| - 1]), history[|history| - 1])
  }

  predicate Covers(i: Invalidation, key: RepositoryKey) {
    match i
    case All => true
    case Installation(id) => key.installationId == id
    case Repository(other) => key == other
  }

  /** None of the invalidations from the given one on concerns the repository. */
  predicate Untouched(history: seq<Invalidation>, from: nat, key: RepositoryKey) {
    forall i | from <= i < |history| :: !Covers(history[i], key)
  }

  predicate Precedes(a: Generation, b: Generation) {
    || a.global < b.global
    || (a.global == b.global && (a.installation < b.installation || (a.installation == b.installation && a.repository < b.repository)))
  }

  predicate BoundedBy(c: Counters, n: nat) {
    && c.global <= n
    && (forall id | id in c.installations :: c.installations[id] <= n)
    && forall key | key in c.repositories :: c.repositories[key] <= n
  }

  lemma {:induction false} CountersAreBounded(history: seq<Invalidation>)
    requires |history| <= MAX_SAFE_INTEGER
    ensures BoundedBy(InvalidateEach(INITIAL, history), |history|)
  {
    if history != [] {
      CountersAreBounded(history[..|history| - 1]);
    }
  }

  /** One invalidation moves the generation of what it covers forward and leaves every other. */
  lemma InvalidationAdvances(c: Counters, i: Invalidation, key: RepositoryKey)
    requires BoundedBy(c, MAX_SAFE_INTEGER - 1)
    ensures Covers(i, key) ==> Precedes(GenerationOf(c, key), GenerationOf(Invalidate(c, i), key))
    ensures !Covers(i, key) ==> GenerationOf(Invalidate(c, i), key) == GenerationOf(c, key)
  {
  }

  /**
   * Although wider invalidations reset narrower counters, the generation of a repository never goes back, and it is
   * the same as before exactly when nothing in between concerned the repository.
   */
  lemma {:induction false} GenerationTellsInvalidations(history: seq<Invalidation>, from: nat, key: RepositoryKey)
    requires from <= |history| <= MAX_SAFE_INTEGER
    ensures var was := GenerationOf(InvalidateEach(INITIAL, history[..from]), key);
            var now := GenerationOf(InvalidateEach(INITIAL, history), key);
            if Untouched(history, from, key) then now == was else Precedes(was, now)
    decreases |history| - from
  {
    if from == |history| {
      assert history[..from] == history;
    } else {
      var longer := history[..from + 1];
      assert longer[..from] == history[..from];
      CountersAreBounded(history[..from]);
      InvalidationAdvances(InvalidateEach(INITIAL, history[..from]), history[from], key);
      GenerationTellsInvalidations(history, from + 1, key);
      assert Untouched(history, from, key) <==> !Covers(history[from], key) && Untouched(history, from + 1, key);
    }
  }

  function Repeated(key: RepositoryKey, n: nat): seq<Invalidation> {
    seq(n, _ => Repository(key))
  }

  lemma {:induction false} RepeatedCounts(c: Counters, key: RepositoryKey, n: nat)
    requires Get(c.repositories, key) <= MAX_SAFE_INTEGER && n <= MAX_SAFE_INTEGER + 1
    ensures var sum := Get(c.repositories, key) + n;
            GenerationOf(InvalidateEach(c, Repeated(key, n)), key)
            == GenerationOf(c, key).(repository := if sum <= MAX_SAFE_INTEGER then sum else sum - (MAX_SAFE_INTEGER + 1))
  {
    if n > 0 {
      RepeatedCounts(c, key, n - 1);
      assert Repeated(key, n)[..n - 1] == Repeated(key, n - 1);
    }
  }

  /** Without a bound it would fail: invalidating one repository first hides itself at the 2 ** 53rd time. */
  lemma InvalidationsHideAfterWrap(c: Counters, key: RepositoryKey, n: nat)
    requires Get(c.repositories, key) <= MAX_SAFE_INTEGER && n <= MAX_SAFE_INTEGER + 1
    ensures GenerationOf(InvalidateEach(c, Repeated(key, n)), key) == GenerationOf(c, key) <==> n == 0 || n == MAX_SAFE_INTEGER + 1
  {
    RepeatedCounts(c, key, n);
  }
}

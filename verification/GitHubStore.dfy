/** `GitHubProjectStore.append`, against a repository other clients may change whenever it waits. */
module GitHubStore {
  import opened Prelude
  import opened Protocol
  import opened StoreTypes
  import opened StoredBatches
  import opened StateStore
  import opened StoreAppend
  import opened AppendDecode
  import opened StoreHistory
  import opened Transport
  import opened StoreProtocol

  datatype AppendResult<+E, +S> = AppendResult(state: S, stateHeadSha: CommitSha<E>, idempotentReplay: bool)

  function OutcomeOf<E, S>(r: StoreResult<AppendResult<E, S>>): Outcome<E, S> {
    match r
    case Err(code) => Refused(code)
    case Ok(a) => if a.idempotentReplay then Replayed(a.state, a.stateHeadSha) else Committed(a.state, a.stateHeadSha)
  }

  method StoreEvents<E, S>(c: AppendCommand<E, S>, headSha: CommitSha<E>, priorCount: nat, events: seq<E>) returns (batch: seq<StoredEvent<E>>)
    ensures batch == BatchOf(c, headSha, priorCount, events)
  {
    batch := [];
    var key, hash := Digest(c.idempotencyKey), Digest(c.command);
    for i := 0 to |events|
      invariant batch == BatchOf(c, headSha, priorCount, events)[..i]
    {
      batch := batch + [StoredEvent(Derived(c.projectId, key, hash, i), c.projectId, c.repository, key, hash, headSha, |events|,
                                    priorCount + i + 1, c.actor, c.occurredAt, events[i])];
    }
  }

  /** Pushes the event files, none of which may exist. */
  method PushEvents<E>(files: Files<E>, events: seq<Update<E>>) returns (r: StoreResult<seq<Update<E>>>)
    ensures r == if AllNew(files, events) then Ok(events) else Err(InvalidEvent)
  {
    var updates: seq<Update<E>> := [];
    for i := 0 to |events|
      invariant updates == events[..i] && forall k | 0 <= k < i :: events[k].0 !in files
    {
      if events[i].0 in files {
        return Err(InvalidEvent);
      }
      updates := updates + [events[i]];
    }
    assert updates == events;
    return Ok(updates);
  }

  method PushModels<E>(projectId: string, models: seq<(RelativePath, string)>) returns (r: StoreResult<seq<Update<E>>>)
    ensures r == if AllSafe(models) then Ok(ModelUpdates(projectId, models)) else Err(InvalidEvent)
  {
    var updates: seq<Update<E>> := [];
    for i := 0 to |models|
      invariant |updates| == i && forall k | 0 <= k < i :: SafeMaterializedPath(models[k].0)
      invariant forall k | 0 <= k < i :: updates[k] == ModelUpdates<E>(projectId, models)[k]
    {
      if !SafeMaterializedPath(models[i].0) {
        return Err(InvalidEvent);
      }
      updates := updates + [(MaterializedPath(projectId, models[i].0), OtherContent(models[i].1))];
    }
    assert updates == ModelUpdates<E>(projectId, models);
    return Ok(updates);
  }

  method AllStorable<E, S>(codec: Codec<E, S>, events: seq<E>) returns (r: bool)
    ensures r <==> forall i | 0 <= i < |events| :: codec.storable(events[i])
  {
    for i := 0 to |events|
      invariant forall k | 0 <= k < i :: codec.storable(events[k])
    {
      if !codec.storable(events[i]) {
        return false;
      }
    }
    return true;
  }

  /** Decides what to write for the emitted events, checking everything first. */
  method WriteEvents<E, S>(decoded: seq<StoredEvent<E>>, files: Files<E>, headSha: CommitSha<E>, c: AppendCommand<E, S>,
                           codec: Codec<E, S>, events: seq<E>) returns (v: Verdict<E, S>)
    ensures v == PlanWrite(decoded, files, headSha, c, codec, events)
  {
    if |events| == 0 {
      return Refuse(InvalidEvent);
    }
    var storable := AllStorable(codec, events);
    if !storable {
      return Refuse(UnsafeState);
    }
    var batch := StoreEvents(c, headSha, |decoded|, events);
    var next := codec.replay(EventsOf(decoded + batch));
    if next.Err? {
      return Refuse(next.error);
    }
    if codec.projectId(next.value) != c.projectId {
      return Refuse(InvalidEvent);
    }
    var materialized := codec.materialize(next.value, decoded + batch);
    if materialized.Err? {
      return Refuse(materialized.error);
    }
    var pushed := PushEvents(files, EventUpdates(batch));
    if pushed.Err? {
      return Refuse(pushed.error);
    }
    var models := PushModels(c.projectId, materialized.value);
    if models.Err? {
      return Refuse(models.error);
    }
    return Write(batch, pushed.value + (models.value + [WorkspaceUpdate(files, c.projectId)]), next.value);
  }

  /** `append` between reading the branch and committing. */
  method Decide<E, S>(decoded: seq<StoredEvent<E>>, snapshot: BranchSnapshot<E>, c: AppendCommand<E, S>, codec: Codec<E, S>)
    returns (v: Verdict<E, S>)
    ensures v == Evaluate(decoded, snapshot.files, snapshot.headSha, c, codec)
  {
    var earlier := FindKey(decoded, Digest(c.idempotencyKey));
    if earlier.Some? {
      if earlier.value.commandHash != Digest(c.command) {
        return Refuse(IdempotencyConflict);
      }
      var reconstructed := codec.replay(EventsOf(decoded));
      return if reconstructed.Err? then Refuse(reconstructed.error) else Replay(reconstructed.value);
    }
    if c.expectedHeadSha != snapshot.headSha {
      return Refuse(StaleState);
    }
    var current: Option<S> := None;
    if |decoded| > 0 {
      var replayed := codec.replay(EventsOf(decoded));
      if replayed.Err? {
        return Refuse(replayed.error);
      }
      current := Some(replayed.value);
    }
    var decision := c.decide(current);
    if decision.Err? {
      return Refuse(decision.error);
    }
    v := WriteEvents(decoded, snapshot.files, snapshot.headSha, c, codec, decision.value);
  }

  /** What an answer means for the snapshot it rests on, in the repository as it is now. */
  ghost predicate RestsOn<E(!new), S(!new)>(codec: Codec<E, S>, c: AppendCommand<E, S>, snapshot: BranchSnapshot<E>,
                                            now: MemoryRepository<E>, r: StoreResult<AppendResult<E, S>>)
  {
    && Knows(snapshot, now)
    && match Decoding(snapshot.files, c.repository, c.projectId)
       case Err(code) => r == Err(code)
       case Ok(decoded) =>
         match Evaluate(decoded, snapshot.files, snapshot.headSha, c, codec)
         case Refuse(code) => r == Err(code)
         case Replay(state) => r == Ok(AppendResult(state, snapshot.headSha, true))
         case Write(_, updates, state) =>
           var files := ApplyUpdates(snapshot.files, updates);
           var sha := Made(snapshot.headSha, "Hunsu project state " + c.projectId, files);
           if r.Ok? then
             && r.value == AppendResult(state, sha, false) && now.branches[STATE_BRANCH] == sha
             && sha in now.commits && now.commits[sha] == files
           else r.error == StaleState && now.branches[STATE_BRANCH] != snapshot.headSha
  }

  function Beginning<E, S>(repo: MemoryRepository<E>, client: Client<E, S>): World<E, S> {
    World(repo, Seed(""), [], map[0 := client])
  }

  /** The steps of the only client take it, from reading, to the snapshot or the refusal. */
  ghost predicate IsReached<E(!new), S(!new)>(codec: Codec<E, S>, repo: MemoryRepository<E>, c: AppendCommand<E, S>,
                                              r: StoreResult<BranchSnapshot<E>>, now: MemoryRepository<E>)
  {
    var s := Setting(c.repository, codec);
    var end := After(s, After(s, Beginning(repo, Reading(c)), Read(0)), Create(0, false));
    && end.repo == now
    && end.clients == map[0 := match r case Ok(snapshot) => Holding(c, snapshot) case Err(code) => RefusedWith(c, code)]
  }

  /** The only client settles on its snapshot. */
  ghost predicate IsSettled<E(!new), S(!new)>(codec: Codec<E, S>, repo: MemoryRepository<E>, c: AppendCommand<E, S>,
                                              snapshot: BranchSnapshot<E>, r: StoreResult<AppendResult<E, S>>, now: MemoryRepository<E>)
  {
    var end := After(Setting(c.repository, codec), Beginning(repo, Holding(c, snapshot)), Settle(0, false));
    end.repo == now && end.clients == map[0 := Finished(c, OutcomeOf(r))]
  }

  ghost predicate Knows<E(!new)>(snapshot: BranchSnapshot<E>, now: MemoryRepository<E>) {
    && snapshot.headSha in now.commits && now.commits[snapshot.headSha] == snapshot.files
    && STATE_BRANCH in now.branches && Descends(now.branches[STATE_BRANCH], snapshot.headSha)
  }

  /** An answer given without writing. */
  lemma SettledWithoutWriting<E(!new), S(!new)>(codec: Codec<E, S>, now: MemoryRepository<E>, c: AppendCommand<E, S>,
                                                snapshot: BranchSnapshot<E>, r: StoreResult<AppendResult<E, S>>)
    requires Knows(snapshot, now)
    requires match Decoding(snapshot.files, c.repository, c.projectId)
             case Err(code) => r == Err(code)
             case Ok(decoded) =>
               match Evaluate(decoded, snapshot.files, snapshot.headSha, c, codec)
               case Refuse(code) => r == Err(code)
               case Replay(state) => r == Ok(AppendResult(state, snapshot.headSha, true))
               case Write(_, _, _) => false
    ensures RestsOn(codec, c, snapshot, now, r) && IsSettled(codec, now, c, snapshot, r, now)
  {
  }

  /** What an attempt to commit answers. */
  function AfterAttempt<E, S>(repo: MemoryRepository<E>, c: AppendCommand<E, S>, snapshot: BranchSnapshot<E>, updates: seq<Update<E>>,
                              state: S): (MemoryRepository<E>, StoreResult<AppendResult<E, S>>)
  {
    match CommittingFiles(repo, STATE_BRANCH, snapshot.headSha, StateMessage(c.projectId), updates)
    case Ok((after, sha)) => (after, Ok(AppendResult(state, sha, false)))
    case Err(code) => (repo, Err(if code == Conflict then StaleState else TransportFailure))
  }

  lemma WritingRests<E(!new), S(!new)>(codec: Codec<E, S>, repo: MemoryRepository<E>, c: AppendCommand<E, S>, snapshot: BranchSnapshot<E>,
                                       decoded: seq<StoredEvent<E>>, batch: seq<StoredEvent<E>>, updates: seq<Update<E>>, state: S)
    requires IsConsistent(repo) && Knows(snapshot, repo) && Decoding(snapshot.files, c.repository, c.projectId) == Ok(decoded)
    requires Evaluate(decoded, snapshot.files, snapshot.headSha, c, codec) == Write(batch, updates, state)
    ensures var (after, r) := AfterAttempt(repo, c, snapshot, updates, state);
            IsConsistent(after) && Evolves(repo, after) && RestsOn(codec, c, snapshot, after, r)
  {
    var (after, r) := AfterAttempt(repo, c, snapshot, updates, state);
    if r.Ok? {
      CommittingEvolves(repo, STATE_BRANCH, snapshot.headSha, StateMessage(c.projectId), updates);
    } else {
      Unchanged(repo);
    }
  }

  lemma WritingSettles<E(!new), S(!new)>(codec: Codec<E, S>, repo: MemoryRepository<E>, c: AppendCommand<E, S>, snapshot: BranchSnapshot<E>,
                                         decoded: seq<StoredEvent<E>>, batch: seq<StoredEvent<E>>, updates: seq<Update<E>>, state: S)
    requires Decoding(snapshot.files, c.repository, c.projectId) == Ok(decoded)
    requires Evaluate(decoded, snapshot.files, snapshot.headSha, c, codec) == Write(batch, updates, state)
    ensures var (after, r) := AfterAttempt(repo, c, snapshot, updates, state); IsSettled(codec, repo, c, snapshot, r, after)
  {
  }

  /** What reading or creating the branch answers to the only client. */
  function AfterObtaining<E, S>(repo: MemoryRepository<E>, c: AppendCommand<E, S>): (MemoryRepository<E>, StoreResult<BranchSnapshot<E>>) {
    match ReadingBranch(repo, STATE_BRANCH)
    case Err(_) => (repo, Err(TransportFailure))
    case Ok(Some(snapshot)) => (repo, Ok(snapshot))
    case Ok(None) =>
      if c.expectedHeadSha != c.baseSha then (repo, Err(StaleState))
      else match CreatingBranch(repo, STATE_BRANCH, c.baseSha)
           case Ok(after) => (after, Ok(BranchSnapshot(c.baseSha, repo.commits[c.baseSha])))
           case Err(_) => (repo, Err(TransportFailure))
  }

  /** An existing branch is taken as it is; a missing one is created only for an append that expects the default branch. */
  ghost predicate IsObtained<E(!new), S(!new)>(repo: MemoryRepository<E>, c: AppendCommand<E, S>, now: MemoryRepository<E>,
                                               r: StoreResult<BranchSnapshot<E>>)
  {
    if "hunsu/state" in repo.branches then
      var headSha := repo.branches["hunsu/state"];
      now == repo && r == if headSha in repo.commits then Ok(BranchSnapshot(headSha, repo.commits[headSha])) else Err(TransportFailure)
    else if c.expectedHeadSha != c.baseSha then now == repo && r == Err(StaleState)
    else if c.baseSha !in repo.commits then now == repo && r == Err(TransportFailure)
    else now == repo.(branches := repo.branches["hunsu/state" := c.baseSha]) && r == Ok(BranchSnapshot(c.baseSha, repo.commits[c.baseSha]))
  }

  lemma ObtainingIsReached<E(!new), S(!new)>(codec: Codec<E, S>, repo: MemoryRepository<E>, c: AppendCommand<E, S>)
    ensures var (after, r) := AfterObtaining(repo, c); IsReached(codec, repo, c, r, after)
  {
  }

  lemma Unchanged<E(!new)>(repo: MemoryRepository<E>)
    ensures Evolves(repo, repo)
  {
  }

  /** A client alone goes the four steps of the protocol; those that do not fit are no steps. */
  ghost predicate IsSoleRun<E(!new), S(!new)>(codec: Codec<E, S>, repo: MemoryRepository<E>, c: AppendCommand<E, S>,
                                              r: StoreResult<AppendResult<E, S>>, now: MemoryRepository<E>)
  {
    var s := Setting(c.repository, codec);
    var start := World(repo, Seed(""), [], map[]);
    var end := After(s, After(s, After(s, After(s, start, Begin(0, c)), Read(0)), Create(0, false)), Settle(0, false));
    end.repo == now && end.clients == map[0 := Finished(c, OutcomeOf(r))]
  }

  lemma SettlingIgnoresStart<E(!new), S(!new)>(s: Setting<E, S>, w: World<E, S>, start: CommitSha<E>, c: AppendCommand<E, S>, snapshot: BranchSnapshot<E>)
    ensures var a := AfterSettling(s, w, 0, c, snapshot, false); var b := AfterSettling(s, w.(start := start), 0, c, snapshot, false);
            a.repo == b.repo && a.clients == b.clients
  {
    var decoding := Decoding(snapshot.files, c.repository, c.projectId);
    if decoding.Ok? {
      var verdict := Evaluate(decoding.value, snapshot.files, snapshot.headSha, c, s.codec);
    }
  }

  lemma InvalidSoleRun<E(!new), S(!new)>(codec: Codec<E, S>, repo: MemoryRepository<E>, c: AppendCommand<E, S>)
    requires ValidateInput(c, codec).Err?
    ensures IsSoleRun(codec, repo, c, Err(ValidateInput(c, codec).error), repo)
  {
  }

  lemma StepsToReached<E(!new), S(!new)>(codec: Codec<E, S>, repo: MemoryRepository<E>, c: AppendCommand<E, S>)
    requires ValidateInput(c, codec).Ok?
    ensures After(Setting(c.repository, codec), World(repo, Seed(""), [], map[]), Begin(0, c)) == Beginning(repo, Reading(c))
  {
  }

  lemma RefusedSoleRun<E(!new), S(!new)>(codec: Codec<E, S>, repo: MemoryRepository<E>, c: AppendCommand<E, S>)
    requires ValidateInput(c, codec).Ok? && AfterObtaining(repo, c).1.Err?
    ensures IsSoleRun(codec, repo, c, Err(AfterObtaining(repo, c).1.error), AfterObtaining(repo, c).0)
  {
    StepsToReached(codec, repo, c);
    ObtainingIsReached(codec, repo, c);
  }

  lemma SettledSoleRun<E(!new), S(!new)>(codec: Codec<E, S>, repo: MemoryRepository<E>, c: AppendCommand<E, S>,
                                         r: StoreResult<AppendResult<E, S>>, now: MemoryRepository<E>)
    requires ValidateInput(c, codec).Ok? && AfterObtaining(repo, c).1.Ok?
    requires IsSettled(codec, AfterObtaining(repo, c).0, c, AfterObtaining(repo, c).1.value, r, now)
    ensures IsSoleRun(codec, repo, c, r, now)
  {
    var (obtained, snapshot) := AfterObtaining(repo, c);
    var s := Setting(c.repository, codec);
    StepsToReached(codec, repo, c);
    ObtainingIsReached(codec, repo, c);
    var held := After(s, After(s, Beginning(repo, Reading(c)), Read(0)), Create(0, false));
    assert held.log == [];
    SettlingIgnoresStart(s, Beginning(obtained, Holding(c, snapshot.value)), held.start, c, snapshot.value);
    assert held == Beginning(obtained, Holding(c, snapshot.value)).(start := held.start);
  }

  /** Up to three readings of the branch: they go on while it is not there, and the last one gives the answer. */
  ghost predicate AreAttempts<E(!new)>(answers: seq<TransportResult<Option<BranchSnapshot<E>>>>, r: StoreResult<BranchSnapshot<E>>) {
    && 1 <= |answers| <= 3
    && (forall i | 0 <= i < |answers| - 1 :: answers[i] == Ok(None))
    && match answers[|answers| - 1]
       case Ok(Some(snapshot)) => r == Ok(snapshot)
       case Ok(None) => |answers| == 3 && r.Err?
       case Err(_) => r.Err?
  }

  class GitHubProjectStore<E(==,!new), S(!new)> {
    const transport: MemoryGitHubTransport<E>
    const codec: Codec<E, S>

    constructor (transport: MemoryGitHubTransport<E>, codec: Codec<E, S>)
      ensures this.transport == transport && this.codec == codec
    {
      this.transport := transport;
      this.codec := codec;
    }

    /** `#readConcurrentStateBranch`: the branch another client just created may take a while to appear. */
    method ReadConcurrentStateBranch(key: RepositoryKey) returns (r: StoreResult<BranchSnapshot<E>>)
      requires transport.Valid()
      modifies transport
      ensures transport.Valid() && (key in transport.repositories <==> key in old(transport.repositories))
      ensures key in transport.repositories ==> Evolves(old(transport.repositories[key]), transport.repositories[key])
      ensures r.Ok? ==> key in transport.repositories
                        && ReadingBranch(transport.repositories[key], STATE_BRANCH) == Ok(Some(r.value))
      ensures r.Err? ==> r.error == TransportFailure
      ensures !transport.shared ==> transport.repositories == old(transport.repositories)
      ensures old(transport.answers) < transport.answers && AreAttempts(transport.answers[|old(transport.answers)|..], r)
    {
      for attempt := 0 to VISIBILITY_ATTEMPTS
        invariant old(transport.answers) <= transport.answers && |transport.answers| == |old(transport.answers)| + attempt
        invariant forall i | |old(transport.answers)| <= i < |transport.answers| :: transport.answers[i] == Ok(None)
        invariant transport.Valid() && (key in transport.repositories <==> key in old(transport.repositories))
        invariant key in transport.repositories ==> Evolves(old(transport.repositories[key]), transport.repositories[key])
        invariant !transport.shared ==> transport.repositories == old(transport.repositories)
      {
        label Before:
        transport.Await(key);
        if key in transport.repositories {
          EvolvesFurther(old(transport.repositories[key]), old@Before(transport.repositories[key]), transport.repositories[key]);
        }
        var branch := transport.ReadBranch(key, STATE_BRANCH);
        if branch.Err? {
          return Err(TransportFailure);
        }
        if branch.value.Some? {
          return Ok(branch.value.value);
        }
      }
      return Err(TransportFailure);
    }

    /** Reads the state branch, or creates it where the default branch stands. */
    method ObtainBranch(c: AppendCommand<E, S>) returns (r: StoreResult<BranchSnapshot<E>>)
      requires transport.Valid()
      modifies transport
      ensures transport.Valid() && (KeyOf(c.repository) in transport.repositories <==> KeyOf(c.repository) in old(transport.repositories))
      ensures var key := KeyOf(c.repository);
              key in transport.repositories ==> Evolves(old(transport.repositories[key]), transport.repositories[key])
      ensures r.Ok? ==> KeyOf(c.repository) in transport.repositories
                        && ReadingBranch(transport.repositories[KeyOf(c.repository)], STATE_BRANCH) == Ok(Some(r.value))
      ensures r.Err? ==> r.error == TransportFailure || (r.error == StaleState && c.expectedHeadSha != c.baseSha)
      ensures var key := KeyOf(c.repository);
              !transport.shared && key in old(transport.repositories) ==>
                (transport.repositories[key], r) == AfterObtaining(old(transport.repositories[key]), c)
      ensures var key := KeyOf(c.repository);
              !transport.shared && key in old(transport.repositories) ==> IsObtained(old(transport.repositories[key]), c, transport.repositories[key], r)
    {
      var key := KeyOf(c.repository);
      transport.Await(key);
      var branch := transport.ReadBranch(key, STATE_BRANCH);
      if branch.Err? {
        return Err(TransportFailure);
      }
      if branch.value.Some? {
        return Ok(branch.value.value);
      }
      if c.expectedHeadSha != c.baseSha {
        return Err(StaleState);
      }
      label Creating:
      transport.Await(key);
      ghost var before := transport.repositories[key];
      EvolvesFurther(old(transport.repositories[key]), old@Creating(transport.repositories[key]), before);
      var created := transport.CreateBranch(key, STATE_BRANCH, c.baseSha);
      if created.Ok? {
        CreatingEvolves(before, STATE_BRANCH, c.baseSha);
        EvolvesFurther(old(transport.repositories[key]), before, transport.repositories[key]);
        return Ok(created.value);
      }
      if created.error != Conflict {
        return Err(TransportFailure);
      }
      r := ReadConcurrentStateBranch(key);
      EvolvesFurther(old(transport.repositories[key]), before, transport.repositories[key]);
    }

    /** From the snapshot on: decode, decide, commit. */
    method SettleOn(c: AppendCommand<E, S>, snapshot: BranchSnapshot<E>) returns (r: StoreResult<AppendResult<E, S>>)
      requires transport.Valid() && KeyOf(c.repository) in transport.repositories
      requires ReadingBranch(transport.repositories[KeyOf(c.repository)], STATE_BRANCH) == Ok(Some(snapshot))
      modifies transport
      ensures transport.Valid() && KeyOf(c.repository) in transport.repositories
      ensures var key := KeyOf(c.repository);
              && Evolves(old(transport.repositories[key]), transport.repositories[key])
              && RestsOn(codec, c, snapshot, transport.repositories[key], r)
              && (!transport.shared ==> IsSettled(codec, old(transport.repositories[key]), c, snapshot, r, transport.repositories[key]))
    {
      var key := KeyOf(c.repository);
      ghost var repo := transport.repositories[key];
      assert Descends(snapshot.headSha, snapshot.headSha) && Knows(snapshot, repo);
      Unchanged(repo);
      var decoded := DecodeStoredEvents(snapshot.files, c.repository, c.projectId);
      if decoded.Err? {
        SettledWithoutWriting(codec, repo, c, snapshot, Err(decoded.error));
        return Err(decoded.error);
      }
      var verdict := Decide(decoded.value, snapshot, c, codec);
      match verdict {
        case Refuse(code) =>
          SettledWithoutWriting(codec, repo, c, snapshot, Err(code));
          return Err(code);
        case Replay(state) =>
          r := Ok(AppendResult(state, snapshot.headSha, true));
          SettledWithoutWriting(codec, repo, c, snapshot, r);
        case Write(batch, updates, state) =>
          transport.Await(key);
          ghost var before := transport.repositories[key];
          assert Knows(snapshot, before);
          WritingRests(codec, before, c, snapshot, decoded.value, batch, updates, state);
          WritingSettles(codec, before, c, snapshot, decoded.value, batch, updates, state);
          var committed := transport.CommitFiles(key, STATE_BRANCH, snapshot.headSha, StateMessage(c.projectId), updates);
          EvolvesFurther(repo, before, transport.repositories[key]);
          if committed.Ok? {
            return Ok(AppendResult(state, committed.value, false));
          }
          return Err(if committed.error == Conflict then StaleState else TransportFailure);
      }
    }

    /** `append`. */
    method Append(c: AppendCommand<E, S>) returns (r: StoreResult<AppendResult<E, S>>, ghost snapshot: Option<BranchSnapshot<E>>)
      requires transport.Valid()
      modifies transport
      ensures transport.Valid()
      ensures var key := KeyOf(c.repository);
              key in old(transport.repositories) ==>
                && key in transport.repositories && Evolves(old(transport.repositories[key]), transport.repositories[key])
                && (snapshot.Some? ==> RestsOn(codec, c, snapshot.value, transport.repositories[key], r))
      ensures ValidateInput(c, codec).Err? ==> r == Err(ValidateInput(c, codec).error) && transport.repositories == old(transport.repositories)
      ensures snapshot.None? ==> r.Err? && (ValidateInput(c, codec).Err? || r.error == TransportFailure
                                            || (r.error == StaleState && c.expectedHeadSha != c.baseSha))
      ensures var key := KeyOf(c.repository);
              !transport.shared && key in old(transport.repositories) ==>
                IsSoleRun(codec, old(transport.repositories[key]), c, r, transport.repositories[key])
    {
      var key := KeyOf(c.repository);
      ghost var repositories := transport.repositories;
      snapshot := None;
      var input := ValidateInput(c, codec);
      if input.Err? {
        if key in repositories {
          Unchanged(repositories[key]);
          InvalidSoleRun(codec, repositories[key], c);
        }
        return Err(input.error), None;
      }
      var branch := ObtainBranch(c);
      if branch.Err? {
        if !transport.shared && key in repositories {
          RefusedSoleRun(codec, repositories[key], c);
        }
        return Err(branch.error), None;
      }
      snapshot := Some(branch.value);
      ghost var obtained := transport.repositories[key];
      r := SettleOn(c, branch.value);
      if key in repositories {
        EvolvesFurther(repositories[key], obtained, transport.repositories[key]);
        if !transport.shared {
          SettledSoleRun(codec, repositories[key], c, r, transport.repositories[key]);
        }
      }
    }
  }
}

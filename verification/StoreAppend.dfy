/** What `append` decides on a snapshot of the branch, and what the files it writes decode to. */
module StoreAppend {
  import opened Prelude
  import opened Protocol
  import opened StoreTypes
  import opened StoredBatches
  import opened StateStore

  /**
   * The codec of the store. An event is stored as it is encoded and decoded back, so it stands for itself;
   * `storable` says whether it encodes, and without anything that looks like a credential, which `safe` says of a command.
   */
  datatype Codec<!E, !S> = Codec(
    safe: string -> bool,
    storable: E -> bool,
    replay: seq<E> -> StoreResult<S>,
    projectId: S -> string,
    materialize: (S, seq<StoredEvent<E>>) -> StoreResult<seq<(RelativePath, string)>>)

  datatype AppendCommand<!E, !S> = AppendCommand(
    repository: Repository, projectId: string, baseSha: CommitSha<E>, expectedHeadSha: CommitSha<E>,
    idempotencyKey: string, command: string, occurredAt: Time, actor: string,
    decide: Option<S> -> StoreResult<seq<E>>)

  /** `validateAppendInput` and the credential check, as far as the model has formats. */
  predicate IsValidInput<E, S>(c: AppendCommand<E, S>, codec: Codec<E, S>) {
    1 <= c.occurredAt.month <= 12 && codec.safe(c.command)
  }

  function ValidateInput<E, S>(c: AppendCommand<E, S>, codec: Codec<E, S>): (r: StoreResult<()>)
    ensures r.Ok? <==> IsValidInput(c, codec)
    ensures r.Err? ==> r.error == if 1 <= c.occurredAt.month <= 12 then UnsafeState else InvalidEvent
  {
    if !(1 <= c.occurredAt.month <= 12) then Err(InvalidEvent) else if !codec.safe(c.command) then Err(UnsafeState) else Ok(())
  }

  type Update<+E> = (Path, Content<E>)

  datatype Verdict<+E, +S> =
    | Replay(state: S)
    | Refuse(code: StoreCode)
    | Write(batch: seq<StoredEvent<E>>, updates: seq<Update<E>>, state: S)

  function EventsOf<E>(stored: seq<StoredEvent<E>>): (r: seq<E>)
    ensures |r| == |stored| && forall i | 0 <= i < |r| :: r[i] == stored[i].event
  {
    seq(|stored|, i requires 0 <= i < |stored| => stored[i].event)
  }

  function BatchOf<E, S>(c: AppendCommand<E, S>, headSha: CommitSha<E>, priorCount: nat, events: seq<E>): (r: seq<StoredEvent<E>>)
    ensures |r| == |events|
    ensures forall i | 0 <= i < |r| ::
              r[i] == StoredEvent(Derived(c.projectId, Digest(c.idempotencyKey), Digest(c.command), i), c.projectId, c.repository,
                                  Digest(c.idempotencyKey), Digest(c.command), headSha, |events|, priorCount + i + 1,
                                  c.actor, c.occurredAt, events[i])
  {
    seq(|events|, i requires 0 <= i < |events| =>
      StoredEvent(Derived(c.projectId, Digest(c.idempotencyKey), Digest(c.command), i), c.projectId, c.repository,
                  Digest(c.idempotencyKey), Digest(c.command), headSha, |events|, priorCount + i + 1, c.actor, c.occurredAt, events[i]))
  }

  /** `projectIdsFromFiles`: the Projects with an event file. */
  function ProjectIdsOf<E>(files: Files<E>): set<string> {
    set path | path in files && |path.dirs| == 7 && IsEventPath(path, path.dirs[3]) :: path.dirs[3]
  }

  function EventUpdates<E>(batch: seq<StoredEvent<E>>): (r: seq<Update<E>>)
    ensures |r| == |batch| && forall i | 0 <= i < |r| :: r[i] == (EventPath(batch[i]), EventJson(batch[i]))
  {
    seq(|batch|, i requires 0 <= i < |batch| => (EventPath(batch[i]), EventJson(batch[i])))
  }

  function ModelUpdates<E>(projectId: string, models: seq<(RelativePath, string)>): (r: seq<Update<E>>)
    ensures |r| == |models|
    ensures forall i | 0 <= i < |r| :: r[i] == (MaterializedPath(projectId, models[i].0), OtherContent(models[i].1))
  {
    seq(|models|, i requires 0 <= i < |models| => (MaterializedPath(projectId, models[i].0), OtherContent(models[i].1)))
  }

  function WorkspaceUpdate<E>(files: Files<E>, projectId: string): Update<E> {
    (WORKSPACE_PATH, WorkspaceJson(ProjectIdsOf(files) + {projectId}))
  }

  predicate AllNew<E>(files: Files<E>, updates: seq<Update<E>>) {
    forall i | 0 <= i < |updates| :: updates[i].0 !in files
  }

  predicate AllSafe(models: seq<(RelativePath, string)>) {
    forall i | 0 <= i < |models| :: SafeMaterializedPath(models[i].0)
  }

  /** The writing half of `append`: everything is checked before anything is written. */
  function PlanWrite<E, S>(decoded: seq<StoredEvent<E>>, files: Files<E>, headSha: CommitSha<E>, c: AppendCommand<E, S>,
                           codec: Codec<E, S>, events: seq<E>): Verdict<E, S>
  {
    if events == [] then Refuse(InvalidEvent)
    else if !forall i | 0 <= i < |events| :: codec.storable(events[i]) then Refuse(UnsafeState)
    else
      var batch := BatchOf(c, headSha, |decoded|, events);
      var next := codec.replay(EventsOf(decoded + batch));
      if next.Err? then Refuse(next.error)
      else if codec.projectId(next.value) != c.projectId then Refuse(InvalidEvent)
      else
        var models := codec.materialize(next.value, decoded + batch);
        if models.Err? then Refuse(models.error)
        else if !AllNew(files, EventUpdates(batch)) || !AllSafe(models.value) then Refuse(InvalidEvent)
        else Write(batch, EventUpdates(batch) + (ModelUpdates(c.projectId, models.value) + [WorkspaceUpdate(files, c.projectId)]), next.value)
  }

  function FindKey<E>(decoded: seq<StoredEvent<E>>, key: Digest<string>): (r: Option<StoredEvent<E>>)
    ensures r.Some? ==> r.value in decoded && r.value.keyHash == key
    ensures r.None? <==> forall e | e in decoded :: e.keyHash != key
  {
    First(decoded, (e: StoredEvent<E>) => e.keyHash == key)
  }

  /** `append` between reading the branch and committing, for files that decode to `decoded`. */
  function Evaluate<E, S>(decoded: seq<StoredEvent<E>>, files: Files<E>, headSha: CommitSha<E>, c: AppendCommand<E, S>,
                          codec: Codec<E, S>): Verdict<E, S>
  {
    var earlier := FindKey(decoded, Digest(c.idempotencyKey));
    if earlier.Some? then
      if earlier.value.commandHash != Digest(c.command) then Refuse(IdempotencyConflict)
      else
        var state := codec.replay(EventsOf(decoded));
        if state.Err? then Refuse(state.error) else Replay(state.value)
    else if c.expectedHeadSha != headSha then Refuse(StaleState)
    else
      var current := if decoded == [] then Ok(None) else
                       var state := codec.replay(EventsOf(decoded));
                       if state.Err? then Err(state.error) else Ok(Some(state.value));
      if current.Err? then Refuse(current.error)
      else
        var events := c.decide(current.value);
        if events.Err? then Refuse(events.error) else PlanWrite(decoded, files, headSha, c, codec, events.value)
  }

  // ---------------------------------------------------------------- applying updates

  function ApplyUpdates<E>(files: Files<E>, updates: seq<Update<E>>): Files<E>
    decreases |updates|
  {
    if updates == [] then files else ApplyUpdates(files[updates[0].0 := updates[0].1], updates[1..])
  }

  lemma {:induction false} ApplyUpdatesAppend<E>(files: Files<E>, a: seq<Update<E>>, b: seq<Update<E>>)
    ensures ApplyUpdates(files, a + b) == ApplyUpdates(ApplyUpdates(files, a), b)
    decreases |a|
  {
    if a == [] {
      assert a + b == b;
    } else {
      assert (a + b)[1..] == a[1..] + b;
      ApplyUpdatesAppend(files[a[0].0 := a[0].1], a[1..], b);
    }
  }

  /** Updates elsewhere leave a path alone. */
  lemma {:induction false} UpdatesElsewhere<E>(files: Files<E>, updates: seq<Update<E>>, path: Path)
    requires forall i | 0 <= i < |updates| :: updates[i].0 != path
    ensures path in ApplyUpdates(files, updates) <==> path in files
    ensures path in files ==> ApplyUpdates(files, updates)[path] == files[path]
    decreases |updates|
  {
    if updates != [] {
      UpdatesElsewhere(files[updates[0].0 := updates[0].1], updates[1..], path);
    }
  }

  lemma {:induction false} UpdateLands<E>(files: Files<E>, updates: seq<Update<E>>, i: nat)
    requires i < |updates| && forall j | i < j < |updates| :: updates[j].0 != updates[i].0
    ensures updates[i].0 in ApplyUpdates(files, updates) && ApplyUpdates(files, updates)[updates[i].0] == updates[i].1
    decreases |updates|
  {
    var files' := files[updates[0].0 := updates[0].1];
    if i == 0 {
      UpdatesElsewhere(files', updates[1..], updates[0].0);
    } else {
      UpdateLands(files', updates[1..], i - 1);
    }
  }

  // ------------------------------------------------------------------ what is written

  /** Everything `PlanWrite` guarantees of what it decides to write. */
  ghost predicate IsPlanned<E, S>(decoded: seq<StoredEvent<E>>, files: Files<E>, headSha: CommitSha<E>, c: AppendCommand<E, S>,
                                  codec: Codec<E, S>, batch: seq<StoredEvent<E>>, updates: seq<Update<E>>, state: S,
                                  events: seq<E>, models: seq<(RelativePath, string)>)
  {
    && events != [] && batch == BatchOf(c, headSha, |decoded|, events)
    && codec.replay(EventsOf(decoded + batch)) == Ok(state) && codec.projectId(state) == c.projectId
    && codec.materialize(state, decoded + batch) == Ok(models)
    && (forall i | 0 <= i < |batch| :: EventPath(batch[i]) !in files)
    && (forall i | 0 <= i < |models| :: SafeMaterializedPath(models[i].0))
    && updates == EventUpdates(batch) + (ModelUpdates(c.projectId, models) + [WorkspaceUpdate(files, c.projectId)])
  }

  lemma WriteIsPlanned<E, S>(decoded: seq<StoredEvent<E>>, files: Files<E>, headSha: CommitSha<E>, c: AppendCommand<E, S>,
                             codec: Codec<E, S>, batch: seq<StoredEvent<E>>, updates: seq<Update<E>>, state: S)
    returns (events: seq<E>, models: seq<(RelativePath, string)>)
    requires Evaluate(decoded, files, headSha, c, codec) == Write(batch, updates, state)
    ensures IsPlanned(decoded, files, headSha, c, codec, batch, updates, state, events, models)
    ensures FindKey(decoded, Digest(c.idempotencyKey)).None? && c.expectedHeadSha == headSha
    ensures if decoded == [] then c.decide(None) == Ok(events)
            else codec.replay(EventsOf(decoded)).Ok? && c.decide(Some(codec.replay(EventsOf(decoded)).value)) == Ok(events)
  {
    events := c.decide(if decoded == [] then None else Some(codec.replay(EventsOf(decoded)).value)).value;
    models := codec.materialize(state, decoded + batch).value;
    assert forall i | 0 <= i < |batch| :: EventUpdates(batch)[i].0 == EventPath(batch[i]);
  }
}

/** What the files written by an append decode to: round trip, frame, and the workspace index. */
module AppendDecode {
  import opened Prelude
  import opened Protocol
  import opened StoreTypes
  import opened StoredBatches
  import opened StateStore
  import opened StoreAppend

  predicate IsAnyEventPath(path: Path) {
    |path.dirs| == 7 && IsEventPath(path, path.dirs[3])
  }

  lemma AnyEventPath(path: Path, projectId: string)
    requires IsEventPath(path, projectId)
    ensures IsAnyEventPath(path) && path.dirs[3] == projectId
  {
    assert path.dirs[3] == path.dirs[..4][3] == projectId;
  }

  /** The event files of `after` are those of `files` and one for each event of the batch. */
  ghost predicate AddsBatch<E(!new)>(files: Files<E>, batch: seq<StoredEvent<E>>, after: Files<E>) {
    && (forall i {:trigger batch[i]} | 0 <= i < |batch| ::
          && EventPath(batch[i]) !in files && EventPath(batch[i]) in after
          && after[EventPath(batch[i])] == EventJson(batch[i]))
    && forall path {:trigger path in files} {:trigger path in after} |
         IsAnyEventPath(path) && forall i | 0 <= i < |batch| :: EventPath(batch[i]) != path ::
         (path in after <==> path in files) && (path in files ==> after[path] == files[path])
  }

  lemma BatchPathsDiffer<E>(batch: seq<StoredEvent<E>>, projectId: string, i: nat, j: nat)
    requires IsBatch(batch, projectId) && i < |batch| && j < |batch| && i != j
    ensures EventPath(batch[i]) != EventPath(batch[j])
  {
    assert batch[i].eventId != batch[j].eventId;
  }

  lemma BatchOfIsBatch<E, S>(c: AppendCommand<E, S>, headSha: CommitSha<E>, priorCount: nat, events: seq<E>)
    requires events != []
    ensures IsBatch(BatchOf(c, headSha, priorCount, events), c.projectId)
  {
  }

  /** Read models and the workspace index are written outside the events. */
  lemma ModelsAreElsewhere<E>(projectId: string, models: seq<(RelativePath, string)>, workspace: Update<E>, path: Path)
    requires LiesAmongEvents(path) && workspace.0 == WORKSPACE_PATH
    requires forall i | 0 <= i < |models| :: SafeMaterializedPath(models[i].0)
    ensures var updates := ModelUpdates<E>(projectId, models) + [workspace]; forall i | 0 <= i < |updates| :: updates[i].0 != path
  {
    var updates := ModelUpdates<E>(projectId, models) + [workspace];
    forall i | 0 <= i < |updates| ensures updates[i].0 != path {
      if i < |models| {
        MaterializedIsNoEvent(projectId, models[i].0);
      }
    }
  }

  lemma BatchLands<E>(files: Files<E>, batch: seq<StoredEvent<E>>, projectId: string, i: nat)
    requires IsBatch(batch, projectId) && i < |batch|
    ensures EventPath(batch[i]) in ApplyUpdates(files, EventUpdates(batch))
    ensures ApplyUpdates(files, EventUpdates(batch))[EventPath(batch[i])] == EventJson(batch[i])
  {
    var updates := EventUpdates(batch);
    forall j | i < j < |updates| ensures updates[j].0 != updates[i].0 {
      BatchPathsDiffer(batch, projectId, i, j);
    }
    UpdateLands(files, updates, i);
  }

  lemma WriteAddsBatch<E(!new)>(files: Files<E>, batch: seq<StoredEvent<E>>, projectId: string,
                                models: seq<(RelativePath, string)>, workspace: Update<E>, updates: seq<Update<E>>)
    requires IsBatch(batch, projectId) && workspace.0 == WORKSPACE_PATH
    requires forall i | 0 <= i < |batch| :: EventPath(batch[i]) !in files
    requires forall i | 0 <= i < |models| :: SafeMaterializedPath(models[i].0)
    requires updates == EventUpdates(batch) + (ModelUpdates(projectId, models) + [workspace])
    ensures AddsBatch(files, batch, ApplyUpdates(files, updates))
    ensures WORKSPACE_PATH in ApplyUpdates(files, updates) && ApplyUpdates(files, updates)[WORKSPACE_PATH] == workspace.1
  {
    var rest := ModelUpdates<E>(projectId, models) + [workspace];
    var middle := ApplyUpdates(files, EventUpdates(batch));
    var after := ApplyUpdates(middle, rest);
    ApplyUpdatesAppend(files, EventUpdates(batch), rest);
    UpdateLands(middle, rest, |models|);
    forall i | 0 <= i < |batch|
      ensures EventPath(batch[i]) in after && after[EventPath(batch[i])] == EventJson(batch[i])
    {
      BatchLands(files, batch, projectId, i);
      ModelsAreElsewhere(projectId, models, workspace, EventPath(batch[i]));
      UpdatesElsewhere(middle, rest, EventPath(batch[i]));
    }
    forall path | IsAnyEventPath(path) && forall i | 0 <= i < |batch| :: EventPath(batch[i]) != path
      ensures path in after <==> path in files
      ensures path in files ==> after[path] == files[path]
    {
      ModelsAreElsewhere(projectId, models, workspace, path);
      UpdatesElsewhere(files, EventUpdates(batch), path);
      UpdatesElsewhere(middle, rest, path);
    }
  }

  // ------------------------------------------------------------------- round trip

  /** Appended events with the right envelope decode behind the earlier ones. */
  lemma AddedBatchDecodes<E(!new)>(files: Files<E>, repository: Repository, projectId: string, decoded: seq<StoredEvent<E>>,
                                   batch: seq<StoredEvent<E>>, after: Files<E>)
    requires Decodes(files, repository, projectId, decoded) && AddsBatch(files, batch, after)
    requires IsBatch(batch, projectId) && forall e | e in decoded :: e.keyHash != batch[0].keyHash
    requires forall i | 0 <= i < |batch| ::
               batch[i].sequence == |decoded| + i + 1 && IsEventPath(EventPath(batch[i]), projectId)
               && IsOwnEvent(EventJson(batch[i]), EventPath(batch[i]), repository, projectId)
    ensures Decodes(after, repository, projectId, decoded + batch)
  {
    var all := decoded + batch;
    BatchExtends(decoded, batch, projectId);
    assert forall i | 0 <= i < |batch| :: EventPath(batch[i]) !in files;
    forall e | e in all
      ensures IsEventPath(EventPath(e), projectId) && EventPath(e) in after && after[EventPath(e)] == EventJson(e)
    {
      if e in decoded {
        AnyEventPath(EventPath(e), projectId);
      } else {
        var i :| 0 <= i < |batch| && batch[i] == e;
      }
    }
    forall path | path in after && IsEventPath(path, projectId)
      ensures IsOwnEvent(after[path], path, repository, projectId) && after[path].stored in all
    {
      if i :| 0 <= i < |batch| && EventPath(batch[i]) == path {
        assert batch[i] in all;
      } else {
        AnyEventPath(path, projectId);
        assert path in files;
      }
    }
  }

  /** A batch no file of which is among the Project's event files leaves what it decodes to. */
  lemma OtherBatchIsInvisible<E(!new)>(files: Files<E>, repository: Repository, projectId: string, events: seq<StoredEvent<E>>,
                                       batch: seq<StoredEvent<E>>, after: Files<E>)
    requires AddsBatch(files, batch, after)
    requires forall i | 0 <= i < |batch| :: !IsEventPath(EventPath(batch[i]), projectId)
    ensures Decodes(after, repository, projectId, events) <==> Decodes(files, repository, projectId, events)
  {
    forall path | IsEventPath(path, projectId)
      ensures path in after <==> path in files
      ensures path in files ==> after[path] == files[path]
    {
      AnyEventPath(path, projectId);
    }
  }

  predicate FindableYear(time: Time) {
    0 <= time.year <= 9999
  }

  /** What a write is: the batch of one command, decided on the replay of everything before it. */
  lemma WriteIsDecidedOnReplay<E(!new), S(!new)>(decoded: seq<StoredEvent<E>>, files: Files<E>, headSha: CommitSha<E>, c: AppendCommand<E, S>,
                                                 codec: Codec<E, S>, batch: seq<StoredEvent<E>>, updates: seq<Update<E>>, state: S)
    requires Evaluate(decoded, files, headSha, c, codec) == Write(batch, updates, state)
    ensures c.expectedHeadSha == headSha && IsBatch(batch, c.projectId)
    ensures forall e | e in decoded :: e.keyHash != batch[0].keyHash
    ensures batch[0].keyHash == Digest(c.idempotencyKey) && batch[0].commandHash == Digest(c.command)
    ensures forall i | 0 <= i < |batch| :: batch[i].previousStateSha == headSha && batch[i].sequence == |decoded| + i + 1
    ensures decoded == [] ==> c.decide(None) == Ok(EventsOf(batch))
    ensures decoded != [] ==> codec.replay(EventsOf(decoded)).Ok?
                              && c.decide(Some(codec.replay(EventsOf(decoded)).value)) == Ok(EventsOf(batch))
    ensures codec.replay(EventsOf(decoded) + EventsOf(batch)) == Ok(state) && codec.projectId(state) == c.projectId
    ensures AddsBatch(files, batch, ApplyUpdates(files, updates))
    ensures WORKSPACE_PATH in ApplyUpdates(files, updates)
    ensures ApplyUpdates(files, updates)[WORKSPACE_PATH] == WorkspaceJson(ProjectIdsOf(files) + {c.projectId})
  {
    var events, models := WriteIsPlanned(decoded, files, headSha, c, codec, batch, updates, state);
    BatchOfIsBatch(c, headSha, |decoded|, events);
    assert EventsOf(batch) == events;
    assert EventsOf(decoded + batch) == EventsOf(decoded) + EventsOf(batch);
    WriteAddsBatch(files, batch, c.projectId, models, WorkspaceUpdate(files, c.projectId), updates);
  }

  /** Every stored event carries the command it comes from, who asked and when, and its place in the batch and in the stream. */
  lemma StoredEventTellsCommand<E(!new), S(!new)>(decoded: seq<StoredEvent<E>>, files: Files<E>, headSha: CommitSha<E>, c: AppendCommand<E, S>,
                                                  codec: Codec<E, S>, batch: seq<StoredEvent<E>>, updates: seq<Update<E>>, state: S, i: nat)
    requires Evaluate(decoded, files, headSha, c, codec) == Write(batch, updates, state) && i < |batch|
    ensures var e := batch[i];
            && e.projectId == c.projectId && e.repository == c.repository && e.actor == c.actor && e.occurredAt == c.occurredAt
            && e.keyHash.content == c.idempotencyKey && e.commandHash.content == c.command && e.previousStateSha == headSha
            && e.commandEventCount == |batch| && e.sequence == |decoded| + i + 1
            && e.eventId == Derived(c.projectId, Digest(c.idempotencyKey), Digest(c.command), i)
  {
    var events, models := WriteIsPlanned(decoded, files, headSha, c, codec, batch, updates, state);
  }

  /** Everything an append asks for before it writes these events, this state and these files. */
  ghost predicate MayWrite<E(!new), S(!new)>(decoded: seq<StoredEvent<E>>, files: Files<E>, headSha: CommitSha<E>, c: AppendCommand<E, S>,
                                             codec: Codec<E, S>, events: seq<E>, state: S, models: seq<(RelativePath, string)>)
  {
    && (forall e | e in decoded :: e.keyHash.content != c.idempotencyKey) && c.expectedHeadSha == headSha
    && (if decoded == [] then c.decide(None) == Ok(events)
        else codec.replay(EventsOf(decoded)).Ok? && c.decide(Some(codec.replay(EventsOf(decoded)).value)) == Ok(events))
    && events != [] && (forall e | e in events :: codec.storable(e))
    && codec.replay(EventsOf(decoded) + events) == Ok(state) && codec.projectId(state) == c.projectId
    && codec.materialize(state, decoded + BatchOf(c, headSha, |decoded|, events)) == Ok(models)
    && (forall i | 0 <= i < |models| :: SafeMaterializedPath(models[i].0))
    && forall e | e in BatchOf(c, headSha, |decoded|, events) :: EventPath(e) !in files
  }

  /** An append writes exactly when all of that is so. */
  lemma WrittenExactly<E(!new), S(!new)>(decoded: seq<StoredEvent<E>>, files: Files<E>, headSha: CommitSha<E>, c: AppendCommand<E, S>, codec: Codec<E, S>)
    ensures Evaluate(decoded, files, headSha, c, codec).Write? <==>
            exists events, state, models :: MayWrite(decoded, files, headSha, c, codec, events, state, models)
  {
    var verdict := Evaluate(decoded, files, headSha, c, codec);
    if verdict.Write? {
      var events, models := WriteIsPlanned(decoded, files, headSha, c, codec, verdict.batch, verdict.updates, verdict.state);
      WrittenMayBe(decoded, files, headSha, c, codec, events, verdict, models);
    }
    if events, state, models :| MayWrite(decoded, files, headSha, c, codec, events, state, models) {
      MayBeWritten(decoded, files, headSha, c, codec, events, state, models);
    }
  }

  lemma WrittenMayBe<E(!new), S(!new)>(decoded: seq<StoredEvent<E>>, files: Files<E>, headSha: CommitSha<E>, c: AppendCommand<E, S>, codec: Codec<E, S>,
                                       events: seq<E>, verdict: Verdict<E, S>, models: seq<(RelativePath, string)>)
    requires verdict.Write? && Evaluate(decoded, files, headSha, c, codec) == verdict
    requires IsPlanned(decoded, files, headSha, c, codec, verdict.batch, verdict.updates, verdict.state, events, models)
    requires FindKey(decoded, Digest(c.idempotencyKey)).None? && c.expectedHeadSha == headSha
    requires if decoded == [] then c.decide(None) == Ok(events)
             else codec.replay(EventsOf(decoded)).Ok? && c.decide(Some(codec.replay(EventsOf(decoded)).value)) == Ok(events)
    ensures MayWrite(decoded, files, headSha, c, codec, events, verdict.state, models)
  {
    var batch := verdict.batch;
    assert EventsOf(decoded + batch) == EventsOf(decoded) + events;
    forall e | e in events ensures codec.storable(e) {
      var i :| 0 <= i < |events| && events[i] == e;
    }
    forall e | e in batch ensures EventPath(e) !in files {
      var i :| 0 <= i < |batch| && batch[i] == e;
    }
  }

  lemma MayBeWritten<E(!new), S(!new)>(decoded: seq<StoredEvent<E>>, files: Files<E>, headSha: CommitSha<E>, c: AppendCommand<E, S>, codec: Codec<E, S>,
                                       events: seq<E>, state: S, models: seq<(RelativePath, string)>)
    requires MayWrite(decoded, files, headSha, c, codec, events, state, models)
    ensures Evaluate(decoded, files, headSha, c, codec).Write?
  {
    var batch := BatchOf(c, headSha, |decoded|, events);
    assert EventsOf(decoded + batch) == EventsOf(decoded) + events;
    forall i | 0 <= i < |batch| ensures EventUpdates(batch)[i].0 !in files {
      assert batch[i] in batch;
    }
    assert FindKey(decoded, Digest(c.idempotencyKey)).None?;
    assert PlanWrite(decoded, files, headSha, c, codec, events).Write?;
  }

  lemma WrittenEnvelope<E(!new), S(!new)>(decoded: seq<StoredEvent<E>>, files: Files<E>, headSha: CommitSha<E>, c: AppendCommand<E, S>,
                                          codec: Codec<E, S>, batch: seq<StoredEvent<E>>, updates: seq<Update<E>>, state: S, i: nat)
    requires Evaluate(decoded, files, headSha, c, codec) == Write(batch, updates, state) && i < |batch|
    requires 1 <= c.occurredAt.month <= 12
    ensures IsEventPath(EventPath(batch[i]), c.projectId) <==> FindableYear(c.occurredAt)
    ensures forall q | q != c.projectId :: !IsEventPath(EventPath(batch[i]), q)
    ensures IsOwnEvent(EventJson(batch[i]), EventPath(batch[i]), c.repository, c.projectId)
  {
    var events, models := WriteIsPlanned(decoded, files, headSha, c, codec, batch, updates, state);
    assert batch[i].projectId == c.projectId && batch[i].occurredAt == c.occurredAt && batch[i].repository == c.repository;
    EventPathIsFound(batch[i], c.projectId);
    forall q | q != c.projectId ensures !IsEventPath(EventPath(batch[i]), q) {
      EventPathIsFound(batch[i], q);
    }
  }

  /** Decoding what an append wrote gives the earlier events and the new ones, exactly when the year has four digits. */
  lemma AppendDecodeRoundTrip<E(!new), S(!new)>(decoded: seq<StoredEvent<E>>, files: Files<E>, headSha: CommitSha<E>, c: AppendCommand<E, S>,
                                                codec: Codec<E, S>, batch: seq<StoredEvent<E>>, updates: seq<Update<E>>, state: S)
    requires Decodes(files, c.repository, c.projectId, decoded) && 1 <= c.occurredAt.month <= 12
    requires Evaluate(decoded, files, headSha, c, codec) == Write(batch, updates, state)
    ensures Decodes(ApplyUpdates(files, updates), c.repository, c.projectId, decoded + batch) <==> FindableYear(c.occurredAt)
    ensures Decodes(ApplyUpdates(files, updates), c.repository, c.projectId, decoded) <==> !FindableYear(c.occurredAt)
  {
    var after := ApplyUpdates(files, updates);
    WriteIsDecidedOnReplay(decoded, files, headSha, c, codec, batch, updates, state);
    forall i | 0 <= i < |batch|
      ensures IsEventPath(EventPath(batch[i]), c.projectId) <==> FindableYear(c.occurredAt)
      ensures IsOwnEvent(EventJson(batch[i]), EventPath(batch[i]), c.repository, c.projectId)
    {
      WrittenEnvelope(decoded, files, headSha, c, codec, batch, updates, state, i);
    }
    if FindableYear(c.occurredAt) {
      AddedBatchDecodes(files, c.repository, c.projectId, decoded, batch, after);
    } else {
      OtherBatchIsInvisible(files, c.repository, c.projectId, decoded, batch, after);
    }
    NotBoth(after, c.repository, c.projectId, decoded, batch);
  }

  lemma NotBoth<E(!new)>(files: Files<E>, repository: Repository, projectId: string, decoded: seq<StoredEvent<E>>, batch: seq<StoredEvent<E>>)
    requires batch != []
    ensures !(Decodes(files, repository, projectId, decoded) && Decodes(files, repository, projectId, decoded + batch))
  {
    assert |decoded + batch| > |decoded|;
    if Decodes(files, repository, projectId, decoded) && Decodes(files, repository, projectId, decoded + batch) {
      DecodingIsUnique(files, repository, projectId, decoded, decoded + batch);
    }
  }

  /** Every other Project decodes to what it did, from whichever repository it is read. */
  lemma AppendKeepsOtherProjects<E(!new), S(!new)>(decoded: seq<StoredEvent<E>>, files: Files<E>, headSha: CommitSha<E>, c: AppendCommand<E, S>,
                                                   codec: Codec<E, S>, batch: seq<StoredEvent<E>>, updates: seq<Update<E>>, state: S,
                                                   repository: Repository, other: string, events: seq<StoredEvent<E>>)
    requires 1 <= c.occurredAt.month <= 12 && other != c.projectId
    requires Evaluate(decoded, files, headSha, c, codec) == Write(batch, updates, state)
    ensures Decodes(ApplyUpdates(files, updates), repository, other, events) <==> Decodes(files, repository, other, events)
  {
    WriteIsDecidedOnReplay(decoded, files, headSha, c, codec, batch, updates, state);
    forall i | 0 <= i < |batch| ensures !IsEventPath(EventPath(batch[i]), other) {
      WrittenEnvelope(decoded, files, headSha, c, codec, batch, updates, state, i);
    }
    OtherBatchIsInvisible(files, repository, other, events, batch, ApplyUpdates(files, updates));
  }

  /** No event file is ever rewritten. */
  lemma AppendKeepsEventFiles<E(!new), S(!new)>(decoded: seq<StoredEvent<E>>, files: Files<E>, headSha: CommitSha<E>, c: AppendCommand<E, S>,
                                                codec: Codec<E, S>, batch: seq<StoredEvent<E>>, updates: seq<Update<E>>, state: S,
                                                path: Path, projectId: string)
    requires Evaluate(decoded, files, headSha, c, codec) == Write(batch, updates, state)
    requires path in files && IsEventPath(path, projectId)
    ensures path in ApplyUpdates(files, updates) && ApplyUpdates(files, updates)[path] == files[path]
  {
    WriteIsDecidedOnReplay(decoded, files, headSha, c, codec, batch, updates, state);
    AnyEventPath(path, projectId);
    forall i | 0 <= i < |batch| ensures EventPath(batch[i]) != path {
      assert EventPath(batch[i]) !in files;
    }
  }

  // ---------------------------------------------------------- files for readers

  predicate IsNamedLast(models: seq<(RelativePath, string)>, k: nat)
    requires k < |models|
  {
    forall j | k < j < |models| :: models[j].0 != models[k].0
  }

  /** Every file of the list lies at its place under the Project, with the content named last for it. */
  ghost predicate HoldsModels<E>(files: Files<E>, projectId: string, models: seq<(RelativePath, string)>) {
    forall k {:trigger IsNamedLast(models, k)} | 0 <= k < |models| && IsNamedLast(models, k) ::
      && MaterializedPath(projectId, models[k].0) in files
      && files[MaterializedPath(projectId, models[k].0)] == OtherContent(models[k].1)
  }

  /** The path is none of those an append to the Project writes. */
  predicate IsElsewhere<E>(path: Path, projectId: string, batch: seq<StoredEvent<E>>, models: seq<(RelativePath, string)>) {
    && path != Path([".hunsu", "v2"], OtherName("workspace.json"))
    && (forall i | 0 <= i < |batch| :: path != EventPath(batch[i]))
    && forall k | 0 <= k < |models| :: path != MaterializedPath(projectId, models[k].0)
  }

  lemma MaterializedPathsDiffer(projectId: string, a: RelativePath, b: RelativePath)
    requires MaterializedPath(projectId, a) == MaterializedPath(projectId, b)
    ensures a == b
  {
    assert MaterializedPath(projectId, a).dirs[4..] == a.dirs && MaterializedPath(projectId, b).dirs[4..] == b.dirs;
  }

  lemma ModelsLand<E>(files: Files<E>, projectId: string, models: seq<(RelativePath, string)>, workspace: Update<E>, k: nat)
    requires workspace.0 == WORKSPACE_PATH && k < |models| && IsNamedLast(models, k)
    ensures var after := ApplyUpdates(files, ModelUpdates<E>(projectId, models) + [workspace]);
            MaterializedPath(projectId, models[k].0) in after && after[MaterializedPath(projectId, models[k].0)] == OtherContent(models[k].1)
  {
    var updates := ModelUpdates<E>(projectId, models) + [workspace];
    forall j | k < j < |updates| ensures updates[j].0 != updates[k].0 {
      if j < |models| && updates[j].0 == updates[k].0 {
        MaterializedPathsDiffer(projectId, models[j].0, models[k].0);
      }
    }
    UpdateLands(files, updates, k);
  }

  lemma NothingElse<E>(files: Files<E>, projectId: string, batch: seq<StoredEvent<E>>, models: seq<(RelativePath, string)>, workspace: Update<E>,
                       path: Path)
    requires workspace.0 == WORKSPACE_PATH && IsElsewhere(path, projectId, batch, models)
    ensures var after := ApplyUpdates(files, EventUpdates(batch) + (ModelUpdates<E>(projectId, models) + [workspace]));
            (path in after <==> path in files) && (path in files ==> after[path] == files[path])
  {
    UpdatesElsewhere(files, EventUpdates(batch) + (ModelUpdates<E>(projectId, models) + [workspace]), path);
  }

  /**
   * After a write the files for readers are those of the state written and of all events, old and new; apart from them the
   * events and the workspace file nothing is touched.
   */
  lemma WriteMaterializes<E(!new), S(!new)>(decoded: seq<StoredEvent<E>>, files: Files<E>, headSha: CommitSha<E>, c: AppendCommand<E, S>,
                                            codec: Codec<E, S>, batch: seq<StoredEvent<E>>, updates: seq<Update<E>>, state: S)
    returns (models: seq<(RelativePath, string)>)
    requires Evaluate(decoded, files, headSha, c, codec) == Write(batch, updates, state)
    ensures codec.materialize(state, decoded + batch) == Ok(models)
    ensures HoldsModels(ApplyUpdates(files, updates), c.projectId, models)
    ensures forall path | IsElsewhere(path, c.projectId, batch, models) ::
              && (path in ApplyUpdates(files, updates) <==> path in files)
              && (path in files ==> ApplyUpdates(files, updates)[path] == files[path])
  {
    var events;
    events, models := WriteIsPlanned(decoded, files, headSha, c, codec, batch, updates, state);
    var workspace := WorkspaceUpdate(files, c.projectId);
    var middle := ApplyUpdates(files, EventUpdates(batch));
    ApplyUpdatesAppend(files, EventUpdates(batch), ModelUpdates<E>(c.projectId, models) + [workspace]);
    forall k | 0 <= k < |models| && IsNamedLast(models, k)
      ensures MaterializedPath(c.projectId, models[k].0) in ApplyUpdates(files, updates)
              && ApplyUpdates(files, updates)[MaterializedPath(c.projectId, models[k].0)] == OtherContent(models[k].1)
    {
      ModelsLand(middle, c.projectId, models, workspace, k);
    }
    forall path | IsElsewhere(path, c.projectId, batch, models)
      ensures path in ApplyUpdates(files, updates) <==> path in files
      ensures path in files ==> ApplyUpdates(files, updates)[path] == files[path]
    {
      NothingElse(files, c.projectId, batch, models, workspace, path);
    }
  }

  /** An append to another Project leaves the files under this one alone. */
  lemma OtherProjectKeepsModels<E(!new), S(!new)>(decoded: seq<StoredEvent<E>>, files: Files<E>, headSha: CommitSha<E>, c: AppendCommand<E, S>,
                                                  codec: Codec<E, S>, batch: seq<StoredEvent<E>>, updates: seq<Update<E>>, state: S,
                                                  other: string, models: seq<(RelativePath, string)>)
    requires Evaluate(decoded, files, headSha, c, codec) == Write(batch, updates, state) && other != c.projectId
    requires HoldsModels(files, other, models)
    ensures HoldsModels(ApplyUpdates(files, updates), other, models)
  {
    var written := WriteMaterializes(decoded, files, headSha, c, codec, batch, updates, state);
    var events, planned := WriteIsPlanned(decoded, files, headSha, c, codec, batch, updates, state);
    forall k | 0 <= k < |models| ensures IsElsewhere(MaterializedPath(other, models[k].0), c.projectId, batch, written) {
      UnderAnotherRoot(other, models[k].0, c.projectId, batch, written);
    }
  }

  lemma UnderAnotherRoot<E>(other: string, path: RelativePath, projectId: string, batch: seq<StoredEvent<E>>, models: seq<(RelativePath, string)>)
    requires other != projectId && forall i | 0 <= i < |batch| :: batch[i].projectId == projectId
    ensures IsElsewhere(MaterializedPath(other, path), projectId, batch, models)
  {
    var full := MaterializedPath(other, path);
    assert full.dirs[3] == other;
    assert forall i | 0 <= i < |batch| :: EventPath(batch[i]).dirs[3] == projectId;
    assert forall k | 0 <= k < |models| :: MaterializedPath(projectId, models[k].0).dirs[3] == projectId;
  }

  // -------------------------------------------------------------- workspace index

  lemma ProjectIdsMeaning<E>(files: Files<E>, projectId: string)
    ensures projectId in ProjectIdsOf(files) <==> exists path :: path in files && IsEventPath(path, projectId)
  {
    if path :| path in files && IsEventPath(path, projectId) {
      AnyEventPath(path, projectId);
    }
  }

  /** The workspace index lists the Projects with events, unless the append wrote events nobody finds. */
  lemma WorkspaceListsProjects<E(!new), S(!new)>(decoded: seq<StoredEvent<E>>, files: Files<E>, headSha: CommitSha<E>, c: AppendCommand<E, S>,
                                                 codec: Codec<E, S>, batch: seq<StoredEvent<E>>, updates: seq<Update<E>>, state: S)
    requires 1 <= c.occurredAt.month <= 12
    requires Evaluate(decoded, files, headSha, c, codec) == Write(batch, updates, state)
    ensures var after := ApplyUpdates(files, updates);
            && WORKSPACE_PATH in after
            && (after[WORKSPACE_PATH] == WorkspaceJson(ProjectIdsOf(after)) <==>
                FindableYear(c.occurredAt) || c.projectId in ProjectIdsOf(files))
  {
    var after := ApplyUpdates(files, updates);
    WriteIsDecidedOnReplay(decoded, files, headSha, c, codec, batch, updates, state);
    forall projectId ensures projectId in ProjectIdsOf(after) <==>
                             projectId in ProjectIdsOf(files) || (projectId == c.projectId && FindableYear(c.occurredAt))
    {
      ProjectIdAfter(decoded, files, headSha, c, codec, batch, updates, state, projectId);
    }
  }

  lemma ProjectIdAfter<E(!new), S(!new)>(decoded: seq<StoredEvent<E>>, files: Files<E>, headSha: CommitSha<E>, c: AppendCommand<E, S>,
                                         codec: Codec<E, S>, batch: seq<StoredEvent<E>>, updates: seq<Update<E>>, state: S, projectId: string)
    requires 1 <= c.occurredAt.month <= 12
    requires Evaluate(decoded, files, headSha, c, codec) == Write(batch, updates, state)
    ensures projectId in ProjectIdsOf(ApplyUpdates(files, updates)) <==>
            projectId in ProjectIdsOf(files) || (projectId == c.projectId && FindableYear(c.occurredAt))
  {
    var after := ApplyUpdates(files, updates);
    WriteIsDecidedOnReplay(decoded, files, headSha, c, codec, batch, updates, state);
    ProjectIdsMeaning(files, projectId);
    ProjectIdsMeaning(after, projectId);
    if path :| path in files && IsEventPath(path, projectId) {
      AppendKeepsEventFiles(decoded, files, headSha, c, codec, batch, updates, state, path, projectId);
    } else if path :| path in after && IsEventPath(path, projectId) {
      AnyEventPath(path, projectId);
      var i :| 0 <= i < |batch| && EventPath(batch[i]) == path;
      WrittenEnvelope(decoded, files, headSha, c, codec, batch, updates, state, i);
    } else {
      WrittenEnvelope(decoded, files, headSha, c, codec, batch, updates, state, 0);
      assert EventPath(batch[0]) in after;
    }
  }
}

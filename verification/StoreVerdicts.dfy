/** What an append answers without writing: by its key, by its head, and by what it was decided to emit. */
module StoreVerdicts {
  import opened Prelude
  import opened Protocol
  import opened StoreTypes
  import opened StoredBatches
  import opened StateStore
  import opened StoreAppend
  import opened AppendDecode

  /** Nothing has been stored under the key, and the branch stands where the caller expects it. */
  ghost predicate IsTurnOf<E(!new), S(!new)>(decoded: seq<StoredEvent<E>>, headSha: CommitSha<E>, c: AppendCommand<E, S>) {
    (forall e | e in decoded :: e.keyHash.content != c.idempotencyKey) && c.expectedHeadSha == headSha
  }

  /** The state the command is decided on: none for a Project without events. */
  ghost predicate IsPriorState<E(!new), S(!new)>(decoded: seq<StoredEvent<E>>, codec: Codec<E, S>, prior: Option<S>) {
    if decoded == [] then prior == None else prior.Some? && codec.replay(EventsOf(decoded)) == Ok(prior.value)
  }

  /**
   * The key comes first, whatever the head: the same command under a used key is answered with the state of the stored
   * events, another one is a conflict. Only then is the head looked at.
   */
  lemma AnsweredByKey<E(!new), S(!new)>(decoded: seq<StoredEvent<E>>, files: Files<E>, headSha: CommitSha<E>, c: AppendCommand<E, S>, codec: Codec<E, S>)
    requires BatchesAreValid(decoded, c.projectId)
    ensures (exists e :: e in decoded && e.keyHash.content == c.idempotencyKey && e.commandHash.content != c.command) ==>
              Evaluate(decoded, files, headSha, c, codec) == Refuse(IdempotencyConflict)
    ensures (exists e :: e in decoded && e.keyHash.content == c.idempotencyKey && e.commandHash.content == c.command) ==>
              Evaluate(decoded, files, headSha, c, codec)
              == match codec.replay(EventsOf(decoded)) case Ok(state) => Replay(state) case Err(code) => Refuse(code)
    ensures (forall e | e in decoded :: e.keyHash.content != c.idempotencyKey) && c.expectedHeadSha != headSha ==>
              Evaluate(decoded, files, headSha, c, codec) == Refuse(StaleState)
  {
    var found := FindKey(decoded, Digest(c.idempotencyKey));
    if found.Some? {
      forall e | e in decoded && e.keyHash.content == c.idempotencyKey ensures e.commandHash == found.value.commandHash {
        var i :| 0 <= i < |decoded| && decoded[i] == e;
        var j :| 0 <= j < |decoded| && decoded[j] == found.value;
        SameKeySameCommand(decoded, c.projectId, i, j);
      }
    }
  }

  /** A replay that fails and a decision against the command are passed on. */
  lemma RefusedByDecision<E(!new), S(!new)>(decoded: seq<StoredEvent<E>>, files: Files<E>, headSha: CommitSha<E>, c: AppendCommand<E, S>, codec: Codec<E, S>)
    requires IsTurnOf(decoded, headSha, c)
    ensures decoded != [] && codec.replay(EventsOf(decoded)).Err? ==>
              Evaluate(decoded, files, headSha, c, codec) == Refuse(codec.replay(EventsOf(decoded)).error)
    ensures forall prior | IsPriorState(decoded, codec, prior) && c.decide(prior).Err? ::
              Evaluate(decoded, files, headSha, c, codec) == Refuse(c.decide(prior).error)
  {
    assert FindKey(decoded, Digest(c.idempotencyKey)).None?;
  }

  /** Events that no store may hold: none at all, one that does not encode, or a stream that does not replay to the Project. */
  lemma RefusedByEvents<E(!new), S(!new)>(decoded: seq<StoredEvent<E>>, files: Files<E>, headSha: CommitSha<E>, c: AppendCommand<E, S>, codec: Codec<E, S>,
                                          prior: Option<S>, events: seq<E>)
    requires IsTurnOf(decoded, headSha, c) && IsPriorState(decoded, codec, prior) && c.decide(prior) == Ok(events)
    ensures events == [] ==> Evaluate(decoded, files, headSha, c, codec) == Refuse(InvalidEvent)
    ensures (exists e :: e in events && !codec.storable(e)) ==> Evaluate(decoded, files, headSha, c, codec) == Refuse(UnsafeState)
    ensures events != [] && (forall e | e in events :: codec.storable(e)) ==>
              match codec.replay(EventsOf(decoded) + events)
              case Err(code) => Evaluate(decoded, files, headSha, c, codec) == Refuse(code)
              case Ok(state) => codec.projectId(state) != c.projectId ==> Evaluate(decoded, files, headSha, c, codec) == Refuse(InvalidEvent)
  {
    assert FindKey(decoded, Digest(c.idempotencyKey)).None?;
    assert EventsOf(decoded + BatchOf(c, headSha, |decoded|, events)) == EventsOf(decoded) + events;
    if e :| e in events && !codec.storable(e) {
      var i :| 0 <= i < |events| && events[i] == e;
    }
    if forall e | e in events :: codec.storable(e) {
      assert forall i | 0 <= i < |events| :: events[i] in events;
    }
  }

  lemma SameNewness<E(!new)>(files: Files<E>, batch: seq<StoredEvent<E>>)
    ensures AllNew(files, EventUpdates(batch)) <==> forall e | e in batch :: EventPath(e) !in files
  {
    if AllNew(files, EventUpdates(batch)) {
      forall e | e in batch ensures EventPath(e) !in files {
        var i :| 0 <= i < |batch| && batch[i] == e;
        assert EventUpdates(batch)[i].0 !in files;
      }
    }
    if forall e | e in batch :: EventPath(e) !in files {
      forall i | 0 <= i < |batch| ensures EventUpdates(batch)[i].0 !in files {
        assert batch[i] in batch;
      }
    }
  }

  lemma SameSafety(models: seq<(RelativePath, string)>)
    ensures AllSafe(models) <==> forall m | m in models :: SafeMaterializedPath(m.0)
  {
    if forall m | m in models :: SafeMaterializedPath(m.0) {
      assert forall i | 0 <= i < |models| :: models[i] in models;
    }
  }

  /** And files that may not be written: those of `materialize` failing or lying where they may not, or an event file that exists. */
  lemma RefusedByFiles<E(!new), S(!new)>(decoded: seq<StoredEvent<E>>, files: Files<E>, headSha: CommitSha<E>, c: AppendCommand<E, S>, codec: Codec<E, S>,
                                         prior: Option<S>, events: seq<E>, state: S)
    requires IsTurnOf(decoded, headSha, c) && IsPriorState(decoded, codec, prior) && c.decide(prior) == Ok(events)
    requires events != [] && (forall e | e in events :: codec.storable(e))
    requires codec.replay(EventsOf(decoded) + events) == Ok(state) && codec.projectId(state) == c.projectId
    ensures var batch := BatchOf(c, headSha, |decoded|, events);
            match codec.materialize(state, decoded + batch)
            case Err(code) => Evaluate(decoded, files, headSha, c, codec) == Refuse(code)
            case Ok(models) =>
              !((forall e | e in batch :: EventPath(e) !in files) && forall m | m in models :: SafeMaterializedPath(m.0)) ==>
                Evaluate(decoded, files, headSha, c, codec) == Refuse(InvalidEvent)
  {
    assert FindKey(decoded, Digest(c.idempotencyKey)).None?;
    var batch := BatchOf(c, headSha, |decoded|, events);
    assert EventsOf(decoded + batch) == EventsOf(decoded) + events;
    assert forall i | 0 <= i < |events| :: events[i] in events;
    SameNewness(files, batch);
    var models := codec.materialize(state, decoded + batch);
    if models.Ok? {
      SameSafety(models.value);
    }
  }
}

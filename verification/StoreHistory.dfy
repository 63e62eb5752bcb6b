/** A history of appends: every entry was decided on the branch as the entries before it left it. */
module StoreHistory {
  import opened Prelude
  import opened Protocol
  import opened StoreTypes
  import opened StoredBatches
  import opened StateStore
  import opened StoreAppend
  import opened AppendDecode

  datatype Setting<!E, !S> = Setting(repository: Repository, codec: Codec<E, S>)

  /** A batch that was committed, and the command it was decided for. */
  datatype Entry<!E, !S> = Entry(command: AppendCommand<E, S>, batch: seq<StoredEvent<E>>, updates: seq<Update<E>>, state: S)

  /** The branch where it was created, and everything committed since. */
  datatype History<!E, !S> = History(start: CommitSha<E>, files: Files<E>, log: seq<Entry<E, S>>)

  function StateMessage(projectId: string): string {
    "Hunsu project state " + projectId
  }

  function FilesAt<E, S>(h: History<E, S>, k: nat): Files<E>
    requires k <= |h.log|
  {
    if k == 0 then h.files else ApplyUpdates(FilesAt(h, k - 1), h.log[k - 1].updates)
  }

  function HeadAt<E, S>(h: History<E, S>, k: nat): CommitSha<E>
    requires k <= |h.log|
  {
    if k == 0 then h.start else Made(HeadAt(h, k - 1), StateMessage(h.log[k - 1].command.projectId), FilesAt(h, k))
  }

  /** The batch of an entry, if readers of the Project find it. */
  function PartOf<E, S>(e: Entry<E, S>, projectId: string): seq<StoredEvent<E>> {
    if e.command.projectId == projectId && FindableYear(e.command.occurredAt) then e.batch else []
  }

  /** The files the branch was created with may hold events of the Project; readers refuse them all unless they decode. */
  ghost predicate IsReadable<E(!new), S>(s: Setting<E, S>, h: History<E, S>, projectId: string) {
    Decoding(h.files, s.repository, projectId).Ok?
  }

  ghost function Start<E(!new), S>(s: Setting<E, S>, h: History<E, S>, projectId: string): seq<StoredEvent<E>> {
    match Decoding(h.files, s.repository, projectId)
    case Ok(events) => events
    case Err(_) => []
  }

  /** What stood there at the start and the findable batches of the first `k` entries, in commit order. */
  ghost function Stream<E(!new), S>(s: Setting<E, S>, h: History<E, S>, k: nat, projectId: string): seq<StoredEvent<E>>
    requires k <= |h.log|
  {
    if k == 0 then Start(s, h, projectId) else Stream(s, h, k - 1, projectId) + PartOf(h.log[k - 1], projectId)
  }

  /** Entry `k` is what an append decided to write when the entries before it were all there was. */
  ghost predicate IsDecided<E(!new), S>(s: Setting<E, S>, h: History<E, S>, k: nat)
    requires k < |h.log|
  {
    var e := h.log[k];
    && IsValidInput(e.command, s.codec) && SameRepository(e.command.repository, s.repository) && IsReadable(s, h, e.command.projectId)
    && Evaluate(Stream(s, h, k, e.command.projectId), FilesAt(h, k), HeadAt(h, k), e.command, s.codec)
       == Write(e.batch, e.updates, e.state)
  }

  ghost predicate IsHistory<E(!new), S>(s: Setting<E, S>, h: History<E, S>) {
    forall k {:trigger IsDecided(s, h, k)} | 0 <= k < |h.log| :: IsDecided(s, h, k)
  }

  // --------------------------------------------------------------------- decoding

  lemma SameRepositoryDecodes<E>(files: Files<E>, a: Repository, b: Repository, projectId: string, events: seq<StoredEvent<E>>)
    requires SameRepository(a, b) && Decodes(files, a, projectId, events)
    ensures Decodes(files, b, projectId, events)
  {
  }

  /** What decodes does not depend on how the repository is spelled. */
  lemma SameRepositoryReads<E(!new)>(files: Files<E>, a: Repository, b: Repository, projectId: string)
    requires SameRepository(a, b)
    ensures Decoding(files, a, projectId).Ok? <==> Decoding(files, b, projectId).Ok?
    ensures Decoding(files, a, projectId).Ok? ==> Decoding(files, a, projectId) == Decoding(files, b, projectId)
  {
    if Decoding(files, a, projectId).Ok? {
      DecodingMeaning(files, a, projectId, Decoding(files, a, projectId).value);
      DecodingMeaning(files, b, projectId, Decoding(files, a, projectId).value);
    } else if Decoding(files, b, projectId).Ok? {
      DecodingMeaning(files, b, projectId, Decoding(files, b, projectId).value);
      DecodingMeaning(files, a, projectId, Decoding(files, b, projectId).value);
    }
  }

  lemma EntryDecodes<E(!new), S(!new)>(s: Setting<E, S>, h: History<E, S>, k: nat, projectId: string)
    requires IsHistory(s, h) && k < |h.log|
    requires Decodes(FilesAt(h, k), s.repository, projectId, Stream(s, h, k, projectId))
    ensures Decodes(FilesAt(h, k + 1), s.repository, projectId, Stream(s, h, k + 1, projectId))
  {
    assert IsDecided(s, h, k);
    var e := h.log[k];
    var c := e.command;
    var files, decoded := FilesAt(h, k), Stream(s, h, k, c.projectId);
    if projectId == c.projectId {
      SameRepositoryDecodes(files, s.repository, c.repository, projectId, decoded);
      AppendDecodeRoundTrip(decoded, files, HeadAt(h, k), c, s.codec, e.batch, e.updates, e.state);
      assert decoded + [] == decoded;
      SameRepositoryDecodes(FilesAt(h, k + 1), c.repository, s.repository, projectId, Stream(s, h, k + 1, projectId));
    } else {
      var other := Stream(s, h, k, projectId);
      assert other + [] == other;
      AppendKeepsOtherProjects(decoded, files, HeadAt(h, k), c, s.codec, e.batch, e.updates, e.state, s.repository, projectId, other);
    }
  }

  /**
   * The files after any number of appends decode, Project by Project, to what was there at the start and every committed
   * batch whose year has four digits, in commit order. A Project the start made unreadable stays so.
   */
  lemma {:induction false} HistoryDecodes<E(!new), S(!new)>(s: Setting<E, S>, h: History<E, S>, k: nat, projectId: string)
    requires IsHistory(s, h) && k <= |h.log|
    ensures IsReadable(s, h, projectId) ==> Decodes(FilesAt(h, k), s.repository, projectId, Stream(s, h, k, projectId))
    ensures !IsReadable(s, h, projectId) ==> Decoding(FilesAt(h, k), s.repository, projectId).Err?
  {
    if k == 0 {
      if IsReadable(s, h, projectId) {
        DecodingMeaning(h.files, s.repository, projectId, Start(s, h, projectId));
      }
    } else {
      HistoryDecodes(s, h, k - 1, projectId);
      if IsReadable(s, h, projectId) {
        EntryDecodes(s, h, k - 1, projectId);
      } else {
        EntryLeavesUnreadable(s, h, k - 1, projectId);
      }
    }
  }

  lemma EntryLeavesUnreadable<E(!new), S(!new)>(s: Setting<E, S>, h: History<E, S>, k: nat, projectId: string)
    requires IsHistory(s, h) && k < |h.log| && !IsReadable(s, h, projectId)
    requires Decoding(FilesAt(h, k), s.repository, projectId).Err?
    ensures Decoding(FilesAt(h, k + 1), s.repository, projectId).Err?
  {
    assert IsDecided(s, h, k);
    var e := h.log[k];
    var c := e.command;
    var after := Decoding(FilesAt(h, k + 1), s.repository, projectId);
    if after.Ok? {
      DecodingMeaning(FilesAt(h, k + 1), s.repository, projectId, after.value);
      AppendKeepsOtherProjects(Stream(s, h, k, c.projectId), FilesAt(h, k), HeadAt(h, k), c, s.codec, e.batch, e.updates, e.state,
                               s.repository, projectId, after.value);
      DecodingMeaning(FilesAt(h, k), s.repository, projectId, after.value);
    }
  }

  // ------------------------------------------------------------- one entry for a key

  /** Every entry extends exactly the history before it: nothing was committed between reading and writing. */
  lemma CommittedOnItsPrefix<E(!new), S(!new)>(s: Setting<E, S>, h: History<E, S>, k: nat)
    requires IsHistory(s, h) && k < |h.log|
    ensures var e := h.log[k]; var c := e.command; var prior := Stream(s, h, k, c.projectId);
            && 1 <= c.occurredAt.month <= 12 && s.codec.safe(c.command) && c.expectedHeadSha == HeadAt(h, k)
            && (forall i | 0 <= i < |e.batch| ::
                  e.batch[i].previousStateSha == HeadAt(h, k) && e.batch[i].sequence == |prior| + i + 1
                  && e.batch[i].keyHash == Digest(c.idempotencyKey) && e.batch[i].commandHash == Digest(c.command))
            && (prior == [] ==> c.decide(None) == Ok(EventsOf(e.batch)))
            && (prior != [] ==> s.codec.replay(EventsOf(prior)).Ok?
                                && c.decide(Some(s.codec.replay(EventsOf(prior)).value)) == Ok(EventsOf(e.batch)))
            && e.batch != [] && s.codec.replay(EventsOf(prior + e.batch)) == Ok(e.state)
            && forall x | x in prior :: x.keyHash != Digest(c.idempotencyKey)
  {
    assert IsDecided(s, h, k);
    var e := h.log[k];
    var c := e.command;
    var prior := Stream(s, h, k, c.projectId);
    var events, models := WriteIsPlanned(prior, FilesAt(h, k), HeadAt(h, k), c, s.codec, e.batch, e.updates, e.state);
    assert EventsOf(e.batch) == events;
  }

  lemma {:induction false} StreamGrows<E(!new), S(!new)>(s: Setting<E, S>, h: History<E, S>, j: nat, k: nat, projectId: string)
    requires j <= k <= |h.log|
    ensures Stream(s, h, j, projectId) <= Stream(s, h, k, projectId)
  {
    if j < k {
      StreamGrows(s, h, j, k - 1, projectId);
    }
  }

  /** What was committed for the Project stays in its stream. */
  lemma CommittedStays<E(!new), S(!new)>(s: Setting<E, S>, h: History<E, S>, k: nat, j: nat) returns (i: nat)
    requires IsHistory(s, h) && k < j <= |h.log| && FindableYear(h.log[k].command.occurredAt)
    ensures var c := h.log[k].command; var stream := Stream(s, h, j, c.projectId);
            && i < |stream| && stream[i].keyHash == Digest(c.idempotencyKey) && stream[i].commandHash == Digest(c.command)
  {
    var c := h.log[k].command;
    CommittedOnItsPrefix(s, h, k);
    StreamGrows(s, h, k + 1, j, c.projectId);
    i := |Stream(s, h, k, c.projectId)|;
    assert Stream(s, h, k + 1, c.projectId) == Stream(s, h, k, c.projectId) + h.log[k].batch;
  }

  /** Two batches of a Project share an idempotency key only if the earlier is dated in a year that is not found. */
  lemma AtMostOneBatchPerKey<E(!new), S(!new)>(s: Setting<E, S>, h: History<E, S>, k: nat, j: nat)
    requires IsHistory(s, h) && k < j < |h.log| && h.log[j].command.projectId == h.log[k].command.projectId
    ensures h.log[j].command.idempotencyKey == h.log[k].command.idempotencyKey ==> !FindableYear(h.log[k].command.occurredAt)
  {
    if FindableYear(h.log[k].command.occurredAt) {
      var i := CommittedStays(s, h, k, j);
      CommittedOnItsPrefix(s, h, j);
      assert Stream(s, h, j, h.log[k].command.projectId)[i] in Stream(s, h, j, h.log[k].command.projectId);
    }
  }

  lemma {:induction false} QuietStretch<E(!new), S(!new)>(s: Setting<E, S>, h: History<E, S>, k: nat, j: nat, projectId: string)
    requires k <= j <= |h.log| && forall l | k <= l < j :: PartOf(h.log[l], projectId) == []
    ensures Stream(s, h, j, projectId) == Stream(s, h, k, projectId)
  {
    if k < j {
      QuietStretch(s, h, k, j - 1, projectId);
      assert Stream(s, h, j, projectId) == Stream(s, h, j - 1, projectId);
    }
  }

  lemma LastPart<E, S>(h: History<E, S>, i: nat, j: nat, projectId: string) returns (k: nat)
    requires i < j <= |h.log| && PartOf(h.log[i], projectId) != []
    ensures i <= k < j && PartOf(h.log[k], projectId) != []
    ensures forall l | k < l < j :: PartOf(h.log[l], projectId) == []
  {
    k := j - 1;
    while PartOf(h.log[k], projectId) == []
      invariant i <= k < j && forall l | k < l < j :: PartOf(h.log[l], projectId) == []
      decreases k
    {
      k := k - 1;
    }
  }

  lemma StateOfEntry<E(!new), S(!new)>(s: Setting<E, S>, h: History<E, S>, k: nat, projectId: string)
    requires IsHistory(s, h) && k < |h.log| && PartOf(h.log[k], projectId) != []
    ensures s.codec.replay(EventsOf(Stream(s, h, k + 1, projectId))) == Ok(h.log[k].state)
  {
    CommittedOnItsPrefix(s, h, k);
    assert Stream(s, h, k + 1, projectId) == Stream(s, h, k, projectId) + h.log[k].batch;
  }

  /** The last entry that readers of the Project find: its state is the replay of the whole stream. */
  lemma LatestEntry<E(!new), S(!new)>(s: Setting<E, S>, h: History<E, S>, i: nat, j: nat, projectId: string) returns (k: nat)
    requires IsHistory(s, h) && i < j <= |h.log| && PartOf(h.log[i], projectId) != []
    ensures i <= k < j && PartOf(h.log[k], projectId) != []
    ensures forall l | k < l < j :: PartOf(h.log[l], projectId) == []
    ensures s.codec.replay(EventsOf(Stream(s, h, j, projectId))) == Ok(h.log[k].state)
  {
    k := LastPart(h, i, j, projectId);
    QuietStretch(s, h, k + 1, j, projectId);
    StateOfEntry(s, h, k, projectId);
  }

  /** The event that answers for a committed key belongs to the committed command. */
  lemma CommittedIsFound<E(!new), S(!new)>(s: Setting<E, S>, h: History<E, S>, k: nat, j: nat)
    requires IsHistory(s, h) && k < j <= |h.log| && FindableYear(h.log[k].command.occurredAt)
    ensures var c := h.log[k].command; var found := FindKey(Stream(s, h, j, c.projectId), Digest(c.idempotencyKey));
            found.Some? && found.value.commandHash == Digest(c.command)
  {
    var c := h.log[k].command;
    var stream := Stream(s, h, j, c.projectId);
    var i := CommittedStays(s, h, k, j);
    assert stream[i] in stream;
    var found := FindKey(stream, Digest(c.idempotencyKey));
    var f :| 0 <= f < |stream| && stream[f] == found.value;
    assert IsDecided(s, h, k);
    HistoryDecodes(s, h, j, c.projectId);
    SameKeySameCommand(stream, c.projectId, f, i);
  }

  lemma EvaluateFound<E, S>(decoded: seq<StoredEvent<E>>, files: Files<E>, headSha: CommitSha<E>, c: AppendCommand<E, S>, codec: Codec<E, S>)
    requires FindKey(decoded, Digest(c.idempotencyKey)).Some? && codec.replay(EventsOf(decoded)).Ok?
    ensures Evaluate(decoded, files, headSha, c, codec)
            == if FindKey(decoded, Digest(c.idempotencyKey)).value.commandHash != Digest(c.command) then Refuse(IdempotencyConflict)
               else Replay(codec.replay(EventsOf(decoded)).value)
  {
  }

  /**
   * Whoever asks again after a command was committed is told so, whatever head it expects and however far the branch
   * has moved: the same command is replayed, another one under its key is a conflict.
   */
  lemma RetryIsReplay<E(!new), S(!new)>(s: Setting<E, S>, h: History<E, S>, k: nat, j: nat, c: AppendCommand<E, S>) returns (l: nat)
    requires IsHistory(s, h) && k < j <= |h.log| && FindableYear(h.log[k].command.occurredAt)
    requires c.projectId == h.log[k].command.projectId && c.idempotencyKey == h.log[k].command.idempotencyKey
    ensures k <= l < j && h.log[l].command.projectId == c.projectId
    ensures forall m | l < m < j :: PartOf(h.log[m], c.projectId) == []
    ensures Evaluate(Stream(s, h, j, c.projectId), FilesAt(h, j), HeadAt(h, j), c, s.codec)
            == if c.command == h.log[k].command.command then Replay(h.log[l].state) else Refuse(IdempotencyConflict)
  {
    CommittedIsFound(s, h, k, j);
    CommittedOnItsPrefix(s, h, k);
    l := LatestEntry(s, h, k, j, c.projectId);
    EvaluateFound(Stream(s, h, j, c.projectId), FilesAt(h, j), HeadAt(h, j), c, s.codec);
  }

  lemma EvaluateUnfound<E, S>(decoded: seq<StoredEvent<E>>, files: Files<E>, headSha: CommitSha<E>, c: AppendCommand<E, S>, codec: Codec<E, S>)
    requires forall x | x in decoded :: x.keyHash != Digest(c.idempotencyKey)
    ensures !Evaluate(decoded, files, headSha, c, codec).Replay?
  {
  }

  /** A batch of an unfindable year is not remembered: asking again right away is no replay. */
  lemma UnfoundIsNotReplayed<E(!new), S(!new)>(s: Setting<E, S>, h: History<E, S>, k: nat)
    requires IsHistory(s, h) && k < |h.log|
    ensures var c := h.log[k].command;
            Evaluate(Stream(s, h, k + 1, c.projectId), FilesAt(h, k + 1), HeadAt(h, k + 1), c, s.codec).Replay? <==>
            FindableYear(c.occurredAt)
  {
    var c := h.log[k].command;
    CommittedOnItsPrefix(s, h, k);
    if FindableYear(c.occurredAt) {
      var l := RetryIsReplay(s, h, k, k + 1, c);
    } else {
      assert Stream(s, h, k + 1, c.projectId) == Stream(s, h, k, c.projectId);
      EvaluateUnfound(Stream(s, h, k, c.projectId), FilesAt(h, k + 1), HeadAt(h, k + 1), c, s.codec);
    }
  }

  // ---------------------------------------------------------- files for readers

  /** Nothing was committed to the Project of entry `k` behind it. */
  predicate IsLastOfProject<E, S>(h: History<E, S>, k: nat, j: nat)
    requires k < j <= |h.log|
  {
    forall l | k < l < j :: h.log[l].command.projectId != h.log[k].command.projectId
  }

  lemma {:induction false} OthersKeepModels<E(!new), S(!new)>(s: Setting<E, S>, h: History<E, S>, k: nat, j: nat, projectId: string,
                                                            models: seq<(RelativePath, string)>)
    requires IsHistory(s, h) && k <= j <= |h.log| && forall l | k <= l < j :: h.log[l].command.projectId != projectId
    requires HoldsModels(FilesAt(h, k), projectId, models)
    ensures HoldsModels(FilesAt(h, j), projectId, models)
  {
    if k < j {
      OthersKeepModels(s, h, k, j - 1, projectId, models);
      EntryKeepsModels(s, h, j - 1, projectId, models);
    }
  }

  /** The files for readers are those of the last entry of their Project, whatever was committed to others since. */
  lemma ModelsOfLastEntry<E(!new), S(!new)>(s: Setting<E, S>, h: History<E, S>, k: nat, j: nat) returns (models: seq<(RelativePath, string)>)
    requires IsHistory(s, h) && k < j <= |h.log| && IsLastOfProject(h, k, j)
    ensures var e := h.log[k]; var projectId := e.command.projectId;
            && s.codec.materialize(e.state, Stream(s, h, k, projectId) + e.batch) == Ok(models)
            && HoldsModels(FilesAt(h, j), projectId, models)
  {
    models := ModelsOfEntry(s, h, k);
    OthersKeepModels(s, h, k + 1, j, h.log[k].command.projectId, models);
  }

  lemma ModelsOfEntry<E(!new), S(!new)>(s: Setting<E, S>, h: History<E, S>, k: nat) returns (models: seq<(RelativePath, string)>)
    requires IsHistory(s, h) && k < |h.log|
    ensures var e := h.log[k]; var projectId := e.command.projectId;
            && s.codec.materialize(e.state, Stream(s, h, k, projectId) + e.batch) == Ok(models)
            && HoldsModels(FilesAt(h, k + 1), projectId, models)
  {
    assert IsDecided(s, h, k);
    var e := h.log[k];
    models := WriteMaterializes(Stream(s, h, k, e.command.projectId), FilesAt(h, k), HeadAt(h, k), e.command, s.codec, e.batch, e.updates, e.state);
  }

  lemma EntryKeepsModels<E(!new), S(!new)>(s: Setting<E, S>, h: History<E, S>, k: nat, other: string, models: seq<(RelativePath, string)>)
    requires IsHistory(s, h) && k < |h.log| && h.log[k].command.projectId != other && HoldsModels(FilesAt(h, k), other, models)
    ensures HoldsModels(FilesAt(h, k + 1), other, models)
  {
    assert IsDecided(s, h, k);
    var e := h.log[k];
    OtherProjectKeepsModels(Stream(s, h, k, e.command.projectId), FilesAt(h, k), HeadAt(h, k), e.command, s.codec, e.batch, e.updates, e.state,
                            other, models);
  }

  // ------------------------------------------------------------------ growing and naming

  /** A further entry changes nothing about the earlier ones. */
  lemma {:induction false} LogPrefix<E, S>(h: History<E, S>, e: Entry<E, S>, k: nat)
    requires k <= |h.log|
    ensures var longer := h.(log := h.log + [e]); FilesAt(longer, k) == FilesAt(h, k) && HeadAt(longer, k) == HeadAt(h, k)
  {
    if k > 0 {
      LogPrefix(h, e, k - 1);
    }
  }

  lemma {:induction false} StreamPrefix<E(!new), S(!new)>(s: Setting<E, S>, h: History<E, S>, e: Entry<E, S>, k: nat, projectId: string)
    requires k <= |h.log|
    ensures Stream(s, h.(log := h.log + [e]), k, projectId) == Stream(s, h, k, projectId)
  {
    if k > 0 {
      StreamPrefix(s, h, e, k - 1, projectId);
    }
  }

  /** A head names the files it was committed with, so an unmoved head means unchanged files. */
  lemma HeadsNameFiles<E, S>(h: History<E, S>, j: nat, k: nat)
    requires h.start.Seed? && j <= |h.log| && k <= |h.log| && HeadAt(h, j) == HeadAt(h, k)
    ensures FilesAt(h, j) == FilesAt(h, k)
  {
    assert j > 0 ==> HeadAt(h, j).Made? && HeadAt(h, j).files == FilesAt(h, j);
    assert k > 0 ==> HeadAt(h, k).Made? && HeadAt(h, k).files == FilesAt(h, k);
  }

  lemma HistoryExtends<E(!new), S(!new)>(s: Setting<E, S>, h: History<E, S>, e: Entry<E, S>)
    requires IsHistory(s, h) && IsValidInput(e.command, s.codec) && SameRepository(e.command.repository, s.repository)
    requires IsReadable(s, h, e.command.projectId)
    requires Evaluate(Stream(s, h, |h.log|, e.command.projectId), FilesAt(h, |h.log|), HeadAt(h, |h.log|), e.command, s.codec)
             == Write(e.batch, e.updates, e.state)
    ensures IsHistory(s, h.(log := h.log + [e]))
  {
    var longer := h.(log := h.log + [e]);
    forall k | 0 <= k < |longer.log| ensures IsDecided(s, longer, k) {
      LogPrefix(h, e, k);
      StreamPrefix(s, h, e, k, longer.log[k].command.projectId);
      if k < |h.log| {
        assert IsDecided(s, h, k);
      }
    }
  }
}

/**
 * A timestamp of a year outside 0 to 9999 passes the checks of an append, but the file it names is never found again.
 * What that costs: which batches are read back, which keys are remembered, and who is told of a replay.
 */
module StoreYears {
  import opened Prelude
  import opened Protocol
  import opened StoreTypes
  import opened StoredBatches
  import opened StateStore
  import opened StoreAppend
  import opened AppendDecode
  import opened StoreHistory

  // ------------------------------------------------------------ what is read back

  function BatchFor<E, S>(e: Entry<E, S>, projectId: string): seq<StoredEvent<E>> {
    if e.command.projectId == projectId then e.batch else []
  }

  /** What stood there at the start and every batch committed since, found or not. */
  ghost function Everything<E(!new), S>(s: Setting<E, S>, h: History<E, S>, k: nat, projectId: string): seq<StoredEvent<E>>
    requires k <= |h.log|
  {
    if k == 0 then Start(s, h, projectId) else Everything(s, h, k - 1, projectId) + BatchFor(h.log[k - 1], projectId)
  }

  predicate AllFindable<E, S>(h: History<E, S>, k: nat, projectId: string)
    requires k <= |h.log|
  {
    forall l | 0 <= l < k && h.log[l].command.projectId == projectId :: FindableYear(h.log[l].command.occurredAt)
  }

  lemma PartIsShorter<E(!new), S(!new)>(s: Setting<E, S>, h: History<E, S>, k: nat, projectId: string)
    requires IsHistory(s, h) && k < |h.log|
    ensures var part, batch := PartOf(h.log[k], projectId), BatchFor(h.log[k], projectId);
            if h.log[k].command.projectId == projectId ==> FindableYear(h.log[k].command.occurredAt) then part == batch
            else part == [] && |batch| > 0
  {
    CommittedOnItsPrefix(s, h, k);
  }

  lemma {:induction false} StreamIsShorter<E(!new), S(!new)>(s: Setting<E, S>, h: History<E, S>, k: nat, projectId: string)
    requires IsHistory(s, h) && k <= |h.log|
    ensures if AllFindable(h, k, projectId) then Stream(s, h, k, projectId) == Everything(s, h, k, projectId)
            else |Stream(s, h, k, projectId)| < |Everything(s, h, k, projectId)|
  {
    if k > 0 {
      StreamIsShorter(s, h, k - 1, projectId);
      PartIsShorter(s, h, k - 1, projectId);
      assert AllFindable(h, k, projectId) <==>
             (AllFindable(h, k - 1, projectId)
              && (h.log[k - 1].command.projectId == projectId ==> FindableYear(h.log[k - 1].command.occurredAt)));
    }
  }

  /** A Project reads back as everything committed for it if and only if all of it was dated in the years 0 to 9999. */
  lemma EverythingIsReadBack<E(!new), S(!new)>(s: Setting<E, S>, h: History<E, S>, k: nat, projectId: string)
    requires IsHistory(s, h) && k <= |h.log| && IsReadable(s, h, projectId)
    ensures Decodes(FilesAt(h, k), s.repository, projectId, Everything(s, h, k, projectId)) <==> AllFindable(h, k, projectId)
  {
    HistoryDecodes(s, h, k, projectId);
    StreamIsShorter(s, h, k, projectId);
    if Decodes(FilesAt(h, k), s.repository, projectId, Everything(s, h, k, projectId)) {
      DecodingIsUnique(FilesAt(h, k), s.repository, projectId, Stream(s, h, k, projectId), Everything(s, h, k, projectId));
    }
  }

  // -------------------------------------------------------- which keys are remembered

  /** Entry `k` was committed for the Project under the key, in a year that is found. */
  predicate Remembers<E, S>(h: History<E, S>, k: nat, projectId: string, key: string)
    requires k < |h.log|
  {
    h.log[k].command.projectId == projectId && h.log[k].command.idempotencyKey == key && FindableYear(h.log[k].command.occurredAt)
  }

  ghost predicate HasKey<E>(events: seq<StoredEvent<E>>, key: string) {
    exists e :: e in events && e.keyHash == Digest(key)
  }

  lemma KeyOfPart<E(!new), S(!new)>(s: Setting<E, S>, h: History<E, S>, k: nat, projectId: string, key: string)
    requires IsHistory(s, h) && k < |h.log|
    ensures HasKey(PartOf(h.log[k], projectId), key) <==> Remembers(h, k, projectId, key)
  {
    CommittedOnItsPrefix(s, h, k);
    var part := PartOf(h.log[k], projectId);
    if part != [] {
      assert part[0] in part;
    }
  }

  lemma KeyOfBoth<E>(a: seq<StoredEvent<E>>, b: seq<StoredEvent<E>>, key: string)
    ensures HasKey(a + b, key) <==> HasKey(a, key) || HasKey(b, key)
  {
    if e :| e in a && e.keyHash == Digest(key) {
      assert e in a + b;
    }
    if e :| e in b && e.keyHash == Digest(key) {
      assert e in a + b;
    }
  }

  lemma {:induction false} KeyOfStream<E(!new), S(!new)>(s: Setting<E, S>, h: History<E, S>, j: nat, projectId: string, key: string)
    requires IsHistory(s, h) && j <= |h.log|
    ensures HasKey(Stream(s, h, j, projectId), key) <==>
            HasKey(Start(s, h, projectId), key) || exists k :: 0 <= k < j && Remembers(h, k, projectId, key)
  {
    if j > 0 {
      KeyOfStream(s, h, j - 1, projectId, key);
      KeyOfPart(s, h, j - 1, projectId, key);
      KeyOfBoth(Stream(s, h, j - 1, projectId), PartOf(h.log[j - 1], projectId), key);
    }
  }

  /** A key is remembered if and only if it was there at the start, or a batch was committed under it in a year that is found. */
  lemma KeyIsRemembered<E(!new), S(!new)>(s: Setting<E, S>, h: History<E, S>, j: nat, projectId: string, key: string)
    requires IsHistory(s, h) && j <= |h.log|
    ensures FindKey(Stream(s, h, j, projectId), Digest(key)).Some? <==>
            HasKey(Start(s, h, projectId), key) || exists k :: 0 <= k < j && Remembers(h, k, projectId, key)
  {
    KeyOfStream(s, h, j, projectId, key);
  }

  /** No batch is committed under a key that was there at the start. */
  lemma NewKey<E(!new), S(!new)>(s: Setting<E, S>, h: History<E, S>, k: nat)
    requires IsHistory(s, h) && k < |h.log|
    ensures !HasKey(Start(s, h, h.log[k].command.projectId), h.log[k].command.idempotencyKey)
  {
    CommittedOnItsPrefix(s, h, k);
    StreamGrows(s, h, 0, k, h.log[k].command.projectId);
  }

  /** A batch from before the start that answers for the command. */
  ghost predicate IsOld<E(!new), S(!new)>(s: Setting<E, S>, h: History<E, S>, j: nat, c: AppendCommand<E, S>)
    requires j <= |h.log|
  {
    && s.codec.replay(EventsOf(Stream(s, h, j, c.projectId))).Ok?
    && exists e :: e in Start(s, h, c.projectId) && e.keyHash == Digest(c.idempotencyKey) && e.commandHash == Digest(c.command)
  }

  /**
   * A command is answered as a replay if and only if a batch was committed for it in a year that is found: one since the
   * start, or an old one as long as the stream replays.
   */
  lemma ReplayedExactly<E(!new), S(!new)>(s: Setting<E, S>, h: History<E, S>, j: nat, c: AppendCommand<E, S>)
    requires IsHistory(s, h) && j <= |h.log|
    ensures Evaluate(Stream(s, h, j, c.projectId), FilesAt(h, j), HeadAt(h, j), c, s.codec).Replay? <==>
            IsOld(s, h, j, c)
            || exists k :: 0 <= k < j && Remembers(h, k, c.projectId, c.idempotencyKey) && h.log[k].command.command == c.command
  {
    var stream := Stream(s, h, j, c.projectId);
    if k :| 0 <= k < j && Remembers(h, k, c.projectId, c.idempotencyKey) && h.log[k].command.command == c.command {
      var l := RetryIsReplay(s, h, k, j, c);
    } else if e :| e in Start(s, h, c.projectId) && e.keyHash == Digest(c.idempotencyKey) {
      OldExactly(s, h, j, c, e);
    } else {
      KeyIsRemembered(s, h, j, c.projectId, c.idempotencyKey);
      if k :| 0 <= k < j && Remembers(h, k, c.projectId, c.idempotencyKey) {
        var l := RetryIsReplay(s, h, k, j, c);
      } else {
        EvaluateUnfound(stream, FilesAt(h, j), HeadAt(h, j), c, s.codec);
      }
    }
  }

  /** A key from before the start is answered with its old command. */
  lemma KeyAtStart<E(!new), S(!new)>(s: Setting<E, S>, h: History<E, S>, j: nat, projectId: string, e: StoredEvent<E>)
    requires IsHistory(s, h) && j <= |h.log| && e in Start(s, h, projectId)
    ensures var found := FindKey(Stream(s, h, j, projectId), e.keyHash); found.Some? && found.value.commandHash == e.commandHash
  {
    var stream := Stream(s, h, j, projectId);
    StreamGrows(s, h, 0, j, projectId);
    var i :| 0 <= i < |Start(s, h, projectId)| && Start(s, h, projectId)[i] == e;
    assert stream[i] == e && e in stream;
    var found := FindKey(stream, e.keyHash);
    var f :| 0 <= f < |stream| && stream[f] == found.value;
    HistoryDecodes(s, h, j, projectId);
    SameKeySameCommand(stream, projectId, f, i);
  }

  lemma OldExactly<E(!new), S(!new)>(s: Setting<E, S>, h: History<E, S>, j: nat, c: AppendCommand<E, S>, e: StoredEvent<E>)
    requires IsHistory(s, h) && j <= |h.log| && e in Start(s, h, c.projectId) && e.keyHash == Digest(c.idempotencyKey)
    ensures Evaluate(Stream(s, h, j, c.projectId), FilesAt(h, j), HeadAt(h, j), c, s.codec).Replay? <==> IsOld(s, h, j, c)
  {
    KeyAtStart(s, h, j, c.projectId, e);
    if earlier :| earlier in Start(s, h, c.projectId) && earlier.keyHash == Digest(c.idempotencyKey) && earlier.commandHash == Digest(c.command) {
      KeyAtStart(s, h, j, c.projectId, earlier);
    }
  }

  // ------------------------------------------------------ two batches under one key

  /** The codec takes the event as a Project's first, however it is stored. */
  ghost predicate TakesFirst<E(!new), S(!new)>(codec: Codec<E, S>, projectId: string, event: E, state: S) {
    && codec.storable(event) && codec.replay([event]) == Ok(state) && codec.projectId(state) == projectId
    && forall stored {:trigger codec.materialize(state, stored)} ::
         codec.materialize(state, stored).Ok? && AllSafe(codec.materialize(state, stored).value)
  }

  lemma FirstIsWritten<E(!new), S(!new)>(files: Files<E>, headSha: CommitSha<E>, c: AppendCommand<E, S>, codec: Codec<E, S>, event: E, state: S)
    returns (batch: seq<StoredEvent<E>>, models: seq<(RelativePath, string)>, updates: seq<Update<E>>)
    requires TakesFirst(codec, c.projectId, event, state) && c.decide(None) == Ok([event]) && c.expectedHeadSha == headSha
    requires EventPath(BatchOf(c, headSha, 0, [event])[0]) !in files
    ensures batch == BatchOf(c, headSha, 0, [event]) && AllSafe(models)
    ensures updates == EventUpdates(batch) + (ModelUpdates(c.projectId, models) + [WorkspaceUpdate(files, c.projectId)])
    ensures Evaluate([], files, headSha, c, codec) == Write(batch, updates, state)
  {
    batch := BatchOf(c, headSha, 0, [event]);
    models := codec.materialize(state, batch).value;
    updates := EventUpdates(batch) + (ModelUpdates(c.projectId, models) + [WorkspaceUpdate(files, c.projectId)]);
    assert [] + batch == batch && EventsOf(batch) == [event];
    assert FindKey<E>([], Digest(c.idempotencyKey)).None?;
    assert AllNew(files, EventUpdates(batch));
  }

  lemma MonthText(month: int)
    requires 1 <= month <= 12
    ensures PadStart(Number(month), 2) == [Digit(month / 10), Digit(month % 10)]
  {
    if month < 10 {
      assert "0" + Decimal(month) == [Digit(0), Digit(month)];
    } else {
      assert Decimal(month / 10) == [Digit(1)];
    }
  }

  lemma MonthsPrintApart(a: int, b: int)
    requires 1 <= a <= 12 && 1 <= b <= 12 && a != b
    ensures PadStart(Number(a), 2) != PadStart(Number(b), 2)
  {
    MonthText(a);
    MonthText(b);
  }

  /** Another command, or another month, is another file. */
  lemma FilesDiffer<E>(a: StoredEvent<E>, b: StoredEvent<E>)
    requires 1 <= a.occurredAt.month <= 12 && 1 <= b.occurredAt.month <= 12
    requires a.eventId != b.eventId || a.occurredAt.month != b.occurredAt.month
    ensures EventPath(a) != EventPath(b)
  {
    if a.eventId == b.eventId {
      MonthsPrintApart(a.occurredAt.month, b.occurredAt.month);
      assert EventPath(a).dirs[6] == PadStart(Number(a.occurredAt.month), 2);
      assert EventPath(b).dirs[6] == PadStart(Number(b.occurredAt.month), 2);
    }
  }

  predicate HoldsNoEvents<E>(files: Files<E>) {
    forall path | path in files :: !LiesAmongEvents(path)
  }

  /** After the first write only its own event lies among the events. */
  lemma OnlyEvent<E, S>(files: Files<E>, c: AppendCommand<E, S>, batch: seq<StoredEvent<E>>, models: seq<(RelativePath, string)>,
                        updates: seq<Update<E>>, path: Path)
    requires HoldsNoEvents(files) && LiesAmongEvents(path) && |batch| == 1 && EventPath(batch[0]) != path && AllSafe(models)
    requires updates == EventUpdates(batch) + (ModelUpdates(c.projectId, models) + [WorkspaceUpdate(files, c.projectId)])
    ensures path !in ApplyUpdates(files, updates)
  {
    ModelsAreElsewhere(c.projectId, models, WorkspaceUpdate(files, c.projectId), path);
    UpdatesElsewhere(files, updates, path);
  }

  lemma NothingDecodes<E(!new)>(files: Files<E>, repository: Repository, projectId: string)
    requires HoldsNoEvents(files)
    ensures Decoding(files, repository, projectId) == Ok([])
  {
    forall path | path in files ensures !IsEventPath(path, projectId) {
    }
    assert Holds(files, repository, projectId, []);
    DecodingMeaning(files, repository, projectId, []);
  }

  /**
   * A command dated outside the years 0 to 9999 passes the input check, is written, and is forgotten at once: under its
   * key a second batch is committed behind it, for the same command in another month or for another command.
   */
  lemma WrittenTwice<E(!new), S(!new)>(s: Setting<E, S>, start: CommitSha<E>, files: Files<E>, c: AppendCommand<E, S>, event: E, state: S,
                                       command: string, later: Time) returns (h: History<E, S>)
    requires HoldsNoEvents(files) && TakesFirst(s.codec, c.projectId, event, state) && c.decide(None) == Ok([event])
    requires SameRepository(c.repository, s.repository) && c.expectedHeadSha == start
    requires 1 <= c.occurredAt.month <= 12 && !FindableYear(c.occurredAt) && 1 <= later.month <= 12
    requires s.codec.safe(c.command) && s.codec.safe(command) && (command != c.command || later.month != c.occurredAt.month)
    ensures ValidateInput(c, s.codec).Ok? && Evaluate([], files, start, c, s.codec).Write?
    ensures IsHistory(s, h) && h.start == start && h.files == files && |h.log| == 2
    ensures h.log[0].command == c
    ensures h.log[1].command == c.(expectedHeadSha := HeadAt(h, 1), command := command, occurredAt := later)
    ensures |h.log[0].batch| == 1 && |h.log[1].batch| == 1
  {
    var h0: History<E, S> := History(start, files, []);
    NothingDecodes(files, s.repository, c.projectId);
    EventAmongEvents(BatchOf(c, start, 0, [event])[0]);
    var batch, models, updates := FirstIsWritten(files, start, c, s.codec, event, state);
    var h1 := h0.(log := [Entry(c, batch, updates, state)]);
    HistoryExtends(s, h0, Entry(c, batch, updates, state));
    assert h0.log + [Entry(c, batch, updates, state)] == h1.log;
    h := WrittenAgain(s, h1, models, event, command, later);
  }

  lemma EventAmongEvents<E>(stored: StoredEvent<E>)
    ensures LiesAmongEvents(EventPath(stored))
  {
  }

  lemma WrittenAgain<E(!new), S(!new)>(s: Setting<E, S>, h1: History<E, S>, models: seq<(RelativePath, string)>, event: E,
                                       command: string, later: Time) returns (h: History<E, S>)
    requires IsHistory(s, h1) && |h1.log| == 1 && HoldsNoEvents(h1.files) && AllSafe(models)
    requires var e := h1.log[0]; var c := e.command;
             && e.batch == BatchOf(c, h1.start, 0, [event]) && !FindableYear(c.occurredAt)
             && e.updates == EventUpdates(e.batch) + (ModelUpdates(c.projectId, models) + [WorkspaceUpdate(h1.files, c.projectId)])
             && TakesFirst(s.codec, c.projectId, event, e.state) && c.decide(None) == Ok([event])
             && s.codec.safe(command) && 1 <= later.month <= 12 && (command != c.command || later.month != c.occurredAt.month)
    ensures IsHistory(s, h) && h.start == h1.start && h.files == h1.files && |h.log| == 2 && h.log[0] == h1.log[0]
    ensures h.log[1].command == h1.log[0].command.(expectedHeadSha := HeadAt(h, 1), command := command, occurredAt := later)
    ensures |h.log[1].batch| == 1
  {
    var e := h1.log[0];
    assert IsDecided(s, h1, 0);
    NothingDecodes(h1.files, s.repository, e.command.projectId);
    var head := HeadAt(h1, 1);
    var c := e.command.(expectedHeadSha := head, command := command, occurredAt := later);
    var stored := BatchOf(c, head, 0, [event])[0];
    FilesDiffer(e.batch[0], stored);
    EventAmongEvents(stored);
    OnlyEvent(h1.files, e.command, e.batch, models, e.updates, EventPath(stored));
    assert FilesAt(h1, 1) == ApplyUpdates(FilesAt(h1, 0), e.updates);
    var batch, again, updates := FirstIsWritten(FilesAt(h1, 1), head, c, s.codec, event, e.state);
    assert Stream(s, h1, 1, c.projectId) == [];
    HistoryExtends(s, h1, Entry(c, batch, updates, e.state));
    LogPrefix(h1, Entry(c, batch, updates, e.state), 1);
    h := h1.(log := h1.log + [Entry(c, batch, updates, e.state)]);
  }

  /** Such a run for the first instant of the year 10000, with a codec that takes everything. */
  lemma YearTenThousand() returns (s: Setting<string, string>, h: History<string, string>)
    ensures IsHistory(s, h) && |h.log| == 2 && h.log[0].command.occurredAt == Time(10000, 1, "01T00:00:00.000Z")
    ensures h.start.Seed? && ValidateInput(h.log[0].command, s.codec).Ok? && ValidateInput(h.log[1].command, s.codec).Ok?
    ensures h.log[0].command.projectId == h.log[1].command.projectId
    ensures h.log[0].command.idempotencyKey == h.log[1].command.idempotencyKey
    ensures h.log[0].command.command == h.log[1].command.command
  {
    var repository := Repository(7, 42, Name("octocat", "octocat"), Name("hello-world", "Hello-World"));
    var codec: Codec<string, string> := Codec(_ => true, (_: string) => true, (_: seq<string>) => Ok("project-1"), (state: string) => state,
                                       (_: string, _: seq<StoredEvent<string>>) => Ok([]));
    s := Setting(repository, codec);
    var start: CommitSha<string> := Seed("5f0c6e0b8d3a4c1e9f7b2a6d4c8e0f1a3b5d7c9e");
    var c := AppendCommand(repository, "project-1", start, start, "key-1", "createProject", Time(10000, 1, "01T00:00:00.000Z"), "user-1",
                           (_: Option<string>) => Ok(["ProjectCreated"]));
    assert TakesFirst(codec, "project-1", "ProjectCreated", "project-1");
    h := WrittenTwice(s, start, map[], c, "ProjectCreated", "project-1", "createProject", Time(10000, 2, "01T00:00:00.000Z"));
  }
}

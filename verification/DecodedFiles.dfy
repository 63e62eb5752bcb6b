/** What the decoder of stored events promises, without its checks: the files of a Project are its events, batch by batch. */
module DecodedFiles {
  import opened Prelude
  import opened StoreTypes
  import opened StoredBatches
  import opened StateStore

  // ------------------------------------------------------------------- the batches

  /** The events one command left: they tell the same command alike, and their ids say their place among them. */
  ghost predicate IsCommandBatch<E>(batch: seq<StoredEvent<E>>, projectId: string) {
    && batch != []
    && forall i | 0 <= i < |batch| ::
         && batch[i].keyHash == batch[0].keyHash && batch[i].commandHash == batch[0].commandHash
         && batch[i].previousStateSha == batch[0].previousStateSha && batch[i].actor == batch[0].actor
         && batch[i].occurredAt == batch[0].occurredAt && batch[i].commandEventCount == |batch|
         && batch[i].eventId == Derived(projectId, batch[0].keyHash, batch[0].commandHash, i)
  }

  function Joined<E>(batches: seq<seq<StoredEvent<E>>>): seq<StoredEvent<E>> {
    if batches == [] then [] else Joined(batches[..|batches| - 1]) + batches[|batches| - 1]
  }

  /** The batches make up the list, and no key belongs to two of them. */
  ghost predicate IsSplit<E>(events: seq<StoredEvent<E>>, batches: seq<seq<StoredEvent<E>>>, projectId: string) {
    && Joined(batches) == events && (forall i | 0 <= i < |batches| :: IsCommandBatch(batches[i], projectId))
    && forall i, j | 0 <= i < j < |batches| :: batches[i][0].keyHash != batches[j][0].keyHash
  }

  lemma {:induction false} InSomeBatch<E>(batches: seq<seq<StoredEvent<E>>>, e: StoredEvent<E>) returns (i: nat)
    requires e in Joined(batches)
    ensures i < |batches| && e in batches[i]
    decreases |batches|
  {
    var n := |batches| - 1;
    if e in batches[n] {
      i := n;
    } else {
      i := InSomeBatch(batches[..n], e);
    }
  }

  lemma {:induction false} SplitIsValid<E>(events: seq<StoredEvent<E>>, batches: seq<seq<StoredEvent<E>>>, projectId: string)
    requires IsSplit(events, batches, projectId)
    ensures BatchesAreValid(events, projectId)
    decreases |batches|
  {
    if batches != [] {
      var n := |batches| - 1;
      var prior, last := Joined(batches[..n]), batches[n];
      SplitIsValid(prior, batches[..n], projectId);
      forall e | e in prior ensures e.keyHash != last[0].keyHash {
        var i := InSomeBatch(batches[..n], e);
      }
      assert IsBatch(last, projectId);
      BatchExtends(prior, last, projectId);
    }
  }

  /** The run an event stands in starts as many places before it as its index says. */
  lemma {:induction false} RunStarts<E>(events: seq<StoredEvent<E>>, i: nat)
    requires i < |events|
    ensures RunIndex(events, i) <= i
    ensures var start := i - RunIndex(events, i);
            && RunIndex(events, start) == 0
            && forall k | start <= k <= i :: events[k].keyHash == events[i].keyHash && RunIndex(events, k) == k - start
  {
    if i > 0 && events[i - 1].keyHash == events[i].keyHash {
      RunStarts(events, i - 1);
    }
  }

  /** The last run of a valid list is a batch of its own. */
  lemma LastRunIsBatch<E>(events: seq<StoredEvent<E>>, projectId: string) returns (start: nat)
    requires BatchesAreValid(events, projectId) && events != []
    ensures start < |events| && IsCommandBatch(events[start..], projectId) && RunIndex(events, start) == 0
    ensures forall j | 0 <= j < start :: events[j].keyHash != events[start].keyHash
  {
    var n := |events|;
    RunStarts(events, n - 1);
    start := n - 1 - RunIndex(events, n - 1);
    var batch := events[start..];
    assert RunIsComplete(events, n - 1);
    forall i | 0 <= i < |batch|
      ensures SameBatch(batch[0], batch[i]) && batch[i].eventId == Derived(projectId, batch[i].keyHash, batch[i].commandHash, i)
      ensures batch[i].keyHash == batch[0].keyHash
    {
      assert StepFits(events, projectId, start + i);
      assert AllStepsFit(events, projectId, start + i + 1);
      SameKeySameRun(events, projectId, start, start + i);
    }
    assert batch[|batch| - 1] == events[n - 1];
    assert StepFits(events, projectId, start);
  }

  /** What stands before it is valid too. */
  lemma BeforeLastRun<E>(events: seq<StoredEvent<E>>, projectId: string, start: nat)
    requires BatchesAreValid(events, projectId) && start < |events| && RunIndex(events, start) == 0
    ensures BatchesAreValid(events[..start], projectId)
  {
    var prior, rest := events[..start], events[start..];
    assert events == prior + rest;
    forall k | 0 <= k < start ensures StepFits(prior, projectId, k) && RunIsComplete(prior, k) {
      RunIndexInPrefix(prior, rest, k);
      assert StepFits(events, projectId, k) && RunIsComplete(events, k);
    }
  }

  lemma {:induction false} ValidHasSplit<E>(events: seq<StoredEvent<E>>, projectId: string) returns (batches: seq<seq<StoredEvent<E>>>)
    requires BatchesAreValid(events, projectId)
    ensures IsSplit(events, batches, projectId)
    decreases |events|
  {
    if events == [] {
      batches := [];
    } else {
      var start := LastRunIsBatch(events, projectId);
      BeforeLastRun(events, projectId, start);
      var prior := ValidHasSplit(events[..start], projectId);
      batches := prior + [events[start..]];
      assert batches[..|batches| - 1] == prior;
      forall i | 0 <= i < |prior| ensures prior[i][0].keyHash != events[start].keyHash {
        FirstIsJoined(prior, projectId, i);
        var j :| 0 <= j < start && events[j] == prior[i][0];
      }
    }
  }

  lemma {:induction false} FirstIsJoined<E>(batches: seq<seq<StoredEvent<E>>>, projectId: string, i: nat)
    requires i < |batches| && IsCommandBatch(batches[i], projectId)
    ensures batches[i][0] in Joined(batches)
    decreases |batches|
  {
    if i < |batches| - 1 {
      FirstIsJoined(batches[..|batches| - 1], projectId, i);
    }
  }

  /** The stored grammar without a scan: some split into batches of one command each, no two of which share a key. */
  lemma BatchesMeaning<E>(events: seq<StoredEvent<E>>, projectId: string)
    ensures BatchesAreValid(events, projectId) <==> exists batches :: IsSplit(events, batches, projectId)
  {
    if BatchesAreValid(events, projectId) {
      var batches := ValidHasSplit(events, projectId);
    }
    if batches :| IsSplit(events, batches, projectId) {
      SplitIsValid(events, batches, projectId);
    }
  }

  // --------------------------------------------------------------------- the files

  /** The number a text of digits stands for. */
  function ValueOf(s: string): nat {
    if s == [] then 0
    else
      var c := s[|s| - 1];
      10 * ValueOf(s[..|s| - 1]) + if '0' <= c <= '9' then c as int - '0' as int else 0
  }

  lemma {:induction false} DecimalReadsBack(n: nat)
    ensures ValueOf(Decimal(n)) == n
  {
    if n >= 10 {
      DecimalReadsBack(n / 10);
      var s := Decimal(n);
      assert s[..|s| - 1] == Decimal(n / 10) && s[|s| - 1] == Digit(n % 10);
    }
  }

  lemma {:induction false} LeadingZero(s: string)
    ensures ValueOf("0" + s) == ValueOf(s)
  {
    if s != [] {
      LeadingZero(s[..|s| - 1]);
      assert ("0" + s)[..|s|] == "0" + s[..|s| - 1];
    }
  }

  lemma {:induction false} PaddedReadsBack(s: string, length: nat)
    ensures ValueOf(PadStart(s, length)) == ValueOf(s)
    decreases length - |s|
  {
    if |s| < length {
      PaddedReadsBack("0" + s, length);
      LeadingZero(s);
    }
  }

  lemma {:induction false} DigitsOfValue(a: string, b: string, length: nat)
    requires AllDigits(a, length) && AllDigits(b, length) && ValueOf(a) == ValueOf(b)
    ensures a == b
  {
    if length > 0 {
      var n := length - 1;
      assert a[n] in a && b[n] in b;
      DigitsOfValue(a[..n], b[..n], n);
      assert a == a[..n] + [a[n]] && b == b[..n] + [b[n]];
    }
  }

  /** A number prints padded as the digits that stand for it. */
  lemma PrintedIsRead(n: nat, length: nat, s: string)
    requires AllDigits(PadStart(Number(n), length), length)
    ensures PadStart(Number(n), length) == s <==> AllDigits(s, length) && ValueOf(s) == n
  {
    DecimalReadsBack(n);
    PaddedReadsBack(Number(n), length);
    if AllDigits(s, length) && ValueOf(s) == n {
      DigitsOfValue(PadStart(Number(n), length), s, length);
    }
  }

  /** `.hunsu/v2/projects/<project>/events/<four digits>/<two digits>/<id>.json` */
  ghost predicate IsEventFile(path: Path, projectId: string) {
    && |path.dirs| == 7 && path.dirs[..5] == [".hunsu", "v2", "projects", projectId, "events"]
    && |path.dirs[5]| == 4 && (forall c | c in path.dirs[5] :: '0' <= c <= '9')
    && |path.dirs[6]| == 2 && (forall c | c in path.dirs[6] :: '0' <= c <= '9')
    && path.file.Json?
  }

  /** The event is of the Project and the repository, and the file lies at its year and month under its id. */
  ghost predicate LiesAt<E>(e: StoredEvent<E>, path: Path, repository: Repository, projectId: string)
    requires IsEventFile(path, projectId)
  {
    && e.projectId == projectId
    && e.repository.installationId == repository.installationId && e.repository.repositoryId == repository.repositoryId
    && e.repository.owner.folded == repository.owner.folded && e.repository.name.folded == repository.name.folded
    && e.occurredAt.year == ValueOf(path.dirs[5]) && e.occurredAt.month == ValueOf(path.dirs[6]) && 1 <= e.occurredAt.month <= 12
    && path.file == Json(e.eventId)
  }

  /** The event files of the Project are these events, numbered from 1, each where it belongs. */
  ghost predicate AreTheEvents<E>(files: Files<E>, repository: Repository, projectId: string, events: seq<StoredEvent<E>>) {
    && (forall i | 0 <= i < |events| :: events[i].sequence == i + 1)
    && (forall path | path in files && IsEventFile(path, projectId) ::
          files[path].EventJson? && files[path].stored in events && LiesAt(files[path].stored, path, repository, projectId))
    && forall e | e in events :: exists path :: path in files && IsEventFile(path, projectId) && files[path] == EventJson(e)
  }

  lemma EventFileMeaning(path: Path, projectId: string)
    ensures IsEventFile(path, projectId) <==> IsEventPath(path, projectId)
  {
    if |path.dirs| == 7 {
      assert path.dirs[..5] == path.dirs[..4] + [path.dirs[4]];
      assert ProjectRoot(projectId) == [".hunsu", "v2", "projects", projectId];
    }
  }

  lemma OwnEventMeaning<E>(stored: StoredEvent<E>, path: Path, repository: Repository, projectId: string)
    requires IsEventFile(path, projectId)
    ensures IsOwnEvent(EventJson(stored), path, repository, projectId)
            <==> LiesAt(stored, path, repository, projectId) && stored.commandEventCount > 0 && stored.sequence > 0
  {
    EventFileMeaning(path, projectId);
    if 1 <= stored.occurredAt.month <= 12 && stored.projectId == projectId {
      EventPathIsFound(stored, projectId);
      EventPathDirs(stored, path);
    }
  }

  lemma EventPathDirs<E>(stored: StoredEvent<E>, path: Path)
    requires IsEventFile(path, stored.projectId) && 1 <= stored.occurredAt.month <= 12
    ensures EventPath(stored) == path
            <==> stored.occurredAt.year == ValueOf(path.dirs[5]) && stored.occurredAt.month == ValueOf(path.dirs[6])
                 && path.file == Json(stored.eventId)
  {
    var own := EventPath(stored);
    EventFileMeaning(path, stored.projectId);
    YearPrintsAsFourDigits(stored.occurredAt.year);
    MonthPrintsAsTwoDigits(stored.occurredAt.month);
    PrintedIsRead(stored.occurredAt.month, 2, path.dirs[6]);
    if stored.occurredAt.year >= 0 {
      if AllDigits(PadStart(Number(stored.occurredAt.year), 4), 4) {
        PrintedIsRead(stored.occurredAt.year, 4, path.dirs[5]);
      } else {
        FourDigitsAreSmall(path.dirs[5]);
      }
    }
    assert own.dirs[5] == PadStart(Number(stored.occurredAt.year), 4) && own.dirs[6] == PadStart(Number(stored.occurredAt.month), 2);
    assert own == path <==> own.dirs[5] == path.dirs[5] && own.dirs[6] == path.dirs[6] && own.file == path.file by {
      assert own.dirs[..5] == path.dirs[..5];
      assert own.dirs == own.dirs[..5] + [own.dirs[5], own.dirs[6]] && path.dirs == path.dirs[..5] + [path.dirs[5], path.dirs[6]];
    }
  }

  lemma FourDigitsAreSmall(s: string)
    requires AllDigits(s, 4)
    ensures ValueOf(s) <= 9999
  {
    assert s[..3][..2] == s[..2] && s[..2][..1] == s[..1] && s[..1][..0] == [];
    assert ValueOf(s[..1]) <= 9 && ValueOf(s[..2]) <= 99 && ValueOf(s[..3]) <= 999;
  }

  lemma HeldAreTheEvents<E(!new)>(files: Files<E>, repository: Repository, projectId: string, events: seq<StoredEvent<E>>)
    requires Decodes(files, repository, projectId, events)
    ensures AreTheEvents(files, repository, projectId, events)
  {
    forall path | path in files && IsEventFile(path, projectId)
      ensures files[path].EventJson? && files[path].stored in events && LiesAt(files[path].stored, path, repository, projectId)
    {
      EventFileMeaning(path, projectId);
      OwnEventMeaning(files[path].stored, path, repository, projectId);
    }
    forall e | e in events ensures exists path :: path in files && IsEventFile(path, projectId) && files[path] == EventJson(e) {
      EventFileMeaning(EventPath(e), projectId);
    }
  }

  lemma TheEventsAreHeld<E(!new)>(files: Files<E>, repository: Repository, projectId: string, events: seq<StoredEvent<E>>)
    requires AreTheEvents(files, repository, projectId, events) && forall e | e in events :: e.commandEventCount > 0
    ensures Holds(files, repository, projectId, events)
  {
    forall path | path in files && IsEventPath(path, projectId)
      ensures IsOwnEvent(files[path], path, repository, projectId) && files[path].stored in events
    {
      EventFileMeaning(path, projectId);
      var stored := files[path].stored;
      var i :| 0 <= i < |events| && events[i] == stored;
      OwnEventMeaning(stored, path, repository, projectId);
    }
    forall e | e in events ensures IsEventPath(EventPath(e), projectId) && EventPath(e) in files && files[EventPath(e)] == EventJson(e) {
      var path :| path in files && IsEventFile(path, projectId) && files[path] == EventJson(e);
      EventFileMeaning(path, projectId);
      assert EventPath(e) == path;
    }
  }

  /**
   * Reading a Project answers a list exactly when its event files are that list, each file at the year and month of its
   * event, and the list splits into the batches of commands with different keys.
   */
  lemma DecodedExactly<E(!new)>(files: Files<E>, repository: Repository, projectId: string, events: seq<StoredEvent<E>>)
    ensures Decoding(files, repository, projectId) == Ok(events) <==>
            AreTheEvents(files, repository, projectId, events) && exists batches :: IsSplit(events, batches, projectId)
  {
    DecodingMeaning(files, repository, projectId, events);
    BatchesMeaning(events, projectId);
    if Decodes(files, repository, projectId, events) {
      HeldAreTheEvents(files, repository, projectId, events);
    }
    if AreTheEvents(files, repository, projectId, events) {
      if batches :| IsSplit(events, batches, projectId) {
        forall e | e in events ensures e.commandEventCount > 0 {
          var i := InSomeBatch(batches, e);
        }
        TheEventsAreHeld(files, repository, projectId, events);
      }
    }
  }
}

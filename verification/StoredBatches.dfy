/** The events of one Project on the state branch: numbered from 1, and grouped into one batch for each command. */
module StoredBatches {
  import opened Prelude
  import opened Protocol
  import opened StoreTypes

  datatype StoreCode = InvalidEvent | IdempotencyConflict | StaleState | UnsafeState | TransportFailure

  type StoreResult<+T> = Result<T, StoreCode>

  /** Everything the events of one batch share. */
  predicate SameBatch<E(==)>(a: StoredEvent<E>, b: StoredEvent<E>) {
    && a.keyHash == b.keyHash && a.commandHash == b.commandHash && a.previousStateSha == b.previousStateSha
    && a.actor == b.actor && a.occurredAt == b.occurredAt && a.commandEventCount == b.commandEventCount
  }

  /** How many events of the same command stand directly before event `i`. */
  function RunIndex<E>(events: seq<StoredEvent<E>>, i: nat): nat
    requires i < |events|
  {
    if i > 0 && events[i - 1].keyHash == events[i].keyHash then RunIndex(events, i - 1) + 1 else 0
  }

  /** Event `i` continues the batch before it or opens one under a key not used before, and is named accordingly. */
  predicate StepFits<E(==)>(events: seq<StoredEvent<E>>, projectId: string, i: nat)
    requires i < |events|
  {
    && events[i].eventId == Derived(projectId, events[i].keyHash, events[i].commandHash, RunIndex(events, i))
    && if i > 0 && events[i - 1].keyHash == events[i].keyHash then SameBatch(events[i - 1], events[i])
       else forall j | 0 <= j < i :: events[j].keyHash != events[i].keyHash
  }

  predicate EndsRun<E>(events: seq<StoredEvent<E>>, i: nat)
    requires i < |events|
  {
    i == |events| - 1 || events[i + 1].keyHash != events[i].keyHash
  }

  /** The batch that event `i` ends has as many events as each of them says. */
  predicate RunIsComplete<E>(events: seq<StoredEvent<E>>, i: nat)
    requires i < |events|
  {
    EndsRun(events, i) ==> RunIndex(events, i) + 1 == events[i].commandEventCount
  }

  predicate BatchesAreValid<E(==)>(events: seq<StoredEvent<E>>, projectId: string) {
    AllStepsFit(events, projectId, |events|) && AllRunsComplete(events)
  }

  predicate AllStepsFit<E(==)>(events: seq<StoredEvent<E>>, projectId: string, n: nat)
    requires n <= |events|
  {
    forall k {:trigger StepFits(events, projectId, k)} | 0 <= k < n :: StepFits(events, projectId, k)
  }

  predicate AllRunsComplete<E>(events: seq<StoredEvent<E>>) {
    forall i {:trigger RunIsComplete(events, i)} | 0 <= i < |events| :: RunIsComplete(events, i)
  }

  predicate IsNumbered<E>(events: seq<StoredEvent<E>>) {
    forall i | 0 <= i < |events| :: events[i].sequence == i + 1
  }

  /** Events of one key stand next to each other. */
  lemma {:induction false} SameKeySameRun<E>(events: seq<StoredEvent<E>>, projectId: string, j: nat, i: nat)
    requires j <= i < |events| && events[j].keyHash == events[i].keyHash
    requires AllStepsFit(events, projectId, i + 1)
    ensures RunIndex(events, i) == RunIndex(events, j) + (i - j) && SameBatch(events[j], events[i])
    ensures forall k | j <= k <= i :: events[k].keyHash == events[i].keyHash
  {
    if j < i {
      assert StepFits(events, projectId, i);
      SameKeySameRun(events, projectId, j, i - 1);
    }
  }

  lemma SameKeySameCommand<E>(events: seq<StoredEvent<E>>, projectId: string, i: nat, j: nat)
    requires BatchesAreValid(events, projectId) && i < |events| && j < |events| && events[i].keyHash == events[j].keyHash
    ensures events[i].commandHash == events[j].commandHash
  {
    if i <= j {
      SameKeySameRun(events, projectId, i, j);
    } else {
      SameKeySameRun(events, projectId, j, i);
    }
  }

  // ------------------------------------------------------------------- validating

  datatype BatchRecord<+E> = BatchRecord(
    commandHash: Digest<string>, previousStateSha: CommitSha<E>, actor: string, occurredAt: Time,
    lastSequence: nat, eventCount: nat, expectedEventCount: nat)

  /** The record describes the last of the first `n` events with its key. */
  ghost predicate RecordFits<E>(events: seq<StoredEvent<E>>, n: nat, key: Digest<string>, r: BatchRecord<E>)
    requires n <= |events|
  {
    && 0 < r.lastSequence <= n
    && var last := events[r.lastSequence - 1];
    && last.keyHash == key && r.commandHash == last.commandHash && r.previousStateSha == last.previousStateSha
    && r.actor == last.actor && r.occurredAt == last.occurredAt && r.expectedEventCount == last.commandEventCount
    && r.eventCount == RunIndex(events, r.lastSequence - 1) + 1
    && forall j | r.lastSequence <= j < n :: events[j].keyHash != key
  }

  ghost predicate RecordsFit<E>(events: seq<StoredEvent<E>>, n: nat, batches: map<Digest<string>, BatchRecord<E>>)
    requires n <= |events|
  {
    && (forall key {:trigger RecordFits(events, n, key, batches[key])} | key in batches :: RecordFits(events, n, key, batches[key]))
    && forall j {:trigger events[j].keyHash in batches} | 0 <= j < n :: events[j].keyHash in batches
  }

  /** What the loop checks of an event whose key has a record. */
  predicate Continues<E(==)>(e: StoredEvent<E>, projectId: string, r: BatchRecord<E>) {
    && e.commandHash == r.commandHash
    && e.eventId == Derived(projectId, e.keyHash, e.commandHash, r.eventCount)
    && e.sequence == r.lastSequence + 1
    && e.previousStateSha == r.previousStateSha && e.actor == r.actor && e.occurredAt == r.occurredAt
    && e.commandEventCount == r.expectedEventCount
  }

  lemma ContinuingStep<E>(events: seq<StoredEvent<E>>, projectId: string, i: nat, batches: map<Digest<string>, BatchRecord<E>>)
    requires i < |events| && events[i].sequence == i + 1 && RecordsFit(events, i, batches)
    requires events[i].keyHash in batches
    ensures StepFits(events, projectId, i) <==> Continues(events[i], projectId, batches[events[i].keyHash])
    ensures StepFits(events, projectId, i) ==>
              RunIndex(events, i) == batches[events[i].keyHash].eventCount && batches[events[i].keyHash].lastSequence == i
  {
    var r := batches[events[i].keyHash];
    assert RecordFits(events, i, events[i].keyHash, r);
    if r.lastSequence == i {
      assert events[i - 1].keyHash == events[i].keyHash;
    } else {
      assert events[i - 1].keyHash != events[i].keyHash;
    }
  }

  lemma OpeningStep<E>(events: seq<StoredEvent<E>>, projectId: string, i: nat, batches: map<Digest<string>, BatchRecord<E>>)
    requires i < |events| && RecordsFit(events, i, batches) && events[i].keyHash !in batches
    ensures StepFits(events, projectId, i) <==>
            events[i].eventId == Derived(projectId, events[i].keyHash, events[i].commandHash, 0)
    ensures RunIndex(events, i) == 0
  {
  }

  function RecordOf<E>(events: seq<StoredEvent<E>>, i: nat): BatchRecord<E>
    requires i < |events|
  {
    BatchRecord(events[i].commandHash, events[i].previousStateSha, events[i].actor, events[i].occurredAt, i + 1,
                RunIndex(events, i) + 1, events[i].commandEventCount)
  }

  lemma OldRecordFits<E>(events: seq<StoredEvent<E>>, i: nat, key: Digest<string>, r: BatchRecord<E>)
    requires i < |events| && RecordFits(events, i, key, r) && events[i].keyHash != key
    ensures RecordFits(events, i + 1, key, r)
  {
  }

  lemma NewRecordFits<E>(events: seq<StoredEvent<E>>, i: nat)
    requires i < |events|
    ensures RecordFits(events, i + 1, events[i].keyHash, RecordOf(events, i))
  {
  }

  lemma RecordsAfterStep<E>(events: seq<StoredEvent<E>>, i: nat, batches: map<Digest<string>, BatchRecord<E>>)
    requires i < |events| && RecordsFit(events, i, batches)
    ensures RecordsFit(events, i + 1, batches[events[i].keyHash := RecordOf(events, i)])
  {
    var after := batches[events[i].keyHash := RecordOf(events, i)];
    NewRecordFits(events, i);
    forall key | key in after ensures RecordFits(events, i + 1, key, after[key]) {
      if key != events[i].keyHash {
        OldRecordFits(events, i, key, batches[key]);
      }
    }
  }

  /** An id seen before means the event cannot fit. */
  lemma RepeatedIdDoesNotFit<E>(events: seq<StoredEvent<E>>, projectId: string, j: nat, i: nat)
    requires j < i < |events| && events[j].eventId == events[i].eventId
    requires AllStepsFit(events, projectId, i)
    ensures !StepFits(events, projectId, i)
  {
    if StepFits(events, projectId, i) {
      assert StepFits(events, projectId, j);
      SameKeySameRun(events, projectId, j, i);
    }
  }

  /** At the end the record of a key describes the event that ends its run. */
  lemma RunEndIsRecorded<E>(events: seq<StoredEvent<E>>, projectId: string, r: BatchRecord<E>, i: nat)
    requires AllStepsFit(events, projectId, |events|)
    requires i < |events| && EndsRun(events, i) && RecordFits(events, |events|, events[i].keyHash, r)
    ensures r.lastSequence == i + 1
  {
    var last := r.lastSequence - 1;
    if i < last {
      SameKeySameRun(events, projectId, i, last);
    }
  }

  lemma RecordEndsRun<E>(events: seq<StoredEvent<E>>, key: Digest<string>, r: BatchRecord<E>)
    requires RecordFits(events, |events|, key, r)
    ensures EndsRun(events, r.lastSequence - 1)
  {
  }

  predicate CountsMatch<E>(batches: map<Digest<string>, BatchRecord<E>>) {
    forall key | key in batches :: batches[key].eventCount == batches[key].expectedEventCount
  }

  lemma CountsGiveComplete<E>(events: seq<StoredEvent<E>>, projectId: string, batches: map<Digest<string>, BatchRecord<E>>)
    requires AllStepsFit(events, projectId, |events|) && RecordsFit(events, |events|, batches) && CountsMatch(batches)
    ensures AllRunsComplete(events)
  {
    forall i | 0 <= i < |events| ensures RunIsComplete(events, i) {
      if EndsRun(events, i) {
        RunEndIsRecorded(events, projectId, batches[events[i].keyHash], i);
      }
    }
  }

  lemma CompleteGivesCounts<E>(events: seq<StoredEvent<E>>, batches: map<Digest<string>, BatchRecord<E>>)
    requires RecordsFit(events, |events|, batches) && AllRunsComplete(events)
    ensures CountsMatch(batches)
  {
    forall key | key in batches ensures batches[key].eventCount == batches[key].expectedEventCount {
      RecordEndsRun(events, key, batches[key]);
      assert RunIsComplete(events, batches[key].lastSequence - 1);
    }
  }

  /** What the loop makes of one event: its record, or a refusal. */
  function NextRecord<E(==)>(e: StoredEvent<E>, projectId: string, batches: map<Digest<string>, BatchRecord<E>>): StoreResult<BatchRecord<E>> {
    if e.keyHash in batches then
      var batch := batches[e.keyHash];
      if batch.commandHash != e.commandHash then Err(IdempotencyConflict)
      else if !Continues(e, projectId, batch) then Err(InvalidEvent)
      else Ok(batch.(lastSequence := e.sequence, eventCount := batch.eventCount + 1))
    else if e.eventId != Derived(projectId, e.keyHash, e.commandHash, 0) then Err(InvalidEvent)
    else Ok(BatchRecord(e.commandHash, e.previousStateSha, e.actor, e.occurredAt, e.sequence, 1, e.commandEventCount))
  }

  lemma NextRecordFits<E>(events: seq<StoredEvent<E>>, projectId: string, i: nat, batches: map<Digest<string>, BatchRecord<E>>)
    requires i < |events| && events[i].sequence == i + 1 && RecordsFit(events, i, batches)
    ensures NextRecord(events[i], projectId, batches).Ok? <==> StepFits(events, projectId, i)
    ensures StepFits(events, projectId, i) ==> NextRecord(events[i], projectId, batches) == Ok(RecordOf(events, i))
  {
    if events[i].keyHash in batches {
      ContinuingStep(events, projectId, i, batches);
    } else {
      OpeningStep(events, projectId, i, batches);
    }
  }

  /** The loop has accepted the first `i` events. */
  ghost predicate Scanned<E>(events: seq<StoredEvent<E>>, projectId: string, i: nat, batches: map<Digest<string>, BatchRecord<E>>,
                             eventIds: set<StoredId>)
    requires i <= |events|
  {
    && RecordsFit(events, i, batches)
    && AllStepsFit(events, projectId, i)
    && (forall k | 0 <= k < i :: events[k].eventId in eventIds)
    && forall id | id in eventIds :: exists j :: 0 <= j < i && events[j].eventId == id
  }

  lemma IdsAfterStep<E>(events: seq<StoredEvent<E>>, i: nat, eventIds: set<StoredId>)
    requires i < |events| && forall id | id in eventIds :: exists j :: 0 <= j < i && events[j].eventId == id
    ensures forall id | id in eventIds + {events[i].eventId} :: exists j :: 0 <= j < i + 1 && events[j].eventId == id
  {
    forall id | id in eventIds + {events[i].eventId} ensures exists j :: 0 <= j < i + 1 && events[j].eventId == id {
      if id in eventIds {
        var j :| 0 <= j < i && events[j].eventId == id;
      }
    }
  }

  lemma ScanStep<E>(events: seq<StoredEvent<E>>, projectId: string, i: nat, batches: map<Digest<string>, BatchRecord<E>>,
                    eventIds: set<StoredId>)
    requires i < |events| && events[i].sequence == i + 1 && Scanned(events, projectId, i, batches, eventIds)
    ensures var record := NextRecord(events[i], projectId, batches);
            record.Ok? ==> Scanned(events, projectId, i + 1, batches[events[i].keyHash := record.value], eventIds + {events[i].eventId})
    ensures events[i].eventId in eventIds || NextRecord(events[i], projectId, batches).Err? ==> !StepFits(events, projectId, i)
  {
    NextRecordFits(events, projectId, i, batches);
    RecordsAfterStep(events, i, batches);
    IdsAfterStep(events, i, eventIds);
    if events[i].eventId in eventIds {
      var j :| 0 <= j < i && events[j].eventId == events[i].eventId;
      RepeatedIdDoesNotFit(events, projectId, j, i);
    }
  }

  lemma ScanEnds<E>(events: seq<StoredEvent<E>>, projectId: string, batches: map<Digest<string>, BatchRecord<E>>, eventIds: set<StoredId>)
    requires Scanned(events, projectId, |events|, batches, eventIds)
    ensures CountsMatch(batches) <==> BatchesAreValid(events, projectId)
  {
    if CountsMatch(batches) {
      CountsGiveComplete(events, projectId, batches);
    }
    if AllRunsComplete(events) {
      CompleteGivesCounts(events, batches);
    }
  }

  /** The verdict of the loop from event `i` on. */
  function ScanFrom<E(==)>(events: seq<StoredEvent<E>>, projectId: string, i: nat, batches: map<Digest<string>, BatchRecord<E>>,
                           eventIds: set<StoredId>): StoreResult<()>
    requires i <= |events|
    decreases |events| - i
  {
    if i == |events| then (if CountsMatch(batches) then Ok(()) else Err(InvalidEvent))
    else if events[i].eventId in eventIds then Err(InvalidEvent)
    else
      var record :- NextRecord(events[i], projectId, batches);
      ScanFrom(events, projectId, i + 1, batches[events[i].keyHash := record], eventIds + {events[i].eventId})
  }

  lemma {:induction false} ScanFromMeaning<E>(events: seq<StoredEvent<E>>, projectId: string, i: nat,
                                              batches: map<Digest<string>, BatchRecord<E>>, eventIds: set<StoredId>)
    requires IsNumbered(events) && i <= |events| && Scanned(events, projectId, i, batches, eventIds)
    ensures ScanFrom(events, projectId, i, batches, eventIds).Ok? <==> BatchesAreValid(events, projectId)
    decreases |events| - i
  {
    if i == |events| {
      ScanEnds(events, projectId, batches, eventIds);
    } else {
      ScanStep(events, projectId, i, batches, eventIds);
      var record := NextRecord(events[i], projectId, batches);
      if events[i].eventId !in eventIds && record.Ok? {
        ScanFromMeaning(events, projectId, i + 1, batches[events[i].keyHash := record.value], eventIds + {events[i].eventId});
      }
    }
  }

  lemma {:induction false} ScanCodes<E>(events: seq<StoredEvent<E>>, projectId: string, i: nat,
                                        batches: map<Digest<string>, BatchRecord<E>>, eventIds: set<StoredId>)
    requires i <= |events|
    ensures var r := ScanFrom(events, projectId, i, batches, eventIds); r.Err? ==> r.error.InvalidEvent? || r.error.IdempotencyConflict?
    decreases |events| - i
  {
    if i < |events| && events[i].eventId !in eventIds && NextRecord(events[i], projectId, batches).Ok? {
      ScanCodes(events, projectId, i + 1, batches[events[i].keyHash := NextRecord(events[i], projectId, batches).value],
                eventIds + {events[i].eventId});
    }
  }

  /** The event carries another command than an earlier event of its key, under an id of its own. */
  predicate Conflicts<E>(events: seq<StoredEvent<E>>, i: nat)
    requires i < |events|
  {
    && (exists j :: 0 <= j < i && events[j].keyHash == events[i].keyHash && events[j].commandHash != events[i].commandHash)
    && forall j | 0 <= j < i :: events[j].eventId != events[i].eventId
  }

  lemma ConflictStep<E>(events: seq<StoredEvent<E>>, projectId: string, i: nat, batches: map<Digest<string>, BatchRecord<E>>,
                        eventIds: set<StoredId>)
    requires i < |events| && Scanned(events, projectId, i, batches, eventIds)
    ensures events[i].eventId !in eventIds && NextRecord(events[i], projectId, batches) == Err(IdempotencyConflict) <==> Conflicts(events, i)
  {
    var key := events[i].keyHash;
    if key in batches {
      assert RecordFits(events, i, key, batches[key]);
      var last := batches[key].lastSequence - 1;
      forall j | 0 <= j < i && events[j].keyHash == key ensures events[j].commandHash == events[last].commandHash {
        SameKeySameRun(events, projectId, j, last);
      }
    }
  }

  /** The scan ends with a conflict exactly where, behind events that fit, one carries another command under a used key. */
  lemma {:induction false} ConflictMeaning<E>(events: seq<StoredEvent<E>>, projectId: string, i: nat,
                                              batches: map<Digest<string>, BatchRecord<E>>, eventIds: set<StoredId>)
    requires IsNumbered(events) && i <= |events| && Scanned(events, projectId, i, batches, eventIds)
    ensures ScanFrom(events, projectId, i, batches, eventIds) == Err(IdempotencyConflict) <==>
            exists k :: i <= k < |events| && AllStepsFit(events, projectId, k) && Conflicts(events, k)
    decreases |events| - i
  {
    if i < |events| {
      ConflictStep(events, projectId, i, batches, eventIds);
      ScanStep(events, projectId, i, batches, eventIds);
      var record := NextRecord(events[i], projectId, batches);
      if events[i].eventId !in eventIds && record.Ok? {
        ConflictMeaning(events, projectId, i + 1, batches[events[i].keyHash := record.value], eventIds + {events[i].eventId});
      } else {
        forall k | i < k < |events| ensures !AllStepsFit(events, projectId, k) {
          assert !StepFits(events, projectId, i);
        }
      }
    }
  }

  /** `validateCommandBatches`, for events already numbered. */
  method ValidateCommandBatches<E(==)>(events: seq<StoredEvent<E>>, projectId: string) returns (r: StoreResult<()>)
    requires IsNumbered(events)
    ensures r.Ok? <==> BatchesAreValid(events, projectId)
    ensures r.Err? ==> r.error.InvalidEvent? || r.error.IdempotencyConflict?
    ensures r == ScanFrom(events, projectId, 0, map[], {})
  {
    ScanFromMeaning(events, projectId, 0, map[], {});
    ScanCodes(events, projectId, 0, map[], {});
    r := RunScan(events, projectId);
  }

  method RunScan<E(==)>(events: seq<StoredEvent<E>>, projectId: string) returns (r: StoreResult<()>)
    ensures r == ScanFrom(events, projectId, 0, map[], {})
  {
    var batches: map<Digest<string>, BatchRecord<E>> := map[];
    var eventIds: set<StoredId> := {};
    for i := 0 to |events|
      invariant ScanFrom(events, projectId, 0, map[], {}) == ScanFrom(events, projectId, i, batches, eventIds)
    {
      var event := events[i];
      if event.eventId in eventIds {
        return Err(InvalidEvent);
      }
      var record := NextRecord(event, projectId, batches);
      if record.Err? {
        return Err(record.error);
      }
      eventIds := eventIds + {event.eventId};
      batches := batches[event.keyHash := record.value];
    }
    return if CountsMatch(batches) then Ok(()) else Err(InvalidEvent);
  }

  // -------------------------------------------------------------------- appending

  /** One complete batch: what a single append stores. */
  predicate IsBatch<E(==)>(batch: seq<StoredEvent<E>>, projectId: string) {
    && batch != []
    && forall i | 0 <= i < |batch| ::
         && SameBatch(batch[0], batch[i]) && batch[i].commandEventCount == |batch|
         && batch[i].eventId == Derived(projectId, batch[i].keyHash, batch[i].commandHash, i)
  }

  lemma {:induction false} RunIndexInPrefix<E>(prior: seq<StoredEvent<E>>, batch: seq<StoredEvent<E>>, i: nat)
    requires i < |prior|
    ensures RunIndex(prior + batch, i) == RunIndex(prior, i)
  {
    if i > 0 {
      RunIndexInPrefix(prior, batch, i - 1);
    }
  }

  lemma {:induction false} RunIndexInBatch<E>(prior: seq<StoredEvent<E>>, batch: seq<StoredEvent<E>>, projectId: string, i: nat)
    requires IsBatch(batch, projectId) && i < |batch| && forall e | e in prior :: e.keyHash != batch[0].keyHash
    ensures RunIndex(prior + batch, |prior| + i) == i
  {
    var all := prior + batch;
    if i > 0 {
      RunIndexInBatch(prior, batch, projectId, i - 1);
      assert all[|prior| + i - 1] == batch[i - 1] && all[|prior| + i] == batch[i];
    } else if |prior| > 0 {
      assert all[|prior| - 1] in prior;
    }
  }

  lemma PriorStepsFit<E>(prior: seq<StoredEvent<E>>, batch: seq<StoredEvent<E>>, projectId: string, i: nat)
    requires BatchesAreValid(prior, projectId) && IsBatch(batch, projectId) && i < |prior|
    requires forall e | e in prior :: e.keyHash != batch[0].keyHash
    ensures StepFits(prior + batch, projectId, i) && RunIsComplete(prior + batch, i)
  {
    RunIndexInPrefix(prior, batch, i);
    assert StepFits(prior, projectId, i) && RunIsComplete(prior, i);
    assert prior[i] in prior;
  }

  lemma BatchStepsFit<E>(prior: seq<StoredEvent<E>>, batch: seq<StoredEvent<E>>, projectId: string, i: nat)
    requires IsBatch(batch, projectId) && i < |batch| && forall e | e in prior :: e.keyHash != batch[0].keyHash
    ensures StepFits(prior + batch, projectId, |prior| + i) && RunIsComplete(prior + batch, |prior| + i)
  {
    var all := prior + batch;
    RunIndexInBatch(prior, batch, projectId, i);
    assert all[|prior| + i] == batch[i];
    if i > 0 {
      assert all[|prior| + i - 1] == batch[i - 1];
    } else {
      forall j | 0 <= j < |prior| ensures all[j].keyHash != batch[0].keyHash {
        assert all[j] in prior;
      }
    }
    if i + 1 < |batch| {
      assert all[|prior| + i + 1] == batch[i + 1];
    }
  }

  /** A complete batch under a new key may follow any valid events. */
  lemma BatchExtends<E>(prior: seq<StoredEvent<E>>, batch: seq<StoredEvent<E>>, projectId: string)
    requires BatchesAreValid(prior, projectId) && IsBatch(batch, projectId)
    requires forall e | e in prior :: e.keyHash != batch[0].keyHash
    ensures BatchesAreValid(prior + batch, projectId)
  {
    forall i | 0 <= i < |prior + batch| ensures StepFits(prior + batch, projectId, i) && RunIsComplete(prior + batch, i) {
      if i < |prior| {
        PriorStepsFit(prior, batch, projectId, i);
      } else {
        BatchStepsFit(prior, batch, projectId, i - |prior|);
      }
    }
  }
}

/**
 * Commands run one after another, as a mutation folds them, against the replay of what they emitted;
 * and commands repeated.
 */
module CommandRuns {
  import opened Prelude
  import opened Protocol
  import opened Engine
  import opened Batches
  import opened EngineAgreement
  import opened Lists

  // ------------------------------------------------- the record against the stream

  /** The ids of the events a command emitted into the stream. */
  function IdsUnder(events: seq<DomainEvent>, key: string): seq<EventId> {
    EventIds(Filter(events, (e: DomainEvent) => e.meta.idempotencyKey == key))
  }

  lemma NextIdUnder(events: seq<DomainEvent>, e: DomainEvent, key: string)
    ensures IdsUnder(events + [e], key) == IdsUnder(events, key) + (if e.meta.idempotencyKey == key then [e.meta.eventId] else [])
  {
    var p := (e: DomainEvent) => e.meta.idempotencyKey == key;
    FilterAppend(events, [e], p);
    assert Filter([e], p) == if p(e) then [e] else [];
  }

  predicate RecordMatches(events: seq<DomainEvent>, p: ProcessedCommand) {
    && p.eventIds == IdsUnder(events, p.idempotencyKey) && p.eventIds != []
    && forall e | e in events && e.meta.idempotencyKey == p.idempotencyKey :: e.meta.fingerprint == p.fingerprint
  }

  /** The record of processed commands says exactly what the stream says. */
  ghost predicate Ledger(events: seq<DomainEvent>, processed: seq<ProcessedCommand>) {
    && (forall p | p in processed :: RecordMatches(events, p))
    && (forall i, j | 0 <= i < j < |processed| :: processed[i].idempotencyKey != processed[j].idempotencyKey)
    && (forall e | e in events :: FindProcessed(processed, e.meta.idempotencyKey).Some?)
  }

  lemma {:induction false} NothingUnder(events: seq<DomainEvent>, key: string)
    requires forall e | e in events :: e.meta.idempotencyKey != key
    ensures IdsUnder(events, key) == []
  {
    if events != [] {
      NothingUnder(events[1..], key);
    }
  }

  lemma OpenedRecord(events: seq<DomainEvent>, processed: seq<ProcessedCommand>, e: DomainEvent)
    requires Ledger(events, processed) && FindProcessed(processed, e.meta.idempotencyKey).None?
    ensures Ledger(events + [e], RecordEvent(processed, e.meta))
  {
    var after := RecordEvent(processed, e.meta);
    var key := e.meta.idempotencyKey;
    forall x | x in events ensures x.meta.idempotencyKey != key {
      assert FindProcessed(processed, x.meta.idempotencyKey).Some?;
    }
    NothingUnder(events, key);
    forall p | p in after ensures RecordMatches(events + [e], p) {
      NextIdUnder(events, e, p.idempotencyKey);
    }
    forall x | x in events + [e] ensures FindProcessed(after, x.meta.idempotencyKey).Some? {
      if x in events {
        var p := FindProcessed(processed, x.meta.idempotencyKey).value;
        assert p in after;
      } else {
        assert after[|processed|] in after;
      }
    }
  }

  lemma ExtendedEntryMatches(events: seq<DomainEvent>, p: ProcessedCommand, e: DomainEvent)
    requires RecordMatches(events, p)
    requires p.idempotencyKey == e.meta.idempotencyKey ==> p.fingerprint == e.meta.fingerprint
    ensures RecordMatches(events + [e], if p.idempotencyKey == e.meta.idempotencyKey
                                        then p.(eventIds := p.eventIds + [e.meta.eventId]) else p)
  {
    NextIdUnder(events, e, p.idempotencyKey);
  }

  lemma ExtendedEntries(events: seq<DomainEvent>, processed: seq<ProcessedCommand>, e: DomainEvent)
    requires Ledger(events, processed) && FindProcessed(processed, e.meta.idempotencyKey).Some?
    requires FindProcessed(processed, e.meta.idempotencyKey).value.fingerprint == e.meta.fingerprint
    ensures forall i | 0 <= i < |processed| :: RecordMatches(events + [e], RecordEvent(processed, e.meta)[i])
  {
    var found := FindProcessed(processed, e.meta.idempotencyKey).value;
    forall i | 0 <= i < |processed| ensures RecordMatches(events + [e], RecordEvent(processed, e.meta)[i]) {
      assert processed[i] in processed && (processed[i].idempotencyKey == e.meta.idempotencyKey ==> processed[i] == found);
      ExtendedEntryMatches(events, processed[i], e);
    }
  }

  lemma ExtendedKeys(events: seq<DomainEvent>, processed: seq<ProcessedCommand>, e: DomainEvent)
    requires FindProcessed(processed, e.meta.idempotencyKey).Some?
    requires forall x | x in events :: FindProcessed(processed, x.meta.idempotencyKey).Some?
    ensures forall x | x in events + [e] :: FindProcessed(RecordEvent(processed, e.meta), x.meta.idempotencyKey).Some?
  {
    var after := RecordEvent(processed, e.meta);
    forall x | x in events + [e] ensures FindProcessed(after, x.meta.idempotencyKey).Some? {
      var p := FindProcessed(processed, x.meta.idempotencyKey).value;
      var i :| 0 <= i < |processed| && processed[i] == p;
      assert after[i] in after;
    }
  }

  lemma ExtendedRecord(events: seq<DomainEvent>, processed: seq<ProcessedCommand>, e: DomainEvent)
    requires Ledger(events, processed) && FindProcessed(processed, e.meta.idempotencyKey).Some?
    requires FindProcessed(processed, e.meta.idempotencyKey).value.fingerprint == e.meta.fingerprint
    ensures Ledger(events + [e], RecordEvent(processed, e.meta))
  {
    ExtendedEntries(events, processed, e);
    ExtendedKeys(events, processed, e);
    var after := RecordEvent(processed, e.meta);
    assert forall i, j | 0 <= i < j < |after| :: processed[i].idempotencyKey != processed[j].idempotencyKey;
  }

  predicate Recordable(processed: seq<ProcessedCommand>, e: DomainEvent) {
    && !EventIdUsed(processed, e.meta.eventId)
    && var found := FindProcessed(processed, e.meta.idempotencyKey);
       found.Some? ==> found.value.fingerprint == e.meta.fingerprint
  }

  function Recorded(processed: seq<ProcessedCommand>, e: DomainEvent): seq<ProcessedCommand> {
    RecordEvent(processed, e.meta)
  }

  function RecordAll(processed: seq<ProcessedCommand>, events: seq<DomainEvent>): seq<ProcessedCommand> {
    Fold(Recorded, processed, events)
  }

  predicate AllRecordable(processed: seq<ProcessedCommand>, events: seq<DomainEvent>) {
    Feasible(Recordable, Recorded, processed, events)
  }

  lemma AppliedEventIsRecorded(s: ProjectState, e: DomainEvent, integrity: IntegrityBoundary, t: ProjectState)
    requires ApplyDomainEvent(s, e, integrity) == Ok(t)
    ensures t.processedCommands == RecordEvent(s.processedCommands, e.meta) && Recordable(s.processedCommands, e)
  {
    EffectsKeepRecords(s, e, integrity);
  }

  lemma {:induction false} AppliedEventsAreRecorded(s: ProjectState, events: seq<DomainEvent>, integrity: IntegrityBoundary, t: ProjectState)
    requires ApplyEvents(s, events, integrity) == Ok(t)
    ensures AllRecordable(s.processedCommands, events) && t.processedCommands == RecordAll(s.processedCommands, events)
    decreases |events|
  {
    if events != [] {
      var mid := ApplyDomainEvent(s, events[0], integrity).value;
      AppliedEventIsRecorded(s, events[0], integrity, mid);
      AppliedEventsAreRecorded(mid, events[1..], integrity, t);
    }
  }

  lemma LedgerAfterEvent(prior: seq<DomainEvent>, processed: seq<ProcessedCommand>, e: DomainEvent)
    requires Ledger(prior, processed) && Recordable(processed, e)
    ensures Ledger(prior + [e], RecordEvent(processed, e.meta))
  {
    if FindProcessed(processed, e.meta.idempotencyKey).None? {
      OpenedRecord(prior, processed, e);
    } else {
      ExtendedRecord(prior, processed, e);
    }
  }

  lemma LedgerAfterEvents(prior: seq<DomainEvent>, processed: seq<ProcessedCommand>, events: seq<DomainEvent>)
    requires Ledger(prior, processed) && AllRecordable(processed, events)
    ensures Ledger(prior + events, RecordAll(processed, events))
  {
    var property := (es, r) => Ledger(es, r);
    forall es, r, e: DomainEvent | property(es, r) && Recordable(r, e) ensures property(es + [e], Recorded(r, e)) {
      LedgerAfterEvent(es, r, e);
    }
    FoldInduction(property, Recordable, Recorded, prior, processed, events);
  }

  /** After a replay, the record holds one entry for each command: its fingerprint and the ids of its events, in order. */
  lemma ReplayedLedger(events: seq<DomainEvent>, integrity: IntegrityBoundary, t: ProjectState)
    requires Replayed(events, integrity) == Ok(t)
    ensures Ledger(events, t.processedCommands)
  {
    AppliedEventsAreRecorded(EMPTY_STATE, events, integrity, t);
    LedgerAfterEvents([], [], events);
    assert [] + events == events;
  }

  lemma UsedIds(events: seq<DomainEvent>, processed: seq<ProcessedCommand>, id: EventId)
    requires Ledger(events, processed)
    ensures EventIdUsed(processed, id) <==> exists e :: e in events && e.meta.eventId == id
  {
    if p :| p in processed && id in p.eventIds {
      assert RecordMatches(events, p);
    }
    if e :| e in events && e.meta.eventId == id {
      var p := FindProcessed(processed, e.meta.idempotencyKey).value;
      assert RecordMatches(events, p);
      var under := Filter(events, (x: DomainEvent) => x.meta.idempotencyKey == p.idempotencyKey);
      assert e in under;
      var i :| 0 <= i < |under| && under[i] == e;
      assert EventIds(under)[i] == id;
    }
  }

  // ----------------------------------------------------- extending a stream

  function Keys(events: seq<DomainEvent>): set<string> {
    set e | e in events :: e.meta.idempotencyKey
  }

  lemma HeadBatchOfAppend(a: seq<DomainEvent>, b: seq<DomainEvent>)
    requires a != [] && HeadBatch(a) > 0
    ensures HeadBatch(a + b) == HeadBatch(a)
    ensures (a + b)[HeadBatch(a)..] == a[HeadBatch(a)..] + b
    ensures Keys(a) == {a[0].meta.idempotencyKey} + Keys(a[HeadBatch(a)..])
  {
    var n := HeadBatch(a);
    assert a == a[..n] + a[n..];
    assert forall e | e in a[..n] :: e.meta.idempotencyKey == a[0].meta.idempotencyKey;
    assert a[0] in a;
    assert n == 2 ==> (a + b)[..2] == a[..2];
  }

  lemma {:induction false} ParsesAppend(a: seq<DomainEvent>, b: seq<DomainEvent>, closed: set<string>)
    requires Parses(a, closed) && Parses(b, closed + Keys(a))
    ensures Parses(a + b, closed)
    decreases |a|
  {
    if a == [] {
      assert a + b == b && closed + Keys(a) == closed;
    } else {
      var n, key := HeadBatch(a), a[0].meta.idempotencyKey;
      HeadBatchOfAppend(a, b);
      assert closed + Keys(a) == closed + {key} + Keys(a[n..]);
      ParsesAppend(a[n..], b, closed + {key});
    }
  }

  lemma BatchParses(batch: seq<DomainEvent>, closed: set<string>)
    requires CompleteBatch(batch) && batch[0].meta.idempotencyKey !in closed
    ensures Parses(batch, closed)
  {
    var n := |batch|;
    assert n == 2 ==> batch[..2] == batch;
    assert HeadBatch(batch) == n && batch[n..] == [];
  }

  lemma WellBatchedAppend(prior: seq<DomainEvent>, batch: seq<DomainEvent>)
    requires WellBatched(prior) && CompleteBatch(batch)
    requires forall e | e in prior :: e.meta.idempotencyKey != batch[0].meta.idempotencyKey
    requires Distinct(EventIds(batch)) && forall e, b | e in prior && b in batch :: e.meta.eventId != b.meta.eventId
    ensures WellBatched(prior + batch)
  {
    FreshIdsMeaning(prior, {});
    FreshIdsMeaning(prior + batch, {});
    var ids := EventIds(prior + batch);
    forall i, j | 0 <= i < j < |ids| ensures ids[i] != ids[j] {
      if i < |prior| && j >= |prior| {
        assert prior[i] in prior && batch[j - |prior|] in batch;
      } else if j < |prior| {
        assert ids[i] == EventIds(prior)[i] && ids[j] == EventIds(prior)[j];
      } else {
        assert ids[i] == EventIds(batch)[i - |prior|] && ids[j] == EventIds(batch)[j - |prior|];
      }
    }
    BatchParses(batch, Keys(prior));
    assert {} + Keys(prior) == Keys(prior);
    ParsesAppend(prior, batch, {});
  }

  lemma BatchIdsAreUnused(processed: seq<ProcessedCommand>, events: seq<DomainEvent>)
    requires AllRecordable(processed, events) && 1 <= |events| <= 2
    requires |events| == 2 ==> events[0].meta.eventId != events[1].meta.eventId && !EventIdUsed(processed, events[1].meta.eventId)
    ensures Distinct(EventIds(events)) && forall b | b in events :: !EventIdUsed(processed, b.meta.eventId)
  {
  }

  lemma UnusedIdsAreNew(prior: seq<DomainEvent>, processed: seq<ProcessedCommand>, events: seq<DomainEvent>)
    requires Ledger(prior, processed) && forall b | b in events :: !EventIdUsed(processed, b.meta.eventId)
    ensures forall e, b | e in prior && b in events :: e.meta.eventId != b.meta.eventId
  {
    forall e, b | e in prior && b in events ensures e.meta.eventId != b.meta.eventId {
      UsedIds(prior, processed, b.meta.eventId);
    }
  }

  lemma UnusedKeyIsNew(prior: seq<DomainEvent>, processed: seq<ProcessedCommand>, key: string)
    requires Ledger(prior, processed) && FindProcessed(processed, key).None?
    ensures forall e | e in prior :: e.meta.idempotencyKey != key
  {
    forall e | e in prior ensures e.meta.idempotencyKey != key {
      assert FindProcessed(processed, e.meta.idempotencyKey).Some?;
    }
  }

  lemma AcceptedBatchIsNew(prior: seq<DomainEvent>, s: ProjectState, command: ProjectCommand, integrity: IntegrityBoundary,
                           events: seq<DomainEvent>)
    requires Ledger(prior, s.processedCommands)
    requires DecideProjectCommand(s, command, integrity) == Ok(Accepted(events))
    requires AllRecordable(s.processedCommands, events)
    ensures CompleteBatch(events) && Distinct(EventIds(events))
    ensures forall e | e in prior :: e.meta.idempotencyKey != events[0].meta.idempotencyKey
    ensures forall e, b | e in prior && b in events :: e.meta.eventId != b.meta.eventId
  {
    DecisionShape(s, command, integrity, events);
    BatchIdsAreUnused(s.processedCommands, events);
    UnusedIdsAreNew(prior, s.processedCommands, events);
    UnusedKeyIsNew(prior, s.processedCommands, command.meta.idempotencyKey);
  }

  /** What one command emits extends the stream it was run on, and replaying the longer stream gives the command's state. */
  lemma CommandExtendsStream(prior: seq<DomainEvent>, s: ProjectState, command: ProjectCommand, integrity: IntegrityBoundary,
                             app: CommandApplication)
    requires Replayed(prior, integrity) == Ok(s) && ApplyProjectCommand(s, command, integrity) == Ok(app)
    ensures Replayed(prior + app.emittedEvents, integrity) == Ok(app.state)
  {
    var decision := DecideProjectCommand(s, command, integrity).value;
    if decision.Reused? {
      assert prior + [] == prior;
    } else {
      var events := decision.events;
      ReplayedLedger(prior, integrity, s);
      AppliedEventsAreRecorded(s, events, integrity, app.state);
      AcceptedBatchIsNew(prior, s, command, integrity, events);
      WellBatchedAppend(prior, events);
      ApplyEventsAppend(EMPTY_STATE, prior, events, integrity);
    }
  }

  // ------------------------------------------------------- commands in a row

  datatype CommandRun = CommandRun(state: ProjectState, events: seq<DomainEvent>)

  /** Runs each command on the state the one before left, collecting what they emit. */
  function RunCommands(s: ProjectState, factories: seq<ProjectState -> ProjectCommand>, integrity: IntegrityBoundary): Outcome<CommandRun>
    decreases |factories|
  {
    if factories == [] then Ok(CommandRun(s, []))
    else
      var applied :- ApplyProjectCommand(s, factories[0](s), integrity);
      var rest :- RunCommands(applied.state, factories[1..], integrity);
      Ok(CommandRun(rest.state, applied.emittedEvents + rest.events))
  }

  function Prepend(events: seq<DomainEvent>, r: Outcome<CommandRun>): Outcome<CommandRun> {
    if r.Err? then r else Ok(CommandRun(r.value.state, events + r.value.events))
  }

  lemma PrependStep(events: seq<DomainEvent>, s: ProjectState, factories: seq<ProjectState -> ProjectCommand>, integrity: IntegrityBoundary)
    requires factories != []
    ensures var applied := ApplyProjectCommand(s, factories[0](s), integrity);
            Prepend(events, RunCommands(s, factories, integrity)) ==
            if applied.Err? then Err(applied.error)
            else Prepend(events + applied.value.emittedEvents, RunCommands(applied.value.state, factories[1..], integrity))
  {
    var applied := ApplyProjectCommand(s, factories[0](s), integrity);
    if applied.Ok? {
      var rest := RunCommands(applied.value.state, factories[1..], integrity);
      if rest.Ok? {
        assert events + (applied.value.emittedEvents + rest.value.events) == events + applied.value.emittedEvents + rest.value.events;
      }
    }
  }

  lemma PrependNothing(r: Outcome<CommandRun>)
    ensures Prepend([], r) == r
  {
    if r.Ok? {
      assert [] + r.value.events == r.value.events;
    }
  }

  /** The fold inside `#mutate`: commands built from the current state, events pushed in order, first failure returned. */
  method DecideMutation(current: Option<ProjectState>, factories: seq<ProjectState -> ProjectCommand>, integrity: IntegrityBoundary)
    returns (r: Outcome<CommandRun>)
    ensures r == RunCommands(if current.Some? then current.value else EMPTY_STATE, factories, integrity)
  {
    ghost var whole := RunCommands(if current.Some? then current.value else EMPTY_STATE, factories, integrity);
    var state := if current.Some? then current.value else EMPTY_STATE;
    var events: seq<DomainEvent> := [];
    assert factories[0..] == factories;
    PrependNothing(whole);
    for i := 0 to |factories|
      invariant whole == Prepend(events, RunCommands(state, factories[i..], integrity))
    {
      assert factories[i..][1..] == factories[i + 1..];
      PrependStep(events, state, factories[i..], integrity);
      var applied := ApplyProjectCommand(state, factories[i](state), integrity);
      if applied.Err? {
        return Err(applied.error);
      }
      state := applied.value.state;
      events := events + applied.value.emittedEvents;
    }
    assert events + [] == events;
    return Ok(CommandRun(state, events));
  }

  /** What one command keeps of a stream and its state, any number of commands keep. */
  lemma {:induction false} RunInduction(property: (seq<DomainEvent>, ProjectState) -> bool, prior: seq<DomainEvent>, s: ProjectState,
                                        factories: seq<ProjectState -> ProjectCommand>, integrity: IntegrityBoundary, run: CommandRun)
    requires forall es, u, c, app | property(es, u) && ApplyProjectCommand(u, c, integrity) == Ok(app) ::
               property(es + app.emittedEvents, app.state)
    requires property(prior, s) && RunCommands(s, factories, integrity) == Ok(run)
    ensures property(prior + run.events, run.state)
    decreases |factories|
  {
    if factories == [] {
      assert prior + [] == prior;
    } else {
      var applied := ApplyProjectCommand(s, factories[0](s), integrity).value;
      var rest := RunCommands(applied.state, factories[1..], integrity).value;
      RunInduction(property, prior + applied.emittedEvents, applied.state, factories[1..], integrity, rest);
      assert prior + applied.emittedEvents + rest.events == prior + run.events;
    }
  }

  /**
   * The state a mutation folds command by command is the state the store recomputes by replaying
   * the old stream with the new events appended.
   */
  lemma FoldEqualsReplay(prior: seq<DomainEvent>, s: ProjectState, factories: seq<ProjectState -> ProjectCommand>,
                         integrity: IntegrityBoundary, run: CommandRun)
    requires Replayed(prior, integrity) == Ok(s) && RunCommands(s, factories, integrity) == Ok(run)
    ensures Replayed(prior + run.events, integrity) == Ok(run.state)
  {
    forall es, u, c, app | Replayed(es, integrity) == Ok(u) && ApplyProjectCommand(u, c, integrity) == Ok(app)
      ensures Replayed(es + app.emittedEvents, integrity) == Ok(app.state)
    {
      CommandExtendsStream(es, u, c, integrity, app);
    }
    RunInduction((es, u) => Replayed(es, integrity) == Ok(u), prior, s, factories, integrity, run);
  }

  /** Any sequence of commands from nothing emits a well-batched stream that replays to the state they left. */
  lemma CommandsReplay(factories: seq<ProjectState -> ProjectCommand>, integrity: IntegrityBoundary, run: CommandRun)
    requires RunCommands(EMPTY_STATE, factories, integrity) == Ok(run)
    ensures WellBatched(run.events) && Replayed(run.events, integrity) == Ok(run.state)
  {
    assert Replayed([], integrity) == Ok(EMPTY_STATE);
    FoldEqualsReplay([], EMPTY_STATE, factories, integrity, run);
    assert [] + run.events == run.events;
  }

  // ------------------------------------------------------- repeated commands

  lemma {:induction false} OthersKeepTheirRecord(processed: seq<ProcessedCommand>, events: seq<DomainEvent>, p: ProcessedCommand)
    requires p in processed && forall e | e in events :: e.meta.idempotencyKey != p.idempotencyKey
    ensures p in RecordAll(processed, events)
    decreases |events|
  {
    if events != [] {
      var after := RecordEvent(processed, events[0].meta);
      var i :| 0 <= i < |processed| && processed[i] == p;
      assert after[i] == p;
      OthersKeepTheirRecord(after, events[1..], p);
    }
  }

  /** A command that is carried out leaves every earlier command's record as it was. */
  lemma RecordsAreFinal(s: ProjectState, command: ProjectCommand, integrity: IntegrityBoundary, app: CommandApplication, p: ProcessedCommand)
    requires ApplyProjectCommand(s, command, integrity) == Ok(app) && p in s.processedCommands
    ensures p in app.state.processedCommands
  {
    var decision := DecideProjectCommand(s, command, integrity).value;
    if decision.Accepted? {
      DecisionShape(s, command, integrity, decision.events);
      AppliedEventsAreRecorded(s, decision.events, integrity, app.state);
      OthersKeepTheirRecord(s.processedCommands, decision.events, p);
    }
  }

  lemma RecordOfBatch(processed: seq<ProcessedCommand>, batch: seq<DomainEvent>)
    requires CompleteBatch(batch) && FindProcessed(processed, batch[0].meta.idempotencyKey).None?
    ensures ProcessedCommand(batch[0].meta.idempotencyKey, batch[0].meta.fingerprint, EventIds(batch)) in RecordAll(processed, batch)
  {
    var one := Recorded(processed, batch[0]);
    var i := |processed|;
    assert one[i] in one;
    if |batch| == 1 {
      assert batch == [batch[0]] && EventIds(batch) == [batch[0].meta.eventId];
      FoldTwo(Recorded, processed, batch[0], batch[0]);
    } else {
      assert batch == [batch[0], batch[1]] && EventIds(batch) == [batch[0].meta.eventId] + [batch[1].meta.eventId];
      FoldTwo(Recorded, processed, batch[0], batch[1]);
      SecondIsRecorded(processed, batch[0], batch[1]);
    }
  }

  lemma SecondIsRecorded(processed: seq<ProcessedCommand>, first: DomainEvent, second: DomainEvent)
    requires FindProcessed(processed, first.meta.idempotencyKey).None? && second.meta.idempotencyKey == first.meta.idempotencyKey
    ensures ProcessedCommand(first.meta.idempotencyKey, first.meta.fingerprint, [first.meta.eventId] + [second.meta.eventId])
            in Recorded(Recorded(processed, first), second)
  {
    var one := Recorded(processed, first);
    var i := |processed|;
    assert one[i] in one && FindProcessed(one, second.meta.idempotencyKey).Some?;
    var two := Recorded(one, second);
    assert two[i] in two;
  }

  /** A reachable record never holds two entries for one key, so the entry present is the one found. */
  lemma FoundRecord(events: seq<DomainEvent>, processed: seq<ProcessedCommand>, p: ProcessedCommand)
    requires Ledger(events, processed) && p in processed
    ensures FindProcessed(processed, p.idempotencyKey) == Some(p)
  {
  }

  lemma AcceptedCommandIsRecorded(s: ProjectState, command: ProjectCommand, integrity: IntegrityBoundary, app: CommandApplication)
    requires ApplyProjectCommand(s, command, integrity) == Ok(app) && app.emittedEvents != []
    ensures ProcessedCommand(command.meta.idempotencyKey, command.meta.fingerprint, EventIds(app.emittedEvents)) in app.state.processedCommands
  {
    var events := app.emittedEvents;
    DecisionShape(s, command, integrity, events);
    AppliedEventsAreRecorded(s, events, integrity, app.state);
    RecordOfBatch(s.processedCommands, events);
  }

  /**
   * A command carried out once, then any other commands, then a command with the same key again: the same
   * fingerprint changes nothing and returns the ids emitted the first time; another fingerprint is refused.
   */
  lemma RepeatedCommand(prior: seq<DomainEvent>, s: ProjectState, command: ProjectCommand, first: CommandApplication,
                        factories: seq<ProjectState -> ProjectCommand>, run: CommandRun, again: ProjectCommand,
                        integrity: IntegrityBoundary)
    requires Replayed(prior, integrity) == Ok(s)
    requires ApplyProjectCommand(s, command, integrity) == Ok(first) && first.emittedEvents != []
    requires RunCommands(first.state, factories, integrity) == Ok(run)
    requires again.meta.idempotencyKey == command.meta.idempotencyKey
    ensures ApplyProjectCommand(run.state, again, integrity) ==
            if again.meta.fingerprint == command.meta.fingerprint
            then Ok(CommandApplication(run.state, [], EventIds(first.emittedEvents)))
            else Err(IdempotencyConflict)
  {
    var p := ProcessedCommand(command.meta.idempotencyKey, command.meta.fingerprint, EventIds(first.emittedEvents));
    AcceptedCommandIsRecorded(s, command, integrity, first);
    RecordSurvivesRun(first.state, factories, integrity, run, p);
    CommandExtendsStream(prior, s, command, integrity, first);
    FoldEqualsReplay(prior + first.emittedEvents, first.state, factories, integrity, run);
    ReplayedLedger(prior + first.emittedEvents + run.events, integrity, run.state);
    FoundRecord(prior + first.emittedEvents + run.events, run.state.processedCommands, p);
  }

  lemma RecordSurvivesRun(s: ProjectState, factories: seq<ProjectState -> ProjectCommand>, integrity: IntegrityBoundary, run: CommandRun,
                          p: ProcessedCommand)
    requires p in s.processedCommands && RunCommands(s, factories, integrity) == Ok(run)
    ensures p in run.state.processedCommands
  {
    forall u: ProjectState, c, app | p in u.processedCommands && ApplyProjectCommand(u, c, integrity) == Ok(app)
      ensures p in app.state.processedCommands
    {
      RecordsAreFinal(u, c, integrity, app, p);
    }
    RunInduction((_, u: ProjectState) => p in u.processedCommands, [], s, factories, integrity, run);
  }
}

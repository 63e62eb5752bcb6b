/** The grammar of an event stream: one complete batch per command, paired events together. */
module Batches {
  import opened Prelude
  import opened Protocol
  import opened Engine

  predicate OpensPair(e: DomainEvent) {
    e.body.ProjectCreated? || e.body.RunCompleted? || e.body.CoachingProposalConfirmed?
  }

  predicate ClosesPair(e: DomainEvent) {
    e.body.RootNodeRegistered? || e.body.RunChildNodeRegistered? || e.body.CoachingChildNodeRegistered?
  }

  predicate MatchingTypes(first: DomainEvent, second: DomainEvent) {
    || (first.body.ProjectCreated? && second.body.RootNodeRegistered?)
    || (first.body.RunCompleted? && second.body.RunChildNodeRegistered?)
    || (first.body.CoachingProposalConfirmed? && second.body.CoachingChildNodeRegistered?)
  }

  /** Fingerprint, timestamp and actor agree. */
  predicate SameProvenance(a: DomainEvent, b: DomainEvent) {
    && a.meta.fingerprint == b.meta.fingerprint
    && a.meta.recordedAt == b.meta.recordedAt
    && a.meta.actor == b.meta.actor
  }

  /** What one command may emit. */
  predicate CompleteBatch(batch: seq<DomainEvent>) {
    || (|batch| == 1 && !OpensPair(batch[0]) && !ClosesPair(batch[0]))
    || (|batch| == 2 && MatchingTypes(batch[0], batch[1])
        && batch[0].meta.idempotencyKey == batch[1].meta.idempotencyKey && SameProvenance(batch[0], batch[1]))
  }

  function Flatten(batches: seq<seq<DomainEvent>>): seq<DomainEvent> {
    if batches == [] then [] else batches[0] + Flatten(batches[1..])
  }

  ghost predicate IsBatching(events: seq<DomainEvent>, batches: seq<seq<DomainEvent>>, closed: set<string>) {
    && Flatten(batches) == events
    && (forall b: seq<DomainEvent> | b in batches :: CompleteBatch(b) && b[0].meta.idempotencyKey !in closed)
    && forall i, j | 0 <= i < j < |batches| && batches[i] != [] && batches[j] != [] :: batches[i][0].meta.idempotencyKey != batches[j][0].meta.idempotencyKey
  }

  function EventIds(events: seq<DomainEvent>): (r: seq<EventId>)
    ensures |r| == |events| && forall i | 0 <= i < |r| :: r[i] == events[i].meta.eventId
  {
    seq(|events|, i requires 0 <= i < |events| => events[i].meta.eventId)
  }

  /** The length of the batch at the head of the stream, or 0 when there is none. */
  function HeadBatch(events: seq<DomainEvent>): (n: nat)
    ensures n <= |events|
    ensures n > 0 ==> CompleteBatch(events[..n])
  {
    if events == [] then 0
    else if !OpensPair(events[0]) && !ClosesPair(events[0]) then 1
    else if |events| >= 2 && CompleteBatch(events[..2]) then 2
    else 0
  }

  /** The grammar as a left-to-right parse. */
  predicate Parses(events: seq<DomainEvent>, closed: set<string>)
    decreases |events|
  {
    || events == []
    || var n := HeadBatch(events);
       && n > 0
       && events[0].meta.idempotencyKey !in closed
       && Parses(events[n..], closed + {events[0].meta.idempotencyKey})
  }

  /** The grammar: the stream parses into batches, and no event id repeats. */
  predicate WellBatched(events: seq<DomainEvent>) {
    FreshIds(events, {}) && Parses(events, {})
  }

  /** No event id is in `seen` or occurs twice. */
  predicate FreshIds(events: seq<DomainEvent>, seen: set<EventId>)
    decreases |events|
  {
    events == [] || (events[0].meta.eventId !in seen && FreshIds(events[1..], seen + {events[0].meta.eventId}))
  }

  lemma {:induction false} FreshIdsMeaning(events: seq<DomainEvent>, seen: set<EventId>)
    ensures FreshIds(events, seen) <==>
            Distinct(EventIds(events)) && forall e | e in events :: e.meta.eventId !in seen
    decreases |events|
  {
    if events != [] {
      var id := events[0].meta.eventId;
      var rest := events[1..];
      FreshIdsMeaning(rest, seen + {id});
      DistinctByHead(events);
      assert forall e :: e in events <==> e == events[0] || e in rest;
    }
  }

  lemma DistinctByHead(events: seq<DomainEvent>)
    requires events != []
    ensures Distinct(EventIds(events)) <==>
            Distinct(EventIds(events[1..])) && forall e | e in events[1..] :: e.meta.eventId != events[0].meta.eventId
  {
    var ids, rest := EventIds(events), events[1..];
    assert EventIds(rest) == ids[1..];
    forall e | e in rest ensures e.meta.eventId in ids[1..] {
      var k :| 0 <= k < |rest| && rest[k] == e;
      assert ids[1..][k] == e.meta.eventId;
    }
    forall k | 1 <= k < |ids| ensures exists e :: e in rest && e.meta.eventId == ids[k] {
      assert rest[k - 1] in rest;
    }
  }

  lemma {:induction false} ParsesHasBatching(events: seq<DomainEvent>, closed: set<string>) returns (batches: seq<seq<DomainEvent>>)
    requires Parses(events, closed)
    ensures IsBatching(events, batches, closed)
    decreases |events|
  {
    if events == [] {
      batches := [];
    } else {
      var n := HeadBatch(events);
      var rest := ParsesHasBatching(events[n..], closed + {events[0].meta.idempotencyKey});
      batches := [events[..n]] + rest;
      assert events == events[..n] + events[n..];
      assert batches[1..] == rest;
      forall b: seq<DomainEvent> | b in batches ensures CompleteBatch(b) && b[0].meta.idempotencyKey !in closed {
        assert b == events[..n] || b in rest;
      }
      forall i, j | 0 <= i < j < |batches|
        ensures batches[i] != [] && batches[j] != [] ==> batches[i][0].meta.idempotencyKey != batches[j][0].meta.idempotencyKey
      {
        assert batches[j] == rest[j - 1] && rest[j - 1] in rest && CompleteBatch(rest[j - 1]);
        if i > 0 {
          assert batches[i] == rest[i - 1];
        }
      }
    }
  }

  lemma {:induction false} BatchingParses(events: seq<DomainEvent>, batches: seq<seq<DomainEvent>>, closed: set<string>)
    requires IsBatching(events, batches, closed)
    ensures Parses(events, closed)
    decreases |batches|
  {
    if batches != [] {
      var head, rest := batches[0], batches[1..];
      assert head in batches && CompleteBatch(head);
      assert events == head + Flatten(rest);
      var n := |head|;
      assert events[..n] == head && events[n..] == Flatten(rest);
      assert HeadBatch(events) == n;
      forall b: seq<DomainEvent> | b in rest
        ensures CompleteBatch(b) && b[0].meta.idempotencyKey !in closed + {events[0].meta.idempotencyKey}
      {
        var j :| 0 <= j < |rest| && rest[j] == b;
        assert batches[j + 1] == b && b in batches;
      }
      BatchingParses(events[n..], rest, closed + {events[0].meta.idempotencyKey});
    }
  }

  /** The events of one command: one that stands alone, or one of the three pairs under one key and with one provenance. */
  ghost predicate IsCommandBatch(batch: seq<DomainEvent>) {
    || (|batch| == 1 && !batch[0].body.ProjectCreated? && !batch[0].body.RootNodeRegistered? && !batch[0].body.RunCompleted?
        && !batch[0].body.RunChildNodeRegistered? && !batch[0].body.CoachingProposalConfirmed?
        && !batch[0].body.CoachingChildNodeRegistered?)
    || (|batch| == 2
        && (batch[0].body.ProjectCreated? ==> batch[1].body.RootNodeRegistered?)
        && (batch[0].body.RunCompleted? ==> batch[1].body.RunChildNodeRegistered?)
        && (batch[0].body.CoachingProposalConfirmed? ==> batch[1].body.CoachingChildNodeRegistered?)
        && (batch[0].body.ProjectCreated? || batch[0].body.RunCompleted? || batch[0].body.CoachingProposalConfirmed?)
        && var first, second := batch[0].meta, batch[1].meta;
           first.idempotencyKey == second.idempotencyKey && first.fingerprint == second.fingerprint
           && first.recordedAt == second.recordedAt && first.actor == second.actor)
  }

  /** The batches make up the stream, and no key belongs to two of them. */
  ghost predicate IsSplit(events: seq<DomainEvent>, batches: seq<seq<DomainEvent>>) {
    && Flatten(batches) == events && (forall b: seq<DomainEvent> | b in batches :: IsCommandBatch(b))
    && forall i, j | 0 <= i < j < |batches| && batches[i] != [] && batches[j] != [] ::
         batches[i][0].meta.idempotencyKey != batches[j][0].meta.idempotencyKey
  }

  lemma SplitIsBatching(events: seq<DomainEvent>, batches: seq<seq<DomainEvent>>)
    ensures IsSplit(events, batches) <==> IsBatching(events, batches, {})
  {
    assert forall b: seq<DomainEvent> {:trigger CompleteBatch(b)} :: CompleteBatch(b) <==> IsCommandBatch(b);
  }

  /** The grammar without a parse order: ids all different, and some split into complete batches, no two of which share a key. */
  lemma WellBatchedMeaning(events: seq<DomainEvent>)
    ensures WellBatched(events) <==>
            && (forall i, j | 0 <= i < j < |events| :: events[i].meta.eventId != events[j].meta.eventId)
            && exists batches :: IsSplit(events, batches)
  {
    FreshIdsMeaning(events, {});
    if WellBatched(events) {
      var batches := ParsesHasBatching(events, {});
      SplitIsBatching(events, batches);
    }
    if batches :| IsSplit(events, batches) {
      SplitIsBatching(events, batches);
      BatchingParses(events, batches, {});
    }
    DistinctIds(events);
  }

  lemma DistinctIds(events: seq<DomainEvent>)
    ensures Distinct(EventIds(events)) <==> forall i, j | 0 <= i < j < |events| :: events[i].meta.eventId != events[j].meta.eventId
  {
    var ids := EventIds(events);
    assert |ids| == |events|;
    if Distinct(ids) {
      forall i, j | 0 <= i < j < |events| ensures events[i].meta.eventId != events[j].meta.eventId {
        assert ids[i] != ids[j];
      }
    }
  }

  /** The open batch of the validation loop: one key, one provenance. */
  ghost predicate OpenBatch(current: seq<DomainEvent>, closed: set<string>) {
    && (current != [] ==> current[0].meta.idempotencyKey !in closed)
    && forall e | e in current ::
      && e.meta.idempotencyKey == current[0].meta.idempotencyKey
      && SameProvenance(current[0], e)
  }

  /** Closing the open batch: what `closeCurrent` accepts is what the parse can take off the front. */
  lemma CloseCurrent(current: seq<DomainEvent>, rest: seq<DomainEvent>, closed: set<string>)
    requires current != [] && OpenBatch(current, closed)
    requires rest != [] ==> rest[0].meta.idempotencyKey != current[0].meta.idempotencyKey
    ensures CompleteBatch(current) ==>
              (Parses(current + rest, closed) <==> Parses(rest, closed + {current[0].meta.idempotencyKey}))
    ensures !CompleteBatch(current) ==> !Parses(current + rest, closed)
  {
    var all := current + rest;
    assert all[..|current|] == current;
    var n := HeadBatch(all);
    var key := current[0].meta.idempotencyKey;
    if CompleteBatch(current) {
      assert all[..|current|] == current && all[|current|..] == rest;
      assert n == |current|;
    } else if n > 0 {
      if n < |current| {
        assert all[n..][0] == current[n];
        assert !Parses(all[n..], closed + {key});
      }
    }
  }

  /** An event with the open batch's key but another provenance cannot be parsed. */
  lemma MixedProvenance(current: seq<DomainEvent>, rest: seq<DomainEvent>, closed: set<string>)
    requires current != [] && rest != [] && OpenBatch(current, closed)
    requires rest[0].meta.idempotencyKey == current[0].meta.idempotencyKey && !SameProvenance(current[0], rest[0])
    ensures !Parses(current + rest, closed)
  {
    var all := current + rest;
    assert all[..|current|] == current;
    var n := HeadBatch(all);
    var key := current[0].meta.idempotencyKey;
    if n > 0 {
      if n <= |current| {
        assert all[n..][0].meta.idempotencyKey == key;
        assert !Parses(all[n..], closed + {key});
      }
    }
  }

  /** The state of the validation loop: the keys of closed batches and the batch still open. */
  datatype Scan = Scan(closed: set<string>, current: seq<DomainEvent>)

  /** Moves on to an event with another key by closing the open batch, if it may be closed. */
  function CloseFor(s: Scan, key: string): Option<Scan> {
    if s.current != [] && key != s.current[0].meta.idempotencyKey then
      if CompleteBatch(s.current) then Some(Scan(s.closed + {s.current[0].meta.idempotencyKey}, [])) else None
    else Some(s)
  }

  function Advance(s: Scan, event: DomainEvent): Option<Scan> {
    var after := CloseFor(s, event.meta.idempotencyKey);
    if after.None? || event.meta.idempotencyKey in after.value.closed then None
    else if after.value.current != [] && !SameProvenance(after.value.current[0], event) then None
    else Some(Scan(after.value.closed, after.value.current + [event]))
  }

  predicate Accepts(s: Scan, events: seq<DomainEvent>)
    decreases |events|
  {
    if events == [] then s.current == [] || CompleteBatch(s.current)
    else
      var next := Advance(s, events[0]);
      next.Some? && Accepts(next.value, events[1..])
  }

  lemma ClosingKeepsParse(s: Scan, events: seq<DomainEvent>)
    requires OpenBatch(s.current, s.closed) && events != []
    ensures var after := CloseFor(s, events[0].meta.idempotencyKey);
            if after.None? then !Parses(s.current + events, s.closed)
            else OpenBatch(after.value.current, after.value.closed)
                 && (Parses(s.current + events, s.closed) <==> Parses(after.value.current + events, after.value.closed))
  {
    if s.current != [] && events[0].meta.idempotencyKey != s.current[0].meta.idempotencyKey {
      CloseCurrent(s.current, events, s.closed);
      assert [] + events == events;
    }
  }

  lemma RefusedEventDoesNotParse(s: Scan, events: seq<DomainEvent>)
    requires OpenBatch(s.current, s.closed) && events != []
    requires s.current != [] ==> events[0].meta.idempotencyKey == s.current[0].meta.idempotencyKey
    requires events[0].meta.idempotencyKey in s.closed || (s.current != [] && !SameProvenance(s.current[0], events[0]))
    ensures !Parses(s.current + events, s.closed)
  {
    if events[0].meta.idempotencyKey in s.closed {
      assert (s.current + events)[0].meta.idempotencyKey in s.closed;
    } else {
      MixedProvenance(s.current, events, s.closed);
    }
  }

  /** The left-to-right scan accepts what the grammar parses. */
  lemma {:induction false} ScanAcceptsGrammar(s: Scan, events: seq<DomainEvent>)
    requires OpenBatch(s.current, s.closed)
    ensures Accepts(s, events) <==> Parses(s.current + events, s.closed)
    decreases |events|
  {
    if events == [] {
      assert s.current + events == s.current;
      if s.current != [] {
        CloseCurrent(s.current, [], s.closed);
        assert s.current + [] == s.current;
      }
    } else {
      ClosingKeepsParse(s, events);
      var after := CloseFor(s, events[0].meta.idempotencyKey);
      if after.Some? {
        var next := Advance(s, events[0]);
        if next.None? {
          RefusedEventDoesNotParse(after.value, events);
        } else {
          assert after.value.current + events == next.value.current + events[1..];
          ScanAcceptsGrammar(next.value, events[1..]);
        }
      }
    }
  }

  /** `validateDomainEventBatches`: accepts exactly the well-batched streams. */
  method ValidateDomainEventBatches(events: seq<DomainEvent>) returns (r: Outcome<()>)
    ensures r == if WellBatched(events) then Ok(()) else Err(InvalidEvent)
  {
    ScanAcceptsGrammar(Scan({}, []), events);
    assert [] + events == events;
    var closed: set<string> := {};
    var eventIds: set<EventId> := {};
    var current: seq<DomainEvent> := [];
    assert events[0..] == events;
    for i := 0 to |events|
      invariant FreshIds(events, {}) <==> FreshIds(events[i..], eventIds)
      invariant Accepts(Scan({}, []), events) <==> Accepts(Scan(closed, current), events[i..])
    {
      var event := events[i];
      assert events[i..][1..] == events[i + 1..];
      if event.meta.eventId in eventIds {
        return Err(InvalidEvent);
      }
      eventIds := eventIds + {event.meta.eventId};
      if current != [] && event.meta.idempotencyKey != current[0].meta.idempotencyKey {
        if !CompleteBatch(current) {
          return Err(InvalidEvent);
        }
        closed := closed + {current[0].meta.idempotencyKey};
        current := [];
      }
      if event.meta.idempotencyKey in closed {
        return Err(InvalidEvent);
      }
      if current != [] && !SameProvenance(current[0], event) {
        return Err(InvalidEvent);
      }
      current := current + [event];
    }
    if current != [] && !CompleteBatch(current) {
      return Err(InvalidEvent);
    }
    return Ok(());
  }

  // ------------------------------------------------------------------- replay

  function Replayed(events: seq<DomainEvent>, integrity: IntegrityBoundary): Outcome<ProjectState> {
    if WellBatched(events) then ApplyEvents(EMPTY_STATE, events, integrity) else Err(InvalidEvent)
  }

  method ReplayDomainEvents(events: seq<DomainEvent>, integrity: IntegrityBoundary) returns (r: Outcome<ProjectState>)
    ensures r == Replayed(events, integrity)
  {
    var batches := ValidateDomainEventBatches(events);
    if batches.Err? {
      return Err(batches.error);
    }
    var state := EMPTY_STATE;
    assert events[0..] == events;
    for i := 0 to |events|
      invariant ApplyEvents(EMPTY_STATE, events, integrity) == ApplyEvents(state, events[i..], integrity)
    {
      var applied := ApplyDomainEvent(state, events[i], integrity);
      assert events[i..][1..] == events[i + 1..];
      if applied.Err? {
        return Err(applied.error);
      }
      state := applied.value;
    }
    return Ok(state);
  }

  lemma {:induction false} ApplyEventsAppend(state: ProjectState, a: seq<DomainEvent>, b: seq<DomainEvent>, integrity: IntegrityBoundary)
    ensures ApplyEvents(state, a + b, integrity) ==
            var mid := ApplyEvents(state, a, integrity);
            if mid.Ok? then ApplyEvents(mid.value, b, integrity) else mid
    decreases |a|
  {
    if a == [] {
      assert a + b == b;
    } else {
      assert (a + b)[1..] == a[1..] + b;
      var next := ApplyDomainEvent(state, a[0], integrity);
      if next.Ok? {
        ApplyEventsAppend(next.value, a[1..], b, integrity);
      }
    }
  }
}

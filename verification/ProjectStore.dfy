/** The store with the engine in it: mutations are folds of engine commands, and states are replays of engine events. */
module ProjectStore {
  import opened Prelude
  import opened Protocol
  import opened Engine
  import opened Batches
  import opened CommandRuns
  import opened NodeGraph
  import opened ProjectTree
  import Replay
  import opened StoreTypes
  import opened StoredBatches
  import opened StateStore
  import opened StoreAppend
  import opened AppendDecode
  import opened StoreHistory
  import StoreProtocol

  function ReplayEvents(events: seq<DomainEvent>, integrity: IntegrityBoundary): StoreResult<ProjectState> {
    match Replayed(events, integrity)
    case Ok(state) => Ok(state)
    case Err(_) => Err(StoreCode.InvalidEvent)
  }

  /** The codec of the store replays as the engine does. */
  predicate ReplaysWith(codec: Codec<DomainEvent, ProjectState>, events: seq<DomainEvent>, integrity: IntegrityBoundary) {
    codec.replay(events) == ReplayEvents(events, integrity)
  }

  /** What `#mutate` passes to the store: the commands folded over the state it is given. */
  function DecideBy(factories: seq<ProjectState -> ProjectCommand>, integrity: IntegrityBoundary, current: Option<ProjectState>)
    : StoreResult<seq<DomainEvent>>
  {
    match RunCommands(if current.Some? then current.value else EMPTY_STATE, factories, integrity)
    case Ok(run) => Ok(run.events)
    case Err(_) => Err(StoreCode.InvalidEvent)
  }

  lemma EmptyReplays(integrity: IntegrityBoundary)
    ensures Replayed([], integrity) == Ok(EMPTY_STATE)
  {
  }

  predicate FoldsWith(c: AppendCommand<DomainEvent, ProjectState>, factories: seq<ProjectState -> ProjectCommand>, integrity: IntegrityBoundary,
                      current: Option<ProjectState>)
  {
    c.decide(current) == DecideBy(factories, integrity, current)
  }

  /** What a write says of the events it stores and the stream before them. */
  lemma WrittenEvents(decoded: seq<StoredEvent<DomainEvent>>, files: Files<DomainEvent>, headSha: CommitSha<DomainEvent>,
                      c: AppendCommand<DomainEvent, ProjectState>, codec: Codec<DomainEvent, ProjectState>,
                      batch: seq<StoredEvent<DomainEvent>>, updates: seq<Update<DomainEvent>>, state: ProjectState)
    requires Evaluate(decoded, files, headSha, c, codec) == Write(batch, updates, state)
    ensures var prior, events := EventsOf(decoded), EventsOf(batch);
            && codec.replay(prior + events) == Ok(state) && (decoded != [] ==> codec.replay(prior).Ok?)
            && c.decide(if decoded == [] then None else Some(codec.replay(prior).value)) == Ok(events)
  {
    var events, models := WriteIsPlanned(decoded, files, headSha, c, codec, batch, updates, state);
    assert EventsOf(batch) == events;
    assert EventsOf(decoded + batch) == EventsOf(decoded) + events;
  }

  /** The state an append answers is the one the mutation folded, command by command. */
  lemma AppendAnswersFoldedState(decoded: seq<StoredEvent<DomainEvent>>, files: Files<DomainEvent>, headSha: CommitSha<DomainEvent>,
                                 c: AppendCommand<DomainEvent, ProjectState>, codec: Codec<DomainEvent, ProjectState>,
                                 batch: seq<StoredEvent<DomainEvent>>, updates: seq<Update<DomainEvent>>, state: ProjectState,
                                 factories: seq<ProjectState -> ProjectCommand>, integrity: IntegrityBoundary) returns (run: CommandRun)
    requires forall current {:trigger FoldsWith(c, factories, integrity, current)} :: FoldsWith(c, factories, integrity, current)
    requires forall events {:trigger ReplaysWith(codec, events, integrity)} :: ReplaysWith(codec, events, integrity)
    requires Evaluate(decoded, files, headSha, c, codec) == Write(batch, updates, state)
    ensures RunCommands(if decoded == [] then EMPTY_STATE else codec.replay(EventsOf(decoded)).value, factories, integrity) == Ok(run)
    ensures run.state == state && run.events == EventsOf(batch)
  {
    WrittenEvents(decoded, files, headSha, c, codec, batch, updates, state);
    var prior, events := EventsOf(decoded), EventsOf(batch);
    var current := if decoded == [] then None else Some(codec.replay(prior).value);
    assert ReplaysWith(codec, prior, integrity) && ReplaysWith(codec, prior + events, integrity);
    assert FoldsWith(c, factories, integrity, current);
    run := FoldedRun(prior, factories, integrity, current, events);
  }

  lemma FoldedRun(prior: seq<DomainEvent>, factories: seq<ProjectState -> ProjectCommand>, integrity: IntegrityBoundary,
                  current: Option<ProjectState>, events: seq<DomainEvent>) returns (run: CommandRun)
    requires if prior == [] then current.None? else current.Some? && ReplayEvents(prior, integrity) == Ok(current.value)
    requires DecideBy(factories, integrity, current) == Ok(events)
    ensures RunCommands(if current.Some? then current.value else EMPTY_STATE, factories, integrity) == Ok(run)
    ensures run.events == events && ReplayEvents(prior + events, integrity) == Ok(run.state)
  {
    var s := if current.Some? then current.value else EMPTY_STATE;
    EmptyReplays(integrity);
    run := RunCommands(s, factories, integrity).value;
    FoldEqualsReplay(prior, s, factories, integrity, run);
  }

  /**
   * End to end: whatever was on the branch and whatever any number of clients do, every Project to which a command of
   * the years 0 to 9999 was committed reads back as a stream that replays to a state in which the Nodes of each Project
   * form a tree under its root, one Node for each completed Run and confirmed proposal.
   */
  lemma StoredProjectsAreTrees(s: Setting<DomainEvent, ProjectState>, w: StoreProtocol.World<DomainEvent, ProjectState>,
                               steps: seq<StoreProtocol.Step<DomainEvent, ProjectState>>, i: nat, integrity: IntegrityBoundary)
    returns (state: ProjectState)
    requires StoreProtocol.IsInitial(w) && forall events {:trigger ReplaysWith(s.codec, events, integrity)} :: ReplaysWith(s.codec, events, integrity)
    requires var log := StoreProtocol.Run(s, w, steps).log; i < |log| && FindableYear(log[i].command.occurredAt)
    ensures var end := StoreProtocol.Run(s, w, steps); var projectId := end.log[i].command.projectId;
            && StoreProtocol.STATE_BRANCH in end.repo.branches && end.repo.branches[StoreProtocol.STATE_BRANCH] in end.repo.commits
            && var decoding := Decoding(end.repo.commits[end.repo.branches[StoreProtocol.STATE_BRANCH]], s.repository, projectId);
            decoding.Ok? && Replayed(EventsOf(decoding.value), integrity) == Ok(state)
    ensures forall p | p in state.projects ::
              && StructurallyValid(NodesOf(state.nodes, p.id), p.rootNodeSha)
              && |NodesOf(state.nodes, p.id)| == 1 + |CompletedRuns(state.runs, p.id)| + |ConfirmedProposals(state, p.id)|
  {
    var end := StoreProtocol.Run(s, w, steps);
    var k := StoreProtocol.HeadReplays(s, w, steps, i);
    var head := end.repo.commits[end.repo.branches[StoreProtocol.STATE_BRANCH]];
    var events := EventsOf(Decoding(head, s.repository, end.log[i].command.projectId).value);
    state := end.log[k].state;
    assert ReplaysWith(s.codec, events, integrity);
    ReplayedTrees(events, state, integrity);
  }

  lemma ReplayedTrees(events: seq<DomainEvent>, state: ProjectState, integrity: IntegrityBoundary)
    requires Replayed(events, integrity) == Ok(state)
    ensures forall p | p in state.projects ::
              && StructurallyValid(NodesOf(state.nodes, p.id), p.rootNodeSha)
              && |NodesOf(state.nodes, p.id)| == 1 + |CompletedRuns(state.runs, p.id)| + |ConfirmedProposals(state, p.id)|
  {
    forall p | p in state.projects
      ensures StructurallyValid(NodesOf(state.nodes, p.id), p.rootNodeSha)
      ensures |NodesOf(state.nodes, p.id)| == 1 + |CompletedRuns(state.runs, p.id)| + |ConfirmedProposals(state, p.id)|
    {
      ReachableGraphsAreValid(state, integrity, p);
      NodeCount(state, integrity, p);
    }
  }
}

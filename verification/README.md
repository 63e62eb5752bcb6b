# Hunsu: a verified model

Hunsu keeps every Project as a stream of domain events in files on a Git branch, `hunsu/state`. A Project is a tree of
commit Nodes; Runs and confirmed coaching proposals add Nodes, and alternatives are compared, selected and rejected.
This project models the parts of Hunsu that have to fit together for that to be safe, and proves that they do:

1. **Domain engine.** Commands are decided into one or two events, events are applied to a state, and whole streams are
   replayed after a check of their batch grammar. The main invariant holds after every stream that replays, whoever
   wrote it: each Project is one rooted tree, its Run children match its completed Runs, its coaching children match
   its confirmed proposals, and no Node is judged twice. What every command and every event asks of the state and does to
   it is stated over the state's records alone, and proved of the code that decides and applies. These two are written
   separately in the source; the model says exactly when they agree.
2. **Append store.** What an append writes decodes back to the earlier events followed by the new ones, as long as its
   year is one of 0 to 9999. A transition system with any number of clients, which race to create the branch, commit by
   compare-and-swap, lose answers and ask again, starts from whatever is on the branch and keeps one history: every batch
   was decided on the replay of exactly the events found before it, and a second batch for an idempotency key stands only
   behind one dated outside those years. The files for readers at its head are those made of the last commit. The logs of
   runs are exactly these histories. The `append` method itself is proved against the same steps while other clients
   change the repository whenever it waits.
3. **Sharded read models.** Merkle commitments accept exactly the committed leaves; the readers' checks of single pages
   and shards add up to one tree over the whole graph, and under a written manifest let through exactly what shows it; the
   writer's files show the state and pass every reader's check; every answer is the stretch that was asked for, and all
   three kinds of cursors return each entry once. From events to answers: whatever stream replays to a one-Project state, following
   the cursors through its checked files lists every Node and every edge once.
4. **Caches.** Counters that wider invalidations reset still tell a load, by a generation that only moves forward,
   whether anything has touched its repository since it began.
5. **Second implementations and encoders.** The projections' graph checks, order and divergence count agree with the
   engine's. Canonical JSON, its UTF-8 bytes and their padding tell data apart exactly up to the order of object
   members. Where the registry writes one, the store's own canonical text agrees exactly when in no object the names are
   listed in another order than they sort. Runner values are accepted exactly when they conform to their schema.

Four places where the code does not do what it is meant for are stated with an input and the exact condition:

- a command can be accepted by `decide` and its events then refused by `apply`: exactly when it reuses an event id, or
  creates a Project whose root carries another time than the request (`EngineAgreement.DecideApplyAgreement`;
  `ReusedEventId`, `RootOfAnotherTime`);
- an append dated outside the years 0 to 9999 passes the input check and writes event files that no reader finds
  (`StoreYears.YearTenThousand`). The Project reads back as everything committed to it exactly when all of it is dated in
  those years (`StoreYears.EverythingIsReadBack`), a retry is recognised exactly when the commit is
  (`StoreYears.ReplayedExactly`), and otherwise a second batch is committed under the same key
  (`StoreRuns.TwoBatchesInOneRun`);
- the store and the registry each write canonical JSON, but the store builds an object first, which lists names that are
  array indices before all others and in numeric order: {"10":null,"9":null} has two canonical texts
  (`StoreJson.TextsOfTenAndNine`). They agree exactly on the values the registry writes in whose objects the two orders
  of the names agree (`StoreJson.CanonicalTextsAgree`);
- the runner value decoder lets negative zero pass for an integer, and such a value has no canonical text
  (`RunnerDecoding.AcceptedIsPrintable`).

Digests, commit names and cohort keys are injective constructors (`Digest`, `Made`, `Hash`): equal names mean equal
contents. Loops of the source are methods, each proved to compute a function or to decide a predicate about which the
lemmas then speak. Objects that change are classes: the transport, the store and the caches.

`dafny verify dfyconfig.toml` checks everything.

## Model

| member | source | states |
|---|---|---|
| Batches.WellBatchedMeaning | packages/core/src/engine.ts:380-424 | the batch grammar without a parse order: ids all different, and some split into complete batches no two of which share a key |
| Batches.ValidateDomainEventBatches | packages/core/src/engine.ts:380-424 | the loop accepts exactly the streams of that grammar |
| Batches.ReplayDomainEvents | packages/core/src/engine.ts:365-378 | a replay is the grammar check and then the events applied one after the other from the empty state |
| Batches.ApplyEventsAppend | packages/core/src/engine.ts:371-376 | applying a concatenation is applying its parts in turn |
| Engine.ResolveCompletedRunCandidatesLoop | packages/core/src/engine.ts:905-942 | the pushing loop finds the completed Runs and sources of the candidates, or the first failure |
| Invariant.AcceptedEventFollows | packages/core/src/engine.ts:228-363 | every accepted event is one of the steps the invariant is proved for |
| Replay.BatchKeepsInv | packages/core/src/engine.ts:365-424 | a complete batch, one event or a pair, leads from states with the invariant to states with the invariant |
| Replay.ReplayedStateSatisfiesInv | packages/core/src/engine.ts:365-378 | every stream that replays ends in a state with the invariant |
| ProjectTree.Bijections | packages/core/src/engine.ts:651-673 | in every replayed state completed Runs and Run children, and confirmed proposals and coaching children, match one to one |
| ProjectTree.NodeCount | packages/core/src/engine.ts:764-800 | a Project has 1 + completed Runs + confirmed proposals Nodes |
| ProjectTree.ReachableGraphsAreValid | packages/core/src/engine.ts:447-476 | every Project of every replayed state passes the graph checks of the engine and of the projections |
| NodeGraph.WalkToRoot | packages/core/src/engine.ts:463-472 | the parent walk ends on every list of Nodes, cyclic ones too, and succeeds exactly for Nodes that hang from a root |
| NodeGraph.ValidateProjectGraph | packages/core/src/engine.ts:448-474 | one Project passes exactly when SHAs differ, its declared root is the only one, and every Node hangs from it |
| NodeGraph.ValidateNodeGraph | packages/core/src/engine.ts:447-476 | succeeds exactly when every Project is such a tree, on arbitrary states |
| EngineAgreement.DecideApplyAgreement | packages/core/src/engine.ts:100-226 | in every replayed state the events of an accepted command apply if and only if its event id is unused and, for a new Project, the root's time is the request's; what happens then is said by `CommandEffects.CommandsFollowRules` |
| EngineAgreement.RootOfAnotherTime | packages/core/src/engine.ts:516-531 | in any replayed state and under any integrity boundary, a new Project whose root passes every check but carries another time than the request is accepted by decide and refused by apply |
| EngineAgreement.FirstProjectOfAnotherTime | packages/core/src/engine.ts:516-531 | such a command for a first Project, under any boundary that accepts its root |
| EngineAgreement.ReusedEventId | packages/core/src/engine.ts:1168-1179 | in any replayed state a fresh command that reuses an event id is accepted by decide and refused by apply |
| CommandEffects.EventFollowsRules | packages/core/src/engine.ts:228-363 | in every state with the invariant an event is accepted exactly under the rule of its kind, said over the records of the state, and then the new state differs by exactly what the event tells and its record |
| CommandEffects.CommandsFollowRules | packages/core/src/engine.ts:100-226 | for every command under a new key in every replayed state: decide accepts it exactly when its rule permits it and a second id is new; apply, when moreover its event id is new and a new Project's root carries the time of the request; and then exactly what the command asks for has happened, dated with the request, and is recorded under its key |
| CommandEffects.UserIsRequired | packages/core/src/engine.ts:516-549 | whatever else is wrong, what only a user decides is refused to every other actor |
| CommandEffects.RunMustBeRunning | packages/core/src/engine.ts:1232-1238 | checkpoints, results, failures and cancellations of a Run that is not there or not running are refused, each with its own code |
| CommandEffects.DuplicateIsRefused | packages/core/src/engine.ts:1266-1268 | what carries an id already used for its kind is refused as a duplicate |
| CommandRules.ResultRule | packages/core/src/engine.ts:623-649 | a verified result is accepted exactly when its Run is running on the named branch, the result is not the source itself, and every criterion of the Run's Goal has recorded evidence |
| CommandRules.RunChildRule | packages/core/src/engine.ts:651-673 | a Run child is accepted exactly when it hangs from the source of its Run, keeps the source's How and all its Goals in order but the one of the Run, is the result if the Run has completed, and is new and sound in itself |
| CommandRules.CoachingChildRule | packages/core/src/engine.ts:780-800 | a coaching child is accepted exactly when it hangs from the source of its proposal with the source's tree and the proposed plan, and is new and sound in itself |
| CommandRules.ComparisonRule | packages/core/src/engine.ts:872-1043 | a comparison is accepted exactly when its candidates are at least two different Run children of the Project, every finding sums up each of them once, its kind is true of their parents and Goals, and earlier comparisons that share a candidate are of the same kind |
| CommandRules.SelectionRule | packages/core/src/engine.ts:1059-1075 | a selection is accepted exactly when a user selects a candidate of a comparison that is not rejected, and no selection was made in a comparison of the same kind |
| CommandRules.RejectionRule | packages/core/src/engine.ts:1091-1103 | a rejection is accepted exactly when a user rejects candidates of one comparison, each once, none of them selected or rejected before |
| CommandRuns.CommandExtendsStream | packages/core/src/engine.ts:209-226 | what a command emits extends the stream it ran on, and the longer stream replays to the command's state |
| CommandRuns.DecideMutation | apps/api/src/application-service.ts:1374-1395 | the fold of several commands returns the final state and all events in order, or the first failure |
| CommandRuns.FoldEqualsReplay | apps/api/src/application-service.ts:1374-1395 | the folded state is the replay of the old stream followed by the new events |
| CommandRuns.CommandsReplay | packages/core/src/engine.ts:209-226 | any sequence of commands from nothing emits a well-batched stream that replays to the state they left |
| CommandRuns.ReplayedLedger | packages/core/src/engine.ts:1189-1201 | after a replay the command records say, key by key, the fingerprint and the ids of exactly its events |
| CommandRuns.RepeatedCommand | packages/core/src/engine.ts:1181-1187 | a key used again, whatever ran in between: the same fingerprint changes nothing and returns the first ids, another one is a conflict |
| Lifecycle.HistoryGrows | packages/core/src/engine.ts:228-311 | over any stream lists only grow, a Run keeps its Goal, Runner and source, stops running at most once, and keeps its evidence when stopped |
| Lifecycle.RunRecordsAreComplete | packages/core/src/engine.ts:604-649 | a Run's evidence ids are those of its evidence in order, completed Runs cover every criterion, and Runs are bound to their source's plan |
| Lifecycle.OneGoalFewer | packages/core/src/engine.ts:432-445 | a Run child keeps its parent's How and has one Goal fewer |
| Lifecycle.RunChainIsBounded | packages/core/src/engine.ts:651-673 | a chain of Run children is no longer than the number of Goals at its start |
| Cohorts.OverlapMeansSameCohort | packages/core/src/engine.ts:1017-1043 | comparisons of a Project that share a Node have one cohort key |
| Cohorts.SelectionsAreUnique | packages/core/src/engine.ts:1059-1075 | two selections of a Project lie in different cohorts and select different Nodes |
| Cohorts.JudgedOnce | packages/core/src/engine.ts:1091-1103 | no Node is rejected twice, and none is both selected and rejected |
| GraphProjection.GraphIntegrity | packages/projections/src/project.ts:358-391 | valid exactly when the engine's structural check holds and every completed Run has its child; the codes say which check failed |
| GraphProjection.RunEdgesMeaning | packages/projections/src/project.ts:383-390 | its last check: every completed Run has its result registered as a Run child of its source |
| GraphProjection.FindsCycle | packages/projections/src/project.ts:374-382 | the walk with its seen set ends, and reports a cycle exactly where a Node with registered ancestors hangs from no root |
| GraphProjection.GraphOrder | packages/projections/src/project.ts:393-416 | on valid graphs the queue ends with a permutation of the Nodes, the root first and parents before children, breadth first in the sorted order of siblings |
| Divergence.CohortShasMeaning | packages/core/src/engine.ts:491-502 | a cohort lists the candidates of its comparisons, each once |
| Divergence.EngineDivergenceCount | packages/core/src/engine.ts:478-514 | the engine's loops compute the count of divergent parents and cohorts, which `OpenAlternatives.CountsAreOpen` says over the decisions |
| Divergence.ProjectionDivergenceCount | packages/projections/src/project.ts:429-467 | so do the projection's, with their own choice of decisions |
| Divergence.CountsAgree | packages/projections/src/project.ts:429-505 | on every replayed state the two counts are the same number |
| OpenAlternatives.ResolvedMeaning | packages/core/src/engine.ts:504-514 | candidates are settled exactly when the rejections name all of them, or all but one and that one is selected |
| OpenAlternatives.CountsAreOpen | packages/projections/src/project.ts:429-467 | on every replayed state both counts are the number of families of Run siblings and of experiments with at least two members whose decisions have settled none: said over Nodes, comparisons and decisions |
| OpenAlternatives.SelectionSettles | packages/core/src/engine.ts:504-514 | a selection settles an open family or experiment exactly when it selects one of its members and all others are rejected already |
| OpenAlternatives.RejectionSettles | packages/core/src/engine.ts:504-514 | a rejection settles one exactly when it names every member that was neither rejected before nor, for one of them, selected |
| OpenAlternatives.DecisionLowersCounts | packages/core/src/engine.ts:478-514 | a command that selects or rejects lowers both counts by exactly the families and experiments it settles, and those of other Projects by none |
| StoreTypes.YearPrintsAsFourDigits | packages/github-store/src/state-store.ts:558-563 | a year prints as four digits exactly from 0 to 9999 |
| StoreTypes.MaterializedIsNoEvent | packages/github-store/src/state-store.ts:691-701 | no file written for readers lies among the events of any Project |
| StoreTypes.SafePathMeaning | packages/github-store/src/state-store.ts:691-701 | the check by parts of a path is the source's check on its text: not empty, not absolute, no "..", no backslash, not under events/ |
| StoreTypes.EventPathIsFound | packages/github-store/src/state-store.ts:445-455 | an event file lies where the decoder of a Project looks exactly when it is the Project's and its year has four digits |
| StoredBatches.ValidateCommandBatches | packages/github-store/src/state-store.ts:600-668 | accepts numbered events exactly when each opens a batch under a new key or continues the one before it, named by its index, and every batch has the size it claims |
| StoredBatches.SameKeySameRun | packages/github-store/src/state-store.ts:612-658 | events of one key stand next to each other and share command, previous head, actor and time |
| StoredBatches.BatchExtends | packages/github-store/src/state-store.ts:152-171 | a complete batch under a new key may follow any valid events |
| StoredBatches.ConflictMeaning | packages/github-store/src/state-store.ts:612-668 | the check ends with an idempotency conflict exactly where, behind events that fit, one carries another command under a used key |
| DecodedFiles.BatchesMeaning | packages/github-store/src/state-store.ts:600-668 | the accepted lists are exactly those that split into batches of one command each, every event with the headers, the size and the place of its batch, no two batches under one key |
| StateStore.DecodeStoredEvents | packages/github-store/src/state-store.ts:445-479 | answers what the files hold, whatever order they are listed in, and otherwise why not |
| StateStore.DecodingMeaning | packages/github-store/src/state-store.ts:445-479 | that answer is a list exactly when the files are its events, numbered from 1 and in valid batches |
| StateStore.DecodingIsUnique | packages/github-store/src/state-store.ts:470-476 | files decode to one list at most |
| DecodedFiles.DecodedExactly | packages/github-store/src/state-store.ts:445-479 | reading answers a list exactly when the event files of the Project are its events, numbered from 1, of this repository, each under its id in the directories whose digits say its year and its month, and the list splits into batches |
| AppendDecode.WriteIsDecidedOnReplay | packages/github-store/src/state-store.ts:118-204 | what is written is one complete batch under a new key, decided on the replay of everything before it, at the expected head |
| AppendDecode.StoredEventTellsCommand | packages/github-store/src/state-store.ts:152-171 | every stored event carries project, repository, key, command, head, actor and time of its append, its place in the batch and in the stream |
| AppendDecode.WrittenExactly | packages/github-store/src/state-store.ts:118-206 | an append writes exactly when its key is unused, the head is the expected one, events are decided and all encode, old and new ones replay to the Project, the files for readers can be made and may be written, and no event file exists |
| AppendDecode.WriteMaterializes | packages/github-store/src/state-store.ts:179-206 | after a write the files for readers are made of the new state and all events and lie at their paths, the last where paths repeat; apart from them, the event files and the workspace file nothing has changed |
| StoreVerdicts.AnsweredByKey | packages/github-store/src/state-store.ts:118-136 | the key comes before the head: the stored command is replayed, another one is a conflict, and only an unused key at another head is stale |
| StoreVerdicts.RefusedByEvents | packages/github-store/src/state-store.ts:141-178 | which refusal meets an empty decision, an event that does not encode, a stream that does not replay and a state of another Project |
| StoreVerdicts.RefusedByFiles | packages/github-store/src/state-store.ts:179-194 | which refusal meets files for readers that cannot be made or lie where they may not, and an event file that exists |
| AppendDecode.AppendDecodeRoundTrip | packages/github-store/src/state-store.ts:152-206 | the written files decode to the old events followed by the new ones if and only if the year has four digits, and otherwise still to the old ones |
| AppendDecode.AppendKeepsOtherProjects | packages/github-store/src/state-store.ts:185-194 | every other Project decodes to what it did |
| AppendDecode.AppendKeepsEventFiles | packages/github-store/src/state-store.ts:185-189 | no event file is ever rewritten |
| AppendDecode.WorkspaceListsProjects | packages/github-store/src/state-store.ts:196-206 | the workspace file lists exactly the Projects with events, unless the append wrote the first events of a Project in a year nobody finds |
| StoreHistory.HistoryDecodes | packages/github-store/src/state-store.ts:83-229 | after any number of appends the files decode, Project by Project, to what was there at the start followed by the committed batches whose year has four digits, in commit order; a Project whose files at the start do not decode never decodes |
| StoreHistory.CommittedOnItsPrefix | packages/github-store/src/state-store.ts:130-175 | each entry carries the head before it, was decided on the replay of exactly the stream found before it, and its state is the replay of the stream with it |
| StoreHistory.AtMostOneBatchPerKey | packages/github-store/src/state-store.ts:118-128 | two batches of a Project share an idempotency key only if the year of the earlier has not four digits |
| StoreHistory.RetryIsReplay | packages/github-store/src/state-store.ts:118-128 | after a commit dated in the years 0 to 9999, on every later head, its command is answered as a replay with the state of the Project's last found batch, and another command under its key as a conflict |
| StoreHistory.UnfoundIsNotReplayed | packages/github-store/src/state-store.ts:118-128 | asking again right after a commit is a replay if and only if the year has four digits |
| StoreHistory.HeadsNameFiles | packages/github-store/src/in-memory.ts:222-234 | an unmoved head means unchanged files |
| StoreHistory.ModelsOfLastEntry | packages/github-store/src/state-store.ts:179-195 | the files for readers that the last commit to a Project made are there, at every later point of the history until the next |
| StoreYears.EverythingIsReadBack | packages/github-store/src/state-store.ts:445-479 | the files decode to everything committed to a Project, on top of what was there at the start, if and only if all of it is dated in the years 0 to 9999 |
| StoreYears.KeyIsRemembered | packages/github-store/src/state-store.ts:118-124 | an idempotency key is found again if and only if it was there at the start or was committed in the years 0 to 9999 |
| StoreYears.ReplayedExactly | packages/github-store/src/state-store.ts:118-128 | a command is answered as a replay if and only if it was committed in the years 0 to 9999 since the start, or is an old one on a stream that replays |
| StoreYears.WrittenTwice | packages/github-store/src/state-store.ts:548-563 | for every codec and every command dated outside those years: it passes the input check and is written, and behind it a second batch is committed under the same key, for the same command in another month or for another command |
| StoreYears.YearTenThousand | packages/github-store/src/state-store.ts:751-754 | the same at the first instant of the year 10000, with every part given |
| StoreProtocol.StepKeepsInv | packages/github-store/src/state-store.ts:83-242 | every step of every client, and every push to another branch, keeps the invariant: the state branch is where its history leads, snapshots are points of it, answers are true |
| StoreProtocol.EveryRunIsSafe | packages/github-store/src/state-store.ts:83-242 | so it holds after every run of any number of clients, from a repository with or without a state branch and with any files |
| StoreProtocol.HeadDecodesToCommits | packages/github-store/src/state-store.ts:83-242 | at the end of every run the head is where the history leads, each batch decided on the head before it; a Project decodes there exactly if it did at the start, to its start and the found batches, which is everything committed if and only if all of it is dated in the years 0 to 9999 |
| StoreProtocol.HeadReplays | packages/github-store/src/state-store.ts:130-175 | once a command of those years was committed to a Project, the head replays to the state last committed for it |
| StoreProtocol.HeadHoldsModels | packages/github-store/src/state-store.ts:179-229 | in every run the head holds, for every Project, the files for readers made of the state and the events of its last commit |
| StoreProtocol.OneBatchPerKeyInEveryRun | packages/github-store/src/state-store.ts:118-128 | in every run a second batch for a key stands only behind one dated outside the years 0 to 9999, and no batch is committed under a key that was there at the start |
| StoreProtocol.AnswersAreTrue | packages/github-store/src/state-store.ts:125-229 | whoever was told of a commit finds it in the log at the head named; whoever was told of a replay, an evaluation on a point of the history |
| StoreProtocol.CommitsArePermanent | packages/github-store/src/in-memory.ts:212-239 | what was committed stays, in its place |
| StoreProtocol.CommitIsDecided | packages/github-store/src/in-memory.ts:219-222 | what compare-and-swap admits was decided on the very files it replaces |
| StoreProtocol.SettlingKnowsCommits | packages/github-store/src/state-store.ts:118-128 | a client that read the branch after a commit dated in the years 0 to 9999 learns of it when it settles, and changes nothing |
| StoreProtocol.RetryIsAnswered | packages/github-store/src/state-store.ts:83-242 | in every run, whoever asks under a key committed in the years 0 to 9999, with anything happening before and after it reads, is told of a replay or a conflict, never that its head is stale |
| StoreRuns.EveryHistoryIsARun | packages/github-store/src/state-store.ts:83-242 | the logs of runs are all the histories: every history of valid commands from the state branch on is the log of some run |
| StoreRuns.TwoBatchesInOneRun | packages/github-store/src/state-store.ts:118-128 | a run that commits one command twice under one key, first dated in the year 10000 |
| Transport.CommittingEvolves | packages/github-store/src/in-memory.ts:212-239 | a commit moves the branch to a new descendant and keeps every commit |
| Transport.MemoryGitHubTransport.CreateBranch | packages/github-store/src/in-memory.ts:117-126 | creates the branch at an existing commit, unless it exists |
| Transport.MemoryGitHubTransport.CommitFiles | packages/github-store/src/in-memory.ts:212-239 | moves the branch to the commit of the updated files, only from the head expected |
| GitHubStore.StoreEvents | packages/github-store/src/state-store.ts:152-171 | the stored envelope of each event |
| GitHubStore.WriteEvents | packages/github-store/src/state-store.ts:141-206 | the checks and pushing loops compute the write that `AppendDecode.WrittenExactly` and `AppendDecode.WriteMaterializes` describe |
| GitHubStore.GitHubProjectStore.ReadConcurrentStateBranch | packages/github-store/src/state-store.ts:231-242 | reads the branch up to three times, going on only while it is not there; the last answer of the transport is the result |
| GitHubStore.GitHubProjectStore.ObtainBranch | packages/github-store/src/state-store.ts:89-113 | reads or creates the branch; a stale first append creates nothing |
| GitHubStore.GitHubProjectStore.SettleOn | packages/github-store/src/state-store.ts:114-229 | decodes, decides and commits on a snapshot while others interfere; the answer rests on that snapshot, and a commit went through only if the branch had not moved |
| GitHubStore.GitHubProjectStore.Append | packages/github-store/src/state-store.ts:83-229 | whatever others do, the answer rests on one snapshot of the branch; a client alone does exactly the steps of the protocol |
| ProjectStore.AppendAnswersFoldedState | apps/api/src/application-service.ts:1364-1398 | with the engine in the store, the state an append answers is the one the mutation folded command by command |
| ProjectStore.StoredProjectsAreTrees | packages/github-store/src/state-store.ts:395-410 | whatever was on the branch and whatever any number of clients do, every Project to which a command of the years 0 to 9999 was committed reads back from the head and replays to a state whose graphs are trees with the right number of Nodes |
| Merkle.BuildCommitment | apps/api/src/sharded-read-models.ts:547-586 | the level loops build the root and, for each leaf, its siblings, with the last leaf doubled on odd levels |
| Merkle.VerifyMembership | apps/api/src/sharded-read-models.ts:1962-1999 | the verifying loop accepts exactly the paths that lead from the leaf to the root |
| Merkle.AcceptsMeaning | apps/api/src/sharded-read-models.ts:1962-1993 | against any root whatever: a proof has as many steps as the level count has halvings, each joins from the side its index says, the last of an odd level with itself, and they end at the root |
| Merkle.MembershipIsExact | apps/api/src/sharded-read-models.ts:1962-1999 | a proof is accepted at an index if and only if it is the built one and its leaf the committed one |
| Merkle.RootIsInjective | apps/api/src/sharded-read-models.ts:547-586 | lists of one length with one root are equal |
| Merkle.DepthIsCeilLog2 | apps/api/src/sharded-read-models.ts:1995-1999 | proofs have the rounded-up binary logarithm of the leaves as length |
| Merkle.GraphPageProofsFit | apps/api/src/sharded-read-models.ts:1995-1999 | on a page of at most 300 Nodes the bound of nine steps never fires |
| GraphValidators.ValidateGraphPage | apps/api/src/sharded-read-models.ts:2027-2073 | the page checks decide the page predicate: contiguous cards, one fitting edge for each child, parents on the page or proven, no proof unused |
| GraphValidators.ValidateGraphPageTopology | apps/api/src/sharded-read-models.ts:1382-1413 | the page checks against the manifest decide their predicate |
| GraphValidators.ValidateGraphNodeTopology | apps/api/src/sharded-read-models.ts:1415-1442 | so do the shard checks |
| GraphValidators.ValidateGraphPageNodeLocators | apps/api/src/sharded-read-models.ts:1444-1469 | so do the locator checks |
| GraphTree.ProofIsOfCard | apps/api/src/sharded-read-models.ts:1962-1993 | once every page passes, an accepted identity proof is of the very card at its ordinal |
| GraphTree.LocalChecksGiveTree | apps/api/src/sharded-read-models.ts:1382-1413 | if every page passes, ordinal 0 is the only root, and every other card names a card with a smaller ordinal that carries its lineage's parent |
| GraphTree.EveryCardReachesRoot | apps/api/src/sharded-read-models.ts:1382-1413 | climbing from parent to parent leads from every card to ordinal 0 |
| GraphTree.OneEdgeFewer | apps/api/src/sharded-read-models.ts:1323-1334 | all pages together have one edge fewer than Nodes |
| GraphTree.IncomingEdge | apps/api/src/sharded-read-models.ts:2035-2056 | no edge leads to the root, and exactly one, from its lineage's parent, to every other card |
| GraphTree.ShasAreUnique | apps/api/src/sharded-read-models.ts:1444-1469 | with the per-SHA locators no SHA stands at two ordinals |
| GraphExactness.ProofIsWritten | apps/api/src/sharded-read-models.ts:1962-1993 | under the manifest written for a tree an identity proof is accepted if and only if it is the written one |
| GraphExactness.PagePassesExactly | apps/api/src/sharded-read-models.ts:1382-1413 | there a page passes if and only if it carries the identities of its cards, exactly one edge into each but the root and that the one its lineage names, exactly the proofs of the parents before it, and no Run from elsewhere |
| GraphExactness.ShardPassesExactly | apps/api/src/sharded-read-models.ts:1415-1442 | and a shard if and only if it carries the identity and the proofs of a card and its parent, and edges to some of the card's children, each proven: nothing makes it show all of them |
| Materialize.WrittenManifestHolds | apps/api/src/sharded-read-models.ts:759-775 | the manifest written for a tree passes the manifest checks |
| Materialize.WrittenPageHolds | apps/api/src/sharded-read-models.ts:693-729 | every page written for a tree passes the page checks |
| Materialize.WrittenShardHolds | apps/api/src/sharded-read-models.ts:731-757 | every Node shard can be written and passes the shard checks |
| Materialize.WrittenLocatorsHold | apps/api/src/sharded-read-models.ts:1444-1469 | the shards of a page's cards pass the locator checks |
| GraphMaterializer.MaterializeGraph | apps/api/src/sharded-read-models.ts:664-777 | the writing loops, with a Merkle commitment built for each page, produce exactly the files of the graph, for exactly the states that can be written; `GraphContents.WritableMeaning` and `GraphContents.WrittenFilesShow` say over the state which states and what files these are |
| GraphContents.WritableMeaning | apps/api/src/sharded-read-models.ts:664-692 | a Project can be written exactly when its SHAs differ, every Node has its canonical ref, and is the root if it comes first and otherwise a child of an earlier one |
| GraphContents.WrittenFilesShow | apps/api/src/sharded-read-models.ts:664-777 | for every replayed one-Project state each page and each shard lists, in order and once each, the Nodes with origin and parent, the edges with the completed Run or the confirmed proposal behind them, and exactly the Runs that are running from there |
| GraphMaterializer.MaterializedGraphIsAccepted | apps/api/src/sharded-read-models.ts:664-777 | every replayed one-Project state can be written, and every file then passes every reader's check |
| ActivityPages.MaterializeActivity | apps/api/src/sharded-read-models.ts:964-1006 | one list cut into committed pages of 50, the last with the rest, refused only for proofs of more than 48 steps |
| ActivityPages.ValidatePageCommitment | apps/api/src/sharded-read-models.ts:1471-1521 | the loop decides whether a page is committed in the index |
| ActivityPages.CommitmentIsExact | apps/api/src/sharded-read-models.ts:1471-1521 | a page is accepted if and only if it is the written one |
| ActivityPages.ReadWindow | apps/api/src/application-service.ts:1981-2019 | a window is read from checked pages, holds as many entries from the offset on as were asked for or are left, and continues exactly when some are left; or there is none |
| ActivityPages.WindowsCoverList | apps/api/src/application-service.ts:1981-2019 | following the cursors lists every entry from an offset on once and in order |
| GraphReading.WindowIsStretch | apps/api/src/application-service.ts:1471-1476 | on a written page a request yields the cards from its offset on, as many as its limit brought between 1 and 300, the page and the graph leave, exactly the edges into them and exactly the Runs from them, and continues exactly when cards are left |
| GraphReading.GraphCursorsCover | apps/api/src/application-service.ts:1459-1491 | on written pages following the cursors returns every card and every edge from an offset on once |
| GraphLoading.LoadedPageIsWritten | apps/api/src/application-service.ts:1868-1878 | under the written manifest a stored page loads only if it is the written one |
| GraphLoading.WrittenPageLoads | apps/api/src/application-service.ts:1850-1912 | every page of a written tree passes all checks of the loader: manifest, digest, topology, and the shard of each of its cards |
| GraphLoading.AnswersAreTheGraph | apps/api/src/application-service.ts:1459-1491 | whatever the other files hold, a request under the written manifest that is answered names this graph and this head, and is answered by the very stretch of the graph it asked for, as long as its limit, the page and the graph allow |
| GraphLoading.AnsweredExactly | apps/api/src/application-service.ts:1459-1471 | for written files it is answered exactly when the catalog names the graph and the cursor, made for this head, points into a page, so that the offset behind a last full page is refused; a cursor of another head is an invalid request |
| GraphLoading.ReplayedGraphIsReadWhole | apps/api/src/application-service.ts:1459-1491 | for every replayed one-Project state and its written files no request is refused, and following the cursors lists the card of every Node and the edge into every child, each as the state has them, once and in order |
| EventReading.ScanReverseEventShards | apps/api/src/sharded-read-models.ts:331-354 | the loops over shards and entries compute the bounded reverse scan |
| EventReading.MatchingMeaning | apps/api/src/sharded-read-models.ts:331-354 | its ideal result: the matching entries of a range, each once, newest first |
| EventReading.RequestIsAnswered | apps/api/src/application-service.ts:1563-1603 | a request returns what matches in an unbroken stretch from the newest entry below its cursor down, within four shards of 256, and stops early only at the match that fills its limit |
| EventReading.RequestIsBounded | apps/api/src/application-service.ts:1563-1603 | a request looks at no more than 1024 entries, and its cursor is strictly lower than the one it was sent |
| EventReading.EventCursorsCover | apps/api/src/application-service.ts:1563-1603 | for every log, filter and limit, following the cursors returns every matching event below the first cursor once, newest first |
| Generations.InvalidationAdvances | apps/api/src/application-service.ts:754-806 | an invalidation moves the generation of what it covers strictly forward, though it resets narrower counters, and leaves every other |
| Generations.GenerationTellsInvalidations | apps/api/src/application-service.ts:2773-2793 | over any sequence of invalidations, up to the largest safe integer of them, the generation is unchanged exactly if none covered the repository |
| Generations.InvalidationsHideAfterWrap | apps/api/src/application-service.ts:3801-3803 | without that bound it fails, first after 2 ** 53 invalidations of one repository |
| Caches.ReadCaches.GenerationIsCurrent | apps/api/src/application-service.ts:2804-2810 | a load has the present generation exactly when nothing has touched its repository since it began |
| Caches.ReadCaches.InvalidateAll | apps/api/src/application-service.ts:754-767 | empties the caches and flights; what remains valid stays so |
| Caches.ReadCaches.InvalidateRepository | apps/api/src/application-service.ts:769-783 | drops exactly the entries and flights of the repository |
| Caches.ReadCaches.InvalidateInstallation | apps/api/src/application-service.ts:785-806 | drops exactly the entries and flights of the installation's repositories |
| Caches.ReadCaches.LoadProjects | apps/api/src/application-service.ts:2531-2543 | whoever asks joins or starts a load that began after the last invalidation of the repository |
| Caches.ReadCaches.CachedProjects | apps/api/src/application-service.ts:2549-2553 | what is served from the cache is within its time to live and was loaded after the last invalidation of the repository |
| Caches.ReadCaches.PublishProjects | apps/api/src/application-service.ts:2795-2802 | a load enters its result if and only if no invalidation has overtaken it |
| Caches.ReadCaches.LandProjects | apps/api/src/application-service.ts:2538-2542 | an answered load is joined no more, and no other flight is dropped |
| Caches.ReadCaches.VerifiedAnchor | apps/api/src/application-service.ts:2216-2227 | an anchor counts as verified only by a load that began after the last invalidation |
| Caches.ReadCaches.LoadAnchors | apps/api/src/application-service.ts:2229-2234 | verifications are joined only if they began after the last invalidation |
| Caches.ReadCaches.PublishAnchors | apps/api/src/application-service.ts:2266-2277 | enters the anchors if and only if no invalidation has overtaken the load, and keeps the newest 3000 |
| Caches.RefreshMeaning | apps/api/src/application-service.ts:2266-2277 | entering anchors leaves the others as they are and in order, and behind them one entry for each key |
| JsonText.StringRoundTrip | packages/protocol-registry/src/canonical.ts:20-23 | a string written with the escapes of section 7 of RFC 8259 reads back as it was, lone surrogates included |
| JsonText.EscapesAreMinimal | packages/protocol-registry/src/canonical.ts:20-23 | the quotation mark, the backslash and five controls are escaped by a letter, other controls and lone surrogates by four lower-case digits, and nothing else is |
| JsonValues.PrintingSorts | packages/protocol-registry/src/canonical.ts:42-46 | sorting the members while printing prints the sorted value |
| JsonReader.ValueRoundTrip | packages/protocol-registry/src/canonical.ts:20-48 | whatever is printed reads back, and what follows it is left over |
| CanonicalJson.PrintCanonical | packages/protocol-registry/src/canonical.ts:20-48 | the printing loops compute the canonical text, and refuse exactly the values JSON has no place for |
| CanonicalJson.CanonicalRoundTrip | packages/protocol-registry/src/canonical.ts:20-48 | reading a canonical text gives the data with members in order |
| CanonicalJson.SortingTellsData | packages/protocol-registry/src/canonical.ts:42-46 | values sort alike exactly when they hold the same data up to the order of members |
| CanonicalJson.CanonicalTextTellsData | packages/protocol-registry/src/canonical.ts:20-48 | two values have the same canonical text if and only if they hold the same data up to the order of members |
| StoreJson.PropertyOrderMeaning | packages/github-store/src/canonical-json.ts:16-28 | an object built in sorted order lists the same members, array indices first and ascending, all others as they were set |
| StoreJson.ArrayIndexMeaning | packages/github-store/src/canonical-json.ts:16-28 | a name is an array index exactly when it is the decimal text of a number below 2 ** 32 - 1 |
| StoreJson.CanonicalTextsAgree | packages/github-store/src/canonical-json.ts:3-28 | for every value the store's text is the registry's if and only if the registry writes the value and in each of its objects no two names are listed in another order than they sort, or there is nothing to write |
| StoreJson.TextsOfTenAndNine | packages/github-store/src/canonical-json.ts:3-28 | at {"10":null,"9":null} the registry writes the members in this order and the store in the other |
| StoreJson.StoreWritesMore | packages/github-store/src/canonical-json.ts:19 | the store writes negative zero as zero and objects without their undefined members, where the registry refuses both |
| StoreJson.StoreTextTellsData | packages/github-store/src/canonical-json.ts:3-28 | among the values of data, two have one text of the store if and only if they hold the same data up to the order of members |
| Sha256Input.Utf8Bytes | packages/protocol-registry/src/canonical.ts:119-139 | the loop computes the UTF-8 bytes |
| Sha256Input.Utf8RoundTrip | packages/protocol-registry/src/canonical.ts:119-139 | a decoder gives every text back, lone surrogates included |
| Sha256Input.Pad | packages/protocol-registry/src/canonical.ts:51-57 | the padding loops compute the padded message, which fills whole blocks |
| Sha256Input.PaddingMeaning | packages/protocol-registry/src/canonical.ts:51-57 | that is the message, one bit, as few zeros as fill the blocks, and in the last 8 bytes the length in bits modulo 2 ** 64 |
| Sha256Input.PaddingIsInjective | packages/protocol-registry/src/canonical.ts:51-57 | different messages have different blocks, however long |
| Sha256Input.HashedBytesTellData | packages/protocol-registry/src/canonical.ts:20-57 | what is hashed tells data apart exactly up to the order of members |
| RunnerValues.OrdersFormPermutation | packages/protocol-registry/src/runner-value.ts:58-85 | distinct orders that include every expected one are exactly a permutation of the expected ones |
| RunnerDecoding.DecodeValue | packages/protocol-registry/src/runner-value.ts:5-108 | accepts exactly the values that conform to the schema, and returns them unchanged up to the order of members |
| RunnerDecoding.DecodeObject | packages/protocol-registry/src/runner-value.ts:11-32 | an object is accepted exactly when required members are there and every member is known and conforms |
| RunnerDecoding.DecodeArray | packages/protocol-registry/src/runner-value.ts:33-52 | an array of unique items is accepted exactly when no two hold the same data, which the set of canonical texts decides |
| RunnerDecoding.DecodeOrdered | packages/protocol-registry/src/runner-value.ts:53-85 | a contiguous ordered array is accepted exactly when its orders are a permutation of startAt and the numbers after it |
| RunnerValues.IntegersThatConform | packages/protocol-registry/src/runner-value.ts:94-97 | the values of an integer schema are the safe integers within its bounds, and negative zero wherever zero is |
| RunnerDecoding.AcceptedIsPrintable | packages/protocol-registry/src/runner-value.ts:94-102 | an accepted value has a canonical text if and only if no negative zero stands in it |
| RunnerDecoding.NegativeZeroIsAccepted | packages/protocol-registry/src/runner-value.ts:94-97 | negative zero conforms to an integer schema and has no canonical text |
| RunnerSchemas.SchemaIsAccepted | packages/protocol-registry/src/decoder.ts:102-217 | whatever decodes to a schema is one: bounds ordered and limited, names valid, required properties defined, order fields with room for every order |
| RunnerSchemas.SchemaRoundTrip | packages/protocol-registry/src/decoder.ts:102-217 | and every such schema has a description that decodes to it |
| RunnerSchemas.OrdersFitTheirBounds | packages/protocol-registry/src/decoder.ts:144-191 | for every length an accepted schema allows, every order needed lies within the order field's integer bounds |

## Left out

- Error messages, and which of several errors is reported first where the code does not branch on it.
- SHA-256 rounds, gzip, base64, JSON.parse of stored files: digests are injective constructors, and a stored file is the value it encodes.
- Encoding of single domain events: `storable` says whether an event encodes, and it decodes to itself.
- Formats of ids, timestamps, SHAs and refs; of timestamps only year and month are modelled, and an input is refused if the month is none.
- Credential scanning of field names: a parameter of the store's codec for commands and for events.
- Size limits of read models, and display fields of cards, which are opaque text.
- `localeCompare` and `sort` in graphOrder: any permuting sort, as a parameter.
- The payload verification of Nodes, and their canonical length: a parameter of the engine.
- Run branches, Node refs and anchors in Git, coaching commits, ancestry between commits, and the verification of Run results.
- More than one branch per store client: run branches and the default branch only appear as commits that the store did not make.
- Values with a `toJSON` method and big integers in the store's canonical JSON, at which `JSON.stringify` calls or throws.
- GraphLoading.LoadGraphPage: a file that is missing and one that does not decode are refused alike; requests read one page, so that the loop over pages has one turn.
- StoreProtocol.EveryRunIsSafe: the state branch is moved by clients of the store only; commits made by others appear on other branches.
- Listing, exact-head reads and test helpers of the transport: only reading, creating and committing to a branch are modelled.
- GitHubStore.GitHubProjectStore.Append: the head reported with a stale answer, which the source reads once more, is not part of the answer here.
- The `#projects` cache, the installation caches and the state-file caches of the application service.
- Caches.ReadCaches.LoadAnchors: the cards of a flight are a set, where the source joins their sorted keys.
- The installation of a load in the event loop: loads are numbered, and begin, publish and land as separate steps in any order.
- Generations.GenerationTellsInvalidations: holds for up to the largest safe integer of invalidations; `InvalidationsHideAfterWrap` says what happens beyond.
- Floating point: numbers are reals a number format prints and reads back; infinities and negative zero are kept apart.
- The definition decoders beside the runner value schema, and their locks and digests.
- HTTP, sessions, webhooks, MCP tools, user interface and configuration.

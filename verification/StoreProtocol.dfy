/**
 * Any number of clients append to one repository. A client reads the branch, may race to create it, decides on what it
 * read, and commits by compare-and-swap; the answer may get lost, and it may ask again.
 */
module StoreProtocol {
  import opened Prelude
  import opened Protocol
  import opened StoreTypes
  import opened StoredBatches
  import opened StateStore
  import opened StoreAppend
  import opened AppendDecode
  import opened StoreHistory
  import opened StoreYears
  import opened Transport

  const STATE_BRANCH := "hunsu/state"
  const VISIBILITY_ATTEMPTS := 3

  datatype Outcome<+E, +S> =
    | Committed(state: S, headSha: CommitSha<E>)
    | Replayed(state: S, headSha: CommitSha<E>)
    | Refused(code: StoreCode)

  datatype Client<!E, !S> =
    | Reading(command: AppendCommand<E, S>)
    | Creating(command: AppendCommand<E, S>)
    | Rereading(command: AppendCommand<E, S>, attempts: nat)
    | Holding(command: AppendCommand<E, S>, snapshot: BranchSnapshot<E>)
    | Finished(command: AppendCommand<E, S>, outcome: Outcome<E, S>)

  /** The repository, what has been committed to its state branch since that was created, and the clients by name. */
  datatype World<!E, !S> = World(
    repo: MemoryRepository<E>, start: CommitSha<E>, log: seq<Entry<E, S>>, clients: map<nat, Client<E, S>>)

  /** One step of one client, or a push by somebody else to another branch. */
  datatype Step<!E, !S> =
    | Begin(client: nat, command: AppendCommand<E, S>)
    | Read(client: nat)
    | Create(client: nat, answerLost: bool)
    | Reread(client: nat, visible: bool)
    | Settle(client: nat, answerLost: bool)
    | Fail(client: nat)
    | Push(branch: string, sha: CommitSha<E>, files: Files<E>)

  predicate IsStepOf<E, S>(step: Step<E, S>, i: nat) {
    !step.Push? && step.client == i
  }

  function RefusedWith<E, S>(c: AppendCommand<E, S>, code: StoreCode): Client<E, S> {
    Finished(c, Refused(code))
  }

  function AfterReading<E, S>(w: World<E, S>, c: AppendCommand<E, S>): Client<E, S> {
    match ReadingBranch(w.repo, STATE_BRANCH)
    case Err(_) => RefusedWith(c, TransportFailure)
    case Ok(Some(snapshot)) => Holding(c, snapshot)
    case Ok(None) => if c.expectedHeadSha != c.baseSha then RefusedWith(c, StaleState) else Creating(c)
  }

  function AfterCreating<E, S>(w: World<E, S>, i: nat, c: AppendCommand<E, S>, answerLost: bool): World<E, S> {
    match CreatingBranch(w.repo, STATE_BRANCH, c.baseSha)
    case Ok(repo) =>
      var answer := if answerLost then RefusedWith(c, TransportFailure)
                    else Holding(c, BranchSnapshot(c.baseSha, w.repo.commits[c.baseSha]));
      w.(repo := repo, start := c.baseSha, clients := w.clients[i := answer])
    case Err(Conflict) => w.(clients := w.clients[i := Rereading(c, VISIBILITY_ATTEMPTS)])
    case Err(_) => w.(clients := w.clients[i := RefusedWith(c, TransportFailure)])
  }

  function AfterRereading<E, S>(w: World<E, S>, c: AppendCommand<E, S>, attempts: nat, visible: bool): Client<E, S> {
    if attempts == 0 then RefusedWith(c, TransportFailure)
    else match ReadingBranch(w.repo, STATE_BRANCH)
         case Err(_) => RefusedWith(c, TransportFailure)
         case Ok(Some(snapshot)) => if visible then Holding(c, snapshot) else Rereading(c, attempts - 1)
         case Ok(None) => Rereading(c, attempts - 1)
  }

  function AfterCommitting<E, S>(w: World<E, S>, i: nat, c: AppendCommand<E, S>, snapshot: BranchSnapshot<E>,
                                 entry: Entry<E, S>, answerLost: bool): World<E, S>
  {
    match CommittingFiles(w.repo, STATE_BRANCH, snapshot.headSha, StateMessage(c.projectId), entry.updates)
    case Err(Conflict) => w.(clients := w.clients[i := RefusedWith(c, StaleState)])
    case Err(_) => w.(clients := w.clients[i := RefusedWith(c, TransportFailure)])
    case Ok((repo, sha)) =>
      var answer := if answerLost then RefusedWith(c, TransportFailure) else Finished(c, Committed(entry.state, sha));
      w.(repo := repo, log := w.log + [entry], clients := w.clients[i := answer])
  }

  function AfterVerdict<E, S>(s: Setting<E, S>, w: World<E, S>, i: nat, c: AppendCommand<E, S>, snapshot: BranchSnapshot<E>,
                              decoded: seq<StoredEvent<E>>, answerLost: bool): World<E, S>
  {
    match Evaluate(decoded, snapshot.files, snapshot.headSha, c, s.codec)
    case Refuse(code) => w.(clients := w.clients[i := RefusedWith(c, code)])
    case Replay(state) => w.(clients := w.clients[i := Finished(c, Replayed(state, snapshot.headSha))])
    case Write(batch, updates, state) => AfterCommitting(w, i, c, snapshot, Entry(c, batch, updates, state), answerLost)
  }

  ghost function AfterSettling<E(!new), S(!new)>(s: Setting<E, S>, w: World<E, S>, i: nat, c: AppendCommand<E, S>,
                                                 snapshot: BranchSnapshot<E>, answerLost: bool): World<E, S>
  {
    match Decoding(snapshot.files, c.repository, c.projectId)
    case Err(code) => w.(clients := w.clients[i := RefusedWith(c, code)])
    case Ok(decoded) => AfterVerdict(s, w, i, c, snapshot, decoded, answerLost)
  }

  function AfterBeginning<E, S>(s: Setting<E, S>, c: AppendCommand<E, S>): Client<E, S> {
    match ValidateInput(c, s.codec)
    case Err(code) => RefusedWith(c, code)
    case Ok(_) => Reading(c)
  }

  /** Another branch moves to a commit the store did not make, whatever files that holds. */
  function AfterPushing<E, S>(w: World<E, S>, branch: string, sha: CommitSha<E>, files: Files<E>): World<E, S> {
    if branch == STATE_BRANCH || !sha.Seed? || sha in w.repo.commits then w
    else w.(repo := MemoryRepository(w.repo.branches[branch := sha], w.repo.commits[sha := files]))
  }

  predicate IsFree<E, S>(w: World<E, S>, i: nat) {
    i in w.clients ==> w.clients[i].Finished?
  }

  /** A step that does not fit where its client is changes nothing. */
  ghost function After<E(!new), S(!new)>(s: Setting<E, S>, w: World<E, S>, step: Step<E, S>): World<E, S> {
    if step.Push? then AfterPushing(w, step.branch, step.sha, step.files)
    else if step.Begin? then
      if IsFree(w, step.client) && SameRepository(step.command.repository, s.repository)
      then w.(clients := w.clients[step.client := AfterBeginning(s, step.command)]) else w
    else if step.client !in w.clients then w
    else
      var i := step.client;
      var client := w.clients[i];
      var c := client.command;
      if step.Read? && client.Reading? then w.(clients := w.clients[i := AfterReading(w, c)])
      else if step.Create? && client.Creating? then AfterCreating(w, i, c, step.answerLost)
      else if step.Reread? && client.Rereading? then w.(clients := w.clients[i := AfterRereading(w, c, client.attempts, step.visible)])
      else if step.Settle? && client.Holding? then AfterSettling(s, w, i, c, client.snapshot, step.answerLost)
      else if step.Fail? && !client.Finished? then w.(clients := w.clients[i := RefusedWith(c, TransportFailure)])
      else w
  }

  ghost function Run<E(!new), S(!new)>(s: Setting<E, S>, w: World<E, S>, steps: seq<Step<E, S>>): World<E, S> {
    if steps == [] then w else After(s, Run(s, w, steps[..|steps| - 1]), steps[|steps| - 1])
  }

  /** No client has begun, and the store has made no commit; the state branch may exist, and any commit may hold any files. */
  ghost predicate IsInitial<E(!new), S(!new)>(w: World<E, S>) {
    && w.log == [] && w.clients == map[] && IsConsistent(w.repo) && HoldsSeedsOnly(w.repo)
    && (STATE_BRANCH in w.repo.branches ==> w.start == w.repo.branches[STATE_BRANCH])
  }

  ghost predicate HoldsSeedsOnly<E(!new)>(r: MemoryRepository<E>) {
    forall sha | sha in r.commits :: sha.Seed?
  }

  // ---------------------------------------------------------------------- invariant

  function HistoryOf<E, S>(w: World<E, S>): History<E, S>
    requires w.start in w.repo.commits
  {
    History(w.start, w.repo.commits[w.start], w.log)
  }

  /** The branch is where its history leads. */
  ghost predicate BranchFits<E(!new), S(!new)>(s: Setting<E, S>, w: World<E, S>) {
    if STATE_BRANCH !in w.repo.branches then w.log == [] && HoldsSeedsOnly(w.repo)
    else
      && w.start in w.repo.commits && w.start.Seed? && IsHistory(s, HistoryOf(w))
      && ReadingBranch(w.repo, STATE_BRANCH) == Ok(Some(BranchSnapshot(HeadAt(HistoryOf(w), |w.log|), FilesAt(HistoryOf(w), |w.log|))))
  }

  ghost predicate IsSnapshot<E(!new), S(!new)>(w: World<E, S>, snapshot: BranchSnapshot<E>, j: nat) {
    && STATE_BRANCH in w.repo.branches && w.start in w.repo.commits && j <= |w.log|
    && snapshot == BranchSnapshot(HeadAt(HistoryOf(w), j), FilesAt(HistoryOf(w), j))
  }

  ghost predicate IsCommit<E(!new), S(!new)>(w: World<E, S>, c: AppendCommand<E, S>, state: S, sha: CommitSha<E>, k: nat) {
    && STATE_BRANCH in w.repo.branches && w.start in w.repo.commits && k < |w.log|
    && w.log[k].command == c && w.log[k].state == state && sha == HeadAt(HistoryOf(w), k + 1)
  }

  ghost predicate IsReplay<E(!new), S(!new)>(s: Setting<E, S>, w: World<E, S>, c: AppendCommand<E, S>, state: S, sha: CommitSha<E>, j: nat) {
    && STATE_BRANCH in w.repo.branches && w.start in w.repo.commits && j <= |w.log| && sha == HeadAt(HistoryOf(w), j)
    && Evaluate(Stream(s, HistoryOf(w), j, c.projectId), FilesAt(HistoryOf(w), j), sha, c, s.codec) == Replay(state)
  }

  /** What a client was told is so. */
  ghost predicate IsTrue<E(!new), S(!new)>(s: Setting<E, S>, w: World<E, S>, c: AppendCommand<E, S>, outcome: Outcome<E, S>) {
    match outcome
    case Refused(_) => true
    case Committed(state, sha) =>
      exists k: nat :: IsCommit(w, c, state, sha, k)
    case Replayed(state, sha) =>
      exists j: nat :: IsReplay(s, w, c, state, sha, j)
  }

  ghost predicate ClientFits<E(!new), S(!new)>(s: Setting<E, S>, w: World<E, S>, client: Client<E, S>) {
    match client
    case Finished(c, outcome) => IsTrue(s, w, c, outcome)
    case Holding(c, snapshot) => IsValidInput(c, s.codec) && SameRepository(c.repository, s.repository) && exists j: nat :: IsSnapshot(w, snapshot, j)
    case _ => IsValidInput(client.command, s.codec) && SameRepository(client.command.repository, s.repository)
  }

  ghost predicate Inv<E(!new), S(!new)>(s: Setting<E, S>, w: World<E, S>) {
    && IsConsistent(w.repo) && BranchFits(s, w)
    && forall i {:trigger w.clients[i]} | i in w.clients :: ClientFits(s, w, w.clients[i])
  }

  // ------------------------------------------------------------------- steps keep it

  /** The branch is the same, or has one entry more. */
  ghost predicate Continues<E(!new), S(!new)>(w: World<E, S>, after: World<E, S>) {
    && STATE_BRANCH in w.repo.branches && STATE_BRANCH in after.repo.branches
    && w.start in w.repo.commits && after.start in after.repo.commits
    && after.start == w.start && after.repo.commits[after.start] == w.repo.commits[w.start]
    && (after.log == w.log || (|after.log| == |w.log| + 1 && after.log == w.log + [after.log[|w.log|]]))
  }

  lemma SamePast<E(!new), S(!new)>(s: Setting<E, S>, w: World<E, S>, after: World<E, S>, k: nat, projectId: string)
    requires Continues(w, after) && k <= |w.log|
    ensures HeadAt(HistoryOf(after), k) == HeadAt(HistoryOf(w), k) && FilesAt(HistoryOf(after), k) == FilesAt(HistoryOf(w), k)
    ensures Stream(s, HistoryOf(after), k, projectId) == Stream(s, HistoryOf(w), k, projectId)
  {
    if after.log != w.log {
      LogPrefix(HistoryOf(w), after.log[|w.log|], k);
      StreamPrefix(s, HistoryOf(w), after.log[|w.log|], k, projectId);
    }
  }

  lemma ClientStillFits<E(!new), S(!new)>(s: Setting<E, S>, w: World<E, S>, after: World<E, S>, client: Client<E, S>)
    requires Continues(w, after) && ClientFits(s, w, client)
    ensures ClientFits(s, after, client)
  {
    var c := client.command;
    if client.Holding? {
      var j: nat :| IsSnapshot(w, client.snapshot, j);
      SamePast(s, w, after, j, c.projectId);
      assert IsSnapshot(after, client.snapshot, j);
    } else if client.Finished? && client.outcome.Committed? {
      var k: nat :| IsCommit(w, c, client.outcome.state, client.outcome.headSha, k);
      SamePast(s, w, after, k + 1, c.projectId);
      assert after.log[k] == w.log[k];
      assert IsCommit(after, c, client.outcome.state, client.outcome.headSha, k);
    } else if client.Finished? && client.outcome.Replayed? {
      var j: nat :| IsReplay(s, w, c, client.outcome.state, client.outcome.headSha, j);
      SamePast(s, w, after, j, c.projectId);
      assert IsReplay(s, after, c, client.outcome.state, client.outcome.headSha, j);
    }
  }

  lemma NobodyHolds<E(!new), S(!new)>(s: Setting<E, S>, w: World<E, S>, after: World<E, S>, client: Client<E, S>)
    requires STATE_BRANCH !in w.repo.branches && ClientFits(s, w, client)
    ensures ClientFits(s, after, client)
  {
  }

  lemma OneClientMoves<E(!new), S(!new)>(s: Setting<E, S>, w: World<E, S>, i: nat, client: Client<E, S>)
    requires Inv(s, w) && ClientFits(s, w, client)
    ensures Inv(s, w.(clients := w.clients[i := client]))
  {
    var after := w.(clients := w.clients[i := client]);
    if w.start in w.repo.commits {
      assert HistoryOf(after) == HistoryOf(w);
    }
    forall k | k in after.clients ensures ClientFits(s, after, after.clients[k]) {
      var was := if k == i then client else w.clients[k];
      if STATE_BRANCH in w.repo.branches {
        ClientStillFits(s, w, after, was);
      } else {
        NobodyHolds(s, w, after, was);
      }
    }
  }

  lemma CurrentSnapshot<E(!new), S(!new)>(s: Setting<E, S>, w: World<E, S>, snapshot: BranchSnapshot<E>)
    requires BranchFits(s, w) && ReadingBranch(w.repo, STATE_BRANCH) == Ok(Some(snapshot))
    ensures IsSnapshot(w, snapshot, |w.log|)
  {
  }

  /** Whatever is read decodes to the batches found there, or never decodes at all. */
  lemma SnapshotDecodes<E(!new), S(!new)>(s: Setting<E, S>, w: World<E, S>, snapshot: BranchSnapshot<E>, j: nat, repository: Repository, projectId: string)
    requires BranchFits(s, w) && IsSnapshot(w, snapshot, j) && SameRepository(repository, s.repository)
    ensures if IsReadable(s, HistoryOf(w), projectId)
            then Decoding(snapshot.files, repository, projectId) == Ok(Stream(s, HistoryOf(w), j, projectId))
            else Decoding(snapshot.files, repository, projectId).Err?
  {
    HistoryDecodes(s, HistoryOf(w), j, projectId);
    SameRepositoryReads(snapshot.files, s.repository, repository, projectId);
    if IsReadable(s, HistoryOf(w), projectId) {
      DecodingMeaning(snapshot.files, s.repository, projectId, Stream(s, HistoryOf(w), j, projectId));
    }
  }

  lemma CreateKeepsInv<E(!new), S(!new)>(s: Setting<E, S>, w: World<E, S>, i: nat, c: AppendCommand<E, S>, answerLost: bool)
    requires Inv(s, w) && IsValidInput(c, s.codec) && SameRepository(c.repository, s.repository)
    ensures Inv(s, AfterCreating(w, i, c, answerLost))
  {
    var after := AfterCreating(w, i, c, answerLost);
    if CreatingBranch(w.repo, STATE_BRANCH, c.baseSha).Err? {
      OneClientMoves(s, w, i, after.clients[i]);
    } else {
      CreatingEvolves(w.repo, STATE_BRANCH, c.baseSha);
      assert BranchFits(s, after);
      if after.clients[i].Holding? {
        assert IsSnapshot(after, after.clients[i].snapshot, 0);
      }
      forall k | k in after.clients ensures ClientFits(s, after, after.clients[k]) {
        if k != i {
          NobodyHolds(s, w, after, w.clients[k]);
        }
      }
    }
  }

  /** What compare-and-swap admits was decided on the very head it replaces. */
  lemma CommitIsDecided<E(!new), S(!new)>(s: Setting<E, S>, w: World<E, S>, c: AppendCommand<E, S>, snapshot: BranchSnapshot<E>, j: nat, e: Entry<E, S>)
    requires BranchFits(s, w) && IsSnapshot(w, snapshot, j) && IsValidInput(c, s.codec) && SameRepository(c.repository, s.repository)
    requires Evaluate(Stream(s, HistoryOf(w), j, c.projectId), snapshot.files, snapshot.headSha, c, s.codec) == Write(e.batch, e.updates, e.state)
    requires e.command == c && w.repo.branches[STATE_BRANCH] == snapshot.headSha && IsReadable(s, HistoryOf(w), c.projectId)
    ensures snapshot.files == FilesAt(HistoryOf(w), |w.log|)
    ensures IsHistory(s, HistoryOf(w).(log := w.log + [e]))
  {
    var h := HistoryOf(w);
    HeadsNameFiles(h, j, |w.log|);
    CurrentSnapshot(s, w, snapshot);
    SnapshotDecodes(s, w, snapshot, j, c.repository, c.projectId);
    SnapshotDecodes(s, w, snapshot, |w.log|, c.repository, c.projectId);
    HistoryExtends(s, h, e);
  }

  lemma BranchAfterCommit<E(!new), S(!new)>(s: Setting<E, S>, w: World<E, S>, e: Entry<E, S>, after: World<E, S>)
    requires IsConsistent(w.repo) && BranchFits(s, w) && STATE_BRANCH in w.repo.branches
    requires IsHistory(s, HistoryOf(w).(log := w.log + [e]))
    requires var moved := CommittingFiles(w.repo, STATE_BRANCH, w.repo.branches[STATE_BRANCH], StateMessage(e.command.projectId), e.updates);
             moved.Ok? && after.repo == moved.value.0
    requires after.start == w.start && after.log == w.log + [e]
    ensures IsConsistent(after.repo) && BranchFits(s, after) && Continues(w, after)
    ensures after.repo.branches[STATE_BRANCH] == HeadAt(HistoryOf(after), |w.log| + 1)
  {
    var h := HistoryOf(w);
    CommittingEvolves(w.repo, STATE_BRANCH, w.repo.branches[STATE_BRANCH], StateMessage(e.command.projectId), e.updates);
    assert HistoryOf(after) == h.(log := w.log + [e]);
    LogPrefix(h, e, |w.log|);
  }

  lemma CommitKeepsInv<E(!new), S(!new)>(s: Setting<E, S>, w: World<E, S>, i: nat, c: AppendCommand<E, S>, snapshot: BranchSnapshot<E>, j: nat,
                                         e: Entry<E, S>, answerLost: bool)
    requires Inv(s, w) && IsSnapshot(w, snapshot, j) && IsValidInput(c, s.codec) && SameRepository(c.repository, s.repository)
    requires Evaluate(Stream(s, HistoryOf(w), j, c.projectId), snapshot.files, snapshot.headSha, c, s.codec) == Write(e.batch, e.updates, e.state)
    requires e.command == c && IsReadable(s, HistoryOf(w), c.projectId)
    ensures Inv(s, AfterCommitting(w, i, c, snapshot, e, answerLost))
  {
    var after := AfterCommitting(w, i, c, snapshot, e, answerLost);
    if CommittingFiles(w.repo, STATE_BRANCH, snapshot.headSha, StateMessage(c.projectId), e.updates).Err? {
      OneClientMoves(s, w, i, after.clients[i]);
    } else {
      CommitIsDecided(s, w, c, snapshot, j, e);
      BranchAfterCommit(s, w, e, after);
      if !answerLost {
        assert IsCommit(after, c, e.state, after.clients[i].outcome.headSha, |w.log|);
      }
      forall k | k in after.clients ensures ClientFits(s, after, after.clients[k]) {
        if k != i {
          ClientStillFits(s, w, after, w.clients[k]);
        }
      }
    }
  }

  lemma SettleKeepsInv<E(!new), S(!new)>(s: Setting<E, S>, w: World<E, S>, i: nat, c: AppendCommand<E, S>, snapshot: BranchSnapshot<E>, answerLost: bool)
    requires Inv(s, w) && ClientFits(s, w, Holding(c, snapshot))
    ensures Inv(s, AfterSettling(s, w, i, c, snapshot, answerLost))
  {
    var j: nat :| IsSnapshot(w, snapshot, j);
    SnapshotDecodes(s, w, snapshot, j, c.repository, c.projectId);
    var decoding := Decoding(snapshot.files, c.repository, c.projectId);
    if decoding.Err? {
      OneClientMoves(s, w, i, RefusedWith(c, decoding.error));
      return;
    }
    var verdict := Evaluate(Stream(s, HistoryOf(w), j, c.projectId), snapshot.files, snapshot.headSha, c, s.codec);
    match verdict {
      case Write(batch, updates, state) =>
        CommitKeepsInv(s, w, i, c, snapshot, j, Entry(c, batch, updates, state), answerLost);
      case Replay(state) =>
        assert IsReplay(s, w, c, state, snapshot.headSha, j);
        OneClientMoves(s, w, i, Finished(c, Replayed(state, snapshot.headSha)));
      case Refuse(code) =>
        OneClientMoves(s, w, i, RefusedWith(c, code));
    }
  }

  lemma ReadKeepsInv<E(!new), S(!new)>(s: Setting<E, S>, w: World<E, S>, i: nat, client: Client<E, S>)
    requires Inv(s, w) && IsValidInput(client.command, s.codec) && SameRepository(client.command.repository, s.repository)
    requires client.Holding? ==> ReadingBranch(w.repo, STATE_BRANCH) == Ok(Some(client.snapshot))
    requires client.Finished? ==> client.outcome.Refused?
    ensures Inv(s, w.(clients := w.clients[i := client]))
  {
    if client.Holding? {
      CurrentSnapshot(s, w, client.snapshot);
    }
    OneClientMoves(s, w, i, client);
  }

  lemma PushKeepsInv<E(!new), S(!new)>(s: Setting<E, S>, w: World<E, S>, branch: string, sha: CommitSha<E>, files: Files<E>)
    requires Inv(s, w)
    ensures Inv(s, AfterPushing(w, branch, sha, files))
  {
    var after := AfterPushing(w, branch, sha, files);
    if STATE_BRANCH in w.repo.branches {
      assert HistoryOf(after) == HistoryOf(w);
    }
    forall k | k in after.clients ensures ClientFits(s, after, after.clients[k]) {
      if STATE_BRANCH in w.repo.branches {
        ClientStillFits(s, w, after, w.clients[k]);
      } else {
        NobodyHolds(s, w, after, w.clients[k]);
      }
    }
  }

  lemma StepKeepsInv<E(!new), S(!new)>(s: Setting<E, S>, w: World<E, S>, step: Step<E, S>)
    requires Inv(s, w)
    ensures Inv(s, After(s, w, step))
  {
    if step.Push? {
      PushKeepsInv(s, w, step.branch, step.sha, step.files);
    } else if step.Begin? {
      if IsFree(w, step.client) && SameRepository(step.command.repository, s.repository) {
        OneClientMoves(s, w, step.client, AfterBeginning(s, step.command));
      }
    } else if step.client in w.clients {
      var i := step.client;
      var client := w.clients[i];
      var c := client.command;
      assert ClientFits(s, w, client);
      if step.Read? && client.Reading? {
        ReadKeepsInv(s, w, i, AfterReading(w, c));
      } else if step.Create? && client.Creating? {
        CreateKeepsInv(s, w, i, c, step.answerLost);
      } else if step.Reread? && client.Rereading? {
        ReadKeepsInv(s, w, i, AfterRereading(w, c, client.attempts, step.visible));
      } else if step.Settle? && client.Holding? {
        SettleKeepsInv(s, w, i, c, client.snapshot, step.answerLost);
      } else if step.Fail? && !client.Finished? {
        OneClientMoves(s, w, i, RefusedWith(c, TransportFailure));
      }
    }
  }

  lemma {:induction false} RunKeepsInv<E(!new), S(!new)>(s: Setting<E, S>, w: World<E, S>, steps: seq<Step<E, S>>)
    requires Inv(s, w)
    ensures Inv(s, Run(s, w, steps))
  {
    if steps != [] {
      RunKeepsInv(s, w, steps[..|steps| - 1]);
      StepKeepsInv(s, Run(s, w, steps[..|steps| - 1]), steps[|steps| - 1]);
    }
  }

  /** The invariant holds after every run, whatever the clients do and in whatever order, from whatever was there before. */
  lemma EveryRunIsSafe<E(!new), S(!new)>(s: Setting<E, S>, w: World<E, S>, steps: seq<Step<E, S>>)
    requires IsInitial(w)
    ensures Inv(s, Run(s, w, steps))
  {
    RunKeepsInv(s, w, steps);
  }

  // --------------------------------------------------------------------- main results

  /**
   * At the end of every run the log is a history that leads to the head, each batch decided on the head before it. A
   * Project that was readable at the start decodes to what was there and its findable batches in commit order, and that
   * is everything committed for it if and only if all of it was dated in the years 0 to 9999.
   */
  lemma HeadDecodesToCommits<E(!new), S(!new)>(s: Setting<E, S>, w: World<E, S>, steps: seq<Step<E, S>>, projectId: string)
    requires IsInitial(w)
    ensures var end := Run(s, w, steps);
            STATE_BRANCH in end.repo.branches ==>
              && end.start in end.repo.commits && IsHistory(s, HistoryOf(end))
              && end.repo.branches[STATE_BRANCH] == HeadAt(HistoryOf(end), |end.log|)
              && end.repo.branches[STATE_BRANCH] in end.repo.commits
              && var files := end.repo.commits[end.repo.branches[STATE_BRANCH]];
              && (Decoding(files, s.repository, projectId).Ok? <==> IsReadable(s, HistoryOf(end), projectId))
              && (IsReadable(s, HistoryOf(end), projectId) ==>
                    && Decodes(files, s.repository, projectId, Stream(s, HistoryOf(end), |end.log|, projectId))
                    && (Decodes(files, s.repository, projectId, Everything(s, HistoryOf(end), |end.log|, projectId)) <==>
                        AllFindable(HistoryOf(end), |end.log|, projectId)))
  {
    EveryRunIsSafe(s, w, steps);
    var end := Run(s, w, steps);
    if STATE_BRANCH in end.repo.branches {
      var files := end.repo.commits[end.repo.branches[STATE_BRANCH]];
      HistoryDecodes(s, HistoryOf(end), |end.log|, projectId);
      if IsReadable(s, HistoryOf(end), projectId) {
        EverythingIsReadBack(s, HistoryOf(end), |end.log|, projectId);
        DecodingMeaning(files, s.repository, projectId, Stream(s, HistoryOf(end), |end.log|, projectId));
      }
    }
  }

  /** Once a command of the years 0 to 9999 was committed to a Project, the head replays to the state last committed for it. */
  lemma HeadReplays<E(!new), S(!new)>(s: Setting<E, S>, w: World<E, S>, steps: seq<Step<E, S>>, i: nat) returns (k: nat)
    requires IsInitial(w)
    requires var log := Run(s, w, steps).log; i < |log| && FindableYear(log[i].command.occurredAt)
    ensures var end := Run(s, w, steps); var projectId := end.log[i].command.projectId;
            && STATE_BRANCH in end.repo.branches && end.repo.branches[STATE_BRANCH] in end.repo.commits
            && var decoding := Decoding(end.repo.commits[end.repo.branches[STATE_BRANCH]], s.repository, projectId);
            decoding.Ok? && i <= k < |end.log| && end.log[k].command.projectId == projectId
            && s.codec.replay(EventsOf(decoding.value)) == Ok(end.log[k].state)
  {
    var end := Run(s, w, steps);
    var projectId := end.log[i].command.projectId;
    EveryRunIsSafe(s, w, steps);
    HeadDecodesToCommits(s, w, steps, projectId);
    var h := HistoryOf(end);
    assert IsDecided(s, h, i);
    CommittedOnItsPrefix(s, h, i);
    k := LatestEntry(s, h, i, |end.log|, projectId);
    DecodingMeaning(end.repo.commits[end.repo.branches[STATE_BRANCH]], s.repository, projectId, Stream(s, h, |end.log|, projectId));
  }

  /**
   * At the end of every run the files for readers of a Project are those its codec materializes from the state and the
   * events last committed to it; after a year of four digits these are the very events the head decodes to.
   */
  lemma HeadHoldsModels<E(!new), S(!new)>(s: Setting<E, S>, w: World<E, S>, steps: seq<Step<E, S>>, k: nat)
    returns (models: seq<(RelativePath, string)>)
    requires IsInitial(w)
    requires var end := Run(s, w, steps);
             k < |end.log| && forall l | k < l < |end.log| :: end.log[l].command.projectId != end.log[k].command.projectId
    ensures var end := Run(s, w, steps); var c := end.log[k].command;
            && STATE_BRANCH in end.repo.branches && end.repo.branches[STATE_BRANCH] in end.repo.commits && end.start in end.repo.commits
            && var files := end.repo.commits[end.repo.branches[STATE_BRANCH]];
            && var events := Stream(s, HistoryOf(end), k, c.projectId) + end.log[k].batch;
            && s.codec.materialize(end.log[k].state, events) == Ok(models) && HoldsModels(files, c.projectId, models)
            && (FindableYear(c.occurredAt) ==> Decoding(files, s.repository, c.projectId) == Ok(events))
  {
    var end := Run(s, w, steps);
    EveryRunIsSafe(s, w, steps);
    var h := HistoryOf(end);
    var projectId := end.log[k].command.projectId;
    HeadDecodesToCommits(s, w, steps, projectId);
    models := ModelsOfLastEntry(s, h, k, |end.log|);
    var events := Stream(s, h, k, projectId) + end.log[k].batch;
    if FindableYear(end.log[k].command.occurredAt) {
      assert IsDecided(s, h, k);
      QuietStretch(s, h, k + 1, |end.log|, projectId);
      DecodingMeaning(end.repo.commits[end.repo.branches[STATE_BRANCH]], s.repository, projectId, events);
    }
  }

  /**
   * However often clients ask, a Project gets a second batch for an idempotency key only behind one dated outside the
   * years 0 to 9999, and none for a key that was there at the start.
   */
  lemma OneBatchPerKeyInEveryRun<E(!new), S(!new)>(s: Setting<E, S>, w: World<E, S>, steps: seq<Step<E, S>>, j: nat, k: nat)
    requires IsInitial(w)
    requires var log := Run(s, w, steps).log; j < k < |log| && log[j].command.projectId == log[k].command.projectId
    ensures var end := Run(s, w, steps); var first, second := end.log[j].command, end.log[k].command;
            && (first.idempotencyKey == second.idempotencyKey ==> !FindableYear(first.occurredAt))
            && end.start in end.repo.commits
            && !HasKey(Start(s, HistoryOf(end), second.projectId), second.idempotencyKey)
  {
    EveryRunIsSafe(s, w, steps);
    var h := HistoryOf(Run(s, w, steps));
    AtMostOneBatchPerKey(s, h, j, k);
    NewKey(s, h, k);
  }

  /** Who was told of a commit finds it in the log; who was told of a replay, an earlier batch under the same key. */
  lemma AnswersAreTrue<E(!new), S(!new)>(s: Setting<E, S>, w: World<E, S>, steps: seq<Step<E, S>>, i: nat)
    requires IsInitial(w)
    requires var end := Run(s, w, steps); i in end.clients && end.clients[i].Finished?
    ensures var end := Run(s, w, steps); IsTrue(s, end, end.clients[i].command, end.clients[i].outcome)
  {
    EveryRunIsSafe(s, w, steps);
  }

  lemma LogOnlyGrows<E(!new), S(!new)>(s: Setting<E, S>, w: World<E, S>, step: Step<E, S>)
    ensures w.log <= After(s, w, step).log
  {
  }

  /** What was committed stays committed, in its place. */
  lemma {:induction false} CommitsArePermanent<E(!new), S(!new)>(s: Setting<E, S>, w: World<E, S>, steps: seq<Step<E, S>>, n: nat)
    requires n <= |steps|
    ensures Run(s, w, steps[..n]).log <= Run(s, w, steps).log
    decreases |steps|
  {
    if n < |steps| {
      var before := steps[..|steps| - 1];
      assert before[..n] == steps[..n];
      CommitsArePermanent(s, w, before, n);
      LogOnlyGrows(s, Run(s, w, before), steps[|steps| - 1]);
    } else {
      assert steps[..n] == steps;
    }
  }

  // --------------------------------------------------------------------------- retries

  lemma CommitContinues<E(!new), S(!new)>(w: World<E, S>, i: nat, c: AppendCommand<E, S>, snapshot: BranchSnapshot<E>, e: Entry<E, S>, answerLost: bool)
    requires STATE_BRANCH in w.repo.branches && w.start in w.repo.commits && w.start.Seed?
    ensures Continues(w, AfterCommitting(w, i, c, snapshot, e, answerLost))
  {
  }

  lemma SettleContinues<E(!new), S(!new)>(s: Setting<E, S>, w: World<E, S>, i: nat, c: AppendCommand<E, S>, snapshot: BranchSnapshot<E>, answerLost: bool)
    requires STATE_BRANCH in w.repo.branches && w.start in w.repo.commits && w.start.Seed?
    ensures Continues(w, AfterSettling(s, w, i, c, snapshot, answerLost))
  {
    var decoding := Decoding(snapshot.files, c.repository, c.projectId);
    if decoding.Ok? {
      var verdict := Evaluate(decoding.value, snapshot.files, snapshot.headSha, c, s.codec);
      if verdict.Write? {
        CommitContinues(w, i, c, snapshot, Entry(c, verdict.batch, verdict.updates, verdict.state), answerLost);
      }
    }
  }

  lemma StepContinues<E(!new), S(!new)>(s: Setting<E, S>, w: World<E, S>, step: Step<E, S>)
    requires STATE_BRANCH in w.repo.branches && w.start in w.repo.commits && w.start.Seed?
    ensures Continues(w, After(s, w, step))
  {
    if step.Settle? && step.client in w.clients && w.clients[step.client].Holding? {
      var i := step.client;
      SettleContinues(s, w, i, w.clients[i].command, w.clients[i].snapshot, step.answerLost);
    }
  }

  lemma SettlingLeavesOthers<E(!new), S(!new)>(s: Setting<E, S>, w: World<E, S>, k: nat, c: AppendCommand<E, S>, snapshot: BranchSnapshot<E>,
                                               answerLost: bool, i: nat)
    requires i in w.clients && k != i
    ensures i in AfterSettling(s, w, k, c, snapshot, answerLost).clients
            && AfterSettling(s, w, k, c, snapshot, answerLost).clients[i] == w.clients[i]
  {
    var decoding := Decoding(snapshot.files, c.repository, c.projectId);
    if decoding.Ok? {
      var verdict := Evaluate(decoding.value, snapshot.files, snapshot.headSha, c, s.codec);
    }
  }

  lemma OthersLeaveClient<E(!new), S(!new)>(s: Setting<E, S>, w: World<E, S>, step: Step<E, S>, i: nat)
    requires i in w.clients && !IsStepOf(step, i)
    ensures i in After(s, w, step).clients && After(s, w, step).clients[i] == w.clients[i]
  {
    if step.Settle? && step.client in w.clients && w.clients[step.client].Holding? {
      SettlingLeavesOthers(s, w, step.client, w.clients[step.client].command, w.clients[step.client].snapshot, step.answerLost, i);
    }
  }

  lemma SnapshotStays<E(!new), S(!new)>(s: Setting<E, S>, w: World<E, S>, after: World<E, S>, snapshot: BranchSnapshot<E>, j: nat)
    requires Continues(w, after) && IsSnapshot(w, snapshot, j)
    ensures IsSnapshot(after, snapshot, j) && forall k | 0 <= k < |w.log| :: after.log[k] == w.log[k]
  {
    SamePast(s, w, after, j, "");
  }

  /** While others move, a waiting client keeps its snapshot, and that stays a point of the history. */
  lemma {:induction false} WaitingClientKeepsSnapshot<E(!new), S(!new)>(s: Setting<E, S>, w: World<E, S>, steps: seq<Step<E, S>>, i: nat, j: nat)
    requires Inv(s, w) && i in w.clients && w.clients[i].Holding? && IsSnapshot(w, w.clients[i].snapshot, j)
    requires forall n | 0 <= n < |steps| :: !IsStepOf(steps[n], i)
    ensures var end := Run(s, w, steps);
            && Inv(s, end) && i in end.clients && end.clients[i] == w.clients[i] && IsSnapshot(end, w.clients[i].snapshot, j)
            && |w.log| <= |end.log| && forall k | 0 <= k < |w.log| :: end.log[k] == w.log[k]
  {
    if steps != [] {
      var before := Run(s, w, steps[..|steps| - 1]);
      WaitingClientKeepsSnapshot(s, w, steps[..|steps| - 1], i, j);
      OtherClientsStep(s, before, steps[|steps| - 1], i, j);
    }
  }

  lemma OtherClientsStep<E(!new), S(!new)>(s: Setting<E, S>, w: World<E, S>, step: Step<E, S>, i: nat, j: nat)
    requires Inv(s, w) && i in w.clients && w.clients[i].Holding? && IsSnapshot(w, w.clients[i].snapshot, j) && !IsStepOf(step, i)
    ensures var after := After(s, w, step);
            && Inv(s, after) && i in after.clients && after.clients[i] == w.clients[i] && IsSnapshot(after, w.clients[i].snapshot, j)
            && |w.log| <= |after.log| && forall k | 0 <= k < |w.log| :: after.log[k] == w.log[k]
  {
    StepKeepsInv(s, w, step);
    StepContinues(s, w, step);
    OthersLeaveClient(s, w, step, i);
    SnapshotStays(s, w, After(s, w, step), w.clients[i].snapshot, j);
  }

  /** What a client makes of a verdict that writes nothing. */
  lemma SettlingAnswers<E(!new), S(!new)>(s: Setting<E, S>, w: World<E, S>, i: nat, j: nat, answerLost: bool)
    requires Inv(s, w) && i in w.clients && w.clients[i].Holding? && IsSnapshot(w, w.clients[i].snapshot, j)
    requires IsReadable(s, HistoryOf(w), w.clients[i].command.projectId)
    ensures var c, snapshot, after := w.clients[i].command, w.clients[i].snapshot, After(s, w, Settle(i, answerLost));
            match Evaluate(Stream(s, HistoryOf(w), j, c.projectId), snapshot.files, snapshot.headSha, c, s.codec)
            case Refuse(code) => after == w.(clients := w.clients[i := RefusedWith(c, code)])
            case Replay(state) => after == w.(clients := w.clients[i := Finished(c, Replayed(state, snapshot.headSha))])
            case Write(batch, updates, state) => after == AfterCommitting(w, i, c, snapshot, Entry(c, batch, updates, state), answerLost)
  {
    var client := w.clients[i];
    assert ClientFits(s, w, client);
    SnapshotDecodes(s, w, client.snapshot, j, client.command.repository, client.command.projectId);
  }

  /** A client that read the branch after a commit learns of it when it settles. */
  lemma SettlingKnowsCommits<E(!new), S(!new)>(s: Setting<E, S>, w: World<E, S>, i: nat, j: nat, k: nat, answerLost: bool) returns (l: nat)
    requires Inv(s, w) && i in w.clients && w.clients[i].Holding? && IsSnapshot(w, w.clients[i].snapshot, j) && k < j
    requires var c, made := w.clients[i].command, w.log[k].command;
             c.projectId == made.projectId && c.idempotencyKey == made.idempotencyKey && FindableYear(made.occurredAt)
    ensures k <= l < j
    ensures var c, after := w.clients[i].command, After(s, w, Settle(i, answerLost));
            && after.log == w.log && after.repo == w.repo && i in after.clients
            && after.clients[i] == Finished(c, if c.command == w.log[k].command.command
                                               then Replayed(w.log[l].state, w.clients[i].snapshot.headSha)
                                               else Refused(IdempotencyConflict))
  {
    var c := w.clients[i].command;
    assert IsDecided(s, HistoryOf(w), k);
    SettlingAnswers(s, w, i, j, answerLost);
    l := RetryIsReplay(s, HistoryOf(w), k, j, c);
  }

  /** While others move, a client that has yet to read stays where it is. */
  lemma {:induction false} WaitingClientStaysReading<E(!new), S(!new)>(s: Setting<E, S>, w: World<E, S>, steps: seq<Step<E, S>>, i: nat)
    requires Inv(s, w) && STATE_BRANCH in w.repo.branches && i in w.clients && w.clients[i].Reading?
    requires forall n | 0 <= n < |steps| :: !IsStepOf(steps[n], i)
    ensures var end := Run(s, w, steps);
            && Inv(s, end) && STATE_BRANCH in end.repo.branches && i in end.clients && end.clients[i] == w.clients[i]
            && w.log <= end.log
  {
    if steps != [] {
      var before := Run(s, w, steps[..|steps| - 1]);
      var step := steps[|steps| - 1];
      WaitingClientStaysReading(s, w, steps[..|steps| - 1], i);
      StepKeepsInv(s, before, step);
      StepContinues(s, before, step);
      OthersLeaveClient(s, before, step, i);
      LogOnlyGrows(s, before, step);
    }
  }

  lemma ReadingHolds<E(!new), S(!new)>(s: Setting<E, S>, w: World<E, S>, i: nat)
    requires Inv(s, w) && STATE_BRANCH in w.repo.branches && i in w.clients && w.clients[i].Reading?
    ensures var after := After(s, w, Read(i));
            && Inv(s, after) && after.log == w.log && i in after.clients
            && after.clients[i].Holding? && after.clients[i].command == w.clients[i].command
            && IsSnapshot(after, after.clients[i].snapshot, |w.log|)
  {
    var c := w.clients[i].command;
    StepKeepsInv(s, w, Read(i));
    CurrentSnapshot(s, w, AfterReading(w, c).snapshot);
    SnapshotStays(s, w, After(s, w, Read(i)), AfterReading(w, c).snapshot, |w.log|);
  }

  lemma BeginningReads<E(!new), S(!new)>(s: Setting<E, S>, w: World<E, S>, i: nat, c: AppendCommand<E, S>)
    requires Inv(s, w) && IsFree(w, i) && ValidateInput(c, s.codec).Ok? && SameRepository(c.repository, s.repository)
    ensures var after := After(s, w, Begin(i, c));
            Inv(s, after) && after.log == w.log && after.repo == w.repo && i in after.clients && after.clients[i] == Reading(c)
  {
    StepKeepsInv(s, w, Begin(i, c));
  }

  /** A client begins and reads, and the others may do anything before and after the reading. */
  ghost function Waiting<E(!new), S(!new)>(s: Setting<E, S>, reached: World<E, S>, i: nat, c: AppendCommand<E, S>,
                                           early: seq<Step<E, S>>, late: seq<Step<E, S>>): World<E, S>
  {
    Run(s, After(s, Run(s, After(s, reached, Begin(i, c)), early), Read(i)), late)
  }

  lemma WaitingKnows<E(!new), S(!new)>(s: Setting<E, S>, reached: World<E, S>, i: nat, c: AppendCommand<E, S>,
                                       early: seq<Step<E, S>>, late: seq<Step<E, S>>) returns (j: nat)
    requires Inv(s, reached) && STATE_BRANCH in reached.repo.branches
    requires IsFree(reached, i) && ValidateInput(c, s.codec).Ok? && SameRepository(c.repository, s.repository)
    requires forall n | 0 <= n < |early| :: !IsStepOf(early[n], i)
    requires forall n | 0 <= n < |late| :: !IsStepOf(late[n], i)
    ensures var waiting := Waiting(s, reached, i, c, early, late);
            && Inv(s, waiting) && i in waiting.clients && waiting.clients[i].Holding? && waiting.clients[i].command == c
            && |reached.log| <= j && IsSnapshot(waiting, waiting.clients[i].snapshot, j)
            && |reached.log| <= |waiting.log| && forall k | 0 <= k < |reached.log| :: waiting.log[k] == reached.log[k]
  {
    BeginningReads(s, reached, i, c);
    var begun := After(s, reached, Begin(i, c));
    WaitingClientStaysReading(s, begun, early, i);
    var reading := Run(s, begun, early);
    ReadingHolds(s, reading, i);
    j := |reading.log|;
    WaitingClientKeepsSnapshot(s, After(s, reading, Read(i)), late, i, j);
  }

  /**
   * After a commit dated in the years 0 to 9999, in every run, whoever asks under its key gets the right answer: the same
   * command is told it was done, never that it came too late, and another command is refused; nothing is committed
   * again. The others may do anything between the beginning, the reading and the settling.
   */
  lemma RetryIsAnswered<E(!new), S(!new)>(s: Setting<E, S>, w: World<E, S>, before: seq<Step<E, S>>, i: nat, c: AppendCommand<E, S>,
                                          early: seq<Step<E, S>>, late: seq<Step<E, S>>, k: nat, answerLost: bool) returns (l: nat)
    requires IsInitial(w)
    requires forall n | 0 <= n < |early| :: !IsStepOf(early[n], i)
    requires forall n | 0 <= n < |late| :: !IsStepOf(late[n], i)
    requires var reached := Run(s, w, before);
             && k < |reached.log| && IsFree(reached, i)
             && c.projectId == reached.log[k].command.projectId && c.idempotencyKey == reached.log[k].command.idempotencyKey
             && FindableYear(reached.log[k].command.occurredAt)
    requires ValidateInput(c, s.codec).Ok? && SameRepository(c.repository, s.repository)
    ensures var reached := Run(s, w, before);
            var waiting := Waiting(s, reached, i, c, early, late);
            var end := After(s, waiting, Settle(i, answerLost));
            && k <= l < |end.log| && end.log == waiting.log && end.repo == waiting.repo && i in end.clients
            && (c.command == reached.log[k].command.command ==>
                  end.clients[i].Finished? && end.clients[i].outcome.Replayed? && end.clients[i].outcome.state == end.log[l].state)
            && (c.command != reached.log[k].command.command ==> end.clients[i] == Finished(c, Refused(IdempotencyConflict)))
  {
    var reached := Run(s, w, before);
    EveryRunIsSafe(s, w, before);
    var j := WaitingKnows(s, reached, i, c, early, late);
    l := SettlingKnowsCommits(s, Waiting(s, reached, i, c, early, late), i, j, k, answerLost);
  }
}

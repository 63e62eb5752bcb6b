/** Which histories runs can have: all of them. */
module StoreRuns {
  import opened Prelude
  import opened StoreTypes
  import opened StoredBatches
  import opened StateStore
  import opened StoreAppend
  import opened AppendDecode
  import opened StoreHistory
  import opened StoreYears
  import opened Transport
  import opened StoreProtocol

  function Prefix<E, S>(h: History<E, S>, n: nat): History<E, S>
    requires n <= |h.log|
  {
    h.(log := h.log[..n])
  }

  lemma {:induction false} PrefixIsSame<E(!new), S(!new)>(s: Setting<E, S>, h: History<E, S>, n: nat, k: nat, projectId: string)
    requires k <= n <= |h.log|
    ensures FilesAt(Prefix(h, n), k) == FilesAt(h, k) && HeadAt(Prefix(h, n), k) == HeadAt(h, k)
    ensures Stream(s, Prefix(h, n), k, projectId) == Stream(s, h, k, projectId)
  {
    if k > 0 {
      PrefixIsSame(s, h, n, k - 1, projectId);
    }
  }

  /** The branch stands where the first `n` entries of the history lead, and client 0 is free. */
  ghost predicate StandsAt<E(!new), S(!new)>(s: Setting<E, S>, w: World<E, S>, h: History<E, S>, n: nat)
    requires n <= |h.log|
  {
    && Inv(s, w) && STATE_BRANCH in w.repo.branches && w.start in w.repo.commits && HistoryOf(w) == Prefix(h, n) && IsFree(w, 0)
  }

  function OneAppend<E, S>(c: AppendCommand<E, S>): seq<Step<E, S>> {
    [Begin(0, c), Read(0), Settle(0, false)]
  }

  lemma RunOneMore<E(!new), S(!new)>(s: Setting<E, S>, w: World<E, S>, steps: seq<Step<E, S>>, step: Step<E, S>)
    ensures Run(s, w, steps + [step]) == After(s, Run(s, w, steps), step)
  {
    assert (steps + [step])[..|steps|] == steps;
  }

  lemma RunThreeMore<E(!new), S(!new)>(s: Setting<E, S>, w: World<E, S>, steps: seq<Step<E, S>>, c: AppendCommand<E, S>)
    ensures Run(s, w, steps + OneAppend(c)) == After(s, After(s, After(s, Run(s, w, steps), Begin(0, c)), Read(0)), Settle(0, false))
  {
    RunOneMore(s, w, steps, Begin(0, c));
    RunOneMore(s, w, steps + [Begin(0, c)], Read(0));
    RunOneMore(s, w, steps + [Begin(0, c)] + [Read(0)], Settle(0, false));
    assert steps + OneAppend(c) == steps + [Begin(0, c)] + [Read(0)] + [Settle(0, false)];
  }

  /** The commit of an undisturbed client goes through. */
  lemma CommitLands<E(!new), S(!new)>(s: Setting<E, S>, w: World<E, S>, h: History<E, S>, n: nat, snapshot: BranchSnapshot<E>)
    requires BranchFits(s, w) && STATE_BRANCH in w.repo.branches && w.start in w.repo.commits && n < |h.log| && HistoryOf(w) == Prefix(h, n)
    requires IsSnapshot(w, snapshot, |w.log|)
    ensures var e := h.log[n]; var after := AfterCommitting(w, 0, e.command, snapshot, e, false);
            STATE_BRANCH in after.repo.branches && after.start == w.start && w.start in after.repo.commits && HistoryOf(after) == Prefix(h, n + 1)
            && IsFree(after, 0)
  {
    assert h.log[..n + 1] == h.log[..n] + [h.log[n]];
  }

  /** A client that begins, reads and settles undisturbed commits what the history has next. */
  lemma SettlingReachesNext<E(!new), S(!new)>(s: Setting<E, S>, held: World<E, S>, h: History<E, S>, n: nat)
    requires IsHistory(s, h) && n < |h.log| && Inv(s, held) && STATE_BRANCH in held.repo.branches && held.start in held.repo.commits
    requires HistoryOf(held) == Prefix(h, n) && 0 in held.clients && held.clients[0].Holding? && held.clients[0].command == h.log[n].command
    requires IsSnapshot(held, held.clients[0].snapshot, n)
    ensures StandsAt(s, After(s, held, Settle(0, false)), h, n + 1)
  {
    var e := h.log[n];
    assert IsDecided(s, h, n);
    PrefixIsSame(s, h, n, n, e.command.projectId);
    SettlingAnswers(s, held, 0, n, false);
    assert e == Entry(e.command, e.batch, e.updates, e.state);
    CommitLands(s, held, h, n, held.clients[0].snapshot);
    StepKeepsInv(s, held, Settle(0, false));
  }

  lemma AppendReachesNext<E(!new), S(!new)>(s: Setting<E, S>, w: World<E, S>, h: History<E, S>, n: nat)
    requires IsHistory(s, h) && n < |h.log| && StandsAt(s, w, h, n) && ValidateInput(h.log[n].command, s.codec).Ok?
    ensures StandsAt(s, After(s, After(s, After(s, w, Begin(0, h.log[n].command)), Read(0)), Settle(0, false)), h, n + 1)
  {
    var c := h.log[n].command;
    assert IsDecided(s, h, n);
    BeginningReads(s, w, 0, c);
    var begun := After(s, w, Begin(0, c));
    ReadingHolds(s, begun, 0);
    StepContinues(s, begun, Read(0));
    SettlingReachesNext(s, After(s, begun, Read(0)), h, n);
  }

  lemma {:induction false} HistoryIsReached<E(!new), S(!new)>(s: Setting<E, S>, w: World<E, S>, h: History<E, S>, n: nat) returns (steps: seq<Step<E, S>>)
    requires IsInitial(w) && STATE_BRANCH in w.repo.branches && History(w.start, w.repo.commits[w.start], []) == h.(log := [])
    requires IsHistory(s, h) && n <= |h.log| && forall k | 0 <= k < |h.log| :: ValidateInput(h.log[k].command, s.codec).Ok?
    ensures StandsAt(s, Run(s, w, steps), h, n)
  {
    if n == 0 {
      steps := [];
      assert h.log[..0] == [];
    } else {
      steps := HistoryIsReached(s, w, h, n - 1);
      AppendReachesNext(s, Run(s, w, steps), h, n - 1);
      RunThreeMore(s, w, steps, h.log[n - 1].command);
      steps := steps + OneAppend(h.log[n - 1].command);
    }
  }

  /**
   * Histories and runs are the same thing: the log of every run is a history, and every history of valid commands from
   * where the state branch stands is the log of some run.
   */
  lemma EveryHistoryIsARun<E(!new), S(!new)>(s: Setting<E, S>, w: World<E, S>, h: History<E, S>) returns (steps: seq<Step<E, S>>)
    requires IsInitial(w) && STATE_BRANCH in w.repo.branches && History(w.start, w.repo.commits[w.start], []) == h.(log := [])
    requires IsHistory(s, h) && forall k | 0 <= k < |h.log| :: ValidateInput(h.log[k].command, s.codec).Ok?
    ensures var end := Run(s, w, steps); end.log == h.log && STATE_BRANCH in end.repo.branches && end.repo.branches[STATE_BRANCH] == HeadAt(h, |h.log|)
  {
    steps := HistoryIsReached(s, w, h, |h.log|);
    var end := Run(s, w, steps);
    assert h.log[..|h.log|] == h.log && HistoryOf(end) == h;
  }

  /** So a client can commit twice under one key: a run whose first command is dated in the year 10000. */
  lemma TwoBatchesInOneRun() returns (s: Setting<string, string>, w: World<string, string>, steps: seq<Step<string, string>>)
    ensures IsInitial(w) && |Run(s, w, steps).log| == 2
    ensures var log := Run(s, w, steps).log;
            && log[0].command.projectId == log[1].command.projectId
            && log[0].command.idempotencyKey == log[1].command.idempotencyKey
            && log[0].command.command == log[1].command.command
            && log[0].command.occurredAt.year == 10000
  {
    var h: History<string, string>;
    s, h := YearTenThousand();
    w := World(MemoryRepository(map[STATE_BRANCH := h.start], map[h.start := h.files]), h.start, [], map[]);
    forall k | 0 <= k < |h.log| ensures ValidateInput(h.log[k].command, s.codec).Ok? {
    }
    steps := EveryHistoryIsARun(s, w, h);
  }
}

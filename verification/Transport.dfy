/** The GitHub repository as the in-memory transport keeps it: branches move by compare-and-swap over commits named by content. */
module Transport {
  import opened Prelude
  import opened StoreTypes
  import opened StoreAppend

  datatype TransportCode = Conflict | NotFound | InvalidResponse

  type TransportResult<+T> = Result<T, TransportCode>

  datatype RepositoryKey = RepositoryKey(installationId: nat, repositoryId: nat)

  datatype BranchSnapshot<+E> = BranchSnapshot(headSha: CommitSha<E>, files: Files<E>)

  datatype MemoryRepository<+E> = MemoryRepository(branches: map<string, CommitSha<E>>, commits: map<CommitSha<E>, Files<E>>)

  function KeyOf(repository: Repository): RepositoryKey {
    RepositoryKey(repository.installationId, repository.repositoryId)
  }

  /** Heads are commits; a commit holds the files its name digests, and its parent is a commit too. */
  ghost predicate IsConsistent<E(!new)>(r: MemoryRepository<E>) {
    && (forall branch | branch in r.branches :: r.branches[branch] in r.commits)
    && forall sha | sha in r.commits && sha.Made? :: r.commits[sha] == sha.files && sha.parent in r.commits
  }

  ghost predicate Descends<E>(sha: CommitSha<E>, ancestor: CommitSha<E>)
    decreases sha
  {
    sha == ancestor || (sha.Made? && Descends(sha.parent, ancestor))
  }

  lemma {:induction false} DescendsFurther<E>(a: CommitSha<E>, b: CommitSha<E>, c: CommitSha<E>)
    requires Descends(a, b) && Descends(b, c)
    ensures Descends(a, c)
    decreases a
  {
    if a != b {
      DescendsFurther(a.parent, b, c);
    }
  }

  /** Time passes: commits stay, branches stay and move only to descendants. */
  ghost predicate Evolves<E(!new)>(before: MemoryRepository<E>, after: MemoryRepository<E>) {
    && (forall sha | sha in before.commits :: sha in after.commits && after.commits[sha] == before.commits[sha])
    && forall branch | branch in before.branches ::
         branch in after.branches && Descends(after.branches[branch], before.branches[branch])
  }

  lemma EvolvesFurther<E(!new)>(a: MemoryRepository<E>, b: MemoryRepository<E>, c: MemoryRepository<E>)
    requires Evolves(a, b) && Evolves(b, c)
    ensures Evolves(a, c)
  {
    forall branch | branch in a.branches ensures branch in c.branches && Descends(c.branches[branch], a.branches[branch]) {
      DescendsFurther(c.branches[branch], b.branches[branch], a.branches[branch]);
    }
  }

  // ------------------------------------------------------- what the operations do

  function ReadingBranch<E>(r: MemoryRepository<E>, branch: string): TransportResult<Option<BranchSnapshot<E>>> {
    if branch !in r.branches then Ok(None)
    else if r.branches[branch] !in r.commits then Err(InvalidResponse)
    else Ok(Some(BranchSnapshot(r.branches[branch], r.commits[r.branches[branch]])))
  }

  function CreatingBranch<E>(r: MemoryRepository<E>, branch: string, fromSha: CommitSha<E>): TransportResult<MemoryRepository<E>> {
    if branch in r.branches then Err(Conflict)
    else if fromSha !in r.commits then Err(NotFound)
    else Ok(r.(branches := r.branches[branch := fromSha]))
  }

  /** Moves the branch only from the head its caller read. */
  function CommittingFiles<E>(r: MemoryRepository<E>, branch: string, expectedHeadSha: CommitSha<E>, message: string,
                              updates: seq<Update<E>>): TransportResult<(MemoryRepository<E>, CommitSha<E>)>
  {
    if branch !in r.branches || r.branches[branch] != expectedHeadSha then Err(Conflict)
    else if expectedHeadSha !in r.commits then Err(NotFound)
    else
      var files := ApplyUpdates(r.commits[expectedHeadSha], updates);
      var sha := Made(expectedHeadSha, message, files);
      Ok((MemoryRepository(r.branches[branch := sha], r.commits[sha := files]), sha))
  }

  lemma CreatingEvolves<E(!new)>(r: MemoryRepository<E>, branch: string, fromSha: CommitSha<E>)
    requires IsConsistent(r) && CreatingBranch(r, branch, fromSha).Ok?
    ensures IsConsistent(CreatingBranch(r, branch, fromSha).value) && Evolves(r, CreatingBranch(r, branch, fromSha).value)
  {
  }

  lemma CommittingEvolves<E(!new)>(r: MemoryRepository<E>, branch: string, expectedHeadSha: CommitSha<E>, message: string, updates: seq<Update<E>>)
    requires IsConsistent(r) && CommittingFiles(r, branch, expectedHeadSha, message, updates).Ok?
    ensures var (after, sha) := CommittingFiles(r, branch, expectedHeadSha, message, updates).value;
            && IsConsistent(after) && Evolves(r, after) && after.branches[branch] == sha
            && sha != expectedHeadSha && Descends(sha, expectedHeadSha)
  {
    assert Descends(expectedHeadSha, expectedHeadSha);
  }

  class MemoryGitHubTransport<E(==,!new)> {
    var repositories: map<RepositoryKey, MemoryRepository<E>>

    /** Whether others use the repositories too. */
    const shared: bool

    /** What the readings of branches have answered so far. */
    ghost var answers: seq<TransportResult<Option<BranchSnapshot<E>>>>

    ghost predicate Valid()
      reads this
    {
      forall key | key in repositories :: IsConsistent(repositories[key])
    }

    /** Seeds one repository with an initial commit to which the given branches point. */
    constructor (key: RepositoryKey, initialSha: CommitSha<E>, initialFiles: Files<E>, branches: set<string>, shared: bool)
      requires initialSha.Seed?
      ensures Valid() && this.shared == shared && repositories == map[key := MemoryRepository(map b | b in branches :: initialSha, map[initialSha := initialFiles])]
    {
      this.shared := shared;
      answers := [];
      repositories := map[key := MemoryRepository(map b | b in branches :: initialSha, map[initialSha := initialFiles])];
    }

    method ReadBranch(key: RepositoryKey, branch: string) returns (r: TransportResult<Option<BranchSnapshot<E>>>)
      requires Valid()
      modifies this`answers
      ensures r == if key !in repositories then Err(NotFound) else ReadingBranch(repositories[key], branch)
      ensures r.Ok? <==> key in repositories
      ensures Valid() && answers == old(answers) + [r]
    {
      if key !in repositories {
        r := Err(NotFound);
      } else {
        var found := repositories[key];
        if branch !in found.branches {
          r := Ok(None);
        } else {
          var sha := found.branches[branch];
          r := if sha !in found.commits then Err(InvalidResponse) else Ok(Some(BranchSnapshot(sha, found.commits[sha])));
        }
      }
      answers := answers + [r];
    }

    method CreateBranch(key: RepositoryKey, branch: string, fromSha: CommitSha<E>) returns (r: TransportResult<BranchSnapshot<E>>)
      requires Valid()
      modifies this`repositories
      ensures Valid()
      ensures r.Ok? <==> key in old(repositories) && branch !in old(repositories[key].branches) && fromSha in old(repositories[key].commits)
      ensures r == Err(Conflict) <==> key in old(repositories) && branch in old(repositories[key].branches)
      ensures if key in old(repositories) && CreatingBranch(old(repositories[key]), branch, fromSha).Ok? then
                && repositories == old(repositories)[key := CreatingBranch(old(repositories[key]), branch, fromSha).value]
                && r == Ok(BranchSnapshot(fromSha, old(repositories[key].commits[fromSha])))
              else
                && repositories == old(repositories)
                && r == Err(if key !in repositories then NotFound else CreatingBranch(repositories[key], branch, fromSha).error)
    {
      if key !in repositories {
        return Err(NotFound);
      }
      var found := repositories[key];
      if branch in found.branches {
        return Err(Conflict);
      }
      if fromSha !in found.commits {
        return Err(NotFound);
      }
      CreatingEvolves(found, branch, fromSha);
      repositories := repositories[key := found.(branches := found.branches[branch := fromSha])];
      return Ok(BranchSnapshot(fromSha, found.commits[fromSha]));
    }

    method CommitFiles(key: RepositoryKey, branch: string, expectedHeadSha: CommitSha<E>, message: string, updates: seq<Update<E>>)
      returns (r: TransportResult<CommitSha<E>>)
      requires Valid()
      modifies this`repositories
      ensures Valid()
      ensures r == Err(Conflict) <==> key in old(repositories) && (branch in old(repositories[key].branches) ==>
                                        old(repositories[key].branches)[branch] != expectedHeadSha)
      ensures r.Ok? ==> && key in old(repositories) && branch in old(repositories[key].branches)
                        && old(repositories[key].branches)[branch] == expectedHeadSha && expectedHeadSha in old(repositories[key].commits)
                        && r.value == Made(expectedHeadSha, message, ApplyUpdates(old(repositories[key].commits)[expectedHeadSha], updates))
                        && repositories == old(repositories)[key := MemoryRepository(
                             old(repositories[key].branches)[branch := r.value],
                             old(repositories[key].commits)[r.value := ApplyUpdates(old(repositories[key].commits)[expectedHeadSha], updates)])]
      ensures if key in old(repositories) && CommittingFiles(old(repositories[key]), branch, expectedHeadSha, message, updates).Ok? then
                var (after, sha) := CommittingFiles(old(repositories[key]), branch, expectedHeadSha, message, updates).value;
                repositories == old(repositories)[key := after] && r == Ok(sha)
              else
                && repositories == old(repositories)
                && r == Err(if key !in repositories then NotFound
                            else CommittingFiles(repositories[key], branch, expectedHeadSha, message, updates).error)
    {
      if key !in repositories {
        return Err(NotFound);
      }
      var found := repositories[key];
      if branch !in found.branches || found.branches[branch] != expectedHeadSha {
        return Err(Conflict);
      }
      if expectedHeadSha !in found.commits {
        return Err(NotFound);
      }
      CommittingEvolves(found, branch, expectedHeadSha, message, updates);
      var files := found.commits[expectedHeadSha];
      for i := 0 to |updates|
        invariant ApplyUpdates(files, updates[i..]) == ApplyUpdates(found.commits[expectedHeadSha], updates)
        invariant repositories == old(repositories)
      {
        assert updates[i..][1..] == updates[i + 1..];
        files := files[updates[i].0 := updates[i].1];
      }
      var sha := Made(expectedHeadSha, message, files);
      repositories := repositories[key := MemoryRepository(found.branches[branch := sha], found.commits[sha := files])];
      return Ok(sha);
    }

    /** Some call of another client. */
    method ForeignCall(key: RepositoryKey)
      requires Valid()
      modifies this`repositories
      ensures Valid() && (key in repositories <==> key in old(repositories))
      ensures key in repositories ==> Evolves(old(repositories[key]), repositories[key])
    {
      var creates: bool := *;
      var branch: string := *;
      var sha: CommitSha<E> := *;
      var message: string := *;
      var updates: seq<Update<E>> := *;
      if creates {
        if key in repositories && CreatingBranch(repositories[key], branch, sha).Ok? {
          CreatingEvolves(repositories[key], branch, sha);
        }
        var created := CreateBranch(key, branch, sha);
      } else {
        if key in repositories && CommittingFiles(repositories[key], branch, sha, message, updates).Ok? {
          CommittingEvolves(repositories[key], branch, sha, message, updates);
        }
        var committed := CommitFiles(key, branch, sha, message, updates);
      }
    }

    /** While a caller waits, other clients may create branches and commit as they like. */
    method Await(key: RepositoryKey)
      requires Valid()
      modifies this`repositories
      ensures Valid() && (key in repositories <==> key in old(repositories))
      ensures key in repositories ==> Evolves(old(repositories[key]), repositories[key])
      ensures !shared ==> repositories == old(repositories)
    {
      if !shared {
        return;
      }
      var n: nat := *;
      while n > 0
        invariant Valid() && (key in repositories <==> key in old(repositories))
        invariant key in repositories ==> Evolves(old(repositories[key]), repositories[key])
      {
        label Before:
        ForeignCall(key);
        if key in repositories {
          EvolvesFurther(old(repositories[key]), old@Before(repositories[key]), repositories[key]);
        }
        n := n - 1;
      }
    }
  }
}

/** The files of the state branch: paths, stored events, commits. */
module StoreTypes {
  import opened Prelude
  import opened Protocol

  const STATE_ROOT := [".hunsu", "v2"]

  /** A canonical timestamp; only its year and month matter to the store. */
  datatype Time = Time(year: int, month: int, rest: string)

  /** A GitHub name is compared without regard to case. */
  datatype Name = Name(folded: string, spelled: string)
  datatype Repository = Repository(installationId: nat, repositoryId: nat, owner: Name, name: Name)

  predicate SameRepository(a: Repository, b: Repository) {
    && a.installationId == b.installationId && a.repositoryId == b.repositoryId
    && a.owner.folded == b.owner.folded && a.name.folded == b.name.folded
  }

  /** The 32 hexadecimal digits naming an event file: derived from the command, or any others. */
  datatype StoredId =
    | Derived(projectId: string, keyHash: Digest<string>, commandHash: Digest<string>, index: nat)
    | OtherId(text: string)

  /** A file name: 32 hexadecimal digits and `.json`, or anything else. */
  datatype FileName = Json(id: StoredId) | OtherName(text: string)

  /** A path between whose parts the slashes stand. */
  datatype Path = Path(dirs: seq<string>, file: FileName)

  datatype StoredEvent<+E> = StoredEvent(
    eventId: StoredId, projectId: string, repository: Repository, keyHash: Digest<string>, commandHash: Digest<string>,
    previousStateSha: CommitSha<E>, commandEventCount: nat, sequence: nat, actor: string, occurredAt: Time, event: E)

  /** What a file holds, as far as the store reads it back. */
  datatype Content<+E> = EventJson(stored: StoredEvent<E>) | WorkspaceJson(projectIds: set<string>) | OtherContent(text: string)

  /** A commit is named by a digest of all it contains and of its parent. */
  datatype CommitSha<+E> =
    | Seed(text: string)
    | Made(parent: CommitSha<E>, message: string, files: map<Path, Content<E>>)

  type Files<+E> = map<Path, Content<E>>

  // ----------------------------------------------------------------------- paths

  function Digit(n: nat): char
    requires n < 10
  {
    "0123456789"[n]
  }

  predicate IsDigit(c: char) {
    '0' <= c <= '9'
  }

  function Decimal(n: nat): (s: string)
    ensures s != [] && forall c | c in s :: IsDigit(c)
    ensures n < 10 ==> |s| == 1
    ensures 10 <= n < 100 ==> |s| == 2
    ensures 100 <= n < 1000 ==> |s| == 3
    ensures 1000 <= n < 10000 ==> |s| == 4
    ensures n >= 10000 ==> |s| > 4
  {
    if n < 10 then [Digit(n)] else Decimal(n / 10) + [Digit(n % 10)]
  }

  function Number(n: int): string {
    if n < 0 then "-" + Decimal(-n) else Decimal(n)
  }

  /** Zeros in front up to the given length. */
  function PadStart(s: string, length: nat): string
    decreases length - |s|
  {
    if |s| >= length then s else PadStart("0" + s, length)
  }

  predicate AllDigits(s: string, length: nat) {
    |s| == length && forall c | c in s :: IsDigit(c)
  }

  lemma {:induction false} PadStartMeaning(s: string, length: nat)
    ensures |PadStart(s, length)| == if |s| >= length then |s| else length
    ensures (forall c | c in PadStart(s, length) :: IsDigit(c)) <==> forall c | c in s :: IsDigit(c)
    decreases length - |s|
  {
    if |s| < length {
      PadStartMeaning("0" + s, length);
    }
  }

  /** A year prints as four digits exactly from 0 to 9999. */
  lemma YearPrintsAsFourDigits(year: int)
    ensures AllDigits(PadStart(Number(year), 4), 4) <==> 0 <= year <= 9999
  {
    PadStartMeaning(Number(year), 4);
    if year < 0 {
      assert Number(year)[0] == '-' && '-' in Number(year);
    }
  }

  lemma MonthPrintsAsTwoDigits(month: int)
    requires 1 <= month <= 12
    ensures AllDigits(PadStart(Number(month), 2), 2)
  {
    PadStartMeaning(Number(month), 2);
  }

  function ProjectRoot(projectId: string): seq<string> {
    STATE_ROOT + ["projects", projectId]
  }

  function EventPath<E>(stored: StoredEvent<E>): Path {
    Path(ProjectRoot(stored.projectId) + ["events", PadStart(Number(stored.occurredAt.year), 4),
                                          PadStart(Number(stored.occurredAt.month), 2)],
         Json(stored.eventId))
  }

  /** `<project root>/events/dddd/dd/<32 hexadecimal digits>.json`. */
  predicate IsEventPath(path: Path, projectId: string) {
    && |path.dirs| == 7 && path.dirs[..4] == ProjectRoot(projectId) && path.dirs[4] == "events"
    && AllDigits(path.dirs[5], 4) && AllDigits(path.dirs[6], 2) && path.file.Json?
  }

  /** A path relative to the project root, as `materialize` names its files. */
  datatype RelativePath = RelativePath(dirs: seq<string>, file: FileName)

  predicate HasParentStep(s: string) {
    exists i :: 0 <= i < |s| - 1 && s[i] == '.' && s[i + 1] == '.'
  }

  predicate SafeName(s: string) {
    !HasParentStep(s) && '\\' !in s
  }

  /** `safeMaterializedPath`: not absolute, no step upwards, nothing under `events/`. */
  predicate SafeMaterializedPath(path: RelativePath) {
    && (forall dir | dir in path.dirs :: SafeName(dir))
    && (path.file.OtherName? ==> SafeName(path.file.text))
    && (path.dirs == [] ==> path.file != OtherName(""))
    && (path.dirs != [] ==> path.dirs[0] != "" && path.dirs[0] != "events")
  }

  /** The path as one text. */
  function PathText(dirs: seq<string>, last: string): string {
    if dirs == [] then last else dirs[0] + "/" + PathText(dirs[1..], last)
  }

  predicate IsName(s: string) {
    '/' !in s
  }

  /** The check as the source makes it, on the text. */
  ghost predicate SafeText(text: string) {
    && text != "" && text[0] != '/' && !HasParentStep(text) && '\\' !in text && !("events/" <= text)
  }

  lemma JoinedParentStep(a: string, b: string)
    ensures HasParentStep(a + "/" + b) <==> HasParentStep(a) || HasParentStep(b)
  {
    var joined := a + "/" + b;
    if i :| 0 <= i < |a| - 1 && a[i] == '.' && a[i + 1] == '.' {
      assert joined[i] == '.' && joined[i + 1] == '.';
    }
    if i :| 0 <= i < |b| - 1 && b[i] == '.' && b[i + 1] == '.' {
      assert joined[|a| + 1 + i] == '.' && joined[|a| + 2 + i] == '.';
    }
    if i :| 0 <= i < |joined| - 1 && joined[i] == '.' && joined[i + 1] == '.' {
      assert joined[|a|] == '/';
      if i < |a| {
        assert a[i] == '.' && a[i + 1] == '.';
      } else {
        assert b[i - |a| - 1] == '.' && b[i - |a|] == '.';
      }
    }
  }

  lemma {:induction false} SafeNamesInText(dirs: seq<string>, last: string)
    ensures !HasParentStep(PathText(dirs, last)) && '\\' !in PathText(dirs, last)
            <==> SafeName(last) && forall dir | dir in dirs :: SafeName(dir)
  {
    if dirs == [] {
      assert PathText(dirs, last) == last;
    } else {
      var rest := PathText(dirs[1..], last);
      SafeNamesInText(dirs[1..], last);
      JoinedParentStep(dirs[0], rest);
      assert '\\' in PathText(dirs, last) <==> '\\' in dirs[0] || '\\' in rest;
      assert (forall dir | dir in dirs :: SafeName(dir)) <==> SafeName(dirs[0]) && forall dir | dir in dirs[1..] :: SafeName(dir) by {
        assert forall dir :: dir in dirs <==> dir == dirs[0] || dir in dirs[1..];
      }
    }
  }

  lemma StartsWithDir(dir: string, rest: string, prefix: string)
    requires IsName(dir) && IsName(prefix)
    ensures prefix + "/" <= dir + "/" + rest <==> dir == prefix
  {
    var text := dir + "/" + rest;
    assert text[|dir|] == '/' && forall k | 0 <= k < |dir| :: text[k] == dir[k] && dir[k] in dir;
    assert (prefix + "/")[|prefix|] == '/' && forall k | 0 <= k < |prefix| :: (prefix + "/")[k] == prefix[k] && prefix[k] in prefix;
    if prefix + "/" <= text {
      assert text[|prefix|] == (prefix + "/")[|prefix|] && forall k | 0 <= k < |prefix| :: text[k] == (prefix + "/")[k];
      assert |prefix| == |dir|;
    }
  }

  /** Checking the parts of a path is checking its text. */
  lemma SafePathMeaning(dirs: seq<string>, last: string)
    requires IsName(last) && forall dir | dir in dirs :: IsName(dir)
    ensures SafeMaterializedPath(RelativePath(dirs, OtherName(last))) <==> SafeText(PathText(dirs, last))
  {
    SafeNamesInText(dirs, last);
    if dirs != [] {
      StartsWithDir(dirs[0], PathText(dirs[1..], last), "events");
      assert "events" + "/" == "events/";
      assert dirs[0] == "" <==> PathText(dirs, last)[0] == '/';
    } else {
      assert "events/"[6] == '/' && (|last| > 6 ==> last[6] in last);
    }
  }

  function MaterializedPath(projectId: string, path: RelativePath): Path {
    Path(ProjectRoot(projectId) + path.dirs, path.file)
  }

  const WORKSPACE_PATH := Path(STATE_ROOT, OtherName("workspace.json"))

  lemma ProjectRootsDiffer(p: string, q: string)
    requires ProjectRoot(p) == ProjectRoot(q)
    ensures p == q
  {
    assert ProjectRoot(p)[3] == p && ProjectRoot(q)[3] == q;
  }

  /** The path lies where the events of some Project are kept, whatever its name there. */
  predicate LiesAmongEvents(path: Path) {
    |path.dirs| == 7 && path.dirs[4] == "events"
  }

  /** Files written for readers never lie among the events of any Project. */
  lemma MaterializedIsNoEvent(p: string, path: RelativePath)
    requires SafeMaterializedPath(path)
    ensures !LiesAmongEvents(MaterializedPath(p, path))
  {
    var full := MaterializedPath(p, path);
    if |full.dirs| == 7 {
      assert full.dirs[4] == path.dirs[0];
    }
  }

  /** An event lies where the decoder looks for it exactly when its year has four digits. */
  lemma EventPathIsFound<E>(stored: StoredEvent<E>, q: string)
    requires 1 <= stored.occurredAt.month <= 12
    ensures IsEventPath(EventPath(stored), q) <==> q == stored.projectId && 0 <= stored.occurredAt.year <= 9999
  {
    var path := EventPath(stored);
    YearPrintsAsFourDigits(stored.occurredAt.year);
    MonthPrintsAsTwoDigits(stored.occurredAt.month);
    assert path.dirs[..4] == ProjectRoot(stored.projectId);
    assert path.dirs[4] == "events" && path.dirs[5] == PadStart(Number(stored.occurredAt.year), 4);
    assert path.dirs[6] == PadStart(Number(stored.occurredAt.month), 2);
    if path.dirs[..4] == ProjectRoot(q) {
      ProjectRootsDiffer(stored.projectId, q);
    }
  }
}

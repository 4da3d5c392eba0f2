/** The branch a pane sits on (internal/tmux/git.go): a cache of one directory's HEAD,
    refreshed by a worker that stats and reads a disk that may change under it. */
module GitBranch {
  import opened Prelude
  import opened Text

  // --------------------------------------------------------------------- HEAD itself

  const REF_PREFIX := "ref: refs/heads/"
  const GITDIR_PREFIX := "gitdir:"

  predicate IsHex(c: char) {
    IsDigit(c) || 'a' <= c <= 'f'
  }

  /** A bare object name: SHA-1 or SHA-256, in lower case. */
  predicate IsDetached(line: string) {
    (|line| == 40 || |line| == 64) && forall i | 0 <= i < |line| :: IsHex(line[i])
  }

  method IsDetachedHash(line: string) returns (b: bool)
    ensures b <==> IsDetached(line)
  {
    if Bytes(line) != 40 && Bytes(line) != 64 {
      if IsDetached(line) {
        BytesAscii(line);
      }
      return false;
    }
    for i := 0 to |line|
      invariant forall k | 0 <= k < i :: IsHex(line[k])
    {
      if !IsHex(line[i]) {
        return false;
      }
    }
    BytesAscii(line);
    return true;
  }

  function HeadLine(line: string): string {
    if '\r' in line || '\n' in line then ""
    else if REF_PREFIX <= line then line[|REF_PREFIX|..]
    else if IsDetached(line) then "@" + line[..7]
    else ""
  }

  function ParseHead(contents: string): string {
    HeadLine(TrimSpace(contents))
  }

  /** A trimmed line stays as it is with a newline after it. */
  lemma TrimmedLine(line: string)
    requires line != "" && !IsSpace(line[0]) && !IsSpace(line[|line| - 1])
    ensures TrimSpace(line + "\n") == line
  {
    var s := line + "\n";
    assert s[0] == line[0];
    assert TrimLeft(s, IsSpace) == s;
    assert s[..|s| - 1] == line;
    assert TrimRight(line, IsSpace) == line;
  }

  /** What git writes is what a row shows: a branch by its whole name, slashes and all,
      and a detached object by its first seven digits. */
  lemma BranchLine(name: string)
    requires '\r' !in name && '\n' !in name
    ensures HeadLine(REF_PREFIX + name) == name
  {
    assert '\r' !in REF_PREFIX && '\n' !in REF_PREFIX;
    assert (REF_PREFIX + name)[|REF_PREFIX|..] == name;
  }

  lemma HeadOfBranch(name: string)
    requires name != "" && !IsSpace(name[|name| - 1]) && '\r' !in name && '\n' !in name
    ensures ParseHead(REF_PREFIX + name + "\n") == name
  {
    BranchLine(name);
    TrimmedLine(REF_PREFIX + name);
  }

  lemma HexLine(line: string)
    requires line != "" && forall i | 0 <= i < |line| :: IsHex(line[i])
    ensures !IsSpace(line[0]) && !IsSpace(line[|line| - 1])
    ensures HeadLine(line) == if |line| == 40 || |line| == 64 then "@" + line[..7] else ""
  {
    assert IsHex(line[0]) && IsHex(line[|line| - 1]);
    assert '\r' !in line && '\n' !in line;
    assert line[0] != REF_PREFIX[0];
  }

  lemma HeadOfDetached(hash: string)
    requires IsDetached(hash)
    ensures ParseHead(hash + "\n") == "@" + hash[..7]
  {
    HexLine(hash);
    TrimmedLine(hash);
  }

  lemma TrimmedAlready(line: string)
    requires line != "" && !IsSpace(line[0]) && !IsSpace(line[|line| - 1])
    ensures TrimSpace(line) == line
  {
  }

  /** A hash read while it is being written shows nothing, unless the cut leaves exactly
      the shorter of the two kinds. */
  lemma TornHash(hash: string, n: nat)
    requires IsDetached(hash) && 0 < n < |hash|
    ensures ParseHead(hash[..n]) == if n == 40 then "@" + hash[..7] else ""
  {
    var torn := hash[..n];
    assert forall i | 0 <= i < n :: torn[i] == hash[i];
    HexLine(torn);
    TrimmedAlready(torn);
    if n == 40 {
      assert torn[..7] == hash[..7];
    }
  }

  predicate OneLine(line: string) {
    '\r' !in line && '\n' !in line
  }

  /** Everything a row can show, and from what: a line that is a reference to a branch
      shows the branch, a line of 40 or 64 lower-case hex digits an at sign and the first
      seven, and any other file nothing. */
  lemma HeadShows(contents: string, shown: string)
    requires shown != ""
    ensures var line := TrimSpace(contents);
      ParseHead(contents) == shown
      <==> OneLine(line)
           && (line == "ref: refs/heads/" + shown
               || ((|line| == 40 || |line| == 64) && shown == "@" + line[..7]
                   && forall i | 0 <= i < |line| :: '0' <= line[i] <= '9' || 'a' <= line[i] <= 'f'))
  {
    var line := TrimSpace(contents);
    assert |REF_PREFIX| == 16 && REF_PREFIX[0] == 'r';
    if line == "ref: refs/heads/" + shown {
      assert line[16..] == shown;
    }
  }

  // -------------------------------------------------------------------- the climb

  const MAX_GIT_WALK := 40

  // A directory as its path components; [] is the root, its own parent.
  type Path = seq<string>

  /** What is at .git under a directory. */
  datatype DotGit = Absent | Directory | File(contents: Option<string>)

  /** A repository: the .git under a directory, or what a .git file under it points at. */
  datatype GitDir = Under(dir: Path) | Pointed(base: Path, target: string)

  function ResolvePointer(base: Path, contents: Option<string>): Option<GitDir> {
    if contents.None? then None
    else
      var line := TrimSpace(contents.value);
      if !(GITDIR_PREFIX <= line) then None
      else
        var target := TrimSpace(line[|GITDIR_PREFIX|..]);
        if target == "" then None else Some(Pointed(base, target))
  }

  function Found(dir: Path, at: DotGit): Option<GitDir> {
    match at
    case Directory => Some(Under(dir))
    case File(contents) => ResolvePointer(dir, contents)
    case Absent => None
  }

  /** The k-th directory of the climb. */
  function Up(dir: Path, k: nat): Path {
    if k <= |dir| then dir[..|dir| - k] else []
  }

  /** The climb stops at step k: something is called .git there, and nowhere below. */
  predicate StopsAt(disk: Path -> DotGit, dir: Path, k: nat) {
    && k <= |dir| && k < MAX_GIT_WALK && !disk(Up(dir, k)).Absent?
    && forall j | 0 <= j < k :: disk(Up(dir, j)).Absent?
  }

  /** A .git file names a repository exactly when, trimmed, it is gitdir: and something, and
      that something, trimmed in turn, is the target. */
  lemma PointerIs(base: Path, contents: string)
    ensures var line := TrimSpace(contents);
      ResolvePointer(base, Some(contents))
      == if |line| >= 7 && line[..7] == "gitdir:" && TrimSpace(line[7..]) != "" then Some(Pointed(base, TrimSpace(line[7..])))
         else None
  {
    assert |GITDIR_PREFIX| == 7;
  }

  /** Where the climb stops: within forty directories of the pane's own, at the first that
      has anything called .git. */
  lemma ClimbStops(disk: Path -> DotGit, dir: Path, k: nat)
    ensures StopsAt(disk, dir, k)
      <==> k < 40 && k <= |dir| && disk(Up(dir, k)) != Absent && forall j | 0 <= j < k :: disk(Up(dir, j)) == Absent
    ensures k <= |dir| ==> Up(dir, k) == dir[..|dir| - k]
  {
  }

  /** The nearest .git decides, whatever it is: one that cannot be used ends the climb
      with nothing, and is never answered with what lies above it. */
  method FindGitDir(disk: Path -> DotGit, dir: Path) returns (gitDir: Option<GitDir>)
    ensures forall k: nat | StopsAt(disk, dir, k) :: gitDir == Found(Up(dir, k), disk(Up(dir, k)))
    ensures (forall k: nat :: !StopsAt(disk, dir, k)) ==> gitDir.None?
  {
    var at := dir;
    for i := 0 to MAX_GIT_WALK
      invariant i <= |dir| && at == Up(dir, i)
      invariant forall j | 0 <= j < i :: disk(Up(dir, j)).Absent?
    {
      var there := disk(at);
      if !there.Absent? {
        assert StopsAt(disk, dir, i);
        return Found(at, there);
      }
      if at == [] {
        return None;
      }
      at := at[..|at| - 1];
    }
    return None;
  }

  // --------------------------------------------------------------------- the cache

  const GIT_MISS_TTL := 30 * NANOS_PER_SECOND

  /** HEAD's modification time and size. The zero identity is a time no file has. */
  datatype Identity = Identity(mtime: int, size: int)

  const NOBODY := Identity(0, 0)

  /** One directory's answer: no repository above it, or one, with the branch read last
      and the identity it was read under. */
  datatype Entry = Entry(gitDir: Option<GitDir>, branch: string, head: Identity, checkedAt: int)

  /** What the disk answers a check, call by call: the climb, the stat of HEAD, and what
      reading HEAD came to (ParseHead of its contents, nothing if it cannot be read).
      Each is asked for at most once, in this order. */
  datatype Answers = Answers(gitDir: Option<GitDir>, stat: Option<Identity>, branch: string)

  /** A full read of a directory's repository. */
  function FullRead(a: Answers, now: int): Entry {
    if a.gitDir.None? then Entry(None, "", NOBODY, now)
    else if a.stat.None? then Entry(a.gitDir, "", NOBODY, now)
    else Entry(a.gitDir, a.branch, a.stat.value, now)
  }

  /** What a check leaves of a directory's entry: the same, nothing, or a new one. */
  function Checked(prev: Option<Entry>, now: int, a: Answers): Option<Entry> {
    if prev.Some? && prev.value.gitDir.Some? then
      if a.stat.None? then None
      else if a.stat.value == prev.value.head then prev
      else Some(prev.value.(branch := a.branch, head := a.stat.value, checkedAt := now))
    else if prev.Some? && now - prev.value.checkedAt < GIT_MISS_TTL then prev
    else Some(FullRead(a, now))
  }

  /** A check that stores nothing leaves what is there by then alone. */
  predicate Writes(prev: Option<Entry>, now: int, a: Answers) {
    Checked(prev, now, a) != prev || prev.None?
  }

  function BranchOf(e: Option<Entry>): string {
    if e.Some? then e.value.branch else ""
  }

  class GitReader {
    var entries: map<string, Entry>
    var inFlight: set<string>
    var wanted: seq<string>
    var waiting: bool

    constructor ()
      ensures entries == map[] && inFlight == {} && !waiting
    {
      entries, inFlight, wanted, waiting := map[], {}, [], false;
    }

    ghost function EntryOf(dir: string): (e: Option<Entry>)
      reads this
      ensures e.Some? <==> dir in entries
    {
      if dir in entries then Some(entries[dir]) else None
    }

    /** The newest set is the only one kept. */
    method Want(dirs: seq<string>)
      modifies this`wanted, this`waiting
      ensures waiting && wanted == dirs
    {
      wanted, waiting := dirs, true;
    }

    /** Hands a set over once, and none when none was handed in since. */
    method Take() returns (dirs: Option<seq<string>>)
      modifies this`wanted, this`waiting
      ensures dirs == if old(waiting) then Some(old(wanted)) else None
      ensures !waiting
    {
      if !waiting {
        return None;
      }
      dirs := Some(wanted);
      wanted, waiting := [], false;
    }

    method Branch(dir: string) returns (branch: string)
      ensures branch == BranchOf(EntryOf(dir))
    {
      branch := if dir in entries then entries[dir].branch else "";
    }

    method Begin(dir: string) returns (claimed: bool)
      modifies this`inFlight
      ensures claimed == (dir !in old(inFlight)) && inFlight == old(inFlight) + {dir}
    {
      if dir in inFlight {
        return false;
      }
      inFlight := inFlight + {dir};
      return true;
    }

    method End(dir: string)
      modifies this`inFlight
      ensures inFlight == old(inFlight) - {dir}
    {
      inFlight := inFlight - {dir};
    }

    method Retain(dirs: seq<string>)
      modifies this`entries
      ensures entries == map dir | dir in old(entries) && dir in dirs :: old(entries)[dir]
    {
      var keep: set<string> := {};
      for i := 0 to |dirs|
        invariant keep == set k | 0 <= k < i :: dirs[k]
      {
        keep := keep + {dirs[i]};
      }
      assert forall dir :: dir in keep <==> dir in dirs;
      var left := entries.Keys;
      while left != {}
        invariant left <= old(entries).Keys && entries.Keys <= old(entries).Keys
        invariant forall dir | dir in entries :: entries[dir] == old(entries)[dir]
        invariant forall dir | dir in old(entries) :: dir in entries <==> dir in left || dir in keep
        decreases |left|
      {
        var dir :| dir in left;
        left := left - {dir};
        if dir !in keep {
          entries := entries - {dir};
        }
      }
    }

    /** One directory's unit of work, when nothing else touches its entry meanwhile. */
    method Check(dir: string, now: int, a: Answers)
      modifies this`entries
      ensures EntryOf(dir) == Checked(old(EntryOf(dir)), now, a)
      ensures forall other | other != dir :: EntryOf(other) == old(EntryOf(other))
    {
      if dir in entries && entries[dir].gitDir.Some? {
        var prev := entries[dir];
        if a.stat.None? {
          entries := entries - {dir};
          return;
        }
        if a.stat.value == prev.head {
          return;
        }
        entries := entries[dir := prev.(branch := a.branch, head := a.stat.value, checkedAt := now)];
        return;
      }
      if dir in entries && now - entries[dir].checkedAt < GIT_MISS_TTL {
        return;
      }
      entries := entries[dir := FullRead(a, now)];
    }
  }

  // ------------------------------------------------- one directory, on a changing disk

  /** A HEAD as it stands from one change to the next, and what reading it comes to. */
  datatype Head = Head(id: Identity, branch: string)

  /** A worker between claiming the directory and letting it go: the entry it found, and
      which version of the disk it had its stat and its read from. */
  datatype Worker = Worker(prev: Option<Entry>, now: int, stat: Option<nat>, read: Option<nat>)

  /** Every version HEAD has had, none while it is missing; the directory's entry; and
      the one worker, if there is one. */
  datatype State = State(versions: seq<Option<Head>>, entry: Option<Entry>, worker: Option<Worker>)

  datatype Step =
    | Change(head: Option<Head>)
    | Drop
    | Start(now: int)
    | Stat
    | Read
    | Finish

  function StatAt(s: State, n: Option<nat>): Option<Identity> {
    if n.Some? && n.value < |s.versions| && s.versions[n.value].Some? then Some(s.versions[n.value].value.id) else None
  }

  function BranchAt(s: State, n: Option<nat>): string {
    if n.Some? && n.value < |s.versions| && s.versions[n.value].Some? then s.versions[n.value].value.branch else ""
  }

  /** What a check that is done was answered. */
  function Answered(repo: Option<GitDir>, s: State, w: Worker): Answers {
    Answers(repo, StatAt(s, w.stat), BranchAt(s, w.read))
  }

  /** No version of HEAD has an identity another has had, and none the zero one. A worker
      stats and then reads, each once. */
  predicate Enabled(s: State, step: Step) {
    match step
    case Change(head) =>
      head.Some? ==> head.value.id != NOBODY
                     && forall i | 0 <= i < |s.versions| && s.versions[i].Some? :: s.versions[i].value.id != head.value.id
    case Drop => true
    case Start(_) => true
    case Stat => s.worker.Some? && s.worker.value.stat.None? && s.versions != []
    case Read => s.worker.Some? && s.worker.value.stat.Some? && s.worker.value.read.None? && s.versions != []
    case Finish => s.worker.Some? && s.worker.value.read.Some?
  }

  /** A directory already being checked is skipped. A worker's write lands whatever became
      of the entry it started from. */
  function Do(repo: Option<GitDir>, s: State, step: Step): State
    requires Enabled(s, step)
  {
    match step
    case Change(head) => s.(versions := s.versions + [head])
    case Drop => s.(entry := None)
    case Start(now) => if s.worker.Some? then s else s.(worker := Some(Worker(s.entry, now, None, None)))
    case Stat => s.(worker := Some(s.worker.value.(stat := Some(|s.versions| - 1))))
    case Read => s.(worker := Some(s.worker.value.(read := Some(|s.versions| - 1))))
    case Finish =>
      var w := s.worker.value;
      var a := Answered(repo, s, w);
      s.(entry := if Writes(w.prev, w.now, a) then Checked(w.prev, w.now, a) else s.entry, worker := None)
  }

  predicate Allowed(repo: Option<GitDir>, s: State, steps: seq<Step>)
    decreases |steps|
  {
    steps == [] || (Enabled(s, steps[0]) && Allowed(repo, Do(repo, s, steps[0]), steps[1..]))
  }

  function Run(repo: Option<GitDir>, s: State, steps: seq<Step>): State
    requires Allowed(repo, s, steps)
    decreases |steps|
  {
    if steps == [] then s else Run(repo, Do(repo, s, steps[0]), steps[1..])
  }

  /** What a full read of the disk as it stands would show. */
  function Direct(repo: Option<GitDir>, s: State): string
    requires s.versions != []
  {
    var n := |s.versions| - 1;
    FullRead(Answers(repo, StatAt(s, Some(n)), BranchAt(s, Some(n))), 0).branch
  }

  /** This entry's identity was had before its branch was: the identity from version i,
      the branch from a version no earlier. */
  predicate ReadAfter(s: State, e: Entry, i: nat, j: nat) {
    && i <= j < |s.versions| && s.versions[i].Some? && e.head == s.versions[i].value.id
    && e.branch == BranchAt(s, Some(j))
  }

  ghost predicate EntryHolds(repo: Option<GitDir>, s: State, e: Entry) {
    && e.gitDir == repo
    && (repo.None? ==> e.branch == "")
    && (repo.Some? ==> (e.head == NOBODY && e.branch == "") || exists i, j :: ReadAfter(s, e, i, j))
  }

  predicate Unique(s: State) {
    && (forall i | 0 <= i < |s.versions| && s.versions[i].Some? :: s.versions[i].value.id != NOBODY)
    && (forall i, j | 0 <= i < j < |s.versions| && s.versions[i].Some? && s.versions[j].Some? ::
          s.versions[i].value.id != s.versions[j].value.id)
  }

  predicate WorkerHolds(s: State, w: Worker) {
    && (w.stat.Some? ==> w.stat.value < |s.versions|)
    && (w.read.Some? ==> w.stat.Some? && w.stat.value <= w.read.value < |s.versions|)
  }

  ghost predicate Inv(repo: Option<GitDir>, s: State) {
    && Unique(s)
    && (s.entry.Some? ==> EntryHolds(repo, s, s.entry.value))
    && (s.worker.Some? ==> WorkerHolds(s, s.worker.value))
    && (s.worker.Some? && s.worker.value.prev.Some? ==> EntryHolds(repo, s, s.worker.value.prev.value))
  }

  /** A check reads identity before content, so what it leaves holds. */
  lemma CheckedHolds(repo: Option<GitDir>, s: State, w: Worker)
    requires Unique(s) && WorkerHolds(s, w) && w.read.Some? && (w.prev.Some? ==> EntryHolds(repo, s, w.prev.value))
    ensures var e := Checked(w.prev, w.now, Answered(repo, s, w)); e.Some? ==> EntryHolds(repo, s, e.value)
  {
    var e := Checked(w.prev, w.now, Answered(repo, s, w));
    if e.Some? && e != w.prev && repo.Some? && StatAt(s, w.stat).Some? {
      assert ReadAfter(s, e.value, w.stat.value, w.read.value);
    }
  }

  /** An entry that holds goes on holding whatever becomes of the disk. */
  lemma ChangeHolds(repo: Option<GitDir>, s: State, t: State, e: Entry, head: Option<Head>)
    requires EntryHolds(repo, s, e) && t.versions == s.versions + [head]
    ensures EntryHolds(repo, t, e)
  {
    if i: nat, j: nat :| ReadAfter(s, e, i, j) {
      assert ReadAfter(t, e, i, j);
    }
  }

  lemma SameVersionsHold(repo: Option<GitDir>, s: State, t: State, e: Entry)
    requires EntryHolds(repo, s, e) && t.versions == s.versions
    ensures EntryHolds(repo, t, e)
  {
    if i: nat, j: nat :| ReadAfter(s, e, i, j) {
      assert ReadAfter(t, e, i, j);
    }
  }

  lemma StepHolds(repo: Option<GitDir>, s: State, step: Step)
    requires Inv(repo, s) && Enabled(s, step)
    ensures Inv(repo, Do(repo, s, step))
  {
    var t := Do(repo, s, step);
    match step
    case Change(head) =>
      if s.entry.Some? {
        ChangeHolds(repo, s, t, s.entry.value, head);
      }
      if s.worker.Some? && s.worker.value.prev.Some? {
        ChangeHolds(repo, s, t, s.worker.value.prev.value, head);
      }
    case Finish =>
      CheckedHolds(repo, s, s.worker.value);
      if t.entry.Some? {
        SameVersionsHold(repo, s, t, t.entry.value);
      }
    case _ =>
      if s.entry.Some? {
        SameVersionsHold(repo, s, t, s.entry.value);
      }
      if s.worker.Some? && s.worker.value.prev.Some? {
        SameVersionsHold(repo, s, t, s.worker.value.prev.value);
      }
  }

  lemma {:induction false} RunHolds(repo: Option<GitDir>, s: State, steps: seq<Step>)
    requires Inv(repo, s) && Allowed(repo, s, steps)
    ensures Inv(repo, Run(repo, s, steps))
    decreases |steps|
  {
    if steps != [] {
      StepHolds(repo, s, steps[0]);
      RunHolds(repo, Do(repo, s, steps[0]), steps[1..]);
    }
  }

  // ------------------------------------------------------------------- self-healing

  /** An identity that is the disk's own now can only have come with what it now holds. */
  lemma CurrentIdentity(repo: Option<GitDir>, s: State, e: Entry)
    requires Unique(s) && s.versions != [] && repo.Some? && EntryHolds(repo, s, e)
    requires StatAt(s, Some(|s.versions| - 1)) == Some(e.head)
    ensures e.branch == Direct(repo, s)
  {
    var i: nat, j: nat :| ReadAfter(s, e, i, j);
    assert i == |s.versions| - 1;
  }

  /** A worker whose answers, so far, are all of the disk as it stands. */
  predicate OfNow(s: State, w: Worker) {
    && s.versions != []
    && (w.stat.Some? ==> w.stat.value == |s.versions| - 1)
    && (w.read.Some? ==> w.stat.Some? && w.read.value == |s.versions| - 1)
  }

  /** Such a worker leaves the branch a full read would show. */
  lemma CheckHeals(repo: Option<GitDir>, s: State)
    requires Inv(repo, s) && Enabled(s, Finish) && OfNow(s, s.worker.value)
    requires s.worker.value.prev == s.entry
    ensures BranchOf(Do(repo, s, Finish).entry) == Direct(repo, s)
  {
    var w := s.worker.value;
    if repo.Some? && w.prev.Some? && StatAt(s, w.stat) == Some(w.prev.value.head) {
      CurrentIdentity(repo, s, w.prev.value);
    }
  }

  /** A repository already known is forgotten when its HEAD is gone, left alone while HEAD
      has the identity it had, and otherwise takes on what HEAD now says, when it did. */
  lemma KnownIsRefreshed(prev: Entry, now: int, a: Answers)
    requires prev.gitDir.Some?
    ensures a.stat.None? ==> Checked(Some(prev), now, a) == None
    ensures a.stat == Some(prev.head) ==> Checked(Some(prev), now, a) == Some(prev)
    ensures a.stat.Some? && a.stat.value != prev.head ==>
              Checked(Some(prev), now, a) == Some(Entry(prev.gitDir, a.branch, a.stat.value, now))
  {
  }

  /** What the disk shows: the branch of its last version of HEAD, and nothing without a
      repository or a HEAD. */
  lemma DirectIs(repo: Option<GitDir>, s: State)
    requires s.versions != []
    ensures var head := s.versions[|s.versions| - 1];
      Direct(repo, s) == if repo.Some? && head.Some? then head.value.branch else ""
  {
  }

  /** One step is what it does, and runs go on from where they stand. */
  lemma {:induction false} RunsChain(repo: Option<GitDir>, s: State, steps: seq<Step>, step: Step)
    requires Allowed(repo, s, steps) && Enabled(Run(repo, s, steps), step)
    ensures Allowed(repo, s, steps + [step]) && Run(repo, s, steps + [step]) == Do(repo, Run(repo, s, steps), step)
    decreases |steps|
  {
    if steps == [] {
      assert steps + [step] == [step] && [step][1..] == [];
    } else {
      RunsChain(repo, Do(repo, s, steps[0]), steps[1..], step);
      assert (steps + [step])[1..] == steps[1..] + [step];
    }
  }

  /** A directory has at most one worker: until the one it has finishes, nothing replaces it,
      and a directory dropped meanwhile shows nothing. */
  lemma {:induction false} WorkerStays(repo: Option<GitDir>, s: State, steps: seq<Step>)
    requires Allowed(repo, s, steps) && s.worker.Some? && Finish !in steps
    ensures var t := Run(repo, s, steps);
      && t.worker.Some? && t.worker.value.now == s.worker.value.now && t.worker.value.prev == s.worker.value.prev
      && t.entry == if Drop in steps then None else s.entry
    decreases |steps|
  {
    if steps != [] {
      assert steps == [steps[0]] + steps[1..];
      WorkerStays(repo, Do(repo, s, steps[0]), steps[1..]);
    }
  }

  /** A directory without a repository is looked at again once its answer is thirty seconds
      old, and from then on shows whatever is there. */
  lemma MissIsRetried(prev: Entry, now: int, a: Answers)
    requires prev.gitDir.None?
    ensures var e := Checked(Some(prev), now, a);
      if now - prev.checkedAt < 30_000_000_000 then e == Some(prev)
      else
        && e.Some? && e.value.gitDir == a.gitDir && e.value.checkedAt == now
        && (a.gitDir.Some? && a.stat.Some? ==> e.value.branch == a.branch && e.value.head == a.stat.value)
        && (a.gitDir.None? || a.stat.None? ==> e.value.branch == "" && e.value.head == Identity(0, 0))
  {
  }

  /** What a row of checks leaves, each with its time and the disk's answers. */
  function CheckedAll(prev: Option<Entry>, checks: seq<(int, Answers)>): Option<Entry>
    decreases |checks|
  {
    if checks == [] then prev else CheckedAll(Checked(prev, checks[0].0, checks[0].1), checks[1..])
  }

  /** However often it is asked in between: the first check at or past that age is the one
      whose answers show. */
  lemma {:induction false} MissEnds(prev: Entry, checks: seq<(int, Answers)>, now: int, a: Answers)
    requires prev.gitDir.None?
    requires forall i | 0 <= i < |checks| :: checks[i].0 - prev.checkedAt < 30_000_000_000
    requires now - prev.checkedAt >= 30_000_000_000
    ensures CheckedAll(Some(prev), checks) == Some(prev)
    ensures CheckedAll(Some(prev), checks + [(now, a)]) == Some(FullRead(a, now))
    decreases |checks|
  {
    if checks == [] {
      assert (checks + [(now, a)])[1..] == [];
    } else {
      MissIsRetried(prev, checks[0].0, checks[0].1);
      MissEnds(prev, checks[1..], now, a);
      assert (checks + [(now, a)])[1..] == checks[1..] + [(now, a)];
    }
  }

  /** A step of the directory's own worker, or an attempt to start another. */
  predicate Works(step: Step) {
    step.Start? || step.Stat? || step.Read? || step.Finish?
  }

  /** Either the branch shown is what a full read would show, or a worker is at it whose
      answers are of the disk as it stands. */
  ghost predicate Healing(repo: Option<GitDir>, s: State) {
    && s.versions != []
    && (s.worker.None? ==> BranchOf(s.entry) == Direct(repo, s))
    && (s.worker.Some? ==> OfNow(s, s.worker.value) && s.worker.value.prev == s.entry)
  }

  lemma {:induction false} WorkHeals(repo: Option<GitDir>, s: State, steps: seq<Step>)
    requires Inv(repo, s) && Healing(repo, s) && Allowed(repo, s, steps)
    requires forall i | 0 <= i < |steps| :: Works(steps[i])
    ensures Healing(repo, Run(repo, s, steps))
    decreases |steps|
  {
    if steps != [] {
      StepHolds(repo, s, steps[0]);
      if steps[0].Finish? {
        CheckHeals(repo, s);
      }
      WorkHeals(repo, Do(repo, s, steps[0]), steps[1..]);
    }
  }

  /** The cache heals itself. Take any run up to a moment with no worker on the directory,
      after which the disk stays as it is and the directory is not dropped: the first
      check that starts then, and every one after it, leaves the branch a full read of the
      disk shows. */
  lemma CacheHeals(repo: Option<GitDir>, head: Option<Head>, before: seq<Step>, now: int, more: seq<Step>)
    requires head.Some? ==> head.value.id != NOBODY
    requires var s0 := State([head], None, None);
      && Allowed(repo, s0, before) && Run(repo, s0, before).worker.None?
      && Allowed(repo, Do(repo, Run(repo, s0, before), Start(now)), more)
    requires forall i | 0 <= i < |more| :: Works(more[i])
    ensures var s := Run(repo, Do(repo, Run(repo, State([head], None, None), before), Start(now)), more);
      && s.versions == Run(repo, State([head], None, None), before).versions != []
      && (s.worker.None? ==> BranchOf(s.entry) == Direct(repo, s))
  {
    var s0 := State([head], None, None);
    RunHolds(repo, s0, before);
    VersionsGrow(repo, s0, before);
    var s1 := Run(repo, s0, before);
    StepHolds(repo, s1, Start(now));
    WorkHeals(repo, Do(repo, s1, Start(now)), more);
    WorkChangesNothing(repo, Do(repo, s1, Start(now)), more);
  }

  lemma {:induction false} VersionsGrow(repo: Option<GitDir>, s: State, steps: seq<Step>)
    requires Allowed(repo, s, steps)
    ensures |s.versions| <= |Run(repo, s, steps).versions|
    decreases |steps|
  {
    if steps != [] {
      VersionsGrow(repo, Do(repo, s, steps[0]), steps[1..]);
    }
  }

  lemma {:induction false} WorkChangesNothing(repo: Option<GitDir>, s: State, steps: seq<Step>)
    requires Allowed(repo, s, steps) && forall i | 0 <= i < |steps| :: Works(steps[i])
    ensures Run(repo, s, steps).versions == s.versions
    decreases |steps|
  {
    if steps != [] {
      WorkChangesNothing(repo, Do(repo, s, steps[0]), steps[1..]);
    }
  }

  /** Nothing in the model can hold a worker up: once started on a directory nobody has,
      its stat, its read and its end are each possible in turn. */
  lemma CheckCompletes(repo: Option<GitDir>, s: State, now: int)
    requires s.worker.None? && s.versions != []
    ensures var started := Do(repo, s, Start(now));
      && Enabled(started, Stat) && Enabled(Do(repo, started, Stat), Read)
      && Enabled(Do(repo, Do(repo, started, Stat), Read), Finish)
      && Do(repo, Do(repo, Do(repo, started, Stat), Read), Finish).worker.None?
    ensures Enabled(s, Drop) && Enabled(s, Change(None))
  {
  }

  /** A read that finds no HEAD shows nothing, whatever the stat before it found. */
  lemma LostHeadShowsNothing(repo: Option<GitDir>, s: State)
    requires Enabled(s, Finish) && s.worker.value.stat.Some? && s.worker.value.prev.None?
    requires s.worker.value.read.value < |s.versions| && s.versions[s.worker.value.read.value].None?
    ensures BranchOf(Do(repo, s, Finish).entry) == ""
  {
  }
}

/** `decision_agent/evaluation/reporting.py`: replacing a set of files; the file system and the try
    block. */
module AtomicWrite {

  type Path = string

  /** One output path with its new content, in dictionary order. */
  datatype Output = Output(path: Path, content: string)

  /** The operations that can fail while the files are being replaced. */
  datatype Step = CreateTemp | WriteTemp | CreatePlaceholder | UnlinkPlaceholder | MoveToBackup | Install

  datatype Outcome = Done | NotUnique | Raised(step: Step)

  /** A file system with two oracles.  Operation number `n` fails when `fault(n)` holds; only a failing
      write leaves a trace, in the file it was writing.  `pick` chooses the name of a temporary file:
      any name, as long as it is not taken. */
  class FileSystem {
    var files: map<Path, string>
    var clock: nat
    const fault: nat -> bool
    const pick: set<Path> -> Path

    ghost predicate Valid() { forall taken {:trigger pick(taken)} :: pick(taken) !in taken }

    constructor (files: map<Path, string>, fault: nat -> bool, pick: set<Path> -> Path)
      requires forall taken {:trigger pick(taken)} :: pick(taken) !in taken
      ensures this.files == files && clock == 0 && this.fault == fault && this.pick == pick && Valid()
    {
      this.files, this.clock, this.fault, this.pick := files, 0, fault, pick;
    }

    method Create(path: Path) returns (ok: bool)
      requires path !in files
      modifies this
      ensures clock == old(clock) + 1 && ok == !fault(old(clock))
      ensures files == if ok then old(files)[path := ""] else old(files)
    {
      ok := !fault(clock);
      clock := clock + 1;
      if ok { files := files[path := ""]; }
    }

    /** A write that fails may already have put anything into the file. */
    method Write(path: Path, content: string) returns (ok: bool)
      requires path in files
      modifies this
      ensures clock == old(clock) + 1 && ok == !fault(old(clock))
      ensures path in files && files - {path} == old(files) - {path} && (ok ==> files[path] == content)
    {
      ok := !fault(clock);
      clock := clock + 1;
      var partial: string := *;
      files := files[path := if ok then content else partial];
    }

    /** `path.unlink()`; nothing happens to a path that does not exist. */
    method Unlink(path: Path) returns (ok: bool)
      modifies this
      ensures clock == old(clock) + 1 && ok == !fault(old(clock))
      ensures files == if ok then old(files) - {path} else old(files)
    {
      ok := !fault(clock);
      clock := clock + 1;
      if ok { files := files - {path}; }
    }

    /** `os.replace` */
    method Replace(source: Path, target: Path) returns (ok: bool)
      requires source in files && source != target
      modifies this
      ensures clock == old(clock) + 1 && ok == !fault(old(clock))
      ensures files == if ok then (old(files) - {source})[target := old(files)[source]] else old(files)
    {
      ok := !fault(clock);
      clock := clock + 1;
      if ok { files := (files - {source})[target := files[source]]; }
    }

  }

  // ---------------------------------------------------------------- what the disk holds during a run

  predicate Distinct(outputs: seq<Output>)
  {
    forall i, j :: 0 <= i < j < |outputs| ==> outputs[i].path != outputs[j].path
  }

  function Contents(outputs: seq<Output>): map<Path, string>
  {
    if outputs == [] then map[]
    else Contents(outputs[..|outputs| - 1])[outputs[|outputs| - 1].path := outputs[|outputs| - 1].content]
  }

  lemma {:induction false} ContentsOf(outputs: seq<Output>)
    requires Distinct(outputs)
    ensures Contents(outputs).Keys == set i | 0 <= i < |outputs| :: outputs[i].path
    ensures forall i :: 0 <= i < |outputs| ==> outputs[i].path in Contents(outputs)
                                               && Contents(outputs)[outputs[i].path] == outputs[i].content
  {
    if outputs != [] { ContentsOf(outputs[..|outputs| - 1]); }
  }

  /** Why a path exists that is neither an earlier file nor an output. */
  datatype Role = TempOf(output: Path) | BackupOf(output: Path) | Leaked

  /** `staged`, `backups` and `installed` of the run, and the role of every name it has picked. */
  datatype Progress = Progress(
    staged: map<Path, Path>, backups: map<Path, Path>, installed: set<Path>, roles: map<Path, Role>)

  datatype Entry = Absent | Present(content: string)

  function Get(files: map<Path, string>, p: Path): Entry
  {
    if p in files then Present(files[p]) else Absent
  }

  /** Picked names are new, and the dictionaries of the run agree with their roles. */
  ghost predicate Names(orig: map<Path, string>, news: map<Path, string>, g: Progress)
  {
    && (forall p :: p in g.roles ==> p !in orig && p !in news)
    && (forall p :: p in g.roles && g.roles[p].TempOf? ==>
        g.roles[p].output in g.staged && g.staged[g.roles[p].output] == p)
    && (forall p :: p in g.roles && g.roles[p].BackupOf? ==>
        g.roles[p].output in g.backups && g.backups[g.roles[p].output] == p)
    && (forall o :: o in g.staged ==> o in news && g.staged[o] in g.roles && g.roles[g.staged[o]] == TempOf(o))
    && (forall o :: o in g.backups ==>
        o in news && o in orig && g.backups[o] in g.roles && g.roles[g.backups[o]] == BackupOf(o))
    && (forall o :: o in g.installed ==> o in g.staged)
    && (g.installed != {} ==> forall o :: o in news && o in orig ==> o in g.backups)
  }

  /** What the disk should hold under a path: the earlier file, unless the run has moved it. */
  function Expected(orig: map<Path, string>, news: map<Path, string>, g: Progress, p: Path): Entry
  {
    if p in g.roles then
      match g.roles[p]
      case TempOf(o) => if o in g.installed then Absent else Get(news, o)
      case BackupOf(o) => Get(orig, o)
      case Leaked => Absent
    else if p in g.installed then Get(news, p)
    else if p in g.backups then Absent
    else Get(orig, p)
  }

  predicate IsLeak(g: Progress, p: Path) { p in g.roles && g.roles[p] == Leaked }

  ghost predicate Disk(files: map<Path, string>, orig: map<Path, string>, news: map<Path, string>, g: Progress)
  {
    forall p {:trigger Get(files, p)} ::
      if IsLeak(g, p) then p in files else Get(files, p) == Expected(orig, news, g, p)
  }

  /** What every step of the run keeps, told from the files as they were and the new contents. */
  ghost predicate Holds(files: map<Path, string>, orig: map<Path, string>, news: map<Path, string>, g: Progress)
  {
    Names(orig, news, g) && Disk(files, orig, news, g)
  }

  // ---------------------------------------------------------------- each step keeps it

  lemma {:induction false} FreshIsNew(
    files: map<Path, string>, orig: map<Path, string>, news: map<Path, string>, g: Progress, t: Path)
    requires Holds(files, orig, news, g) && g.installed == {}
    requires t !in files && t !in news
    ensures t !in orig && t !in g.roles
  {
    assert Get(files, t) == Absent;
  }

  lemma {:induction false} StageNames(
    orig: map<Path, string>, news: map<Path, string>, g: Progress, o: Path, t: Path)
    requires Names(orig, news, g) && g.installed == {} && o in news && o !in g.staged
    requires t !in orig && t !in news && t !in g.roles
    ensures Names(orig, news, g.(staged := g.staged[o := t], roles := g.roles[t := TempOf(o)]))
  {
  }

  lemma {:induction false} StageKeeps(
    files: map<Path, string>, orig: map<Path, string>, news: map<Path, string>, g: Progress, o: Path, t: Path,
    after: map<Path, string>)
    requires Holds(files, orig, news, g) && g.installed == {}
    requires o in news && o !in g.staged && t !in files && t !in news
    requires after == files[t := news[o]]
    ensures Holds(after, orig, news, g.(staged := g.staged[o := t], roles := g.roles[t := TempOf(o)]))
  {
    FreshIsNew(files, orig, news, g, t);
    StageNames(orig, news, g, o, t);
    var h := g.(staged := g.staged[o := t], roles := g.roles[t := TempOf(o)]);
    forall p ensures if IsLeak(h, p) then p in after else Get(after, p) == Expected(orig, news, h, p) {
      assert p != t ==> Get(after, p) == Get(files, p);
    }
  }

  /** A temporary file that no variable of the run names is left behind. */
  lemma {:induction false} LeakKeeps(
    files: map<Path, string>, orig: map<Path, string>, news: map<Path, string>, g: Progress, t: Path,
    after: map<Path, string>)
    requires Holds(files, orig, news, g) && g.installed == {}
    requires t !in files && t !in news
    requires t in after && after - {t} == files - {t}
    ensures Holds(after, orig, news, g.(roles := g.roles[t := Leaked]))
  {
    FreshIsNew(files, orig, news, g, t);
    var h := g.(roles := g.roles[t := Leaked]);
    forall p ensures if IsLeak(h, p) then p in after else Get(after, p) == Expected(orig, news, h, p) {
      if p != t {
        assert Get(after - {t}, p) == Get(after, p) && Get(files - {t}, p) == Get(files, p);
      }
    }
  }

  lemma {:induction false} BackupNames(
    orig: map<Path, string>, news: map<Path, string>, g: Progress, o: Path, b: Path)
    requires Names(orig, news, g) && g.installed == {} && o in news && o in orig && o !in g.backups
    requires b !in orig && b !in news && b !in g.roles
    ensures Names(orig, news, g.(backups := g.backups[o := b], roles := g.roles[b := BackupOf(o)]))
  {
  }

  lemma {:induction false} BackupKeeps(
    files: map<Path, string>, orig: map<Path, string>, news: map<Path, string>, g: Progress, o: Path, b: Path,
    after: map<Path, string>)
    requires Holds(files, orig, news, g) && g.installed == {}
    requires o in news && o in files && o !in g.backups && b !in files && b !in news
    requires after == (files - {o})[b := files[o]]
    ensures o in orig
    ensures Holds(after, orig, news, g.(backups := g.backups[o := b], roles := g.roles[b := BackupOf(o)]))
  {
    FreshIsNew(files, orig, news, g, b);
    assert Get(files, o) == Get(orig, o);
    BackupNames(orig, news, g, o, b);
    var h := g.(backups := g.backups[o := b], roles := g.roles[b := BackupOf(o)]);
    forall p ensures if IsLeak(h, p) then p in after else Get(after, p) == Expected(orig, news, h, p) {
      assert p != o && p != b ==> Get(after, p) == Get(files, p);
    }
  }

  lemma {:induction false} InstallKeeps(
    files: map<Path, string>, orig: map<Path, string>, news: map<Path, string>, g: Progress, o: Path,
    after: map<Path, string>)
    requires Holds(files, orig, news, g)
    requires forall q :: q in news && q in orig ==> q in g.backups
    requires o in g.staged && o !in g.installed
    ensures g.staged[o] in files && g.staged[o] != o
    requires after == (files - {g.staged[o]})[o := news[o]]
    ensures files[g.staged[o]] == news[o]
    ensures Holds(after, orig, news, g.(installed := g.installed + {o}))
  {
    var t := g.staged[o];
    assert Get(files, t) == Get(news, o);
    var h := g.(installed := g.installed + {o});
    forall p ensures if IsLeak(h, p) then p in after else Get(after, p) == Expected(orig, news, h, p) {
      assert p != o && p != t ==> Get(after, p) == Get(files, p);
    }
  }

  // ---------------------------------------------------------------- the try block

  ghost function Leaks(g: Progress): set<Path>
  {
    set p | p in g.roles && g.roles[p] == Leaked
  }

  /** No operation from number `from` up to number `to` fails. */
  ghost predicate Quiet(fault: nat -> bool, from: nat, to: nat)
  {
    forall n :: from <= n < to ==> !fault(n)
  }

  /** A phase stops at its first failing operation and only there. */
  ghost predicate Stops(fault: nat -> bool, from: nat, to: nat, ok: bool)
  {
    if ok then from <= to && Quiet(fault, from, to) else from < to && Quiet(fault, from, to - 1) && fault(to - 1)
  }

  /** A file is left behind when writing it failed after it was made, or its placeholder could not be
      removed again, and in no other case. */
  ghost predicate LeaksAfter(step: Step, leaks: set<Path>)
  {
    if step == WriteTemp || step == UnlinkPlaceholder then exists t :: leaks == {t} else leaks == {}
  }

  /** Operation number `n` of staging one output. */
  function StageStep(n: int): Step { if n == 0 then CreateTemp else WriteTemp }

  /** Operation number `n` of backing up one output. */
  function BackupStep(n: int): Step
  {
    if n == 0 then CreatePlaceholder else if n == 1 then UnlinkPlaceholder else MoveToBackup
  }

  /** What operation number `d` of a run over `k` outputs is, `e` of which exist. */
  function StepAt(k: nat, e: nat, d: nat): Step
  {
    if d < 2 * k then StageStep(d % 2)
    else if d < 2 * k + 3 * e then BackupStep((d - 2 * k) % 3)
    else Install
  }

  /** The operations whose failure leaves a file behind, by their number alone. */
  predicate LeakingOperation(k: nat, e: nat, d: nat)
  {
    (d < 2 * k && d % 2 == 1) || (2 * k <= d < 2 * k + 3 * e && (d - 2 * k) % 3 == 1)
  }

  /** How many outputs are backed up when operation number `d` is reached. */
  function BackedUpBy(k: nat, e: nat, d: nat): nat
  {
    if d < 2 * k then 0 else if d < 2 * k + 3 * e then (d - 2 * k) / 3 else e
  }

  /** And how many are installed. */
  function InstalledBy(k: nat, e: nat, d: nat): nat
  {
    if d < 2 * k + 3 * e then 0 else d - 2 * k - 3 * e
  }

  /** Operation `from + d` is the first that fails from `from` on. */
  ghost predicate FirstFault(fault: nat -> bool, from: nat, d: nat)
  {
    Quiet(fault, from, from + d) && fault(from + d)
  }

  lemma {:induction false} LeaksByNumber(k: nat, e: nat, d: nat, leaks: set<Path>)
    requires LeaksAfter(StepAt(k, e, d), leaks)
    ensures leaks != {} <==> LeakingOperation(k, e, d)
  {
  }

  /** How many of the outputs exist. */
  function Existing(outputs: seq<Output>, files: map<Path, string>): nat
  {
    if outputs == [] then 0
    else Existing(outputs[..|outputs| - 1], files) + (if outputs[|outputs| - 1].path in files then 1 else 0)
  }

  lemma {:induction false} ExistingNext(outputs: seq<Output>, files: map<Path, string>, i: nat)
    requires i < |outputs|
    ensures Existing(outputs[..i + 1], files)
              == Existing(outputs[..i], files) + (if outputs[i].path in files then 1 else 0)
  {
    assert outputs[..i + 1][..i] == outputs[..i];
  }

  lemma {:induction false} NoneExist(outputs: seq<Output>, files: map<Path, string>)
    ensures Existing(outputs[..0], files) == 0
  {
  }

  lemma {:induction false} ExistingGrows(outputs: seq<Output>, files: map<Path, string>, i: nat)
    requires i <= |outputs|
    ensures Existing(outputs[..i], files) <= Existing(outputs, files)
    decreases |outputs| - i
  {
    if i < |outputs| {
      ExistingNext(outputs, files, i);
      ExistingGrows(outputs, files, i + 1);
    } else {
      assert outputs[..i] == outputs;
    }
  }

  const NOTHING: Progress := Progress(map[], map[], {}, map[])

  lemma {:induction false} NothingYet(orig: map<Path, string>, news: map<Path, string>)
    ensures Holds(orig, orig, news, NOTHING)
  {
    forall p ensures if IsLeak(NOTHING, p) then p in orig else Get(orig, p) == Expected(orig, news, NOTHING, p) {
      assert !IsLeak(NOTHING, p);
    }
  }

  lemma {:induction false} LeaksUpdate(g: Progress, t: Path, role: Role, h: Progress)
    requires h.roles == g.roles[t := role] && t !in g.roles
    ensures Leaks(h) == if role == Leaked then Leaks(g) + {t} else Leaks(g)
  {}

  /** Stage one content: make a new file, then write it. */
  method StageOne(
    fs: FileSystem, output: Output, taken: set<Path>, ghost orig: map<Path, string>,
    ghost news: map<Path, string>, ghost g0: Progress)
    returns (ok: bool, step: Step, t: Path, ghost g: Progress)
    requires fs.Valid() && taken == news.Keys && output.path in news && news[output.path] == output.content
    requires output.path !in g0.staged
    requires Holds(fs.files, orig, news, g0) && g0.installed == {} && Leaks(g0) == {}
    modifies fs
    ensures Stops(fs.fault, old(fs.clock), fs.clock, ok)
    ensures Holds(fs.files, orig, news, g)
    ensures ok ==>
              && g == g0.(staged := g0.staged[output.path := t], roles := g0.roles[t := TempOf(output.path)])
              && Leaks(g) == {}
    ensures if ok then fs.clock == old(fs.clock) + 2
            else fs.clock <= old(fs.clock) + 2 && step == StageStep(fs.clock - old(fs.clock) - 1)
    ensures !ok ==> g.staged == g0.staged && g.backups == g0.backups && g.installed == {} && LeaksAfter(step, Leaks(g))
  {
    hide Holds;
    g := g0;
    step := CreateTemp;
    t := fs.pick(fs.files.Keys + taken);
    FreshIsNew(fs.files, orig, news, g0, t);
    ghost var before := fs.files;
    ok := fs.Create(t);
    if !ok {
      return;
    }
    ok := fs.Write(t, output.content);
    assert fs.files - {t} == before - {t};
    if ok {
      Rejoin(before, t, output.content, fs.files);
      StageKeeps(before, orig, news, g0, output.path, t, fs.files);
      g := g0.(staged := g0.staged[output.path := t], roles := g0.roles[t := TempOf(output.path)]);
      LeaksUpdate(g0, t, TempOf(output.path), g);
    } else {
      LeakKeeps(before, orig, news, g0, t, fs.files);
      g := g0.(roles := g0.roles[t := Leaked]);
      step := WriteTemp;
      LeaksUpdate(g0, t, Leaked, g);
    }
  }

  /** What holds after the first `i` outputs were staged. */
  ghost predicate Staged(
    files: map<Path, string>, orig: map<Path, string>, outputs: seq<Output>, i: nat, g: Progress)
    requires i <= |outputs|
  {
    && Holds(files, orig, Contents(outputs), g)
    && g.backups == map[] && g.installed == {} && Leaks(g) == {}
    && g.staged.Keys == set k | 0 <= k < i :: outputs[k].path
  }

  lemma {:induction false} StagedNext(
    files: map<Path, string>, orig: map<Path, string>, outputs: seq<Output>, i: nat, g: Progress, t: Path)
    requires Distinct(outputs) && i < |outputs| && outputs[i].path !in g.staged
    requires g.backups == map[] && g.installed == {} && g.staged.Keys == set k | 0 <= k < i :: outputs[k].path
    requires var h := g.(staged := g.staged[outputs[i].path := t], roles := g.roles[t := TempOf(outputs[i].path)]);
             Holds(files, orig, Contents(outputs), h) && Leaks(h) == {}
    ensures Staged(files, orig, outputs, i + 1,
                   g.(staged := g.staged[outputs[i].path := t], roles := g.roles[t := TempOf(outputs[i].path)]))
  {
  }

  lemma {:induction false} NotYetStaged(outputs: seq<Output>, i: nat, staged: set<Path>)
    requires Distinct(outputs) && i < |outputs| && staged == set k | 0 <= k < i :: outputs[k].path
    ensures outputs[i].path !in staged
  {
  }

  /** Which operation of the phase failed, when `done` of `all` outputs were staged before. */
  lemma {:induction false} StageStops(from: nat, start: nat, stop: nat, done: nat, all: nat, step: Step)
    requires start == from + 2 * done && start < stop <= start + 2 && done < all
    requires step == StageStep(stop - start - 1)
    ensures stop <= from + 2 * all && step == StageStep((stop - from - 1) % 2)
  {
    assert stop - from - 1 == 2 * done + (stop - start - 1);
  }

  /** Stage the content of every output in a temporary file beside it. */
  method StageAll(fs: FileSystem, outputs: seq<Output>, ghost orig: map<Path, string>)
    returns (ok: bool, step: Step, staged: map<Path, Path>, ghost g: Progress)
    requires fs.Valid() && Distinct(outputs) && fs.files == orig
    modifies fs
    ensures Stops(fs.fault, old(fs.clock), fs.clock, ok)
    ensures Holds(fs.files, orig, Contents(outputs), g)
    ensures g.staged == staged && g.backups == map[] && g.installed == {}
    ensures if ok then staged.Keys == Contents(outputs).Keys && Leaks(g) == {} else LeaksAfter(step, Leaks(g))
    ensures if ok then fs.clock == old(fs.clock) + 2 * |outputs|
            else fs.clock <= old(fs.clock) + 2 * |outputs| && step == StageStep((fs.clock - old(fs.clock) - 1) % 2)
  {
    hide Holds;
    ContentsOf(outputs);
    ghost var news := Contents(outputs);
    var taken := set i | 0 <= i < |outputs| :: outputs[i].path;
    ok, step, staged, g := true, CreateTemp, map[], NOTHING;
    NothingYet(orig, news);
    for i := 0 to |outputs|
      invariant ok && Stops(fs.fault, old(fs.clock), fs.clock, ok)
      invariant fs.clock == old(fs.clock) + 2 * i
      invariant Staged(fs.files, orig, outputs, i, g) && g.staged == staged
    {
      NotYetStaged(outputs, i, staged.Keys);
      ghost var start, before := fs.clock, g;
      var t;
      ok, step, t, g := StageOne(fs, outputs[i], taken, orig, news, g);
      StopsJoin(fs.fault, old(fs.clock), start, fs.clock, ok);
      if !ok {
        StageStops(old(fs.clock), start, fs.clock, i, |outputs|, step);
        return;
      }
      StagedNext(fs.files, orig, outputs, i, before, t);
      staged := staged[outputs[i].path := t];
    }
  }

  lemma {:induction false} Rejoin(files: map<Path, string>, t: Path, content: string, after: map<Path, string>)
    requires t in after && after - {t} == files - {t} && after[t] == content
    ensures after == files[t := content]
  {
    forall p | p != t ensures Get(after, p) == Get(files, p) {
      assert Get(after - {t}, p) == Get(after, p) && Get(files - {t}, p) == Get(files, p);
    }
    forall p ensures Get(after, p) == Get(files[t := content], p) {}
    SameEntries(after, files[t := content]);
  }

  lemma {:induction false} SameEntries(a: map<Path, string>, b: map<Path, string>)
    requires forall p :: Get(a, p) == Get(b, p)
    ensures a == b
  {
    assert forall p :: p in a ==> Get(b, p) == Present(a[p]);
    assert forall p :: p in b ==> Get(a, p) == Present(b[p]);
  }

  lemma {:induction false} CreateAndUnlink(files: map<Path, string>, b: Path)
    requires b !in files
    ensures files[b := ""] - {b} == files
    ensures files - {b} == files
  {
    forall p ensures Get(files[b := ""] - {b}, p) == Get(files, p) {}
    SameEntries(files[b := ""] - {b}, files);
    forall p ensures Get(files - {b}, p) == Get(files, p) {}
    SameEntries(files - {b}, files);
  }

  /** Find a backup name by making a placeholder and removing it again. */
  method ReserveName(
    fs: FileSystem, taken: set<Path>, ghost orig: map<Path, string>, ghost news: map<Path, string>,
    ghost g0: Progress)
    returns (ok: bool, step: Step, backup: Path, ghost g: Progress)
    requires fs.Valid() && taken == news.Keys
    requires Holds(fs.files, orig, news, g0) && g0.installed == {} && Leaks(g0) == {}
    modifies fs
    ensures Stops(fs.fault, old(fs.clock), fs.clock, ok)
    ensures Holds(fs.files, orig, news, g)
    ensures if ok then fs.clock == old(fs.clock) + 2
            else fs.clock <= old(fs.clock) + 2 && step == BackupStep(fs.clock - old(fs.clock) - 1)
    ensures ok ==> fs.files == old(fs.files) && g == g0 && backup !in fs.files && backup !in news && backup !in g.roles
    ensures !ok ==> g.staged == g0.staged && g.backups == g0.backups && g.installed == {} && LeaksAfter(step, Leaks(g))
  {
    hide Holds;
    g := g0;
    step := CreatePlaceholder;
    backup := fs.pick(fs.files.Keys + taken);
    FreshIsNew(fs.files, orig, news, g0, backup);
    ghost var before := fs.files;
    CreateAndUnlink(before, backup);
    ok := fs.Create(backup);
    if !ok {
      return;
    }
    ok := fs.Unlink(backup);
    if !ok {
      step := UnlinkPlaceholder;
      LeakKeeps(before, orig, news, g0, backup, fs.files);
      g := g0.(roles := g0.roles[backup := Leaked]);
      LeaksUpdate(g0, backup, Leaked, g);
    }
  }

  /** Move one existing output to a backup name. */
  method BackUpOne(
    fs: FileSystem, o: Path, taken: set<Path>, ghost orig: map<Path, string>, ghost news: map<Path, string>,
    ghost g0: Progress)
    returns (ok: bool, step: Step, backup: Path, ghost g: Progress)
    requires fs.Valid() && taken == news.Keys && o in news && o in fs.files && o !in g0.backups
    requires Holds(fs.files, orig, news, g0) && g0.installed == {} && Leaks(g0) == {}
    modifies fs
    ensures Stops(fs.fault, old(fs.clock), fs.clock, ok)
    ensures if ok then fs.clock == old(fs.clock) + 3
            else fs.clock <= old(fs.clock) + 3 && step == BackupStep(fs.clock - old(fs.clock) - 1)
    ensures Holds(fs.files, orig, news, g)
    ensures ok ==>
              && g == g0.(backups := g0.backups[o := backup], roles := g0.roles[backup := BackupOf(o)])
              && Leaks(g) == {}
    ensures !ok ==> g.staged == g0.staged && g.backups == g0.backups && g.installed == {} && LeaksAfter(step, Leaks(g))
  {
    hide Holds;
    ok, step, backup, g := ReserveName(fs, taken, orig, news, g0);
    if !ok {
      return;
    }
    ghost var before := fs.files;
    ok := fs.Replace(o, backup);
    if !ok {
      step := MoveToBackup;
      return;
    }
    BackupKeeps(before, orig, news, g0, o, backup, fs.files);
    g := g0.(backups := g0.backups[o := backup], roles := g0.roles[backup := BackupOf(o)]);
    LeaksUpdate(g0, backup, BackupOf(o), g);
  }

  /** What holds after the first `i` outputs were backed up. */
  ghost predicate BackedUp(
    files: map<Path, string>, orig: map<Path, string>, outputs: seq<Output>, i: nat, g0: Progress, g: Progress)
    requires i <= |outputs|
  {
    && Holds(files, orig, Contents(outputs), g)
    && g.staged == g0.staged && g.installed == {} && Leaks(g) == {}
    && (forall k :: i <= k < |outputs| ==> outputs[k].path !in g.backups)
    && (forall k :: 0 <= k < i && outputs[k].path in orig ==> outputs[k].path in g.backups)
    && |g.backups.Keys| == Existing(outputs[..i], orig)
  }

  lemma {:induction false} BackedUpNext(
    before: map<Path, string>, files: map<Path, string>, orig: map<Path, string>, outputs: seq<Output>, i: nat,
    g0: Progress, g: Progress, h: Progress)
    requires Distinct(outputs) && i < |outputs| && BackedUp(before, orig, outputs, i, g0, g)
    requires Holds(files, orig, Contents(outputs), h)
    requires h.staged == g.staged && h.installed == {} && Leaks(h) == {}
    requires h.backups.Keys == g.backups.Keys + (if outputs[i].path in orig then {outputs[i].path} else {})
    ensures BackedUp(files, orig, outputs, i + 1, g0, h)
  {
    ExistingNext(outputs, orig, i);
  }

  lemma {:induction false} NoneBackedUp(
    files: map<Path, string>, orig: map<Path, string>, outputs: seq<Output>, g: Progress)
    requires Holds(files, orig, Contents(outputs), g)
    requires g.backups == map[] && g.installed == {} && Leaks(g) == {}
    ensures BackedUp(files, orig, outputs, 0, g, g)
  {
    NoneExist(outputs, orig);
    assert g.backups.Keys == {};
  }

  lemma {:induction false} AllBackedUp(
    files: map<Path, string>, orig: map<Path, string>, outputs: seq<Output>, g0: Progress, g: Progress)
    requires Distinct(outputs) && BackedUp(files, orig, outputs, |outputs|, g0, g)
    ensures Holds(files, orig, Contents(outputs), g)
    ensures g.staged == g0.staged && g.installed == {} && Leaks(g) == {}
    ensures forall q :: q in Contents(outputs) && q in orig ==> q in g.backups
    ensures |g.backups.Keys| == Existing(outputs, orig)
  {
    ContentsOf(outputs);
    assert outputs[..|outputs|] == outputs;
  }

  lemma {:induction false} NextIsReady(
    files: map<Path, string>, orig: map<Path, string>, outputs: seq<Output>, i: nat, g0: Progress, g: Progress)
    requires Distinct(outputs) && i < |outputs| && BackedUp(files, orig, outputs, i, g0, g)
    ensures Holds(files, orig, Contents(outputs), g)
    ensures g.staged == g0.staged && g.installed == {} && Leaks(g) == {}
    ensures outputs[i].path in Contents(outputs) && outputs[i].path !in g.backups
    ensures |g.backups.Keys| == Existing(outputs[..i], orig)
  {
    ContentsOf(outputs);
  }

  /** Where backing up the next output ended: an output that does not exist takes no operation. */
  predicate NextEnds(start: nat, stop: nat, present: bool, ok: bool, step: Step)
  {
    if ok then stop == start + (if present then 3 else 0)
    else present && start < stop <= start + 3 && step == BackupStep(stop - start - 1)
  }

  /** The body of the loop: back up one output if it exists. */
  method BackUpNext(
    fs: FileSystem, o: Path, backups: map<Path, Path>, taken: set<Path>, ghost orig: map<Path, string>,
    ghost news: map<Path, string>, ghost g0: Progress)
    returns (ok: bool, step: Step, all: map<Path, Path>, ghost g: Progress)
    requires fs.Valid() && taken == news.Keys && o in news && o !in backups && g0.backups == backups
    requires Holds(fs.files, orig, news, g0) && g0.installed == {} && Leaks(g0) == {}
    modifies fs
    ensures Stops(fs.fault, old(fs.clock), fs.clock, ok)
    ensures NextEnds(old(fs.clock), fs.clock, o in orig, ok, step)
    ensures Holds(fs.files, orig, news, g) && g.staged == g0.staged && g.installed == {} && g.backups == all
    ensures ok ==> Leaks(g) == {} && all.Keys == backups.Keys + (if o in orig then {o} else {})
    ensures !ok ==> all == backups && LeaksAfter(step, Leaks(g))
  {
    hide Holds, LeaksAfter, BackupStep;
    NotStarted(fs.fault, fs.clock);
    OutputStillThere(fs.files, orig, news, g0, o);
    ok, step, all, g := true, CreatePlaceholder, backups, g0;
    if o in fs.files {
      var backup;
      ok, step, backup, g := BackUpOne(fs, o, taken, orig, news, g0);
      if ok {
        all := backups[o := backup];
      }
    }
  }

  /** Where backing up `all` outputs ended, counted from its first operation, with `count` of them done. */
  predicate BackupEnds(from: nat, stop: nat, all: nat, ok: bool, step: Step, count: nat)
  {
    if ok then stop == from + 3 * all && count == all
    else from < stop <= from + 3 * all && step == BackupStep((stop - from - 1) % 3) && count == (stop - from - 1) / 3
  }

  /** Which operation of the phase failed, when `done` of `all` outputs were backed up before. */
  lemma {:induction false} BackupStops(from: nat, start: nat, stop: nat, done: nat, all: nat, step: Step)
    requires start == from + 3 * done && start < stop <= start + 3 && done < all
    requires step == BackupStep(stop - start - 1)
    ensures BackupEnds(from, stop, all, false, step, done)
  {
    assert stop - from - 1 == 3 * done + (stop - start - 1);
  }

  lemma {:induction false} OneBackupLater(
    fault: nat -> bool, from: nat, start: nat, stop: nat, outputs: seq<Output>, orig: map<Path, string>, i: nat,
    ok: bool, step: Step)
    requires Stops(fault, from, start, true) && Stops(fault, start, stop, ok)
    requires i < |outputs| && start == from + 3 * Existing(outputs[..i], orig)
    requires NextEnds(start, stop, outputs[i].path in orig, ok, step)
    ensures Stops(fault, from, stop, ok)
    ensures ok ==> stop == from + 3 * Existing(outputs[..i + 1], orig)
    ensures !ok ==> BackupEnds(from, stop, Existing(outputs, orig), false, step, Existing(outputs[..i], orig))
  {
    hide Existing;
    StopsJoin(fault, from, start, stop, ok);
    ExistingNext(outputs, orig, i);
    ExistingGrows(outputs, orig, i + 1);
    if !ok {
      BackupStops(from, start, stop, Existing(outputs[..i], orig), Existing(outputs, orig), step);
    }
  }

  lemma {:induction false} AllOfPhase(from: nat, stop: nat, all: nat, step: Step)
    requires stop == from + 3 * all
    ensures BackupEnds(from, stop, all, true, step, all)
  {
  }

  /** Move every existing output out of the way. */
  method BackUpAll(fs: FileSystem, outputs: seq<Output>, ghost orig: map<Path, string>, ghost g0: Progress)
    returns (ok: bool, step: Step, backups: map<Path, Path>, ghost g: Progress)
    requires fs.Valid() && Distinct(outputs)
    requires Holds(fs.files, orig, Contents(outputs), g0)
    requires g0.backups == map[] && g0.installed == {} && Leaks(g0) == {}
    modifies fs
    ensures Stops(fs.fault, old(fs.clock), fs.clock, ok)
    ensures BackupEnds(old(fs.clock), fs.clock, Existing(outputs, orig), ok, step, |backups.Keys|)
    ensures Holds(fs.files, orig, Contents(outputs), g)
    ensures g.staged == g0.staged && g.backups == backups && g.installed == {}
    ensures ok ==> Leaks(g) == {} && forall q :: q in Contents(outputs) && q in orig ==> q in backups
    ensures !ok ==> LeaksAfter(step, Leaks(g))
  {
    hide Holds, BackedUp, Stops, LeaksAfter, BackupEnds, BackupStep, Existing, NextEnds;
    NoneExist(outputs, orig);
    NotStarted(fs.fault, fs.clock);
    ContentsOf(outputs);
    var taken := set i | 0 <= i < |outputs| :: outputs[i].path;
    ok, step, backups, g := true, CreatePlaceholder, map[], g0;
    NoneBackedUp(fs.files, orig, outputs, g0);
    for i := 0 to |outputs|
      invariant ok && Stops(fs.fault, old(fs.clock), fs.clock, ok)
      invariant fs.clock == old(fs.clock) + 3 * Existing(outputs[..i], orig)
      invariant BackedUp(fs.files, orig, outputs, i, g0, g) && g.backups == backups
    {
      ghost var before, h, start := fs.files, g, fs.clock;
      NextIsReady(before, orig, outputs, i, g0, h);
      ok, step, backups, g := BackUpNext(fs, outputs[i].path, backups, taken, orig, Contents(outputs), g);
      OneBackupLater(fs.fault, old(fs.clock), start, fs.clock, outputs, orig, i, ok, step);
      if !ok {
        return;
      }
      BackedUpNext(before, fs.files, orig, outputs, i, g0, h, g);
    }
    assert outputs[..|outputs|] == outputs;
    AllBackedUp(fs.files, orig, outputs, g0, g);
    AllOfPhase(old(fs.clock), fs.clock, |backups.Keys|, step);
  }

  lemma {:induction false} OutputStillThere(
    files: map<Path, string>, orig: map<Path, string>, news: map<Path, string>, g: Progress, o: Path)
    requires Holds(files, orig, news, g) && g.installed == {}
    requires o in news && o !in g.backups
    ensures o in files <==> o in orig
  {
    assert Get(files, o) == Get(orig, o);
  }

  function PathsUpTo(outputs: seq<Output>, i: nat): set<Path>
    requires i <= |outputs|
  {
    set k | 0 <= k < i :: outputs[k].path
  }

  lemma {:induction false} NextPath(outputs: seq<Output>, i: nat)
    requires Distinct(outputs) && i < |outputs|
    ensures outputs[i].path !in PathsUpTo(outputs, i) && outputs[i].path in PathsUpTo(outputs, |outputs|)
    ensures PathsUpTo(outputs, i + 1) == PathsUpTo(outputs, i) + {outputs[i].path}
  {
  }

  /** Move every staged file to its output. */
  method InstallAll(
    fs: FileSystem, outputs: seq<Output>, staged: map<Path, Path>, ghost orig: map<Path, string>,
    ghost g0: Progress)
    returns (ok: bool, installed: set<Path>, ghost g: Progress)
    requires Distinct(outputs) && staged.Keys == Contents(outputs).Keys
    requires Holds(fs.files, orig, Contents(outputs), g0) && g0.staged == staged && g0.installed == {}
    requires forall q :: q in Contents(outputs) && q in orig ==> q in g0.backups
    modifies fs
    ensures Stops(fs.fault, old(fs.clock), fs.clock, ok)
    ensures if ok then fs.clock == old(fs.clock) + |outputs| else fs.clock <= old(fs.clock) + |outputs|
    ensures Holds(fs.files, orig, Contents(outputs), g)
    ensures g == g0.(installed := installed)
    ensures ok ==> installed == Contents(outputs).Keys
    ensures !ok ==> |installed| == fs.clock - old(fs.clock) - 1
  {
    hide Holds, Stops;
    NotStarted(fs.fault, fs.clock);
    ContentsOf(outputs);
    ghost var news := Contents(outputs);
    ok, installed, g := true, {}, g0;
    for i := 0 to |outputs|
      invariant ok && Stops(fs.fault, old(fs.clock), fs.clock, ok) && fs.clock == old(fs.clock) + i
      invariant Holds(fs.files, orig, news, g)
      invariant g == g0.(installed := installed)
      invariant installed == PathsUpTo(outputs, i) && |installed| == i
    {
      var o := outputs[i].path;
      NextPath(outputs, i);
      ghost var start := fs.clock;
      ok, g := InstallOne(fs, o, staged[o], orig, news, g);
      StopsJoin(fs.fault, old(fs.clock), start, fs.clock, ok);
      if !ok {
        return;
      }
      installed := installed + {o};
    }
  }

  method InstallOne(
    fs: FileSystem, o: Path, temporary: Path, ghost orig: map<Path, string>, ghost news: map<Path, string>,
    ghost g0: Progress)
    returns (ok: bool, ghost g: Progress)
    requires Holds(fs.files, orig, news, g0) && o in g0.staged && g0.staged[o] == temporary && o !in g0.installed
    requires forall q :: q in news && q in orig ==> q in g0.backups
    modifies fs
    ensures Stops(fs.fault, old(fs.clock), fs.clock, ok) && fs.clock == old(fs.clock) + 1
    ensures Holds(fs.files, orig, news, g)
    ensures g == if ok then g0.(installed := g0.installed + {o}) else g0
  {
    ghost var before := fs.files;
    InstallKeeps(before, orig, news, g0, o, (before - {temporary})[o := news[o]]);
    ok := fs.Replace(temporary, o);
    g := if ok then g0.(installed := g0.installed + {o}) else g0;
  }

  lemma {:induction false} StopsJoin(fault: nat -> bool, from: nat, mid: nat, to: nat, ok: bool)
    requires Stops(fault, from, mid, true) && Stops(fault, mid, to, ok)
    ensures Stops(fault, from, to, ok)
    ensures !ok ==> from <= mid < to
  {}

  lemma {:induction false} NotStarted(fault: nat -> bool, from: nat)
    ensures Stops(fault, from, from, true)
  {}

  // ---------------------------------------------------------------- which operation fails, by its number

  /** How many operations a run over the outputs takes. */
  function Operations(outputs: seq<Output>, files: map<Path, string>): nat
  {
    3 * |outputs| + 3 * Existing(outputs, files)
  }

  /** Where the try block stopped: the operation counted from its start, and whether it was the last. */
  ghost predicate StoppedAt(outputs: seq<Output>, files: map<Path, string>, d: int, ok: bool, step: Step)
  {
    if ok then d == Operations(outputs, files)
    else 0 < d <= Operations(outputs, files) && step == StepAt(|outputs|, Existing(outputs, files), d - 1)
  }

  /** How far the run has come when operation number `d` fails. */
  ghost predicate ProgressAt(outputs: seq<Output>, files: map<Path, string>, d: int, backups: nat, installed: nat)
  {
    && 0 <= d
    && backups == BackedUpBy(|outputs|, Existing(outputs, files), d)
    && installed == InstalledBy(|outputs|, Existing(outputs, files), d)
  }

  /** The run succeeds exactly when none of its operations fails; otherwise it stops at the first that
      does, and that operation's number decides whether a file is left behind. */
  ghost predicate Decided(
    fault: nat -> bool, start: nat, outputs: seq<Output>, files: map<Path, string>, r: Outcome, leaked: set<Path>)
  {
    && (r.Done? <==> Quiet(fault, start, start + Operations(outputs, files)))
    && forall d: nat {:trigger FirstFault(fault, start, d)} ::
         d < Operations(outputs, files) && FirstFault(fault, start, d) ==>
           && r == Raised(StepAt(|outputs|, Existing(outputs, files), d))
           && (leaked != {} <==> LeakingOperation(|outputs|, Existing(outputs, files), d))
  }

  lemma {:induction false} FirstFaultIsUnique(fault: nat -> bool, start: nat, a: nat, b: nat)
    requires FirstFault(fault, start, a) && FirstFault(fault, start, b)
    ensures a == b
  {
    assert fault(start + a) && fault(start + b);
  }

  lemma {:induction false} DecidedByFirstFault(
    fault: nat -> bool, start: nat, stop: nat, outputs: seq<Output>, files: map<Path, string>, ok: bool, step: Step,
    leaked: set<Path>)
    requires Stops(fault, start, stop, ok) && StoppedAt(outputs, files, stop - start, ok, step)
    requires !ok ==> LeaksAfter(step, leaked)
    ensures Decided(fault, start, outputs, files, if ok then Done else Raised(step), leaked)
    ensures !ok ==> |leaked| <= 1
  {
    if !ok {
      LeaksByNumber(|outputs|, Existing(outputs, files), stop - start - 1, leaked);
      forall d: nat | FirstFault(fault, start, d) ensures d == stop - start - 1 {
        FirstFaultIsUnique(fault, start, d, stop - start - 1);
      }
    } else {
      forall d: nat | d < Operations(outputs, files) ensures !FirstFault(fault, start, d) {
        assert !fault(start + d);
      }
    }
  }

  /** The number of the failing operation in the whole run, phase by phase. */
  lemma {:induction false} StopsInStage(k: nat, e: nat, n: nat, step: Step)
    requires n < 2 * k && step == StageStep(n % 2)
    ensures step == StepAt(k, e, n) && BackedUpBy(k, e, n) == InstalledBy(k, e, n) == 0
  {
  }

  lemma {:induction false} StopsInBackup(k: nat, e: nat, n: nat, step: Step)
    requires n < 3 * e && step == BackupStep(n % 3)
    ensures step == StepAt(k, e, 2 * k + n) && BackedUpBy(k, e, 2 * k + n) == n / 3 && InstalledBy(k, e, 2 * k + n) == 0
  {
    assert 2 * k + n - 2 * k == n;
  }

  lemma {:induction false} StopsInInstall(k: nat, e: nat, n: nat)
    ensures StepAt(k, e, 2 * k + 3 * e + n) == Install
    ensures BackedUpBy(k, e, 2 * k + 3 * e + n) == e && InstalledBy(k, e, 2 * k + 3 * e + n) == n
  {
  }

  /** The try block: stage, back up, install, up to the first failing operation. */
  method TryReplace(fs: FileSystem, outputs: seq<Output>, ghost orig: map<Path, string>)
    returns (ok: bool, step: Step, staged: map<Path, Path>, backups: map<Path, Path>, installed: set<Path>,
        ghost g: Progress)
    requires fs.Valid() && Distinct(outputs) && fs.files == orig
    modifies fs
    ensures Stops(fs.fault, old(fs.clock), fs.clock, ok)
    ensures Holds(fs.files, orig, Contents(outputs), g)
    ensures g.staged == staged && g.backups == backups && g.installed == installed
    ensures ok ==> installed == Contents(outputs).Keys && Leaks(g) == {}
    ensures !ok ==> LeaksAfter(step, Leaks(g))
    ensures StoppedAt(outputs, orig, fs.clock - old(fs.clock), ok, step)
    ensures ok ==> |backups.Keys| == Existing(outputs, orig) && old(fs.clock) <= fs.clock
    ensures !ok ==> ProgressAt(outputs, orig, fs.clock - old(fs.clock) - 1, |backups.Keys|, |installed|)
  {
    hide Holds, BackupStep, StageStep, StepAt, BackedUpBy, InstalledBy;
    backups, installed := map[], {};
    ghost var k, e, start := |outputs|, Existing(outputs, orig), fs.clock;
    ok, step, staged, g := StageAll(fs, outputs, orig);
    if !ok {
      StopsInStage(k, e, fs.clock - start - 1, step);
      return;
    }
    ghost var mid := fs.clock;
    ok, step, backups, g := BackUpAll(fs, outputs, orig, g);
    StopsJoin(fs.fault, start, mid, fs.clock, ok);
    if !ok {
      StopsInBackup(k, e, fs.clock - mid - 1, step);
      return;
    }
    mid := fs.clock;
    step := Install;
    ok, installed, g := InstallAll(fs, outputs, staged, orig, g);
    StopsJoin(fs.fault, start, mid, fs.clock, ok);
    if !ok {
      StopsInInstall(k, e, fs.clock - mid - 1);
    }
  }
}

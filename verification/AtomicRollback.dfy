/** `decision_agent/evaluation/reporting.py`: rollback, clean-up and the whole operation.  Operations of
    the rollback and the clean-up can fail too.  An exception in the `except` block does not stop the
    `finally` block, which deletes the backups. */
module AtomicRollback {
  import opened AtomicWrite

  // ---------------------------------------------------------------- rollback and clean-up

  /** `for path in paths: path.unlink(missing_ok=True)`, up to the first failing operation; `rest` are
      the paths that were not unlinked. */
  method UnlinkAll(fs: FileSystem, paths: set<Path>) returns (ok: bool, ghost rest: set<Path>)
    modifies fs
    ensures Stops(fs.fault, old(fs.clock), fs.clock, ok)
    ensures ok ==> fs.clock == old(fs.clock) + |paths|
    ensures !ok ==> fs.clock <= old(fs.clock) + |paths|
    ensures rest <= paths && (ok <==> rest == {})
    ensures fs.files == old(fs.files) - (paths - rest)
  {
    var todo := paths;
    ok := true;
    assert old(fs.files) - (paths - todo) == old(fs.files);
    while todo != {}
      invariant todo <= paths && |todo| + (fs.clock - old(fs.clock)) == |paths|
      invariant Stops(fs.fault, old(fs.clock), fs.clock, true)
      invariant fs.files == old(fs.files) - (paths - todo)
      decreases todo
    {
      var p :| p in todo;
      ok := fs.Unlink(p);
      if !ok {
        return false, todo;
      }
      RemoveOne(old(fs.files), paths, todo, p);
      todo := todo - {p};
    }
    return true, {};
  }

  lemma {:induction false} RemoveOne(files: map<Path, string>, paths: set<Path>, todo: set<Path>, p: Path)
    requires p in todo && todo <= paths
    ensures files - (paths - todo) - {p} == files - (paths - (todo - {p}))
    ensures |todo - {p}| == |todo| - 1
  {
    assert paths - (todo - {p}) == (paths - todo) + {p};
  }

  /** What the disk holds under a path while the backups in `todo` are still to be restored. */
  function DuringRestore(
    files: map<Path, string>, g: Progress, orig: map<Path, string>, todo: set<Path>, p: Path): Entry
  {
    if p in g.backups && p !in todo then Get(orig, p)
    else if p in g.roles && g.roles[p].BackupOf? && g.roles[p].output !in todo then Absent
    else Get(files, p)
  }

  lemma {:induction false} RestoreStep(
    files: map<Path, string>, start: map<Path, string>, orig: map<Path, string>, news: map<Path, string>, g: Progress,
    todo: set<Path>, o: Path, after: map<Path, string>)
    requires Names(orig, news, g) && todo <= g.backups.Keys && o in todo
    requires forall p :: Get(files, p) == DuringRestore(start, g, orig, todo, p)
    requires g.backups[o] in files && files[g.backups[o]] == orig[o]
    requires after == (files - {g.backups[o]})[o := files[g.backups[o]]]
    ensures forall p :: Get(after, p) == DuringRestore(start, g, orig, todo - {o}, p)
  {
    var b := g.backups[o];
    forall p ensures Get(after, p) == DuringRestore(start, g, orig, todo - {o}, p) {
      if p != o && p != b {
        assert Get(after, p) == Get(files, p);
      }
    }
  }

  /** The disk while the backups in `todo` are still to be moved back. */
  ghost predicate Restoring(
    files: map<Path, string>, start: map<Path, string>, g: Progress, orig: map<Path, string>, todo: set<Path>)
  {
    todo <= g.backups.Keys && forall p :: Get(files, p) == DuringRestore(start, g, orig, todo, p)
  }

  lemma {:induction false} NotRestoredYet(
    files: map<Path, string>, orig: map<Path, string>, news: map<Path, string>, g: Progress)
    requires Names(orig, news, g)
    ensures Restoring(files, files, g, orig, g.backups.Keys)
  {
  }

  lemma {:induction false} NextBackupStands(
    files: map<Path, string>, start: map<Path, string>, orig: map<Path, string>, news: map<Path, string>, g: Progress,
    todo: set<Path>, o: Path)
    requires Names(orig, news, g) && Restoring(files, start, g, orig, todo) && o in todo
    requires forall b :: b in g.backups ==> Get(start, g.backups[b]) == Get(orig, b)
    ensures g.backups[o] in files && g.backups[o] != o && o in orig && files[g.backups[o]] == orig[o]
  {
    assert Get(files, g.backups[o]) == DuringRestore(start, g, orig, todo, g.backups[o]);
    assert Get(start, g.backups[o]) == Get(orig, o);
  }

  lemma {:induction false} NextIsRestored(
    files: map<Path, string>, start: map<Path, string>, orig: map<Path, string>, news: map<Path, string>, g: Progress,
    todo: set<Path>, o: Path, after: map<Path, string>)
    requires Names(orig, news, g) && Restoring(files, start, g, orig, todo) && o in todo
    requires g.backups[o] in files && o in orig && files[g.backups[o]] == orig[o]
    requires after == (files - {g.backups[o]})[o := files[g.backups[o]]]
    ensures Restoring(after, start, g, orig, todo - {o}) && |todo - {o}| == |todo| - 1
  {
    RestoreStep(files, start, orig, news, g, todo, o, after);
  }

  /** The loop that moves every backup back, up to the first failing operation; `lost` are the outputs
      whose backups were not moved. */
  method RestoreEach(
    fs: FileSystem, backups: map<Path, Path>, ghost orig: map<Path, string>, ghost news: map<Path, string>,
    ghost g: Progress)
    returns (ok: bool, ghost lost: set<Path>)
    requires Names(orig, news, g) && g.backups == backups
    requires forall o :: o in backups ==> Get(fs.files, backups[o]) == Get(orig, o)
    modifies fs
    ensures Stops(fs.fault, old(fs.clock), fs.clock, ok)
    ensures ok ==> fs.clock == old(fs.clock) + |backups.Keys|
    ensures !ok ==> fs.clock <= old(fs.clock) + |backups.Keys|
    ensures lost <= backups.Keys && (ok <==> lost == {})
    ensures Restoring(fs.files, old(fs.files), g, orig, lost)
  {
    hide Names, Restoring;
    var todo := backups.Keys;
    ok := true;
    ghost var start := fs.files;
    NotRestoredYet(start, orig, news, g);
    while todo != {}
      invariant todo <= backups.Keys && |todo| + (fs.clock - old(fs.clock)) == |backups.Keys|
      invariant Stops(fs.fault, old(fs.clock), fs.clock, true)
      invariant Restoring(fs.files, start, g, orig, todo)
      decreases todo
    {
      var o :| o in todo;
      ghost var before := fs.files;
      NextBackupStands(before, start, orig, news, g, todo, o);
      if backups[o] in fs.files {
        ok := fs.Replace(backups[o], o);
        if !ok {
          return false, todo;
        }
      }
      NextIsRestored(before, start, orig, news, g, todo, o, fs.files);
      todo := todo - {o};
    }
    return true, {};
  }

  /** What a path holds in the end, when the outputs `kept` were installed and not unlinked again and
      the backups of the outputs `lost` were not moved back. */
  function AfterUndo(
    orig: map<Path, string>, news: map<Path, string>, kept: set<Path>, lost: set<Path>, p: Path): Entry
  {
    if p in kept then Get(news, p) else if p in lost then Absent else Get(orig, p)
  }

  lemma {:induction false} ValuesByRole(orig: map<Path, string>, news: map<Path, string>, g: Progress, p: Path)
    requires Names(orig, news, g)
    ensures p in g.staged.Values <==> p in g.roles && g.roles[p].TempOf?
    ensures p in g.backups.Values <==> p in g.roles && g.roles[p].BackupOf?
  {
    if p in g.roles && g.roles[p].TempOf? { assert g.staged[g.roles[p].output] == p; }
    if p in g.roles && g.roles[p].BackupOf? { assert g.backups[g.roles[p].output] == p; }
  }

  /** What one path holds after the `except` and the `finally` block; `gone` are the temporary files and
      backups that the clean-up has deleted. */
  lemma {:induction false} UndoneAt(
    start: map<Path, string>, f1: map<Path, string>, f2: map<Path, string>, after: map<Path, string>,
    orig: map<Path, string>, news: map<Path, string>, g: Progress, kept: set<Path>, lost: set<Path>, gone: set<Path>,
    p: Path)
    requires Holds(start, orig, news, g)
    requires kept <= g.installed && (kept != {} ==> lost == g.backups.Keys)
    requires f1 == start - (g.installed - kept)
    requires Restoring(f2, f1, g, orig, lost)
    requires gone <= g.staged.Values + g.backups.Values && after == f2 - gone
    ensures p !in g.roles ==> Get(after, p) == AfterUndo(orig, news, kept, lost, p)
    ensures p in gone ==> p !in after
    ensures IsLeak(g, p) ==> p in after
  {
    assert Get(f1, p) == if p in g.installed - kept then Absent else Get(start, p);
    assert if IsLeak(g, p) then p in start else Get(start, p) == Expected(orig, news, g, p);
    ValuesByRole(orig, news, g, p);
    assert Get(f2, p) == DuringRestore(f1, g, orig, lost, p);
    assert Get(after, p) == if p in gone then Absent else Get(f2, p);
  }

  /** The `except` block and then the `finally` block after the try block has stopped in state `g`.
      `kept` and `lost` say how far the `except` block came; every output and every earlier file is then
      as `AfterUndo` says, and no temporary file or backup is left if the clean-up came to its end. */
  method Undo(
    fs: FileSystem, staged: map<Path, Path>, backups: map<Path, Path>, installed: set<Path>,
    ghost orig: map<Path, string>, ghost news: map<Path, string>, ghost g: Progress)
    returns (undone: bool, clean: bool, ghost kept: set<Path>, ghost lost: set<Path>, ghost mid: nat)
    requires Holds(fs.files, orig, news, g)
    requires g.staged == staged && g.backups == backups && g.installed == installed
    modifies fs
    ensures undone <==> Quiet(fs.fault, old(fs.clock), old(fs.clock) + |installed| + |backups.Keys|)
    ensures undone <==> kept == {} && lost == {}
    ensures kept <= installed && lost <= backups.Keys && (kept != {} ==> lost == backups.Keys)
    ensures Stops(fs.fault, old(fs.clock), mid, undone) && Stops(fs.fault, mid, fs.clock, clean)
    ensures forall p :: p !in g.roles ==> Get(fs.files, p) == AfterUndo(orig, news, kept, lost, p)
    ensures forall p :: IsLeak(g, p) ==> p in fs.files
    ensures clean ==> forall p :: p in g.roles && !IsLeak(g, p) ==> p !in fs.files
  {
    hide Holds, Stops, Names, Restoring;
    ghost var start, from := fs.files, fs.clock;
    undone, kept := UnlinkAll(fs, installed);
    ghost var f1 := fs.files;
    mid := fs.clock;
    lost := backups.Keys;
    BackupsStand(start, f1, orig, news, g, kept);
    if undone {
      undone, lost := RestoreEach(fs, backups, orig, news, g);
      StopsJoin(fs.fault, from, mid, fs.clock, undone);
      mid := fs.clock;
    } else {
      NotRestoredYet(f1, orig, news, g);
    }
    QuietIff(fs.fault, from, mid, |installed| + |backups.Keys|, undone);
    ghost var f2 := fs.files;
    ghost var gone: set<Path>;
    clean, gone := CleanUp(fs, staged, backups);
    forall p
      ensures p !in g.roles ==> Get(fs.files, p) == AfterUndo(orig, news, kept, lost, p)
      ensures p in gone ==> p !in fs.files
      ensures IsLeak(g, p) ==> p in fs.files
    {
      UndoneAt(start, f1, f2, fs.files, orig, news, g, kept, lost, gone, p);
    }
    forall p | p in g.roles && !IsLeak(g, p) ensures p in staged.Values + backups.Values {
      NamesOfRun(start, orig, news, g, p);
    }
  }

  lemma {:induction false} TwoRemovals(files: map<Path, string>, a: set<Path>, b: set<Path>)
    ensures files - (a - {}) - b == files - (a + b)
  {
    assert a - {} == a;
  }

  /** The `finally` block. */
  method CleanUp(fs: FileSystem, staged: map<Path, Path>, backups: map<Path, Path>)
    returns (clean: bool, ghost gone: set<Path>)
    modifies fs
    ensures Stops(fs.fault, old(fs.clock), fs.clock, clean)
    ensures gone <= staged.Values + backups.Values && fs.files == old(fs.files) - gone
    ensures clean ==> gone == staged.Values + backups.Values
  {
    hide Stops;
    ghost var start, from := fs.files, fs.clock;
    ghost var rest;
    clean, rest := UnlinkAll(fs, staged.Values);
    gone := staged.Values - rest;
    if clean {
      ghost var mid := fs.clock;
      clean, rest := UnlinkAll(fs, backups.Values);
      StopsJoin(fs.fault, from, mid, fs.clock, clean);
      gone := staged.Values + (backups.Values - rest);
      TwoRemovals(start, staged.Values, backups.Values - rest);
    }
  }

  lemma {:induction false} NamesOfRun(
    files: map<Path, string>, orig: map<Path, string>, news: map<Path, string>, g: Progress, p: Path)
    requires Holds(files, orig, news, g) && p in g.roles && !IsLeak(g, p)
    ensures p in g.staged.Values + g.backups.Values
  {
    ValuesByRole(orig, news, g, p);
  }

  /** A phase of `count` operations comes to its end exactly when none of them fails. */
  lemma {:induction false} QuietIff(fault: nat -> bool, from: nat, to: nat, count: nat, ok: bool)
    requires Stops(fault, from, to, ok)
    requires if ok then to == from + count else to <= from + count
    ensures ok <==> Quiet(fault, from, from + count)
  {
    if !ok { assert fault(to - 1); }
  }

  lemma {:induction false} BackupsStand(
    start: map<Path, string>, f1: map<Path, string>, orig: map<Path, string>, news: map<Path, string>, g: Progress,
    kept: set<Path>)
    requires Holds(start, orig, news, g) && f1 == start - (g.installed - kept)
    ensures Names(orig, news, g)
    ensures forall o :: o in g.backups ==> Get(f1, g.backups[o]) == Get(orig, o)
  {
    forall o | o in g.backups ensures Get(f1, g.backups[o]) == Get(orig, o) {
      assert Get(start, g.backups[o]) == Get(orig, o);
    }
  }

  // ---------------------------------------------------------------- what is back, and what is not

  /** Everything is as it was exactly when each lost output was also kept, and each kept output was
      given the content it had. */
  lemma {:induction false} EverythingIsBackIff(
    orig: map<Path, string>, news: map<Path, string>, kept: set<Path>, lost: set<Path>)
    requires lost <= orig.Keys
    ensures (forall p :: AfterUndo(orig, news, kept, lost, p) == Get(orig, p))
       <==> lost <= kept && forall p :: p in kept ==> Get(news, p) == Get(orig, p)
  {
    if forall p :: AfterUndo(orig, news, kept, lost, p) == Get(orig, p) {
      forall p | p in kept ensures Get(news, p) == Get(orig, p) {
        assert AfterUndo(orig, news, kept, lost, p) == Get(orig, p);
      }
      forall p | p in lost ensures p in kept {
        assert AfterUndo(orig, news, kept, lost, p) == Get(orig, p);
      }
    }
  }

  // ---------------------------------------------------------------- the whole operation

  /** After the first failing operation, the number of further operations that must succeed to undo. */
  function UndoLength(outputs: seq<Output>, files: map<Path, string>, d: nat): nat
  {
    var k, e := |outputs|, Existing(outputs, files);
    InstalledBy(k, e, d) + BackedUpBy(k, e, d)
  }

  /** Everything is undone exactly when none of the operations after the first failing one fails, as many
      as there are outputs to unlink and backups to move back. */
  ghost predicate UndoneByNumber(
    fault: nat -> bool, start: nat, outputs: seq<Output>, files: map<Path, string>, undone: bool, kept: set<Path>,
    lost: set<Path>)
  {
    forall d: nat {:trigger FirstFault(fault, start, d)} ::
      d < Operations(outputs, files) && FirstFault(fault, start, d) ==>
        && (undone <==> Quiet(fault, start + d + 1, start + d + 1 + UndoLength(outputs, files, d)))
        && |kept| <= InstalledBy(|outputs|, Existing(outputs, files), d)
        && |lost| <= BackedUpBy(|outputs|, Existing(outputs, files), d)
  }

  /** What a run leaves on the disk, away from the names that it has picked: the old files with the new
      contents, or what `AfterUndo` says. */
  ghost predicate Leaves(
    files: map<Path, string>, orig: map<Path, string>, news: map<Path, string>, done: bool, names: set<Path>,
    kept: set<Path>, lost: set<Path>)
  {
    && names !! orig.Keys && names !! news.Keys
    && kept <= news.Keys && lost <= news.Keys * orig.Keys
    && forall p :: p !in names ==>
        Get(files, p) == if done then Get(orig + news, p) else AfterUndo(orig, news, kept, lost, p)
  }

  /** `len(files) != len({path.resolve() for path in files})` finds two paths for one file. */
  predicate Unique(outputs: seq<Output>, resolve: Path -> Path)
  {
    forall i, j :: 0 <= i < j < |outputs| ==> resolve(outputs[i].path) != resolve(outputs[j].path)
  }

  lemma {:induction false} NothingToDo(fault: nat -> bool, start: nat, outputs: seq<Output>, files: map<Path, string>)
    requires outputs == []
    ensures Stops(fault, start, start, true) && Decided(fault, start, outputs, files, Done, {})
  {
  }

  /** If nothing fails after the first failing operation, everything is undone and cleaned up. */
  ghost predicate LastFault(fault: nat -> bool, start: nat, undone: bool, clean: bool)
  {
    forall d: nat {:trigger FirstFault(fault, start, d)} ::
      FirstFault(fault, start, d) && (forall n: nat :: n > start + d ==> !fault(n)) ==> undone && clean
  }

  /** After a try block that succeeds, the clean-up does exactly when it can delete every backup. */
  ghost predicate CleanAfterDone(
    fault: nat -> bool, start: nat, outputs: seq<Output>, files: map<Path, string>, clean: bool)
  {
    var stop := start + Operations(outputs, files);
    clean <==> Quiet(fault, stop, stop + Existing(outputs, files))
  }

  /** Replace a set of files.  Any operation may fail, those of the rollback and the clean-up too.  `r` is
      what the try block came to; `undone` says that the rollback came to its end, and `clean` that the
      clean-up did, so that no exception left it.  `leaked` is the temporary file that no clean-up knows,
      if there is one; `kept`, `lost` and the picked `names` say what is on the disk in every case. */
  method WriteTextFilesAtomically(fs: FileSystem, outputs: seq<Output>, resolve: Path -> Path)
    returns (r: Outcome, undone: bool, clean: bool, ghost leaked: set<Path>, ghost names: set<Path>,
             ghost kept: set<Path>, ghost lost: set<Path>)
    requires fs.Valid() && Distinct(outputs)
    modifies fs
    ensures r.NotUnique? <==> !Unique(outputs, resolve)
    ensures r.NotUnique? ==> fs.files == old(fs.files) && fs.clock == old(fs.clock)
    ensures !r.NotUnique? ==> Decided(fs.fault, old(fs.clock), outputs, old(fs.files), r, leaked)
    ensures r.Done? && clean ==> fs.files == old(fs.files) + Contents(outputs)
    ensures r.Done? ==> CleanAfterDone(fs.fault, old(fs.clock), outputs, old(fs.files), clean)
    ensures r.Raised? && undone && clean ==> fs.files - leaked == old(fs.files)
    ensures r.Raised? ==> |leaked| <= 1 && leaked <= fs.files.Keys
                          && leaked !! old(fs.files).Keys && leaked !! Contents(outputs).Keys
    ensures r.Raised? ==> UndoneByNumber(fs.fault, old(fs.clock), outputs, old(fs.files), undone, kept, lost)
    ensures r.Raised? ==> (undone <==> kept == {} && lost == {})
    ensures r.Raised? ==> LastFault(fs.fault, old(fs.clock), undone, clean)
    ensures r.Raised? && clean ==> names * fs.files.Keys == leaked
    ensures !r.NotUnique? ==> Leaves(fs.files, old(fs.files), Contents(outputs), r.Done?, names, kept, lost)
  {
    ghost var orig, start := fs.files, fs.clock;
    leaked, names, kept, lost := {}, {}, {}, {};
    if outputs == [] {
      NothingToDo(fs.fault, start, outputs, orig);
      return Done, true, true, {}, {}, {}, {};
    }
    if !(forall i, j :: 0 <= i < j < |outputs| ==> resolve(outputs[i].path) != resolve(outputs[j].path)) {
      return NotUnique, true, true, {}, {}, {}, {};
    }
    r, undone, clean, leaked, names, kept, lost := ReplaceFiles(fs, outputs);
  }

  /** The same, once the outputs are known to be different. */
  method ReplaceFiles(fs: FileSystem, outputs: seq<Output>)
    returns (r: Outcome, undone: bool, clean: bool, ghost leaked: set<Path>, ghost names: set<Path>,
             ghost kept: set<Path>, ghost lost: set<Path>)
    requires fs.Valid() && Distinct(outputs)
    modifies fs
    ensures !r.NotUnique? && Decided(fs.fault, old(fs.clock), outputs, old(fs.files), r, leaked)
    ensures r.Done? && clean ==> fs.files == old(fs.files) + Contents(outputs)
    ensures r.Done? ==> CleanAfterDone(fs.fault, old(fs.clock), outputs, old(fs.files), clean)
    ensures r.Raised? && undone && clean ==> fs.files - leaked == old(fs.files)
    ensures r.Raised? ==> |leaked| <= 1 && leaked <= fs.files.Keys
                          && leaked !! old(fs.files).Keys && leaked !! Contents(outputs).Keys
    ensures r.Raised? ==> UndoneByNumber(fs.fault, old(fs.clock), outputs, old(fs.files), undone, kept, lost)
    ensures r.Raised? ==> (undone <==> kept == {} && lost == {})
    ensures r.Raised? ==> LastFault(fs.fault, old(fs.clock), undone, clean)
    ensures r.Raised? && clean ==> names * fs.files.Keys == leaked
    ensures Leaves(fs.files, old(fs.files), Contents(outputs), r.Done?, names, kept, lost)
  {
    hide Holds, Stops, StoppedAt, ProgressAt, Contents, Existing, LeaksAfter, UndoneByNumber, Leaves, Quiet, Decided,
         LastFault, CleanAfterDone;
    ghost var orig, news, start := fs.files, Contents(outputs), fs.clock;
    var ok, step, staged, backups, installed;
    ghost var g;
    ok, step, staged, backups, installed, g := TryReplace(fs, outputs, orig);
    ghost var stop, before := fs.clock, fs.files;
    names, leaked, kept, lost := g.roles.Keys, Leaks(g), {}, {};
    DecidedByFirstFault(fs.fault, start, stop, outputs, orig, ok, step, leaked);
    if ok {
      ghost var rest;
      clean, rest := UnlinkAll(fs, backups.Values);
      r, undone := Done, false;
      DoneIsClean(fs.fault, start, stop, fs.clock, outputs, orig, before, news, g, step, clean);
      FinishedDisk(before, orig, news, g, rest);
    } else {
      ghost var mid;
      r := Raised(step);
      undone, clean, kept, lost, mid := Undo(fs, staged, backups, installed, orig, news, g);
      UndoneIff(fs.fault, start, stop, outputs, orig, step, backups.Keys, installed, undone, kept, lost);
      UndoneDisk(before, fs.files, orig, news, g, kept, lost);
      OnlyLeaksLeft(fs.files, orig, news, g, clean, kept, lost);
      NothingFailsLater(fs.fault, start, stop, mid, fs.clock, undone, clean);
    }
  }

  lemma {:induction false} DifferentValues(m: map<Path, Path>)
    requires forall a, b :: a in m && b in m && m[a] == m[b] ==> a == b
    ensures |m.Values| == |m.Keys|
    decreases |m.Keys|
  {
    if m.Keys != {} {
      var k :| k in m.Keys;
      var rest := m - {k};
      DifferentValues(rest);
      forall v ensures v in m.Values - {m[k]} <==> v in rest.Values {
        if v in m.Values - {m[k]} {
          var a :| a in m && m[a] == v;
          assert a in rest && rest[a] == v;
        }
        if v in rest.Values {
          var a :| a in rest && rest[a] == v;
          assert a in m && m[a] == v;
        }
      }
      assert m.Values - {m[k]} == rest.Values;
      assert m.Keys - {k} == rest.Keys;
    }
  }

  lemma {:induction false} BackupsAreDifferent(
    files: map<Path, string>, orig: map<Path, string>, news: map<Path, string>, g: Progress)
    requires Holds(files, orig, news, g)
    ensures |g.backups.Values| == |g.backups.Keys|
  {
    forall a, b | a in g.backups && b in g.backups && g.backups[a] == g.backups[b] ensures a == b {
      assert g.roles[g.backups[a]] == BackupOf(a) && g.roles[g.backups[b]] == BackupOf(b);
    }
    DifferentValues(g.backups);
  }

  lemma {:induction false} DoneIsClean(
    fault: nat -> bool, start: nat, stop: nat, to: nat, outputs: seq<Output>, orig: map<Path, string>,
    files: map<Path, string>, news: map<Path, string>, g: Progress, step: Step, clean: bool)
    requires Holds(files, orig, news, g) && |g.backups.Keys| == Existing(outputs, orig)
    requires start <= stop && StoppedAt(outputs, orig, stop - start, true, step)
    requires Stops(fault, stop, to, clean)
    requires if clean then to == stop + |g.backups.Values| else to <= stop + |g.backups.Values|
    ensures CleanAfterDone(fault, start, outputs, orig, clean)
  {
    BackupsAreDifferent(files, orig, news, g);
    QuietIff(fault, stop, to, Existing(outputs, orig), clean);
  }

  lemma {:induction false} NothingFailsLater(
    fault: nat -> bool, start: nat, stop: nat, mid: nat, to: nat, undone: bool, clean: bool)
    requires Stops(fault, start, stop, false) && Stops(fault, stop, mid, undone) && Stops(fault, mid, to, clean)
    ensures LastFault(fault, start, undone, clean)
  {
    var first: nat := stop - start - 1;
    assert FirstFault(fault, start, first);
    forall d: nat | FirstFault(fault, start, d) ensures d == first {
      FirstFaultIsUnique(fault, start, d, first);
    }
    if !undone { assert fault(mid - 1) && mid - 1 > start + first; }
    if !clean { assert fault(to - 1) && to - 1 > start + first; }
  }

  lemma {:induction false} OnlyLeaksLeft(
    files: map<Path, string>, orig: map<Path, string>, news: map<Path, string>, g: Progress, clean: bool,
    kept: set<Path>, lost: set<Path>)
    requires Leaves(files, orig, news, false, g.roles.Keys, kept, lost)
    requires forall p :: IsLeak(g, p) ==> p in files
    requires clean ==> forall p :: p in g.roles && !IsLeak(g, p) ==> p !in files
    ensures Leaks(g) <= files.Keys && Leaks(g) !! orig.Keys && Leaks(g) !! news.Keys
    ensures clean ==> g.roles.Keys * files.Keys == Leaks(g)
    ensures clean && kept == {} && lost == {} ==> files - Leaks(g) == orig
  {
    forall p | p in Leaks(g) ensures p in files && p in g.roles { assert IsLeak(g, p); }
    if clean {
      forall p | p in g.roles.Keys * files.Keys ensures p in Leaks(g) { assert IsLeak(g, p); }
      if kept == {} && lost == {} {
        forall p ensures Get(files - Leaks(g), p) == Get(orig, p) {
          if p in g.roles {
            assert p in files ==> p in Leaks(g);
          } else {
            assert Get(files, p) == AfterUndo(orig, news, kept, lost, p);
          }
        }
        SameEntries(files - Leaks(g), orig);
      }
    }
  }

  lemma {:induction false} FinishedDisk(
    files: map<Path, string>, orig: map<Path, string>, news: map<Path, string>, g: Progress, rest: set<Path>)
    requires Holds(files, orig, news, g) && g.installed == news.Keys && Leaks(g) == {} && rest <= g.backups.Values
    ensures var after := files - (g.backups.Values - rest);
            && Leaves(after, orig, news, true, g.roles.Keys, {}, {})
            && (rest == {} ==> after == orig + news)
  {
    RunNames(files, orig, news, g);
    var after := files - (g.backups.Values - rest);
    forall p
      ensures p !in g.roles ==> Get(after, p) == Get(orig + news, p)
      ensures rest == {} ==> Get(after, p) == Get(orig + news, p)
    {
      FinishedAt(files, orig, news, g, g.backups.Values - rest, p);
    }
    if rest == {} { SameEntries(after, orig + news); }
  }

  lemma {:induction false} UndoneDisk(
    before: map<Path, string>, files: map<Path, string>, orig: map<Path, string>, news: map<Path, string>, g: Progress,
    kept: set<Path>, lost: set<Path>)
    requires Holds(before, orig, news, g) && kept <= g.installed && lost <= g.backups.Keys
    requires forall p :: p !in g.roles ==> Get(files, p) == AfterUndo(orig, news, kept, lost, p)
    ensures Leaves(files, orig, news, false, g.roles.Keys, kept, lost)
  {
    RunNames(before, orig, news, g);
  }

  lemma {:induction false} RunNames(
    files: map<Path, string>, orig: map<Path, string>, news: map<Path, string>, g: Progress)
    requires Holds(files, orig, news, g)
    ensures g.roles.Keys !! orig.Keys && g.roles.Keys !! news.Keys
    ensures g.installed <= news.Keys && g.backups.Keys <= news.Keys * orig.Keys
  {
  }

  lemma {:induction false} SmallerSet(a: set<Path>, b: set<Path>)
    requires a <= b
    ensures |a| <= |b|
  {
    assert b == a + (b - a);
  }

  lemma {:induction false} UndoneIff(
    fault: nat -> bool, start: nat, stop: nat, outputs: seq<Output>, files: map<Path, string>, step: Step,
    backups: set<Path>, installed: set<Path>, undone: bool, kept: set<Path>, lost: set<Path>)
    requires Stops(fault, start, stop, false) && StoppedAt(outputs, files, stop - start, false, step)
    requires ProgressAt(outputs, files, stop - start - 1, |backups|, |installed|)
    requires undone <==> Quiet(fault, stop, stop + |installed| + |backups|)
    requires kept <= installed && lost <= backups
    ensures UndoneByNumber(fault, start, outputs, files, undone, kept, lost)
  {
    SmallerSet(kept, installed);
    SmallerSet(lost, backups);
    var first: nat := stop - start - 1;
    assert FirstFault(fault, start, first);
    forall d: nat | d < Operations(outputs, files) && FirstFault(fault, start, d) ensures d == first {
      FirstFaultIsUnique(fault, start, d, first);
    }
  }

  lemma {:induction false} FinishedAt(
    files: map<Path, string>, orig: map<Path, string>, news: map<Path, string>, g: Progress, gone: set<Path>, p: Path)
    requires Holds(files, orig, news, g) && g.installed == news.Keys && Leaks(g) == {} && gone <= g.backups.Values
    ensures p !in g.roles || gone == g.backups.Values ==> Get(files - gone, p) == Get(orig + news, p)
  {
    ValuesByRole(orig, news, g, p);
    assert p !in Leaks(g);
    assert Get(files, p) == Expected(orig, news, g, p);
  }

  // ---------------------------------------------------------------- a file can be lost

  lemma {:induction false} LastOperationFails(o: Path, before: string, after: string)
    ensures var outputs, files := [Output(o, after)], map[o := before];
            Operations(outputs, files) == 6 && Existing(outputs, files) == 1 && UndoLength(outputs, files, 5) == 1
    ensures Contents([Output(o, after)]) == map[o := after]
  {
    var outputs, files := [Output(o, after)], map[o := before];
    assert outputs[..0] == [];
    assert Existing(outputs[..0], files) == 0 && Contents(outputs[..0]) == map[];
  }

  const TWICE: nat -> bool := n => n == 5 || n == 6

  /** One existing file is replaced; installing it fails, and so does moving its backup back.  The file is
      then gone, and if the clean-up succeeds so is its content: the disk is empty. */
  method OneFileIsLost(o: Path, before: string, after: string, pick: set<Path> -> Path)
    returns (fs: FileSystem, r: Outcome, clean: bool)
    requires forall taken {:trigger pick(taken)} :: pick(taken) !in taken
    ensures fresh(fs) && r == Raised(Install) && o !in fs.files && (clean ==> fs.files == map[])
  {
    fs := new FileSystem(map[o := before], TWICE, pick);
    var undone;
    ghost var leaked, names, kept, lost;
    r, undone, clean, leaked, names, kept, lost := WriteTextFilesAtomically(fs, [Output(o, after)], path => path);
    LastOperationFails(o, before, after);
    LostFile(o, before, after, fs.files, r, undone, clean, names, leaked, kept, lost);
  }

  lemma {:induction false} LostFile(
    o: Path, before: string, after: string, files: map<Path, string>, r: Outcome, undone: bool, clean: bool,
    names: set<Path>, leaked: set<Path>, kept: set<Path>, lost: set<Path>)
    requires var outputs, orig := [Output(o, after)], map[o := before];
             && Decided(TWICE, 0, outputs, orig, r, leaked) && !r.NotUnique?
             && Leaves(files, orig, Contents(outputs), r.Done?, names, kept, lost)
             && (r.Raised? ==> UndoneByNumber(TWICE, 0, outputs, orig, undone, kept, lost))
             && (r.Raised? ==> (undone <==> kept == {} && lost == {}))
             && (r.Raised? && clean ==> names * files.Keys == leaked)
    ensures r == Raised(Install) && o !in files && (clean ==> files == map[])
  {
    LastOperationFails(o, before, after);
    assert FirstFault(TWICE, 0, 5);
    assert TWICE(6);
    assert |kept| <= 0;
    assert lost == {o};
    assert Get(files, o) == Absent;
    forall p | p in files ensures !clean {
      if p !in names {
        assert Get(files, p) == AfterUndo(map[o := before], map[o := after], kept, lost, p);
      } else {
        assert clean ==> p in names * files.Keys;
      }
    }
  }
}

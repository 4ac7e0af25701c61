/**
 * The installer as it is written: it changes the directory one effect at a time
 * until it returns, raises or dies (src/mos_eisley/app_install.py). Each method
 * is proved to leave the directory as its plan, cut at the crash, leaves it.
 */
module Installer {
  import opened Prelude
  import opened AppVersion
  import opened InstallState
  import opened InstallSafety

  /** The directory while one process works on it; fuel counts the effects left before a crash. */
  class Disk {
    var fs: FS
    var fuel: nat
    ghost var start: FS
    ghost var budget: nat
    ghost var asked: seq<Effect>

    ghost predicate Valid()
      reads this
    {
      && fs == ApplyAll(start, Upto(asked, budget))
      && fuel == budget - |Upto(asked, budget)|
    }

    /** A process begins. */
    constructor (initial: FS, n: nat)
      ensures Valid() && fs == start == initial && fuel == budget == n && asked == []
    {
      fs, fuel := initial, n;
      start, budget, asked := initial, n, [];
      new;
      NoEffects(fs);
    }

    /** One atomic effect. After the crash nothing happens any more. */
    method Do(e: Effect)
      requires Valid()
      modifies this
      ensures Valid() && start == old(start) && budget == old(budget)
      ensures asked == old(asked) + [e]
    {
      NextEffect(start, asked, e, budget);
      if fuel > 0 {
        fs, fuel := Step(fs, e), fuel - 1;
      }
      asked := asked + [e];
    }
  }

  lemma NextEffect(start: FS, asked: seq<Effect>, e: Effect, budget: nat)
    ensures Upto(asked + [e], budget) == if budget <= |asked| then Upto(asked, budget) else asked + [e]
    ensures budget > |asked| ==>
              ApplyAll(start, Upto(asked + [e], budget)) == Step(ApplyAll(start, Upto(asked, budget)), e)
  {
    if budget > |asked| {
      assert Upto(asked, budget) == asked;
      ApplyAppend(start, asked, [e]);
      AllAllowedOne(ApplyAll(start, asked), e);
      assert Upto(asked + [e], budget) == asked + [e];
    }
  }

  /** activate_pointer (lines 118 to 123). */
  method ActivatePointer(disk: Disk, p: Pointer, name: string)
    requires disk.Valid()
    modifies disk
    ensures disk.Valid() && disk.start == old(disk.start) && disk.budget == old(disk.budget)
    ensures disk.asked == old(disk.asked) + Activate(p, name)
  {
    disk.Do(ClearPending(p));
    disk.Do(SetPending(p, name));
    disk.Do(Commit(p));
  }

  /** record_runtime (lines 180 to 186): one pass over the files. */
  method RecordRuntime(files: Tree) returns (d: Dir)
    ensures d == Record(files)
  {
    var values: Tree := map[];
    var left := files.Keys;
    while left != {}
      invariant left <= files.Keys
      invariant values == map p | p in files && p !in left :: files[p]
    {
      var p :| p in left;
      values := values[p := files[p]];
      left := left - {p};
    }
    assert values == files;
    d := Dir(files - {[INVENTORY]}, Some(values));
  }

  /** verify_runtime (lines 189 to 199): list the files again, by their bytes, and compare. */
  method VerifyRuntime(d: Dir) returns (ok: bool)
    ensures ok <==> Verified(d)
  {
    if d.inventory.None? || d.inventory.value == map[] {
      return false;
    }
    var actual: Tree := map[];
    var left := d.files.Keys;
    while left != {}
      invariant left <= d.files.Keys
      invariant actual == map p | p in d.files && p !in left && !Named(p, INVENTORY) :: d.files[p]
    {
      var p :| p in left;
      if !Named(p, INVENTORY) {
        actual := actual[p := d.files[p]];
      }
      left := left - {p};
    }
    assert actual == Actual(d.files);
    ok := actual == d.inventory.value;
  }

  /** The checks of install before it changes anything (lines 250 to 268). */
  method CheckInstall(fs: FS, op: Operation) returns (refused: Option<Fault>)
    requires op.Install?
    ensures refused == InstallRefusal(fs, op)
  {
    if op.release.epoch != STORAGE_EPOCH {
      return Some(WrongEpoch);
    }
    if op.binDir in fs.launchers && fs.launchers[op.binDir] == Foreign {
      return Some(ForeignLauncher);
    }
    var installed := InstalledRelease(fs);
    if installed.Err? {
      return Some(installed.error);
    }
    var current := installed.value;
    if current.Some? && Before(op.release.key, current.value.key) {
      return Some(Downgrade);
    }
    if current.Some? && current.value.version == op.release.version && current.value != op.release {
      return Some(MetadataChanged);
    }
    refused := if !op.probe.archive then Some(BadArchive) else None;
  }

  /** Extract, record and probe the stage, then check a directory that is already there (lines 275 to 291). */
  method StageRuntime(fs: FS, op: Operation) returns (staged: Result<Dir, Fault>)
    requires op.Install?
    ensures staged == if StageRefusal(fs, op).Some? then Err(StageRefusal(fs, op).value) else Ok(Built(op.release))
  {
    if !op.probe.extracts || METADATA in op.release.bundle {
      return Err(BadBundle);
    }
    var stage := RecordRuntime(Staged(op.release));
    if !op.probe.stageRuns {
      return Err(NotRunning);
    }
    var name := op.release.version;
    if name in fs.releases {
      if ReleaseOf(fs.releases[name]) != Some(op.release) {
        return Err(Conflict);
      }
      var intact := VerifyRuntime(fs.releases[name]);
      if !intact {
        return Err(DamagedRuntime);
      }
      if !op.probe.targetRuns {
        return Err(NotRunning);
      }
    }
    staged := Ok(stage);
  }

  /** The effects of install before its commit point (lines 292 to 313). */
  method PrepareRuntime(disk: Disk, op: Operation, was: Option<string>, placed: bool, stage: Dir)
    requires disk.Valid() && op.Install? && stage == Built(op.release)
    requires disk.asked == [MakeReleases]
    requires was == OldName(disk.start) && placed == (op.release.version in disk.start.releases)
    modifies disk
    ensures disk.Valid() && disk.start == old(disk.start) && disk.budget == old(disk.budget)
    ensures disk.asked == Prepare(disk.start, op)
  {
    hide Built, Disk.Valid;
    var name := op.release.version;
    if !placed {
      disk.Do(Publish(name, stage));
    }
    assert disk.asked == Place(disk.start, op.release);
    disk.Do(SetTransaction(Transaction(was, name)));
    if was.Some? && was.value != name {
      ActivatePointer(disk, Previous, was.value);
    }
    assert disk.asked
           == Place(disk.start, op.release) + [SetTransaction(Transaction(was, name))] + Keep(disk.start, op.release);
    disk.Do(SetInstall(Meta(op.origin, op.binDir)));
  }

  /** The commit point of install and what follows it (lines 314 to 319). */
  method CommitRuntime(disk: Disk, op: Operation, linked: bool)
    requires disk.Valid() && op.Install? && linked == (op.binDir in disk.start.launchers)
    modifies disk
    ensures disk.Valid() && disk.start == old(disk.start) && disk.budget == old(disk.budget)
    ensures disk.asked == old(disk.asked) + Activate(Current, op.release.version) + Finish(disk.start, op.binDir)
  {
    hide Disk.Valid, Activate;
    ActivatePointer(disk, Current, op.release.version);
    if !linked {
      disk.Do(SetLauncher(op.binDir));
    }
    disk.Do(ClearTransaction);
  }

  /** install (lines 242 to 322). */
  method InstallRelease(disk: Disk, op: Operation) returns (result: Result<string, Fault>)
    requires disk.Valid() && disk.asked == [] && op.Install?
    modifies disk
    ensures result == PlanOf(old(disk.fs), op).result
    ensures disk.fs == Cut(old(disk.fs), op, old(disk.fuel))
  {
    hide InstallRefusal, StageRefusal, Built, Prepare, Finish;
    BeginsAt(disk);
    var fs := disk.fs;
    var refused := CheckInstall(fs, op);
    if refused.Some? {
      return Err(refused.value);
    }
    disk.Do(MakeReleases);
    var staged := StageRuntime(fs, op);
    if staged.Err? {
      return Err(staged.error);
    }
    PrepareRuntime(disk, op, OldName(fs), op.release.version in fs.releases, staged.value);
    CommitRuntime(disk, op, op.binDir in fs.launchers);
    result := Ok(op.release.version);
  }

  lemma BeginsAt(disk: Disk)
    requires disk.Valid() && disk.asked == []
    ensures disk.fs == disk.start && disk.fuel == disk.budget
  {
    NoEffects(disk.start);
  }

  /** recover (lines 325 to 337). */
  method RecoverInstallation(disk: Disk, runs: bool) returns (result: Result<string, Fault>)
    requires disk.Valid() && disk.asked == []
    modifies disk
    ensures result == PlanOf(old(disk.fs), Recover(runs)).result
    ensures disk.fs == Cut(old(disk.fs), Recover(runs), old(disk.fuel))
  {
    hide Verified, ReleaseOf;
    BeginsAt(disk);
    var installed := InstalledRelease(disk.fs);
    if installed.Err? {
      return Err(installed.error);
    }
    if installed.value.None? {
      return Err(NoRuntime);
    }
    var intact := VerifyRuntime(Pointed(disk.fs, Current).value);
    if !intact {
      return Err(DamagedRuntime);
    }
    if !runs {
      return Err(NotRunning);
    }
    disk.Do(ClearTransaction);
    result := Ok(installed.value.value.version);
  }

  /** rollback (lines 340 to 356). */
  method RollBack(disk: Disk, runs: bool) returns (result: Result<string, Fault>)
    requires disk.Valid() && disk.asked == []
    modifies disk
    ensures result == PlanOf(old(disk.fs), Rollback(runs)).result
    ensures disk.fs == Cut(old(disk.fs), Rollback(runs), old(disk.fuel))
  {
    hide Verified, ReleaseOf;
    BeginsAt(disk);
    var fs := disk.fs;
    var installed := InstalledRelease(fs);
    if installed.Err? {
      return Err(installed.error);
    }
    if Previous !in fs.pointers || installed.value.None? {
      return Err(NoPrevious);
    }
    var previous := Pointed(fs, Previous);
    if previous.None? || ReleaseOf(previous.value).None? {
      return Err(DamagedPrevious);
    }
    var release := ReleaseOf(previous.value).value;
    if release.epoch != installed.value.value.epoch {
      return Err(Incompatible);
    }
    var intact := VerifyRuntime(previous.value);
    if !intact {
      return Err(DamagedRuntime);
    }
    if !runs {
      return Err(NotRunning);
    }
    ActivatePointer(disk, Current, fs.pointers[Previous]);
    assert disk.asked == Activate(Current, fs.pointers[Previous]);
    result := Ok(release.version);
  }

  /** The removal of one release directory: its files in any order, then itself. */
  method RemoveDirectory(disk: Disk, name: string, d: Dir) returns (ghost order: seq<(string, Deletion)>)
    requires disk.Valid()
    modifies disk
    ensures disk.Valid() && disk.start == old(disk.start) && disk.budget == old(disk.budget)
    ensures disk.asked == old(disk.asked) + Deletions(order)
  {
    hide Disk.Valid;
    order := [];
    var left := d.files.Keys;
    assert Deletions(order) == [];
    while left != {}
      invariant disk.Valid() && disk.start == old(disk.start) && disk.budget == old(disk.budget)
      invariant disk.asked == old(disk.asked) + Deletions(order)
    {
      var p :| p in left;
      disk.Do(Delete(name, File(p)));
      left := left - {p};
      order := MoreDeletions(order, (name, File(p)));
    }
    if d.inventory.Some? {
      disk.Do(Delete(name, InventoryFile));
      order := MoreDeletions(order, (name, InventoryFile));
    }
    disk.Do(Delete(name, Directory));
    order := MoreDeletions(order, (name, Directory));
  }

  lemma MoreDeletions(order: seq<(string, Deletion)>, d: (string, Deletion)) returns (more: seq<(string, Deletion)>)
    ensures more == order + [d]
    ensures Deletions(more) == Deletions(order) + [Delete(d.0, d.1)]
  {
    more := order + [d];
    assert Deletions(more) == Deletions(order) + [Delete(d.0, d.1)];
  }

  lemma JoinDeletions(a: seq<(string, Deletion)>, b: seq<(string, Deletion)>) returns (both: seq<(string, Deletion)>)
    ensures both == a + b && Deletions(both) == Deletions(a) + Deletions(b)
  {
    both := a + b;
    assert Deletions(both) == Deletions(a) + Deletions(b);
  }

  /** rmtree over the release directories. */
  method RemoveTree(disk: Disk, releases: map<string, Dir>) returns (ghost order: seq<(string, Deletion)>)
    requires disk.Valid()
    modifies disk
    ensures disk.Valid() && disk.start == old(disk.start) && disk.budget == old(disk.budget)
    ensures disk.asked == old(disk.asked) + Deletions(order) + [RemoveReleases]
  {
    hide Disk.Valid;
    order := [];
    var left := releases.Keys;
    assert Deletions(order) == [];
    while left != {}
      invariant left <= releases.Keys
      invariant disk.Valid() && disk.start == old(disk.start) && disk.budget == old(disk.budget)
      invariant disk.asked == old(disk.asked) + Deletions(order)
    {
      var name :| name in left;
      ghost var removed := RemoveDirectory(disk, name, releases[name]);
      left := left - {name};
      order := JoinDeletions(order, removed);
    }
    disk.Do(RemoveReleases);
  }

  /** uninstall (lines 359 to 371). */
  method UninstallAll(disk: Disk) returns (result: Result<string, Fault>, ghost order: seq<(string, Deletion)>)
    requires disk.Valid() && disk.asked == []
    modifies disk
    ensures result == PlanOf(old(disk.fs), Uninstall(order)).result
    ensures disk.fs == Cut(old(disk.fs), Uninstall(order), old(disk.fuel))
  {
    BeginsAt(disk);
    order := [];
    var fs := disk.fs;
    if fs.install.None? {
      return Err(NotInstalled), [];
    }
    var binDir := fs.install.value.binDir;
    if binDir in fs.launchers && fs.launchers[binDir] == Ours {
      disk.Do(DropLauncher(binDir));
    }
    assert disk.asked == DropOurs(fs);
    disk.Do(ClearPointer(Current));
    disk.Do(ClearPointer(Previous));
    assert disk.asked == Detach(fs);
    if !fs.hasReleases {
      return Err(NoStorage), [];
    }
    order := RemoveTree(disk, fs.releases);
    disk.Do(ClearInstall);
    disk.Do(ClearTransaction);
    result := Ok("");
  }
}

/**
 * The installation directory and its durable effects (src/mos_eisley/app_install.py).
 * Every operation is a list of effects, each atomic; a crash keeps a prefix of it.
 * A file's bytes stand for its digest, so a digest collision is not modelled.
 */
module InstallState {
  import opened Prelude
  import opened AppVersion

  /** The parts of a path below a release directory. */
  type Path = seq<string>

  const INVENTORY := "runtime-files.json"
  const METADATA: Path := ["release.json"]
  const STORAGE_EPOCH := 2

  /** key is the numeric key of the version; bundle is the file tree of the archive the release names. */
  datatype Release = Release(version: string, key: Version, epoch: nat, bundle: map<Path, string>, notes: string)

  datatype Content = Bytes(bytes: string) | Signed(release: Release)

  type Tree = map<Path, Content>

  /** inventory is what the top-level runtime-files.json says, if that file is there. */
  datatype Dir = Dir(files: Tree, inventory: Option<Tree>)

  datatype Pointer = Current | Previous

  datatype Transaction = Transaction(was: Option<string>, next: string)

  datatype Meta = Meta(origin: string, binDir: string)

  datatype Launcher = Ours | Foreign

  /** Release directories are named by their version: the platform suffix is the same for all of them. */
  datatype FS = FS(
    pointers: map<Pointer, string>,
    pending: map<Pointer, string>,
    hasReleases: bool,
    releases: map<string, Dir>,
    transaction: Option<Transaction>,
    install: Option<Meta>,
    launchers: map<string, Launcher>)

  const EMPTY := FS(map[], map[], false, map[], None, None, map[])

  predicate ReadableEpoch(r: Release) {
    r.epoch in {1, STORAGE_EPOCH}
  }

  // -------------------------------------------------------------------------
  // The runtime inventory (lines 180 to 199)
  // -------------------------------------------------------------------------

  predicate Named(p: Path, name: string) {
    p != [] && p[|p| - 1] == name
  }

  /** The extracted bundle and the release metadata beside it. */
  function Staged(r: Release): Tree {
    (map p | p in r.bundle :: Bytes(r.bundle[p])) + map[METADATA := Signed(r)]
  }

  /** record_runtime: list every file, then write the list, over a bundled file of that name if there is one. */
  function Record(files: Tree): Dir {
    Dir(files - {[INVENTORY]}, Some(files))
  }

  function Actual(files: Tree): Tree {
    map p | p in files && !Named(p, INVENTORY) :: files[p]
  }

  /** verify_runtime: no file of the inventory's name counts, at any depth. */
  predicate Verified(d: Dir) {
    d.inventory.Some? && d.inventory.value != map[] && Actual(d.files) == d.inventory.value
  }

  function Built(r: Release): Dir {
    Record(Staged(r))
  }

  /** No bundled file has the name of the inventory. */
  predicate Clean(r: Release) {
    forall p | p in r.bundle :: !Named(p, INVENTORY)
  }

  /** What the release.json of a directory says. */
  function ReleaseOf(d: Dir): Option<Release> {
    if METADATA in d.files && d.files[METADATA].Signed? && ReadableEpoch(d.files[METADATA].release)
    then Some(d.files[METADATA].release) else None
  }

  // -------------------------------------------------------------------------
  // Effects
  // -------------------------------------------------------------------------

  datatype Deletion = File(path: Path) | InventoryFile | Directory

  datatype Effect =
    | MakeReleases
    | Publish(name: string, dir: Dir)
    | SetTransaction(transaction: Transaction)
    | ClearTransaction
    | ClearPending(pointer: Pointer)
    | SetPending(pointer: Pointer, name: string)
    | Commit(pointer: Pointer)
    | ClearPointer(pointer: Pointer)
    | SetInstall(meta: Meta)
    | ClearInstall
    | SetLauncher(binDir: string)
    | DropLauncher(binDir: string)
    | Delete(name: string, deletion: Deletion)
    | RemoveReleases

  function Without(d: Dir, deletion: Deletion): Dir {
    match deletion
    case File(path) => d.(files := d.files - {path})
    case InventoryFile => d.(inventory := None)
    case Directory => d
  }

  function Step(fs: FS, e: Effect): FS {
    match e
    case MakeReleases => fs.(hasReleases := true)
    case Publish(name, dir) => fs.(releases := fs.releases[name := dir])
    case SetTransaction(transaction) => fs.(transaction := Some(transaction))
    case ClearTransaction => fs.(transaction := None)
    case ClearPending(pointer) => fs.(pending := fs.pending - {pointer})
    case SetPending(pointer, name) => fs.(pending := fs.pending[pointer := name])
    case Commit(pointer) =>
      if pointer in fs.pending
      then fs.(pointers := fs.pointers[pointer := fs.pending[pointer]], pending := fs.pending - {pointer})
      else fs
    case ClearPointer(pointer) => fs.(pointers := fs.pointers - {pointer})
    case SetInstall(meta) => fs.(install := Some(meta))
    case ClearInstall => fs.(install := None)
    case SetLauncher(binDir) => fs.(launchers := fs.launchers[binDir := Ours])
    case DropLauncher(binDir) => fs.(launchers := fs.launchers - {binDir})
    case Delete(name, deletion) =>
      if name !in fs.releases then fs
      else if deletion.Directory? then fs.(releases := fs.releases - {name})
      else fs.(releases := fs.releases[name := Without(fs.releases[name], deletion)])
    case RemoveReleases => fs.(releases := map[], hasReleases := false)
  }

  function ApplyAll(fs: FS, effects: seq<Effect>): FS {
    if effects == [] then fs else Step(ApplyAll(fs, effects[..|effects| - 1]), effects[|effects| - 1])
  }

  function Upto<T>(s: seq<T>, n: nat): (t: seq<T>)
    ensures |t| == if n < |s| then n else |s|
  {
    if n < |s| then s[..n] else s
  }

  lemma {:induction false} ApplyAppend(fs: FS, a: seq<Effect>, b: seq<Effect>)
    ensures ApplyAll(fs, a + b) == ApplyAll(ApplyAll(fs, a), b)
    decreases |b|
  {
    if b == [] {
      assert a + b == a;
    } else {
      ApplyAppend(fs, a, b[..|b| - 1]);
      assert (a + b)[..|a + b| - 1] == a + b[..|b| - 1];
    }
  }

  lemma UptoAppend<T>(a: seq<T>, b: seq<T>, n: nat)
    ensures Upto(a + b, n) == if n <= |a| then Upto(a, n) else a + Upto(b, n - |a|)
  {
  }

  // -------------------------------------------------------------------------
  // Operations
  // -------------------------------------------------------------------------

  datatype Fault =
    | WrongEpoch | ForeignLauncher | DamagedCurrent | Downgrade | MetadataChanged | BadArchive | BadBundle
    | NotRunning | Conflict | DamagedRuntime | NoRuntime | NoPrevious | DamagedPrevious | Incompatible
    | NotInstalled | NoStorage

  /** The archive bytes are right, extraction succeeds, and the two version probes answer as expected. */
  datatype Probe = Probe(archive: bool, extracts: bool, stageRuns: bool, targetRuns: bool)

  datatype Operation =
    | Install(release: Release, binDir: string, origin: string, probe: Probe)
    | Recover(runs: bool)
    | Rollback(runs: bool)
    | Uninstall(order: seq<(string, Deletion)>)

  /** The effects of an operation in order, and what it returns or raises after them. */
  datatype Plan = Plan(effects: seq<Effect>, result: Result<string, Fault>)

  function Pointed(fs: FS, p: Pointer): Option<Dir> {
    if p in fs.pointers && fs.pointers[p] in fs.releases then Some(fs.releases[fs.pointers[p]]) else None
  }

  /** installed_release (lines 126 to 135). */
  function InstalledRelease(fs: FS): Result<Option<Release>, Fault> {
    if Current !in fs.pointers then Ok(None)
    else if Pointed(fs, Current).None? || ReleaseOf(Pointed(fs, Current).value).None? then Err(DamagedCurrent)
    else Ok(ReleaseOf(Pointed(fs, Current).value))
  }

  /** activate_pointer (lines 118 to 123). */
  function Activate(p: Pointer, name: string): seq<Effect> {
    [ClearPending(p), SetPending(p, name), Commit(p)]
  }

  /** What install refuses before it changes anything (lines 250 to 268). */
  function InstallRefusal(fs: FS, op: Operation): Option<Fault>
    requires op.Install?
  {
    if op.release.epoch != STORAGE_EPOCH then Some(WrongEpoch)
    else if op.binDir in fs.launchers && fs.launchers[op.binDir] == Foreign then Some(ForeignLauncher)
    else
      match InstalledRelease(fs)
      case Err(fault) => Some(fault)
      case Ok(current) =>
        if current.Some? && Before(op.release.key, current.value.key) then Some(Downgrade)
        else if current.Some? && current.value.version == op.release.version && current.value != op.release
        then Some(MetadataChanged)
        else if !op.probe.archive then Some(BadArchive)
        else None
  }

  /** What install refuses after it has made the storage directory (lines 270 to 291). */
  function StageRefusal(fs: FS, op: Operation): Option<Fault>
    requires op.Install?
  {
    var name := op.release.version;
    if !op.probe.extracts || METADATA in op.release.bundle then Some(BadBundle)
    else if !op.probe.stageRuns then Some(NotRunning)
    else if name !in fs.releases then None
    else if ReleaseOf(fs.releases[name]) != Some(op.release) then Some(Conflict)
    else if !Verified(fs.releases[name]) then Some(DamagedRuntime)
    else if !op.probe.targetRuns then Some(NotRunning)
    else None
  }

  function Place(fs: FS, r: Release): seq<Effect> {
    [MakeReleases] + if r.version in fs.releases then [] else [Publish(r.version, Built(r))]
  }

  function NameAt(fs: FS, p: Pointer): Option<string> {
    if p in fs.pointers then Some(fs.pointers[p]) else None
  }

  function OldName(fs: FS): Option<string> {
    NameAt(fs, Current)
  }

  function Keep(fs: FS, r: Release): seq<Effect> {
    if OldName(fs).Some? && OldName(fs).value != r.version then Activate(Previous, OldName(fs).value) else []
  }

  /** Everything before the activation commit point (lines 270 to 313). */
  function Prepare(fs: FS, op: Operation): seq<Effect>
    requires op.Install?
  {
    Place(fs, op.release)
    + [SetTransaction(Transaction(OldName(fs), op.release.version))]
    + Keep(fs, op.release)
    + [SetInstall(Meta(op.origin, op.binDir))]
  }

  function Finish(fs: FS, binDir: string): seq<Effect> {
    (if binDir in fs.launchers then [] else [SetLauncher(binDir)]) + [ClearTransaction]
  }

  /** install (lines 242 to 322). */
  function InstallPlan(fs: FS, op: Operation): Plan
    requires op.Install?
  {
    var refused := InstallRefusal(fs, op);
    if refused.Some? then Plan([], Err(refused.value))
    else
      var staged := StageRefusal(fs, op);
      if staged.Some? then Plan([MakeReleases], Err(staged.value))
      else
        Plan(Prepare(fs, op) + Activate(Current, op.release.version) + Finish(fs, op.binDir), Ok(op.release.version))
  }

  /** recover (lines 325 to 337). */
  function RecoverPlan(fs: FS, runs: bool): Plan {
    match InstalledRelease(fs)
    case Err(fault) => Plan([], Err(fault))
    case Ok(None) => Plan([], Err(NoRuntime))
    case Ok(Some(release)) =>
      if !Verified(Pointed(fs, Current).value) then Plan([], Err(DamagedRuntime))
      else if !runs then Plan([], Err(NotRunning))
      else Plan([ClearTransaction], Ok(release.version))
  }

  /** rollback (lines 340 to 356). */
  function RollbackPlan(fs: FS, runs: bool): Plan {
    match InstalledRelease(fs)
    case Err(fault) => Plan([], Err(fault))
    case Ok(current) =>
      if Previous !in fs.pointers || current.None? then Plan([], Err(NoPrevious))
      else if Pointed(fs, Previous).None? || ReleaseOf(Pointed(fs, Previous).value).None?
      then Plan([], Err(DamagedPrevious))
      else
        var dir := Pointed(fs, Previous).value;
        var release := ReleaseOf(dir).value;
        if release.epoch != current.value.epoch then Plan([], Err(Incompatible))
        else if !Verified(dir) then Plan([], Err(DamagedRuntime))
        else if !runs then Plan([], Err(NotRunning))
        else Plan(Activate(Current, fs.pointers[Previous]), Ok(release.version))
  }

  function Deletions(order: seq<(string, Deletion)>): (d: seq<Effect>)
    ensures |d| == |order|
    ensures forall i | 0 <= i < |order| :: d[i] == Delete(order[i].0, order[i].1)
  {
    seq(|order|, i requires 0 <= i < |order| => Delete(order[i].0, order[i].1))
  }

  /** Only a launcher that points into this installation is removed. */
  function DropOurs(fs: FS): seq<Effect> {
    if fs.install.Some? && fs.install.value.binDir in fs.launchers && fs.launchers[fs.install.value.binDir] == Ours
    then [DropLauncher(fs.install.value.binDir)] else []
  }

  function Detach(fs: FS): seq<Effect> {
    DropOurs(fs) + [ClearPointer(Current)] + [ClearPointer(Previous)]
  }

  /** uninstall (lines 359 to 371). The tree is removed file by file, in any order. */
  function UninstallPlan(fs: FS, order: seq<(string, Deletion)>): Plan {
    if fs.install.None? then Plan([], Err(NotInstalled))
    else if !fs.hasReleases then Plan(Detach(fs), Err(NoStorage))
    else Plan(Detach(fs) + Deletions(order) + [RemoveReleases] + [ClearInstall] + [ClearTransaction], Ok(""))
  }

  function PlanOf(fs: FS, op: Operation): Plan {
    match op
    case Install(_, _, _, _) => InstallPlan(fs, op)
    case Recover(runs) => RecoverPlan(fs, runs)
    case Rollback(runs) => RollbackPlan(fs, runs)
    case Uninstall(order) => UninstallPlan(fs, order)
  }

  /** The disk after an operation that a crash cuts after some number of effects. */
  function Cut(fs: FS, op: Operation, cut: nat): FS {
    ApplyAll(fs, Upto(PlanOf(fs, op).effects, cut))
  }
}

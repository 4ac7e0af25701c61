/**
 * Installations that reach the edges of the other modules: a bundle with a file
 * named like the inventory, and an upgrade cut where it loses the rollback target.
 */
module InstallReached {
  import opened Prelude
  import opened AppVersion
  import opened InstallState
  import opened InstallSafety
  import opened InstallOrder

  /** An install whose archive and probes are in order. */
  function Installing(r: Release, binDir: string, origin: string): Operation {
    Install(r, binDir, origin, Probe(true, true, true, true))
  }

  predicate Installable(r: Release) {
    r.epoch == STORAGE_EPOCH && METADATA !in r.bundle
  }

  function Completed(fs: FS, op: Operation): FS
    requires op.Install?
  {
    ApplyAll(fs, InstallPlan(fs, op).effects)
  }

  /** A version that was never published and is not older than the active one installs. */
  lemma NewerInstalls(fs: FS, r: Release, binDir: string, origin: string)
    requires Sound(fs) && Installable(r) && r.version !in fs.releases
    requires binDir in fs.launchers ==> fs.launchers[binDir] == Ours
    requires Active(fs).Some? ==> !Before(r.key, Active(fs).value.key)
    ensures InstallPlan(fs, Installing(r, binDir, origin)).result.Ok?
  {
    hide Sound, Before, Prepare, Finish, Built, Verified, ReleaseOf;
    ActiveInstalled(fs);
    if Current in fs.pointers {
      ActiveWhole(fs, Current);
    }
  }

  lemma CompletedParts(fs: FS, op: Operation)
    requires Sound(fs) && op.Install? && InstallPlan(fs, op).result.Ok?
    ensures var done := Completed(fs, op);
            && Sound(done) && Active(done) == Some(op.release)
            && Pointed(done, Current) == Some(Built(op.release))
            && done.releases == fs.releases[op.release.version := Built(op.release)]
            && done.launchers == if op.binDir in fs.launchers then fs.launchers else fs.launchers[op.binDir := Ours]
  {
    hide InstallPlan, Prepare, ApplyAll, AllAllowed, Whole, Built, Finish, ReleaseOf;
    InstallAdmits(fs, op);
    PrepareAllowed(fs, op);
    InstallAllowed(fs, op);
    AllAllowedKeeps(fs, InstallPlan(fs, op).effects, |InstallPlan(fs, op).effects|);
    BuiltRelease(op.release);
  }

  /** The file named like the inventory may stand at any depth. */
  const NAMESAKE: map<Path, string> := map[["mos"] := "launcher", ["lib", INVENTORY] := "data"]

  /**
   * Every well-formed release installs into an empty directory, and then recovers
   * if and only if no file of its bundle is named like the inventory.
   */
  lemma InstalledRecoversExactly(r: Release, binDir: string, origin: string)
    requires Installable(r)
    ensures var op := Installing(r, binDir, origin);
            && InstallPlan(EMPTY, op).result == Ok(r.version)
            && RecoverPlan(Completed(EMPTY, op), true).result
               == if Clean(r) then Ok(r.version) else Err(DamagedRuntime)
    ensures r.bundle == NAMESAKE ==> !Clean(r)
  {
    hide Sound, ApplyAll, InstallPlan, ReleaseOf, Verified, Built;
    var op := Installing(r, binDir, origin);
    EmptySound();
    NewerInstalls(EMPTY, r, binDir, origin);
    InstallNames(EMPTY, op);
    CompletedParts(EMPTY, op);
    ActiveInstalled(Completed(EMPTY, op));
    VerifiesExactly(r);
    if r.bundle == NAMESAKE {
      assert ["lib", INVENTORY] in r.bundle && Named(["lib", INVENTORY], INVENTORY);
    }
  }

  lemma InstallNames(fs: FS, op: Operation)
    requires op.Install? && InstallPlan(fs, op).result.Ok?
    ensures InstallPlan(fs, op).result == Ok(op.release.version)
  {
  }

  /**
   * Three releases installed one after the other, the third cut just after the
   * previous pointer was replaced: before it a rollback led to the first release,
   * after it both pointers name the second.
   */
  lemma TargetLostReached(a: Release, b: Release, c: Release, binDir: string, origin: string)
    requires Installable(a) && Installable(b) && Installable(c)
    requires a.version != b.version && b.version != c.version && a.version != c.version
    requires !Before(b.key, a.key) && !Before(c.key, b.key)
    ensures var two := Completed(Completed(EMPTY, Installing(a, binDir, origin)), Installing(b, binDir, origin));
            var op := Installing(c, binDir, origin);
            && Active(two) == Some(b) && Fallback(two) == Some(a)
            && InstallPlan(two, op).result.Ok? && Keep(two, c) != [] && Unkept(two, op) < Undecided(two, op)
            && Active(Cut(two, op, Unkept(two, op) + 1)) == Fallback(Cut(two, op, Unkept(two, op) + 1)) == Some(b)
  {
    hide Sound, ApplyAll, InstallPlan, ReleaseOf, Built, Before, Cut, Completed;
    var first, second, op :=
      Installing(a, binDir, origin), Installing(b, binDir, origin), Installing(c, binDir, origin);
    EmptySound();
    NewerInstalls(EMPTY, a, binDir, origin);
    CompletedParts(EMPTY, first);
    var one := Completed(EMPTY, first);
    NewerInstalls(one, b, binDir, origin);
    CompletedParts(one, second);
    CompletedRemembers(one, second);
    var two := Completed(one, second);
    NewerInstalls(two, c, binDir, origin);
    CutAfterKeep(two, op);
  }

  lemma CompletedRemembers(fs: FS, op: Operation)
    requires Sound(fs) && op.Install? && InstallPlan(fs, op).result.Ok?
    requires Active(fs).Some? && Active(fs).value.version != op.release.version
    ensures Fallback(Completed(fs, op)) == Active(fs)
  {
    hide Sound, InstallPlan, ApplyAll;
    UpgradeRemembers(fs, op);
  }

  lemma CutAfterKeep(fs: FS, op: Operation)
    requires Sound(fs) && op.Install? && InstallPlan(fs, op).result.Ok?
    requires Active(fs).Some? && Active(fs).value.version != op.release.version
    ensures Keep(fs, op.release) != [] && Unkept(fs, op) < Undecided(fs, op)
    ensures var mid := Cut(fs, op, Unkept(fs, op) + 1); Active(mid) == Active(fs) && Fallback(mid) == Active(fs)
  {
    hide Sound, InstallPlan, ApplyAll, ReleaseOf, Built, Cut, Place;
    ActiveInstalled(fs);
    ActiveWhole(fs, Current);
    var mid := Cut(fs, op, Unkept(fs, op) + 1);
    InstallActive(fs, op, Unkept(fs, op) + 1);
    PreviousAfterCut(fs, op, Unkept(fs, op) + 1);
    CutGrows(fs, op, Unkept(fs, op) + 1);
    FallbackIsActive(fs, mid);
  }
}

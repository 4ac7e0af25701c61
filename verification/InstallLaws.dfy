/**
 * The refusals of the installer, one by one and without its own checks, and what
 * its transaction record covers (src/mos_eisley/app_install.py, lines 242 to 356).
 */
module InstallLaws {
  import opened Prelude
  import opened AppVersion
  import opened InstallState
  import opened InstallSafety
  import opened InstallOrder

  // -------------------------------------------------------------------------
  // Install
  // -------------------------------------------------------------------------

  /** The version is lower at the first of the five numbers that differ. */
  ghost predicate Lower(v: Version, w: Version) {
    exists k: nat :: SmallerAt(v, w, k)
  }

  predicate LauncherFree(fs: FS, binDir: string) {
    binDir !in fs.launchers || fs.launchers[binDir].Ours?
  }

  /** What the archive and the probes of an install, and a directory that is already there, must be. */
  predicate Stages(fs: FS, op: Operation)
    requires op.Install?
  {
    && op.probe.extracts && ["release.json"] !in op.release.bundle && op.probe.stageRuns
    && (op.release.version in fs.releases ==>
          && ReleaseOf(fs.releases[op.release.version]) == Some(op.release)
          && Verified(fs.releases[op.release.version])
          && op.probe.targetRuns)
  }

  /** An install is refused before it changes anything for the first of five reasons, and for no other. */
  lemma InstallRefusedExactly(fs: FS, op: Operation)
    requires Sound(fs) && op.Install?
    ensures var r, cur := InstallPlan(fs, op).result, Active(fs);
            var late := op.release.epoch == 2 && LauncherFree(fs, op.binDir);
            var kept := late && (cur.Some? ==> !Lower(op.release.key, cur.value.key));
            var same := kept && (cur.Some? && cur.value.version == op.release.version ==> cur.value == op.release);
            && (r == Err(WrongEpoch) <==> op.release.epoch != 2)
            && (r == Err(ForeignLauncher) <==> op.release.epoch == 2 && !LauncherFree(fs, op.binDir))
            && (r == Err(Downgrade) <==> late && cur.Some? && Lower(op.release.key, cur.value.key))
            && (r == Err(MetadataChanged) <==> kept && !same)
            && (r == Err(BadArchive) <==> same && !op.probe.archive)
            && (r.Ok? <==> same && op.probe.archive && Stages(fs, op))
    ensures InstallRefusal(fs, op).Some? ==> InstallPlan(fs, op).effects == []
  {
    hide Sound, Before, Prepare, Finish, Built, Verified, ReleaseOf;
    ActiveInstalled(fs);
    if Active(fs).Some? {
      BeforeExactly(op.release.key, Active(fs).value.key);
    }
  }

  /** What is refused once the storage directory is there leaves nothing but that directory. */
  lemma StageRefusedExactly(fs: FS, op: Operation)
    requires Sound(fs) && op.Install? && InstallRefusal(fs, op).None?
    ensures var r, published := InstallPlan(fs, op).result, op.release.version in fs.releases;
            var unpacked := op.probe.extracts && ["release.json"] !in op.release.bundle;
            && (r == Err(BadBundle) <==> !unpacked)
            && (r == Err(Conflict) <==>
                  unpacked && op.probe.stageRuns && published
                  && ReleaseOf(fs.releases[op.release.version]) != Some(op.release))
            && (r == Err(DamagedRuntime) <==>
                  unpacked && op.probe.stageRuns && published
                  && ReleaseOf(fs.releases[op.release.version]) == Some(op.release)
                  && !Verified(fs.releases[op.release.version]))
            && (r.Err? ==> InstallPlan(fs, op).effects == [MakeReleases])
  {
    hide Sound, InstallRefusal, Prepare, Finish, Built, Verified, ReleaseOf;
  }

  // -------------------------------------------------------------------------
  // Recover and rollback
  // -------------------------------------------------------------------------

  /** Why a recovery is refused. */
  lemma RecoverRefusedExactly(fs: FS, runs: bool)
    requires Sound(fs)
    ensures var r, cur := RecoverPlan(fs, runs).result, Active(fs);
            && (r == Err(NoRuntime) <==> cur.None?)
            && (r == Err(DamagedRuntime) <==> cur.Some? && !Verified(Pointed(fs, Current).value))
            && (r == Err(NotRunning) <==> cur.Some? && Verified(Pointed(fs, Current).value) && !runs)
            && (r.Ok? <==> cur.Some? && Verified(Pointed(fs, Current).value) && runs)
            && (r.Ok? ==> r.value == cur.value.version)
  {
    hide Sound, Verified, ReleaseOf;
    ActiveInstalled(fs);
  }

  /** Why a rollback is refused; a refused one has no effect. */
  lemma RollbackRefusedExactly(fs: FS, runs: bool)
    requires Sound(fs)
    ensures var r, cur, old' := RollbackPlan(fs, runs).result, Active(fs), Fallback(fs);
            && (r == Err(NoPrevious) <==> cur.None? || NameAt(fs, Previous).None?)
            && (r == Err(Incompatible) <==> cur.Some? && old'.Some? && old'.value.epoch != cur.value.epoch)
            && (r == Err(DamagedRuntime) <==>
                  cur.Some? && old'.Some? && old'.value.epoch == cur.value.epoch
                  && !Verified(Pointed(fs, Previous).value))
            && (r.Err? ==> RollbackPlan(fs, runs).effects == [])
            && (r.Ok? ==> r == Ok(old'.value.version))
  {
    hide Sound, Verified, ReleaseOf;
    ActiveInstalled(fs);
    if Previous in fs.pointers {
      ActiveWhole(fs, Previous);
    }
  }

  // -------------------------------------------------------------------------
  // The transaction record
  // -------------------------------------------------------------------------

  predicate KeepsTransaction(e: Effect) {
    !e.SetTransaction? && !e.ClearTransaction?
  }

  lemma {:induction false} TransactionKept(fs: FS, effects: seq<Effect>)
    requires forall e | e in effects :: KeepsTransaction(e)
    ensures ApplyAll(fs, effects).transaction == fs.transaction
    decreases |effects|
  {
    if effects != [] {
      var init := effects[..|effects| - 1];
      assert forall e | e in init :: e in effects;
      TransactionKept(fs, init);
      assert effects[|effects| - 1] in effects;
    }
  }

  /** The effects of an install between the writing of its record and the removal of it. */
  function Inner(fs: FS, op: Operation): seq<Effect>
    requires op.Install?
  {
    Keep(fs, op.release) + [SetInstall(Meta(op.origin, op.binDir))] + Activate(Current, op.release.version)
    + if op.binDir in fs.launchers then [] else [SetLauncher(op.binDir)]
  }

  lemma InnerKeeps(fs: FS, op: Operation, e: Effect)
    requires op.Install? && e in Inner(fs, op)
    ensures KeepsTransaction(e)
  {
  }

  lemma PlaceLeaves(fs: FS, r: Release, e: Effect)
    requires e in Place(fs, r)
    ensures Leaves(e, Current) && Leaves(e, Previous)
  {
    hide Built;
  }

  lemma PlanAroundInner(fs: FS, op: Operation)
    requires op.Install? && InstallPlan(fs, op).result.Ok?
    ensures PlanOf(fs, op).effects
            == Place(fs, op.release) + [SetTransaction(Transaction(OldName(fs), op.release.version))]
               + Inner(fs, op) + [ClearTransaction]
  {
    hide Place, Keep, Activate;
    InstallAdmits(fs, op);
  }

  /**
   * While an install is on its way, whoever finds a pointer moved finds the record
   * of the transaction: from its first change to a pointer until its last effect,
   * transaction.json names what was active and what becomes active.
   */
  lemma TransactionCovers(fs: FS, op: Operation, cut: nat)
    requires Sound(fs) && op.Install? && InstallPlan(fs, op).result.Ok? && cut < |PlanOf(fs, op).effects|
    ensures var mid := Cut(fs, op, cut);
            || (NameAt(mid, Current) == NameAt(fs, Current) && NameAt(mid, Previous) == NameAt(fs, Previous)
                && mid.transaction == fs.transaction)
            || mid.transaction == Some(Transaction(NameAt(fs, Current), op.release.version))
  {
    hide PlanOf, InstallPlan, Place, Inner, ApplyAll, Sound, NameAt;
    PlanAroundInner(fs, op);
    var place, record := Place(fs, op.release), SetTransaction(Transaction(OldName(fs), op.release.version));
    var all := PlanOf(fs, op).effects;
    if cut <= |place| {
      assert Upto(all, cut) == Upto(place, cut);
      forall e | e in Upto(place, cut) ensures Leaves(e, Current) && Leaves(e, Previous) && KeepsTransaction(e) {
        assert e in place;
        PlaceLeaves(fs, op.release, e);
        PlaceKeeps(fs, op.release, e);
      }
      PointerLeft(fs, Upto(place, cut), Current);
      PointerLeft(fs, Upto(place, cut), Previous);
      TransactionKept(fs, Upto(place, cut));
    } else {
      var some := Upto(Inner(fs, op), cut - |place| - 1);
      assert Upto(all, cut) == (place + [record]) + some;
      forall e | e in some ensures KeepsTransaction(e) {
        assert e in Inner(fs, op);
        InnerKeeps(fs, op, e);
      }
      ApplyAppend(fs, place + [record], some);
      ApplyAppend(fs, place, [record]);
      AllAllowedOne(ApplyAll(fs, place), record);
      TransactionKept(ApplyAll(fs, place + [record]), some);
      OldIsCurrent(fs);
    }
  }

  lemma OldIsCurrent(fs: FS)
    ensures OldName(fs) == NameAt(fs, Current)
  {
  }

  lemma PlaceKeeps(fs: FS, r: Release, e: Effect)
    requires e in Place(fs, r)
    ensures KeepsTransaction(e)
  {
    hide Built;
  }

  // -------------------------------------------------------------------------
  // What a directory says and lists
  // -------------------------------------------------------------------------

  /** The metadata of a directory is read exactly if it is signed and of storage epoch 1 or 2. */
  lemma ReadsExactly(d: Dir, r: Release)
    ensures ReleaseOf(d) == Some(r)
            <==> ["release.json"] in d.files && d.files[["release.json"]] == Signed(r) && (r.epoch == 1 || r.epoch == 2)
  {
  }

  /** A directory that verified does not verify any more once its list, or a file it lists, is deleted. */
  lemma DamageShows(fs: FS, name: string, deletion: Deletion)
    requires name in fs.releases && Verified(fs.releases[name])
    requires deletion.InventoryFile? || (deletion.File? && deletion.path in fs.releases[name].inventory.value)
    ensures name in Step(fs, Delete(name, deletion)).releases
    ensures !Verified(Step(fs, Delete(name, deletion)).releases[name])
  {
    if deletion.File? {
      var d := fs.releases[name];
      assert deletion.path in Actual(d.files);
      assert deletion.path !in Actual(Step(fs, Delete(name, deletion)).releases[name].files);
    }
  }

  // -------------------------------------------------------------------------
  // A published directory
  // -------------------------------------------------------------------------

  /** A published directory holds the bundle and the signed metadata, and lists both. */
  lemma PublishedHolds(r: Release, p: Path)
    requires ["release.json"] !in r.bundle
    ensures var d := Built(r);
            && (p in d.files <==> p == ["release.json"] || (p in r.bundle && p != ["runtime-files.json"]))
            && (p in d.files ==> d.files[p] == if p == ["release.json"] then Signed(r) else Bytes(r.bundle[p]))
            && d.inventory.Some?
            && (p in d.inventory.value <==> p == ["release.json"] || p in r.bundle)
            && (p in d.inventory.value ==>
                  d.inventory.value[p] == if p == ["release.json"] then Signed(r) else Bytes(r.bundle[p]))
  {
    assert ["release.json"] != ["runtime-files.json"];
  }
}

/**
 * Pointer integrity, immutability, crash atomicity and version order of the
 * installation directory, over every run of operations with a crash between any
 * two effects.
 */
module InstallSafety {
  import opened Prelude
  import opened AppVersion
  import opened InstallState

  // -------------------------------------------------------------------------
  // Directories
  // -------------------------------------------------------------------------

  /** The complete directory of a release: everything its archive holds, its metadata and its inventory. */
  ghost predicate Whole(name: string, d: Dir) {
    && ReleaseOf(d).Some?
    && ReleaseOf(d).value.version == name
    && d == Built(ReleaseOf(d).value)
  }

  ghost predicate PartOf(d: Dir, whole: Dir) {
    && (forall p | p in d.files :: p in whole.files && whole.files[p] == d.files[p])
    && (d.inventory.Some? ==> d.inventory == whole.inventory)
  }

  /** What is left of a published directory while it is being removed. */
  ghost predicate Remnant(name: string, d: Dir) {
    exists r: Release :: ReadableEpoch(r) && r.version == name && PartOf(d, Built(r))
  }

  lemma BuiltRelease(r: Release)
    requires ReadableEpoch(r)
    ensures ReleaseOf(Built(r)) == Some(r)
  {
    assert METADATA != [INVENTORY];
  }

  lemma BuiltWhole(r: Release)
    requires ReadableEpoch(r)
    ensures Whole(r.version, Built(r)) && Remnant(r.version, Built(r))
  {
    BuiltRelease(r);
    assert PartOf(Built(r), Built(r));
  }

  lemma StagedNames(r: Release, p: Path)
    requires p in Staged(r)
    ensures Named(p, INVENTORY) ==> p in r.bundle
  {
    assert METADATA[|METADATA| - 1] == "release.json";
    assert |INVENTORY| == 18 && |"release.json"| == 12;
  }

  /** A recorded runtime passes its own verification exactly when no bundled file has the inventory's name. */
  lemma VerifiesExactly(r: Release)
    requires METADATA !in r.bundle
    ensures Verified(Built(r)) <==> Clean(r)
  {
    var staged := Staged(r);
    assert METADATA in staged;
    if Clean(r) {
      forall p | p in staged ensures p in Actual(Built(r).files) {
        StagedNames(r, p);
        assert Named([INVENTORY], INVENTORY);
      }
      assert Actual(Built(r).files) == staged;
    } else {
      var p :| p in r.bundle && Named(p, INVENTORY);
      assert p in staged && p !in Actual(Built(r).files);
    }
  }

  /** A partly deleted directory never passes verification: what passes is complete. */
  lemma VerifiedIsWhole(name: string, d: Dir)
    requires Remnant(name, d) && Verified(d)
    ensures Whole(name, d)
  {
    var r: Release :| ReadableEpoch(r) && r.version == name && PartOf(d, Built(r));
    assert Actual(d.files) == Staged(r);
    forall p | p in Built(r).files ensures p in d.files && d.files[p] == Built(r).files[p] {
      assert p in Staged(r);
      assert p in Actual(d.files);
    }
    assert d.files == Built(r).files;
    BuiltRelease(r);
  }

  // -------------------------------------------------------------------------
  // The invariant
  // -------------------------------------------------------------------------

  ghost predicate Sound(fs: FS) {
    && (forall p | p in fs.pointers ::
          fs.pointers[p] in fs.releases && Whole(fs.pointers[p], fs.releases[fs.pointers[p]]))
    && (forall n | n in fs.releases :: Remnant(n, fs.releases[n]))
    && (!fs.hasReleases ==> fs.releases == map[])
    && (fs.pointers != map[] ==> fs.install.Some?)
  }

  /** When an effect may be made. */
  ghost predicate Allowed(fs: FS, e: Effect) {
    match e
    case Publish(name, dir) => fs.hasReleases && name !in fs.releases && Whole(name, dir) && Remnant(name, dir)
    case Commit(p) =>
      && fs.install.Some? && p in fs.pending
      && fs.pending[p] in fs.releases && Whole(fs.pending[p], fs.releases[fs.pending[p]])
    case Delete(_, _) => fs.pointers == map[]
    case RemoveReleases => fs.pointers == map[]
    case ClearInstall => fs.pointers == map[]
    case _ => true
  }

  ghost predicate AllAllowed(fs: FS, effects: seq<Effect>) {
    if effects == [] then true
    else
      && AllAllowed(fs, effects[..|effects| - 1])
      && Allowed(ApplyAll(fs, effects[..|effects| - 1]), effects[|effects| - 1])
  }

  lemma RemnantShrinks(name: string, d: Dir, deletion: Deletion)
    requires Remnant(name, d)
    ensures Remnant(name, Without(d, deletion))
  {
    var r: Release :| ReadableEpoch(r) && r.version == name && PartOf(d, Built(r));
    assert PartOf(Without(d, deletion), Built(r));
  }

  lemma AllowedKeeps(fs: FS, e: Effect)
    requires Sound(fs) && Allowed(fs, e)
    ensures Sound(Step(fs, e))
  {
    hide Whole, Remnant;
    if e.Delete? && e.name in fs.releases {
      RemnantShrinks(e.name, fs.releases[e.name], e.deletion);
    }
  }

  lemma {:induction false} AllAllowedAppend(fs: FS, a: seq<Effect>, b: seq<Effect>)
    requires AllAllowed(fs, a) && AllAllowed(ApplyAll(fs, a), b)
    ensures AllAllowed(fs, a + b)
    decreases |b|
  {
    if b == [] {
      assert a + b == a;
    } else {
      var init := b[..|b| - 1];
      AllAllowedAppend(fs, a, init);
      ApplyAppend(fs, a, init);
      assert (a + b)[..|a + b| - 1] == a + init;
    }
  }

  lemma {:induction false} AllAllowedKeeps(fs: FS, effects: seq<Effect>, n: nat)
    requires Sound(fs) && AllAllowed(fs, effects)
    ensures Sound(ApplyAll(fs, Upto(effects, n)))
    decreases |effects|
  {
    if effects != [] {
      var init := effects[..|effects| - 1];
      AllAllowedKeeps(fs, init, n);
      if n < |effects| {
        assert Upto(effects, n) == Upto(init, n);
      } else {
        assert Upto(init, n) == init;
        AllowedKeeps(ApplyAll(fs, init), effects[|effects| - 1]);
      }
    }
  }

  lemma AllAllowedOne(fs: FS, e: Effect)
    ensures AllAllowed(fs, [e]) <==> Allowed(fs, e)
    ensures ApplyAll(fs, [e]) == Step(fs, e)
  {
    assert [e][..0] == [];
  }

  lemma ApplyActivate(fs: FS, p: Pointer, name: string)
    ensures ApplyAll(fs, Activate(p, name)) == fs.(pointers := fs.pointers[p := name], pending := fs.pending - {p})
  {
    var a, b, c := ClearPending(p), SetPending(p, name), Commit(p);
    ApplyThree(fs, a, b, c);
    assert fs.pending - {p} == (fs.pending - {p})[p := name] - {p};
  }

  lemma ApplyThree(fs: FS, a: Effect, b: Effect, c: Effect)
    ensures ApplyAll(fs, [a, b, c]) == Step(Step(Step(fs, a), b), c)
  {
    ApplyAppend(fs, [a], [b]);
    ApplyAppend(fs, [a] + [b], [c]);
    AllAllowedOne(fs, a);
    AllAllowedOne(Step(fs, a), b);
    AllAllowedOne(Step(Step(fs, a), b), c);
    assert [a] + [b] + [c] == [a, b, c];
  }

  lemma ActivateAllowed(fs: FS, p: Pointer, name: string)
    requires name in fs.releases && Whole(name, fs.releases[name]) && fs.install.Some?
    ensures AllAllowed(fs, Activate(p, name))
  {
    hide Whole;
    var a, b, c := ClearPending(p), SetPending(p, name), Commit(p);
    AllAllowedOne(fs, a);
    AllAllowedOne(Step(fs, a), b);
    AllAllowedOne(Step(Step(fs, a), b), c);
    AllAllowedAppend(fs, [a], [b]);
    ApplyAppend(fs, [a], [b]);
    AllAllowedAppend(fs, [a] + [b], [c]);
    assert [a] + [b] + [c] == Activate(p, name);
  }

  // -------------------------------------------------------------------------
  // Every plan is allowed
  // -------------------------------------------------------------------------

  lemma OneMore(fs: FS, a: seq<Effect>, e: Effect)
    requires AllAllowed(fs, a) && Allowed(ApplyAll(fs, a), e)
    ensures AllAllowed(fs, a + [e]) && ApplyAll(fs, a + [e]) == Step(ApplyAll(fs, a), e)
  {
    AllAllowedOne(ApplyAll(fs, a), e);
    AllAllowedAppend(fs, a, [e]);
    ApplyAppend(fs, a, [e]);
  }

  lemma WholeIs(name: string, d: Dir)
    requires Whole(name, d)
    ensures ReleaseOf(d).Some? && d == Built(ReleaseOf(d).value)
  {
  }

  lemma PlaceAllowed(fs: FS, op: Operation)
    requires Sound(fs) && op.Install? && op.release.epoch == STORAGE_EPOCH && StageRefusal(fs, op).None?
    ensures var r := op.release;
            var placed := ApplyAll(fs, Place(fs, r));
            && AllAllowed(fs, Place(fs, r))
            && placed == fs.(hasReleases := true, releases := fs.releases[r.version := Built(r)])
            && Whole(r.version, Built(r))
            && (r.version in fs.releases ==> placed.releases == fs.releases)
  {
    hide Whole, Remnant, Verified, AllAllowed, ApplyAll;
    var r := op.release;
    BuiltWhole(r);
    AllAllowedOne(fs, MakeReleases);
    if r.version in fs.releases {
      VerifiedIsWhole(r.version, fs.releases[r.version]);
      WholeIs(r.version, fs.releases[r.version]);
      assert fs.releases[r.version := Built(r)] == fs.releases;
      assert Place(fs, r) == [MakeReleases];
    } else {
      OneMore(fs, [MakeReleases], Publish(r.version, Built(r)));
    }
  }

  /** The disk after everything an install does before its commit point, and that all of it is allowed. */
  lemma PrepareAllowed(fs: FS, op: Operation)
    requires Sound(fs) && op.Install? && InstallPlan(fs, op).result.Ok?
    ensures var r := op.release;
            var ready := ApplyAll(fs, Prepare(fs, op));
            && AllAllowed(fs, Prepare(fs, op)) && Whole(r.version, Built(r))
            && ready.releases == fs.releases[r.version := Built(r)] && ready.hasReleases
            && ready.pointers ==
               (if Keep(fs, r) == [] then fs.pointers else fs.pointers[Previous := fs.pointers[Current]])
            && ready.pending == (if Keep(fs, r) == [] then fs.pending else fs.pending - {Previous})
            && ready.transaction == Some(Transaction(OldName(fs), r.version))
            && ready.install == Some(Meta(op.origin, op.binDir))
            && ready.launchers == fs.launchers
  {
    hide Whole, Sound, StageRefusal, InstallRefusal, AllAllowed, ApplyAll;
    var r := op.release;
    InstallAdmits(fs, op);
    PlaceAllowed(fs, op);
    var a := Place(fs, r);
    var journal := SetTransaction(Transaction(OldName(fs), r.version));
    OneMore(fs, a, journal);
    var b := a + [journal];
    var journaled := ApplyAll(fs, b);
    if Keep(fs, r) == [] {
      assert b + Keep(fs, r) == b;
    } else {
      OldKept(fs, op);
      ActivateAllowed(journaled, Previous, fs.pointers[Current]);
      AllAllowedAppend(fs, b, Keep(fs, r));
      ApplyAppend(fs, b, Keep(fs, r));
      ApplyActivate(journaled, Previous, fs.pointers[Current]);
    }
    OneMore(fs, b + Keep(fs, r), SetInstall(Meta(op.origin, op.binDir)));
  }

  lemma InstallAdmits(fs: FS, op: Operation)
    requires op.Install? && InstallPlan(fs, op).result.Ok?
    ensures op.release.epoch == STORAGE_EPOCH && METADATA !in op.release.bundle
    ensures InstallRefusal(fs, op).None? && StageRefusal(fs, op).None?
    ensures InstallPlan(fs, op).effects
            == Prepare(fs, op) + Activate(Current, op.release.version) + Finish(fs, op.binDir)
  {
  }

  lemma OldKept(fs: FS, op: Operation)
    requires Sound(fs) && op.Install? && Keep(fs, op.release) != []
    ensures Current in fs.pointers && fs.pointers[Current] in fs.releases && fs.pointers[Current] != op.release.version
    ensures Whole(fs.pointers[Current], fs.releases[fs.pointers[Current]]) && fs.install.Some?
  {
  }

  lemma FinishAllowed(fs: FS, binDir: string)
    ensures AllAllowed(fs, Finish(fs, binDir))
    ensures ApplyAll(fs, Finish(fs, binDir))
            == fs.(transaction := None,
                   launchers := if binDir in fs.launchers then fs.launchers else fs.launchers[binDir := Ours])
  {
    AllAllowedOne(fs, ClearTransaction);
    if binDir in fs.launchers {
      assert Finish(fs, binDir) == [ClearTransaction];
    } else {
      AllAllowedOne(fs, SetLauncher(binDir));
      OneMore(fs, [SetLauncher(binDir)], ClearTransaction);
    }
  }

  /** The disk after a complete install. */
  lemma InstallAllowed(fs: FS, op: Operation)
    requires Sound(fs) && op.Install? && InstallPlan(fs, op).result.Ok?
    ensures AllAllowed(fs, InstallPlan(fs, op).effects)
    ensures var ready := ApplyAll(fs, Prepare(fs, op));
            ApplyAll(fs, InstallPlan(fs, op).effects)
            == ready.(pointers := ready.pointers[Current := op.release.version],
                      pending := ready.pending - {Current},
                      transaction := None,
                      launchers := if op.binDir in fs.launchers then fs.launchers else fs.launchers[op.binDir := Ours])
  {
    hide Whole, Sound, StageRefusal, InstallRefusal, Prepare, AllAllowed;
    var name := op.release.version;
    PrepareAllowed(fs, op);
    var ready := ApplyAll(fs, Prepare(fs, op));
    ActivateAllowed(ready, Current, name);
    ApplyActivate(ready, Current, name);
    AllAllowedAppend(fs, Prepare(fs, op), Activate(Current, name));
    ApplyAppend(fs, Prepare(fs, op), Activate(Current, name));
    var switched := ApplyAll(fs, Prepare(fs, op) + Activate(Current, name));
    FinishAllowed(switched, op.binDir);
    assert Finish(switched, op.binDir) == Finish(fs, op.binDir);
    AllAllowedAppend(fs, Prepare(fs, op) + Activate(Current, name), Finish(fs, op.binDir));
    ApplyAppend(fs, Prepare(fs, op) + Activate(Current, name), Finish(fs, op.binDir));
  }

  lemma DropAllowed(fs: FS)
    ensures AllAllowed(fs, DropOurs(fs))
    ensures var d := ApplyAll(fs, DropOurs(fs)); d == fs.(launchers := d.launchers)
  {
    if DropOurs(fs) != [] {
      AllAllowedOne(fs, DropOurs(fs)[0]);
    }
  }

  lemma DetachAllowed(fs: FS)
    ensures AllAllowed(fs, Detach(fs))
    ensures var d := ApplyAll(fs, Detach(fs));
            d.pointers == map[] && d == fs.(pointers := map[], launchers := d.launchers)
  {
    hide AllAllowed, ApplyAll, DropOurs;
    DropAllowed(fs);
    OneMore(fs, DropOurs(fs), ClearPointer(Current));
    OneMore(fs, DropOurs(fs) + [ClearPointer(Current)], ClearPointer(Previous));
    assert forall p | p in fs.pointers.Keys :: p.Current? || p.Previous?;
    assert fs.pointers - {Current} - {Previous} == map[];
  }

  lemma {:induction false} DeletionsAllowed(fs: FS, order: seq<(string, Deletion)>)
    requires fs.pointers == map[]
    ensures AllAllowed(fs, Deletions(order))
    ensures ApplyAll(fs, Deletions(order)) == fs.(releases := ApplyAll(fs, Deletions(order)).releases)
    decreases |order|
  {
    hide AllAllowed, ApplyAll;
    if order != [] {
      var init, last := order[..|order| - 1], order[|order| - 1];
      DeletionsAllowed(fs, init);
      assert Deletions(order) == Deletions(init) + [Delete(last.0, last.1)];
      OneMore(fs, Deletions(init), Delete(last.0, last.1));
    } else {
      assert Deletions(order) == [];
      NoEffects(fs);
    }
  }

  lemma NoEffects(fs: FS)
    ensures AllAllowed(fs, []) && ApplyAll(fs, []) == fs
  {
  }

  lemma EraseAllowed(fs: FS, some: seq<Effect>)
    requires AllAllowed(fs, some) && ApplyAll(fs, some).pointers == map[]
    ensures var all := some + [RemoveReleases] + [ClearInstall] + [ClearTransaction];
            && AllAllowed(fs, all)
            && ApplyAll(fs, all)
               == ApplyAll(fs, some).(releases := map[], hasReleases := false, install := None, transaction := None)
  {
    hide AllAllowed, ApplyAll;
    OneMore(fs, some, RemoveReleases);
    OneMore(fs, some + [RemoveReleases], ClearInstall);
    OneMore(fs, some + [RemoveReleases] + [ClearInstall], ClearTransaction);
  }

  lemma UninstallAllowed(fs: FS, order: seq<(string, Deletion)>)
    ensures AllAllowed(fs, UninstallPlan(fs, order).effects)
    ensures UninstallPlan(fs, order).result.Ok? ==>
              ApplyAll(fs, UninstallPlan(fs, order).effects)
              == EMPTY.(pending := fs.pending, launchers := ApplyAll(fs, Detach(fs)).launchers)
  {
    hide AllAllowed, ApplyAll, Detach, Deletions, Step, Allowed;
    DetachAllowed(fs);
    NoEffects(fs);
    DeletionsAllowed(ApplyAll(fs, Detach(fs)), order);
    AllAllowedAppend(fs, Detach(fs), Deletions(order));
    ApplyAppend(fs, Detach(fs), Deletions(order));
    EraseAllowed(fs, Detach(fs) + Deletions(order));
  }

  lemma PlanAllowed(fs: FS, op: Operation)
    requires Sound(fs)
    ensures AllAllowed(fs, PlanOf(fs, op).effects)
  {
    hide Sound, AllAllowed, Prepare, Verified, Whole, Detach, Deletions;
    NoneAllowed(fs);
    match op
    case Install(_, _, _, _) =>
      if InstallPlan(fs, op).result.Ok? {
        InstallAllowed(fs, op);
      }
    case Recover(runs) =>
    case Rollback(runs) =>
      if RollbackPlan(fs, runs).result.Ok? {
        PreviousWhole(fs);
        ActivateAllowed(fs, Current, fs.pointers[Previous]);
      }
    case Uninstall(order) => UninstallAllowed(fs, order);
  }

  lemma NoneAllowed(fs: FS)
    ensures AllAllowed(fs, []) && AllAllowed(fs, [MakeReleases]) && AllAllowed(fs, [ClearTransaction])
  {
    AllAllowedOne(fs, MakeReleases);
    AllAllowedOne(fs, ClearTransaction);
  }

  lemma PreviousWhole(fs: FS)
    requires Sound(fs) && Previous in fs.pointers
    ensures fs.pointers[Previous] in fs.releases && Whole(fs.pointers[Previous], fs.releases[fs.pointers[Previous]])
    ensures fs.install.Some?
  {
  }

  // -------------------------------------------------------------------------
  // Runs
  // -------------------------------------------------------------------------

  /** One operation and the number of its effects that happened before a crash. */
  datatype Turn = Turn(op: Operation, cut: nat)

  ghost function Run(fs: FS, turns: seq<Turn>): FS {
    if turns == [] then fs
    else
      var last := turns[|turns| - 1];
      Cut(Run(fs, turns[..|turns| - 1]), last.op, last.cut)
  }

  lemma CutSound(fs: FS, op: Operation, cut: nat)
    requires Sound(fs)
    ensures Sound(Cut(fs, op, cut))
  {
    PlanAllowed(fs, op);
    AllAllowedKeeps(fs, PlanOf(fs, op).effects, cut);
  }

  /**
   * Pointer integrity. Over every run with a crash between any two effects, each
   * pointer is absent or names an existing, complete release directory of that
   * name, every directory is a published one or what is left of it, and the
   * installation record is there as long as a pointer is.
   */
  lemma {:induction false} PointerIntegrity(fs: FS, turns: seq<Turn>)
    requires Sound(fs)
    ensures Sound(Run(fs, turns))
  {
    hide Sound, Cut;
    if turns != [] {
      PointerIntegrity(fs, turns[..|turns| - 1]);
      CutSound(Run(fs, turns[..|turns| - 1]), turns[|turns| - 1].op, turns[|turns| - 1].cut);
    }
  }

  /** Whatever is reached with a pointer in place can be uninstalled to the end: its record and its tree are there. */
  lemma PointedCanUninstall(fs: FS, turns: seq<Turn>, order: seq<(string, Deletion)>)
    requires Sound(fs) && Run(fs, turns).pointers != map[]
    ensures UninstallPlan(Run(fs, turns), order).result.Ok?
  {
    PointerIntegrity(fs, turns);
    var p :| p in Run(fs, turns).pointers;
  }

  lemma EmptySound()
    ensures Sound(EMPTY)
  {
  }

  // -------------------------------------------------------------------------
  // Immutability
  // -------------------------------------------------------------------------

  /** Published directories are never written again and never removed. */
  ghost predicate Grows(fs: FS, fs': FS) {
    forall n | n in fs.releases :: n in fs'.releases && fs'.releases[n] == fs.releases[n]
  }

  lemma {:induction false} AllowedGrows(fs: FS, effects: seq<Effect>)
    requires AllAllowed(fs, effects)
    requires forall e | e in effects :: !e.Delete? && !e.RemoveReleases?
    ensures Grows(fs, ApplyAll(fs, effects))
    decreases |effects|
  {
    hide Whole, Remnant;
    if effects != [] {
      AllowedGrows(fs, effects[..|effects| - 1]);
      assert effects[|effects| - 1] in effects;
    }
  }

  lemma {:induction false} AllAllowedUpto(fs: FS, effects: seq<Effect>, n: nat)
    requires AllAllowed(fs, effects)
    ensures AllAllowed(fs, Upto(effects, n))
    decreases |effects|
  {
    if n < |effects| {
      AllAllowedUpto(fs, effects[..|effects| - 1], n);
      assert Upto(effects[..|effects| - 1], n) == Upto(effects, n);
    }
  }

  lemma PlanNeverDeletes(fs: FS, op: Operation, e: Effect)
    requires !op.Uninstall? && e in PlanOf(fs, op).effects
    ensures !e.Delete? && !e.RemoveReleases? && !e.ClearPointer?
  {
    hide StageRefusal, InstallRefusal, Verified, Built;
  }

  lemma CutGrows(fs: FS, op: Operation, cut: nat)
    requires Sound(fs) && !op.Uninstall?
    ensures Grows(fs, Cut(fs, op, cut))
  {
    hide Sound, AllAllowed, PlanOf, Whole, Grows, ApplyAll;
    PlanAllowed(fs, op);
    var effects := PlanOf(fs, op).effects;
    AllAllowedUpto(fs, effects, cut);
    forall e | e in Upto(effects, cut) ensures !e.Delete? && !e.RemoveReleases? {
      PlanNeverDeletes(fs, op, e);
    }
    AllowedGrows(fs, Upto(effects, cut));
  }

  /** Until an uninstall, whatever was published stays as it was, its release.json included. */
  lemma {:induction false} PublishedImmutable(fs: FS, turns: seq<Turn>)
    requires Sound(fs) && forall t | t in turns :: !t.op.Uninstall?
    ensures Grows(fs, Run(fs, turns))
  {
    hide Sound, Cut;
    if turns != [] {
      var init := turns[..|turns| - 1];
      PublishedImmutable(fs, init);
      PointerIntegrity(fs, init);
      assert turns[|turns| - 1] in turns;
      CutGrows(Run(fs, init), turns[|turns| - 1].op, turns[|turns| - 1].cut);
    }
  }

  /** A partly deleted directory is never activated, however often its version is installed again. */
  lemma DamagedNeverActivated(fs: FS, turns: seq<Turn>, name: string, p: Pointer)
    requires Sound(fs) && forall t | t in turns :: !t.op.Uninstall?
    requires name in fs.releases && !Whole(name, fs.releases[name])
    ensures NameAt(Run(fs, turns), p) != Some(name)
  {
    hide Whole, Remnant;
    PublishedImmutable(fs, turns);
    PointerIntegrity(fs, turns);
  }

  // -------------------------------------------------------------------------
  // Crash atomicity
  // -------------------------------------------------------------------------

  /** What recover reports. */
  function Report(fs: FS, runs: bool): Result<string, Fault> {
    RecoverPlan(fs, runs).result
  }

  predicate Leaves(e: Effect, p: Pointer) {
    e != Commit(p) && !e.ClearPointer?
  }

  lemma StepLeaves(fs: FS, e: Effect, p: Pointer)
    requires Leaves(e, p)
    ensures NameAt(Step(fs, e), p) == NameAt(fs, p)
  {
  }

  lemma {:induction false} PointerLeft(fs: FS, effects: seq<Effect>, p: Pointer)
    requires forall e | e in effects :: Leaves(e, p)
    ensures NameAt(ApplyAll(fs, effects), p) == NameAt(fs, p)
    decreases |effects|
  {
    hide Step, Leaves, NameAt;
    if effects != [] {
      var init := effects[..|effects| - 1];
      assert forall e | e in init :: e in effects;
      PointerLeft(fs, init, p);
      assert effects[|effects| - 1] in effects;
      StepLeaves(ApplyAll(fs, init), effects[|effects| - 1], p);
    }
  }

  /** The same pointer to the same directory gives the same report. */
  lemma SameReport(fs: FS, fs': FS, runs: bool)
    requires Sound(fs) && Grows(fs, fs') && OldName(fs') == OldName(fs)
    ensures Report(fs', runs) == Report(fs, runs) && InstalledRelease(fs') == InstalledRelease(fs)
  {
    hide Verified, ReleaseOf, Whole, Remnant;
    if Current in fs.pointers {
      assert fs.pointers[Current] in fs.releases;
      assert Pointed(fs', Current) == Pointed(fs, Current);
    } else {
      assert OldName(fs').None?;
    }
  }

  /** The effects of an install up to its commit point. */
  function Undecided(fs: FS, op: Operation): nat
    requires op.Install?
  {
    |Prepare(fs, op)| + 2
  }

  lemma PrepareLeaves(fs: FS, op: Operation, e: Effect)
    requires op.Install? && e in Prepare(fs, op) + [ClearPending(Current), SetPending(Current, op.release.version)]
    ensures Leaves(e, Current)
  {
    hide Built;
  }

  lemma BeforeCommit(fs: FS, op: Operation, cut: nat)
    requires op.Install? && InstallPlan(fs, op).result.Ok? && cut <= Undecided(fs, op)
    ensures Upto(PlanOf(fs, op).effects, cut)
            <= Prepare(fs, op) + [ClearPending(Current), SetPending(Current, op.release.version)]
    ensures OldName(Cut(fs, op, cut)) == OldName(fs)
  {
    hide Prepare, Finish, ApplyAll;
    InstallAdmits(fs, op);
    var all := PlanOf(fs, op).effects;
    var undecided := Prepare(fs, op) + [ClearPending(Current), SetPending(Current, op.release.version)];
    assert all == undecided + ([Commit(Current)] + Finish(fs, op.binDir));
    assert Upto(all, cut) == Upto(undecided, cut);
    forall e | e in Upto(all, cut) ensures Leaves(e, Current) {
      assert e in undecided;
      PrepareLeaves(fs, op, e);
    }
    PointerLeft(fs, Upto(all, cut), Current);
  }

  lemma AfterCommit(fs: FS, op: Operation, cut: nat)
    requires Sound(fs) && op.Install? && InstallPlan(fs, op).result.Ok? && cut > Undecided(fs, op)
    ensures OldName(Cut(fs, op, cut)) == Some(op.release.version)
    ensures Pointed(Cut(fs, op, cut), Current) == Some(Built(op.release))
  {
    hide Prepare, ApplyAll, AllAllowed, Whole, Finish, Sound;
    InstallAdmits(fs, op);
    PrepareAllowed(fs, op);
    var name := op.release.version;
    var start := Prepare(fs, op) + Activate(Current, name);
    var rest := Upto(Finish(fs, op.binDir), cut - |start|);
    UptoAppend(start, Finish(fs, op.binDir), cut);
    assert Upto(PlanOf(fs, op).effects, cut) == start + rest;
    ApplyAppend(fs, Prepare(fs, op), Activate(Current, name));
    ApplyActivate(ApplyAll(fs, Prepare(fs, op)), Current, name);
    ApplyAppend(fs, start, rest);
    FinishPart(fs, op.binDir, ApplyAll(fs, start), cut - |start|);
  }

  lemma FinishPart(fs: FS, binDir: string, mid: FS, n: nat)
    ensures var d := ApplyAll(mid, Upto(Finish(fs, binDir), n));
            d.pointers == mid.pointers && d.releases == mid.releases
  {
    var all := Finish(fs, binDir);
    forall e | e in Upto(all, n) ensures e == ClearTransaction || e == SetLauncher(binDir) {
      assert e in all;
    }
    PointersLeft(mid, Upto(all, n), binDir);
  }

  lemma {:induction false} PointersLeft(fs: FS, effects: seq<Effect>, binDir: string)
    requires forall e | e in effects :: e == ClearTransaction || e == SetLauncher(binDir)
    ensures var d := ApplyAll(fs, effects); d.pointers == fs.pointers && d.releases == fs.releases
    decreases |effects|
  {
    if effects != [] {
      var init := effects[..|effects| - 1];
      assert forall e | e in init :: e in effects;
      PointersLeft(fs, init, binDir);
      assert effects[|effects| - 1] in effects;
    }
  }

  /**
   * Crash atomicity. Cut an install anywhere: recover then reports what it would
   * have reported before the install, or, once the current pointer was replaced,
   * the new version. In the second case it fails exactly when the bundle holds a
   * file with the inventory's own name.
   */
  lemma CrashAtomic(fs: FS, op: Operation, cut: nat, runs: bool)
    requires Sound(fs) && op.Install? && InstallPlan(fs, op).result.Ok?
    ensures var mid := Cut(fs, op, cut);
            if cut <= Undecided(fs, op) then Report(mid, runs) == Report(fs, runs)
            else Report(mid, runs) == if !Clean(op.release) then Err(DamagedRuntime)
                                      else if !runs then Err(NotRunning) else Ok(op.release.version)
  {
    hide Cut, Sound, Grows, Verified, Clean, Built, Prepare, RecoverPlan;
    var mid := Cut(fs, op, cut);
    if cut <= Undecided(fs, op) {
      BeforeCommit(fs, op, cut);
      CutGrows(fs, op, cut);
      SameReport(fs, mid, runs);
    } else {
      AfterCommit(fs, op, cut);
      InstallAdmits(fs, op);
      ReportOf(mid, op.release, runs);
    }
  }

  lemma ReportOf(fs: FS, r: Release, runs: bool)
    requires Pointed(fs, Current) == Some(Built(r)) && ReadableEpoch(r) && METADATA !in r.bundle
    ensures Report(fs, runs) ==
               if !Clean(r) then Err(DamagedRuntime) else if !runs then Err(NotRunning) else Ok(r.version)
  {
    hide Verified, Clean, Built, ReleaseOf;
    BuiltRelease(r);
    VerifiesExactly(r);
  }

  /** A successful recover leaves everything but the transaction record, which is gone. */
  lemma RecoverClears(fs: FS, runs: bool)
    requires Report(fs, runs).Ok?
    ensures ApplyAll(fs, RecoverPlan(fs, runs).effects) == fs.(transaction := None)
  {
    hide Verified, InstalledRelease;
    AllAllowedOne(fs, ClearTransaction);
  }
}

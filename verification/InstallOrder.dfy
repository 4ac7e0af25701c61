/**
 * What the installation directory remembers across operations: versions and
 * storage epochs only move as the operations promise, what rollback returns to,
 * what an interrupted install or uninstall loses.
 */
module InstallOrder {
  import opened Prelude
  import opened AppVersion
  import opened InstallState
  import opened InstallSafety

  /** The release the current pointer names. */
  function Active(fs: FS): Option<Release> {
    if Pointed(fs, Current).Some? then ReleaseOf(Pointed(fs, Current).value) else None
  }

  lemma ActiveWhole(fs: FS, p: Pointer)
    requires Sound(fs) && p in fs.pointers
    ensures fs.pointers[p] in fs.releases && ReleaseOf(fs.releases[fs.pointers[p]]).Some?
    ensures ReleaseOf(fs.releases[fs.pointers[p]]).value.version == fs.pointers[p]
  {
  }

  lemma ActiveInstalled(fs: FS)
    requires Sound(fs)
    ensures InstalledRelease(fs) == Ok(Active(fs))
    ensures Active(fs).Some? <==> Current in fs.pointers
    ensures Active(fs).Some? ==> ReadableEpoch(Active(fs).value)
  {
    if Current in fs.pointers {
      ActiveWhole(fs, Current);
    }
  }

  lemma SameActive(fs: FS, fs': FS)
    requires Sound(fs) && Grows(fs, fs') && OldName(fs') == OldName(fs)
    ensures Active(fs') == Active(fs)
  {
    hide ReleaseOf;
    ActiveInstalled(fs);
    if Current in fs.pointers {
      assert Pointed(fs', Current) == Pointed(fs, Current);
    } else {
      assert OldName(fs').None?;
    }
  }

  /** An install in any state of completion has either not changed the active release or made it the new one. */
  lemma InstallActive(fs: FS, op: Operation, cut: nat)
    requires Sound(fs) && op.Install? && InstallPlan(fs, op).result.Ok?
    ensures Active(Cut(fs, op, cut)) == if cut <= Undecided(fs, op) then Active(fs) else Some(op.release)
  {
    hide Cut, Sound, Grows, Built, Prepare, InstallPlan, ReleaseOf;
    InstallAdmits(fs, op);
    if cut <= Undecided(fs, op) {
      BeforeCommit(fs, op, cut);
      CutGrows(fs, op, cut);
      SameActive(fs, Cut(fs, op, cut));
    } else {
      AfterCommit(fs, op, cut);
      BuiltRelease(op.release);
    }
  }

  /** What an admitted install may replace. */
  lemma InstallReplaces(fs: FS, op: Operation)
    requires Sound(fs) && op.Install? && InstallPlan(fs, op).result.Ok? && Active(fs).Some?
    ensures AtMost(Active(fs).value.key, op.release.key) || Active(fs).value.version != op.release.version
    ensures !Before(op.release.key, Active(fs).value.key)
    ensures Active(fs).value.epoch <= op.release.epoch
    ensures Active(fs).value.version == op.release.version ==> Active(fs) == Some(op.release)
  {
    hide Sound, StageRefusal, Prepare, Before;
    ActiveInstalled(fs);
    InstallAdmits(fs, op);
  }

  lemma NothingActive(fs: FS, effects: seq<Effect>)
    requires effects in {[], [MakeReleases], [ClearTransaction]}
    ensures Active(ApplyAll(fs, effects)) == Active(fs) && ApplyAll(fs, effects).pointers == fs.pointers
  {
    AllAllowedOne(fs, MakeReleases);
    AllAllowedOne(fs, ClearTransaction);
  }

  lemma UptoFew(effects: seq<Effect>, cut: nat)
    requires effects in {[], [MakeReleases], [ClearTransaction]}
    ensures Upto(effects, cut) in {[], effects}
  {
    assert effects[..0] == [];
  }

  lemma ActivateUpto(fs: FS, p: Pointer, name: string, cut: nat)
    ensures var d := ApplyAll(fs, Upto(Activate(p, name), cut));
            && d.releases == fs.releases && d.transaction == fs.transaction && d.install == fs.install
            && d.pointers == if cut <= 2 then fs.pointers else fs.pointers[p := name]
  {
    var a, b := ClearPending(p), SetPending(p, name);
    ApplyActivate(fs, p, name);
    if cut <= 2 {
      NoEffects(fs);
      AllAllowedOne(fs, a);
      AllAllowedOne(Step(fs, a), b);
      ApplyAppend(fs, [a], [b]);
      assert [a] + [b] == Activate(p, name)[..2];
      assert [a] == Activate(p, name)[..1] && [] == Activate(p, name)[..0];
    }
  }

  /**
   * Between uninstalls an operation cut anywhere keeps a release active, and
   * never one of an older storage epoch; only rollback lowers the version.
   */
  lemma NeverLowers(fs: FS, op: Operation, cut: nat)
    requires Sound(fs) && !op.Uninstall? && Active(fs).Some?
    ensures var after := Active(Cut(fs, op, cut));
            && after.Some?
            && Active(fs).value.epoch <= after.value.epoch
            && (!op.Rollback? ==> !Before(after.value.key, Active(fs).value.key))
  {
    hide Sound, ApplyAll, ReleaseOf, Verified, Prepare, Finish, InstallRefusal, StageRefusal, Before;
    ActiveInstalled(fs);
    Irreflexive(Active(fs).value.key);
    NoEffects(fs);
    if PlanOf(fs, op).effects in {[], [MakeReleases], [ClearTransaction]} {
      UptoFew(PlanOf(fs, op).effects, cut);
      NothingActive(fs, Upto(PlanOf(fs, op).effects, cut));
    } else if op.Install? {
      InstallActive(fs, op, cut);
      InstallReplaces(fs, op);
    } else {
      ActivateUpto(fs, Current, fs.pointers[Previous], cut);
      ActiveWhole(fs, Previous);
    }
  }

  lemma Irreflexive(v: Version)
    ensures !Before(v, v)
  {
  }

  /** Over every run without uninstall the active storage epoch never decreases. */
  lemma {:induction false} EpochNeverDecreases(fs: FS, turns: seq<Turn>)
    requires Sound(fs) && Active(fs).Some? && forall t | t in turns :: !t.op.Uninstall?
    ensures Active(Run(fs, turns)).Some? && Active(fs).value.epoch <= Active(Run(fs, turns)).value.epoch
  {
    hide Sound, Cut, Active;
    if turns != [] {
      var init := turns[..|turns| - 1];
      assert forall t | t in init :: t in turns;
      assert turns[|turns| - 1] in turns;
      EpochNeverDecreases(fs, init);
      PointerIntegrity(fs, init);
      NeverLowers(Run(fs, init), turns[|turns| - 1].op, turns[|turns| - 1].cut);
    }
  }

  /** Over every run without uninstall and rollback the active version never decreases. */
  lemma {:induction false} VersionNeverDecreases(fs: FS, turns: seq<Turn>)
    requires Sound(fs) && Active(fs).Some? && forall t | t in turns :: !t.op.Uninstall? && !t.op.Rollback?
    ensures Active(Run(fs, turns)).Some? && !Before(Active(Run(fs, turns)).value.key, Active(fs).value.key)
  {
    hide Sound, Cut, Active, Before;
    if turns == [] {
      Irreflexive(Active(fs).value.key);
    } else {
      var init := turns[..|turns| - 1];
      assert forall t | t in init :: t in turns;
      assert turns[|turns| - 1] in turns;
      VersionNeverDecreases(fs, init);
      PointerIntegrity(fs, init);
      NeverLowers(Run(fs, init), turns[|turns| - 1].op, turns[|turns| - 1].cut);
      NotBeforeTransitive(Active(fs).value.key, Active(Run(fs, init)).value.key, Active(Run(fs, turns)).value.key);
    }
  }

  lemma NotBeforeTransitive(v: Version, w: Version, x: Version)
    requires !Before(w, v) && !Before(x, w)
    ensures !Before(x, v)
  {
  }

  // -------------------------------------------------------------------------
  // Rollback
  // -------------------------------------------------------------------------

  /** What rollback needs. */
  predicate CanRollBack(fs: FS, runs: bool) {
    && NameAt(fs, Previous).Some? && Pointed(fs, Previous).Some? && ReleaseOf(Pointed(fs, Previous).value).Some?
    && Active(fs).Some?
    && ReleaseOf(Pointed(fs, Previous).value).value.epoch == Active(fs).value.epoch
    && Verified(Pointed(fs, Previous).value)
    && runs
  }

  lemma RollbackExactly(fs: FS, runs: bool)
    requires Sound(fs)
    ensures RollbackPlan(fs, runs).result.Ok? <==> CanRollBack(fs, runs)
    ensures CanRollBack(fs, runs) ==>
              RollbackPlan(fs, runs)
              == Plan(Activate(Current, fs.pointers[Previous]),
                      Ok(ReleaseOf(Pointed(fs, Previous).value).value.version))
  {
    hide Sound, Verified, ReleaseOf, Active;
    ActiveInstalled(fs);
  }

  lemma RollbackDone(fs: FS, runs: bool)
    requires Sound(fs) && CanRollBack(fs, runs)
    ensures ApplyAll(fs, RollbackPlan(fs, runs).effects)
            == fs.(pointers := fs.pointers[Current := fs.pointers[Previous]], pending := fs.pending - {Current})
  {
    hide Sound, RollbackPlan, Verified, ReleaseOf, ApplyAll, Active;
    RollbackExactly(fs, runs);
    ApplyActivate(fs, Current, fs.pointers[Previous]);
  }

  lemma RollbackStays(fs: FS, runs: bool)
    requires Sound(fs) && CanRollBack(fs, runs)
    ensures var once := ApplyAll(fs, RollbackPlan(fs, runs).effects);
            && Sound(once) && CanRollBack(once, runs)
            && NameAt(once, Current) == NameAt(once, Previous) == NameAt(fs, Previous)
            && Pointed(once, Previous) == Pointed(fs, Previous)
  {
    hide Sound, RollbackPlan, Verified, ReleaseOf, ApplyAll;
    RollbackDone(fs, runs);
    PlanAllowed(fs, Rollback(runs));
    AllAllowedKeeps(fs, RollbackPlan(fs, runs).effects, |RollbackPlan(fs, runs).effects|);
  }

  /** Rolling back twice is rolling back once. */
  lemma RollbackIdempotent(fs: FS, runs: bool)
    requires Sound(fs) && RollbackPlan(fs, runs).result.Ok?
    ensures var once := ApplyAll(fs, RollbackPlan(fs, runs).effects);
            && RollbackPlan(once, runs).result == RollbackPlan(fs, runs).result
            && ApplyAll(once, RollbackPlan(once, runs).effects) == once
  {
    hide Sound, RollbackPlan, Verified, ReleaseOf, ApplyAll, CanRollBack;
    RollbackExactly(fs, runs);
    RollbackDone(fs, runs);
    RollbackStays(fs, runs);
    var once := ApplyAll(fs, RollbackPlan(fs, runs).effects);
    RollbackExactly(once, runs);
    RollbackDone(once, runs);
    assert once.pointers[Current := once.pointers[Previous]] == once.pointers;
    assert once.pending - {Current} == once.pending;
  }

  // -------------------------------------------------------------------------
  // What an interrupted install leaves for rollback
  // -------------------------------------------------------------------------

  /** The effects of an install up to the replacement of the previous pointer. */
  function Unkept(fs: FS, op: Operation): nat
    requires op.Install?
  {
    |Place(fs, op.release)| + 3
  }

  lemma BeforeKeep(fs: FS, op: Operation, e: Effect)
    requires op.Install? && Current in fs.pointers
    requires e in Place(fs, op.release) + [SetTransaction(Transaction(OldName(fs), op.release.version)),
                                           ClearPending(Previous), SetPending(Previous, fs.pointers[Current])]
    ensures Leaves(e, Previous)
  {
    hide Built;
  }

  lemma AfterKeep(fs: FS, op: Operation, e: Effect)
    requires op.Install?
    requires e in [SetInstall(Meta(op.origin, op.binDir))]
                  + Activate(Current, op.release.version) + Finish(fs, op.binDir)
    ensures Leaves(e, Previous)
  {
  }

  lemma PlanAroundKeep(fs: FS, op: Operation)
    requires op.Install? && InstallPlan(fs, op).result.Ok?
    ensures PlanOf(fs, op).effects
            == Place(fs, op.release) + [SetTransaction(Transaction(OldName(fs), op.release.version))]
               + Keep(fs, op.release)
               + ([SetInstall(Meta(op.origin, op.binDir))] + Activate(Current, op.release.version)
                  + Finish(fs, op.binDir))
  {
    hide Place, Keep, Finish, Activate;
    InstallAdmits(fs, op);
    assert Prepare(fs, op)
           == Place(fs, op.release) + [SetTransaction(Transaction(OldName(fs), op.release.version))]
              + Keep(fs, op.release) + [SetInstall(Meta(op.origin, op.binDir))];
  }

  /** Where the previous pointer stands after a cut. */
  lemma PreviousAfterCut(fs: FS, op: Operation, cut: nat)
    requires Sound(fs) && op.Install? && InstallPlan(fs, op).result.Ok?
    ensures NameAt(Cut(fs, op, cut), Previous)
            == if Keep(fs, op.release) == [] || cut <= Unkept(fs, op) then NameAt(fs, Previous) else NameAt(fs, Current)
  {
    hide Sound, InstallPlan, Finish, ApplyAll, Leaves, Built;
    PlanAroundKeep(fs, op);
    var start := Place(fs, op.release) + [SetTransaction(Transaction(OldName(fs), op.release.version))];
    var rest := [SetInstall(Meta(op.origin, op.binDir))] + Activate(Current, op.release.version)
               + Finish(fs, op.binDir);
    var all := PlanOf(fs, op).effects;
    if Keep(fs, op.release) == [] {
      UnkeptCut(fs, op, start, rest, cut);
    } else {
      KeptCut(fs, op, start, rest, cut);
    }
  }

  lemma UnkeptCut(fs: FS, op: Operation, start: seq<Effect>, rest: seq<Effect>, cut: nat)
    requires op.Install? && PlanOf(fs, op).effects == start + Keep(fs, op.release) + rest && Keep(fs, op.release) == []
    requires start == Place(fs, op.release) + [SetTransaction(Transaction(OldName(fs), op.release.version))]
    requires rest == [SetInstall(Meta(op.origin, op.binDir))] + Activate(Current, op.release.version)
                     + Finish(fs, op.binDir)
    ensures NameAt(Cut(fs, op, cut), Previous) == NameAt(fs, Previous)
  {
    hide PlanOf, Finish, ApplyAll, Built, Keep;
    var all := PlanOf(fs, op).effects;
    forall e | e in Upto(all, cut) ensures Leaves(e, Previous) {
      assert e in start || e in rest;
      if e in rest { AfterKeep(fs, op, e); }
    }
    PointerLeft(fs, Upto(all, cut), Previous);
  }

  lemma KeptCut(fs: FS, op: Operation, start: seq<Effect>, rest: seq<Effect>, cut: nat)
    requires op.Install? && PlanOf(fs, op).effects == start + Keep(fs, op.release) + rest && Keep(fs, op.release) != []
    requires start == Place(fs, op.release) + [SetTransaction(Transaction(OldName(fs), op.release.version))]
    requires rest == [SetInstall(Meta(op.origin, op.binDir))] + Activate(Current, op.release.version)
                     + Finish(fs, op.binDir)
    ensures NameAt(Cut(fs, op, cut), Previous)
            == if cut <= Unkept(fs, op) then NameAt(fs, Previous) else NameAt(fs, Current)
  {
    hide PlanOf, Finish, ApplyAll, Built, Place, Leaves;
    var all, old' := PlanOf(fs, op).effects, fs.pointers[Current];
    var early := Place(fs, op.release) + [SetTransaction(Transaction(OldName(fs), op.release.version)),
                                          ClearPending(Previous), SetPending(Previous, old')];
    if cut <= Unkept(fs, op) {
      assert Upto(all, cut) == Upto(early, cut);
      forall e | e in Upto(all, cut) ensures Leaves(e, Previous) {
        assert e in early;
        BeforeKeep(fs, op, e);
      }
      PointerLeft(fs, Upto(all, cut), Previous);
    } else {
      var kept := start + Activate(Previous, old');
      var more := Upto(rest, cut - |kept|);
      UptoAppend(kept, rest, cut);
      assert Upto(all, cut) == kept + more;
      ApplyAppend(fs, kept, more);
      ApplyAppend(fs, start, Activate(Previous, old'));
      ApplyActivate(ApplyAll(fs, start), Previous, old');
      forall e | e in more ensures Leaves(e, Previous) {
        assert e in rest;
        AfterKeep(fs, op, e);
      }
      PointerLeft(ApplyAll(fs, kept), more, Previous);
    }
  }

  /**
   * An upgrade cut after the previous pointer was replaced and before the commit
   * point has lost the release that rollback used to return to: both pointers
   * name the active release, and a rollback changes neither.
   */
  lemma RollbackTargetLost(fs: FS, op: Operation, cut: nat, runs: bool)
    requires Sound(fs) && op.Install? && InstallPlan(fs, op).result.Ok?
    requires Keep(fs, op.release) != [] && Unkept(fs, op) < cut <= Undecided(fs, op)
    requires RollbackPlan(Cut(fs, op, cut), runs).result.Ok?
    ensures var mid := Cut(fs, op, cut);
            ApplyAll(mid, RollbackPlan(mid, runs).effects).pointers == mid.pointers
  {
    hide Sound, InstallPlan, RollbackPlan, Cut, Prepare, CanRollBack, Place, ApplyAll;
    var mid := Cut(fs, op, cut);
    PreviousAfterCut(fs, op, cut);
    BeforeCommit(fs, op, cut);
    CutSound(fs, op, cut);
    RollbackExactly(mid, runs);
    RollbackDone(mid, runs);
    assert Current in fs.pointers;
    assert mid.pointers[Current := mid.pointers[Previous]] == mid.pointers;
  }

  /** The two pointers come to name one release exactly by a cut between their replacements. */
  lemma TargetLostExactly(fs: FS, op: Operation, cut: nat)
    requires Sound(fs) && op.Install? && InstallPlan(fs, op).result.Ok?
    requires Keep(fs, op.release) != [] && NameAt(fs, Previous) != NameAt(fs, Current)
    ensures var mid := Cut(fs, op, cut);
            NameAt(mid, Previous) == NameAt(mid, Current) <==> Unkept(fs, op) < cut <= Undecided(fs, op)
  {
    hide Sound, InstallPlan, Cut, Place;
    PreviousAfterCut(fs, op, cut);
    if cut <= Undecided(fs, op) {
      BeforeCommit(fs, op, cut);
    } else {
      AfterCommit(fs, op, cut);
    }
  }

  /** The release the previous pointer names. */
  function Fallback(fs: FS): Option<Release> {
    if Pointed(fs, Previous).Some? then ReleaseOf(Pointed(fs, Previous).value) else None
  }

  /** The previous release, if there is one, is not newer than the active one. */
  ghost predicate Ordered(fs: FS) {
    Fallback(fs).Some? ==> Active(fs).Some? && !Before(Active(fs).value.key, Fallback(fs).value.key)
  }

  lemma SameFallback(fs: FS, fs': FS)
    requires Sound(fs) && Grows(fs, fs') && NameAt(fs', Previous) == NameAt(fs, Previous)
    ensures Fallback(fs') == Fallback(fs)
  {
    hide ReleaseOf;
    if Previous in fs.pointers {
      assert Pointed(fs', Previous) == Pointed(fs, Previous);
    } else {
      assert NameAt(fs', Previous).None?;
    }
  }

  lemma FallbackIsActive(fs: FS, fs': FS)
    requires Sound(fs) && Grows(fs, fs') && NameAt(fs', Previous) == NameAt(fs, Current)
    ensures Fallback(fs') == Active(fs)
  {
    hide ReleaseOf;
    if Current in fs.pointers {
      assert Pointed(fs', Previous) == Pointed(fs, Current);
    } else {
      assert NameAt(fs', Previous).None?;
    }
  }

  lemma InstallOrdered(fs: FS, op: Operation, cut: nat)
    requires Sound(fs) && Ordered(fs) && op.Install? && InstallPlan(fs, op).result.Ok?
    ensures Ordered(Cut(fs, op, cut))
  {
    hide Sound, InstallPlan, Cut, Prepare, Place, Keep, Grows, Active, Fallback, Before;
    var mid := Cut(fs, op, cut);
    CutGrows(fs, op, cut);
    InstallActive(fs, op, cut);
    PreviousAfterCut(fs, op, cut);
    if Active(fs).Some? {
      InstallReplaces(fs, op);
      Irreflexive(Active(fs).value.key);
    }
    if NameAt(mid, Previous) == NameAt(fs, Previous) {
      SameFallback(fs, mid);
      if Fallback(fs).Some? {
        NotBeforeTransitive(Fallback(fs).value.key, Active(fs).value.key, Active(mid).value.key);
      }
    } else {
      FallbackIsActive(fs, mid);
    }
  }

  lemma RollbackOrdered(fs: FS, runs: bool, cut: nat)
    requires Sound(fs) && Ordered(fs) && CanRollBack(fs, runs)
    ensures Ordered(Cut(fs, Rollback(runs), cut))
  {
    hide Sound, RollbackPlan, Verified, ReleaseOf, Before, ApplyAll, CanRollBack;
    RollbackExactly(fs, runs);
    PreviousNamed(fs, runs);
    ActivateUpto(fs, Current, fs.pointers[Previous], cut);
    if Fallback(fs).Some? {
      Irreflexive(Fallback(fs).value.key);
    }
  }

  lemma PreviousNamed(fs: FS, runs: bool)
    requires CanRollBack(fs, runs)
    ensures Previous in fs.pointers
  {
  }

  lemma OrderedKept(fs: FS, op: Operation, cut: nat)
    requires Sound(fs) && Ordered(fs) && !op.Uninstall?
    ensures Ordered(Cut(fs, op, cut))
  {
    hide Sound, ApplyAll, ReleaseOf, Verified, Prepare, Finish, InstallRefusal, StageRefusal, Before, CanRollBack;
    NoEffects(fs);
    if PlanOf(fs, op).effects in {[], [MakeReleases], [ClearTransaction]} {
      UptoFew(PlanOf(fs, op).effects, cut);
      FewLeave(fs, Upto(PlanOf(fs, op).effects, cut));
    } else if op.Install? {
      InstallOrdered(fs, op, cut);
    } else {
      RollbackExactly(fs, op.runs);
      RollbackOrdered(fs, op.runs, cut);
    }
  }

  lemma FewLeave(fs: FS, effects: seq<Effect>)
    requires effects in {[], [MakeReleases], [ClearTransaction]}
    ensures Active(ApplyAll(fs, effects)) == Active(fs) && Fallback(ApplyAll(fs, effects)) == Fallback(fs)
  {
    AllAllowedOne(fs, MakeReleases);
    AllAllowedOne(fs, ClearTransaction);
  }

  /** Until an uninstall, over every run from an empty directory, rollback never raises the version. */
  lemma {:induction false} RollbackNeverRaises(turns: seq<Turn>)
    requires forall t | t in turns :: !t.op.Uninstall?
    ensures Ordered(Run(EMPTY, turns))
  {
    hide Sound, Cut;
    if turns != [] {
      var init := turns[..|turns| - 1];
      assert forall t | t in init :: t in turns;
      assert turns[|turns| - 1] in turns;
      RollbackNeverRaises(init);
      EmptySound();
      PointerIntegrity(EMPTY, init);
      OrderedKept(Run(EMPTY, init), turns[|turns| - 1].op, turns[|turns| - 1].cut);
    }
  }

  /** What a complete upgrade leaves: the new version active, the old one to return to, and nothing in progress. */
  lemma UpgradeRemembers(fs: FS, op: Operation)
    requires Sound(fs) && op.Install? && InstallPlan(fs, op).result.Ok?
    requires Active(fs).Some? && Active(fs).value.version != op.release.version
    ensures var done := ApplyAll(fs, InstallPlan(fs, op).effects);
            && Sound(done)
            && NameAt(done, Previous) == NameAt(fs, Current)
            && NameAt(done, Current) == Some(op.release.version)
            && done.transaction.None? && done.install == Some(Meta(op.origin, op.binDir))
            && Active(done) == Some(op.release) && Fallback(done) == Active(fs)
            && Pointed(done, Previous) == Pointed(fs, Current)
  {
    hide InstallPlan, Prepare, ApplyAll, AllAllowed, Whole, Remnant, Verified, ReleaseOf, Built, Finish;
    ActiveInstalled(fs);
    ActiveWhole(fs, Current);
    InstallAdmits(fs, op);
    PrepareAllowed(fs, op);
    InstallAllowed(fs, op);
    AllAllowedKeeps(fs, InstallPlan(fs, op).effects, |InstallPlan(fs, op).effects|);
    BuiltRelease(op.release);
  }

  /** Upgrading and rolling back returns to the formerly active release, if it verifies and shares the storage epoch. */
  lemma UpgradeThenRollback(fs: FS, op: Operation)
    requires Sound(fs) && op.Install? && InstallPlan(fs, op).result.Ok?
    requires Active(fs).Some? && Active(fs).value.version != op.release.version
    ensures var done := ApplyAll(fs, InstallPlan(fs, op).effects);
            && (RollbackPlan(done, true).result.Ok?
                <==> Active(fs).value.epoch == op.release.epoch && Verified(Pointed(fs, Current).value))
            && (RollbackPlan(done, true).result.Ok? ==>
                  Active(ApplyAll(done, RollbackPlan(done, true).effects)) == Active(fs))
  {
    hide InstallPlan, RollbackPlan, ApplyAll, Sound, Verified, ReleaseOf;
    UpgradeRemembers(fs, op);
    var done := ApplyAll(fs, InstallPlan(fs, op).effects);
    RollbackExactly(done, true);
    if CanRollBack(done, true) {
      RollbackDone(done, true);
    }
  }

  // -------------------------------------------------------------------------
  // Uninstall
  // -------------------------------------------------------------------------

  predicate KeepsStorage(e: Effect) {
    !e.RemoveReleases? && !e.ClearInstall? && !e.SetInstall? && !e.MakeReleases?
  }

  lemma StepKeepsStorage(fs: FS, e: Effect)
    requires KeepsStorage(e)
    ensures Step(fs, e).hasReleases == fs.hasReleases && Step(fs, e).install == fs.install
  {
  }

  lemma {:induction false} StorageKept(fs: FS, effects: seq<Effect>)
    requires forall e | e in effects :: KeepsStorage(e)
    ensures var d := ApplyAll(fs, effects); d.hasReleases == fs.hasReleases && d.install == fs.install
    decreases |effects|
  {
    hide Step, KeepsStorage;
    if effects != [] {
      var init := effects[..|effects| - 1];
      assert forall e | e in init :: e in effects;
      StorageKept(fs, init);
      assert effects[|effects| - 1] in effects;
      StepKeepsStorage(ApplyAll(fs, init), effects[|effects| - 1]);
    }
  }

  lemma RemovalKeeps(fs: FS, order: seq<(string, Deletion)>, e: Effect)
    requires e in Detach(fs) + Deletions(order)
    ensures KeepsStorage(e)
  {
  }

  lemma UninstallCut(fs: FS, order: seq<(string, Deletion)>, cut: nat)
    requires UninstallPlan(fs, order).result.Ok?
    ensures var removal, mid := |Detach(fs)| + |order|, Cut(fs, Uninstall(order), cut);
            mid.hasReleases == (cut <= removal) && (mid.install.Some? <==> cut <= removal + 1)
  {
    hide ApplyAll, Detach, Deletions;
    var some := Detach(fs) + Deletions(order);
    var rest := [RemoveReleases] + [ClearInstall] + [ClearTransaction];
    var all := UninstallPlan(fs, order).effects;
    assert all == some + rest;
    UptoAppend(some, rest, cut);
    forall e | e in Upto(some, cut) ensures KeepsStorage(e) { assert e in some; RemovalKeeps(fs, order, e); }
    forall e | e in some ensures KeepsStorage(e) { RemovalKeeps(fs, order, e); }
    StorageKept(fs, Upto(some, cut));
    if cut > |some| {
      StorageKept(fs, some);
      ApplyAppend(fs, some, Upto(rest, cut - |some|));
      RestCut(ApplyAll(fs, some), cut - |some|);
    }
  }

  lemma RestCut(fs: FS, n: nat)
    requires n > 0 && fs.install.Some?
    ensures var d := ApplyAll(fs, Upto([RemoveReleases] + [ClearInstall] + [ClearTransaction], n));
            !d.hasReleases && (d.install.Some? <==> n == 1)
  {
    var rest := [RemoveReleases] + [ClearInstall] + [ClearTransaction];
    ApplyThree(fs, RemoveReleases, ClearInstall, ClearTransaction);
    assert rest == [RemoveReleases, ClearInstall, ClearTransaction];
    assert rest[..1] == [RemoveReleases] && rest[..2] == [RemoveReleases] + [ClearInstall];
    AllAllowedOne(fs, RemoveReleases);
    ApplyAppend(fs, [RemoveReleases], [ClearInstall]);
    AllAllowedOne(Step(fs, RemoveReleases), ClearInstall);
  }

  /**
   * An interrupted uninstall can be run again to its end exactly until the tree is
   * gone. One effect later it fails for want of the tree, and leaves install.json.
   */
  lemma UninstallResumesExactly(fs: FS, order: seq<(string, Deletion)>, cut: nat, again: seq<(string, Deletion)>)
    requires UninstallPlan(fs, order).result.Ok?
    ensures var removal, result := |Detach(fs)| + |order|, UninstallPlan(Cut(fs, Uninstall(order), cut), again).result;
            result == if cut <= removal then Ok("")
                      else if cut == removal + 1 then Err(NoStorage) else Err(NotInstalled)
  {
    hide Cut, Detach, Deletions;
    UninstallCut(fs, order, cut);
  }

  /** An uninstall leaves no pointer, no release, no record, and only launchers of others or of other directories. */
  lemma UninstallLeavesNothing(fs: FS, order: seq<(string, Deletion)>)
    requires UninstallPlan(fs, order).result.Ok?
    ensures var binDir := fs.install.value.binDir;
            ApplyAll(fs, UninstallPlan(fs, order).effects)
            == EMPTY.(pending := fs.pending,
                      launchers := if binDir in fs.launchers && fs.launchers[binDir] == Ours
                                   then fs.launchers - {binDir} else fs.launchers)
  {
    hide ApplyAll, AllAllowed;
    UninstallAllowed(fs, order);
    ApplyAppend(fs, DropOurs(fs), [ClearPointer(Current)]);
    ApplyAppend(fs, DropOurs(fs) + [ClearPointer(Current)], [ClearPointer(Previous)]);
    NoEffects(fs);
    if DropOurs(fs) != [] {
      AllAllowedOne(fs, DropOurs(fs)[0]);
    }
    var dropped := ApplyAll(fs, DropOurs(fs));
    AllAllowedOne(dropped, ClearPointer(Current));
    AllAllowedOne(Step(dropped, ClearPointer(Current)), ClearPointer(Previous));
  }

  /** Installing into a clean directory and uninstalling again leaves it clean, its launchers as they were. */
  lemma InstallThenUninstall(fs: FS, op: Operation, order: seq<(string, Deletion)>)
    requires op.Install? && InstallPlan(fs, op).result.Ok? && op.binDir !in fs.launchers
    requires fs == EMPTY.(launchers := fs.launchers)
    ensures var installed := ApplyAll(fs, InstallPlan(fs, op).effects);
            && UninstallPlan(installed, order).result.Ok?
            && ApplyAll(installed, UninstallPlan(installed, order).effects) == fs
  {
    hide InstallPlan, Prepare, ApplyAll, AllAllowed, Detach, Deletions, Whole;
    InstallAllowed(fs, op);
    PrepareAllowed(fs, op);
    var installed := ApplyAll(fs, InstallPlan(fs, op).effects);
    UninstallLeavesNothing(installed, order);
    assert fs.launchers[op.binDir := Ours] - {op.binDir} == fs.launchers;
    assert installed.pending == map[];
  }
}

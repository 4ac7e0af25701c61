/**
 * What a patch and a retained handoff must be, field by field, and a handoff that
 * is retained as integrated (src/mos_eisley/coding_child.py, lines 225 to 484).
 */
module HandoffLaws {
  import opened Prelude
  import opened CodingHandoff

  // -------------------------------------------------------------------------
  // The order of paths
  // -------------------------------------------------------------------------

  /** Paths a and b agree before place k, and there a ends or has the smaller character. */
  ghost predicate SmallerFrom(a: string, b: string, k: nat) {
    k <= |a| && k < |b| && a[..k] == b[..k] && (k == |a| || a[k] < b[k])
  }

  lemma FromNext(a: string, b: string, k: nat)
    ensures k > 0 && SmallerFrom(a, b, k) ==>
              a != "" && b != "" && a[0] == b[0] && SmallerFrom(a[1..], b[1..], k - 1)
  {
    if k > 0 && SmallerFrom(a, b, k) {
      assert a[..k][0] == b[..k][0];
      assert a[1..][..k - 1] == a[..k][1..] && b[1..][..k - 1] == b[..k][1..];
    }
  }

  lemma NextFrom(a: string, b: string, k: nat)
    requires a != "" && b != "" && a[0] == b[0] && SmallerFrom(a[1..], b[1..], k)
    ensures SmallerFrom(a, b, k + 1)
  {
    assert a[..k + 1] == [a[0]] + a[1..][..k] && b[..k + 1] == [b[0]] + b[1..][..k];
  }

  /** One path precedes another if it is smaller at the first difference, or its beginning. */
  lemma {:induction false} PathOrder(a: string, b: string)
    ensures Less(a, b) <==> exists k: nat :: SmallerFrom(a, b, k)
    decreases |a|
  {
    forall k: nat {
      FromNext(a, b, k);
    }
    if a == "" || b == "" || a[0] != b[0] {
      assert Less(a, b) <==> SmallerFrom(a, b, 0);
    } else {
      PathOrder(a[1..], b[1..]);
      if k: nat :| SmallerFrom(a[1..], b[1..], k) {
        NextFrom(a, b, k);
      }
    }
  }

  // -------------------------------------------------------------------------
  // A change
  // -------------------------------------------------------------------------

  /** A file of the brief, or one of the creator's tests. */
  predicate Given(b: Brief, f: File) {
    f in b.snapshot || (b.creatorTests.Some? && f in b.creatorTests.value)
  }

  lemma {:induction false} TreeMembers(files: seq<File>, path: string)
    requires Ascending(files)
    ensures path in TreeOf(files) <==> exists f :: f in files && f.path == path
    ensures forall f | f in files && f.path == path :: path in TreeOf(files) && TreeOf(files)[path] == f.content
  {
    hide Less;
    TreeLists(files);
    if path in TreeOf(files) {
      assert File(path, TreeOf(files)[path]) in files;
    }
  }

  lemma CombinedMembers(rules: Rules, b: Brief, verification: seq<File>, path: string)
    requires FrozenScope(rules, b, verification)
    ensures path in Combined(b) <==> exists content :: Given(b, File(path, content))
    ensures forall content :: Given(b, File(path, content)) <==> path in Combined(b) && Combined(b)[path] == content
  {
    hide Less, Lists, Filter;
    TreeMembers(b.snapshot, path);
    TreeMembers(Added(b), path);
    forall content | path in Combined(b) && Combined(b)[path] == content ensures Given(b, File(path, content)) {
      if path in TreeOf(Added(b)) {
        var f :| f in Added(b) && f.path == path;
        assert f == File(path, content);
      } else {
        var f :| f in b.snapshot && f.path == path;
        assert f == File(path, content);
      }
    }
    forall content | Given(b, File(path, content)) ensures path in Combined(b) && Combined(b)[path] == content {
      if File(path, content) in b.snapshot {
        assert path in TreeOf(b.snapshot);
        assert forall f | f in Added(b) :: f.path != path;
      }
    }
  }

  /**
   * A change is admitted exactly on an owned path, with a pure text, from the file
   * the brief has there or from none, and if it changes that file.
   */
  lemma ChangeExactly(rules: Rules, b: Brief, verification: seq<File>, c: Change)
    requires FrozenScope(rules, b, verification)
    ensures ChangeOk(rules, b, Combined(b), c) <==>
              && c.file.path in b.owned
              && rules.pure(c.file.content)
              && (if c.before.None? then forall content :: !Given(b, File(c.file.path, content))
                  else Given(b, File(c.file.path, c.before.value)))
              && !Given(b, c.file)
  {
    hide FrozenScope, Combined, Given;
    CombinedMembers(rules, b, verification, c.file.path);
    assert c.file == File(c.file.path, c.file.content);
    if c.file.path in Combined(b) {
      assert Given(b, File(c.file.path, Combined(b)[c.file.path]));
    }
  }

  // -------------------------------------------------------------------------
  // A retained handoff
  // -------------------------------------------------------------------------

  /** A review is accepted for its phase exactly when it is this receipt. */
  lemma ReviewExactly(r: Review, b: Brief, patch: Option<Patch>)
    ensures Requires(r, b, patch)
            <==> r == Review(b, b.planDigest, b.testsDigest, if patch.None? then PlanTests else Final, patch, true)
  {
  }

  /** What is retained in each state of integration. */
  lemma RetentionExactly(r: Retention, applied: Option<seq<File>>)
    ensures var tested := r.handoff.Some? && r.handoff.value.verification.passed && r.finalReview.Some?;
            var closed := r.integratedCommit.Some? && r.finalVerification.Some?;
            RetentionChecks(r, applied) <==>
              && r.planReview == Review(r.brief, r.brief.planDigest, r.brief.testsDigest, PlanTests, None, true)
              && (r.handoff.Some? ==>
                    && applied == Some(r.handoff.value.verification.snapshot)
                    && r.handoff.value.verification.testsDigest == r.brief.testsDigest)
              && (r.finalReview.Some? ==>
                    && r.handoff.Some?
                    && r.finalReview.value == Review(r.brief, r.brief.planDigest, r.brief.testsDigest, Final,
                                                     Some(r.handoff.value.patch), true))
              && (r.finalVerification.Some? ==>
                    && r.handoff.Some?
                    && r.finalVerification.value
                       == Verification(r.handoff.value.verification.snapshot, r.brief.testsDigest, true))
              && match r.integration
                 case Pending => !closed && r.appliedCommit.None?
                 case Integrating => tested && !closed
                 case Uncertain => tested && !closed
                 case Integrated => tested && closed && r.appliedCommit == r.integratedCommit
  {
    if r.handoff.Some? && r.finalVerification.Some? {
      assert r.finalVerification.value
             == Verification(r.finalVerification.value.snapshot, r.finalVerification.value.testsDigest,
                             r.finalVerification.value.passed);
    }
  }

  // -------------------------------------------------------------------------
  // A handoff that is retained as integrated
  // -------------------------------------------------------------------------

  const SOURCE := File("m.py", "old")
  const TEST := File("tests/test_m.py", "test")
  const CHANGED := File("m.py", "new")

  function SmallBrief(): Brief {
    Brief([SOURCE, TEST], "plan", "plan", [TEST], ["m.py"], ["tests/test_m.py"], None, true)
  }

  function SmallPatch(): Patch {
    Patch(SmallBrief(), [Change(CHANGED, Some("old"))], "summary")
  }

  lemma TwoFiles(a: File, b: File)
    requires a.path == "m.py" && b == TEST
    ensures Ascending([a, b]) && TreeOf([a, b]) == map["m.py" := a.content, "tests/test_m.py" := b.content]
    ensures Lists([a, b], TreeOf([a, b])) && Filter([a, b], ["tests/test_m.py"]) == [b]
  {
    assert a.path != b.path by { assert |a.path| == 4 && |b.path| == 15; }
    assert [a, b][..1] == [a] && [a][..0] == [];
    assert Less("m.py", "tests/test_m.py");
    assert TreeOf([]) == map[] && TreeOf([a]) == map[a.path := a.content];
    assert Filter([], ["tests/test_m.py"]) == [] && Filter([a], ["tests/test_m.py"]) == [];
    TreeLists([a, b]);
  }

  lemma SmallFrozen(rules: Rules)
    requires (forall files :: rules.fits(files)) && rules.pure("old")
    ensures FrozenScope(rules, SmallBrief(), [SOURCE, TEST])
  {
    hide Less, Lists, TreeOf, Filter, Ascending;
    TwoFiles(SOURCE, TEST);
    NoFiles();
    var b := SmallBrief();
    assert Combined(b) == TreeOf([SOURCE, TEST]);
    assert "m.py"[0] == 'm' && "tests/test_m.py"[..11] == "tests/test_";
    OneFile(TEST);
  }

  /** A brief may take its tests from their creator. */
  lemma CreatedFrozen(rules: Rules)
    requires (forall files :: rules.fits(files)) && rules.pure("old")
    ensures FrozenScope(rules, SmallBrief().(snapshot := [SOURCE], creatorTests := Some([TEST])), [SOURCE, TEST])
  {
    hide Less, Lists, TreeOf, Filter, Ascending;
    TwoFiles(SOURCE, TEST);
    NoFiles();
    OneFile(TEST);
    OneFile(SOURCE);
    OneTree(TEST);
    OneTree(SOURCE);
    var b := SmallBrief().(snapshot := [SOURCE], creatorTests := Some([TEST]));
    assert Combined(b) == TreeOf([SOURCE, TEST]);
    assert "m.py"[0] == 'm' && "tests/test_m.py"[..11] == "tests/test_";
    assert |SOURCE.path| == 4 && |TEST.path| == 15;
  }

  lemma OneTree(f: File)
    ensures TreeOf([f]) == map[f.path := f.content]
  {
    assert [f][..0] == [] && TreeOf([]) == map[];
  }

  lemma NoFiles()
    ensures TreeOf([]) == map[]
  {
  }

  lemma OneFile(f: File)
    ensures Ascending([f])
  {
  }

  /** A brief of one source and one test, its patch, its reviews and its verifications are retained as integrated. */
  lemma SmallIntegrated(rules: Rules, commit: string)
    requires (forall files :: rules.fits(files)) && rules.pure("old") && rules.pure("new")
    ensures var b, patch, files := SmallBrief(), SmallPatch(), [CHANGED, TEST];
            var review := Review(b, "plan", [TEST], PlanTests, None, true);
            var tested := Verification(files, [TEST], true);
            ValidRetention(rules,
                           Retention(b, review, Some(Handoff(patch, tested)),
                                     Some(review.(phase := Final, patch := Some(patch))), Integrated,
                                     Some(commit), Some(tested), Some(commit)),
                           [SOURCE, TEST], Some(files))
  {
    hide Less, Lists, TreeOf, Filter, Ascending, FrozenScope;
    SmallFrozen(rules);
    TwoFiles(SOURCE, TEST);
    TwoFiles(CHANGED, TEST);
    NoFiles();
    var b, patch := SmallBrief(), SmallPatch();
    assert Combined(b) == TreeOf([SOURCE, TEST]);
    assert patch.changes[..0] == [];
    assert Overlay(Combined(b), patch.changes) == TreeOf([CHANGED, TEST]);
  }
}

/**
 * Guarded patches and retained handoffs of the coding child
 * (src/mos_eisley/coding_child.py). A value stands for its own digest, so a digest
 * collision is not modelled; the size bound of a snapshot and the purity check of
 * a source text are parameters.
 */
module CodingHandoff {
  import opened Prelude

  datatype File = File(path: string, content: string)

  datatype Rules = Rules(fits: seq<File> -> bool, pure: string -> bool)

  datatype Brief = Brief(
    snapshot: seq<File>,
    plan: string,
    planDigest: string,
    testsDigest: seq<File>,
    owned: seq<string>,
    tests: seq<string>,
    creatorTests: Option<seq<File>>,
    unpaid: bool)

  datatype Change = Change(file: File, before: Option<string>)

  datatype Patch = Patch(brief: Brief, changes: seq<Change>, summary: string)

  datatype Phase = PlanTests | Final

  datatype Review = Review(
    brief: Brief, planDigest: string, testsDigest: seq<File>, phase: Phase, patch: Option<Patch>, accepts: bool)

  datatype Verification = Verification(snapshot: seq<File>, testsDigest: seq<File>, passed: bool)

  datatype Handoff = Handoff(patch: Patch, verification: Verification)

  datatype Integration = Pending | Integrating | Integrated | Uncertain

  datatype Retention = Retention(
    brief: Brief,
    planReview: Review,
    handoff: Option<Handoff>,
    finalReview: Option<Review>,
    integration: Integration,
    integratedCommit: Option<string>,
    finalVerification: Option<Verification>,
    appliedCommit: Option<string>)

  // -------------------------------------------------------------------------
  // Paths in order
  // -------------------------------------------------------------------------

  predicate Less(a: string, b: string) {
    b != "" && (a == "" || a[0] < b[0] || (a[0] == b[0] && Less(a[1..], b[1..])))
  }

  lemma {:induction false} LessOrder(a: string, b: string)
    ensures a == b || Less(a, b) || Less(b, a)
    ensures !(Less(a, b) && Less(b, a)) && !Less(a, a)
    decreases |a|
  {
    if a != "" && b != "" {
      LessOrder(a[1..], b[1..]);
      assert a == [a[0]] + a[1..] && b == [b[0]] + b[1..];
      LessOrder(a[1..], a[1..]);
    } else if a != "" {
      LessOrder(a[1..], a[1..]);
    }
  }

  lemma {:induction false} LessTransitive(a: string, b: string, c: string)
    requires Less(a, b) && Less(b, c)
    ensures Less(a, c)
    decreases |a|
  {
    if a != "" && a[0] == b[0] && b[0] == c[0] {
      LessTransitive(a[1..], b[1..], c[1..]);
    }
  }

  /** Sorted by path, each path once. */
  ghost predicate Ascending(files: seq<File>) {
    forall i, j | 0 <= i < j < |files| :: Less(files[i].path, files[j].path)
  }

  ghost predicate AscendingPaths(paths: seq<string>) {
    forall i, j | 0 <= i < j < |paths| :: Less(paths[i], paths[j])
  }

  type Tree = map<string, string>

  /** The files of the tree, sorted and each once. */
  ghost predicate Lists(files: seq<File>, tree: Tree) {
    && Ascending(files)
    && (forall f | f in files :: f.path in tree && tree[f.path] == f.content)
    && (forall p | p in tree :: File(p, tree[p]) in files)
  }

  lemma LastGreatest(files: seq<File>, f: File)
    requires Ascending(files) && files != [] && f in files
    ensures f == files[|files| - 1] || Less(f.path, files[|files| - 1].path)
  {
  }

  lemma NoneListed(files: seq<File>, tree: Tree)
    requires Lists(files, tree)
    ensures files == [] <==> tree == map[]
  {
    if files != [] {
      assert files[0] in files && files[0].path in tree;
    }
    if tree != map[] {
      var p :| p in tree;
      assert File(p, tree[p]) in files;
    }
  }

  lemma LastListed(files: seq<File>, tree: Tree)
    requires Lists(files, tree) && files != []
    ensures var last := files[|files| - 1]; last.path in tree && tree[last.path] == last.content
  {
    assert files[|files| - 1] in files;
  }

  lemma LastSame(a: seq<File>, b: seq<File>, tree: Tree)
    requires Lists(a, tree) && Lists(b, tree) && a != [] && b != []
    ensures a[|a| - 1] == b[|b| - 1]
  {
    hide Less;
    var x, y := a[|a| - 1], b[|b| - 1];
    assert x in a && y in b;
    assert x in b && y in a;
    LastGreatest(a, y);
    LastGreatest(b, x);
    LessOrder(x.path, y.path);
  }

  /** A tree has one listing. */
  lemma {:induction false} ListsUnique(a: seq<File>, b: seq<File>, tree: Tree)
    requires Lists(a, tree) && Lists(b, tree)
    ensures a == b
    decreases |a|
  {
    hide Lists;
    NoneListed(a, tree);
    NoneListed(b, tree);
    if a != [] {
      LastSame(a, b, tree);
      ListsInit(a, tree);
      ListsInit(b, tree);
      ListsUnique(a[..|a| - 1], b[..|b| - 1], tree - {a[|a| - 1].path});
      assert a == a[..|a| - 1] + [a[|a| - 1]] && b == b[..|b| - 1] + [b[|b| - 1]];
    }
  }

  lemma ListsInit(files: seq<File>, tree: Tree)
    requires Lists(files, tree) && files != []
    ensures Lists(files[..|files| - 1], tree - {files[|files| - 1].path})
  {
    var init, last := files[..|files| - 1], files[|files| - 1];
    forall f | f in init ensures f.path != last.path {
      var i :| 0 <= i < |init| && init[i] == f;
      assert Less(files[i].path, last.path);
      LessOrder(last.path, last.path);
    }
    forall p | p in tree - {last.path} ensures File(p, tree[p]) in init {
      assert File(p, tree[p]) in files;
    }
  }

  function TreeOf(files: seq<File>): Tree {
    if files == [] then map[] else TreeOf(files[..|files| - 1])[files[|files| - 1].path := files[|files| - 1].content]
  }

  lemma {:induction false} TreeLists(files: seq<File>)
    requires Ascending(files)
    ensures Lists(files, TreeOf(files))
    decreases |files|
  {
    if files != [] {
      var init, last := files[..|files| - 1], files[|files| - 1];
      TreeLists(init);
      LessOrder(last.path, last.path);
      assert files == init + [last];
      forall f | f in init ensures f.path != last.path {
        var i :| 0 <= i < |init| && init[i] == f;
        assert Less(files[i].path, last.path);
      }
    }
  }

  // -------------------------------------------------------------------------
  // Briefs (lines 193 to 285)
  // -------------------------------------------------------------------------

  const MAX_FILES := 32

  ghost predicate ValidSnapshot(rules: Rules, files: seq<File>) {
    1 <= |files| <= MAX_FILES && Ascending(files) && rules.fits(files)
  }

  function Added(b: Brief): seq<File> {
    if b.creatorTests.None? then [] else b.creatorTests.value
  }

  /** The files a patch is verified with: the snapshot and the creator's tests. */
  function Combined(b: Brief): Tree {
    TreeOf(b.snapshot) + TreeOf(Added(b))
  }

  function Restrict(tree: Tree, paths: seq<string>): Tree {
    map p | p in tree && p in paths :: tree[p]
  }

  function Filter(files: seq<File>, paths: seq<string>): seq<File> {
    if files == [] then []
    else
      var last := files[|files| - 1];
      Filter(files[..|files| - 1], paths) + if last.path in paths then [last] else []
  }

  /** frozen_scope: verification is the sorted verification snapshot of the brief. */
  ghost predicate FrozenScope(rules: Rules, b: Brief, verification: seq<File>) {
    && ValidSnapshot(rules, b.snapshot)
    && (b.creatorTests.Some? ==> ValidSnapshot(rules, Added(b)))
    && (forall f | f in Added(b) :: f.path !in TreeOf(b.snapshot) && f.path in b.tests)
    && AscendingPaths(b.owned) && AscendingPaths(b.tests) && b.owned != [] && b.tests != []
    && (forall p | p in b.owned :: p !in b.tests && !("tests/" <= p))
    && (forall p | p in b.tests :: "tests/test_" <= p && p in Combined(b))
    && (forall p | p in TreeOf(b.snapshot) :: p in b.owned || p in b.tests)
    && b.planDigest == b.plan && b.unpaid
    && Lists(verification, Combined(b)) && ValidSnapshot(rules, verification)
    && ValidSnapshot(rules, Filter(verification, b.tests))
    && b.testsDigest == Filter(verification, b.tests)
    && (forall f | f in b.snapshot && f.path in b.owned :: rules.pure(f.content))
  }

  // -------------------------------------------------------------------------
  // Applying a patch (lines 302 to 322)
  // -------------------------------------------------------------------------

  function Overlay(tree: Tree, changes: seq<Change>): Tree {
    if changes == [] then tree
    else
      var last := changes[|changes| - 1].file;
      Overlay(tree, changes[..|changes| - 1])[last.path := last.content]
  }

  function Before(tree: Tree, path: string): Option<string> {
    if path in tree then Some(tree[path]) else None
  }

  predicate ChangeOk(rules: Rules, b: Brief, tree: Tree, c: Change) {
    && c.file.path in b.owned
    && c.before == Before(tree, c.file.path)
    && c.before != Some(c.file.content)
    && rules.pure(c.file.content)
  }

  ghost predicate ChangesAscending(changes: seq<Change>) {
    forall i, j | 0 <= i < j < |changes| :: Less(changes[i].file.path, changes[j].file.path)
  }

  /** What a patch must be; every change is checked against the brief's own files. */
  ghost predicate Applicable(rules: Rules, patch: Patch, b: Brief) {
    && patch.brief == b
    && ChangesAscending(patch.changes)
    && forall i | 0 <= i < |patch.changes| :: ChangeOk(rules, b, Combined(b), patch.changes[i])
  }

  /** apply returns these files. */
  ghost predicate Applies(rules: Rules, patch: Patch, b: Brief, files: seq<File>) {
    Applicable(rules, patch, b) && Lists(files, Overlay(Combined(b), patch.changes)) && ValidSnapshot(rules, files)
  }

  lemma {:induction false} OverlayOff(tree: Tree, changes: seq<Change>, p: string)
    requires forall i | 0 <= i < |changes| :: changes[i].file.path != p
    ensures Before(Overlay(tree, changes), p) == Before(tree, p)
    decreases |changes|
  {
    if changes != [] {
      OverlayOff(tree, changes[..|changes| - 1], p);
    }
  }

  lemma {:induction false} OverlayAt(tree: Tree, changes: seq<Change>, i: nat)
    requires ChangesAscending(changes) && i < |changes|
    ensures Before(Overlay(tree, changes), changes[i].file.path) == Some(changes[i].file.content)
    decreases |changes|
  {
    if i < |changes| - 1 {
      OverlayAt(tree, changes[..|changes| - 1], i);
      LessOrder(changes[i].file.path, changes[|changes| - 1].file.path);
      LessOrder(changes[i].file.path, changes[i].file.path);
    }
  }

  /** The loop checks each change against what earlier changes left, which is the brief's own file. */
  lemma PreviousIsOriginal(tree: Tree, changes: seq<Change>, i: nat)
    requires ChangesAscending(changes) && i < |changes|
    ensures Before(Overlay(tree, changes[..i]), changes[i].file.path) == Before(tree, changes[i].file.path)
  {
    forall k | 0 <= k < i ensures changes[..i][k].file.path != changes[i].file.path {
      LessOrder(changes[k].file.path, changes[k].file.path);
    }
    OverlayOff(tree, changes[..i], changes[i].file.path);
  }

  method PathsAscend(changes: seq<Change>) returns (ok: bool)
    ensures ok <==> ChangesAscending(changes)
  {
    hide Less;
    for i := 1 to if |changes| == 0 then 1 else |changes|
      invariant forall j, k | 0 <= j < k < i && k < |changes| :: Less(changes[j].file.path, changes[k].file.path)
    {
      if !Less(changes[i - 1].file.path, changes[i].file.path) {
        return false;
      }
      forall j | 0 <= j < i ensures Less(changes[j].file.path, changes[i].file.path) {
        if j < i - 1 {
          LessTransitive(changes[j].file.path, changes[i - 1].file.path, changes[i].file.path);
        }
      }
    }
    ok := true;
  }

  /** CodingPatch.apply, before the snapshot is listed: the dictionary after every change. */
  method ApplyChanges(rules: Rules, patch: Patch, b: Brief) returns (tree: Option<Tree>)
    ensures tree.Some? <==> Applicable(rules, patch, b)
    ensures tree.Some? ==> tree.value == Overlay(Combined(b), patch.changes)
  {
    hide Combined, Less;
    var files := Combined(b);
    var ascending := PathsAscend(patch.changes);
    if patch.brief != b || !ascending {
      return None;
    }
    for i := 0 to |patch.changes|
      invariant files == Overlay(Combined(b), patch.changes[..i])
      invariant forall k | 0 <= k < i :: ChangeOk(rules, b, Combined(b), patch.changes[k])
    {
      var c := patch.changes[i];
      PreviousIsOriginal(Combined(b), patch.changes, i);
      var previous := Before(files, c.file.path);
      if c.file.path !in b.owned || c.before != previous
         || previous == Some(c.file.content) || !rules.pure(c.file.content) {
        return None;
      }
      assert patch.changes[..i + 1][..i] == patch.changes[..i];
      files := files[c.file.path := c.file.content];
    }
    assert patch.changes[..|patch.changes|] == patch.changes;
    tree := Some(files);
  }

  function Insert(files: seq<File>, f: File): seq<File> {
    if files == [] || Less(files[|files| - 1].path, f.path) then files + [f]
    else Insert(files[..|files| - 1], f) + [files[|files| - 1]]
  }

  lemma {:induction false} InsertLists(files: seq<File>, tree: Tree, f: File)
    requires Lists(files, tree) && f.path !in tree
    ensures Lists(Insert(files, f), tree[f.path := f.content])
    decreases |files|
  {
    if files == [] || Less(files[|files| - 1].path, f.path) {
      AppendLists(files, tree, f);
    } else {
      var init, last := files[..|files| - 1], files[|files| - 1];
      assert last in files;
      ListsInit(files, tree);
      InsertLists(init, tree - {last.path}, f);
      LessOrder(f.path, last.path);
      BelowLast(files, tree, f, Insert(init, f));
      AppendLists(Insert(init, f), (tree - {last.path})[f.path := f.content], last);
      assert (tree - {last.path})[f.path := f.content][last.path := last.content] == tree[f.path := f.content];
    }
  }

  lemma BelowLast(files: seq<File>, tree: Tree, f: File, mid: seq<File>)
    requires Lists(files, tree) && files != [] && Less(f.path, files[|files| - 1].path)
    requires Lists(mid, (tree - {files[|files| - 1].path})[f.path := f.content])
    ensures forall g | g in mid :: Less(g.path, files[|files| - 1].path)
  {
    var last := files[|files| - 1];
    forall g | g in mid ensures Less(g.path, last.path) {
      if g.path != f.path {
        assert File(g.path, tree[g.path]) in files;
        LastGreatest(files, File(g.path, tree[g.path]));
      }
    }
  }

  lemma AppendLists(files: seq<File>, tree: Tree, f: File)
    requires Lists(files, tree) && f.path !in tree
    requires files == [] || Less(files[|files| - 1].path, f.path) || forall g | g in files :: Less(g.path, f.path)
    ensures Lists(files + [f], tree[f.path := f.content])
  {
    hide Less;
    forall i | 0 <= i < |files| ensures Less(files[i].path, f.path) {
      assert files[i] in files;
      if i < |files| - 1 && Less(files[|files| - 1].path, f.path) {
        LessTransitive(files[i].path, files[|files| - 1].path, f.path);
      }
    }
  }

  /** sorted over the dictionary (line 322). */
  method ListTree(tree: Tree) returns (files: seq<File>)
    ensures Lists(files, tree)
  {
    hide Less;
    files := [];
    var left := tree.Keys;
    ghost var done: Tree := map[];
    while left != {}
      invariant left <= tree.Keys
      invariant done == map p | p in tree && p !in left :: tree[p]
      invariant Lists(files, done)
    {
      var p :| p in left;
      InsertLists(files, done, File(p, tree[p]));
      files := Insert(files, File(p, tree[p]));
      done := done[p := tree[p]];
      left := left - {p};
    }
    assert done == tree;
  }

  /** CodingPatch.apply. */
  method Apply(rules: Rules, patch: Patch, b: Brief) returns (r: Option<seq<File>>)
    ensures r.Some? ==> Applies(rules, patch, b, r.value)
    ensures r.None? ==> forall files :: !Applies(rules, patch, b, files)
  {
    hide Combined, Less, Applicable, Lists, Overlay;
    var tree := ApplyChanges(rules, patch, b);
    if tree.None? {
      return None;
    }
    var files := ListTree(tree.value);
    ListedAscends(files, tree.value);
    forall other | Lists(other, tree.value) ensures other == files {
      ListsUnique(files, other, tree.value);
    }
    r := if 1 <= |files| <= MAX_FILES && rules.fits(files) then Some(files) else None;
  }

  lemma ListedAscends(files: seq<File>, tree: Tree)
    requires Lists(files, tree)
    ensures Ascending(files)
  {
  }

  // -------------------------------------------------------------------------
  // What survives a patch
  // -------------------------------------------------------------------------

  lemma RestrictWith(tree: Tree, p: string, paths: seq<string>)
    requires p in tree
    ensures p !in Restrict(tree - {p}, paths)
    ensures Restrict(tree, paths)
            == if p in paths then Restrict(tree - {p}, paths)[p := tree[p]] else Restrict(tree - {p}, paths)
  {
  }

  lemma RestrictNone(paths: seq<string>)
    ensures Restrict(map[], paths) == map[] && Lists([], map[])
  {
  }

  lemma {:induction false} FilterLists(files: seq<File>, tree: Tree, paths: seq<string>)
    requires Lists(files, tree)
    ensures Lists(Filter(files, paths), Restrict(tree, paths))
    decreases |files|
  {
    hide Less, Lists, Restrict;
    NoneListed(files, tree);
    if files == [] {
      RestrictNone(paths);
    } else {
      var init, last := files[..|files| - 1], files[|files| - 1];
      LastListed(files, tree);
      ListsInit(files, tree);
      FilterLists(init, tree - {last.path}, paths);
      RestrictWith(tree, last.path, paths);
      if last.path in paths {
        FilterBelow(files, tree, paths);
        AppendLists(Filter(init, paths), Restrict(tree - {last.path}, paths), last);
      } else {
        assert Filter(files, paths) == Filter(init, paths);
      }
    }
  }

  lemma FilterBelow(files: seq<File>, tree: Tree, paths: seq<string>)
    requires Lists(files, tree) && files != []
    requires Lists(Filter(files[..|files| - 1], paths), Restrict(tree - {files[|files| - 1].path}, paths))
    ensures forall g | g in Filter(files[..|files| - 1], paths) :: Less(g.path, files[|files| - 1].path)
  {
    var last := files[|files| - 1];
    forall g | g in Filter(files[..|files| - 1], paths) ensures Less(g.path, last.path) {
      assert g.path in tree && File(g.path, tree[g.path]) in files;
      LastGreatest(files, File(g.path, tree[g.path]));
    }
  }

  /**
   * Off the owned paths an applied patch leaves the verification snapshot as it
   * was, and it puts exactly its own files at the paths it changes.
   */
  lemma OutsideUntouched(rules: Rules, patch: Patch, b: Brief, files: seq<File>, p: string)
    requires Applies(rules, patch, b, files)
    ensures p !in b.owned ==> Before(TreeOf(files), p) == Before(Combined(b), p)
    ensures forall i | 0 <= i < |patch.changes| ::
              Before(TreeOf(files), patch.changes[i].file.path) == Some(patch.changes[i].file.content)
    ensures (forall i | 0 <= i < |patch.changes| :: patch.changes[i].file.path != p) ==>
              Before(TreeOf(files), p) == Before(Combined(b), p)
  {
    hide Combined, Overlay, Less;
    TreeLists(files);
    SameTree(files, TreeOf(files), Overlay(Combined(b), patch.changes));
    forall i | 0 <= i < |patch.changes|
      ensures Before(Overlay(Combined(b), patch.changes), patch.changes[i].file.path)
              == Some(patch.changes[i].file.content)
    {
      OverlayAt(Combined(b), patch.changes, i);
    }
    if forall i | 0 <= i < |patch.changes| :: patch.changes[i].file.path != p {
      OverlayOff(Combined(b), patch.changes, p);
    }
    if p !in b.owned {
      forall i | 0 <= i < |patch.changes| ensures patch.changes[i].file.path != p {
        assert ChangeOk(rules, b, Combined(b), patch.changes[i]);
      }
    }
  }

  lemma SameTree(files: seq<File>, a: Tree, b: Tree)
    requires Lists(files, a) && Lists(files, b)
    ensures a == b
  {
    forall p | p in a ensures p in b && b[p] == a[p] { assert File(p, a[p]) in files; }
    forall p | p in b ensures p in a { assert File(p, b[p]) in files; }
  }

  /** The tests a patch is verified with are the frozen ones: their digest does not change. */
  lemma TestsSurvive(rules: Rules, patch: Patch, b: Brief, verification: seq<File>, files: seq<File>)
    requires FrozenScope(rules, b, verification) && Applies(rules, patch, b, files)
    ensures Filter(files, b.tests) == Filter(verification, b.tests) == b.testsDigest
  {
    hide Combined, Overlay, Less, Filter, Lists;
    var before, after := Combined(b), Overlay(Combined(b), patch.changes);
    FilterLists(verification, before, b.tests);
    FilterLists(files, after, b.tests);
    forall p | p in b.tests ensures Before(after, p) == Before(before, p) {
      forall i | 0 <= i < |patch.changes| ensures patch.changes[i].file.path != p {
        assert ChangeOk(rules, b, before, patch.changes[i]);
      }
      OverlayOff(before, patch.changes, p);
    }
    SameOn(before, after, b.tests);
    ListsUnique(Filter(verification, b.tests), Filter(files, b.tests), Restrict(before, b.tests));
  }

  lemma SameOn(a: Tree, b: Tree, paths: seq<string>)
    requires forall p | p in paths :: Before(a, p) == Before(b, p)
    ensures Restrict(a, paths) == Restrict(b, paths)
  {
    forall p | p in paths ensures (p in a <==> p in b) && (p in a ==> a[p] == b[p]) {
      assert Before(a, p) == Before(b, p);
    }
  }

  // -------------------------------------------------------------------------
  // Reviews and retained handoffs (lines 325 to 484)
  // -------------------------------------------------------------------------

  /** CodingReview.require. */
  predicate Requires(r: Review, b: Brief, patch: Option<Patch>) {
    && r.brief == b && r.planDigest == b.planDigest && r.testsDigest == b.testsDigest
    && r.phase == (if patch.None? then PlanTests else Final)
    && r.patch == patch && r.accepts
  }

  /** exact_retained_handoff, check by check; applied is what apply returned for the handoff. */
  predicate RetentionChecks(r: Retention, applied: Option<seq<File>>) {
    && Requires(r.planReview, r.brief, None)
    && (r.handoff.Some? ==>
          && applied.Some?
          && r.handoff.value.verification.snapshot == applied.value
          && r.handoff.value.verification.testsDigest == r.brief.testsDigest)
    && (r.finalReview.Some? ==> r.handoff.Some? && Requires(r.finalReview.value, r.brief, Some(r.handoff.value.patch)))
    && (r.integration != Pending ==> r.finalReview.Some? && r.handoff.Some? && r.handoff.value.verification.passed)
    && (r.integration == Integrated <==> r.integratedCommit.Some? && r.finalVerification.Some?)
    && (r.integration == Pending ==> r.appliedCommit.None?)
    && (r.integration == Integrated ==> r.appliedCommit == r.integratedCommit)
    && (r.finalVerification.Some? ==>
          && r.handoff.Some?
          && r.finalVerification.value.passed
          && r.finalVerification.value.snapshot == r.handoff.value.verification.snapshot
          && r.finalVerification.value.testsDigest == r.brief.testsDigest)
  }

  ghost predicate ValidRetention(rules: Rules, r: Retention, verification: seq<File>, applied: Option<seq<File>>) {
    && FrozenScope(rules, r.brief, verification)
    && (r.handoff.Some? && applied.Some? ==> Applies(rules, r.handoff.value.patch, r.brief, applied.value))
    && RetentionChecks(r, applied)
  }

  /**
   * Whatever is retained as integrated carries an accepted review of the plan, an
   * accepted review of exactly its patch, and passing verification of exactly the
   * files that patch makes of the brief, whose tests are the frozen ones.
   */
  lemma IntegratedWasVerified(rules: Rules, r: Retention, verification: seq<File>, applied: Option<seq<File>>)
    requires ValidRetention(rules, r, verification, applied) && r.integration == Integrated
    ensures r.handoff.Some? && r.finalReview.Some? && r.finalVerification.Some?
    ensures var patch, files := r.handoff.value.patch, r.finalVerification.value.snapshot;
            && r.planReview.accepts && r.planReview.brief == r.brief && r.planReview.phase == PlanTests
            && r.finalReview.value.accepts && r.finalReview.value.patch == Some(patch)
            && r.finalVerification.value.passed && r.handoff.value.verification.passed
            && Applies(rules, patch, r.brief, files)
            && Filter(files, r.brief.tests) == r.brief.testsDigest == r.finalVerification.value.testsDigest
            && forall p | p !in r.brief.owned :: Before(TreeOf(files), p) == Before(Combined(r.brief), p)
    ensures r.appliedCommit == r.integratedCommit && r.appliedCommit.Some?
  {
    hide FrozenScope, Applies, Filter, Combined;
    TestsSurvive(rules, r.handoff.value.patch, r.brief, verification, applied.value);
    forall p | p !in r.brief.owned ensures Before(TreeOf(applied.value), p) == Before(Combined(r.brief), p) {
      OutsideUntouched(rules, r.handoff.value.patch, r.brief, applied.value, p);
    }
  }
}

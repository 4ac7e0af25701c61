/**
 * The extraction of a release archive into a private directory
 * (src/mos_eisley/app_install.py, lines 138 to 177).
 */
module InstallArchive {
  import opened Prelude
  import opened InstallState

  datatype Member = Member(name: string, size: int, isFile: bool, isDir: bool, data: string)

  const MAX_MEMBERS := 30000
  const MAX_NAME := 400
  const MAX_EXPANDED := 2 * 1024 * 1024 * 1024

  // -------------------------------------------------------------------------
  // Names
  // -------------------------------------------------------------------------

  function Meaningful(parts: seq<string>): (r: Path)
    ensures forall p | p in r :: p != "" && p != "." && p in parts
  {
    if parts == [] then []
    else (if parts[0] == "" || parts[0] == "." then [] else [parts[0]]) + Meaningful(parts[1..])
  }

  /** PurePosixPath(name).parts of a relative name. */
  function Parts(name: string): Path {
    Meaningful(SplitOn(name, '/'))
  }

  function Join(parts: Path): string {
    if parts == [] then "" else if |parts| == 1 then parts[0] else parts[0] + "/" + Join(parts[1..])
  }

  function StripSlashes(name: string): string {
    if name != "" && name[|name| - 1] == '/' then StripSlashes(name[..|name| - 1]) else name
  }

  /** The name checks of one member (lines 145 to 161). */
  predicate Admissible(m: Member) {
    && |m.name| <= MAX_NAME
    && !("/" <= m.name)
    && ".." !in Parts(m.name)
    && Parts(m.name) != []
    && '\\' !in m.name
    && (m.isFile || m.isDir)
    && Join(Parts(m.name)) == StripSlashes(m.name)
  }

  /** A path that stays below the directory it is joined to. */
  predicate Inside(p: Path) {
    p != [] && forall part | part in p :: part != "" && part != "." && part != ".." && '/' !in part
  }

  lemma AdmissibleInside(m: Member)
    requires Admissible(m)
    ensures Inside(Parts(m.name))
  {
    forall part | part in Parts(m.name) ensures '/' !in part {
      assert part in SplitOn(m.name, '/');
    }
  }

  // -------------------------------------------------------------------------
  // What an archive means, whatever the order of its members
  // -------------------------------------------------------------------------

  function Total(members: seq<Member>): int {
    if members == [] then 0 else Total(members[..|members| - 1]) + members[|members| - 1].size
  }

  /** A directory member of the same name counts as one, even if it is also marked as a file. */
  predicate IsFile(m: Member) {
    !m.isDir
  }

  /** No file stands where another member is, or above it. */
  ghost predicate Compatible(members: seq<Member>) {
    forall i, j | 0 <= i < |members| && 0 <= j < |members| && i != j && IsFile(members[i]) ::
      !(Parts(members[i].name) <= Parts(members[j].name))
  }

  ghost predicate Distinct(members: seq<Member>) {
    forall i, j | 0 <= i < j < |members| :: members[i].name != members[j].name
  }

  ghost predicate Lawful(members: seq<Member>) {
    forall i | 0 <= i < |members| :: Admissible(members[i]) && members[i].size >= 0
  }

  ghost predicate Extractable(members: seq<Member>) {
    && |members| <= MAX_MEMBERS
    && Lawful(members)
    && Distinct(members)
    && Total(members) <= MAX_EXPANDED
    && Compatible(members)
  }

  ghost predicate HoldsExactly(tree: map<Path, string>, members: seq<Member>) {
    && (forall i | 0 <= i < |members| && IsFile(members[i]) ::
          Parts(members[i].name) in tree && tree[Parts(members[i].name)] == members[i].data)
    && (forall p | p in tree :: exists i :: 0 <= i < |members| && IsFile(members[i]) && Parts(members[i].name) == p)
  }

  /** Some member was placed at p or below it. */
  ghost predicate Occupied(members: seq<Member>, p: Path) {
    exists i :: 0 <= i < |members| && p <= Parts(members[i].name)
  }

  /** What the directory contains while the archive is unpacked: its files, and every path that exists. */
  ghost predicate Tracks(files: map<Path, string>, places: set<Path>, members: seq<Member>) {
    && HoldsExactly(files, members)
    && (forall p :: p in places <==> p != [] && Occupied(members, p))
  }

  /** A path and the directories above it. */
  function Chain(p: Path): set<Path> {
    set k | 1 <= k <= |p| :: p[..k]
  }

  predicate FileAt(files: map<Path, string>, p: Path, k: nat) {
    k <= |p| && p[..k] in files
  }

  /** Making the directories, or creating the file, fails. */
  predicate Clashes(files: map<Path, string>, places: set<Path>, m: Member) {
    var p := Parts(m.name);
    || (exists k | 1 <= k < |p| :: FileAt(files, p, k))
    || (if IsFile(m) then p in places else p in files)
  }

  lemma PrefixCut(q: Path, p: Path)
    requires q <= p
    ensures q == p[..|q|]
  {
  }

  /** Some file member is at p[..k] exactly when its path is a prefix of that length. */
  lemma FileAbove(files: map<Path, string>, members: seq<Member>, p: Path, k: nat) returns (j: nat)
    requires HoldsExactly(files, members) && k <= |p| && p[..k] in files
    ensures j < |members| && IsFile(members[j]) && Parts(members[j].name) <= p
  {
    var i :| 0 <= i < |members| && IsFile(members[i]) && Parts(members[i].name) == p[..k];
    j := i;
  }

  /** The file system refuses a member exactly when the archive stops being compatible. */
  lemma ClashesExactly(files: map<Path, string>, places: set<Path>, members: seq<Member>, m: Member)
    requires Tracks(files, places, members) && Compatible(members) && Parts(m.name) != []
    requires forall i | 0 <= i < |members| :: Parts(members[i].name) != []
    ensures Clashes(files, places, m) <==> !Compatible(members + [m])
  {
    hide Parts;
    var all, p, n := members + [m], Parts(m.name), |members|;
    if Clashes(files, places, m) {
      ClashBreaks(files, places, members, m);
    }
    assert forall k | 0 <= k < n :: all[k] == members[k];
    if !Compatible(all) {
      var i, j :| 0 <= i < |all| && 0 <= j < |all| && i != j &&
               IsFile(all[i]) && Parts(all[i].name) <= Parts(all[j].name);
      if i < n {
        assert j == n;
        var q := Parts(members[i].name);
        PrefixCut(q, p);
        assert FileAt(files, p, |q|);
        if |q| == |p| {
          assert q == p;
          assert Occupied(members, p) by { assert p <= Parts(members[i].name); }
        }
      } else {
        assert all[j] == members[j] && p <= Parts(members[j].name);
        assert Occupied(members, p);
      }
    }
  }

  lemma ClashBreaks(files: map<Path, string>, places: set<Path>, members: seq<Member>, m: Member)
    requires Tracks(files, places, members) && Clashes(files, places, m)
    ensures !Compatible(members + [m])
  {
    hide Parts;
    var all, p, n := members + [m], Parts(m.name), |members|;
    if IsFile(m) && p in places {
      var j :| 0 <= j < n && p <= Parts(members[j].name);
      assert all[n] == m && all[j] == members[j];
    } else {
      var k: nat := |p|;
      if p in files {
        assert p[..k] == p;
      } else {
        k :| 1 <= k < |p| && FileAt(files, p, k);
      }
      var j := FileAbove(files, members, p, k);
      assert all[n] == m && all[j] == members[j];
    }
  }

  /** Placing a member that does not clash. */
  lemma Placed(files: map<Path, string>, places: set<Path>, members: seq<Member>, m: Member)
    requires Tracks(files, places, members) && Compatible(members + [m]) && Parts(m.name) != []
    ensures Tracks(if IsFile(m) then files[Parts(m.name) := m.data] else files,
                   places + Chain(Parts(m.name)), members + [m])
  {
    hide Parts, Compatible;
    PlacedFiles(files, members, m);
    var all, p := members + [m], Parts(m.name);
    forall q ensures q in places + Chain(p) <==> q != [] && Occupied(all, q) {
      if q in Chain(p) {
        assert q <= Parts(all[|members|].name);
      }
      if q in places {
        var i :| 0 <= i < |members| && q <= Parts(members[i].name);
        assert all[i] == members[i];
      }
      if q != [] && Occupied(all, q) {
        var i :| 0 <= i < |all| && q <= Parts(all[i].name);
        if i < |members| {
          assert all[i] == members[i];
        } else {
          PrefixCut(q, p);
        }
      }
    }
  }

  lemma PlacedFiles(files: map<Path, string>, members: seq<Member>, m: Member)
    requires HoldsExactly(files, members) && Compatible(members + [m])
    ensures HoldsExactly(if IsFile(m) then files[Parts(m.name) := m.data] else files, members + [m])
  {
    hide Parts;
    var all, n := members + [m], |members|;
    var files' := if IsFile(m) then files[Parts(m.name) := m.data] else files;
    assert all[n] == m;
    forall i | 0 <= i < |all| && IsFile(all[i])
      ensures Parts(all[i].name) in files' && files'[Parts(all[i].name)] == all[i].data
    {
      if i < n {
        assert all[i] == members[i];
        if IsFile(m) { assert !(Parts(all[n].name) <= Parts(all[i].name)); }
      }
    }
    forall p | p in files' ensures exists i :: 0 <= i < |all| && IsFile(all[i]) && Parts(all[i].name) == p {
      if p in files {
        var i :| 0 <= i < n && IsFile(members[i]) && Parts(members[i].name) == p;
        assert all[i] == members[i];
      } else {
        assert Parts(all[n].name) == p;
      }
    }
  }

  // -------------------------------------------------------------------------
  // The loop
  // -------------------------------------------------------------------------

  lemma {:induction false} TotalGrows(members: seq<Member>, n: nat)
    requires n <= |members| && forall i | 0 <= i < |members| :: members[i].size >= 0
    ensures Total(members[..n]) <= Total(members)
    decreases |members|
  {
    if n < |members| {
      var init := members[..|members| - 1];
      TotalGrows(init, n);
      assert init[..n] == members[..n];
    } else {
      assert members[..n] == members;
    }
  }

  /** What can be extracted can be extracted up to any member. */
  lemma ExtractablePrefix(members: seq<Member>, n: nat)
    requires Extractable(members) && n <= |members|
    ensures Extractable(members[..n])
  {
    hide Admissible, Parts;
    TotalGrows(members, n);
    var part := members[..n];
    assert forall i | 0 <= i < n :: part[i] == members[i];
  }

  ghost predicate Seen(seen: set<string>, members: seq<Member>) {
    forall name :: name in seen <==> exists i :: 0 <= i < |members| && members[i].name == name
  }

  lemma TotalNext(members: seq<Member>, m: Member)
    ensures Total(members + [m]) == Total(members) + m.size
  {
    assert (members + [m])[..|members|] == members;
  }

  lemma DistinctNext(seen: set<string>, members: seq<Member>, m: Member)
    requires Distinct(members) && Seen(seen, members)
    ensures Distinct(members + [m]) <==> m.name !in seen
  {
    var all := members + [m];
    assert forall i | 0 <= i < |members| :: all[i] == members[i];
    assert all[|members|] == m;
  }

  lemma LawfulNext(members: seq<Member>, m: Member)
    requires Lawful(members)
    ensures Lawful(members + [m]) <==> Admissible(m) && m.size >= 0
  {
    hide Admissible;
    var all := members + [m];
    assert forall i | 0 <= i < |members| :: all[i] == members[i];
    assert all[|members|] == m;
  }

  /** The next member is accepted exactly when the archive up to it can be extracted. */
  lemma NextExactly(files: map<Path, string>, places: set<Path>, seen: set<string>, members: seq<Member>, m: Member)
    requires Extractable(members) && Tracks(files, places, members) && Seen(seen, members)
    ensures Extractable(members + [m]) <==>
              && |members| < MAX_MEMBERS && Admissible(m) && m.name !in seen
              && m.size >= 0 && Total(members) + m.size <= MAX_EXPANDED
              && !Clashes(files, places, m)
  {
    hide Parts, Tracks, Clashes, Compatible, Distinct, Lawful, Admissible, Seen, Total;
    DistinctNext(seen, members, m);
    LawfulNext(members, m);
    TotalNext(members, m);
    if Admissible(m) {
      PathsNonempty(members, m);
      ClashesNow(files, places, members, m);
    }
  }

  lemma PathsNonempty(members: seq<Member>, m: Member)
    requires Lawful(members) && Admissible(m)
    ensures Parts(m.name) != [] && forall i | 0 <= i < |members| :: Parts(members[i].name) != []
  {
    forall i | 0 <= i < |members| ensures Parts(members[i].name) != [] {
      assert Admissible(members[i]);
    }
  }

  lemma ClashesNow(files: map<Path, string>, places: set<Path>, members: seq<Member>, m: Member)
    requires Extractable(members) && Tracks(files, places, members) && Parts(m.name) != []
    requires forall i | 0 <= i < |members| :: Parts(members[i].name) != []
    ensures Clashes(files, places, m) <==> !Compatible(members + [m])
  {
    ClashesExactly(files, places, members, m);
  }

  /**
   * extract_archive. It succeeds exactly when the members, in whatever order they
   * stand, name distinct places inside the directory, no file stands on or above
   * another member, the sizes fit and there is a launcher; the directory then
   * holds the bytes of every file member and nothing else.
   */
  method ExtractArchive(members: seq<Member>) returns (r: Option<map<Path, string>>)
    ensures r.Some? <==> Extractable(members) && exists i :: 0 <= i < |members| && IsLauncher(members[i])
    ensures r.Some? ==> HoldsExactly(r.value, members)
  {
    hide Admissible, Extractable, Tracks, Clashes, Parts, HoldsExactly, Total, IsLauncher;
    var total, seen := 0, {};
    var files: map<Path, string>, places: set<Path> := map[], {};
    NothingExtracted();
    for count := 0 to |members|
      invariant total == Total(members[..count])
      invariant Extractable(members[..count]) && Tracks(files, places, members[..count]) && Seen(seen, members[..count])
    {
      var m := members[count];
      ghost var done := members[..count];
      assert members[..count + 1] == done + [m];
      NextExactly(files, places, seen, done, m);
      TotalNext(done, m);
      if count >= MAX_MEMBERS || !Admissible(m) || m.name in seen
         || m.size < 0 || total + m.size > MAX_EXPANDED || Clashes(files, places, m) {
        if Extractable(members) { ExtractablePrefix(members, count + 1); }
        return None;
      }
      CompatibleNow(done + [m]);
      PathOf(m);
      Placed(files, places, done, m);
      seen, total := seen + {m.name}, total + m.size;
      if IsFile(m) {
        files := files[Parts(m.name) := m.data];
      }
      places := places + Chain(Parts(m.name));
    }
    assert members[..|members|] == members;
    TracksHolds(files, places, members);
    LauncherExtracted(files, members);
    r := if ["mos"] in files then Some(files) else None;
  }

  /** The file member that becomes the launcher of the bundle. */
  predicate IsLauncher(m: Member) {
    IsFile(m) && Parts(m.name) == ["mos"]
  }

  lemma NothingExtracted()
    ensures Extractable([]) && Tracks(map[], {}, []) && Seen({}, []) && Total([]) == 0
  {
  }

  lemma CompatibleNow(members: seq<Member>)
    requires Extractable(members)
    ensures Compatible(members)
  {
  }

  lemma PathOf(m: Member)
    requires Admissible(m)
    ensures Parts(m.name) != []
  {
  }

  lemma TracksHolds(files: map<Path, string>, places: set<Path>, members: seq<Member>)
    requires Tracks(files, places, members)
    ensures HoldsExactly(files, members)
  {
  }

  lemma LauncherExtracted(files: map<Path, string>, members: seq<Member>)
    requires HoldsExactly(files, members)
    ensures ["mos"] in files <==> exists i :: 0 <= i < |members| && IsLauncher(members[i])
  {
    hide Parts;
    if ["mos"] in files {
      var i :| 0 <= i < |members| && IsFile(members[i]) && Parts(members[i].name) == ["mos"];
      assert IsLauncher(members[i]);
    }
  }

  // -------------------------------------------------------------------------
  // What follows from it
  // -------------------------------------------------------------------------

  /** Everything extracted stays inside the directory, and no file is above another. */
  lemma ExtractedInside(members: seq<Member>, tree: map<Path, string>, p: Path, q: Path)
    requires Extractable(members) && HoldsExactly(tree, members)
    requires p in tree && q in tree
    ensures Inside(p)
    ensures p <= q ==> p == q
  {
    hide Parts;
    var i :| 0 <= i < |members| && IsFile(members[i]) && Parts(members[i].name) == p;
    var j :| 0 <= j < |members| && IsFile(members[j]) && Parts(members[j].name) == q;
    AdmissibleInside(members[i]);
  }

  /** One archive has one content. */
  lemma ExtractedOnce(members: seq<Member>, a: map<Path, string>, b: map<Path, string>)
    requires HoldsExactly(a, members) && HoldsExactly(b, members)
    ensures a == b
  {
    hide Parts;
    forall p | p in a ensures p in b && a[p] == b[p] {
      var i :| 0 <= i < |members| && IsFile(members[i]) && Parts(members[i].name) == p;
    }
    forall p | p in b ensures p in a {
      var i :| 0 <= i < |members| && IsFile(members[i]) && Parts(members[i].name) == p;
    }
  }
}

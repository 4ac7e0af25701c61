/**
 * The two loops of the source audit (tools/g3_execution_view_audit.py):
 * verify_git_tree over a recursive listing, and archive_blobs over the members of
 * a downloaded archive (lines 50 to 93 and 120 to 184).
 */
module GitAudit {
  import opened Prelude
  import opened GitTree

  // -------------------------------------------------------------------------
  // The listing
  // -------------------------------------------------------------------------

  lemma {:induction false} LookupSnoc(entries: seq<Entry>, e: Entry, path: Bytes)
    ensures Lookup(entries + [e], path)
            == if Lookup(entries, path).Some? then Lookup(entries, path) else if e.path == path then Some(e) else None
    decreases |entries|
  {
    if entries == [] {
      assert entries + [e] == [e];
    } else {
      assert (entries + [e])[1..] == entries[1..] + [e];
      LookupSnoc(entries[1..], e, path);
    }
  }

  /** The first loop: each path once, safe, of a supported kind (lines 51 to 61). */
  method ReadListing(entries: seq<Entry>) returns (ok: bool)
    ensures ok <==> (forall i | 0 <= i < |entries| :: Readable(entries[i])) && Distinct(entries)
  {
    hide SafePath;
    var paths: set<Bytes> := {};
    for i := 0 to |entries|
      invariant forall p :: p in paths <==> exists k :: 0 <= k < i && entries[k].path == p
      invariant forall k | 0 <= k < i :: Readable(entries[k])
      invariant forall j, k | 0 <= j < k < i :: entries[j].path != entries[k].path
    {
      var e := entries[i];
      if e.path in paths || !SafePath(e.path) || e.kind == Submodule {
        return false;
      }
      paths := paths + {e.path};
    }
    ok := true;
  }

  /** The directories by path (lines 63 to 70). */
  method IndexDirectories(entries: seq<Entry>, root: Id) returns (directories: map<Bytes, Id>)
    requires Distinct(entries)
    ensures forall d :: d in directories <==> DirectoryId(entries, root, d).Some?
    ensures forall d | d in directories :: DirectoryId(entries, root, d) == Some(directories[d])
  {
    directories := map[[] := root];
    for i := 0 to |entries|
      invariant forall d :: d in directories <==> DirectoryId(entries[..i], root, d).Some?
      invariant forall d | d in directories :: DirectoryId(entries[..i], root, d) == Some(directories[d])
    {
      var e := entries[i];
      assert entries[..i + 1] == entries[..i] + [e];
      forall d ensures Lookup(entries[..i + 1], d)
                       == if Lookup(entries[..i], d).Some? then Lookup(entries[..i], d)
                          else if e.path == d then Some(e) else None
      {
        LookupSnoc(entries[..i], e, d);
      }
      FreshPath(entries, i);
      if e.kind == Tree {
        directories := directories[e.path := e.id];
      }
    }
    assert entries[..|entries|] == entries;
  }

  lemma FreshPath(entries: seq<Entry>, i: nat)
    requires Distinct(entries) && i < |entries|
    ensures Lookup(entries[..i], entries[i].path).None?
  {
    assert forall k | 0 <= k < i :: entries[..i][k] == entries[k];
  }

  /** The children of each directory; every parent must be one (lines 71 to 76). */
  method GroupChildren(entries: seq<Entry>, directories: map<Bytes, Id>)
    returns (ok: bool, children: map<Bytes, seq<Item>>)
    ensures ok <==> forall i | 0 <= i < |entries| :: ParentOf(entries[i].path) in directories
    ensures ok ==> children.Keys == directories.Keys && forall d | d in children :: children[d] == Children(entries, d)
  {
    hide ParentOf, NameOf;
    children := map d | d in directories :: [];
    for i := 0 to |entries|
      invariant children.Keys == directories.Keys
      invariant forall k | 0 <= k < i :: ParentOf(entries[k].path) in directories
      invariant forall d | d in children :: children[d] == Children(entries[..i], d)
    {
      var e := entries[i];
      assert entries[..i + 1][..i] == entries[..i];
      var parent := ParentOf(e.path);
      if parent !in directories {
        return false, map[];
      }
      children := children[parent := children[parent] + [Item(NameOf(e.path), e)]];
    }
    assert entries[..|entries|] == entries;
    ok := true;
  }

  lemma {:induction false} ContentSnoc(items: seq<Item>, item: Item)
    ensures Content(items + [item]) == Content(items) + Row(item.name, item.entry)
    decreases |items|
  {
    hide Row;
    if items == [] {
      assert items + [item] == [item] && [item][1..] == [];
    } else {
      assert (items + [item])[1..] == items[1..] + [item];
      ContentSnoc(items[1..], item);
      assert Row(items[0].name, items[0].entry) + (Content(items[1..]) + Row(item.name, item.entry))
             == Row(items[0].name, items[0].entry) + Content(items[1..]) + Row(item.name, item.entry);
    }
  }

  /** The rows of one directory, in Git's order (lines 78 to 88). */
  method EncodeDirectory(items: seq<Item>) returns (content: Bytes)
    ensures content == Content(Sorted(items))
  {
    hide Row, Sorted;
    var ordered := Sorted(items);
    content := [];
    for i := 0 to |ordered|
      invariant content == Content(ordered[..i])
    {
      assert ordered[..i + 1] == ordered[..i] + [ordered[i]];
      ContentSnoc(ordered[..i], ordered[i]);
      content := content + Row(ordered[i].name, ordered[i].entry);
    }
    assert ordered[..|ordered|] == ordered;
  }

  /** verify_git_tree. The order in which directories are hashed only decides which mismatch is reported. */
  method VerifyGitTree(h: Hash, entries: seq<Entry>, root: Id) returns (ok: bool)
    ensures ok <==> Accepts(h, entries, root)
  {
    hide SafePath, ParentOf, Children, Sorted, Content, Object, Readable;
    var readable := ReadListing(entries);
    if !readable {
      return false;
    }
    var directories := IndexDirectories(entries, root);
    var complete, children := GroupChildren(entries, directories);
    if !complete {
      return false;
    }
    var left := directories.Keys;
    while left != {}
      invariant left <= directories.Keys
      invariant forall d | d in directories && d !in left :: HashOk(h, entries, root, d)
    {
      var d :| d in left;
      var content := EncodeDirectory(children[d]);
      if h(Object(TREE_TAG, content)) != directories[d] {
        HashNeeded(h, entries, root, d);
        return false;
      }
      left := left - {d};
    }
    AllHashed(h, entries, root, directories);
    ok := true;
  }

  lemma HashNeeded(h: Hash, entries: seq<Entry>, root: Id, d: Bytes)
    requires DirectoryId(entries, root, d).Some? && !HashOk(h, entries, root, d)
    ensures !Accepts(h, entries, root)
  {
    hide Hashed, Readable;
    if Lookup(entries, d).Some? && Lookup(entries, d).value.kind == Tree {
      var e := Lookup(entries, d).value;
      var i :| 0 <= i < |entries| && entries[i] == e;
      assert entries[i].kind == Tree && entries[i].path == d;
    }
  }

  lemma AllHashed(h: Hash, entries: seq<Entry>, root: Id, directories: map<Bytes, Id>)
    requires forall i | 0 <= i < |entries| :: Readable(entries[i])
    requires Distinct(entries)
    requires forall d :: d in directories <==> DirectoryId(entries, root, d).Some?
    requires forall i | 0 <= i < |entries| :: ParentOf(entries[i].path) in directories
    requires forall d | d in directories :: HashOk(h, entries, root, d)
    ensures Accepts(h, entries, root)
  {
    hide Hashed, Readable, DirectoryId, ParentOf;
    forall i | 0 <= i < |entries| && entries[i].kind == Tree ensures HashOk(h, entries, root, entries[i].path) {
      OkWithout(h, entries, root, entries[i].path);
    }
    OkWithout(h, entries, root, []);
  }

  lemma OkWithout(h: Hash, entries: seq<Entry>, root: Id, d: Bytes)
    ensures DirectoryId(entries, root, d).None? ==> HashOk(h, entries, root, d)
  {
  }

  // -------------------------------------------------------------------------
  // The archive
  // -------------------------------------------------------------------------

  datatype Member = Member(name: Bytes, isDir: bool, isFile: bool, size: nat, data: Bytes)

  /** The commit object, the recursive tree response and the pinned commit. */
  datatype Pinned = Pinned(commit: Bytes, sha: Bytes, tree: Id, responseTree: Id, truncated: bool)

  const MAX_FILES := 2000
  const MAX_FILE_BYTES := 10000000
  const MAX_TREE_BYTES := 60000000

  predicate EndsWith(s: Bytes, tail: Bytes) {
    |tail| <= |s| && s[|s| - |tail|..] == tail
  }

  function Join(parts: seq<Bytes>): Bytes {
    if parts == [] then []
    else if |parts| == 1 then parts[0]
    else Join(parts[..|parts| - 1]) + [SLASH] + parts[|parts| - 1]
  }

  datatype Role = Refused | Skipped | File(path: Bytes)

  /** What the name and type of a member make of it (lines 147 to 164). */
  function RoleOf(m: Member, commit: Bytes): Role {
    var parts := Parts(m.name);
    if parts == [] || !EndsWith(parts[0], commit) then Refused
    else if |parts| == 1 then if m.isDir then Skipped else Refused
    else if [DOT] in parts[1..] || [DOT, DOT] in parts[1..] || DOT_GIT in parts[1..] then Refused
    else if m.isDir then Skipped
    else if !m.isFile then Refused
    else File(Join(parts[1..]))
  }

  function BlobObject(data: Bytes): Bytes {
    Object(BLOB_TAG, data)
  }

  function BlobAt(entries: seq<Entry>, path: Bytes): Option<Entry> {
    var e := Lookup(entries, path);
    if e.Some? && e.value.kind == Blob then e else None
  }

  /** The bytes of a file member are those the listing names (lines 165 to 181). */
  predicate FileOk(h: Hash, entries: seq<Entry>, m: Member, path: Bytes) {
    && BlobAt(entries, path).Some?
    && |m.data| == m.size <= MAX_FILE_BYTES
    && BlobAt(entries, path).value.mode in FILE_MODES
    && h(BlobObject(m.data)) == BlobAt(entries, path).value.id
  }

  predicate MemberOk(h: Hash, entries: seq<Entry>, commit: Bytes, m: Member) {
    var role := RoleOf(m, commit);
    !role.Refused? && (role.File? ==> FileOk(h, entries, m, role.path))
  }

  function Total(members: seq<Member>, commit: Bytes): nat {
    if members == [] then 0
    else
      var last := members[|members| - 1];
      Total(members[..|members| - 1], commit) + if RoleOf(last, commit).File? then |last.data| else 0
  }

  ghost predicate DistinctFiles(members: seq<Member>, commit: Bytes) {
    forall i, j | 0 <= i < j < |members| && RoleOf(members[i], commit).File? ::
      RoleOf(members[i], commit) != RoleOf(members[j], commit)
  }

  ghost predicate Fits(h: Hash, entries: seq<Entry>, commit: Bytes, members: seq<Member>) {
    && (forall i | 0 <= i < |members| :: MemberOk(h, entries, commit, members[i]))
    && DistinctFiles(members, commit)
    && Total(members, commit) <= MAX_TREE_BYTES
  }

  type Blobs = map<Bytes, (Bytes, nat)>

  /** Every file member, with its bytes and its mode. */
  ghost predicate Gathered(entries: seq<Entry>, commit: Bytes, members: seq<Member>, found: Blobs) {
    && (forall i | 0 <= i < |members| && RoleOf(members[i], commit).File? ::
          var path := RoleOf(members[i], commit).path;

          path in found && BlobAt(entries, path).Some?
          && found[path] == (members[i].data, BlobAt(entries, path).value.mode))
    && (forall path | path in found :: exists i :: 0 <= i < |members| && RoleOf(members[i], commit) == File(path))
  }

  function BlobPaths(entries: seq<Entry>): set<Bytes> {
    set e | e in entries && e.kind == Blob :: e.path
  }

  ghost predicate AcceptsArchive(h: Hash, p: Pinned, entries: seq<Entry>, members: seq<Member>) {
    && p.sha == p.commit && p.responseTree == p.tree && !p.truncated
    && Accepts(h, entries, p.tree)
    && 0 < |BlobPaths(entries)| <= MAX_FILES
    && Fits(h, entries, p.commit, members)
    && (forall path | path in BlobPaths(entries) ::
          exists i :: 0 <= i < |members| && RoleOf(members[i], p.commit) == File(path))
  }

  lemma TotalSnoc(members: seq<Member>, commit: Bytes, m: Member)
    ensures Total(members + [m], commit) == Total(members, commit) + if RoleOf(m, commit).File? then |m.data| else 0
  {
    assert (members + [m])[..|members|] == members;
  }

  lemma {:induction false} TotalGrows(members: seq<Member>, commit: Bytes, n: nat)
    requires n <= |members|
    ensures Total(members[..n], commit) <= Total(members, commit)
    decreases |members|
  {
    hide RoleOf;
    if n < |members| {
      var init := members[..|members| - 1];
      TotalGrows(init, commit, n);
      assert init[..n] == members[..n];
    } else {
      assert members[..n] == members;
    }
  }

  lemma FitsPrefix(h: Hash, entries: seq<Entry>, commit: Bytes, members: seq<Member>, n: nat)
    requires Fits(h, entries, commit, members) && n <= |members|
    ensures Fits(h, entries, commit, members[..n])
  {
    hide RoleOf, MemberOk;
    TotalGrows(members, commit, n);
  }

  /** The next member fits exactly when it passes its checks and its path is new. */
  lemma FitsNext(h: Hash, entries: seq<Entry>, commit: Bytes, members: seq<Member>, m: Member, found: Blobs)
    requires Fits(h, entries, commit, members) && Gathered(entries, commit, members, found)
    ensures Fits(h, entries, commit, members + [m]) <==>
              && MemberOk(h, entries, commit, m)
              && (RoleOf(m, commit).File? ==>
                    RoleOf(m, commit).path !in found && Total(members, commit) + |m.data| <= MAX_TREE_BYTES)
  {
    hide RoleOf, MemberOk, Total;
    var all := members + [m];
    assert all[|members|] == m && forall i | 0 <= i < |members| :: all[i] == members[i];
    TotalSnoc(members, commit, m);
    DistinctNext(entries, commit, members, m, found);
  }

  lemma DistinctNext(entries: seq<Entry>, commit: Bytes, members: seq<Member>, m: Member, found: Blobs)
    requires DistinctFiles(members, commit) && Gathered(entries, commit, members, found)
    ensures DistinctFiles(members + [m], commit) <==> (RoleOf(m, commit).File? ==> RoleOf(m, commit).path !in found)
  {
    hide RoleOf, BlobAt;
    var all := members + [m];
    assert all[|members|] == m && forall i | 0 <= i < |members| :: all[i] == members[i];
    if RoleOf(m, commit).File? && RoleOf(m, commit).path in found {
      var i :| 0 <= i < |members| && RoleOf(members[i], commit) == File(RoleOf(m, commit).path);
      assert RoleOf(all[i], commit) == RoleOf(all[|members|], commit);
    }
  }

  lemma GatheredNext(entries: seq<Entry>, commit: Bytes, members: seq<Member>, m: Member, found: Blobs)
    requires Gathered(entries, commit, members, found)
    requires RoleOf(m, commit).File? ==>
               RoleOf(m, commit).path !in found && BlobAt(entries, RoleOf(m, commit).path).Some?
    ensures Gathered(entries, commit, members + [m],
                     if RoleOf(m, commit).File?
                     then found[RoleOf(m, commit).path := (m.data, BlobAt(entries, RoleOf(m, commit).path).value.mode)]
                     else found)
  {
    hide RoleOf, BlobAt;
    var all := members + [m];
    assert all[|members|] == m && forall i | 0 <= i < |members| :: all[i] == members[i];
    var found' := if RoleOf(m, commit).File?
                  then found[RoleOf(m, commit).path := (m.data, BlobAt(entries, RoleOf(m, commit).path).value.mode)]
                  else found;
    forall path | path in found' ensures exists i :: 0 <= i < |all| && RoleOf(all[i], commit) == File(path) {
      if path in found {
        var i :| 0 <= i < |members| && RoleOf(members[i], commit) == File(path);
        assert RoleOf(all[i], commit) == File(path);
      } else {
        assert RoleOf(all[|members|], commit) == File(path);
      }
    }
  }

  lemma GatheredAll(h: Hash, p: Pinned, entries: seq<Entry>, members: seq<Member>, found: Blobs)
    requires Fits(h, entries, p.commit, members) && Gathered(entries, p.commit, members, found)
    ensures found.Keys == BlobPaths(entries)
            <==> forall path | path in BlobPaths(entries) ::
                   exists i :: 0 <= i < |members| && RoleOf(members[i], p.commit) == File(path)
  {
    hide RoleOf, Total;
    forall path | path in found ensures path in BlobPaths(entries) {
      var i :| 0 <= i < |members| && RoleOf(members[i], p.commit) == File(path);
      assert MemberOk(h, entries, p.commit, members[i]);
    }
    if forall path | path in BlobPaths(entries) ::
         exists i :: 0 <= i < |members| && RoleOf(members[i], p.commit) == File(path) {
      forall path | path in BlobPaths(entries) ensures path in found {
        var i :| 0 <= i < |members| && RoleOf(members[i], p.commit) == File(path);
      }
    }
  }

  /** archive_blobs: the bytes and mode of every file, or nothing. */
  method ArchiveBlobs(h: Hash, p: Pinned, entries: seq<Entry>, members: seq<Member>) returns (r: Option<Blobs>)
    ensures r.Some? <==> AcceptsArchive(h, p, entries, members)
    ensures r.Some? ==> Gathered(entries, p.commit, members, r.value) && r.value.Keys == BlobPaths(entries)
  {
    hide RoleOf, Accepts, Fits, Gathered, BlobAt, Object, MemberOk, Total, BlobPaths;
    if p.sha != p.commit || p.responseTree != p.tree || p.truncated {
      return None;
    }
    var verified := VerifyGitTree(h, entries, p.tree);
    if !verified {
      return None;
    }
    var expected := BlobPaths(entries);
    if !(0 < |expected| <= MAX_FILES) {
      return None;
    }
    var found: Blobs := map[];
    var total := 0;
    NothingGathered(h, entries, p.commit);
    for i := 0 to |members|
      invariant Fits(h, entries, p.commit, members[..i]) && Gathered(entries, p.commit, members[..i], found)
      invariant total == Total(members[..i], p.commit)
    {
      var m := members[i];
      ghost var done := members[..i];
      assert members[..i + 1] == done + [m];
      FitsNext(h, entries, p.commit, done, m, found);
      TotalSnoc(done, p.commit, m);
      var role := RoleOf(m, p.commit);
      if !MemberOk(h, entries, p.commit, m)
         || (role.File? && (role.path in found || total + |m.data| > MAX_TREE_BYTES)) {
        if Fits(h, entries, p.commit, members) { FitsPrefix(h, entries, p.commit, members, i + 1); }
        return None;
      }
      MemberBlob(h, entries, p.commit, m);
      GatheredNext(entries, p.commit, done, m, found);
      if role.File? {
        total := total + |m.data|;
        found := found[role.path := (m.data, BlobAt(entries, role.path).value.mode)];
      }
    }
    assert members[..|members|] == members;
    GatheredAll(h, p, entries, members, found);
    r := if found.Keys == expected then Some(found) else None;
  }

  lemma MemberBlob(h: Hash, entries: seq<Entry>, commit: Bytes, m: Member)
    requires MemberOk(h, entries, commit, m)
    ensures RoleOf(m, commit).File? ==> BlobAt(entries, RoleOf(m, commit).path).Some?
  {
  }

  lemma NothingGathered(h: Hash, entries: seq<Entry>, commit: Bytes)
    ensures Fits(h, entries, commit, []) && Gathered(entries, commit, [], map[]) && Total([], commit) == 0
  {
  }

  // -------------------------------------------------------------------------
  // Two accepted archives of one root
  // -------------------------------------------------------------------------

  /** Every part after the first is a plain name. */
  lemma {:induction false} PartsPlain(path: Bytes, i: nat)
    requires 0 < i < |Parts(path)|
    ensures Parts(path)[i] != [] && SLASH !in Parts(path)[i]
    decreases |path|
  {
    if path != [] {
      var above := Parts(ParentOf(path));
      if i < |above| {
        PartsPlain(ParentOf(path), i);
      }
    }
  }

  lemma {:induction false} JoinRelative(parts: seq<Bytes>)
    requires parts != [] && parts[0] != [] && SLASH !in parts[0]
    ensures Join(parts) != [] && !([SLASH] <= Join(parts))
    decreases |parts|
  {
    if |parts| > 1 {
      JoinRelative(parts[..|parts| - 1]);
    } else {
      assert parts[0][0] in parts[0];
    }
  }

  /** A file found in an archive has a relative path. */
  lemma RoleRelative(m: Member, commit: Bytes)
    requires RoleOf(m, commit).File?
    ensures !([SLASH] <= RoleOf(m, commit).path)
  {
    hide EndsWith;
    var parts := Parts(m.name);
    PartsPlain(m.name, 1);
    assert parts[1..][0] == parts[1];
    JoinRelative(parts[1..]);
  }

  /** An accepted archive, and what was found in it. */
  ghost predicate Audited(h: Hash, p: Pinned, entries: seq<Entry>, members: seq<Member>, found: Blobs) {
    && AcceptsArchive(h, p, entries, members)
    && Gathered(entries, p.commit, members, found) && found.Keys == BlobPaths(entries)
    && NoNul(entries)
  }

  /** The file objects an audit makes the check hash. */
  function FileObjects(found: Blobs): set<Bytes> {
    set path | path in found :: BlobObject(found[path].0)
  }

  /** Each blob of an audited listing was found, with bytes that hash to its id, at a relative path. */
  lemma BlobFound(h: Hash, p: Pinned, entries: seq<Entry>, members: seq<Member>, found: Blobs, e: Entry)
    requires Audited(h, p, entries, members, found) && e in entries && e.kind == Blob
    ensures e.path in found && found[e.path].1 == e.mode && h(BlobObject(found[e.path].0)) == e.id
    ensures !([SLASH] <= e.path)
    ensures BlobObject(found[e.path].0) in FileObjects(found)
  {
    hide RoleOf, Accepts, BlobObject, Total;
    assert e.path in BlobPaths(entries);
    var i :| 0 <= i < |members| && RoleOf(members[i], p.commit) == File(e.path);
    assert MemberOk(h, entries, p.commit, members[i]);
    EntryPath(h, entries, p.tree, e);
    RoleRelative(members[i], p.commit);
  }

  ghost predicate Separated(h: Hash, a: seq<Entry>, fa: Blobs, b: seq<Entry>, fb: Blobs) {
    Separates(h, Objects(a) + Objects(b) + FileObjects(fa) + FileObjects(fb))
  }

  /** A tree of one audit and a file of another never share an id: their objects have different tags. */
  lemma TreeNotBlob(
      h: Hash, p: Pinned, a: seq<Entry>, ma: seq<Member>, fa: Blobs,
      q: Pinned, b: seq<Entry>, mb: seq<Member>, fb: Blobs,
      e: Entry, f: Entry)
    requires Audited(h, p, a, ma, fa) && Audited(h, q, b, mb, fb) && Separated(h, a, fa, b, fb)
    requires e in a && e.kind == Tree && f in b && f.kind == Blob
    ensures e.id != f.id
  {
    hide Accepts, Fits, Gathered, Object, Children, Sorted, Content;
    EntryPath(h, a, p.tree, e);
    DirectoryHash(h, a, p.tree, e.path);
    BlobFound(h, q, b, mb, fb, f);
    if Hashed(a, e.path) == BlobObject(fb[f.path].0) {
      ObjectUnique(TREE_TAG, Content(Sorted(Children(a, e.path))), BLOB_TAG, fb[f.path].0);
      assert false;
    }
  }

  lemma SeparatedBack(h: Hash, a: seq<Entry>, fa: Blobs, b: seq<Entry>, fb: Blobs)
    requires Separated(h, a, fa, b, fb)
    ensures Separated(h, b, fb, a, fa)
  {
    hide Objects, FileObjects;
    assert Objects(a) + Objects(b) + FileObjects(fa) + FileObjects(fb)
           == Objects(b) + Objects(a) + FileObjects(fb) + FileObjects(fa);
  }

  lemma SupportedKind(h: Hash, p: Pinned, entries: seq<Entry>, members: seq<Member>, e: Entry)
    requires AcceptsArchive(h, p, entries, members) && e in entries
    ensures e.kind != Submodule
  {
    var i :| 0 <= i < |entries| && entries[i] == e;
    assert Readable(entries[i]);
  }

  lemma AuditKinds(
      h: Hash, p: Pinned, a: seq<Entry>, ma: seq<Member>, fa: Blobs,
      q: Pinned, b: seq<Entry>, mb: seq<Member>, fb: Blobs,
      e: Entry, f: Entry)
    requires Audited(h, p, a, ma, fa) && Audited(h, q, b, mb, fb) && Separated(h, a, fa, b, fb)
    requires e in a && f in b && e.id == f.id
    ensures e.kind == f.kind
  {
    hide Accepts, Fits, Gathered, Separated;
    SeparatedBack(h, a, fa, b, fb);
    SupportedKind(h, p, a, ma, e);
    SupportedKind(h, q, b, mb, f);
    if e.kind == Tree && f.kind == Blob {
      TreeNotBlob(h, p, a, ma, fa, q, b, mb, fb, e, f);
    } else if e.kind == Blob && f.kind == Tree {
      TreeNotBlob(h, q, b, mb, fb, p, a, ma, fa, f, e);
    }
  }

  lemma AuditParts(h: Hash, p: Pinned, entries: seq<Entry>, members: seq<Member>, found: Blobs)
    requires Audited(h, p, entries, members, found)
    ensures Accepts(h, entries, p.tree) && NoNul(entries)
  {
  }

  lemma AuditsComparable(
      h: Hash, p: Pinned, a: seq<Entry>, ma: seq<Member>, fa: Blobs,
      q: Pinned, b: seq<Entry>, mb: seq<Member>, fb: Blobs)
    requires Audited(h, p, a, ma, fa) && Audited(h, q, b, mb, fb) && Separated(h, a, fa, b, fb) && p.tree == q.tree
    ensures SameRoot(h, a, b, p.tree)
  {
    hide Accepts, Audited, Objects, FileObjects, Separates, NoNul;
    AuditParts(h, p, a, ma, fa);
    AuditParts(h, q, b, mb, fb);
    forall e, f | e in a && f in b && e.mode == f.mode && e.id == f.id ensures e.kind == f.kind {
      AuditKinds(h, p, a, ma, fa, q, b, mb, fb, e, f);
    }
    SubsetSeparates(h, Objects(a) + Objects(b), Objects(a) + Objects(b) + FileObjects(fa) + FileObjects(fb));
  }

  lemma SubsetSeparates(h: Hash, some: set<Bytes>, all: set<Bytes>)
    requires some <= all && Separates(h, all)
    ensures Separates(h, some)
  {
  }

  lemma FileTwin(
      h: Hash, p: Pinned, a: seq<Entry>, ma: seq<Member>, fa: Blobs,
      q: Pinned, b: seq<Entry>, mb: seq<Member>, fb: Blobs,
      path: Bytes)
    requires Audited(h, p, a, ma, fa) && Audited(h, q, b, mb, fb) && Separated(h, a, fa, b, fb) && p.tree == q.tree
    requires path in fa
    ensures path in fb && fb[path] == fa[path]
  {
    hide Accepts, Fits, Gathered, Objects, Object, Similar, SameRoot, AcceptsArchive;
    AuditsComparable(h, p, a, ma, fa, q, b, mb, fb);
    assert path in BlobPaths(a);
    var e :| e in a && e.kind == Blob && e.path == path;
    var f := Twin(h, a, b, p.tree, e);
    BlobFound(h, p, a, ma, fa, e);
    BlobFound(h, q, b, mb, fb, f);
    SimilarRelative(e.path, f.path);
    assert BlobObject(fa[path].0) == BlobObject(fb[path].0);
    ObjectUnique(BLOB_TAG, fa[path].0, BLOB_TAG, fb[path].0);
  }

  /**
   * The root determines the files. Two archives accepted for one root tree id,
   * whatever their members and whatever NUL-free paths they list, give the same map
   * from paths to bytes and mode. Leading slashes, modes of directories and kinds
   * need no assumption here.
   */
  lemma RootDeterminesFiles(
      h: Hash, p: Pinned, a: seq<Entry>, ma: seq<Member>, fa: Blobs,
      q: Pinned, b: seq<Entry>, mb: seq<Member>, fb: Blobs)
    requires Audited(h, p, a, ma, fa) && Audited(h, q, b, mb, fb) && Separated(h, a, fa, b, fb) && p.tree == q.tree
    ensures fa == fb
  {
    hide Audited, Separated;
    SeparatedBack(h, a, fa, b, fb);
    forall path | path in fa ensures path in fb && fb[path] == fa[path] {
      FileTwin(h, p, a, ma, fa, q, b, mb, fb, path);
    }
    forall path | path in fb ensures path in fa {
      FileTwin(h, q, b, mb, fb, p, a, ma, fa, path);
    }
  }
}

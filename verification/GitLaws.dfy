/**
 * Members of a downloaded archive by their names, what an accepted one holds, and
 * archives that are accepted (tools/g3_execution_view_audit.py, lines 46 to 47 and
 * 120 to 184).
 */
module GitLaws {
  import opened Prelude
  import opened GitTree
  import opened GitAudit

  // -------------------------------------------------------------------------
  // Paths by their parts
  // -------------------------------------------------------------------------

  /** Names of single places: not empty, not a point, and without a slash. */
  ghost predicate Plain(parts: seq<Bytes>) {
    forall part | part in parts :: part != [] && part != [46] && 47 !in part
  }

  lemma {:induction false} CutAfter(dir: Bytes, name: Bytes)
    requires SLASH !in name
    ensures Cut(dir + [SLASH] + name) == |dir| + 1
    decreases |name|
  {
    var path := dir + [SLASH] + name;
    if name == [] {
      assert path[|path| - 1] == SLASH;
    } else {
      assert path[..|path| - 1] == dir + [SLASH] + name[..|name| - 1];
      CutAfter(dir, name[..|name| - 1]);
    }
  }

  lemma PartsAfter(dir: Bytes, name: Bytes)
    requires dir != [] && SLASH !in name && name != [] && name != [DOT]
    ensures GitTree.Parts(dir + [SLASH] + name) == GitTree.Parts(dir) + [name]
  {
    CutAfter(dir, name);
    var path := dir + [SLASH] + name;
    assert path[..|dir|] == dir && path[|dir| + 1..] == name;
  }

  lemma PartsOne(name: Bytes)
    requires SLASH !in name && name != [] && name != [DOT]
    ensures GitTree.Parts(name) == [name]
  {
    PlainPath(name);
    assert GitTree.Parts([]) == [];
  }

  /** Joining the parts and taking them apart again. */
  lemma {:induction false} PartsOfJoined(parts: seq<Bytes>)
    requires parts != [] && Plain(parts)
    ensures GitTree.Parts(Join(parts)) == parts && Join(parts) != []
    decreases |parts|
  {
    hide GitTree.Parts;
    var init, last := parts[..|parts| - 1], parts[|parts| - 1];
    assert last in parts && forall part | part in init :: part in parts;
    if init == [] {
      PartsOne(last);
    } else {
      PartsOfJoined(init);
      PartsAfter(Join(init), last);
    }
  }

  // -------------------------------------------------------------------------
  // The role of a member
  // -------------------------------------------------------------------------

  ghost predicate EndsIn(s: Bytes, tail: Bytes) {
    exists head: Bytes :: s == head + tail
  }

  lemma EndsExactly(s: Bytes, tail: Bytes)
    ensures EndsWith(s, tail) <==> EndsIn(s, tail)
  {
    if EndsWith(s, tail) {
      assert s == s[..|s| - |tail|] + tail;
    }
    if head: Bytes :| s == head + tail {
      assert s[|s| - |tail|..] == tail;
    }
  }

  /** No part stays where it is or leads up, and none is the repository. */
  ghost predicate Tame(parts: seq<Bytes>) {
    forall part | part in parts :: part != [46, 46] && part != [46, 103, 105, 116]
  }

  /**
   * A member whose name is these parts: the first must end in the commit; alone it
   * must be a directory; a regular file below it is the file of the other parts.
   */
  lemma RoleExactly(m: Member, commit: Bytes, parts: seq<Bytes>)
    requires parts != [] && Plain(parts) && m.name == Join(parts)
    ensures RoleOf(m, commit)
            == if !EndsIn(parts[0], commit) then Refused
               else if |parts| == 1 then (if m.isDir then Skipped else Refused)
               else if !Tame(parts[1..]) then Refused
               else if m.isDir then Skipped
               else if m.isFile then File(Join(parts[1..])) else Refused
  {
    hide Join;
    PartsOfJoined(parts);
    EndsExactly(parts[0], commit);
    forall part | part in parts[1..] ensures part in parts && part != [DOT] {
    }
  }

  // -------------------------------------------------------------------------
  // What an accepted archive holds
  // -------------------------------------------------------------------------

  /**
   * Each file member of an accepted archive is a blob of the listing: its declared
   * size is the number of its bytes, at most ten million, its mode is that of a
   * plain or an executable file, and its bytes hash to the id. All files together
   * hold at most sixty million bytes, and there are between one and two thousand.
   */
  lemma AcceptedMember(h: Hash, p: Pinned, entries: seq<Entry>, members: seq<Member>, i: nat)
    requires AcceptsArchive(h, p, entries, members) && i < |members|
    requires RoleOf(members[i], p.commit).File?
    ensures p.sha == p.commit && p.responseTree == p.tree && !p.truncated
    ensures var m, path := members[i], RoleOf(members[i], p.commit).path;
            && |m.data| == m.size <= 10000000
            && exists e :: e in entries && e.path == path && e.kind == Blob
                           && (e.mode == 33188 || e.mode == 33261) && h(BlobObject(m.data)) == e.id
    ensures Total(members, p.commit) <= 60000000 && 1 <= |BlobPaths(entries)| <= 2000
  {
    hide RoleOf, Accepts, BlobObject, Total;
    assert MemberOk(h, entries, p.commit, members[i]);
    assert BlobAt(entries, RoleOf(members[i], p.commit).path).value in entries;
  }

  const BLOB_HEAD: Bytes := [98, 108, 111, 98, 32]

  /** The object of a file: blob, a space, the length in decimal, NUL, the bytes. */
  lemma BlobBytes(data: Bytes)
    ensures BlobObject(data) == BLOB_HEAD + Digits(|data|, 10) + [0] + data
  {
    hide Digits;
    BlobHead();
  }

  lemma BlobHead()
    ensures BLOB_TAG + [SPACE] == BLOB_HEAD
  {
  }

  /** The length in decimal, for one length of two digits. */
  lemma BlobOfFiftyNine(data: Bytes)
    requires |data| == 59
    ensures BlobObject(data) == BLOB_HEAD + [53, 57] + [0] + data
  {
    hide Digits, BlobObject;
    BlobBytes(data);
    DecimalFiftyNine();
  }

  // -------------------------------------------------------------------------
  // Archives that are accepted
  // -------------------------------------------------------------------------

  /** One file named n below a directory named for the commit. */
  function OneFile(commit: Bytes, data: Bytes): seq<Member> {
    [Member(Join([[114] + commit]), true, false, 0, []),
     Member(Join([[114] + commit, [110]]), false, true, |data|, data)]
  }

  /** For every hash, commit and bytes within the bound, the archive of that one file is accepted. */
  lemma OneFileArchive(h: Hash, commit: Bytes, data: Bytes, mode: nat)
    requires SLASH !in commit && |data| <= 10000000 && mode in {33188, 33261}
    ensures var entries := [Entry([110], Blob, mode, h(BlobObject(data)))];
            var tree := h(Hashed(entries, []));
            AcceptsArchive(h, Pinned(commit, commit, tree, tree, false), entries, OneFile(commit, data))
  {
    hide Accepts, RoleOf, Object, Hashed, BlobObject, Join;
    var e := Entry([110], Blob, mode, h(BlobObject(data)));
    var entries, members := [e], OneFile(commit, data);
    OneFileAccepted(h, mode, e.id);
    OneFileHashed(e, [110], commit);
    OneFileRoles(commit, data);
    assert BlobPaths(entries) == {[110]} by {
      assert e in entries;
    }
    assert Lookup(entries, [110]) == Some(e);
    TwoTotal(members, commit);
    assert RoleOf(members[1], commit) == File([110]);
  }

  lemma OneFileHashed(e: Entry, name: Bytes, commit: Bytes)
    requires e.path == name == [110]
    ensures Hashed([e], []) == Object(TREE_TAG, Row([110], e))
  {
    hide Object, Row;
    OneFilePath(name);
    GitTree.OneFileHashed(e, name);
  }

  lemma OneFileRoles(commit: Bytes, data: Bytes)
    requires SLASH !in commit
    ensures RoleOf(OneFile(commit, data)[0], commit) == Skipped
    ensures RoleOf(OneFile(commit, data)[1], commit) == File([110])
  {
    hide RoleOf, Join, EndsIn;
    var top := [114] + commit;
    assert top[0] == 114;
    assert EndsIn(top, commit) by {
      EndsExactly(top, commit);
      assert top[1..] == commit;
    }
    RoleExactly(OneFile(commit, data)[0], commit, [top]);
    RoleExactly(OneFile(commit, data)[1], commit, [top, [110]]);
    assert [top, [110]][1..] == [[110]];
    OneJoined([110]);
  }

  lemma OneJoined(name: Bytes)
    ensures Join([name]) == name
  {
  }

  lemma TwoTotal(members: seq<Member>, commit: Bytes)
    requires |members| == 2 && RoleOf(members[0], commit) == Skipped
    ensures Total(members, commit) == if RoleOf(members[1], commit).File? then |members[1].data| else 0
  {
    hide RoleOf;
    assert members[..1][..0] == [] && Total([], commit) == 0;
    assert members[..1][0] == members[0];
  }

  /** A listed path of these parts is safe unless one of them leads up or is the repository. */
  lemma SafeExactly(parts: seq<Bytes>)
    requires parts != [] && Plain(parts)
    ensures SafePath(Join(parts)) <==> Tame(parts)
  {
    hide Join;
    PartsOfJoined(parts);
    assert [DOT] !in parts;
  }

  /** A point or an empty place in a path is no part of it, and a path of such places alone is refused. */
  lemma PointsVanish(dir: Bytes, name: Bytes)
    requires dir != [] && (name == [] || name == [46])
    ensures GitTree.Parts(dir + [SLASH] + name) == GitTree.Parts(dir)
    ensures !SafePath([]) && !SafePath([46])
  {
    CutAfter(dir, name);
    var path := dir + [SLASH] + name;
    assert path[..|dir|] == dir && path[|dir| + 1..] == name;
    PlainPath([46]);
    assert GitTree.Parts([]) == [] && GitTree.Parts([46]) == [];
  }
}

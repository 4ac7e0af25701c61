/**
 * The check of a flattened Git tree against its root id
 * (tools/g3_execution_view_audit.py, lines 46 to 93).
 * Names are UTF-8 bytes, ids are their twenty raw bytes, and the hash is any
 * function that has no collision among the objects a listing makes it hash.
 */
module GitTree {
  import opened Prelude

  type Id = s: Bytes | |s| == 20 witness seq(20, _ => 0)

  type Hash = Bytes -> Id

  const SLASH: byte := 47
  const DOT: byte := 46
  const SPACE: byte := 32
  const NUL: byte := 0
  const DIRECTORY_MODE := 16384
  const FILE_MODES := {33188, 33261}

  datatype Kind = Blob | Tree | Submodule

  /** mode is the value of the octal digits. */
  datatype Entry = Entry(path: Bytes, kind: Kind, mode: nat, id: Id)

  // -------------------------------------------------------------------------
  // Object encoding
  // -------------------------------------------------------------------------

  /** The digits of n in base eight or ten. */
  function Digits(n: nat, base: nat): (t: Bytes)
    requires 2 <= base <= 10
    ensures t != [] && forall b | b in t :: 48 <= b <= 57
  {
    if n < base then [48 + n] else Digits(n / base, base) + [48 + n % base]
  }

  /** A row of a tree object: octal mode, space, name, NUL, raw id. */
  function Row(name: Bytes, e: Entry): Bytes {
    Digits(e.mode, 8) + [SPACE] + name + [NUL] + e.id
  }

  datatype Item = Item(name: Bytes, entry: Entry)

  function Content(items: seq<Item>): Bytes {
    if items == [] then [] else Row(items[0].name, items[0].entry) + Content(items[1..])
  }

  const TREE_TAG: Bytes := [116, 114, 101, 101]
  const BLOB_TAG: Bytes := [98, 108, 111, 98]

  /** The bytes Git hashes: a tag, a space, the length in decimal, NUL, the content. */
  function Object(tag: Bytes, content: Bytes): Bytes {
    tag + [SPACE] + Digits(|content|, 10) + [NUL] + content
  }

  // -------------------------------------------------------------------------
  // The encoding can be read back
  // -------------------------------------------------------------------------

  /** How many bytes stand before the first stop byte. */
  function Before(s: Bytes, stop: byte): nat {
    if s == [] || s[0] == stop then 0 else 1 + Before(s[1..], stop)
  }

  lemma {:induction false} BeforeCut(a: Bytes, stop: byte, x: Bytes)
    requires stop !in a
    ensures Before(a + [stop] + x, stop) == |a|
    decreases |a|
  {
    var s := a + [stop] + x;
    if a == [] {
      assert s[0] == stop;
    } else {
      assert s[0] == a[0] && a[0] in a;
      assert s[1..] == a[1..] + [stop] + x;
      BeforeCut(a[1..], stop, x);
    }
  }

  /** Two texts cut at the first stop byte have the same parts. */
  lemma CutUnique(a: Bytes, b: Bytes, stop: byte, x: Bytes, y: Bytes)
    requires stop !in a && stop !in b
    requires a + [stop] + x == b + [stop] + y
    ensures a == b && x == y
  {
    BeforeCut(a, stop, x);
    BeforeCut(b, stop, y);
    var s := a + [stop] + x;
    assert s[..|a|] == a && s[|a| + 1..] == x;
    assert (b + [stop] + y)[..|b|] == b && (b + [stop] + y)[|b| + 1..] == y;
  }

  function ValueOf(t: Bytes, base: nat): int {
    if t == [] then 0 else base * ValueOf(t[..|t| - 1], base) + (t[|t| - 1] as int - 48)
  }

  lemma {:induction false} DigitsValue(n: nat, base: nat)
    requires base == 8 || base == 10
    ensures ValueOf(Digits(n, base), base) == n
    decreases n
  {
    var t := Digits(n, base);
    if n < base {
      assert t[..|t| - 1] == [];
    } else {
      DigitsValue(n / base, base);
      assert t[..|t| - 1] == Digits(n / base, base);
      if base == 8 { } else { }
    }
  }

  lemma DigitsUnique(m: nat, n: nat, base: nat)
    requires (base == 8 || base == 10) && Digits(m, base) == Digits(n, base)
    ensures m == n
  {
    DigitsValue(m, base);
    DigitsValue(n, base);
  }

  lemma TailUnique(p: Bytes, q: Bytes, x: Bytes, y: Bytes)
    requires |p| == |q| && p + x == q + y
    ensures p == q && x == y
  {
    assert (p + x)[..|p|] == p && (q + y)[..|q|] == q;
    assert (p + x)[|p|..] == x && (q + y)[|q|..] == y;
  }

  lemma RowUnique(a: Bytes, e: Entry, x: Bytes, b: Bytes, f: Entry, y: Bytes)
    requires NUL !in a && NUL !in b
    requires Row(a, e) + x == Row(b, f) + y
    ensures a == b && e.mode == f.mode && e.id == f.id && x == y
  {
    hide Digits;
    var m, n := Digits(e.mode, 8), Digits(f.mode, 8);
    assert m + [SPACE] + (a + [NUL] + (e.id + x)) == Row(a, e) + x;
    assert n + [SPACE] + (b + [NUL] + (f.id + y)) == Row(b, f) + y;
    CutUnique(m, n, SPACE, a + [NUL] + (e.id + x), b + [NUL] + (f.id + y));
    CutUnique(a, b, NUL, e.id + x, f.id + y);
    TailUnique(e.id, f.id, x, y);
    DigitsUnique(e.mode, f.mode, 8);
  }

  ghost predicate Nameable(items: seq<Item>) {
    forall i | 0 <= i < |items| :: NUL !in items[i].name
  }

  /** Equal contents are equal lists of names, modes and ids. */
  lemma {:induction false} ContentUnique(xs: seq<Item>, ys: seq<Item>)
    requires Nameable(xs) && Nameable(ys) && Content(xs) == Content(ys)
    ensures |xs| == |ys|
    ensures forall i | 0 <= i < |xs| ::
              xs[i].name == ys[i].name && xs[i].entry.mode == ys[i].entry.mode && xs[i].entry.id == ys[i].entry.id
    decreases |xs|
  {
    hide Row;
    if xs == [] || ys == [] {
      ContentEmpty(xs);
      ContentEmpty(ys);
    } else {
      assert Content(xs) == Row(xs[0].name, xs[0].entry) + Content(xs[1..]);
      assert Content(ys) == Row(ys[0].name, ys[0].entry) + Content(ys[1..]);
      RowUnique(xs[0].name, xs[0].entry, Content(xs[1..]), ys[0].name, ys[0].entry, Content(ys[1..]));
      ContentUnique(xs[1..], ys[1..]);
      forall i | 0 < i < |xs|
        ensures xs[i].name == ys[i].name && xs[i].entry.mode == ys[i].entry.mode && xs[i].entry.id == ys[i].entry.id
      {
        assert xs[i] == xs[1..][i - 1] && ys[i] == ys[1..][i - 1];
      }
    }
  }

  lemma ContentEmpty(items: seq<Item>)
    ensures Content(items) == [] <==> items == []
  {
    hide Digits;
  }

  /** Equal objects have equal tags and contents. */
  lemma ObjectUnique(a: Bytes, x: Bytes, b: Bytes, y: Bytes)
    requires a in {TREE_TAG, BLOB_TAG} && b in {TREE_TAG, BLOB_TAG}
    requires Object(a, x) == Object(b, y)
    ensures a == b && x == y
  {
    hide Digits;
    var m, n := Digits(|x|, 10), Digits(|y|, 10);
    assert Object(a, x) == a + [SPACE] + (m + [NUL] + x);
    assert Object(b, y) == b + [SPACE] + (n + [NUL] + y);
    CutUnique(a, b, SPACE, m + [NUL] + x, n + [NUL] + y);
    CutUnique(m, n, NUL, x, y);
  }

  // -------------------------------------------------------------------------
  // Paths
  // -------------------------------------------------------------------------

  /** How many bytes stand up to and including the last slash. */
  function Cut(path: Bytes): (n: nat)
    ensures n <= |path|
    ensures SLASH !in path[n..]
    ensures n > 0 ==> path[n - 1] == SLASH
  {
    if path == [] || path[|path| - 1] == SLASH then |path|
    else
      var n := Cut(path[..|path| - 1]);
      assert path[n..] == path[..|path| - 1][n..] + [path[|path| - 1]];
      n
  }

  function ParentOf(path: Bytes): (d: Bytes)
    ensures path != [] ==> |d| < |path|
  {
    if Cut(path) == 0 then [] else path[..Cut(path) - 1]
  }

  function NameOf(path: Bytes): Bytes {
    path[Cut(path)..]
  }

  lemma Rebuild(path: Bytes)
    ensures path == if Cut(path) == 0 then NameOf(path) else ParentOf(path) + [SLASH] + NameOf(path)
  {
  }

  /** The parts pathlib sees: empty and single-dot parts vanish, a leading root is a part of its own. */
  function Parts(path: Bytes): seq<Bytes>
    decreases |path|
  {
    if path == [] then []
    else
      Parts(ParentOf(path))
      + (if Cut(path) == 1 then [[SLASH]] else [])
      + (if NameOf(path) == [] || NameOf(path) == [DOT] then [] else [NameOf(path)])
  }

  const DOT_GIT: Bytes := [46, 103, 105, 116]

  /** The checks of one path (lines 56 to 60). */
  predicate SafePath(path: Bytes) {
    Parts(path) != [] && [DOT, DOT] !in Parts(path) && [DOT] !in Parts(path) && DOT_GIT !in Parts(path)
  }

  // -------------------------------------------------------------------------
  // A listing
  // -------------------------------------------------------------------------

  function Lookup(entries: seq<Entry>, path: Bytes): (e: Option<Entry>)
    ensures e.Some? ==> e.value in entries && e.value.path == path
    ensures e.None? ==> forall i | 0 <= i < |entries| :: entries[i].path != path
  {
    if entries == [] then None
    else if entries[0].path == path then Some(entries[0])
    else Lookup(entries[1..], path)
  }

  ghost predicate Distinct(entries: seq<Entry>) {
    forall i, j | 0 <= i < j < |entries| :: entries[i].path != entries[j].path
  }

  /** The id of a directory: the root's, or that of the tree entry at its path. */
  function DirectoryId(entries: seq<Entry>, root: Id, d: Bytes): Option<Id> {
    if Lookup(entries, d).Some? && Lookup(entries, d).value.kind == Tree then Some(Lookup(entries, d).value.id)
    else if d == [] then Some(root)
    else None
  }

  function Children(entries: seq<Entry>, d: Bytes): seq<Item> {
    if entries == [] then []
    else
      var last := entries[|entries| - 1];
      Children(entries[..|entries| - 1], d) + if ParentOf(last.path) == d then [Item(NameOf(last.path), last)] else []
  }

  predicate Less(a: Bytes, b: Bytes) {
    b != [] && (a == [] || a[0] < b[0] || (a[0] == b[0] && Less(a[1..], b[1..])))
  }

  /** Git orders a directory as if its name ended in a slash. */
  function Key(item: Item): Bytes {
    item.name + if item.entry.kind == Tree then [SLASH] else []
  }

  function Insert(items: seq<Item>, item: Item): seq<Item> {
    if items == [] || !Less(Key(item), Key(items[|items| - 1])) then items + [item]
    else Insert(items[..|items| - 1], item) + [items[|items| - 1]]
  }

  /** The stable sort by key. */
  function Sorted(items: seq<Item>): seq<Item> {
    if items == [] then [] else Insert(Sorted(items[..|items| - 1]), items[|items| - 1])
  }

  function Hashed(entries: seq<Entry>, d: Bytes): Bytes {
    Object(TREE_TAG, Content(Sorted(Children(entries, d))))
  }

  predicate Readable(e: Entry) {
    SafePath(e.path) && e.kind != Submodule
  }

  /** The content of the directory hashes to its id. */
  predicate HashOk(h: Hash, entries: seq<Entry>, root: Id, d: Bytes) {
    DirectoryId(entries, root, d).Some? ==> DirectoryId(entries, root, d) == Some(h(Hashed(entries, d)))
  }

  /** verify_git_tree accepts the listing for the root. */
  ghost predicate Accepts(h: Hash, entries: seq<Entry>, root: Id) {
    && (forall i | 0 <= i < |entries| :: Readable(entries[i]))
    && Distinct(entries)
    && (forall i | 0 <= i < |entries| :: DirectoryId(entries, root, ParentOf(entries[i].path)).Some?)
    && HashOk(h, entries, root, [])
    && (forall i | 0 <= i < |entries| && entries[i].kind == Tree :: HashOk(h, entries, root, entries[i].path))
  }

  // -------------------------------------------------------------------------
  // Sorting
  // -------------------------------------------------------------------------

  lemma {:induction false} InsertMembers(items: seq<Item>, item: Item, x: Item)
    ensures x in Insert(items, item) <==> x in items || x == item
    decreases |items|
  {
    hide Less;
    if items != [] {
      var init, last := items[..|items| - 1], items[|items| - 1];
      assert items == init + [last];
      InsertMembers(init, item, x);
    }
  }

  lemma {:induction false} SortedMembers(items: seq<Item>, x: Item)
    ensures x in Sorted(items) <==> x in items
    decreases |items|
  {
    if items != [] {
      var init, last := items[..|items| - 1], items[|items| - 1];
      assert items == init + [last];
      SortedMembers(init, x);
      InsertMembers(Sorted(init), last, x);
    }
  }

  lemma {:induction false} ChildrenMembers(entries: seq<Entry>, d: Bytes, x: Item)
    ensures x in Children(entries, d)
            <==> x.entry in entries && ParentOf(x.entry.path) == d && x.name == NameOf(x.entry.path)
    decreases |entries|
  {
    hide ParentOf, NameOf;
    if entries != [] {
      var init, last := entries[..|entries| - 1], entries[|entries| - 1];
      assert entries == init + [last];
      ChildrenMembers(init, d, x);
    }
  }

  // -------------------------------------------------------------------------
  // The order of the rows
  // -------------------------------------------------------------------------

  /** a comes before b in the order of bytes: at the first difference, or as a proper beginning. */
  ghost predicate BytesBefore(a: Bytes, b: Bytes) {
    exists k: nat :: DiffersAt(a, b, k)
  }

  ghost predicate DiffersAt(a: Bytes, b: Bytes, k: nat) {
    k <= |a| && k < |b| && (forall i | 0 <= i < k :: a[i] == b[i]) && (k == |a| || a[k] < b[k])
  }

  /** The bytes Git orders a row by: the name, and a slash after the name of a directory. */
  function OrderBytes(item: Item): Bytes {
    if item.entry.kind == Tree then item.name + [47] else item.name
  }

  lemma {:induction false} LessExactly(a: Bytes, b: Bytes)
    ensures Less(a, b) <==> BytesBefore(a, b)
    decreases |a|
  {
    if b != [] {
      if a == [] || a[0] < b[0] {
        assert DiffersAt(a, b, 0);
      } else if a[0] == b[0] {
        LessExactly(a[1..], b[1..]);
        if k: nat :| DiffersAt(a[1..], b[1..], k) {
          assert forall i | 1 <= i < k + 1 :: a[i] == a[1..][i - 1] && b[i] == b[1..][i - 1];
          assert DiffersAt(a, b, k + 1);
        }
        if k: nat :| DiffersAt(a, b, k) {
          assert k > 0;
          assert DiffersAt(a[1..], b[1..], k - 1);
        }
      }
    }
  }

  lemma {:induction false} LessAsymmetric(a: Bytes, b: Bytes)
    requires Less(a, b)
    ensures !Less(b, a)
    decreases |a|
  {
    if a != [] && a[0] == b[0] {
      LessAsymmetric(a[1..], b[1..]);
    }
  }

  lemma {:induction false} NotLessTransitive(a: Bytes, b: Bytes, c: Bytes)
    requires !Less(b, a) && !Less(c, b)
    ensures !Less(c, a)
    decreases |a|
  {
    if a != [] && b != [] && c != [] && a[0] == b[0] == c[0] {
      NotLessTransitive(a[1..], b[1..], c[1..]);
    }
  }

  ghost predicate Ordered(items: seq<Item>) {
    forall i, j | 0 <= i < j < |items| :: !Less(Key(items[j]), Key(items[i]))
  }

  lemma {:induction false} InsertOrdered(items: seq<Item>, item: Item)
    requires Ordered(items)
    ensures Ordered(Insert(items, item))
    ensures multiset(Insert(items, item)) == multiset(items) + multiset{item}
    decreases |items|
  {
    hide Less, Key;
    if items != [] {
      var init, last := items[..|items| - 1], items[|items| - 1];
      assert items == init + [last];
      if Less(Key(item), Key(last)) {
        InsertOrdered(init, item);
        LessAsymmetric(Key(item), Key(last));
        InsertLast(init, item, last);
      } else {
        forall i | 0 <= i < |items| ensures !Less(Key(item), Key(items[i])) {
          if i < |items| - 1 {
            NotLessTransitive(Key(items[i]), Key(last), Key(item));
          }
        }
      }
    }
  }

  lemma InsertLast(init: seq<Item>, item: Item, last: Item)
    requires Ordered(Insert(init, item)) && !Less(Key(last), Key(item))
    requires forall i | 0 <= i < |init| :: !Less(Key(last), Key(init[i]))
    ensures Ordered(Insert(init, item) + [last])
  {
    hide Less, Key, Insert;
    var all := Insert(init, item);
    forall i | 0 <= i < |all| ensures !Less(Key(last), Key(all[i])) {
      InsertMembers(init, item, all[i]);
    }
  }

  lemma {:induction false} SortedOrdered(items: seq<Item>)
    ensures Ordered(Sorted(items)) && multiset(Sorted(items)) == multiset(items)
    decreases |items|
  {
    hide Insert, Less, Key;
    if items != [] {
      var init, last := items[..|items| - 1], items[|items| - 1];
      assert items == init + [last];
      SortedOrdered(init);
      InsertOrdered(Sorted(init), last);
    }
  }

  /** Git's order: the rows are those of the directory, and none comes before an earlier one in the order of bytes. */
  lemma RowsInGitOrder(items: seq<Item>)
    ensures multiset(Sorted(items)) == multiset(items)
    ensures forall i, j | 0 <= i < j < |Sorted(items)| ::
              !BytesBefore(OrderBytes(Sorted(items)[j]), OrderBytes(Sorted(items)[i]))
  {
    hide Insert, Less, Key, Sorted;
    SortedOrdered(items);
    var rows := Sorted(items);
    forall i, j | 0 <= i < j < |rows| ensures !BytesBefore(OrderBytes(rows[j]), OrderBytes(rows[i])) {
      KeyBytes(rows[i]);
      KeyBytes(rows[j]);
      LessExactly(OrderBytes(rows[j]), OrderBytes(rows[i]));
    }
  }

  lemma KeyBytes(item: Item)
    ensures Key(item) == OrderBytes(item)
  {
    assert item.name + [] == item.name;
  }

  /** The items of one name and kind, in order. */
  function Alike(items: seq<Item>, name: Bytes, kind: Kind): seq<Item> {
    if items == [] then []
    else
      var last := items[|items| - 1];
      Alike(items[..|items| - 1], name, kind)
      + if last.name == name && last.entry.kind == kind then [last] else []
  }

  lemma AlikeSnoc(items: seq<Item>, item: Item, name: Bytes, kind: Kind)
    ensures Alike(items + [item], name, kind)
            == Alike(items, name, kind) + if item.name == name && item.entry.kind == kind then [item] else []
  {
    assert (items + [item])[..|items|] == items;
  }

  lemma {:induction false} InsertAlike(items: seq<Item>, item: Item, name: Bytes, kind: Kind)
    ensures Alike(Insert(items, item), name, kind) == Alike(items + [item], name, kind)
    decreases |items|
  {
    hide Less, Key, Alike;
    AlikeSnoc(items, item, name, kind);
    if items != [] && Less(Key(item), Key(items[|items| - 1])) {
      var init, last := items[..|items| - 1], items[|items| - 1];
      assert items == init + [last];
      InsertAlike(init, item, name, kind);
      AlikeSnoc(init, last, name, kind);
      AlikeSnoc(init, item, name, kind);
      AlikeSnoc(Insert(init, item), last, name, kind);
      NeverBoth(item, last);
    }
  }

  lemma NeverBoth(a: Item, b: Item)
    requires Less(Key(a), Key(b))
    ensures a.name != b.name || a.entry.kind != b.entry.kind
  {
    LessAsymmetric(Key(a), Key(b));
  }

  /** The sort is stable: rows of one name and kind stay in the order of the listing. */
  lemma {:induction false} RowsStable(items: seq<Item>, name: Bytes, kind: Kind)
    ensures Alike(Sorted(items), name, kind) == Alike(items, name, kind)
    decreases |items|
  {
    hide Insert;
    if items != [] {
      var init, last := items[..|items| - 1], items[|items| - 1];
      RowsStable(init, name, kind);
      InsertAlike(Sorted(init), last, name, kind);
      assert (Sorted(init) + [last])[..|Sorted(init)|] == Sorted(init);
    }
  }

  /** A directory a and a file a.b: the bytes of the tree object that Git hashes. */
  lemma GenuineTree(dir: Id, file: Id)
    ensures var entries := [Entry([97], Tree, 16384, dir), Entry([97, 46, 98], Blob, 33188, file)];
            Hashed(entries, [])
            == [116, 114, 101, 101, 32, 53, 57, 0]
               + ([49, 48, 48, 54, 52, 52, 32, 97, 46, 98, 0] + file)
               + ([52, 48, 48, 48, 48, 32, 97, 0] + dir)
  {
    hide Less, Digits, ParentOf, NameOf;
    var a, b := Entry([97], Tree, 16384, dir), Entry([97, 46, 98], Blob, 33188, file);
    var x, y := Item([97], a), Item([97, 46, 98], b);
    ChildrenOfTwo(a, b);
    SortsFileFirst(x, y);
    RowBytes(a, b);
    var rows := [y, x];
    assert rows[1..] == [x] && [x][1..] == [];
    assert Content([x]) == Row(x.name, a) + Content([]);
    assert Content(rows) == Row(y.name, b) + Content([x]);
    var content := Content(rows);
    assert content == ([49, 48, 48, 54, 52, 52, 32, 97, 46, 98, 0] + file) + ([52, 48, 48, 48, 48, 32, 97, 0] + dir);
    assert |content| == 59;
    DecimalFiftyNine();
  }

  lemma ChildrenOfTwo(a: Entry, b: Entry)
    requires a.path == [97] && b.path == [97, 46, 98]
    ensures Children([a, b], []) == [Item([97], a), Item([97, 46, 98], b)]
  {
    PlainPath([97]);
    PlainPath([97, 46, 98]);
    assert [a, b][..1] == [a] && [a][..0] == [];
    assert Children([], []) == [];
    assert Children([a], []) == [Item([97], a)];
  }

  lemma {:induction false} PlainPath(path: Bytes)
    requires SLASH !in path
    ensures Cut(path) == 0 && ParentOf(path) == [] && NameOf(path) == path
    decreases |path|
  {
    if path != [] {
      PlainPath(path[..|path| - 1]);
    }
  }

  lemma SortsFileFirst(x: Item, y: Item)
    requires x.name == [97] && x.entry.kind == Tree && y.name == [97, 46, 98] && y.entry.kind == Blob
    ensures Sorted([x, y]) == [y, x]
  {
    hide Less, Key, Sorted;
    assert DiffersAt(OrderBytes(y), OrderBytes(x), 1);
    LessExactly(OrderBytes(y), OrderBytes(x));
    KeyBytes(x);
    KeyBytes(y);
    SortsTwo(x, y);
  }

  lemma SortsTwo(x: Item, y: Item)
    requires Less(Key(y), Key(x))
    ensures Sorted([x, y]) == [y, x]
  {
    hide Less, Key;
    assert [x, y][..1] == [x] && [x][..0] == [];
    assert Sorted([]) == [] && Sorted([x]) == [x];
    assert Insert([x], y) == Insert([], y) + [x];
  }

  lemma RowBytes(a: Entry, b: Entry)
    requires a.mode == 16384 && b.mode == 33188
    ensures Row([97], a) == [52, 48, 48, 48, 48, 32, 97, 0] + a.id
    ensures Row([97, 46, 98], b) == [49, 48, 48, 54, 52, 52, 32, 97, 46, 98, 0] + b.id
  {
    OctalModes();
    hide Digits;
  }

  lemma OctalModes()
    ensures Digits(16384, 8) == [52, 48, 48, 48, 48]
    ensures Digits(33188, 8) == [49, 48, 48, 54, 52, 52]
  {
    assert Digits(4, 8) == [52] && Digits(32, 8) == [52, 48] && Digits(256, 8) == [52, 48, 48];
    assert Digits(2048, 8) == [52, 48, 48, 48];
    assert Digits(1, 8) == [49] && Digits(8, 8) == [49, 48] && Digits(64, 8) == [49, 48, 48];
    assert Digits(518, 8) == [49, 48, 48, 54] && Digits(4148, 8) == [49, 48, 48, 54, 52];
  }

  lemma DecimalFiftyNine()
    ensures Digits(59, 10) == [53, 57]
  {
    assert Digits(5, 10) == [53];
  }

  // -------------------------------------------------------------------------
  // Two accepted listings of one root
  // -------------------------------------------------------------------------

  /** No two of these objects have the same hash. */
  ghost predicate Separates(h: Hash, objects: set<Bytes>) {
    forall x, y | x in objects && y in objects && h(x) == h(y) :: x == y
  }

  function Directories(entries: seq<Entry>): set<Bytes> {
    {[]} + (set e | e in entries && e.kind == Tree :: e.path)
  }

  /** The tree objects a listing makes the check hash. */
  function Objects(entries: seq<Entry>): set<Bytes> {
    set d | d in Directories(entries) :: Hashed(entries, d)
  }

  ghost predicate NoNul(entries: seq<Entry>) {
    forall e | e in entries :: NUL !in e.path
  }

  ghost predicate KindsAgree(a: seq<Entry>, b: seq<Entry>) {
    forall e, f | e in a && f in b && e.mode == f.mode && e.id == f.id :: e.kind == f.kind
  }

  ghost predicate SameRoot(h: Hash, a: seq<Entry>, b: seq<Entry>, root: Id) {
    && Accepts(h, a, root) && Accepts(h, b, root)
    && NoNul(a) && NoNul(b) && KindsAgree(a, b)
    && Separates(h, Objects(a) + Objects(b))
  }

  lemma DirectoryHash(h: Hash, entries: seq<Entry>, root: Id, d: Bytes)
    requires Accepts(h, entries, root) && DirectoryId(entries, root, d).Some?
    ensures DirectoryId(entries, root, d) == Some(h(Hashed(entries, d)))
    ensures Hashed(entries, d) in Objects(entries)
  {
    hide Hashed, SafePath, ParentOf;
    if Lookup(entries, d).Some? && Lookup(entries, d).value.kind == Tree {
      var e := Lookup(entries, d).value;
      var i :| 0 <= i < |entries| && entries[i] == e;
      assert d in Directories(entries);
    } else {
      assert d in Directories(entries);
    }
  }

  lemma ItemsNameable(entries: seq<Entry>, d: Bytes)
    requires NoNul(entries)
    ensures Nameable(Sorted(Children(entries, d)))
  {
    hide ParentOf, Sorted, Children;
    var items := Sorted(Children(entries, d));
    forall i | 0 <= i < |items| ensures NUL !in items[i].name {
      SortedMembers(Children(entries, d), items[i]);
      ChildrenMembers(entries, d, items[i]);
    }
  }

  /** A child of a directory has a twin in the other listing's directory of the same id. */
  lemma ChildTwin(h: Hash, a: seq<Entry>, b: seq<Entry>, root: Id, d: Bytes, d': Bytes, e: Entry) returns (f: Entry)
    requires SameRoot(h, a, b, root)
    requires DirectoryId(a, root, d).Some? && DirectoryId(a, root, d) == DirectoryId(b, root, d')
    requires e in a && ParentOf(e.path) == d
    ensures f in b && ParentOf(f.path) == d' && NameOf(f.path) == NameOf(e.path)
    ensures f.mode == e.mode && f.id == e.id && f.kind == e.kind
  {
    hide ParentOf, NameOf, Accepts, Sorted, Children, Content, Objects, Object;
    DirectoryHash(h, a, root, d);
    DirectoryHash(h, b, root, d');
    var xs, ys := Sorted(Children(a, d)), Sorted(Children(b, d'));
    ObjectUnique(TREE_TAG, Content(xs), TREE_TAG, Content(ys));
    ItemsNameable(a, d);
    ItemsNameable(b, d');
    ContentUnique(xs, ys);
    var item := Item(NameOf(e.path), e);
    ChildrenMembers(a, d, item);
    SortedMembers(Children(a, d), item);
    var i :| 0 <= i < |xs| && xs[i] == item;
    SortedMembers(Children(b, d'), ys[i]);
    ChildrenMembers(b, d', ys[i]);
    f := ys[i].entry;
  }

  function Strip(path: Bytes): Bytes {
    if path != [] && path[0] == SLASH then path[1..] else path
  }

  /** Equal but for one leading slash. */
  ghost predicate Similar(p: Bytes, q: Bytes) {
    p == q || (p != [] && q != [] && Strip(p) == Strip(q))
  }

  lemma SimilarChildren(p: Bytes, q: Bytes)
    requires Similar(ParentOf(p), ParentOf(q)) && NameOf(p) == NameOf(q) && p != [] && q != []
    ensures Similar(p, q)
  {
    hide ParentOf, NameOf, Cut;
    SplitPath(p);
    SplitPath(q);
    var d, e, name := ParentOf(p), ParentOf(q), NameOf(p);
    if d != [] && e != [] {
      StripJoin(d, name);
      StripJoin(e, name);
    } else {
      assert d == [] && e == [];
      StripTop(p, name);
      StripTop(q, name);
    }
  }

  lemma SplitPath(p: Bytes)
    ensures SLASH !in NameOf(p)
    ensures if ParentOf(p) == [] then p == NameOf(p) || p == [SLASH] + NameOf(p)
            else p == ParentOf(p) + [SLASH] + NameOf(p)
  {
    Rebuild(p);
  }

  lemma StripJoin(d: Bytes, name: Bytes)
    requires d != []
    ensures Strip(d + [SLASH] + name) == Strip(d) + [SLASH] + name
  {
    assert (d + [SLASH] + name)[1..] == d[1..] + [SLASH] + name;
  }

  lemma StripTop(p: Bytes, name: Bytes)
    requires (p == name || p == [SLASH] + name) && SLASH !in name
    ensures Strip(p) == name
  {
  }

  lemma EntryPath(h: Hash, entries: seq<Entry>, root: Id, e: Entry)
    requires Accepts(h, entries, root) && e in entries
    ensures e.path != [] && DirectoryId(entries, root, ParentOf(e.path)).Some?
    ensures Lookup(entries, e.path) == Some(e)
    ensures |ParentOf(e.path)| < |e.path|
  {
    hide HashOk, DirectoryId;
    var i :| 0 <= i < |entries| && entries[i] == e;
    assert Readable(entries[i]);
    var f := Lookup(entries, e.path);
    var j :| 0 <= j < |entries| && entries[j] == f.value;
  }

  /** Every entry of one listing has a twin in the other, at the same path but for a leading slash. */
  lemma {:induction false} Twin(h: Hash, a: seq<Entry>, b: seq<Entry>, root: Id, e: Entry) returns (f: Entry)
    requires SameRoot(h, a, b, root) && e in a
    ensures f in b && Similar(e.path, f.path) && f.mode == e.mode && f.id == e.id && f.kind == e.kind
    decreases |e.path|
  {
    hide Accepts, ParentOf, NameOf, Similar, Separates, Objects, KindsAgree;
    EntryPath(h, a, root, e);
    var d := ParentOf(e.path);
    var d' := d;
    if Lookup(a, d).Some? && Lookup(a, d).value.kind == Tree {
      var g := Twin(h, a, b, root, Lookup(a, d).value);
      EntryPath(h, b, root, g);
      d' := g.path;
    } else {
      RootOnly(h, b, root);
      SimilarSelf(d);
    }
    f := ChildTwin(h, a, b, root, d, d', e);
    EntryPath(h, b, root, f);
    SimilarChildren(e.path, f.path);
  }

  lemma RootOnly(h: Hash, entries: seq<Entry>, root: Id)
    requires Accepts(h, entries, root)
    ensures DirectoryId(entries, root, []) == Some(root)
  {
    if Lookup(entries, []).Some? {
      EntryPath(h, entries, root, Lookup(entries, []).value);
    }
  }

  lemma SimilarSelf(p: Bytes)
    ensures Similar(p, p)
  {
  }

  ghost predicate Relative(entries: seq<Entry>) {
    forall e | e in entries :: !([SLASH] <= e.path)
  }

  lemma SimilarRelative(p: Bytes, q: Bytes)
    requires Similar(p, q) && !([SLASH] <= p) && !([SLASH] <= q)
    ensures p == q
  {
  }

  lemma LookupTwin(h: Hash, a: seq<Entry>, b: seq<Entry>, root: Id, path: Bytes)
    requires SameRoot(h, a, b, root) && Relative(a) && Relative(b) && Lookup(a, path).Some?
    ensures Lookup(b, path) == Lookup(a, path)
  {
    hide Accepts, Similar, Separates, Objects, KindsAgree;
    var e := Lookup(a, path).value;
    var f := Twin(h, a, b, root, e);
    SimilarRelative(e.path, f.path);
    EntryPath(h, b, root, f);
  }

  /**
   * Merkle determinism. Two listings of relative paths accepted for one root id
   * denote the same map from paths to kind, mode and id: the root determines it.
   */
  lemma RootDetermines(h: Hash, a: seq<Entry>, b: seq<Entry>, root: Id)
    requires SameRoot(h, a, b, root) && Relative(a) && Relative(b)
    ensures forall path :: Lookup(a, path) == Lookup(b, path)
  {
    hide Accepts, Separates, Objects, KindsAgree;
    SameRootBack(h, a, b, root);
    forall path ensures Lookup(a, path) == Lookup(b, path) {
      if Lookup(a, path).Some? {
        LookupTwin(h, a, b, root, path);
      } else if Lookup(b, path).Some? {
        LookupTwin(h, b, a, root, path);
      }
    }
  }

  lemma SameRootBack(h: Hash, a: seq<Entry>, b: seq<Entry>, root: Id)
    requires SameRoot(h, a, b, root)
    ensures SameRoot(h, b, a, root)
  {
    hide Accepts, Hashed;
    assert Objects(a) + Objects(b) == Objects(b) + Objects(a);
  }

  /** Kinds agree when a tree is exactly what has the directory mode. */
  lemma ModesGiveKinds(a: seq<Entry>, b: seq<Entry>)
    requires forall e | e in a || e in b :: e.kind != Submodule && (e.kind == Tree <==> e.mode == DIRECTORY_MODE)
    ensures KindsAgree(a, b)
  {
  }

  // -------------------------------------------------------------------------
  // A leading slash is an alias
  // -------------------------------------------------------------------------

  /** The path with a slash before it; the root directory stays as it is. */
  function Slash(path: Bytes): (p: Bytes)
    ensures p == [] <==> path == []
  {
    if path == [] then [] else [SLASH] + path
  }

  function SlashEntry(e: Entry): Entry {
    e.(path := Slash(e.path))
  }

  function Slashed(entries: seq<Entry>): (r: seq<Entry>)
    ensures |r| == |entries| && forall i | 0 <= i < |entries| :: r[i] == SlashEntry(entries[i])
  {
    seq(|entries|, i requires 0 <= i < |entries| => SlashEntry(entries[i]))
  }

  function SlashItem(item: Item): Item {
    item.(entry := SlashEntry(item.entry))
  }

  function SlashItems(items: seq<Item>): (r: seq<Item>)
    ensures |r| == |items| && forall i | 0 <= i < |items| :: r[i] == SlashItem(items[i])
  {
    seq(|items|, i requires 0 <= i < |items| => SlashItem(items[i]))
  }

  lemma SlashInjective(p: Bytes, q: Bytes)
    ensures Slash(p) == Slash(q) <==> p == q
  {
    if p != [] && q != [] {
      TailUniqueAt(p, q);
    }
  }

  lemma TailUniqueAt(p: Bytes, q: Bytes)
    ensures [SLASH] + p == [SLASH] + q <==> p == q
  {
    assert ([SLASH] + p)[1..] == p && ([SLASH] + q)[1..] == q;
  }

  lemma {:induction false} SlashCut(path: Bytes)
    ensures Cut([SLASH] + path) == Cut(path) + 1
    decreases |path|
  {
    var p := [SLASH] + path;
    if path == [] {
      assert p[|p| - 1] == SLASH;
    } else if path[|path| - 1] != SLASH {
      assert p[..|p| - 1] == [SLASH] + path[..|path| - 1];
      SlashCut(path[..|path| - 1]);
    }
  }

  /** A slash before a relative path moves its parent the same way and leaves its name. */
  lemma SlashPath(path: Bytes)
    requires path != [] && !([SLASH] <= path)
    ensures ParentOf(Slash(path)) == Slash(ParentOf(path)) && NameOf(Slash(path)) == NameOf(path)
    ensures !([SLASH] <= ParentOf(path)) && Cut(path) != 1
  {
    hide Cut;
    SlashCut(path);
    var n := Cut(path);
    DropShift(path, n);
    if n > 0 {
      TakeShift(path, n - 1);
      assert path[n - 1] == SLASH;
      assert path[0] != SLASH;
    }
  }

  lemma DropShift(path: Bytes, n: nat)
    requires n <= |path|
    ensures ([SLASH] + path)[n + 1..] == path[n..]
  {
  }

  lemma TakeShift(path: Bytes, n: nat)
    requires n <= |path|
    ensures ([SLASH] + path)[..n + 1] == [SLASH] + path[..n]
  {
  }

  lemma {:induction false} SlashParts(path: Bytes)
    requires path != [] && !([SLASH] <= path)
    ensures Parts(Slash(path)) == [[SLASH]] + Parts(path)
    decreases |path|
  {
    hide ParentOf, NameOf, Cut;
    SlashPath(path);
    SlashCut(path);
    if ParentOf(path) != [] {
      SlashParts(ParentOf(path));
    }
    TopCut(path);
  }

  lemma TopCut(path: Bytes)
    ensures ParentOf(path) == [] <==> Cut(path) <= 1
  {
  }

  lemma SlashSafe(path: Bytes)
    requires SafePath(path) && !([SLASH] <= path)
    ensures SafePath(Slash(path))
  {
    assert path != [];
    SlashParts(path);
    var parts := [[SLASH]] + Parts(path);
    forall part | part in parts ensures part == [SLASH] || part in Parts(path) {
    }
  }

  lemma {:induction false} SlashLookup(entries: seq<Entry>, path: Bytes)
    ensures var e := Lookup(entries, path);
            Lookup(Slashed(entries), Slash(path)) == if e.Some? then Some(SlashEntry(e.value)) else None
    decreases |entries|
  {
    if entries != [] {
      SlashInjective(entries[0].path, path);
      assert Slashed(entries)[1..] == Slashed(entries[1..]);
      SlashLookup(entries[1..], path);
    }
  }

  lemma SlashDirectory(entries: seq<Entry>, root: Id, d: Bytes)
    ensures DirectoryId(Slashed(entries), root, Slash(d)) == DirectoryId(entries, root, d)
  {
    hide Lookup, Slashed;
    SlashLookup(entries, d);
  }

  lemma {:induction false} SlashChildren(entries: seq<Entry>, d: Bytes)
    requires Relative(entries) && forall e | e in entries :: e.path != []
    ensures Children(Slashed(entries), Slash(d)) == SlashItems(Children(entries, d))
    decreases |entries|
  {
    hide ParentOf, NameOf, Slash;
    if entries != [] {
      var init, last := entries[..|entries| - 1], entries[|entries| - 1];
      assert Slashed(entries)[..|entries| - 1] == Slashed(init);
      assert last in entries;
      SlashChildren(init, d);
      SlashPath(last.path);
      SlashInjective(ParentOf(last.path), d);
    }
  }

  lemma {:induction false} SlashInsert(items: seq<Item>, item: Item)
    ensures Insert(SlashItems(items), SlashItem(item)) == SlashItems(Insert(items, item))
    decreases |items|
  {
    hide Less;
    if items != [] {
      var init := items[..|items| - 1];
      assert SlashItems(items)[..|items| - 1] == SlashItems(init);
      SlashInsert(init, item);
    }
  }

  lemma {:induction false} SlashSorted(items: seq<Item>)
    ensures Sorted(SlashItems(items)) == SlashItems(Sorted(items))
    decreases |items|
  {
    hide Insert;
    if items != [] {
      var init := items[..|items| - 1];
      assert SlashItems(items)[..|items| - 1] == SlashItems(init);
      SlashSorted(init);
      SlashInsert(Sorted(init), items[|items| - 1]);
    }
  }

  lemma {:induction false} SlashContent(items: seq<Item>)
    ensures Content(SlashItems(items)) == Content(items)
    decreases |items|
  {
    if items != [] {
      assert SlashItems(items)[1..] == SlashItems(items[1..]);
      SlashContent(items[1..]);
    }
  }

  /** The bytes hashed for a directory name no path. */
  lemma SlashHashed(entries: seq<Entry>, d: Bytes)
    requires Relative(entries) && forall e | e in entries :: e.path != []
    ensures Hashed(Slashed(entries), Slash(d)) == Hashed(entries, d)
  {
    hide Children, Sorted, Content, Object, Slashed;
    SlashChildren(entries, d);
    SlashSorted(Children(entries, d));
    SlashContent(Sorted(Children(entries, d)));
  }

  lemma SlashHash(h: Hash, entries: seq<Entry>, root: Id, d: Bytes)
    requires Relative(entries) && (forall e | e in entries :: e.path != []) && HashOk(h, entries, root, d)
    ensures HashOk(h, Slashed(entries), root, Slash(d))
  {
    hide Hashed, DirectoryId, Slashed, Slash;
    SlashDirectory(entries, root, d);
    SlashHashed(entries, d);
  }

  lemma AcceptedPaths(h: Hash, entries: seq<Entry>, root: Id)
    requires Accepts(h, entries, root)
    ensures forall e | e in entries :: e.path != []
  {
    hide Accepts;
    forall e | e in entries ensures e.path != [] {
      EntryPath(h, entries, root, e);
    }
  }

  lemma SlashAccepted(h: Hash, entries: seq<Entry>, root: Id)
    requires Accepts(h, entries, root) && Relative(entries)
    ensures Accepts(h, Slashed(entries), root)
  {
    hide SafePath, HashOk, DirectoryId, ParentOf, Slash;
    AcceptedPaths(h, entries, root);
    var all := Slashed(entries);
    forall i | 0 <= i < |entries|
      ensures Readable(all[i]) && DirectoryId(all, root, ParentOf(all[i].path)).Some?
      ensures all[i].kind == Tree ==> HashOk(h, all, root, all[i].path)
    {
      assert Readable(entries[i]) && entries[i] in entries;
      SlashSafe(entries[i].path);
      SlashPath(entries[i].path);
      SlashDirectory(entries, root, ParentOf(entries[i].path));
      if entries[i].kind == Tree {
        SlashHash(h, entries, root, entries[i].path);
      }
    }
    forall i, j | 0 <= i < j < |entries| ensures all[i].path != all[j].path {
      SlashInjective(entries[i].path, entries[j].path);
    }
    SlashHash(h, entries, root, []);
    assert Slash([]) == [];
  }

  /**
   * A leading slash in the listed paths is an alias: every nonempty listing of
   * relative paths that is accepted for a root has a companion accepted for the
   * same root, with the same kinds, modes and ids, in which none of its paths occurs.
   */
  lemma LeadingSlashAlias(h: Hash, entries: seq<Entry>, root: Id)
    requires Accepts(h, entries, root) && Relative(entries) && entries != []
    ensures Accepts(h, Slashed(entries), root)
    ensures forall path | Lookup(entries, path).Some? ::
              && Lookup(Slashed(entries), path).None?
              && Lookup(Slashed(entries), [SLASH] + path) == Some(Lookup(entries, path).value.(path := [SLASH] + path))
    ensures Lookup(entries, entries[0].path).Some?
  {
    hide Accepts, Lookup;
    SlashAccepted(h, entries, root);
    AcceptedPaths(h, entries, root);
    EntryPath(h, entries, root, entries[0]);
    forall path | Lookup(entries, path).Some?
      ensures Lookup(Slashed(entries), path).None?
      ensures Lookup(Slashed(entries), [SLASH] + path) == Some(Lookup(entries, path).value.(path := [SLASH] + path))
    {
      assert Lookup(entries, path).value in entries;
      SlashLookup(entries, path);
    }
  }

  /**
   * So relative paths are exactly what the root needs to determine a listing: of
   * the listings accepted for the root of a relative one, those that denote the
   * same map are the relative ones.
   */
  lemma RelativeExactly(h: Hash, a: seq<Entry>, b: seq<Entry>, root: Id)
    requires SameRoot(h, a, b, root) && Relative(a)
    ensures (forall path :: Lookup(a, path) == Lookup(b, path)) <==> Relative(b)
  {
    hide Accepts, Separates, Objects, KindsAgree, Lookup;
    if Relative(b) {
      RootDetermines(h, a, b, root);
    } else {
      var f :| f in b && [SLASH] <= f.path;
      SameRootBack(h, a, b, root);
      EntryPath(h, b, root, f);
      LookupRelative(a, f.path);
    }
  }

  lemma LookupRelative(entries: seq<Entry>, path: Bytes)
    requires Relative(entries) && [SLASH] <= path
    ensures Lookup(entries, path).None?
  {
  }

  // -------------------------------------------------------------------------
  // A listing of one file
  // -------------------------------------------------------------------------

  lemma OneChild(e: Entry)
    requires ParentOf(e.path) == []
    ensures Children([e], []) == [Item(NameOf(e.path), e)]
  {
    hide ParentOf, NameOf;
    assert [e][..0] == [] && Children([], []) == [];
  }

  lemma OneSorted(item: Item)
    ensures Sorted([item]) == [item]
  {
    hide Less;
    assert [item][..0] == [] && Sorted([]) == [];
  }

  lemma OneContent(item: Item)
    ensures Content([item]) == Row(item.name, item.entry)
  {
    hide Row;
    assert [item][1..] == [] && Content([]) == [];
  }

  lemma OneFileHashed(e: Entry, name: Bytes)
    requires ParentOf(e.path) == [] && NameOf(e.path) == name
    ensures Hashed([e], []) == Object(TREE_TAG, Row(name, e))
  {
    hide Object, Row, ParentOf, NameOf, Children, Sorted, Content;
    OneChild(e);
    OneSorted(Item(name, e));
    OneContent(Item(name, e));
  }

  /** For every hash a listing of one file is accepted for the root it hashes to. */
  lemma OneFileAccepted(h: Hash, mode: nat, id: Id)
    ensures var e := Entry([110], Blob, mode, id);
            Accepts(h, [e], h(Object(TREE_TAG, Row([110], e)))) && Relative([e])
  {
    hide Object, Row, Hashed, SafePath, ParentOf, NameOf;
    var e := Entry([110], Blob, mode, id);
    OneFilePath(e.path);
    OneFileHashed(e, e.path);
    assert e.path[0] != SLASH;
    assert Lookup([e], []) == None;
  }

  lemma OneFilePath(path: Bytes)
    requires path == [110]
    ensures ParentOf(path) == [] && NameOf(path) == path && SafePath(path)
  {
    assert path[..0] == [] && Cut([]) == 0 && Cut(path) == 0;
    assert Parts([]) == [];
    assert Parts(path) == [path];
  }
}

/**
 * The byte formats the inventory reads, each by a writer and what is read back
 * from it: the archive cookie and table entries, big-endian, and the end record
 * and directory records of a wheel, little-endian (tools/sbom_archive.py, lines
 * 31 to 33, 171 to 212 and 245 to 331; sections 4.3.12 and 4.3.16 of PKWARE
 * APPNOTE.TXT).
 */
module BundleLaws {
  import opened Prelude
  import opened BundleArchive
  import InstallArchive
  import WheelDirectory

  // -------------------------------------------------------------------------
  // Numbers
  // -------------------------------------------------------------------------

  const WORD := 0x1_0000_0000
  const HALF := 0x1_0000

  /** Four bytes, the most significant first. */
  function Big(n: nat): (b: Bytes)
    requires n < WORD
    ensures |b| == 4
  {
    [n / 0x100_0000, n / 0x1_0000 % 256, n / 256 % 256, n % 256]
  }

  /** Two bytes, the least significant first. */
  function Little(n: nat): (b: Bytes)
    requires n < HALF
    ensures |b| == 2
  {
    [n % 256, n / 256]
  }

  /** Four bytes, the least significant first. */
  function LittleWord(n: nat): (b: Bytes)
    requires n < WORD
    ensures |b| == 4
  {
    Little(n % HALF) + Little(n / HALF)
  }

  /** The bytes stand in the file at a place. */
  predicate StandsAt(file: Bytes, at: nat, b: Bytes) {
    at + |b| <= |file| && file[at..at + |b|] == b
  }

  lemma HeadStands(file: Bytes, at: nat, a: Bytes, rest: Bytes)
    requires StandsAt(file, at, a + rest)
    ensures StandsAt(file, at, a) && StandsAt(file, at + |a|, rest)
  {
    var whole := file[at..at + |a + rest|];
    assert whole[..|a|] == a && whole[|a|..] == rest;
    assert file[at..at + |a|] == whole[..|a|];
    assert file[at + |a|..at + |a| + |rest|] == whole[|a|..];
  }

  lemma BigReads(file: Bytes, at: nat, n: nat)
    requires n < WORD && StandsAt(file, at, Big(n))
    ensures U32(file, at) == n
  {
    var b := file[at..at + 4];
    assert b[0] == file[at] && b[1] == file[at + 1] && b[2] == file[at + 2] && b[3] == file[at + 3];
    var x, y := n / 256, n / 0x1_0000;
    assert n == 256 * x + n % 256;
    assert x / 256 == y && y / 256 == n / 0x100_0000;
  }

  lemma LittleReads(file: Bytes, at: nat, n: nat)
    requires n < HALF && StandsAt(file, at, Little(n))
    ensures L16(file, at) == n
  {
    var b := file[at..at + 2];
    assert b[0] == file[at] && b[1] == file[at + 1];
  }

  lemma LittleWordReads(file: Bytes, at: nat, n: nat)
    requires n < WORD && StandsAt(file, at, LittleWord(n))
    ensures L32(file, at) == n
  {
    hide L16, Little;
    WordHalves(n);
    HeadStands(file, at, Little(n % HALF), Little(n / HALF));
    LittleReads(file, at, n % HALF);
    LittleReads(file, at + 2, n / HALF);
  }

  lemma WordHalves(n: nat)
    requires n < WORD
    ensures LittleWord(n) == Little(n % HALF) + Little(n / HALF)
  {
  }

  // -------------------------------------------------------------------------
  // The cookie
  // -------------------------------------------------------------------------

  function Nuls(n: nat): (b: Bytes)
    ensures |b| == n && forall i | 0 <= i < n :: b[i] == 0
  {
    seq(n, _ => 0)
  }

  /** A text in ASCII without NUL. */
  predicate Plain(t: string) {
    forall c | c in t :: 0 < c as int < 128
  }

  function CodeOf(t: string, i: nat): byte
    requires Plain(t) && i < |t|
  {
    assert t[i] in t;
    t[i] as nat
  }

  function Codes(t: string): (b: Bytes)
    requires Plain(t)
    ensures |b| == |t| && forall i | 0 <= i < |t| :: b[i] == t[i] as nat
  {
    seq(|t|, i requires 0 <= i < |t| => CodeOf(t, i))
  }

  lemma {:induction false} CodesRead(t: string)
    requires Plain(t)
    ensures Ascii(Codes(t)) == Some(t)
    decreases |t|
  {
    if t != "" {
      assert forall c | c in t[1..] :: c in t;
      assert t[0] in t && Codes(t)[0] as char == t[0];
      CodesRead(t[1..]);
      assert t == [t[0]] + t[1..];
      assert Codes(t)[1..] == Codes(t[1..]);
    }
  }

  lemma {:induction false} NulEnds(b: Bytes, n: nat)
    requires 0 !in b
    ensures UntilNul(b + Nuls(n)) == b
    decreases |b|
  {
    if b == [] {
      assert b + Nuls(n) == Nuls(n);
    } else {
      assert (b + Nuls(n))[1..] == b[1..] + Nuls(n);
      assert b[0] in b && forall x | x in b[1..] :: x in b;
      NulEnds(b[1..], n);
    }
  }

  predicate Writable(length: nat, tocAt: nat, tocSize: nat, python: nat, library: string) {
    length < WORD && tocAt < WORD && tocSize < WORD && python < WORD && Plain(library) && |library| <= 64
  }

  /** The 88 bytes of a cookie: the magic, four numbers, and the library name filled up with NULs. */
  function CookieBytes(length: nat, tocAt: nat, tocSize: nat, python: nat, library: string): (b: Bytes)
    requires Writable(length, tocAt, tocSize, python, library)
    ensures |b| == 88
  {
    [77, 69, 73, 12, 11, 10, 11, 14]
    + (Big(length) + (Big(tocAt) + (Big(tocSize) + (Big(python) + (Codes(library) + Nuls(64 - |library|))))))
  }

  lemma CookieFields(file: Bytes, at: nat, length: nat, tocAt: nat, tocSize: nat, python: nat, library: string)
    requires Writable(length, tocAt, tocSize, python, library)
    requires StandsAt(file, at, CookieBytes(length, tocAt, tocSize, python, library))
    ensures U32(file, at + 8) == length && U32(file, at + 12) == tocAt
    ensures U32(file, at + 16) == tocSize && U32(file, at + 20) == python
    ensures StandsAt(file, at, MAGIC)
    ensures Ascii(UntilNul(file[at + 24..at + 88])) == Some(library)
  {
    hide U32, Big, Codes, StandsAt;
    var a, b, c, d := Big(length), Big(tocAt), Big(tocSize), Big(python);
    var rest := Codes(library) + Nuls(64 - |library|);
    HeadStands(file, at, MAGIC, a + (b + (c + (d + rest))));
    HeadStands(file, at + 8, a, b + (c + (d + rest)));
    HeadStands(file, at + 12, b, c + (d + rest));
    HeadStands(file, at + 16, c, d + rest);
    HeadStands(file, at + 20, d, rest);
    BigReads(file, at + 8, length);
    BigReads(file, at + 12, tocAt);
    BigReads(file, at + 16, tocSize);
    BigReads(file, at + 20, python);
    Standing(file, at + 24, rest);
    LibraryReads(library);
  }

  lemma Standing(file: Bytes, at: nat, b: Bytes)
    requires StandsAt(file, at, b)
    ensures at + |b| <= |file| && file[at..at + |b|] == b
  {
  }

  lemma LibraryReads(library: string)
    requires Plain(library) && |library| <= 64
    ensures Ascii(UntilNul(Codes(library) + Nuls(64 - |library|))) == Some(library)
  {
    forall x | x in Codes(library) ensures x != 0 {
      var i :| 0 <= i < |library| && Codes(library)[i] == x;
      assert library[i] in library;
    }
    NulEnds(Codes(library), 64 - |library|);
    CodesRead(library);
  }

  /** What is read at a written cookie: its own fields, unless a bound or the name is wrong. */
  lemma CookieReads(file: Bytes, at: nat, length: nat, tocAt: nat, tocSize: nat, python: nat, library: string)
    requires Writable(length, tocAt, tocSize, python, library)
    requires StandsAt(file, at, CookieBytes(length, tocAt, tocSize, python, library))
    ensures ReadCookie(file, at)
            == if length <= at + 88 && tocSize <= 8388608 && tocAt + tocSize + 88 == length
                  && SafeName(library, |library|)
               then Some(Cookie(at + 88 - length, tocAt, tocSize, python, at, library)) else None
  {
    hide U32, SafeName, Ascii, UntilNul;
    CookieFields(file, at, length, tocAt, tocSize, python, library);
  }

  // -------------------------------------------------------------------------
  // A table entry
  // -------------------------------------------------------------------------

  /** The bytes of an entry: its length, place, sizes, flag and kind, its name, and at least one NUL. */
  function EntryBytes(e: TocEntry, name: Bytes, fill: nat): Bytes
    requires e.length < WORD && e.at < WORD && e.size < WORD && e.unpacked < WORD && e.compressed < 256 && e.kind < 256
  {
    Big(e.length) + (Big(e.at) + (Big(e.size) + (Big(e.unpacked)
    + ([e.compressed] + ([e.kind] + (name + Nuls(fill)))))))
  }

  lemma EntryFields(toc: Bytes, e: TocEntry, name: Bytes, fill: nat)
    requires e.length < WORD && e.at < WORD && e.size < WORD && e.unpacked < WORD && e.compressed < 256 && e.kind < 256
    requires StandsAt(toc, e.start, EntryBytes(e, name, fill))
    ensures U32(toc, e.start) == e.length && U32(toc, e.start + 4) == e.at
    ensures U32(toc, e.start + 8) == e.size && U32(toc, e.start + 12) == e.unpacked
    ensures toc[e.start + 16] == e.compressed && toc[e.start + 17] == e.kind
    ensures StandsAt(toc, e.start + 18, name + Nuls(fill))
  {
    hide U32, Big, Nuls, StandsAt;
    var a, b, c, d := Big(e.length), Big(e.at), Big(e.size), Big(e.unpacked);
    var f, k, rest, at := [e.compressed], [e.kind], name + Nuls(fill), e.start;
    HeadStands(toc, at, a, b + (c + (d + (f + (k + rest)))));
    HeadStands(toc, at + 4, b, c + (d + (f + (k + rest))));
    HeadStands(toc, at + 8, c, d + (f + (k + rest)));
    HeadStands(toc, at + 12, d, f + (k + rest));
    HeadStands(toc, at + 16, f, k + rest);
    HeadStands(toc, at + 17, k, rest);
    BigReads(toc, at, e.length);
    BigReads(toc, at + 4, e.at);
    BigReads(toc, at + 8, e.size);
    BigReads(toc, at + 12, e.unpacked);
    Standing(toc, at + 16, f);
    Standing(toc, at + 17, k);
    assert toc[at + 16..at + 17][0] == toc[at + 16] && toc[at + 17..at + 18][0] == toc[at + 17];
  }

  /** A written entry is read back, with the name its bytes decode to. */
  lemma EntryReads(x: Reader, toc: Bytes, e: TocEntry, name: Bytes, fill: nat)
    requires e.length < WORD && e.at < WORD && e.size < WORD && e.unpacked < WORD && e.compressed < 256 && e.kind < 256
    requires 0 !in name && fill > 0 && e.length == 18 + |name| + fill && e.encoded == |name|
    requires StandsAt(toc, e.start, EntryBytes(e, name, fill))
    ensures EntryAt(x, toc, e.start) == if x.decode(name) == Some(e.name) then Some(e)
                                        else if x.decode(name).None? then None
                                        else Some(e.(name := x.decode(name).value))
  {
    hide U32;
    EntryFields(toc, e, name, fill);
    var raw := toc[e.start + 18..e.start + e.length];
    assert raw == name + Nuls(fill);
    NulEnds(name, fill);
    assert raw[|name|] == 0;
  }

  /** A name without a NUL, or with anything but NULs after it, is refused. */
  lemma BadNamesRefused(x: Reader, toc: Bytes, at: nat, length: nat)
    requires length < WORD && StandsAt(toc, at, Big(length)) && at + length <= |toc| && length > 18
    requires var raw := toc[at + 18..at + length];
             0 !in raw || exists i, j :: 0 <= i < j < |raw| && raw[i] == 0 && raw[j] != 0
    ensures EntryAt(x, toc, at).None?
  {
    hide U32;
    BigReads(toc, at, length);
    var raw := toc[at + 18..at + length];
    FirstNul(raw);
    if 0 in raw {
      var i, j :| 0 <= i < j < |raw| && raw[i] == 0 && raw[j] != 0;
      assert |UntilNul(raw)| <= i;
    }
    assert !BundleArchive.Padded(raw, |UntilNul(raw)|);
  }

  lemma {:induction false} FirstNul(raw: Bytes)
    ensures |UntilNul(raw)| <= |raw| && forall i | 0 <= i < |UntilNul(raw)| :: raw[i] != 0
    decreases |raw|
  {
    if raw != [] && raw[0] != 0 {
      FirstNul(raw[1..]);
      forall i | 0 <= i < |UntilNul(raw)| ensures raw[i] != 0 {
        if i > 0 { assert raw[1..][i - 1] == raw[i]; }
      }
    }
  }

  /** A file with one of the three names of metadata, at any depth. */
  lemma RetainedExactly(name: string)
    requires InstallArchive.Parts(name) != []
    ensures Retained(name) <==>
              var parts := InstallArchive.Parts(name);
              var last := parts[|parts| - 1];
              last == "METADATA" || last == "PKG-INFO" || last == "mos-runtime.json"
  {
  }

  /** What an entry of a payload must be: its kind is one of seven letters and its bytes lie below the table. */
  lemma PayloadEntryExactly(x: Reader, e: TocEntry)
    requires e.kind != 111
    ensures EntryOk(x, e) <==>
              && SafeName(e.name, e.encoded)
              && e.kind in {'b' as nat, 'x' as nat, 'z' as nat, 'Z' as nat, 'm' as nat, 'M' as nat, 's' as nat}
              && (e.compressed == 0 || e.compressed == 1)
              && e.at + e.size <= x.cookie.tocAt && e.size <= 134217728 && e.unpacked <= 134217728
              && (Retained(e.name) ==> e.unpacked <= 524288)
              && (e.compressed == 0 ==> e.size == e.unpacked)
              && (e.compressed == 1 ==> x.unpacks(PayloadOf(x, e), e.unpacked))
  {
    hide SafeName, Retained, PayloadOf;
  }

  /** A runtime option takes no payload. */
  lemma OptionEntryExactly(x: Reader, e: TocEntry)
    requires e.kind == 'o' as nat
    ensures EntryOk(x, e) <==> e.size == 0 && e.unpacked == 0 && e.compressed == 0 && |e.name| <= 1024
  {
  }

  // -------------------------------------------------------------------------
  // The end record and the directory records of a wheel
  // -------------------------------------------------------------------------

  /** The 22 bytes of an end record on one disk: counts, size and offset of the directory, length of the comment. */
  function EndBytes(local: nat, count: nat, size: nat, offset: nat, comment: nat): (b: Bytes)
    requires local < HALF && count < HALF && size < WORD && offset < WORD && comment < HALF
    ensures |b| == 22
  {
    [80, 75, 5, 6]
    + (Little(0) + (Little(0) + (Little(local) + (Little(count)
                    + (LittleWord(size) + (LittleWord(offset) + Little(comment)))))))
  }

  lemma EndFields(tail: Bytes, at: nat, local: nat, count: nat, size: nat, offset: nat, comment: nat)
    requires local < HALF && count < HALF && size < WORD && offset < WORD && comment < HALF
    requires StandsAt(tail, at, EndBytes(local, count, size, offset, comment))
    ensures StandsAt(tail, at, WheelDirectory.END_MARK)
    ensures L16(tail, at + 4) == 0 && L16(tail, at + 6) == 0
    ensures L16(tail, at + 8) == local && L16(tail, at + 10) == count
    ensures L32(tail, at + 12) == size && L32(tail, at + 16) == offset && L16(tail, at + 20) == comment
  {
    hide L16, L32, Little, LittleWord, StandsAt;
    var z, l, c, n := Little(0), Little(local), Little(count), Little(comment);
    var s, o := LittleWord(size), LittleWord(offset);
    HeadStands(tail, at, WheelDirectory.END_MARK, z + (z + (l + (c + (s + (o + n))))));
    HeadStands(tail, at + 4, z, z + (l + (c + (s + (o + n)))));
    HeadStands(tail, at + 6, z, l + (c + (s + (o + n))));
    HeadStands(tail, at + 8, l, c + (s + (o + n)));
    HeadStands(tail, at + 10, c, s + (o + n));
    HeadStands(tail, at + 12, s, o + n);
    HeadStands(tail, at + 16, o, n);
    LittleReads(tail, at + 4, 0);
    LittleReads(tail, at + 6, 0);
    LittleReads(tail, at + 8, local);
    LittleReads(tail, at + 10, count);
    LittleWordReads(tail, at + 12, size);
    LittleWordReads(tail, at + 16, offset);
    LittleReads(tail, at + 20, comment);
  }

  /** What is read at a written end record: its directory, if the fields agree with one another and with the file. */
  lemma EndReads(file: Bytes, at: nat, local: nat, count: nat, size: nat, offset: nat, comment: nat)
    requires local < HALF && count < HALF && size < WORD && offset < WORD && comment < HALF
    requires StandsAt(WheelDirectory.TailOf(file), at, EndBytes(local, count, size, offset, comment))
    ensures var tail := WheelDirectory.TailOf(file);
            WheelDirectory.ReadEnd(file, at)
            == if local == count && count <= 20000 && size <= 8388608
                  && offset + size == |file| - |tail| + at && at + 22 + comment == |tail|
               then Some(WheelDirectory.End(count, size, offset)) else None
  {
    hide L16, L32, WheelDirectory.TailOf;
    EndFields(WheelDirectory.TailOf(file), at, local, count, size, offset, comment);
  }

  /** The tail is the last 65557 bytes: an end record and the longest comment. */
  lemma TailExactly(file: Bytes)
    ensures |WheelDirectory.TailOf(file)| == if |file| < 22 + 65535 then |file| else 22 + 65535
    ensures file[|file| - |WheelDirectory.TailOf(file)|..] == WheelDirectory.TailOf(file)
  {
  }

  /** A directory record of 46 bytes whose three lengths are these takes them all. */
  lemma RecordReads(directory: Bytes, at: nat, name: nat, extra: nat, note: nat)
    requires at + 46 <= |directory| && name < HALF && extra < HALF && note < HALF
    requires StandsAt(directory, at, [80, 75, 1, 2])
    requires StandsAt(directory, at + 28, Little(name)) && StandsAt(directory, at + 30, Little(extra))
    requires StandsAt(directory, at + 32, Little(note))
    ensures WheelDirectory.RecordLength(directory, at) == Some(46 + name + extra + note)
  {
    hide L16, Little;
    LittleReads(directory, at + 28, name);
    LittleReads(directory, at + 30, extra);
    LittleReads(directory, at + 32, note);
  }

  /** Where no directory record stands: too short, or without its mark. */
  lemma NoRecord(directory: Bytes, at: nat)
    ensures WheelDirectory.RecordLength(directory, at).None?
            <==> at + 46 > |directory| || !StandsAt(directory, at, [80, 75, 1, 2])
  {
    hide L16;
  }

  // -------------------------------------------------------------------------
  // A whole table
  // -------------------------------------------------------------------------

  /** The sum of a measure over the entries that are no runtime options. */
  function SumOf(es: seq<TocEntry>, f: TocEntry -> nat): nat {
    if es == [] then 0
    else SumOf(es[..|es| - 1], f) + if es[|es| - 1].kind == 111 then 0 else f(es[|es| - 1])
  }

  lemma {:induction false} SumsExactly(es: seq<TocEntry>)
    ensures Unpacked(es) == SumOf(es, (e: TocEntry) => e.unpacked)
    ensures Kept(es) == SumOf(es, (e: TocEntry) => if Retained(e.name) then e.unpacked else 0)
    decreases |es|
  {
    hide Retained;
    if es != [] {
      SumsExactly(es[..|es| - 1]);
    }
  }

  /** Two payloads do not overlap, or one of them is empty or a runtime option. */
  predicate Separate(a: TocEntry, b: TocEntry) {
    a.kind == 111 || b.kind == 111 || a.size == 0 || b.size == 0 || a.at + a.size <= b.at || b.at + b.size <= a.at
  }

  lemma {:induction false} FromExactly(es: seq<TocEntry>, e: TocEntry)
    requires e.kind != 111 && e.size > 0
    ensures ApartFrom(SpansOf(es), Span(e.at, e.at + e.size))
            <==> forall i | 0 <= i < |es| :: Separate(es[i], e)
    decreases |es|
  {
    if es != [] {
      var init, last := es[..|es| - 1], es[|es| - 1];
      FromExactly(init, e);
      if last.kind != 111 && last.size > 0 {
        FromSnoc(SpansOf(init), Span(last.at, last.at + last.size), Span(e.at, e.at + e.size));
      }
      assert forall i | 0 <= i < |init| :: init[i] == es[i];
    }
  }

  ghost predicate AllSeparate(es: seq<TocEntry>) {
    forall i, j | 0 <= i < j < |es| :: Separate(es[i], es[j])
  }

  ghost predicate SeparateFrom(es: seq<TocEntry>, e: TocEntry) {
    forall i | 0 <= i < |es| :: Separate(es[i], e)
  }

  lemma SeparateSnoc(es: seq<TocEntry>)
    requires es != []
    ensures AllSeparate(es) <==> AllSeparate(es[..|es| - 1]) && SeparateFrom(es[..|es| - 1], es[|es| - 1])
  {
    hide Separate;
    var init := es[..|es| - 1];
    assert forall i | 0 <= i < |init| :: init[i] == es[i];
  }

  /** The intervals that are compared are exactly those of the payloads. */
  lemma {:induction false} ApartExactly(es: seq<TocEntry>)
    ensures AllApart(SpansOf(es)) <==> AllSeparate(es)
    decreases |es|
  {
    hide Separate, AllSeparate, AllApart, ApartFrom;
    if es == [] {
      NoSpans();
      NoEntries();
    } else {
      var init, last := es[..|es| - 1], es[|es| - 1];
      ApartExactly(init);
      SeparateSnoc(es);
      if last.kind != 111 && last.size > 0 {
        FromExactly(init, last);
        assert SpansOf(es) == SpansOf(init) + [Span(last.at, last.at + last.size)];
        ApartSnoc(SpansOf(init), Span(last.at, last.at + last.size));
      } else {
        assert SpansOf(es) == SpansOf(init);
        forall i | 0 <= i < |init| ensures Separate(init[i], last) {
          EmptySeparate(init[i], last);
        }
        assert SeparateFrom(init, last);
      }
    }
  }

  lemma NoEntries()
    ensures AllSeparate([])
  {
  }

  lemma EmptySeparate(a: TocEntry, b: TocEntry)
    requires b.kind == 111 || b.size == 0
    ensures Separate(a, b)
  {
  }

  /**
   * A table is accepted exactly if it parses to its end into at most twenty
   * thousand entries, each of which passes, payloads have different names and do
   * not overlap, and their sizes together stay within two bounds.
   */
  lemma AcceptedExactly(x: Reader, es: seq<TocEntry>)
    ensures Accepted(x, es) <==>
              && ParseFrom(x, Toc(x), 0) == Some(es)
              && |es| <= 20000
              && (forall i | 0 <= i < |es| :: EntryOk(x, es[i]))
              && (forall i, j | 0 <= i < j < |es| && es[i].kind != 111 && es[j].kind != 111 :: es[i].name != es[j].name)
              && SumOf(es, (e: TocEntry) => e.unpacked) <= 2147483648
              && SumOf(es, (e: TocEntry) => if Retained(e.name) then e.unpacked else 0) <= 16777216
              && forall i, j | 0 <= i < j < |es| :: Separate(es[i], es[j])
  {
    hide ParseFrom, EntryOk, Retained, Unpacked, Kept, SumOf, SpansOf, AllApart, Separate;
    SumsExactly(es);
    ApartExactly(es);
  }
}

/**
 * The layout checks of the release inventory (tools/sbom_archive.py): the backward
 * search for the archive cookie, its bounds, the table of contents with its
 * payload intervals, and the central directory of a wheel.
 */
module BundleArchive {
  import opened Prelude
  import InstallArchive

  const MAGIC: Bytes := [77, 69, 73, 12, 11, 10, 11, 14]
  const BLOCK := 8192
  const COOKIE_SIZE := 88
  const ENTRY_SIZE := 18
  const MAX_TOC := 8 * 1024 * 1024
  const MAX_FILES := 20000
  const MAX_MEMBER := 128 * 1024 * 1024
  const MAX_EXPANDED := 2 * 1024 * 1024 * 1024
  const MAX_RETAINED := 16 * 1024 * 1024
  const MAX_METADATA := 512 * 1024

  function U32(b: Bytes, i: nat): nat
    requires i + 4 <= |b|
  {
    (((b[i] as int) * 256 + b[i + 1] as int) * 256 + b[i + 2] as int) * 256 + b[i + 3] as int
  }

  function L16(b: Bytes, i: nat): nat
    requires i + 2 <= |b|
  {
    b[i] as int + 256 * (b[i + 1] as int)
  }

  function L32(b: Bytes, i: nat): nat
    requires i + 4 <= |b|
  {
    L16(b, i) + 65536 * L16(b, i + 2)
  }

  // -------------------------------------------------------------------------
  // The backward search (lines 245 to 271)
  // -------------------------------------------------------------------------

  predicate OccursAt(s: Bytes, mark: Bytes, i: nat) {
    i + |mark| <= |s| && s[i..i + |mark|] == mark
  }

  /** i is the last place where the mark occurs. */
  ghost predicate LastAt(s: Bytes, mark: Bytes, i: nat) {
    OccursAt(s, mark, i) && forall k: nat | OccursAt(s, mark, k) :: k <= i
  }

  ghost predicate Nowhere(s: Bytes, mark: Bytes) {
    forall k: nat :: !OccursAt(s, mark, k)
  }

  /** bytes.rfind. */
  method FindLast(s: Bytes, mark: Bytes) returns (r: Option<nat>)
    ensures r.Some? ==> LastAt(s, mark, r.value)
    ensures r.None? ==> Nowhere(s, mark)
  {
    var i: nat := |s|;
    while true
      invariant i <= |s|
      invariant forall k: nat | OccursAt(s, mark, k) :: k <= i
      decreases i
    {
      if OccursAt(s, mark, i) {
        return Some(i);
      }
      if i == 0 {
        return None;
      }
      i := i - 1;
    }
  }

  lemma BlockOccurs(s: Bytes, start: nat, end: nat, mark: Bytes, k: nat)
    requires start <= end <= |s|
    ensures OccursAt(s[start..end], mark, k) <==> start + k + |mark| <= end && OccursAt(s, mark, start + k)
  {
    if start + k + |mark| <= end {
      var inner, outer := s[start..end][k..k + |mark|], s[start + k..start + k + |mark|];
      assert forall j | 0 <= j < |mark| :: inner[j] == outer[j];
    }
  }

  /** Nothing is lost between blocks: what is not in the block ends before the next block does. */
  lemma NextBlock(s: Bytes, start: nat, end: nat, mark: Bytes)
    requires start <= end <= |s| && |mark| > 0
    requires forall k: nat | OccursAt(s, mark, k) :: k + |mark| <= end
    requires Nowhere(s[start..end], mark)
    ensures forall k: nat | OccursAt(s, mark, k) :: k < start
  {
    forall k: nat | k >= start && k + |mark| <= end ensures !OccursAt(s, mark, k) {
      BlockOccurs(s, start, end, mark, k - start);
    }
  }

  lemma FoundInBlock(s: Bytes, start: nat, end: nat, mark: Bytes, found: nat)
    requires start <= end <= |s|
    requires forall k: nat | OccursAt(s, mark, k) :: k + |mark| <= end
    requires LastAt(s[start..end], mark, found)
    ensures LastAt(s, mark, start + found)
  {
    BlockOccurs(s, start, end, mark, found);
    forall k: nat | OccursAt(s, mark, k) && k >= start ensures k <= start + found {
      BlockOccurs(s, start, end, mark, k - start);
      assert OccursAt(s[start..end], mark, k - start);
    }
  }

  /**
   * The scan by blocks of 8192 bytes that overlap by seven. It terminates and
   * finds exactly the last occurrence of the magic in the whole file.
   */
  method FindCookie(file: Bytes) returns (r: Option<nat>)
    ensures r.Some? ==> LastAt(file, MAGIC, r.value)
    ensures r.None? ==> Nowhere(file, MAGIC)
  {
    hide OccursAt, LastAt, Nowhere;
    assert |MAGIC| == 8;
    var end: nat := |file|;
    MarkFits(file, MAGIC);
    while end >= |MAGIC|
      invariant end <= |file|
      invariant forall k: nat | OccursAt(file, MAGIC, k) :: k + |MAGIC| <= end
      decreases end
    {
      var start: nat := if end > BLOCK then end - BLOCK else 0;
      var found := FindLast(file[start..end], MAGIC);
      if found.Some? {
        FoundInBlock(file, start, end, MAGIC, found.value);
        return Some(start + found.value);
      }
      NextBlock(file, start, end, MAGIC);
      end := start + |MAGIC| - 1;
    }
    NothingLeft(file, MAGIC, end);
    return None;
  }

  lemma MarkFits(s: Bytes, mark: Bytes)
    ensures forall k: nat | OccursAt(s, mark, k) :: k + |mark| <= |s|
  {
  }

  lemma NothingLeft(s: Bytes, mark: Bytes, end: nat)
    requires end < |mark|
    requires forall k: nat | OccursAt(s, mark, k) :: k + |mark| <= end
    ensures Nowhere(s, mark)
  {
  }

  // -------------------------------------------------------------------------
  // The cookie
  // -------------------------------------------------------------------------

  /** A name the inventory admits (lines 50 to 63); encoded is its length in bytes. */
  predicate SafeName(name: string, encoded: nat) {
    var parts := InstallArchive.Parts(name);
    && name != "" && parts != [] && encoded <= 4096
    && InstallArchive.Join(parts) == name && !("/" <= name)
    && ".." !in parts && '\\' !in name
    && forall c | c in name :: c as int >= 32 && c as int != 127
  }

  datatype Cookie = Cookie(base: nat, tocAt: nat, tocSize: nat, python: nat, offset: nat, library: string)

  function UntilNul(b: Bytes): Bytes {
    if b == [] || b[0] == 0 then [] else [b[0]] + UntilNul(b[1..])
  }

  /** An ASCII text, if all bytes are. */
  function Ascii(b: Bytes): Option<string> {
    if b == [] then Some("")
    else
      var rest :- Ascii(b[1..]);
      if b[0] < 128 then Some([b[0] as char] + rest) else None
  }

  /** The fields at the magic and their bounds (lines 252 to 269). */
  function ReadCookie(file: Bytes, offset: nat): Option<Cookie> {
    if offset + COOKIE_SIZE > |file| then None
    else
      var length, tocAt, tocSize := U32(file, offset + 8), U32(file, offset + 12), U32(file, offset + 16);
      if offset + COOKIE_SIZE < length || tocSize > MAX_TOC || tocAt + tocSize + COOKIE_SIZE != length then None
      else
        var library :- Ascii(UntilNul(file[offset + 24..offset + COOKIE_SIZE]));
        if !SafeName(library, |library|) then None
        else Some(Cookie(offset + COOKIE_SIZE - length, tocAt, tocSize, U32(file, offset + 20), offset, library))
  }

  /** The table of contents ends exactly where the cookie begins, and all of it is in the file. */
  lemma TocEndsAtCookie(file: Bytes, offset: nat)
    requires ReadCookie(file, offset).Some?
    ensures var c := ReadCookie(file, offset).value;
            && c.base + c.tocAt + c.tocSize == c.offset == offset
            && c.offset + COOKIE_SIZE <= |file|
  {
  }

  /** _cookie. */
  method LocateCookie(file: Bytes) returns (r: Option<Cookie>)
    ensures r.None? ==> Nowhere(file, MAGIC) || exists i :: LastAt(file, MAGIC, i) && ReadCookie(file, i).None?
    ensures r.Some? ==> exists i :: LastAt(file, MAGIC, i) && ReadCookie(file, i) == r
  {
    hide LastAt, Nowhere, ReadCookie;
    var at := FindCookie(file);
    r := if at.None? then None else ReadCookie(file, at.value);
  }

  // -------------------------------------------------------------------------
  // Intervals (lines 324 to 325 and 351 to 353)
  // -------------------------------------------------------------------------

  datatype Span = Span(start: nat, end: nat)

  predicate Before(a: Span, b: Span) {
    a.start < b.start || (a.start == b.start && a.end < b.end)
  }

  function Insert(spans: seq<Span>, x: Span): seq<Span> {
    if spans == [] || !Before(x, spans[|spans| - 1]) then spans + [x]
    else Insert(spans[..|spans| - 1], x) + [spans[|spans| - 1]]
  }

  function Sorted(spans: seq<Span>): seq<Span> {
    if spans == [] then [] else Insert(Sorted(spans[..|spans| - 1]), spans[|spans| - 1])
  }

  /** The check: no interval of the sorted list reaches into the next one. */
  predicate AdjacentApart(spans: seq<Span>) {
    forall i | 0 <= i < |spans| - 1 :: spans[i].end <= spans[i + 1].start
  }

  predicate Apart(a: Span, b: Span) {
    a.end <= b.start || b.end <= a.start
  }

  ghost predicate AllApart(spans: seq<Span>) {
    forall i, j | 0 <= i < j < |spans| :: Apart(spans[i], spans[j])
  }

  ghost predicate Nonempty(spans: seq<Span>) {
    forall i | 0 <= i < |spans| :: spans[i].start < spans[i].end
  }

  ghost predicate InOrder(spans: seq<Span>) {
    forall i, j | 0 <= i < j < |spans| :: !Before(spans[j], spans[i])
  }

  ghost predicate ApartFrom(spans: seq<Span>, x: Span) {
    forall y | y in spans :: Apart(y, x)
  }

  lemma ApartSnoc(spans: seq<Span>, x: Span)
    ensures AllApart(spans + [x]) <==> AllApart(spans) && ApartFrom(spans, x)
  {
    hide Apart;
    var all := spans + [x];
    assert all[|spans|] == x && forall i | 0 <= i < |spans| :: all[i] == spans[i];
  }

  lemma FromSnoc(spans: seq<Span>, last: Span, x: Span)
    ensures ApartFrom(spans + [last], x) <==> ApartFrom(spans, x) && Apart(last, x)
  {
    hide Apart;
    var all := spans + [last];
    assert all[|spans|] == last;
    assert forall y :: y in all <==> y in spans || y == last;
  }

  lemma ApartBack(a: Span, b: Span)
    ensures Apart(a, b) == Apart(b, a)
  {
  }

  lemma {:induction false} InsertMembers(spans: seq<Span>, x: Span)
    ensures forall y :: y in Insert(spans, x) <==> y in spans || y == x
    decreases |spans|
  {
    hide Before;
    if spans != [] {
      assert spans == spans[..|spans| - 1] + [spans[|spans| - 1]];
      InsertMembers(spans[..|spans| - 1], x);
    }
  }

  lemma {:induction false} InsertApart(spans: seq<Span>, x: Span)
    ensures AllApart(Insert(spans, x)) <==> AllApart(spans) && ApartFrom(spans, x)
    decreases |spans|
  {
    hide Apart, Before, AllApart, ApartFrom;
    if spans == [] || !Before(x, spans[|spans| - 1]) {
      ApartSnoc(spans, x);
    } else {
      var init, last := spans[..|spans| - 1], spans[|spans| - 1];
      assert spans == init + [last];
      InsertApart(init, x);
      ApartSnoc(Insert(init, x), last);
      ApartSnoc(init, last);
      FromSnoc(init, last, x);
      ApartBack(last, x);
      FromInserted(init, x, last);
    }
  }

  lemma FromInserted(init: seq<Span>, x: Span, last: Span)
    ensures ApartFrom(Insert(init, x), last) <==> ApartFrom(init, last) && Apart(x, last)
  {
    hide Apart, Insert;
    InsertMembers(init, x);
  }

  lemma {:induction false} InsertOrdered(spans: seq<Span>, x: Span)
    requires InOrder(spans)
    ensures InOrder(Insert(spans, x))
    decreases |spans|
  {
    if spans != [] && Before(x, spans[|spans| - 1]) {
      var init, last := spans[..|spans| - 1], spans[|spans| - 1];
      InsertOrdered(init, x);
      InsertMembers(init, x);
      var mid := Insert(init, x);
      forall i | 0 <= i < |mid| ensures !Before(last, mid[i]) {
        assert mid[i] in mid;
      }
    }
  }

  lemma {:induction false} SortedKeeps(spans: seq<Span>)
    ensures InOrder(Sorted(spans))
    ensures AllApart(Sorted(spans)) <==> AllApart(spans)
    ensures forall y :: y in Sorted(spans) <==> y in spans
    decreases |spans|
  {
    hide Apart, Insert, AllApart, Before, InOrder;
    if spans != [] {
      var init, last := spans[..|spans| - 1], spans[|spans| - 1];
      assert spans == init + [last];
      SortedKeeps(init);
      InsertOrdered(Sorted(init), last);
      InsertApart(Sorted(init), last);
      InsertMembers(Sorted(init), last);
      ApartSnoc(init, last);
      assert ApartFrom(init, last) == ApartFrom(Sorted(init), last);
    } else {
      NoSpans();
    }
  }

  lemma NoSpans()
    ensures InOrder([]) && AllApart([])
  {
  }

  /** In a sorted list of nonempty intervals, apart from the next one is apart from all. */
  lemma {:induction false} AdjacentReaches(spans: seq<Span>, i: nat, j: nat)
    requires Nonempty(spans) && AdjacentApart(spans) && i < j < |spans|
    ensures spans[i].end <= spans[j].start
    decreases j
  {
    if i < j - 1 {
      AdjacentReaches(spans, i, j - 1);
    }
    assert spans[j - 1].end <= spans[j].start;
  }

  /** The check of neighbours in the sorted list accepts exactly the pairwise disjoint lists. */
  lemma AdjacentSuffices(spans: seq<Span>)
    requires Nonempty(spans)
    ensures AdjacentApart(Sorted(spans)) <==> AllApart(spans)
  {
    hide Sorted;
    SortedKeeps(spans);
    var s := Sorted(spans);
    assert Nonempty(s) by {
      forall i | 0 <= i < |s| ensures s[i].start < s[i].end { assert s[i] in spans; }
    }
    if AdjacentApart(s) {
      forall i, j | 0 <= i < j < |s| ensures Apart(s[i], s[j]) {
        AdjacentReaches(s, i, j);
      }
    } else {
      var i :| 0 <= i < |s| - 1 && s[i].end > s[i + 1].start;
      assert !Before(s[i + 1], s[i]);
      assert !Apart(s[i], s[i + 1]);
    }
  }

  // -------------------------------------------------------------------------
  // The table of contents (lines 274 to 353)
  // -------------------------------------------------------------------------

  datatype TocEntry = TocEntry(
    start: nat, length: nat, at: nat, size: nat, unpacked: nat, compressed: nat, kind: nat, encoded: nat, name: string)

  /** How names decode and whether a compressed payload unpacks to a length; both are outside this model. */
  datatype Reader = Reader(file: Bytes, cookie: Cookie, decode: Bytes -> Option<string>, unpacks: (Bytes, nat) -> bool)

  const OPTION := 111
  const KINDS := {98, 120, 122, 90, 109, 77, 115}

  function Toc(x: Reader): Bytes {
    var c := x.cookie;
    if c.base + c.tocAt + c.tocSize <= |x.file| then x.file[c.base + c.tocAt..c.base + c.tocAt + c.tocSize] else []
  }

  /** One entry: its fields, its name up to the first NUL, and nothing but NULs after it. */
  function EntryAt(x: Reader, toc: Bytes, offset: nat): Option<TocEntry> {
    if offset + ENTRY_SIZE > |toc| then None
    else
      var length := U32(toc, offset);
      if length <= ENTRY_SIZE || offset + length > |toc| then None
      else
        var raw := toc[offset + ENTRY_SIZE..offset + length];
        var first := UntilNul(raw);
        if !Padded(raw, |first|) then None
        else
          var name := x.decode(first);
          if name.None? then None
          else
            Some(TocEntry(offset, length, U32(toc, offset + 4), U32(toc, offset + 8), U32(toc, offset + 12),
                          toc[offset + 16], toc[offset + 17], |first|, name.value))
  }

  /** There is a NUL, and nothing but NULs from this place on. */
  predicate Padded(raw: Bytes, from: nat) {
    0 in raw && forall i | from <= i < |raw| :: raw[i] == 0
  }

  lemma EntryExtent(x: Reader, toc: Bytes, offset: nat)
    requires EntryAt(x, toc, offset).Some?
    ensures var e := EntryAt(x, toc, offset).value;
            e.start == offset && e.length > ENTRY_SIZE && offset + e.length <= |toc|
  {
    hide U32, UntilNul, Padded;
  }

  function ParseFrom(x: Reader, toc: Bytes, offset: nat): Option<seq<TocEntry>>
    decreases |toc| - offset
  {
    if offset >= |toc| then Some([])
    else
      var e :- EntryAt(x, toc, offset);
      EntryExtent(x, toc, offset);
      var rest :- ParseFrom(x, toc, offset + e.length);
      Some([e] + rest)
  }

  predicate Retained(name: string) {
    var parts := InstallArchive.Parts(name);
    parts != [] && parts[|parts| - 1] in {"METADATA", "PKG-INFO", "mos-runtime.json"}
  }

  predicate IsOption(e: TocEntry) {
    e.kind == OPTION
  }

  function PayloadOf(x: Reader, e: TocEntry): Bytes {
    var at := x.cookie.base + e.at;
    if at + e.size <= |x.file| then x.file[at..at + e.size] else []
  }

  /** The checks of one entry on its own. */
  predicate EntryOk(x: Reader, e: TocEntry) {
    if IsOption(e) then e.size == 0 && e.unpacked == 0 && e.compressed == 0 && |e.name| <= 1024
    else
      && SafeName(e.name, e.encoded)
      && e.kind in KINDS && e.compressed in {0, 1}
      && e.at + e.size <= x.cookie.tocAt
      && e.unpacked <= MAX_MEMBER && e.size <= MAX_MEMBER
      && (Retained(e.name) ==> e.unpacked <= MAX_METADATA)
      && (if e.compressed == 1 then x.unpacks(PayloadOf(x, e), e.unpacked) else e.size == e.unpacked)
  }

  function Unpacked(es: seq<TocEntry>): nat {
    if es == [] then 0
    else Unpacked(es[..|es| - 1]) + if IsOption(es[|es| - 1]) then 0 else es[|es| - 1].unpacked
  }

  function Kept(es: seq<TocEntry>): nat {
    if es == [] then 0
    else
      var last := es[|es| - 1];
      Kept(es[..|es| - 1]) + if !IsOption(last) && Retained(last.name) then last.unpacked else 0
  }

  function SpansOf(es: seq<TocEntry>): seq<Span> {
    if es == [] then []
    else
      var last := es[|es| - 1];
      SpansOf(es[..|es| - 1]) + if !IsOption(last) && last.size > 0 then [Span(last.at, last.at + last.size)] else []
  }

  ghost predicate DistinctNames(es: seq<TocEntry>) {
    forall i, j | 0 <= i < j < |es| && !IsOption(es[i]) && !IsOption(es[j]) :: es[i].name != es[j].name
  }

  /** The checks the loop makes as it goes. */
  ghost predicate Admitted(x: Reader, es: seq<TocEntry>) {
    && |es| <= MAX_FILES
    && (forall i | 0 <= i < |es| :: EntryOk(x, es[i]))
    && DistinctNames(es)
    && Unpacked(es) <= MAX_EXPANDED
    && Kept(es) <= MAX_RETAINED
  }

  ghost predicate Named(names: set<string>, es: seq<TocEntry>) {
    forall n :: n in names <==> exists i :: 0 <= i < |es| && !IsOption(es[i]) && es[i].name == n
  }

  lemma SumsNext(es: seq<TocEntry>, e: TocEntry)
    ensures Unpacked(es + [e]) == Unpacked(es) + if IsOption(e) then 0 else e.unpacked
    ensures Kept(es + [e]) == Kept(es) + if !IsOption(e) && Retained(e.name) then e.unpacked else 0
    ensures SpansOf(es + [e]) == SpansOf(es) + if !IsOption(e) && e.size > 0 then [Span(e.at, e.at + e.size)] else []
  {
    hide Retained, IsOption;
    var all := es + [e];
    assert all[..|all| - 1] == es && all[|all| - 1] == e;
  }

  lemma {:induction false} SumsGrow(es: seq<TocEntry>, n: nat)
    requires n <= |es|
    ensures Unpacked(es[..n]) <= Unpacked(es) && Kept(es[..n]) <= Kept(es)
    decreases |es|
  {
    hide Retained;
    if n < |es| {
      var init := es[..|es| - 1];
      SumsGrow(init, n);
      assert init[..n] == es[..n];
    } else {
      assert es[..n] == es;
    }
  }

  lemma AdmittedPrefix(x: Reader, es: seq<TocEntry>, n: nat)
    requires Admitted(x, es) && n <= |es|
    ensures Admitted(x, es[..n])
  {
    hide EntryOk, Unpacked, Kept;
    SumsGrow(es, n);
  }

  lemma NamesNext(es: seq<TocEntry>, e: TocEntry, names: set<string>)
    requires DistinctNames(es) && Named(names, es)
    ensures DistinctNames(es + [e]) <==> IsOption(e) || e.name !in names
    ensures Named(if IsOption(e) then names else names + {e.name}, es + [e])
  {
    var all := es + [e];
    assert all[|es|] == e && forall i | 0 <= i < |es| :: all[i] == es[i];
  }

  lemma AdmittedNext(x: Reader, es: seq<TocEntry>, e: TocEntry, names: set<string>)
    requires Admitted(x, es) && Named(names, es)
    ensures Admitted(x, es + [e]) <==>
              && |es| < MAX_FILES && EntryOk(x, e)
              && (IsOption(e) || e.name !in names)
              && Unpacked(es + [e]) <= MAX_EXPANDED && Kept(es + [e]) <= MAX_RETAINED
  {
    hide EntryOk, Unpacked, Kept, IsOption, DistinctNames, Named;
    NamesNext(es, e, names);
    var all := es + [e];
    assert all[|es|] == e && forall i | 0 <= i < |es| :: all[i] == es[i];
  }

  /** What an accepted table of contents is. */
  ghost predicate Accepted(x: Reader, es: seq<TocEntry>) {
    && ParseFrom(x, Toc(x), 0) == Some(es)
    && Admitted(x, es)
    && AllApart(SpansOf(es))
  }

  lemma {:induction false} SpansNonempty(es: seq<TocEntry>)
    ensures Nonempty(SpansOf(es))
    decreases |es|
  {
    if es != [] {
      SpansNonempty(es[..|es| - 1]);
    }
  }

  ghost function Joined(es: seq<TocEntry>, rest: Option<seq<TocEntry>>): Option<seq<TocEntry>> {
    if rest.None? then None else Some(es + rest.value)
  }

  lemma JoinNext(x: Reader, toc: Bytes, offset: nat, es: seq<TocEntry>)
    requires offset < |toc| && EntryAt(x, toc, offset).Some?
    ensures var e := EntryAt(x, toc, offset).value;
            offset + e.length <= |toc| && e.length > 0
            && Joined(es, ParseFrom(x, toc, offset)) == Joined(es + [e], ParseFrom(x, toc, offset + e.length))
  {
    hide EntryAt;
    EntryExtent(x, toc, offset);
    var e := EntryAt(x, toc, offset).value;
    var rest := ParseFrom(x, toc, offset + e.length);
    if rest.Some? {
      assert es + ([e] + rest.value) == es + [e] + rest.value;
    }
  }

  lemma RejectsAll(x: Reader, toc: Bytes, offset: nat, es: seq<TocEntry>, n: nat)
    requires n <= |es| && !Admitted(x, es[..n])
    requires ParseFrom(x, toc, 0) == Joined(es, ParseFrom(x, toc, offset))
    ensures ParseFrom(x, toc, 0).Some? ==> !Admitted(x, ParseFrom(x, toc, 0).value)
  {
    hide ParseFrom, Admitted;
    if ParseFrom(x, toc, 0).Some? {
      var whole := ParseFrom(x, toc, 0).value;
      assert whole[..n] == es[..n];
      if Admitted(x, whole) {
        AdmittedPrefix(x, whole, n);
      }
    }
  }

  /**
   * The loop of carchive_inventory. It accepts exactly the tables that parse to
   * their end, whose entries pass, and whose payloads are pairwise disjoint.
   */
  method ReadToc(x: Reader) returns (r: Option<seq<TocEntry>>)
    ensures r.Some? ==> Accepted(x, r.value)
    ensures r.None? ==> forall es :: !Accepted(x, es)
  {
    hide EntryAt, Admitted, EntryOk, ParseFrom, Joined, Unpacked, Kept, SpansOf, Named, Sorted, AllApart, AdjacentApart,
         Retained, IsOption;
    var toc := Toc(x);
    var offset: nat, es: seq<TocEntry>, names: set<string> := 0, [], {};
    var expanded, retained := 0, 0;
    var spans: seq<Span> := [];
    ParsedNothing(x, toc);
    while offset < |toc|
      invariant ParseFrom(x, toc, 0) == Joined(es, ParseFrom(x, toc, offset))
      invariant Admitted(x, es) && Named(names, es)
      invariant expanded == Unpacked(es) && retained == Kept(es) && spans == SpansOf(es)
      decreases |toc| - offset
    {
      var next := EntryAt(x, toc, offset);
      if next.None? {
        ParseStops(x, toc, offset, es);
        return None;
      }
      var e := next.value;
      JoinNext(x, toc, offset, es);
      AdmittedNext(x, es, e, names);
      SumsNext(es, e);
      NamesOf(x, es, e, names);
      offset := offset + e.length;
      var option := IsOption(e);
      if |es| >= MAX_FILES || !EntryOk(x, e) || (!option && e.name in names)
         || (!option && expanded + e.unpacked > MAX_EXPANDED)
         || (!option && Retained(e.name) && retained + e.unpacked > MAX_RETAINED) {
        RejectNext(x, toc, offset, es, e, names);
        return None;
      }
      StillAdmitted(x, es, e, names);
      if !option {
        names, expanded := names + {e.name}, expanded + e.unpacked;
        retained := retained + if Retained(e.name) then e.unpacked else 0;
        spans := spans + if e.size > 0 then [Span(e.at, e.at + e.size)] else [];
      }
      es := es + [e];
    }
    ParseEnds(x, toc, offset, es);
    SpansNonempty(es);
    AdjacentSuffices(spans);
    r := if AdjacentApart(Sorted(spans)) then Some(es) else None;
  }

  lemma ParsedNothing(x: Reader, toc: Bytes)
    ensures ParseFrom(x, toc, 0) == Joined([], ParseFrom(x, toc, 0))
    ensures Admitted(x, []) && Named({}, []) && Unpacked([]) == 0 && Kept([]) == 0 && SpansOf([]) == []
  {
    hide ParseFrom;
    if ParseFrom(x, toc, 0).Some? {
      assert [] + ParseFrom(x, toc, 0).value == ParseFrom(x, toc, 0).value;
    }
  }

  lemma ParseStops(x: Reader, toc: Bytes, offset: nat, es: seq<TocEntry>)
    requires offset < |toc| && EntryAt(x, toc, offset).None?
    requires ParseFrom(x, toc, 0) == Joined(es, ParseFrom(x, toc, offset))
    ensures ParseFrom(x, toc, 0).None?
  {
    hide EntryAt;
    assert ParseFrom(x, toc, offset).None?;
  }

  lemma ParseEnds(x: Reader, toc: Bytes, offset: nat, es: seq<TocEntry>)
    requires offset >= |toc|
    requires ParseFrom(x, toc, 0) == Joined(es, ParseFrom(x, toc, offset))
    ensures ParseFrom(x, toc, 0) == Some(es)
  {
    assert ParseFrom(x, toc, offset) == Some([]);
    assert es + [] == es;
  }

  lemma NamesOf(x: Reader, es: seq<TocEntry>, e: TocEntry, names: set<string>)
    requires Admitted(x, es) && Named(names, es)
    ensures Named(if IsOption(e) then names else names + {e.name}, es + [e])
  {
    hide EntryOk, Unpacked, Kept;
    NamesNext(es, e, names);
  }

  /** The sums the loop compares are those of the entries so far. */
  lemma SumsCompare(x: Reader, es: seq<TocEntry>, e: TocEntry)
    requires Admitted(x, es)
    ensures Unpacked(es + [e]) <= MAX_EXPANDED <==> IsOption(e) || Unpacked(es) + e.unpacked <= MAX_EXPANDED
    ensures Kept(es + [e]) <= MAX_RETAINED
            <==> IsOption(e) || !Retained(e.name) || Kept(es) + e.unpacked <= MAX_RETAINED
  {
    hide EntryOk, Retained, DistinctNames;
    SumsNext(es, e);
  }

  lemma StillAdmitted(x: Reader, es: seq<TocEntry>, e: TocEntry, names: set<string>)
    requires Admitted(x, es) && Named(names, es)
    requires |es| < MAX_FILES && EntryOk(x, e) && (IsOption(e) || e.name !in names)
    requires IsOption(e) || Unpacked(es) + e.unpacked <= MAX_EXPANDED
    requires IsOption(e) || !Retained(e.name) || Kept(es) + e.unpacked <= MAX_RETAINED
    ensures Admitted(x, es + [e])
  {
    hide EntryOk, Retained, Admitted, Named, Unpacked, Kept;
    SumsCompare(x, es, e);
    AdmittedNext(x, es, e, names);
  }

  lemma RejectNext(x: Reader, toc: Bytes, offset: nat, es: seq<TocEntry>, e: TocEntry, names: set<string>)
    requires toc == Toc(x) && Admitted(x, es) && Named(names, es)
    requires ParseFrom(x, toc, 0) == Joined(es + [e], ParseFrom(x, toc, offset))
    requires !(|es| < MAX_FILES && EntryOk(x, e) && (IsOption(e) || e.name !in names)
               && (IsOption(e) || Unpacked(es) + e.unpacked <= MAX_EXPANDED)
               && (IsOption(e) || !Retained(e.name) || Kept(es) + e.unpacked <= MAX_RETAINED))
    ensures forall all :: !Accepted(x, all)
  {
    hide EntryOk, Retained, Admitted, Named, Unpacked, Kept, ParseFrom, AllApart, Toc;
    SumsCompare(x, es, e);
    AdmittedNext(x, es, e, names);
    var more := es + [e];
    assert more[..|more|] == more;
    RejectsAll(x, toc, offset, more, |more|);
  }

  // -------------------------------------------------------------------------
  // What an accepted layout guarantees
  // -------------------------------------------------------------------------

  /** Entry i begins where entry i - 1 ended; the first begins at zero and the last ends with the table. */
  ghost predicate Tiles(es: seq<TocEntry>, from: nat, end: nat) {
    if es == [] then from == end
    else es[0].start == from && es[0].length > ENTRY_SIZE && Tiles(es[1..], from + es[0].length, end)
  }

  lemma {:induction false} ParsedTiles(x: Reader, toc: Bytes, offset: nat)
    requires offset <= |toc| && ParseFrom(x, toc, offset).Some?
    ensures Tiles(ParseFrom(x, toc, offset).value, offset, |toc|)
    decreases |toc| - offset
  {
    hide EntryAt;
    if offset < |toc| {
      EntryExtent(x, toc, offset);
      var e := EntryAt(x, toc, offset).value;
      ParsedTiles(x, toc, offset + e.length);
      var rest := ParseFrom(x, toc, offset + e.length).value;
      assert ([e] + rest)[1..] == rest;
    }
  }

  /** The entries of an accepted table tile it exactly. */
  lemma TocTiles(x: Reader, es: seq<TocEntry>)
    requires Accepted(x, es)
    ensures Tiles(es, 0, |Toc(x)|)
  {
    hide Admitted, AllApart, Tiles, ParseFrom;
    ParsedTiles(x, Toc(x), 0);
  }

  predicate Within(i: nat, s: Span) {
    s.start <= i < s.end
  }

  function Cover(s: Span): set<nat> {
    set i: nat | i < s.end && Within(i, s)
  }

  function Covers(spans: seq<Span>): set<nat> {
    if spans == [] then {} else Covers(spans[..|spans| - 1]) + Cover(spans[|spans| - 1])
  }

  function Sizes(es: seq<TocEntry>): nat {
    if es == [] then 0 else Sizes(es[..|es| - 1]) + if IsOption(es[|es| - 1]) then 0 else es[|es| - 1].size
  }

  function Lengths(spans: seq<Span>): nat {
    if spans == [] then 0
    else
      var last := spans[|spans| - 1];
      Lengths(spans[..|spans| - 1]) + if last.end >= last.start then last.end - last.start else 0
  }

  lemma LengthsSnoc(spans: seq<Span>, s: Span)
    requires s.start <= s.end
    ensures Lengths(spans + [s]) == Lengths(spans) + (s.end - s.start)
  {
    assert (spans + [s])[..|spans|] == spans;
  }

  lemma {:induction false} SizesAreLengths(es: seq<TocEntry>)
    ensures Sizes(es) == Lengths(SpansOf(es))
    decreases |es|
  {
    if es != [] {
      var init, last := es[..|es| - 1], es[|es| - 1];
      SizesAreLengths(init);
      if !IsOption(last) && last.size > 0 {
        LengthsSnoc(SpansOf(init), Span(last.at, last.at + last.size));
      } else {
        assert SpansOf(es) == SpansOf(init);
      }
    }
  }

  lemma {:induction false} CoverSize(start: nat, end: nat)
    requires start <= end
    ensures |Cover(Span(start, end))| == end - start
    decreases end
  {
    if start < end {
      CoverSize(start, end - 1);
      assert Cover(Span(start, end)) == Cover(Span(start, end - 1)) + {end - 1};
    } else {
      assert Cover(Span(start, end)) == {};
    }
  }

  lemma {:induction false} CoversMember(spans: seq<Span>, i: nat)
    requires i in Covers(spans)
    ensures exists k :: 0 <= k < |spans| && spans[k].start <= i < spans[k].end
    decreases |spans|
  {
    if i in Covers(spans[..|spans| - 1]) {
      CoversMember(spans[..|spans| - 1], i);
      var k :| 0 <= k < |spans| - 1 && spans[..|spans| - 1][k].start <= i < spans[..|spans| - 1][k].end;
      assert spans[k].start <= i < spans[k].end;
    } else {
      assert i in Cover(spans[|spans| - 1]);
    }
  }

  lemma {:induction false} CoversSize(spans: seq<Span>)
    requires Nonempty(spans) && AllApart(spans)
    ensures |Covers(spans)| == Lengths(spans)
    decreases |spans|
  {
    if spans != [] {
      var init, last := spans[..|spans| - 1], spans[|spans| - 1];
      CoversSize(init);
      CoverSize(last.start, last.end);
      assert Covers(init) !! Cover(last) by {
        forall i | i in Covers(init) ensures i !in Cover(last) {
          CoversMember(init, i);
          var k :| 0 <= k < |init| && init[k].start <= i < init[k].end;
          assert Apart(spans[k], spans[|spans| - 1]);
        }
      }
    }
  }

  lemma {:induction false} SpansBelow(x: Reader, es: seq<TocEntry>, s: Span)
    requires (forall i | 0 <= i < |es| :: EntryOk(x, es[i])) && s in SpansOf(es)
    ensures s.end <= x.cookie.tocAt
    decreases |es|
  {
    hide SafeName, Retained;
    var init, last := es[..|es| - 1], es[|es| - 1];
    if s in SpansOf(init) {
      SpansBelow(x, init, s);
    } else {
      assert EntryOk(x, last);
    }
  }

  /** All payloads are pairwise disjoint and below the table, so their stored sizes together fit there. */
  lemma PayloadsFit(x: Reader, es: seq<TocEntry>)
    requires Accepted(x, es)
    ensures AllApart(SpansOf(es))
    ensures Sizes(es) <= x.cookie.tocAt
  {
    hide ParseFrom, EntryOk, SpansOf, Apart;
    var spans := SpansOf(es);
    SpansNonempty(es);
    SizesAreLengths(es);
    CoversSize(spans);
    forall i | i in Covers(spans) ensures i < x.cookie.tocAt {
      CoversMember(spans, i);
      var k :| 0 <= k < |spans| && spans[k].start <= i < spans[k].end;
      SpansBelow(x, es, spans[k]);
    }
    Below(x.cookie.tocAt, Covers(spans));
  }

  /** No payload of an accepted entry can be cut short by the end of the file. */
  lemma PayloadsInside(x: Reader, es: seq<TocEntry>, i: nat)
    requires Accepted(x, es) && i < |es| && ReadCookie(x.file, x.cookie.offset) == Some(x.cookie)
    ensures !IsOption(es[i]) ==> x.cookie.base + es[i].at + es[i].size <= x.cookie.offset <= |x.file|
  {
    hide ParseFrom, SafeName, Retained, ReadCookie, AllApart;
    TocEndsAtCookie(x.file, x.cookie.offset);
    assert EntryOk(x, es[i]);
  }
}

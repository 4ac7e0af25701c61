/**
 * The bound on a wheel's central directory before it is materialised
 * (tools/sbom_archive.py, lines 171 to 212; sections 4.3.12 and 4.3.16 of
 * PKWARE APPNOTE.TXT).
 */
module WheelDirectory {
  import opened Prelude
  import opened BundleArchive

  const END_MARK: Bytes := [80, 75, 5, 6]
  const RECORD_MARK: Bytes := [80, 75, 1, 2]
  const END_SIZE := 22
  const RECORD_SIZE := 46
  const TAIL := 65557

  /** The fields of the end record that place the directory. */
  datatype End = End(count: nat, size: nat, offset: nat)

  function TailOf(file: Bytes): Bytes {
    file[if |file| > TAIL then |file| - TAIL else 0..]
  }

  /** The end record at a place of the tail, if its fields are consistent (lines 178 to 197). */
  function ReadEnd(file: Bytes, at: nat): Option<End> {
    var tail := TailOf(file);
    if at + END_SIZE > |tail| then None
    else
      var count, size, offset := L16(tail, at + 10), L32(tail, at + 12), L32(tail, at + 16);
      if L16(tail, at + 4) != 0 || L16(tail, at + 6) != 0 || L16(tail, at + 8) != count
         || count > MAX_FILES || count == 65535 || size > MAX_TOC
         || offset + size != |file| - |tail| + at || at + END_SIZE + L16(tail, at + 20) != |tail| then None
      else Some(End(count, size, offset))
  }

  /** The length of the directory record at a position, if one starts there. */
  function RecordLength(directory: Bytes, position: nat): Option<nat> {
    if position + RECORD_SIZE > |directory| || directory[position..position + 4] != RECORD_MARK then None
    else
      Some(RECORD_SIZE + L16(directory, position + 28) + L16(directory, position + 30) + L16(directory, position + 32))
  }

  /** How many records follow one another from a position to exactly the end. */
  function CountFrom(directory: Bytes, position: nat): Option<nat>
    decreases |directory| - position
  {
    if position == |directory| then Some(0)
    else if position > |directory| then None
    else
      var length :- RecordLength(directory, position);
      LongEnough(directory, position);
      var rest :- CountFrom(directory, position + length);
      Some(1 + rest)
  }

  lemma LongEnough(directory: Bytes, position: nat)
    requires RecordLength(directory, position).Some?
    ensures RecordLength(directory, position).value >= RECORD_SIZE && position < |directory|
  {
  }

  function DirectoryOf(file: Bytes, end: End): Bytes {
    if end.offset + end.size <= |file| then file[end.offset..end.offset + end.size] else []
  }

  /** The directory the last end record names is exactly as many records as it says. */
  ghost predicate Wellformed(file: Bytes, at: nat) {
    && LastAt(TailOf(file), END_MARK, at)
    && ReadEnd(file, at).Some?
    && var end := ReadEnd(file, at).value;
       CountFrom(DirectoryOf(file, end), 0) == Some(end.count)
  }

  lemma DirectoryInside(file: Bytes, at: nat)
    requires ReadEnd(file, at).Some?
    ensures var end := ReadEnd(file, at).value;
            end.offset + end.size <= |file| && |DirectoryOf(file, end)| == end.size
  {
  }

  ghost function Plus(n: nat, rest: Option<nat>): Option<nat> {
    if rest.None? then None else Some(n + rest.value)
  }

  /** The walk over the records (lines 198 to 212). */
  method CountRecords(directory: Bytes, limit: nat) returns (r: Option<nat>)
    ensures r.Some? ==> CountFrom(directory, 0) == r
    ensures r.None? ==> CountFrom(directory, 0).None? || CountFrom(directory, 0).value > limit
  {
    hide RecordLength;
    var position: nat, actual := 0, 0;
    while position < |directory|
      invariant position <= |directory|
      invariant CountFrom(directory, 0) == Plus(actual, CountFrom(directory, position))
      decreases |directory| - position
    {
      var length := RecordLength(directory, position);
      if length.None? {
        return None;
      }
      LongEnough(directory, position);
      position := position + length.value;
      actual := actual + 1;
      if position > |directory| || actual > limit {
        return None;
      }
    }
    r := Some(actual);
  }

  /** _wheel_directory: accepts exactly the files whose last end record describes its directory truly. */
  method CheckWheel(file: Bytes) returns (r: Option<End>)
    ensures r.Some? ==> exists at :: Wellformed(file, at) && ReadEnd(file, at) == r
    ensures r.None? ==> forall at :: !Wellformed(file, at)
  {
    hide ReadEnd, CountFrom, LastAt, Nowhere;
    var tail := TailOf(file);
    var at := FindLast(tail, END_MARK);
    if at.None? {
      NoMark(tail);
      return None;
    }
    OneLast(tail, END_MARK, at.value);
    var end := ReadEnd(file, at.value);
    if end.None? {
      return None;
    }
    DirectoryInside(file, at.value);
    EndCount(file, at.value);
    var actual := CountRecords(DirectoryOf(file, end.value), MAX_FILES);
    if actual != Some(end.value.count) {
      return None;
    }
    r := end;
  }

  lemma NoMark(tail: Bytes)
    requires Nowhere(tail, END_MARK)
    ensures forall at: nat :: !LastAt(tail, END_MARK, at)
  {
  }

  lemma OneLast(s: Bytes, mark: Bytes, at: nat)
    requires LastAt(s, mark, at)
    ensures forall other: nat | LastAt(s, mark, other) :: other == at
  {
    forall other: nat | LastAt(s, mark, other) ensures other == at {
      assert OccursAt(s, mark, at) && OccursAt(s, mark, other);
    }
  }

  lemma EndCount(file: Bytes, at: nat)
    requires ReadEnd(file, at).Some?
    ensures ReadEnd(file, at).value.count <= MAX_FILES
  {
  }

  // -------------------------------------------------------------------------
  // What an accepted directory is
  // -------------------------------------------------------------------------

  /** The records start at these positions, each where the one before ends, and the last ends the directory. */
  ghost predicate Tiles(directory: Bytes, starts: seq<nat>, from: nat) {
    if starts == [] then from == |directory|
    else
      && starts[0] == from
      && RecordLength(directory, from).Some?
      && Tiles(directory, starts[1..], from + RecordLength(directory, from).value)
  }

  lemma {:induction false} CountedTiles(directory: Bytes, position: nat) returns (starts: seq<nat>)
    requires CountFrom(directory, position).Some?
    ensures Tiles(directory, starts, position) && |starts| == CountFrom(directory, position).value
    decreases |directory| - position
  {
    hide RecordLength;
    if position == |directory| {
      starts := [];
    } else {
      LongEnough(directory, position);
      var rest := CountedTiles(directory, position + RecordLength(directory, position).value);
      starts := [position] + rest;
      assert starts[1..] == rest;
    }
  }

  /** A directory has one tiling, so its number of records cannot be claimed differently. */
  lemma {:induction false} TilingCounts(directory: Bytes, starts: seq<nat>, from: nat)
    requires Tiles(directory, starts, from)
    ensures CountFrom(directory, from) == Some(|starts|)
    decreases |starts|
  {
    hide RecordLength;
    if starts != [] {
      LongEnough(directory, from);
      TilingCounts(directory, starts[1..], from + RecordLength(directory, from).value);
    }
  }

  /**
   * The records of an accepted wheel tile the directory exactly, there are as many
   * as the end record says, the directory ends where that record begins, and
   * nothing but its comment follows it.
   */
  lemma RecordsTile(file: Bytes, at: nat) returns (starts: seq<nat>)
    requires Wellformed(file, at)
    ensures var end, tail := ReadEnd(file, at).value, TailOf(file);
            && Tiles(DirectoryOf(file, end), starts, 0)
            && |starts| == end.count <= MAX_FILES
            && end.offset + end.size == |file| - |tail| + at
            && at + END_SIZE + L16(tail, at + 20) == |tail|
  {
    hide CountFrom, LastAt, Tiles;
    starts := CountedTiles(DirectoryOf(file, ReadEnd(file, at).value), 0);
  }
}

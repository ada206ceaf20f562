/** The check of a ZIP archive's central directory before its entries are read
    (utils/archive_preview.go:55-158), after APPNOTE sections 4.3.12 to 4.3.16.

    Machine integers are newtypes, so that verification proves that no sum, difference or
    conversion in the check wraps around, whatever the archive says. */
module ZipDirectory {
  import opened Basics

  newtype int64 = x: int | -0x8000_0000_0000_0000 <= x < 0x8000_0000_0000_0000
  newtype uint64 = x: int | 0 <= x < 0x1_0000_0000_0000_0000

  /*** Little-endian numbers ***/

  function U16(d: Bytes, p: nat): (v: uint64)
    requires p + 2 <= |d|
    ensures v < 0x1_0000
  {
    d[p] as uint64 + 0x100 * d[p + 1] as uint64
  }

  function U32(d: Bytes, p: nat): (v: uint64)
    requires p + 4 <= |d|
    ensures v < 0x1_0000_0000
  {
    U16(d, p) + 0x1_0000 * U16(d, p + 2)
  }

  function U64(d: Bytes, p: nat): (v: uint64)
    requires p + 8 <= |d|
  {
    U32(d, p) + 0x1_0000_0000 * U32(d, p + 4)
  }

  /*** What a central directory is ***/

  const END_SIGNATURE: uint64 := 0x0605_4b50
  const LOCATOR_SIGNATURE: uint64 := 0x0706_4b50
  const END64_SIGNATURE: uint64 := 0x0606_4b50
  const RECORD_SIGNATURE: uint64 := 0x0201_4b50

  const MAX_COUNT := 10000
  const MAX_DIRECTORY := 0x100_0000
  const TAIL := 65557

  /** An end record at `e` whose comment ends the archive. */
  predicate EndAt(d: Bytes, e: nat) {
    e + 22 <= |d| && U32(d, e) == END_SIGNATURE && e + 22 + U16(d, e + 20) as int == |d|
  }

  predicate LastEnd(d: Bytes, e: nat) {
    EndAt(d, e) && forall f: nat :: e < f < |d| ==> !EndAt(d, f)
  }

  /** Where the central directory is, and how many records it claims to have; it ends at `end`
      at the latest. */
  datatype Directory = Directory(count: nat, size: nat, offset: nat, end: nat)

  /** Some field of the end record refers to the ZIP64 end record. */
  predicate NeedsZip64(d: Bytes, e: nat)
    requires e + 22 <= |d|
  {
    U16(d, e + 10) == 0xffff || U32(d, e + 12) == 0xffff_ffff || U32(d, e + 16) == 0xffff_ffff
  }

  predicate OneDisk(d: Bytes, e: nat)
    requires e + 22 <= |d|
  {
    U16(d, e + 4) == 0 && U16(d, e + 6) == 0 && U16(d, e + 8) == U16(d, e + 10)
  }

  predicate PlainDirectory(d: Bytes, e: nat, c: Directory)
    requires e + 22 <= |d|
  {
    c == Directory(U16(d, e + 10) as int, U32(d, e + 12) as int, U32(d, e + 16) as int, e)
  }

  /** A ZIP64 end record at `at`, immediately before its locator at `l`, on one disk. */
  predicate End64At(d: Bytes, at: nat, l: nat)
    requires l <= |d|
  {
    && at + 56 <= l && U32(d, at) == END64_SIGNATURE && at as int + 12 + U64(d, at + 4) as int == l
    && U32(d, at + 16) == 0 && U32(d, at + 20) == 0 && U64(d, at + 24) == U64(d, at + 32)
  }

  /** The locator of a ZIP64 end record on one disk, immediately before the end record. */
  predicate LocatorBefore(d: Bytes, e: nat)
    requires e + 22 <= |d|
  {
    e >= 20 && U32(d, e - 20) == LOCATOR_SIGNATURE && U32(d, e - 16) == 0 && U32(d, e - 4) == 1
  }

  /** The locator leads to a ZIP64 end record that describes this directory. */
  predicate Located(d: Bytes, e: nat, c: Directory)
    requires e + 22 <= |d|
  {
    && LocatorBefore(d, e)
    && var at := U64(d, e - 12) as int;
       && End64At(d, at, e - 20)
       && c == Directory(U64(d, at + 32) as int, U64(d, at + 40) as int, U64(d, at + 48) as int, at)
  }

  /** The locator is read only if it lies in the tail of the archive. */
  predicate Zip64Directory(d: Bytes, e: nat, c: Directory)
    requires e + 22 <= |d|
  {
    |d| - (e - 20) <= TAIL && Located(d, e, c)
  }

  predicate DirectoryOf(d: Bytes, e: nat, c: Directory)
    requires e + 22 <= |d|
  {
    OneDisk(d, e) && if NeedsZip64(d, e) then Zip64Directory(d, e, c) else PlainDirectory(d, e, c)
  }

  /** The length of the central record at `p`. */
  function RecordLength(d: Bytes, p: nat): nat
    requires p + 46 <= |d|
  {
    46 + U16(d, p + 28) as int + U16(d, p + 30) as int + U16(d, p + 32) as int
  }

  predicate RecordAt(d: Bytes, p: nat, limit: nat) {
    limit <= |d| && p + 46 <= limit && U32(d, p) == RECORD_SIGNATURE && p + RecordLength(d, p) <= limit
  }

  /** Records at these positions, each ending by `limit`, lie one after the other from `from`
      to `to`. */
  predicate Chain(d: Bytes, positions: seq<nat>, from: nat, to: nat, limit: nat) {
    && (forall i :: 0 <= i < |positions| ==> RecordAt(d, positions[i], limit))
    && (if positions == [] then from == to else positions[0] == from)
    && (forall i :: 0 <= i < |positions| - 1 ==> positions[i] + RecordLength(d, positions[i]) == positions[i + 1])
    && (positions != [] ==> positions[|positions| - 1] + RecordLength(d, positions[|positions| - 1]) == to)
  }

  /** Records at these positions fill the range without gap or overlap. */
  predicate Tiles(d: Bytes, positions: seq<nat>, from: nat, limit: nat) {
    Chain(d, positions, from, limit, limit)
  }

  predicate Within(d: Bytes, c: Directory) {
    c.count <= MAX_COUNT && c.size <= MAX_DIRECTORY && c.offset + c.size <= c.end <= |d|
  }

  /** What the check accepts. */
  ghost predicate Acceptable(d: Bytes) {
    exists e: nat, c, positions ::
      && LastEnd(d, e) && DirectoryOf(d, e, c) && Within(d, c)
      && |positions| == c.count && Tiles(d, positions, c.offset, c.offset + c.size)
  }

  lemma DescribedIsAcceptable(d: Bytes, e: nat, c: Directory, positions: seq<nat>)
    requires LastEnd(d, e) && DirectoryOf(d, e, c) && Within(d, c)
    requires |positions| == c.count && Tiles(d, positions, c.offset, c.offset + c.size)
    ensures Acceptable(d)
  {
    hide LastEnd, DirectoryOf, Within, Tiles;
  }

  /** No end record is missed by looking at the tail only. */
  lemma EndsAreInTail(d: Bytes, e: nat)
    requires EndAt(d, e)
    ensures |d| - e <= TAIL
  {
  }

  lemma ChainHead(d: Bytes, chain: seq<nat>, from: nat, to: nat, limit: nat)
    requires Chain(d, chain, from, to, limit)
    ensures chain == [] ==> from == to
    ensures chain != [] ==> RecordAt(d, from, limit) && from + 46 <= limit <= |d|
    ensures chain != [] ==> chain[0] == from && Chain(d, chain[1..], from + RecordLength(d, from), to, limit)
  {
    hide U16, U32;
  }

  /** A chain is the beginning of any tiling of the same range. */
  lemma {:induction false} ChainBeginsTiling(d: Bytes, chain: seq<nat>, tiling: seq<nat>, from: nat, to: nat, limit: nat)
    requires Chain(d, chain, from, to, limit) && Tiles(d, tiling, from, limit)
    ensures |chain| <= |tiling| && chain == tiling[..|chain|]
    ensures |chain| == |tiling| <==> to == limit
    ensures |chain| < |tiling| ==> tiling[|chain|] == to && RecordAt(d, to, limit)
    decreases |chain|
  {
    hide U16, U32, Chain, RecordLength, RecordAt;
    ChainHead(d, chain, from, to, limit);
    ChainHead(d, tiling, from, limit, limit);
    if chain != [] && tiling != [] {
      ChainBeginsTiling(d, chain[1..], tiling[1..], from + RecordLength(d, from), to, limit);
      assert chain == [from] + chain[1..] && tiling == [from] + tiling[1..];
    }
  }

  lemma TilingsThrough(d: Bytes, chain: seq<nat>, from: nat, to: nat, limit: nat)
    requires Chain(d, chain, from, to, limit)
    ensures forall tiling :: Tiles(d, tiling, from, limit) ==>
              && |tiling| >= |chain|
              && (to == limit ==> tiling == chain)
              && (to != limit ==> RecordAt(d, to, limit))
  {
    forall tiling | Tiles(d, tiling, from, limit)
      ensures |tiling| >= |chain| && (to == limit ==> tiling == chain) && (to != limit ==> RecordAt(d, to, limit))
    {
      ChainBeginsTiling(d, chain, tiling, from, to, limit);
    }
  }

  /*** The check ***/

  datatype Verdict = Fine | Corrupt | Unsupported | TooLarge

  lemma EmptyChain(d: Bytes, from: nat, limit: nat)
    ensures Chain(d, [], from, from, limit)
  {
  }

  lemma ChainExtends(d: Bytes, chain: seq<nat>, from: nat, to: nat, limit: nat)
    requires Chain(d, chain, from, to, limit) && RecordAt(d, to, limit)
    ensures Chain(d, chain + [to], from, to + RecordLength(d, to), limit)
  {
    hide U16, U32, RecordLength;
  }

  /** Walks the records of the directory; `Fine` exactly when they tile it and are as many as
      declared. */
  method WalkRecords(d: Bytes, count: uint64, directorySize: uint64, offset: uint64) returns (verdict: Verdict)
    requires |d| < 0x8000_0000_0000_0000
    requires directorySize as int <= MAX_DIRECTORY && count as int <= MAX_COUNT
    requires offset as int + directorySize as int <= |d|
    ensures verdict == Fine <==> exists positions ::
              |positions| == count as int && Tiles(d, positions, offset as int, offset as int + directorySize as int)
  {
    hide U16, U32, Chain;
    var position := offset;
    var actual: uint64 := 0;
    ghost var limit := offset as int + directorySize as int;
    ghost var walked: seq<nat> := [];
    EmptyChain(d, offset as int, limit);
    while position < offset + directorySize
      invariant offset <= position && position as int <= limit
      invariant actual as int == |walked| <= MAX_COUNT
      invariant Chain(d, walked, offset as int, position as int, limit)
      decreases limit - position as int
    {
      TilingsThrough(d, walked, offset as int, position as int, limit);
      if offset + directorySize - position < 46 {
        return Corrupt;
      }
      var at := position as int64;
      var header := d[at..at + 46];
      ReadFrom(d, at as int, at as int + 46);
      if U32(header, 0) != RECORD_SIGNATURE {
        return Corrupt;
      }
      var recordSize: uint64 := 46 + U16(header, 28) + U16(header, 30) + U16(header, 32);
      assert recordSize as int == RecordLength(d, position as int);
      if recordSize > offset + directorySize - position {
        return Corrupt;
      }
      ChainExtends(d, walked, offset as int, position as int, limit);
      walked := walked + [position as int];
      position := position + recordSize;
      actual := actual + 1;
      TilingsThrough(d, walked, offset as int, position as int, limit);
      if actual > 10000 {
        return TooLarge;
      }
    }
    TilingsThrough(d, walked, offset as int, limit, limit);
    return if actual == count then Fine else Corrupt;
  }

  /** Numbers are the same in a part of the archive that was read into a buffer. */
  lemma ReadFrom(d: Bytes, a: nat, b: nat)
    requires a <= b <= |d|
    ensures forall p: nat :: p + 2 <= b - a ==> U16(d[a..b], p) == U16(d, a + p)
    ensures forall p: nat :: p + 4 <= b - a ==> U32(d[a..b], p) == U32(d, a + p)
    ensures forall p: nat :: p + 8 <= b - a ==> U64(d[a..b], p) == U64(d, a + p)
  {
  }

  /** Reads the end record at `i` in the tail and, if it refers to it, the ZIP64 end record. */
  method ReadDirectory(d: Bytes, tail: Bytes, i: int64, ghost e: nat)
    returns (verdict: Verdict, count: uint64, directorySize: uint64, offset: uint64, end: uint64)
    requires |d| < 0x8000_0000_0000_0000 && |tail| <= |d| && tail == d[|d| - |tail|..|d|]
    requires |tail| == if |d| < TAIL then |d| else TAIL
    requires 0 <= i as int && i as int + 22 <= |tail| && e == |d| - |tail| + i as int
    ensures verdict == Fine ==>
              DirectoryOf(d, e, Directory(count as int, directorySize as int, offset as int, end as int))
    ensures verdict == Fine ==> end as int <= |d|
    ensures verdict != Fine ==> forall c :: !DirectoryOf(d, e, c)
  {
    hide U16, U32, U64;
    ReadFrom(d, |d| - |tail|, |d|);
    var base := (|d| - |tail|) as int64;
    count, directorySize, offset, end := 0, 0, 0, (base + i) as uint64;
    if U16(tail, i as int + 4) != 0 || U16(tail, i as int + 6) != 0 {
      verdict := Unsupported;
      return;
    }
    count := U16(tail, i as int + 10);
    if U16(tail, i as int + 8) != count {
      verdict := Unsupported;
      return;
    }
    directorySize := U32(tail, i as int + 12);
    offset := U32(tail, i as int + 16);
    verdict := Fine;
    if count == 0xffff || directorySize == 0xffff_ffff || offset == 0xffff_ffff {
      hide DirectoryOf;
      verdict, count, directorySize, offset, end := ReadZip64(d, tail, i, e);
      Zip64Decides(d, e);
    }
  }

  lemma Zip64Decides(d: Bytes, e: nat)
    requires e + 22 <= |d| && OneDisk(d, e) && NeedsZip64(d, e)
    ensures forall c :: DirectoryOf(d, e, c) <==> Zip64Directory(d, e, c)
  {
  }

  method ReadZip64(d: Bytes, tail: Bytes, i: int64, ghost e: nat)
    returns (verdict: Verdict, count: uint64, directorySize: uint64, offset: uint64, end: uint64)
    requires |d| < 0x8000_0000_0000_0000 && |tail| <= |d| && tail == d[|d| - |tail|..|d|]
    requires |tail| == if |d| < TAIL then |d| else TAIL
    requires 0 <= i as int && i as int + 22 <= |tail| && e == |d| - |tail| + i as int
    ensures verdict == Fine ==>
              Zip64Directory(d, e, Directory(count as int, directorySize as int, offset as int, end as int))
    ensures verdict == Fine ==> end as int <= |d|
    ensures verdict != Fine ==> forall c :: !Zip64Directory(d, e, c)
  {
    hide U16, U32, U64;
    ReadFrom(d, |d| - |tail|, |d|);
    var base := (|d| - |tail|) as int64;
    count, directorySize, offset, end := 0, 0, 0, 0;
    if i < 20 || U32(tail, i as int - 20) != LOCATOR_SIGNATURE {
      verdict := Corrupt;
      return;
    }
    ReadFrom(tail, i as int - 20, i as int);
    var locator := tail[i - 20..i];
    if U32(locator, 4) != 0 || U32(locator, 16) != 1 {
      verdict := Unsupported;
      return;
    }
    var at := U64(locator, 8);
    verdict, count, directorySize, offset := ReadEnd64(d, at, (base + i - 20) as uint64);
    end := at;
  }

  /** Reads the ZIP64 end record at `at`, before its locator at `locatorAt`. */
  method ReadEnd64(d: Bytes, at: uint64, locatorAt: uint64)
    returns (verdict: Verdict, count: uint64, directorySize: uint64, offset: uint64)
    requires |d| < 0x8000_0000_0000_0000 && locatorAt as int + 20 <= |d|
    ensures verdict == Fine <==> End64At(d, at as int, locatorAt as int)
    ensures verdict == Fine ==>
              && count == U64(d, at as int + 32) && directorySize == U64(d, at as int + 40)
              && offset == U64(d, at as int + 48)
  {
    hide U16, U32, U64;
    count, directorySize, offset := 0, 0, 0;
    if at > |d| as uint64 || |d| as uint64 - at < 56 {
      verdict := Corrupt;
      return;
    }
    ReadFrom(d, at as int, at as int + 56);
    var start := at as int64;
    var header := d[start..start + 56];
    if U32(header, 0) != END64_SIGNATURE || U64(header, 4) < 44 {
      verdict := Corrupt;
      return;
    }
    if U32(header, 16) != 0 || U32(header, 20) != 0 {
      verdict := Unsupported;
      return;
    }
    var recordSize := U64(header, 4);
    if at > locatorAt || locatorAt - at < 12 || recordSize != locatorAt - at - 12 {
      verdict := Corrupt;
      return;
    }
    count := U64(header, 32);
    if U64(header, 24) != count {
      verdict := Unsupported;
      return;
    }
    directorySize, offset := U64(header, 40), U64(header, 48);
    verdict := Fine;
  }

  lemma DirectoryIsUnique(d: Bytes, e: nat, b: Directory, c: Directory)
    requires e + 22 <= |d| && DirectoryOf(d, e, b) && DirectoryOf(d, e, c)
    ensures b == c
  {
  }

  /** The directory that the end record at `e` leads to is tiled as declared, within the limits. */
  ghost predicate Leads(d: Bytes, e: nat)
    requires e + 22 <= |d|
  {
    exists c, positions ::
      DirectoryOf(d, e, c) && Within(d, c) && |positions| == c.count && Tiles(d, positions, c.offset, c.offset + c.size)
  }

  lemma DirectoryDecides(d: Bytes, e: nat, c: Directory)
    requires e + 22 <= |d| && DirectoryOf(d, e, c)
    ensures Leads(d, e) <==>
              Within(d, c) && exists positions :: |positions| == c.count && Tiles(d, positions, c.offset, c.offset + c.size)
  {
    hide DirectoryOf, Tiles, Within;
    forall b | DirectoryOf(d, e, b)
      ensures b == c
    {
      DirectoryIsUnique(d, e, b, c);
    }
  }

  /** Decides at the position of the last end record. */
  method CheckEnd(d: Bytes, tail: Bytes, i: int64, ghost e: nat) returns (verdict: Verdict)
    requires |d| < 0x8000_0000_0000_0000 && |tail| <= |d| && tail == d[|d| - |tail|..|d|]
    requires |tail| == if |d| < TAIL then |d| else TAIL
    requires 0 <= i as int && i as int + 22 <= |tail| && e == |d| - |tail| + i as int
    ensures verdict == Fine <==> Leads(d, e)
  {
    hide DirectoryOf, Tiles;
    var count, directorySize, offset, end;
    verdict, count, directorySize, offset, end := ReadDirectory(d, tail, i, e);
    if verdict != Fine {
      return;
    }
    DirectoryDecides(d, e, Directory(count as int, directorySize as int, offset as int, end as int));
    if count > 10000 || directorySize > 16 * 0x10_0000 {
      return TooLarge;
    }
    if offset > end || directorySize > end - offset {
      return Corrupt;
    }
    verdict := WalkRecords(d, count, directorySize, offset);
  }

  lemma OnlyLastEndCounts(d: Bytes, e: nat)
    requires LastEnd(d, e)
    ensures Acceptable(d) <==> Leads(d, e)
  {
    hide DirectoryOf, Tiles;
    forall f: nat | LastEnd(d, f)
      ensures f == e
    {
    }
  }

  /** Everything the format and the limits ask of a ZIP64 archive whose end record is at `e`,
      wherever its locator lies. */
  ghost predicate WellFormed64(d: Bytes, e: nat) {
    && LastEnd(d, e) && OneDisk(d, e) && NeedsZip64(d, e)
    && exists c, positions ::
         Located(d, e, c) && Within(d, c) && |positions| == c.count && Tiles(d, positions, c.offset, c.offset + c.size)
  }

  lemma DescribedIsWellFormed64(d: Bytes, e: nat, c: Directory, positions: seq<nat>)
    requires LastEnd(d, e) && OneDisk(d, e) && NeedsZip64(d, e)
    requires Located(d, e, c) && Within(d, c) && |positions| == c.count && Tiles(d, positions, c.offset, c.offset + c.size)
    ensures WellFormed64(d, e)
  {
    hide LastEnd, OneDisk, NeedsZip64, Located, Within, Tiles;
  }

  /** The tail is not long enough for every ZIP64 archive.  A well-formed one is accepted exactly
      when its comment leaves room for the locator. */
  lemma LongCommentHidesLocator(d: Bytes, e: nat)
    requires WellFormed64(d, e)
    ensures Acceptable(d) <==> U16(d, e + 20) <= 65515
  {
    OnlyLastEndCounts(d, e);
    hide U16, U32, U64, Tiles;
  }

  /** Accepts an archive exactly when the last end record in it leads to a directory that is
      tiled by as many records as declared, within the limits. */
  method BoundedZIPDirectory(d: Bytes) returns (verdict: Verdict)
    requires |d| < 0x8000_0000_0000_0000
    ensures verdict == Fine <==> Acceptable(d)
  {
    var length: int64 := 65557;
    if |d| as int64 < length {
      length := |d| as int64;
    }
    var base := |d| as int64 - length;
    var tail := d[base..|d|];
    hide U16, U32, U64;
    ReadFrom(d, base as int, |d|);
    var i := length - 22;
    while i >= 0
      invariant i <= length - 22
      invariant forall f: nat :: EndAt(d, f) ==> f <= base as int + i as int
    {
      ghost var e := base as int + i as int;
      if U32(tail, i as int) == END_SIGNATURE && i as int + 22 + U16(tail, i as int + 20) as int == |tail| {
        assert LastEnd(d, e);
        OnlyLastEndCounts(d, e);
        verdict := CheckEnd(d, tail, i, e);
        return;
      }
      assert !EndAt(d, e);
      i := i - 1;
    }
    forall f: nat
      ensures !EndAt(d, f)
    {
      if EndAt(d, f) {
        EndsAreInTail(d, f);
      }
    }
    return Corrupt;
  }
}

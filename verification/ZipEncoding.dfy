/** Archives written as the format asks are accepted by the check of their directory. */
module ZipEncoding {
  import opened Basics
  import opened ZipDirectory

  function Put16(v: nat): (b: Bytes)
    requires v < 0x1_0000
    ensures |b| == 2 && U16(b, 0) as int == v
  {
    [(v % 0x100) as byte, (v / 0x100) as byte]
  }

  function Put32(v: nat): (b: Bytes)
    requires v < 0x1_0000_0000
    ensures |b| == 4 && U32(b, 0) as int == v
  {
    Put16(v % 0x1_0000) + Put16(v / 0x1_0000)
  }

  /** A central directory record; `versions` and `attributes` stand for the fields that the
      check does not read. */
  datatype Record = Record(versions: Bytes, attributes: Bytes, name: Bytes, extra: Bytes, comment: Bytes)

  predicate Fits(r: Record) {
    |r.versions| == 24 && |r.attributes| == 12 && |r.name| < 0x1_0000 && |r.extra| < 0x1_0000 && |r.comment| < 0x1_0000
  }

  function Encoded(r: Record): (b: Bytes)
    requires Fits(r)
    ensures |b| == 46 + |r.name| + |r.extra| + |r.comment|
  {
    Put32(0x0201_4b50) + r.versions + Put16(|r.name|) + Put16(|r.extra|) + Put16(|r.comment|) + r.attributes
    + r.name + r.extra + r.comment
  }

  function EncodedAll(records: seq<Record>): Bytes
    requires forall i :: 0 <= i < |records| ==> Fits(records[i])
  {
    if records == [] then [] else Encoded(records[0]) + EncodedAll(records[1..])
  }

  function EncodedEnd(count: nat, size: nat, offset: nat, comment: Bytes): (b: Bytes)
    requires count < 0x1_0000 && size < 0x1_0000_0000 && offset < 0x1_0000_0000 && |comment| < 0x1_0000
    ensures |b| == 22 + |comment|
  {
    Put32(0x0605_4b50) + Put16(0) + Put16(0) + Put16(count) + Put16(count) + Put32(size) + Put32(offset)
    + Put16(|comment|) + comment
  }

  /** The contents, then the central directory, then the end record. */
  function Archive(contents: Bytes, records: seq<Record>, comment: Bytes): Bytes
    requires WellFormed(contents, records, comment)
  {
    contents + EncodedAll(records) + EncodedEnd(|records|, |EncodedAll(records)|, |contents|, comment)
  }

  /** The limits of the check, and no field that would refer to a ZIP64 end record. */
  predicate WellFormed(contents: Bytes, records: seq<Record>, comment: Bytes) {
    && (forall i :: 0 <= i < |records| ==> Fits(records[i]))
    && |records| <= MAX_COUNT && |EncodedAll(records)| <= MAX_DIRECTORY
    && |contents| < 0xffff_ffff && |comment| < 0x1_0000
  }

  function Starts(records: seq<Record>, from: nat): (positions: seq<nat>)
    requires forall i :: 0 <= i < |records| ==> Fits(records[i])
    ensures |positions| == |records|
  {
    if records == [] then [] else [from] + Starts(records[1..], from + |Encoded(records[0])|)
  }

  lemma Read16(d: Bytes, p: nat, v: nat)
    requires v < 0x1_0000 && p + 2 <= |d| && d[p..p + 2] == Put16(v)
    ensures U16(d, p) as int == v
  {
    ReadFrom(d, p, p + 2);
  }

  lemma Read32(d: Bytes, p: nat, v: nat)
    requires v < 0x1_0000_0000 && p + 4 <= |d| && d[p..p + 4] == Put32(v)
    ensures U32(d, p) as int == v
  {
    ReadFrom(d, p, p + 4);
  }

  lemma RecordIsRead(r: Record)
    requires Fits(r)
    ensures
      var b := Encoded(r);
      U32(b, 0) == RECORD_SIGNATURE && U16(b, 28) as int == |r.name| && U16(b, 30) as int == |r.extra| && U16(b, 32) as int == |r.comment|
  {
    hide U16, U32, Put16, Put32;
    var b := Encoded(r);
    assert b[0..4] == Put32(RECORD_SIGNATURE as int);
    assert b[28..30] == Put16(|r.name|);
    assert b[30..32] == Put16(|r.extra|);
    assert b[32..34] == Put16(|r.comment|);
    Read32(b, 0, RECORD_SIGNATURE as int);
    Read16(b, 28, |r.name|);
    Read16(b, 30, |r.extra|);
    Read16(b, 32, |r.comment|);
  }

  lemma RecordIsFound(d: Bytes, p: nat, r: Record, limit: nat)
    requires Fits(r) && p + |Encoded(r)| <= limit <= |d| && d[p..p + |Encoded(r)|] == Encoded(r)
    ensures RecordAt(d, p, limit) && RecordLength(d, p) == |Encoded(r)|
  {
    hide U16, U32;
    ReadFrom(d, p, p + |Encoded(r)|);
    RecordIsRead(r);
  }

  lemma ChainGrows(d: Bytes, p: nat, rest: seq<nat>, next: nat, to: nat, limit: nat)
    requires RecordAt(d, p, limit) && p + RecordLength(d, p) == next && Chain(d, rest, next, to, limit)
    ensures Chain(d, [p] + rest, p, to, limit)
  {
    hide U16, U32;
    var chain := [p] + rest;
    assert forall i :: 0 < i < |chain| ==> chain[i] == rest[i - 1];
  }

  lemma Halves(d: Bytes, from: nat, a: Bytes, b: Bytes)
    requires from + |a + b| <= |d| && d[from..from + |a + b|] == a + b
    ensures d[from..from + |a|] == a && d[from + |a|..from + |a| + |b|] == b
  {
    var both := d[from..from + |a + b|];
    assert both[..|a|] == a && both[|a|..] == b;
  }

  lemma {:induction false} RecordsAreFound(d: Bytes, from: nat, records: seq<Record>, limit: nat)
    requires forall i :: 0 <= i < |records| ==> Fits(records[i])
    requires from + |EncodedAll(records)| <= limit <= |d| && d[from..from + |EncodedAll(records)|] == EncodedAll(records)
    ensures Chain(d, Starts(records, from), from, from + |EncodedAll(records)|, limit)
    decreases |records|
  {
    hide Chain, RecordAt, RecordLength, Encoded, U16, U32;
    if records == [] {
      EmptyChain(d, from, limit);
    } else {
      var first, rest := Encoded(records[0]), EncodedAll(records[1..]);
      var next := from + |first|;
      Halves(d, from, first, rest);
      RecordIsFound(d, from, records[0], limit);
      RecordsAreFound(d, next, records[1..], limit);
      ChainGrows(d, from, Starts(records[1..], next), next, from + |EncodedAll(records)|, limit);
    }
  }

  lemma EndIsRead(count: nat, size: nat, offset: nat, comment: Bytes)
    requires count < 0x1_0000 && size < 0x1_0000_0000 && offset < 0x1_0000_0000 && |comment| < 0x1_0000
    ensures
      var b := EncodedEnd(count, size, offset, comment);
      && U32(b, 0) == END_SIGNATURE && U16(b, 4) == 0 && U16(b, 6) == 0
      && U16(b, 8) as int == count && U16(b, 10) as int == count && U32(b, 12) as int == size && U32(b, 16) as int == offset
      && U16(b, 20) as int == |comment|
  {
    hide U16, U32, Put16, Put32;
    var b := EncodedEnd(count, size, offset, comment);
    assert b[0..4] == Put32(END_SIGNATURE as int);
    assert b[4..6] == Put16(0) && b[6..8] == Put16(0);
    assert b[8..10] == Put16(count) && b[10..12] == Put16(count);
    assert b[12..16] == Put32(size) && b[16..20] == Put32(offset);
    assert b[20..22] == Put16(|comment|);
    Read32(b, 0, END_SIGNATURE as int);
    Read16(b, 4, 0);
    Read16(b, 6, 0);
    Read16(b, 8, count);
    Read16(b, 10, count);
    Read32(b, 12, size);
    Read32(b, 16, offset);
    Read16(b, 20, |comment|);
  }

  lemma ArchiveParts(contents: Bytes, records: seq<Record>, comment: Bytes)
    requires WellFormed(contents, records, comment)
    ensures
      var d, all := Archive(contents, records, comment), EncodedAll(records);
      var e := |contents| + |all|;
      && |d| == e + 22 + |comment| && d[|contents|..e] == all
      && d[e..|d|] == EncodedEnd(|records|, |all|, |contents|, comment)
  {
    hide EncodedAll, EncodedEnd;
  }

  /** The directory of a well-formed archive is found and tiled by exactly its records. */
  lemma ArchiveIsRead(contents: Bytes, records: seq<Record>, comment: Bytes)
    requires WellFormed(contents, records, comment)
    ensures
      var d := Archive(contents, records, comment);
      var size := |EncodedAll(records)|;
      var e := |contents| + size;
      && EndAt(d, e) && DirectoryOf(d, e, Directory(|records|, size, |contents|, e))
      && Tiles(d, Starts(records, |contents|), |contents|, e)
  {
    hide U16, U32, Archive, EncodedAll, EncodedEnd, Chain, Starts;
    ArchiveParts(contents, records, comment);
    var d := Archive(contents, records, comment);
    var size := |EncodedAll(records)|;
    var e := |contents| + size;
    RecordsAreFound(d, |contents|, records, e);
    EndIsRead(|records|, size, |contents|, comment);
    ReadFrom(d, e, |d|);
  }

  /** A well-formed archive is accepted unless its comment makes a later position look like an
      end record; without a comment nothing can. */
  lemma WellFormedIsAccepted(contents: Bytes, records: seq<Record>, comment: Bytes)
    requires WellFormed(contents, records, comment)
    requires
      var d := Archive(contents, records, comment);
      comment == [] || forall f: nat :: |contents| + |EncodedAll(records)| < f < |d| ==> !EndAt(d, f)
    ensures Acceptable(Archive(contents, records, comment))
  {
    hide U16, U32, Archive, EncodedAll, Tiles, DirectoryOf, Starts, Acceptable;
    ArchiveParts(contents, records, comment);
    ArchiveIsRead(contents, records, comment);
    var d := Archive(contents, records, comment);
    var e := |contents| + |EncodedAll(records)|;
    var c := Directory(|records|, |EncodedAll(records)|, |contents|, e);
    DescribedIsAcceptable(d, e, c, Starts(records, |contents|));
  }

  /*** ZIP64 archives ***/

  function Put64(v: nat): (b: Bytes)
    requires v < 0x1_0000_0000_0000_0000
    ensures |b| == 8 && U64(b, 0) as int == v
  {
    Put32(v % 0x1_0000_0000) + Put32(v / 0x1_0000_0000)
  }

  lemma Read64(d: Bytes, p: nat, v: nat)
    requires v < 0x1_0000_0000_0000_0000 && p + 8 <= |d| && d[p..p + 8] == Put64(v)
    ensures U64(d, p) as int == v
  {
    ReadFrom(d, p, p + 8);
  }

  function EncodedEnd64(count: nat, size: nat, offset: nat): (b: Bytes)
    requires count < 0x1_0000 && size < 0x1_0000_0000 && offset < 0x1_0000_0000_0000_0000
    ensures |b| == 56
  {
    Put32(0x0606_4b50) + Put64(44) + Put32(0) + Put32(0) + Put32(0) + Put64(count) + Put64(count) + Put64(size) + Put64(offset)
  }

  function EncodedLocator(at: nat): (b: Bytes)
    requires at < 0x1_0000_0000_0000_0000
    ensures |b| == 20
  {
    Put32(0x0706_4b50) + Put32(0) + Put64(at) + Put32(1)
  }

  /** An end record that leaves everything to the ZIP64 end record. */
  function ReferringEnd(comment: Bytes): (b: Bytes)
    requires |comment| < 0x1_0000
    ensures |b| == 22 + |comment|
  {
    EncodedEnd(0xffff, 0xffff_ffff, 0xffff_ffff, comment)
  }

  predicate Fits64(contents: Bytes, records: seq<Record>, comment: Bytes) {
    && (forall i :: 0 <= i < |records| ==> Fits(records[i]))
    && |records| <= MAX_COUNT && |EncodedAll(records)| <= MAX_DIRECTORY
    && |contents| < 0x4000_0000_0000_0000 && |comment| < 0x1_0000
  }

  function Archive64(contents: Bytes, records: seq<Record>, comment: Bytes): Bytes
    requires Fits64(contents, records, comment)
  {
    var all := EncodedAll(records);
    contents + all + EncodedEnd64(|records|, |all|, |contents|) + EncodedLocator(|contents| + |all|) + ReferringEnd(comment)
  }

  lemma End64IsRead(count: nat, size: nat, offset: nat)
    requires count < 0x1_0000 && size < 0x1_0000_0000 && offset < 0x1_0000_0000_0000_0000
    ensures
      var b := EncodedEnd64(count, size, offset);
      && U32(b, 0) == END64_SIGNATURE && U64(b, 4) == 44 && U32(b, 16) == 0 && U32(b, 20) == 0
      && U64(b, 24) as int == count && U64(b, 32) as int == count && U64(b, 40) as int == size && U64(b, 48) as int == offset
  {
    hide U32, U64, Put32, Put64;
    var b := EncodedEnd64(count, size, offset);
    assert b[0..4] == Put32(END64_SIGNATURE as int) && b[4..12] == Put64(44);
    assert b[16..20] == Put32(0) && b[20..24] == Put32(0);
    assert b[24..32] == Put64(count) && b[32..40] == Put64(count);
    assert b[40..48] == Put64(size) && b[48..56] == Put64(offset);
    Read32(b, 0, END64_SIGNATURE as int);
    Read64(b, 4, 44);
    Read32(b, 16, 0);
    Read32(b, 20, 0);
    Read64(b, 24, count);
    Read64(b, 32, count);
    Read64(b, 40, size);
    Read64(b, 48, offset);
  }

  lemma LocatorIsRead(at: nat)
    requires at < 0x1_0000_0000_0000_0000
    ensures
      var b := EncodedLocator(at);
      U32(b, 0) == LOCATOR_SIGNATURE && U32(b, 4) == 0 && U64(b, 8) as int == at && U32(b, 16) == 1
  {
    hide U32, U64, Put32, Put64;
    var b := EncodedLocator(at);
    assert b[0..4] == Put32(LOCATOR_SIGNATURE as int) && b[4..8] == Put32(0);
    assert b[8..16] == Put64(at) && b[16..20] == Put32(1);
    Read32(b, 0, LOCATOR_SIGNATURE as int);
    Read32(b, 4, 0);
    Read64(b, 8, at);
    Read32(b, 16, 1);
  }

  lemma Archive64Parts(contents: Bytes, records: seq<Record>, comment: Bytes)
    requires Fits64(contents, records, comment)
    ensures
      var d, all := Archive64(contents, records, comment), EncodedAll(records);
      var at := |contents| + |all|;
      && |d| == at + 98 + |comment| && d[|contents|..at] == all
      && d[at..at + 56] == EncodedEnd64(|records|, |all|, |contents|)
      && d[at + 56..at + 76] == EncodedLocator(at)
      && d[at + 76..|d|] == ReferringEnd(comment)
  {
    hide EncodedAll, EncodedEnd64, EncodedLocator, ReferringEnd;
  }

  /** The ZIP64 directory of an encoded archive is described by its locator and tiled by exactly
      its records. */
  lemma Archive64IsRead(contents: Bytes, records: seq<Record>, comment: Bytes)
    requires Fits64(contents, records, comment)
    ensures
      var d := Archive64(contents, records, comment);
      var at := |contents| + |EncodedAll(records)|;
      var e := at + 76;
      && EndAt(d, e) && OneDisk(d, e) && NeedsZip64(d, e) && U16(d, e + 20) as int == |comment|
      && Located(d, e, Directory(|records|, |EncodedAll(records)|, |contents|, at))
      && Tiles(d, Starts(records, |contents|), |contents|, at)
  {
    hide U16, U32, U64, Archive64, EncodedAll, EncodedEnd, EncodedEnd64, EncodedLocator, Chain, Starts;
    Archive64Parts(contents, records, comment);
    var d := Archive64(contents, records, comment);
    var size := |EncodedAll(records)|;
    var at := |contents| + size;
    RecordsAreFound(d, |contents|, records, at);
    End64IsRead(|records|, size, |contents|);
    LocatorIsRead(at);
    EndIsRead(0xffff, 0xffff_ffff, 0xffff_ffff, comment);
    ReadFrom(d, at, at + 56);
    ReadFrom(d, at + 56, at + 76);
    ReadFrom(d, at + 76, |d|);
  }

  /** An encoded ZIP64 archive is well-formed, unless its comment makes a later position look
      like an end record. */
  lemma Archive64IsWellFormed(contents: Bytes, records: seq<Record>, comment: Bytes)
    requires Fits64(contents, records, comment)
    requires
      var d := Archive64(contents, records, comment);
      forall f: nat :: |contents| + |EncodedAll(records)| + 76 < f < |d| ==> !EndAt(d, f)
    ensures
      var d := Archive64(contents, records, comment);
      && WellFormed64(d, |contents| + |EncodedAll(records)| + 76)
      && (Acceptable(d) <==> |comment| <= 65515)
  {
    hide U16, U32, U64, Archive64, EncodedAll, Tiles, Starts, Located, WellFormed64, Acceptable, OneDisk, NeedsZip64;
    Archive64Parts(contents, records, comment);
    Archive64IsRead(contents, records, comment);
    var d := Archive64(contents, records, comment);
    var at := |contents| + |EncodedAll(records)|;
    var c := Directory(|records|, |EncodedAll(records)|, |contents|, at);
    DescribedIsWellFormed64(d, at + 76, c, Starts(records, |contents|));
    LongCommentHidesLocator(d, at + 76);
  }

  /** A comment without the last byte of the signature cannot look like an end record. */
  lemma PlainComment(d: Bytes, e: nat, comment: Bytes, f: nat)
    requires |comment| < 0x1_0000 && 6 !in comment
    requires e < f && e + 22 + |comment| == |d| && d[e..|d|] == ReferringEnd(comment)
    ensures !EndAt(d, f)
  {
    if EndAt(d, f) {
      SignatureBytes(d, f);
      var b := ReferringEnd(comment);
      var k := f - e;
      assert d[f] == b[k] && d[f + 3] == b[k + 3];
      ReferringBytes(comment, k);
    }
  }

  lemma SignatureBytes(d: Bytes, f: nat)
    requires f + 4 <= |d| && U32(d, f) == END_SIGNATURE
    ensures d[f] == 0x50 && d[f + 3] == 6
  {
    assert U16(d, f) == 0x4b50 && U16(d, f + 2) == 0x605;
  }

  lemma ReferringBytes(comment: Bytes, k: nat)
    requires |comment| < 0x1_0000 && 6 !in comment && 0 < k && k + 3 < 22 + |comment|
    ensures
      var b := ReferringEnd(comment);
      !(b[k] == 0x50 && b[k + 3] == 6)
  {
  }

  function Zeros(n: nat): (z: Bytes)
    ensures |z| == n && 6 !in z
  {
    seq(n, _ => 0)
  }

  /** The smallest ZIP64 archives: no records, and a comment of zeros. */
  function EmptyArchive64(n: nat): Bytes
    requires n < 0x1_0000
  {
    Archive64([], [], Zeros(n))
  }

  /** All of them are well-formed, and those with the longest comments are refused. */
  lemma LongCommentIsRefused(n: nat)
    requires n < 0x1_0000
    ensures WellFormed64(EmptyArchive64(n), 76) && (Acceptable(EmptyArchive64(n)) <==> n <= 65515)
  {
    hide Archive64, ReferringEnd, Zeros, WellFormed64, Acceptable, EndAt;
    var d := EmptyArchive64(n);
    Archive64Parts([], [], Zeros(n));
    forall f: nat | 76 < f < |d|
      ensures !EndAt(d, f)
    {
      PlainComment(d, 76, Zeros(n), f);
    }
    Archive64IsWellFormed([], [], Zeros(n));
  }

  /** The input where the promise first fails. */
  lemma OneByteTooMany()
    ensures WellFormed64(EmptyArchive64(65515), 76) && Acceptable(EmptyArchive64(65515))
    ensures WellFormed64(EmptyArchive64(65516), 76) && !Acceptable(EmptyArchive64(65516))
  {
    hide EmptyArchive64, WellFormed64, Acceptable;
    LongCommentIsRefused(65515);
    LongCommentIsRefused(65516);
  }
}

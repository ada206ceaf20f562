/** Part arithmetic and part accounting of one resumable upload (upload_store.go).

    An upload of `size` bytes is cut into `PartCount` parts of `chunk` bytes, the last one
    shorter.  Everything that later assembles, verifies or reports parts rests on three
    facts proved here: the count is the ceiling, the expected sizes add up to the size, and
    `PartCount` recorded indexes below `PartCount` are all of them. */
module UploadParts {
  import opened Basics

  const MAX_INT64 := 0x7fff_ffff_ffff_ffff

  /** SHA-256 as an injective digest. */
  datatype Digest = Sha256(preimage: seq<byte>)

  function DigestOf(bytes: seq<byte>): Digest {
    Sha256(bytes)
  }

  datatype PartRecord = PartRecord(size: nat, digest: Digest)

  /*** Counting parts ***/

  /** Two's-complement wrap-around of 64-bit signed arithmetic. */
  function Wrap64(x: int): int {
    (x + 0x8000_0000_0000_0000) % 0x1_0000_0000_0000_0000 - 0x8000_0000_0000_0000
  }

  /** Division that truncates toward zero. */
  function TruncDiv(a: int, b: int): int
    requires b > 0
  {
    if a >= 0 then a / b else -(-a / b)
  }

  function PartCount(size: int, chunk: int): int {
    if chunk <= 0 || size < 0 then 0
    else if size == 0 then 1
    else TruncDiv(Wrap64(size + chunk - 1), chunk)
  }

  /** `n` chunks are enough for `size` bytes and `n - 1` are not. */
  predicate IsCeiling(n: int, size: int, chunk: int) {
    (n - 1) * chunk < size <= n * chunk
  }

  /** The part count is the ceiling exactly when the rounding sum stays below 2^63. */
  lemma PartCountIsCeiling(size: int, chunk: int)
    requires 0 < size <= MAX_INT64 && 0 < chunk <= MAX_INT64
    ensures IsCeiling(PartCount(size, chunk), size, chunk) <==> size + chunk - 1 <= MAX_INT64
    ensures size + chunk - 1 <= MAX_INT64 ==> PartCount(size, chunk) == (size + chunk - 1) / chunk >= 1
  {
    var sum := size + chunk - 1;
    if sum <= MAX_INT64 {
      assert Wrap64(sum) == sum;
      DivisionBounds(sum, chunk);
    } else {
      assert Wrap64(sum) < 0;
      var n := PartCount(size, chunk);
      DivisionBounds(-Wrap64(sum), chunk);
      assert n <= 0;
      NonPositiveProduct(n, chunk);
    }
  }

  /** The largest 64-bit size, with any sensible chunk, has a negative part count. */
  lemma LargestSizeWraps()
    ensures PartCount(MAX_INT64, 0x10_0000) == -0x7ff_ffff_ffff
    ensures !IsCeiling(PartCount(MAX_INT64, 0x10_0000), MAX_INT64, 0x10_0000)
  {
    assert Wrap64(MAX_INT64 + 0x10_0000 - 1) == 0xf_ffff - 0x8000_0000_0000_0000 - 1;
  }

  lemma DivisionBounds(a: int, b: int)
    requires a >= 0 && b > 0
    ensures a / b >= 0 && (a / b) * b <= a < (a / b) * b + b
  {
  }

  lemma NonPositiveProduct(n: int, chunk: int)
    requires n <= 0 < chunk
    ensures n * chunk <= 0
  {
  }

  lemma ProductMonotone(a: int, b: int, chunk: int)
    requires a <= b && 0 < chunk
    ensures a * chunk <= b * chunk
  {
  }

  /*** Sizes of parts ***/

  /** The layout of one upload, as a valid manifest records it. */
  datatype Layout = Layout(size: nat, chunk: nat, partCount: nat)

  predicate ValidLayout(l: Layout) {
    && 0 < l.chunk
    && l.size + l.chunk - 1 <= MAX_INT64
    && l.partCount == PartCount(l.size, l.chunk)
  }

  function ExpectedPartSize(l: Layout, index: int): int {
    if l.size == 0 then 0
    else if index < l.partCount - 1 then l.chunk
    else
      var remaining := l.size - index * l.chunk;
      if remaining == 0 then l.chunk else remaining
  }

  lemma LayoutIsCeiling(l: Layout)
    requires ValidLayout(l) && l.size > 0
    ensures l.partCount >= 1 && IsCeiling(l.partCount, l.size, l.chunk)
  {
    PartCountIsCeiling(l.size, l.chunk);
  }

  /** Every part but those of an empty upload is non-empty and no larger than a chunk. */
  lemma ExpectedPartSizeBounds(l: Layout, index: nat)
    requires ValidLayout(l) && index < l.partCount
    ensures 0 <= ExpectedPartSize(l, index) <= l.chunk
    ensures l.size > 0 ==> ExpectedPartSize(l, index) > 0
  {
    if l.size > 0 {
      LayoutIsCeiling(l);
      ProductMonotone(index, l.partCount - 1, l.chunk);
    }
  }

  function ExpectedTotal(l: Layout, count: nat): int {
    if count == 0 then 0 else ExpectedTotal(l, count - 1) + ExpectedPartSize(l, count - 1)
  }

  lemma {:induction false} ExpectedPrefix(l: Layout, count: nat)
    requires l.size > 0 && count < l.partCount
    ensures ExpectedTotal(l, count) == count * l.chunk
  {
    if count == 0 {
    } else {
      ExpectedPrefix(l, count - 1);
    }
  }

  /** The expected part sizes add up to the size of the file. */
  lemma ExpectedSizesSumToSize(l: Layout)
    requires ValidLayout(l)
    ensures ExpectedTotal(l, l.partCount) == l.size
  {
    if l.size == 0 {
      assert ExpectedTotal(l, 1) == ExpectedTotal(l, 0);
    } else {
      LayoutIsCeiling(l);
      ExpectedPrefix(l, l.partCount - 1);
    }
  }

  /*** Which parts are recorded ***/

  /** The indexes below `n`. */
  function Indexes(n: nat): (s: set<nat>)
    ensures forall i: nat :: i in s <==> i < n
  {
    if n == 0 then {} else Indexes(n - 1) + {n - 1}
  }

  lemma {:induction false} IndexesCount(n: nat)
    ensures |Indexes(n)| == n
  {
    if n == 0 {
    } else {
      IndexesCount(n - 1);
    }
  }

  /** Pigeonhole: as many recorded indexes as parts means every part is recorded. */
  lemma AllRecorded(keys: set<nat>, n: nat)
    requires forall i :: i in keys ==> i < n
    ensures |keys| <= n
    ensures |keys| == n <==> keys == Indexes(n)
  {
    IndexesCount(n);
    var missing := Indexes(n) - keys;
    assert keys + missing == Indexes(n);
    assert |keys| + |missing| == n;
    if |keys| == n {
      assert missing == {};
      assert keys == keys + missing;
    }
  }

  /** The recorded parts of a valid manifest: indexes in range, sizes as expected. */
  predicate ValidParts(l: Layout, parts: map<nat, PartRecord>) {
    forall i :: i in parts ==> i < l.partCount && parts[i].size == ExpectedPartSize(l, i)
  }

  /** Bytes recorded under the indexes below `n`. */
  function RecordedBytes(parts: map<nat, PartRecord>, n: nat): nat {
    if n == 0 then 0
    else RecordedBytes(parts, n - 1) + if n - 1 in parts then parts[n - 1].size else 0
  }

  lemma {:induction false} RecordedAgainstExpected(l: Layout, parts: map<nat, PartRecord>, n: nat)
    requires ValidLayout(l) && ValidParts(l, parts) && n <= l.partCount
    ensures RecordedBytes(parts, n) <= ExpectedTotal(l, n)
    ensures RecordedBytes(parts, n) == ExpectedTotal(l, n) <==> l.size == 0 || forall i :: 0 <= i < n ==> i in parts
  {
    if n == 0 {
    } else {
      RecordedAgainstExpected(l, parts, n - 1);
      ExpectedPartSizeBounds(l, n - 1);
    }
  }

  /** Reported progress never exceeds the size, and reaches it exactly when all parts are recorded. */
  lemma ProgressIsExact(l: Layout, parts: map<nat, PartRecord>)
    requires ValidLayout(l) && ValidParts(l, parts)
    ensures RecordedBytes(parts, l.partCount) <= l.size
    ensures RecordedBytes(parts, l.partCount) == l.size <==> l.size == 0 || |parts| == l.partCount
  {
    RecordedAgainstExpected(l, parts, l.partCount);
    ExpectedSizesSumToSize(l);
    assert |parts.Keys| == |parts|;
    AllRecorded(parts.Keys, l.partCount);
    if forall i :: 0 <= i < l.partCount ==> i in parts {
      assert parts.Keys == Indexes(l.partCount);
    }
  }

  lemma {:induction false} RecordedBytesWithout(parts: map<nat, PartRecord>, index: nat, n: nat)
    requires index in parts
    ensures RecordedBytes(parts, n) == RecordedBytes(parts - {index}, n) + if index < n then parts[index].size else 0
  {
    if n == 0 {
    } else {
      RecordedBytesWithout(parts, index, n - 1);
    }
  }

  lemma {:induction false} NothingRecorded(n: nat)
    ensures RecordedBytes(map[], n) == 0
  {
    if n == 0 {
    } else {
      NothingRecorded(n - 1);
    }
  }

  /** The progress counter of a status response: the map is visited in no particular order. */
  method ReceivedBytes(l: Layout, parts: map<nat, PartRecord>) returns (received: nat)
    requires ValidLayout(l) && ValidParts(l, parts)
    ensures received == RecordedBytes(parts, l.partCount)
    ensures received <= l.size
  {
    received := 0;
    var rest := parts;
    while rest.Keys != {}
      invariant forall i :: i in rest ==> i in parts && rest[i] == parts[i]
      invariant received + RecordedBytes(rest, l.partCount) == RecordedBytes(parts, l.partCount)
      decreases |rest.Keys|
    {
      var index :| index in rest.Keys;
      RecordedBytesWithout(rest, index, l.partCount);
      received := received + rest[index].size;
      rest := rest - {index};
    }
    assert rest == map[];
    NothingRecorded(l.partCount);
    ProgressIsExact(l, parts);
  }

  /*** Received ranges ***/

  /** An inclusive range of part indexes. */
  datatype Range = Range(start: nat, end: nat)

  /** Ordered, non-empty, and separated by at least one missing index. */
  predicate Canonical(ranges: seq<Range>) {
    && (forall k :: 0 <= k < |ranges| ==> ranges[k].start <= ranges[k].end)
    && (forall j, k :: 0 <= j < k < |ranges| ==> ranges[j].end + 1 < ranges[k].start)
  }

  predicate Covers(ranges: seq<Range>, index: nat) {
    exists k :: 0 <= k < |ranges| && ranges[k].start <= index <= ranges[k].end
  }

  /** The ranges stand for exactly the recorded indexes. */
  ghost predicate Describes(ranges: seq<Range>, keys: set<nat>) {
    forall i: nat :: Covers(ranges, i) <==> i in keys
  }

  predicate Ascending(s: seq<nat>) {
    forall j, k :: 0 <= j < k < |s| ==> s[j] < s[k]
  }

  lemma SmallestIndex(keys: set<nat>) returns (least: nat)
    requires keys != {}
    ensures least in keys && forall i :: i in keys ==> least <= i
  {
    var candidate :| candidate in keys;
    var below := set j | j in keys && j < candidate;
    if below == {} {
      least := candidate;
      forall i | i in keys
        ensures least <= i
      {
        assert i !in below;
      }
    } else {
      assert candidate !in below && below <= keys;
      least := SmallestIndex(below);
      forall i | i in keys
        ensures least <= i
      {
        assert i < candidate ==> i in below;
        assert least in below;
      }
    }
  }

  method SortIndexes(keys: set<nat>) returns (sorted: seq<nat>)
    ensures Ascending(sorted)
    ensures forall i :: i in sorted <==> i in keys
  {
    sorted := [];
    var rest := keys;
    while rest != {}
      invariant Ascending(sorted)
      invariant forall i :: i in keys <==> i in rest || i in sorted
      invariant forall i, j :: i in sorted && j in rest ==> i < j
      decreases |rest|
    {
      ghost var smallest := SmallestIndex(rest);
      assert smallest in rest && forall i :: i in rest ==> smallest <= i;
      var least :| least in rest && forall i :: i in rest ==> least <= i;
      assert forall j :: 0 <= j < |sorted| ==> sorted[j] in sorted;
      sorted := sorted + [least];
      rest := rest - {least};
    }
  }

  method ReceivedRanges(parts: map<nat, PartRecord>) returns (ranges: seq<Range>)
    ensures Canonical(ranges)
    ensures Describes(ranges, parts.Keys)
  {
    ranges := [];
    var indexes := SortIndexes(parts.Keys);
    for k := 0 to |indexes|
      invariant Canonical(ranges)
      invariant ranges != [] <==> k > 0
      invariant ranges != [] ==> ranges[|ranges| - 1].end == indexes[k - 1]
      invariant forall i: nat :: Covers(ranges, i) <==> i in indexes[..k]
    {
      var index := indexes[k];
      ghost var before := ranges;
      if |ranges| == 0 || index != ranges[|ranges| - 1].end + 1 {
        ranges := ranges + [Range(index, index)];
        StartedRange(before, index);
      } else {
        ranges := ranges[|ranges| - 1 := ranges[|ranges| - 1].(end := index)];
        WidenedRange(before);
      }
      assert indexes[..k + 1] == indexes[..k] + [index];
    }
    assert indexes[..|indexes|] == indexes;
  }

  lemma StartedRange(ranges: seq<Range>, index: nat)
    requires Canonical(ranges)
    requires ranges != [] ==> ranges[|ranges| - 1].end + 1 < index
    ensures Canonical(ranges + [Range(index, index)])
    ensures forall i: nat :: Covers(ranges + [Range(index, index)], i) <==> Covers(ranges, i) || i == index
  {
    var longer := ranges + [Range(index, index)];
    assert forall k :: 0 <= k < |ranges| ==> longer[k] == ranges[k] && ranges[k].end <= ranges[|ranges| - 1].end;
    assert longer[|ranges|] == Range(index, index);
    forall i: nat
      ensures Covers(longer, i) <==> Covers(ranges, i) || i == index
    {
      if Covers(ranges, i) {
        var k :| 0 <= k < |ranges| && ranges[k].start <= i <= ranges[k].end;
        assert longer[k].start <= i <= longer[k].end;
      }
      if Covers(longer, i) && i != index {
        var k :| 0 <= k < |longer| && longer[k].start <= i <= longer[k].end;
        assert ranges[k].start <= i <= ranges[k].end;
      }
    }
  }

  lemma WidenedRange(ranges: seq<Range>)
    requires Canonical(ranges) && ranges != []
    ensures
      var last := ranges[|ranges| - 1];
      var wider := ranges[|ranges| - 1 := last.(end := last.end + 1)];
      && Canonical(wider)
      && forall i: nat :: Covers(wider, i) <==> Covers(ranges, i) || i == last.end + 1
  {
    var n := |ranges| - 1;
    var index := ranges[n].end + 1;
    var wider := ranges[n := ranges[n].(end := index)];
    forall i: nat
      ensures Covers(wider, i) <==> Covers(ranges, i) || i == index
    {
      if Covers(ranges, i) {
        var k :| 0 <= k < |ranges| && ranges[k].start <= i <= ranges[k].end;
        assert wider[k].start <= i <= wider[k].end;
      }
      if Covers(wider, i) && i != index {
        var k :| 0 <= k < |wider| && wider[k].start <= i <= wider[k].end;
        assert ranges[k].start <= i <= ranges[k].end;
      }
      assert wider[n].start <= index <= wider[n].end;
    }
  }

  /** Canonical ranges are determined by the indexes they stand for. */
  lemma {:induction false} RangesAreUnique(a: seq<Range>, b: seq<Range>)
    requires Canonical(a) && Canonical(b)
    requires forall i: nat :: Covers(a, i) <==> Covers(b, i)
    ensures a == b
  {
    if a == [] || b == [] {
      if a != [] {
        assert Covers(a, a[0].start);
      }
      if b != [] {
        assert Covers(b, b[0].start);
      }
    } else {
      FirstRangeIsUnique(a, b);
      FirstRangeIsUnique(b, a);
      forall i: nat
        ensures Covers(a[1..], i) <==> Covers(b[1..], i)
      {
        CoveredByRest(a, i);
        CoveredByRest(b, i);
      }
      RangesAreUnique(a[1..], b[1..]);
      assert a == [a[0]] + a[1..] && b == [b[0]] + b[1..];
    }
  }

  lemma FirstRangeIsUnique(a: seq<Range>, b: seq<Range>)
    requires Canonical(a) && Canonical(b) && a != [] && b != []
    requires forall i: nat :: Covers(a, i) <==> Covers(b, i)
    ensures b[0].start <= a[0].start
    ensures a[0].start == b[0].start ==> a[0].end <= b[0].end
  {
    assert Covers(a, a[0].start);
    assert Covers(b, a[0].start);
    if a[0].start == b[0].start && b[0].end < a[0].end {
      var gap := b[0].end + 1;
      assert a[0].start <= gap <= a[0].end;
      assert Covers(a, gap);
    }
  }

  lemma CoveredByRest(a: seq<Range>, i: nat)
    requires Canonical(a) && a != []
    ensures Covers(a[1..], i) <==> Covers(a, i) && i > a[0].end
  {
    if Covers(a[1..], i) {
      var k :| 0 <= k < |a[1..]| && a[1..][k].start <= i <= a[1..][k].end;
      assert a[k + 1] == a[1..][k];
    }
    if Covers(a, i) && i > a[0].end {
      var k :| 0 <= k < |a| && a[k].start <= i <= a[k].end;
      assert a[1..][k - 1] == a[k];
    }
  }
}

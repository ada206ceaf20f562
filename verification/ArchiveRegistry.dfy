/** The registry of archive entries (utils/archive_extract.go): entries are added one by one, and
    what it accepts is stated for the whole list of entries at once, without any order. */
module ArchiveRegistry {
  import opened Basics
  import opened ArchiveNames

  const MAX_ENTRIES := 10000
  const MAX_BYTES := 0x8000_0000

  /** An entry of the archive.  The empty path is the root of a TAR archive, which is counted
      and nothing else. */
  datatype Entry = Entry(path: seq<string>, directory: bool, size: int)

  function FileBytes(entries: seq<Entry>): int {
    if entries == [] then 0
    else FileBytes(entries[..|entries| - 1]) + BytesOf(entries[|entries| - 1])
  }

  function BytesOf(e: Entry): int {
    if e.directory then 0 else e.size
  }

  /** `p` is a path that the entry needs: its own or that of a directory above it. */
  predicate Needs(e: Entry, p: seq<string>) {
    p != [] && p <= e.path
  }

  predicate Needed(entries: seq<Entry>, p: seq<string>) {
    exists i :: 0 <= i < |entries| && Needs(entries[i], p)
  }

  /** Two paths that entries need are the same if they fold to the same key. */
  ghost predicate OneSpelling(fold: string -> string, entries: seq<Entry>) {
    forall p, q :: Needed(entries, p) && Needed(entries, q) && Folded(fold, p) == Folded(fold, q) ==> p == q
  }

  /** No path is given twice, and no file is above another entry. */
  predicate Compatible(a: Entry, b: Entry) {
    && (a.path == b.path ==> a.path == [])
    && (!a.directory ==> !(a.path <= b.path))
    && (!b.directory ==> !(b.path <= a.path))
  }

  predicate AllCompatible(entries: seq<Entry>) {
    forall i, j :: 0 <= i < j < |entries| ==> Compatible(entries[i], entries[j])
  }

  predicate Sane(e: Entry) {
    e.size >= 0 && (e.path == [] ==> e.directory)
  }

  /** What the registry accepts as a whole. */
  ghost predicate Acceptable(fold: string -> string, entries: seq<Entry>) {
    && |entries| <= 10000
    && (forall i :: 0 <= i < |entries| ==> Sane(entries[i]))
    && FileBytes(entries) <= 2 * 1024 * 1024 * 1024
    && OneSpelling(fold, entries)
    && AllCompatible(entries)
  }

  /*** The order of the entries does not matter ***/

  lemma {:induction false} FileBytesWithout(entries: seq<Entry>, k: nat)
    requires k < |entries|
    ensures FileBytes(entries) == FileBytes(entries[..k] + entries[k + 1..]) + BytesOf(entries[k])
  {
    var last := |entries| - 1;
    var rest := entries[..k] + entries[k + 1..];
    if k == last {
      assert rest == entries[..last];
    } else {
      FileBytesWithout(entries[..last], k);
      assert rest[..|rest| - 1] == entries[..last][..k] + entries[..last][k + 1..];
    }
  }

  lemma {:induction false} FileBytesOfPermutation(a: seq<Entry>, b: seq<Entry>)
    requires multiset(a) == multiset(b)
    ensures FileBytes(a) == FileBytes(b) && |a| == |b|
    decreases |a|
  {
    assert |multiset(a)| == |a| && |multiset(b)| == |b|;
    if a == [] {
    } else {
      var last := |a| - 1;
      assert a[last] in multiset(b);
      var k :| 0 <= k < |b| && b[k] == a[last];
      WithoutOne(a, last);
      WithoutOne(b, k);
      assert a[..last] + a[last + 1..] == a[..last];
      FileBytesOfPermutation(a[..last], b[..k] + b[k + 1..]);
      FileBytesWithout(b, k);
    }
  }

  lemma PlacesOfTwo(entries: seq<Entry>, i: nat, j: nat)
    requires i < j < |entries|
    ensures entries[i] in entries && entries[j] in entries
    ensures entries[i] == entries[j] ==> multiset(entries)[entries[i]] >= 2
  {
    assert entries == entries[..j] + entries[j..];
    assert entries[i] == entries[..j][i] && entries[j] == entries[j..][0];
  }

  lemma {:induction false} TwoPlaces(entries: seq<Entry>, x: Entry, y: Entry) returns (i: nat, j: nat)
    requires x in entries && y in entries && (x == y ==> multiset(entries)[x] >= 2)
    ensures i < |entries| && j < |entries| && i != j && entries[i] == x && entries[j] == y
  {
    i :| 0 <= i < |entries| && entries[i] == x;
    if x != y {
      j :| 0 <= j < |entries| && entries[j] == y;
    } else {
      var rest := entries[..i] + entries[i + 1..];
      WithoutOne(entries, i);
      assert x in multiset(rest);
      var k :| 0 <= k < |rest| && rest[k] == x;
      j := if k < i then k else k + 1;
    }
  }

  lemma CompatibleInAnyOrder(a: seq<Entry>, b: seq<Entry>)
    requires multiset(a) == multiset(b) && AllCompatible(a)
    ensures AllCompatible(b)
  {
    forall i, j | 0 <= i < j < |b|
      ensures Compatible(b[i], b[j])
    {
      PlacesOfTwo(b, i, j);
      assert b[i] in multiset(a) && b[j] in multiset(a);
      var k, l := TwoPlaces(a, b[i], b[j]);
      assert Compatible(a[if k < l then k else l], a[if k < l then l else k]);
    }
  }

  /** Acceptance depends on what is in the archive, not on where. */
  lemma AcceptanceIgnoresOrder(fold: string -> string, a: seq<Entry>, b: seq<Entry>)
    requires multiset(a) == multiset(b) && Acceptable(fold, a)
    ensures Acceptable(fold, b)
  {
    FileBytesOfPermutation(a, b);
    CompatibleInAnyOrder(a, b);
    hide FileBytes;
    forall i | 0 <= i < |b|
      ensures b[i] in a
    {
      assert b[i] in multiset(a);
    }
    forall p | Needed(b, p)
      ensures Needed(a, p)
    {
    }
  }

  /*** One more entry ***/

  lemma {:induction false} FewerEntriesAreAcceptable(fold: string -> string, entries: seq<Entry>, n: nat)
    requires Acceptable(fold, entries) && n <= |entries|
    ensures Acceptable(fold, entries[..n])
    decreases |entries|
  {
    if n == |entries| {
      assert entries[..n] == entries;
    } else {
      var shorter := entries[..|entries| - 1];
      forall p | Needed(shorter, p)
        ensures Needed(entries, p)
      {
        var i :| 0 <= i < |shorter| && Needs(shorter[i], p);
        assert Needs(entries[i], p);
      }
      assert Sane(entries[|entries| - 1]);
      FewerEntriesAreAcceptable(fold, shorter, n);
      assert shorter[..n] == entries[..n];
    }
  }

  /*** The table of paths ***/

  datatype Kind = Implicit | Directory | File

  datatype Record = Record(name: seq<string>, kind: Kind)

  predicate Given(entries: seq<Entry>, p: seq<string>, directory: bool) {
    exists i :: 0 <= i < |entries| && entries[i].path == p && entries[i].directory == directory
  }

  function KindOf(entries: seq<Entry>, p: seq<string>): Kind {
    if Given(entries, p, false) then File else if Given(entries, p, true) then Directory else Implicit
  }

  predicate Above(path: seq<string>, n: nat, p: seq<string>) {
    n <= |path| && p != [] && p <= path[..n]
  }

  /** The table has exactly the paths that the entries need and the first `n` that `path` needs,
      each under its key, with the kinds the entries in `kinds` give them. */
  ghost predicate Tracks(fold: string -> string, paths: map<seq<string>, Record>, entries: seq<Entry>, path: seq<string>, n: nat, kinds: seq<Entry>) {
    && (forall p :: Needed(entries, p) || Above(path, n, p) ==> Folded(fold, p) in paths && paths[Folded(fold, p)].name == p)
    && (forall k :: k in paths ==>
          && Folded(fold, paths[k].name) == k
          && (Needed(entries, paths[k].name) || Above(path, n, paths[k].name))
          && paths[k].kind == KindOf(kinds, paths[k].name))
  }

  lemma AboveNext(path: seq<string>, n: nat, p: seq<string>)
    requires n < |path|
    ensures Above(path, n + 1, p) <==> Above(path, n, p) || p == path[..n + 1]
  {
    if Above(path, n + 1, p) && |p| <= n {
      assert p <= path[..n];
    }
    assert path[..n] <= path[..n + 1];
  }

  /** A new path is entered under its key. */
  lemma EnteringPath(fold: string -> string, paths: map<seq<string>, Record>, entries: seq<Entry>, path: seq<string>, n: nat, kinds: seq<Entry>)
    requires n < |path| && Tracks(fold, paths, entries, path, n, entries) && Folded(fold, path[..n + 1]) !in paths
    requires forall p :: p != path[..n + 1] ==> KindOf(kinds, p) == KindOf(entries, p)
    ensures !Needed(entries, path[..n + 1])
    ensures
      var name := path[..n + 1];
      Tracks(fold, paths[Folded(fold, name) := Record(name, KindOf(kinds, name))], entries, path, n + 1, kinds)
  {
    hide Needed, Above, KindOf, Folded;
    forall p
      ensures Above(path, n + 1, p) <==> Above(path, n, p) || p == path[..n + 1]
    {
      AboveNext(path, n, p);
    }
  }

  /** A path that is already entered under the same spelling. */
  lemma PassingPath(fold: string -> string, paths: map<seq<string>, Record>, entries: seq<Entry>, path: seq<string>, n: nat, kinds: seq<Entry>)
    requires n < |path| && Tracks(fold, paths, entries, path, n, entries) && Folded(fold, path[..n + 1]) in paths
    requires paths[Folded(fold, path[..n + 1])].name == path[..n + 1]
    requires forall p :: p != path[..n + 1] ==> KindOf(kinds, p) == KindOf(entries, p)
    ensures Needed(entries, path[..n + 1])
    ensures paths[Folded(fold, path[..n + 1])].kind == KindOf(entries, path[..n + 1])
    ensures
      var name := path[..n + 1];
      Tracks(fold, paths[Folded(fold, name) := Record(name, KindOf(kinds, name))], entries, path, n + 1, kinds)
  {
    assert !Above(path, n, path[..n + 1]);
    hide Needed, Above, KindOf, Folded;
    forall p
      ensures Above(path, n + 1, p) <==> Above(path, n, p) || p == path[..n + 1]
    {
      AboveNext(path, n, p);
    }
  }

  lemma GivenIsNeeded(entries: seq<Entry>, p: seq<string>, directory: bool)
    requires p != [] && Given(entries, p, directory)
    ensures Needed(entries, p)
  {
    var i :| 0 <= i < |entries| && entries[i].path == p;
    assert Needs(entries[i], p);
  }

  lemma UnneededIsImplicit(entries: seq<Entry>, p: seq<string>)
    requires p != []
    ensures KindOf(entries, p) != Implicit ==> Needed(entries, p)
  {
    if KindOf(entries, p) != Implicit {
      GivenIsNeeded(entries, p, KindOf(entries, p) == Directory);
    }
  }

  /** What adding the entry makes of the kinds of paths, when its first `n + 1` are entered. */
  lemma KindsWithEntry(entries: seq<Entry>, e: Entry, n: nat)
    requires n < |e.path|
    ensures
      var current := e.path[..n + 1];
      var last := n == |e.path| - 1;
      var kinds := if last then entries + [e] else entries;
      && (last ==> current == e.path)
      && (forall p :: p != current ==> KindOf(kinds, p) == KindOf(entries, p))
      && (!Needed(entries, current) ==> KindOf(entries, current) == Implicit)
      && (KindOf(entries, current) == Implicit && last ==> KindOf(kinds, current) == if e.directory then Directory else File)
  {
    var current := e.path[..n + 1];
    UnneededIsImplicit(entries, current);
    if n == |e.path| - 1 {
      forall p
        ensures p != current ==> KindOf(entries + [e], p) == KindOf(entries, p)
      {
        KindWithOneMore(entries, e, p);
      }
      KindWithOneMore(entries, e, current);
    }
  }

  lemma NeededByOneMore(entries: seq<Entry>, e: Entry, p: seq<string>)
    ensures Needed(entries + [e], p) <==> Needed(entries, p) || Above(e.path, |e.path|, p)
  {
    assert e.path[..|e.path|] == e.path;
    if Needed(entries, p) {
      var i :| 0 <= i < |entries| && Needs(entries[i], p);
      assert Needs((entries + [e])[i], p);
    }
    if Needs(e, p) {
      assert Needs((entries + [e])[|entries|], p);
    }
  }

  lemma KindWithOneMore(entries: seq<Entry>, e: Entry, p: seq<string>)
    ensures KindOf(entries + [e], p) ==
            if p == e.path && !e.directory then File
            else if Given(entries, p, false) then File
            else if p == e.path then Directory
            else KindOf(entries, p)
  {
    var more := entries + [e];
    assert more[|entries|] == e;
    forall directory: bool
      ensures Given(more, p, directory) <==> Given(entries, p, directory) || (p == e.path && directory == e.directory)
    {
      if Given(entries, p, directory) {
        var i :| 0 <= i < |entries| && entries[i].path == p && entries[i].directory == directory;
        assert more[i] == entries[i];
      }
    }
  }

  /** A different spelling of a path that is entered already. */
  lemma OtherSpelling(fold: string -> string, paths: map<seq<string>, Record>, entries: seq<Entry>, e: Entry, n: nat)
    requires n < |e.path| && Tracks(fold, paths, entries, e.path, n, entries) && Folded(fold, e.path[..n + 1]) in paths
    requires paths[Folded(fold, e.path[..n + 1])].name != e.path[..n + 1]
    ensures !OneSpelling(fold, entries + [e])
  {
    var p, q := e.path[..n + 1], paths[Folded(fold, e.path[..n + 1])].name;
    NeededByOneMore(entries, e, p);
    NeededByOneMore(entries, e, q);
    assert !Above(e.path, n, q);
    assert Folded(fold, p) == Folded(fold, q);
  }

  /** A path that clashes with the kind of a path already entered. */
  lemma ClashingKind(entries: seq<Entry>, e: Entry, n: nat)
    requires n < |e.path| && Needed(entries, e.path[..n + 1])
    requires
      var kind := KindOf(entries, e.path[..n + 1]);
      if n + 1 == |e.path| then kind != Implicit || !e.directory else kind == File
    ensures !AllCompatible(entries + [e])
  {
    var p := e.path[..n + 1];
    var more := entries + [e];
    assert n + 1 == |e.path| ==> p == e.path;
    if KindOf(entries, p) != Implicit {
      var directory := KindOf(entries, p) == Directory;
      var i :| 0 <= i < |entries| && entries[i].path == p && entries[i].directory == directory;
      assert more[i] == entries[i] && more[|entries|] == e && !Compatible(more[i], e);
    } else {
      var i :| 0 <= i < |entries| && Needs(entries[i], p);
      assert more[i] == entries[i] && more[|entries|] == e && !Compatible(more[i], e);
    }
  }

  /** None of the kinds entered for the paths of the entry clashes with it. */
  ghost predicate NoClash(entries: seq<Entry>, e: Entry) {
    && (forall p :: Above(e.path, |e.path|, p) && p != e.path ==> KindOf(entries, p) != File)
    && (e.path != [] ==> KindOf(entries, e.path) == Implicit && (Needed(entries, e.path) ==> e.directory))
  }

  lemma NoClashIsCompatible(entries: seq<Entry>, e: Entry, i: nat)
    requires NoClash(entries, e) && i < |entries| && Sane(entries[i]) && Sane(e)
    ensures Compatible(entries[i], e)
  {
    var a := entries[i];
    assert e.path[..|e.path|] == e.path;
    assert Given(entries, a.path, a.directory);
    assert a.path != [] && a.path <= e.path ==> Above(e.path, |e.path|, a.path);
    assert e.path != [] && e.path <= a.path ==> Needs(a, e.path);
  }

  lemma OneMoreSpelling(fold: string -> string, paths: map<seq<string>, Record>, entries: seq<Entry>, e: Entry)
    requires Tracks(fold, paths, entries, e.path, |e.path|, entries + [e])
    ensures OneSpelling(fold, entries + [e])
  {
    hide Needed, Above, Folded, KindOf;
    forall p
      ensures Needed(entries + [e], p) <==> Needed(entries, p) || Above(e.path, |e.path|, p)
    {
      NeededByOneMore(entries, e, p);
    }
  }

  /** All paths of the entry were entered without a clash. */
  lemma OneMoreIsAcceptable(fold: string -> string, paths: map<seq<string>, Record>, entries: seq<Entry>, e: Entry)
    requires Acceptable(fold, entries) && Sane(e) && |entries| < MAX_ENTRIES && FileBytes(entries) + BytesOf(e) <= MAX_BYTES
    requires Tracks(fold, paths, entries, e.path, |e.path|, entries + [e]) && NoClash(entries, e)
    ensures Acceptable(fold, entries + [e])
  {
    hide Tracks, NoClash, OneSpelling, Compatible;
    var more := entries + [e];
    assert more[..|entries|] == entries && more[|entries|] == e;
    OneMoreSpelling(fold, paths, entries, e);
    forall i | 0 <= i < |entries|
      ensures Compatible(entries[i], e)
    {
      NoClashIsCompatible(entries, e, i);
    }
  }

  lemma Retracks(fold: string -> string, paths: map<seq<string>, Record>, entries: seq<Entry>, e: Entry)
    ensures Tracks(fold, paths, entries, [], 0, entries) ==> Tracks(fold, paths, entries, e.path, 0, entries)
    ensures Tracks(fold, paths, entries, e.path, |e.path|, entries + [e]) ==> Tracks(fold, paths, entries + [e], [], 0, entries + [e])
  {
    assert forall p :: !Above(e.path, 0, p) && !Above([], 0, p);
    hide Needed, Above, Folded, KindOf;
    forall p
      ensures Needed(entries + [e], p) <==> Needed(entries, p) || Above(e.path, |e.path|, p)
    {
      NeededByOneMore(entries, e, p);
    }
  }

  /** The table of top names has the first component of every path under its key. */
  ghost predicate TopsOf(fold: string -> string, tops: map<string, string>, entries: seq<Entry>) {
    && (forall i :: 0 <= i < |entries| && entries[i].path != [] ==>
          fold(entries[i].path[0]) in tops && tops[fold(entries[i].path[0])] == entries[i].path[0])
    && (forall k :: k in tops ==> fold(tops[k]) == k && Needed(entries, [tops[k]]))
  }

  /** Entries that passed the table of paths never disagree about a top name. */
  lemma TopsAgree(fold: string -> string, tops: map<string, string>, entries: seq<Entry>, e: Entry)
    requires TopsOf(fold, tops, entries) && OneSpelling(fold, entries + [e]) && e.path != []
    ensures fold(e.path[0]) in tops ==> tops[fold(e.path[0])] == e.path[0]
    ensures TopsOf(fold, tops[fold(e.path[0]) := e.path[0]], entries + [e])
  {
    var top := e.path[0];
    NeededByOneMore(entries, e, [top]);
    if fold(top) in tops {
      NeededByOneMore(entries, e, [tops[fold(top)]]);
      assert Folded(fold, [top]) == Folded(fold, [tops[fold(top)]]);
    }
    forall k | k in tops
      ensures Needed(entries + [e], [tops[k]])
    {
      NeededByOneMore(entries, e, [tops[k]]);
    }
  }

  /** A root counts as an entry and changes nothing else. */
  lemma RootIsTracked(fold: string -> string, paths: map<seq<string>, Record>, tops: map<string, string>, entries: seq<Entry>, size: int)
    requires Acceptable(fold, entries) && Tracks(fold, paths, entries, [], 0, entries) && TopsOf(fold, tops, entries)
    ensures
      var more := entries + [Entry([], true, size)];
      && (Acceptable(fold, more) <==> size >= 0 && |entries| < MAX_ENTRIES)
      && FileBytes(more) == FileBytes(entries)
      && Tracks(fold, paths, more, [], 0, more) && TopsOf(fold, tops, more)
  {
    hide Acceptable, Tracks, TopsOf, FileBytes, Needed, KindOf;
    var e := Entry([], true, size);
    var more := entries + [e];
    forall p
      ensures Needed(more, p) <==> Needed(entries, p)
      ensures p != [] ==> KindOf(more, p) == KindOf(entries, p)
    {
      NeededByOneMore(entries, e, p);
      KindWithRoot(entries, e, p);
    }
    RootIsAcceptable(fold, entries, e);
    SameNeedsAreTracked(fold, paths, tops, entries, e);
  }

  lemma KindWithRoot(entries: seq<Entry>, e: Entry, p: seq<string>)
    requires e.path == [] && e.directory
    ensures p != [] ==> KindOf(entries + [e], p) == KindOf(entries, p)
  {
    KindWithOneMore(entries, e, p);
  }

  lemma RootIsAcceptable(fold: string -> string, entries: seq<Entry>, e: Entry)
    requires Acceptable(fold, entries) && e.path == [] && e.directory
    requires forall p :: Needed(entries + [e], p) <==> Needed(entries, p)
    ensures Acceptable(fold, entries + [e]) <==> e.size >= 0 && |entries| < MAX_ENTRIES
    ensures FileBytes(entries + [e]) == FileBytes(entries)
  {
    hide Needed;
    var more := entries + [e];
    assert more[..|entries|] == entries && more[|entries|] == e;
    if e.size >= 0 {
      assert forall i :: 0 <= i < |more| ==> Sane(more[i]);
    }
    if Acceptable(fold, more) {
      assert Sane(more[|entries|]);
    }
  }

  lemma NoEmptyNeeds(entries: seq<Entry>)
    ensures !Needed(entries, []) && forall p :: !Above([], 0, p)
  {
  }

  lemma SameNeedsAreTracked(fold: string -> string, paths: map<seq<string>, Record>, tops: map<string, string>, entries: seq<Entry>, e: Entry)
    requires Tracks(fold, paths, entries, [], 0, entries) && TopsOf(fold, tops, entries) && e.path == []
    requires forall p :: Needed(entries + [e], p) <==> Needed(entries, p)
    requires forall p :: p != [] ==> KindOf(entries + [e], p) == KindOf(entries, p)
    ensures Tracks(fold, paths, entries + [e], [], 0, entries + [e]) && TopsOf(fold, tops, entries + [e])
  {
    hide Needed, KindOf, Folded, Above;
    NoEmptyNeeds(entries);
  }

  lemma {:induction false} FileBytesPositive(entries: seq<Entry>)
    requires forall i :: 0 <= i < |entries| ==> Sane(entries[i])
    ensures FileBytes(entries) >= 0
  {
    if entries == [] {
    } else {
      FileBytesPositive(entries[..|entries| - 1]);
      assert Sane(entries[|entries| - 1]);
    }
  }

  /** What acceptance of one more entry comes down to. */
  lemma AcceptanceParts(fold: string -> string, entries: seq<Entry>, e: Entry)
    requires Acceptable(fold, entries)
    ensures |entries| <= MAX_ENTRIES && 0 <= FileBytes(entries) <= MAX_BYTES
    ensures FileBytes(entries + [e]) == FileBytes(entries) + BytesOf(e)
    ensures Acceptable(fold, entries + [e]) ==>
              && e.size >= 0 && |entries| < MAX_ENTRIES && FileBytes(entries) + BytesOf(e) <= MAX_BYTES
              && OneSpelling(fold, entries + [e]) && AllCompatible(entries + [e])
  {
    hide OneSpelling, AllCompatible;
    FileBytesPositive(entries);
    var more := entries + [e];
    assert more[..|entries|] == entries && more[|entries|] == e;
    if Acceptable(fold, more) {
      assert Sane(more[|entries|]);
    }
  }

  lemma ShortIsAcceptable(fold: string -> string, entries: seq<Entry>, n: nat)
    requires n <= |entries|
    ensures Acceptable(fold, entries) ==> Acceptable(fold, entries[..n])
  {
    if Acceptable(fold, entries) {
      FewerEntriesAreAcceptable(fold, entries, n);
    }
  }

  lemma RootFileIsRefused(fold: string -> string, entries: seq<Entry>, i: nat)
    requires i < |entries| && entries[i].path == [] && !entries[i].directory
    ensures !Acceptable(fold, entries)
  {
    assert !Sane(entries[i]);
  }

  /*** The registry ***/

  datatype Refusal = UnsafeEntry | LimitExceeded

  class Registry {
    const fold: string -> string
    var paths: map<seq<string>, Record>
    var tops: map<string, string>
    var entries: int
    var bytes: int
    ghost var added: seq<Entry>

    ghost predicate Valid()
      reads this
    {
      && Acceptable(fold, added) && entries == |added| && bytes == FileBytes(added)
      && Tracks(fold, paths, added, [], 0, added)
      && TopsOf(fold, tops, added)
    }

    lemma Bounds()
      requires Valid()
      ensures 0 <= entries <= MAX_ENTRIES && 0 <= bytes <= MAX_BYTES
    {
      FileBytesPositive(added);
    }

    constructor (fold: string -> string)
      ensures Valid() && added == [] && this.fold == fold
    {
      this.fold := fold;
      paths, tops, entries, bytes, added := map[], map[], 0, 0, [];
    }

    /** Counts an entry; a TAR archive's root is only counted. */
    method CountEntry(size: int) returns (ok: bool)
      modifies `entries
      ensures entries == old(entries) + 1
      ensures ok <==> size >= 0 && entries <= MAX_ENTRIES
    {
      entries := entries + 1;
      ok := size >= 0 && entries <= MAX_ENTRIES;
    }

    method AddRoot(size: int) returns (ok: bool)
      requires Valid()
      modifies this
      ensures ok <==> Acceptable(fold, old(added) + [Entry([], true, size)])
      ensures ok ==> Valid() && added == old(added) + [Entry([], true, size)]
    {
      hide Acceptable, Tracks, TopsOf, FileBytes;
      RootIsTracked(fold, paths, tops, added, size);
      ok := CountEntry(size);
      added := added + [Entry([], true, size)];
    }

    /** Enters every path the entry needs, unless one clashes. */
    method EnterPaths(e: Entry) returns (ok: bool)
      requires Tracks(fold, paths, added, [], 0, added) && e.path != []
      modifies `paths
      ensures ok ==> Tracks(fold, paths, added, e.path, |e.path|, added + [e]) && NoClash(added, e)
      ensures !ok ==> !OneSpelling(fold, added + [e]) || !AllCompatible(added + [e])
    {
      Retracks(fold, paths, added, e);
      var n := 0;
      while n < |e.path|
        invariant 0 <= n <= |e.path|
        invariant Tracks(fold, paths, added, e.path, n, if n == |e.path| then added + [e] else added)
        invariant forall p :: Above(e.path, n, p) && p != e.path ==> KindOf(added, p) != File
        invariant n == |e.path| ==> KindOf(added, e.path) == Implicit && (Needed(added, e.path) ==> e.directory)
      {
        ok := EnterPath(e, n);
        if !ok {
          return false;
        }
        n := n + 1;
      }
      return true;
    }

    /** Enters one path the entry needs. */
    method EnterPath(e: Entry, n: nat) returns (ok: bool)
      requires n < |e.path| && Tracks(fold, paths, added, e.path, n, added)
      modifies `paths
      ensures ok ==> Tracks(fold, paths, added, e.path, n + 1, if n + 1 == |e.path| then added + [e] else added)
      ensures ok ==> forall p :: Above(e.path, n + 1, p) && p != e.path ==> Above(e.path, n, p) || KindOf(added, p) != File
      ensures ok && n + 1 == |e.path| ==> KindOf(added, e.path) == Implicit && (Needed(added, e.path) ==> e.directory)
      ensures !ok ==> !OneSpelling(fold, added + [e]) || !AllCompatible(added + [e])
    {
      var current := e.path[..n + 1];
      var key := Folded(fold, current);
      var last := n == |e.path| - 1;
      var wanted := if last then if e.directory then Directory else File else Implicit;
      ghost var kinds := if last then added + [e] else added;
      KindsWithEntry(added, e, n);
      hide KindOf, Needed, Above, Folded, OneSpelling, AllCompatible;
      forall p
        ensures Above(e.path, n + 1, p) <==> Above(e.path, n, p) || p == current
      {
        AboveNext(e.path, n, p);
      }
      if key in paths {
        var existing := paths[key];
        if existing.name != current {
          OtherSpelling(fold, paths, added, e, n);
          return false;
        }
        PassingPath(fold, paths, added, e.path, n, kinds);
        if last && existing.kind == Implicit && wanted == Directory {
          paths := paths[key := Record(current, Directory)];
        } else if last || existing.kind == File {
          ClashingKind(added, e, n);
          return false;
        } else {
          assert paths[key := Record(current, existing.kind)] == paths;
        }
      } else {
        EnteringPath(fold, paths, added, e.path, n, kinds);
        paths := paths[key := Record(current, wanted)];
      }
      return true;
    }

    /** Adds one entry.  It is accepted exactly when all the entries so far stay acceptable; the
        conflict between top names cannot arise. */
    method AddEntry(e: Entry) returns (r: Option<Refusal>)
      requires Valid() && e.path != []
      modifies this
      ensures r.None? <==> Acceptable(fold, old(added) + [e])
      ensures r.None? ==> Valid() && added == old(added) + [e]
      ensures r == Some(LimitExceeded) <==>
                e.size < 0 || |old(added)| >= MAX_ENTRIES || FileBytes(old(added)) + BytesOf(e) > MAX_BYTES
    {
      hide Acceptable, Tracks, TopsOf, OneSpelling, NoClash;
      ghost var before := added;
      AcceptanceParts(fold, before, e);
      var counted := CountEntry(e.size);
      if !counted {
        return Some(LimitExceeded);
      }
      if !e.directory {
        if e.size > MAX_BYTES || bytes > MAX_BYTES - e.size {
          return Some(LimitExceeded);
        }
        bytes := bytes + e.size;
      }
      var entered := EnterPaths(e);
      if !entered {
        return Some(UnsafeEntry);
      }
      OneMoreIsAcceptable(fold, paths, before, e);
      AcceptanceParts(fold, before, e);
      TopsAgree(fold, tops, before, e);
      Retracks(fold, paths, before, e);
      var top := e.path[0];
      if fold(top) in tops && tops[fold(top)] != top {
        assert false;
        return Some(UnsafeEntry);
      }
      tops := tops[fold(top) := top];
      added := before + [e];
      return None;
    }

    /** Adds an entry under its raw name. */
    method Add(leafOk: string -> bool, rawName: string, directory: bool, size: int) returns (r: Option<Refusal>)
      requires Valid()
      modifies this
      ensures r.None? <==> exists path :: Names(leafOk, rawName, path) && Acceptable(fold, old(added) + [Entry(path, directory, size)])
      ensures r.None? ==> Valid() && |added| == |old(added)| + 1 && added[..|old(added)|] == old(added)
      ensures r.None? ==>
                var e := added[|old(added)|];
                Names(leafOk, rawName, e.path) && e.directory == directory && e.size == size >= 0
    {
      hide Acceptable, Tracks, TopsOf;
      var name := ValidateName(leafOk, rawName);
      if name.None? {
        return Some(UnsafeEntry);
      }
      r := AddEntry(Entry(name.value, directory, size));
    }
  }

  /** Adds the entries of an archive, in their order, to an empty registry.  Whether all of them
      are accepted is a property of the whole list that does not mention the order. */
  method AddAll(fold: string -> string, entries: seq<Entry>) returns (ok: bool)
    ensures ok <==> Acceptable(fold, entries)
  {
    var registry := new Registry(fold);
    hide Acceptable;
    for i := 0 to |entries|
      invariant fresh(registry) && registry.fold == fold && registry.Valid() && registry.added == entries[..i]
      invariant Acceptable(fold, entries[..i])
    {
      var e := entries[i];
      assert entries[..i + 1] == entries[..i] + [e];
      var refused := false;
      if e.path == [] {
        if !e.directory {
          RootFileIsRefused(fold, entries, i);
          return false;
        }
        var counted := registry.AddRoot(e.size);
        refused := !counted;
      } else {
        var refusal := registry.AddEntry(e);
        refused := refusal.Some?;
      }
      if refused {
        ShortIsAcceptable(fold, entries, i + 1);
        return false;
      }
    }
    assert entries[..|entries|] == entries;
    return true;
  }
}

/** The bounded walk over a directory and the sizes it adds up (utils/traversal.go,
    utils/directory_size.go), on a tree that does not change meanwhile. */
module TreeWalk {
  import opened Basics

  const MAX_INT64 := 0x7fff_ffff_ffff_ffff
  const MAX_ENTRIES := 100000
  const MAX_DEPTH := 128

  /** Entries come in the order in which the system happens to list them. */
  datatype Node = File(size: int) | Directory(entries: seq<Entry>) | Special

  datatype Entry = Entry(name: string, node: Node)

  type Path = seq<string>

  /*** The plain recursive sums ***/

  /** `plain` says that every entry has a valid name, a supported kind and a sane size; `height`
      counts the levels of directories below. */
  datatype Totals = Totals(count: nat, bytes: nat, files: nat, directories: nat, height: nat, plain: bool)

  function Larger(a: nat, b: nat): nat {
    if a < b then b else a
  }

  function Plus(a: Totals, b: Totals): Totals {
    Totals(a.count + b.count, a.bytes + b.bytes, a.files + b.files, a.directories + b.directories,
           Larger(a.height, b.height), a.plain && b.plain)
  }

  const NOTHING := Totals(0, 0, 0, 0, 0, true)

  /** The totals of one entry with everything below it. */
  function OfEntry(leafOk: string -> bool, e: Entry): Totals
    decreases e, 0
  {
    if !leafOk(e.name) then Totals(1, 0, 0, 0, 0, false) else
    match e.node
    case File(size) => if size < 0 then Totals(1, 0, 0, 0, 0, false) else Totals(1, size, 1, 0, 0, true)
    case Directory(entries) =>
      var below := Sum(leafOk, e.node, |entries|);
      Totals(1 + below.count, below.bytes, below.files, 1 + below.directories, 1 + below.height, below.plain)
    case Special => Totals(1, 0, 0, 0, 0, false)
  }

  /** The totals of the first `n` entries of a directory. */
  function Sum(leafOk: string -> bool, d: Node, n: nat): Totals
    requires d.Directory? && n <= |d.entries|
    decreases d, n
  {
    if n == 0 then NOTHING else Plus(Sum(leafOk, d, n - 1), OfEntry(leafOk, d.entries[n - 1]))
  }

  /** The paths of the first `n` entries and everything below them, each once. */
  function Paths(d: Node, at: Path, n: nat): seq<Path>
    requires d.Directory? && n <= |d.entries|
    decreases d, n
  {
    if n == 0 then [] else Paths(d, at, n - 1) + ([at + [d.entries[n - 1].name]] + Below(d.entries[n - 1], at))
  }

  /** The paths below an entry. */
  function Below(e: Entry, at: Path): seq<Path>
    decreases e, 0
  {
    if e.node.Directory? then Paths(e.node, at + [e.name], |e.node.entries|) else []
  }

  /** More entries never make the totals smaller. */
  lemma {:induction false} SumGrows(leafOk: string -> bool, d: Node, m: nat, n: nat)
    requires d.Directory? && m <= n <= |d.entries|
    ensures
      var a, b := Sum(leafOk, d, m), Sum(leafOk, d, n);
      a.count <= b.count && a.bytes <= b.bytes && a.height <= b.height && (b.plain ==> a.plain)
    decreases n
  {
    if m == n {
    } else {
      SumGrows(leafOk, d, m, n - 1);
    }
  }

  /** Room for the given totals, after what was counted already, in a directory at this depth. */
  predicate Fits(visited: int, bytes: int, t: Totals, depth: nat) {
    t.plain && visited + t.count <= 100000 && bytes + t.bytes < 0x8000_0000_0000_0000 && depth + t.height <= 128
  }

  lemma FitsOneByOne(leafOk: string -> bool, d: Node, n: nat, visited: int, bytes: int, depth: nat)
    requires d.Directory? && n < |d.entries|
    ensures
      var t := Sum(leafOk, d, n);
      Fits(visited, bytes, Sum(leafOk, d, n + 1), depth) <==>
      Fits(visited, bytes, t, depth) && Fits(visited + t.count, bytes + t.bytes, OfEntry(leafOk, d.entries[n]), depth)
  {
  }

  lemma FitsAtOnce(leafOk: string -> bool, d: Node, n: nat, visited: int, bytes: int, depth: nat)
    requires d.Directory? && n <= |d.entries|
    ensures Fits(visited, bytes, Sum(leafOk, d, |d.entries|), depth) ==> Fits(visited, bytes, Sum(leafOk, d, n), depth)
  {
    SumGrows(leafOk, d, n, |d.entries|);
  }

  lemma NothingYet(leafOk: string -> bool, d: Node, at: Path)
    requires d.Directory?
    ensures Sum(leafOk, d, 0) == NOTHING && Paths(d, at, 0) == []
  {
  }

  lemma NothingFits(visited: int, bytes: int, depth: nat)
    ensures Fits(visited, bytes, NOTHING, depth) <==> visited <= MAX_ENTRIES && bytes <= MAX_INT64 && depth <= MAX_DEPTH
  {
  }

  lemma OneMore(leafOk: string -> bool, d: Node, n: nat)
    requires d.Directory? && n < |d.entries|
    ensures Sum(leafOk, d, n + 1) == Plus(Sum(leafOk, d, n), OfEntry(leafOk, d.entries[n]))
  {
  }

  lemma OneMorePath(d: Node, at: Path, n: nat)
    requires d.Directory? && n < |d.entries|
    ensures Paths(d, at, n + 1) == Paths(d, at, n) + ([at + [d.entries[n].name]] + Below(d.entries[n], at))
  {
  }

  /*** The walk ***/

  datatype Status = Go | Stop | Expired

  class Scan {
    var visited: int
    var skipped: int
    var incomplete: bool
    var bytes: int
    var files: int
    var directories: int
    ghost var log: seq<Path>
    const leafOk: string -> bool
    /** Every directory and entry can be read, and the time suffices. */
    const steady: bool

    ghost predicate Valid()
      reads this
    {
      0 <= visited <= MAX_ENTRIES && 0 <= bytes <= MAX_INT64
    }

    constructor (leafOk: string -> bool, steady: bool)
      ensures Valid() && visited == bytes == files == directories == 0 && !incomplete && log == []
      ensures this.leafOk == leafOk && this.steady == steady
    {
      this.leafOk, this.steady := leafOk, steady;
      visited, skipped, incomplete, bytes, files, directories, log := 0, 0, false, 0, 0, 0, [];
    }

    method Fault() returns (fault: bool)
      ensures steady ==> !fault
    {
      fault := *;
      fault := fault && !steady;
    }

    ghost predicate Room(t: Totals, depth: nat)
      reads this
    {
      !incomplete && Fits(visited, bytes, t, depth)
    }

    /** Exactly these totals and paths have been added since. */
    twostate predicate Added(t: Totals, paths: seq<Path>)
      reads this
    {
      && visited == old(visited) + t.count && bytes == old(bytes) + t.bytes
      && files == old(files) + t.files && directories == old(directories) + t.directories
      && log == old(log) + paths
    }

    method Skip()
      modifies `skipped, `incomplete
      ensures incomplete && skipped == old(skipped) + 1
    {
      skipped := skipped + 1;
      incomplete := true;
    }

    /** The visitor that adds up sizes; it stops the walk rather than let a sum overflow. */
    method Visit(node: Node, ghost path: Path) returns (ok: bool)
      requires Valid() && !node.Special?
      modifies `bytes, `files, `directories, `log
      ensures Valid()
      ensures ok <==> node.Directory? || (node.size >= 0 && old(bytes) + node.size <= MAX_INT64)
      ensures ok ==> log == old(log) + [path]
      ensures if ok && node.File? then bytes == old(bytes) + node.size && files == old(files) + 1 && directories == old(directories)
              else bytes == old(bytes) && files == old(files) && directories == old(directories) + if ok then 1 else 0
    {
      if node.Directory? {
        directories := directories + 1;
        log := log + [path];
        return true;
      }
      if node.size < 0 || bytes > MAX_INT64 - node.size {
        return false;
      }
      bytes := bytes + node.size;
      files := files + 1;
      log := log + [path];
      return true;
    }

    /** Walks one directory, which may become unreadable before any of its entries or after the
        last.  If nothing is reported as incomplete, exactly the totals and the
        paths of the plain recursion were added; and nothing is, just when there is room. */
    method Walk(d: Node, ghost at: Path, depth: nat) returns (status: Status)
      requires Valid() && d.Directory? && depth <= MAX_DEPTH
      modifies this
      ensures Valid() && (old(incomplete) ==> incomplete) && (status == Stop ==> incomplete)
      ensures status == Go && !incomplete ==> Added(Sum(leafOk, d, |d.entries|), Paths(d, at, |d.entries|))
      ensures status == Go && !incomplete ==> old(Room(Sum(leafOk, d, |d.entries|), depth))
      ensures steady && old(Room(Sum(leafOk, d, |d.entries|), depth)) ==> status == Go && !incomplete
      ensures steady ==> status != Expired
      decreases d, 1
    {
      hide Sum, OfEntry, Paths, Fits;
      var expired := Fault();
      if expired {
        return Expired;
      }
      var unavailable := Fault();
      if unavailable {
        Skip();
        return Go;
      }
      var n := 0;
      FitsAtOnce(leafOk, d, 0, visited, bytes, depth);
      NothingYet(leafOk, d, at);
      NothingFits(visited, bytes, depth);
      while n < |d.entries|
        invariant 0 <= n <= |d.entries| && Valid() && (old(incomplete) ==> incomplete)
        invariant !incomplete ==> Added(Sum(leafOk, d, n), Paths(d, at, n)) && old(Room(Sum(leafOk, d, n), depth))
        invariant steady && old(Room(Sum(leafOk, d, n), depth)) ==> !incomplete
      {
        var unreadable := Fault();
        if unreadable {
          Skip();
          return Go;
        }
        FitsAtOnce(leafOk, d, n + 1, old(visited), old(bytes), depth);
        FitsOneByOne(leafOk, d, n, old(visited), old(bytes), depth);
        OneMore(leafOk, d, n);
        OneMorePath(d, at, n);
        status := WalkEntry(d, at, n, depth);
        if status != Go {
          return;
        }
        n := n + 1;
      }
      expired := Fault();
      if expired {
        return Expired;
      }
      unavailable := Fault();
      if unavailable {
        Skip();
      }
      return Go;
    }

    /** Counts one entry, visits it, and walks it if it is a directory. */
    method WalkEntry(d: Node, ghost at: Path, n: nat, depth: nat) returns (status: Status)
      requires Valid() && d.Directory? && n < |d.entries| && depth <= MAX_DEPTH
      modifies this
      ensures Valid() && (old(incomplete) ==> incomplete) && (status == Stop ==> incomplete)
      ensures status == Go && !incomplete ==>
                var e := d.entries[n];
                && Added(OfEntry(leafOk, e), [at + [e.name]] + Below(e, at))
                && old(Room(OfEntry(leafOk, e), depth))
      ensures steady && old(Room(OfEntry(leafOk, d.entries[n]), depth)) ==> status == Go && !incomplete
      ensures steady ==> status != Expired
      decreases d, 0
    {
      var e := d.entries[n];
      var expired := Fault();
      if expired {
        return Expired;
      }
      if visited >= MAX_ENTRIES {
        incomplete := true;
        return Stop;
      }
      visited := visited + 1;
      var unavailable := Fault();
      if !leafOk(e.name) || unavailable || e.node.Special? {
        Skip();
        return Go;
      }
      var ok := Visit(e.node, at + [e.name]);
      if !ok {
        incomplete := true;
        return Stop;
      }
      if e.node.Directory? {
        if depth >= MAX_DEPTH {
          incomplete := true;
          return Go;
        }
        status := Walk(e.node, at + [e.name], depth + 1);
      } else {
        status := Go;
      }
    }
  }

  /** What a scan reports. */
  datatype Report = Report(bytes: int, files: int, directories: int, visited: int, incomplete: bool)

  /** Scans a directory.  A report that is not marked as incomplete is exact, and one is marked
      only if something failed or the tree is beyond the limits. */
  method ScanDirectorySize(leafOk: string -> bool, steady: bool, d: Node) returns (failed: bool, report: Report, ghost log: seq<Path>)
    requires d.Directory?
    ensures 0 <= report.bytes <= MAX_INT64 && 0 <= report.visited <= MAX_ENTRIES
    ensures !failed && !report.incomplete ==>
              var t := Sum(leafOk, d, |d.entries|);
              && report == Report(t.bytes, t.files, t.directories, t.count, false)
              && log == Paths(d, [], |d.entries|)
    ensures !failed && !report.incomplete ==> Fits(0, 0, Sum(leafOk, d, |d.entries|), 1)
    ensures steady ==> !failed && (report.incomplete <==> !Fits(0, 0, Sum(leafOk, d, |d.entries|), 1))
  {
    var scan := new Scan(leafOk, steady);
    var status := scan.Walk(d, [], 1);
    var cancelled: bool := *;
    failed := status == Expired && cancelled;
    report := Report(scan.bytes, scan.files, scan.directories, scan.visited, scan.incomplete || status == Expired);
    log := scan.log;
  }

  /*** The order of the entries does not matter ***/

  lemma {:induction false} SumOfPrefix(leafOk: string -> bool, entries: seq<Entry>, n: nat)
    requires n <= |entries|
    ensures Sum(leafOk, Directory(entries), n) == Sum(leafOk, Directory(entries[..n]), n)
  {
    SameSums(leafOk, entries, entries[..n], n);
  }

  lemma {:induction false} SameSums(leafOk: string -> bool, a: seq<Entry>, b: seq<Entry>, n: nat)
    requires n <= |a| && n <= |b| && a[..n] == b[..n]
    ensures Sum(leafOk, Directory(a), n) == Sum(leafOk, Directory(b), n)
  {
    if n == 0 {
    } else {
      assert a[..n - 1] == a[..n][..n - 1] && b[..n - 1] == b[..n][..n - 1];
      assert a[n - 1] == a[..n][n - 1] && b[n - 1] == b[..n][n - 1];
      SameSums(leafOk, a, b, n - 1);
    }
  }

  /** The totals of a whole directory. */
  function All(leafOk: string -> bool, entries: seq<Entry>): Totals {
    Sum(leafOk, Directory(entries), |entries|)
  }

  lemma AllOfMore(leafOk: string -> bool, entries: seq<Entry>)
    ensures
      var last := |entries| - 1;
      All(leafOk, entries) == if entries == [] then NOTHING else Plus(All(leafOk, entries[..last]), OfEntry(leafOk, entries[last]))
  {
    if entries != [] {
      SumOfPrefix(leafOk, entries, |entries| - 1);
    }
  }

  lemma {:induction false} AllWithout(leafOk: string -> bool, entries: seq<Entry>, k: nat)
    requires k < |entries|
    ensures All(leafOk, entries) == Plus(All(leafOk, entries[..k] + entries[k + 1..]), OfEntry(leafOk, entries[k]))
    decreases |entries|
  {
    hide All, OfEntry;
    var last := |entries| - 1;
    var rest := entries[..k] + entries[k + 1..];
    AllOfMore(leafOk, entries);
    if k == last {
      assert rest == entries[..last];
    } else {
      AllWithout(leafOk, entries[..last], k);
      AllOfMore(leafOk, rest);
      assert rest[..|rest| - 1] == entries[..last][..k] + entries[..last][k + 1..];
    }
  }

  lemma {:induction false} PermutedSums(leafOk: string -> bool, a: seq<Entry>, b: seq<Entry>)
    requires multiset(a) == multiset(b)
    ensures All(leafOk, a) == All(leafOk, b)
    decreases |a|
  {
    hide All, OfEntry;
    assert |multiset(a)| == |a| && |multiset(b)| == |b|;
    if a == [] {
    } else {
      var last := |a| - 1;
      assert a[last] in multiset(b);
      var k :| 0 <= k < |b| && b[k] == a[last];
      WithoutOne(a, last);
      WithoutOne(b, k);
      assert a[..last] + a[last + 1..] == a[..last];
      PermutedSums(leafOk, a[..last], b[..k] + b[k + 1..]);
      AllOfMore(leafOk, a);
      AllWithout(leafOk, b, k);
    }
  }

  /** The same tree, with every directory in it listed in any order. */
  ghost predicate Relisted(a: Node, b: Node)
    decreases a, 1
  {
    if a.Directory? then
      b.Directory? && exists c :: multiset(c) == multiset(b.entries) && RelistedBelow(a, c)
    else a == b
  }

  /** `c` lists the entries of `a` in its order, each relisted. */
  ghost predicate RelistedBelow(a: Node, c: seq<Entry>)
    requires a.Directory?
    decreases a, 0
  {
    && |c| == |a.entries|
    && forall i :: 0 <= i < |c| ==> a.entries[i].name == c[i].name && Relisted(a.entries[i].node, c[i].node)
  }

  lemma {:induction false} RelistedSums(leafOk: string -> bool, a: Node, c: seq<Entry>, n: nat)
    requires a.Directory? && RelistedBelow(a, c) && n <= |c|
    ensures Sum(leafOk, a, n) == Sum(leafOk, Directory(c), n)
    decreases a, n
  {
    if n == 0 {
      NothingYet(leafOk, a, []);
    } else {
      RelistedSums(leafOk, a, c, n - 1);
      var x, y := a.entries[n - 1], c[n - 1];
      assert Relisted(x.node, y.node);
      if x.node.Directory? {
        SumIgnoresOrder(leafOk, x.node, y.node);
      }
      assert OfEntry(leafOk, x) == OfEntry(leafOk, y);
    }
  }

  /** The totals of a tree do not depend on the order in which any of its directories is listed. */
  lemma {:induction false} SumIgnoresOrder(leafOk: string -> bool, a: Node, b: Node)
    requires a.Directory? && Relisted(a, b)
    ensures Sum(leafOk, a, |a.entries|) == Sum(leafOk, b, |b.entries|)
    decreases a, |a.entries| + 1
  {
    var c :| multiset(c) == multiset(b.entries) && RelistedBelow(a, c);
    RelistedSums(leafOk, a, c, |c|);
    PermutedSums(leafOk, c, b.entries);
  }

  /*** Every path is visited once ***/

  /** No directory lists a name twice. */
  predicate DistinctNames(d: Node) {
    d.Directory? ==>
      && (forall i, j :: 0 <= i < j < |d.entries| ==> d.entries[i].name != d.entries[j].name)
      && (forall i :: 0 <= i < |d.entries| ==> DistinctNames(d.entries[i].node))
  }

  lemma {:induction false} PathsLead(d: Node, at: Path, n: nat, p: Path)
    requires d.Directory? && n <= |d.entries| && p in Paths(d, at, n)
    ensures |p| > |at| && p[..|at|] == at && exists i :: 0 <= i < n && d.entries[i].name == p[|at|]
    decreases d, n
  {
    var e := d.entries[n - 1];
    if p in Paths(d, at, n - 1) {
      PathsLead(d, at, n - 1, p);
    } else if p == at + [e.name] {
    } else {
      PathsLead(e.node, at + [e.name], |e.node.entries|, p);
      assert p[..|at|] == p[..|at| + 1][..|at|] && p[|at|] == p[..|at| + 1][|at|];
    }
  }

  predicate NoRepeats(paths: seq<Path>) {
    forall i, j :: 0 <= i < j < |paths| ==> paths[i] != paths[j]
  }

  lemma JoinedWithoutRepeats(before: seq<Path>, at: Path, name: string, below: seq<Path>)
    requires NoRepeats(before) && NoRepeats(below)
    requires forall p :: p in before ==> |p| > |at| && p[|at|] != name
    requires forall p :: p in below ==> |p| > |at| + 1 && p[|at|] == name
    ensures NoRepeats(before + ([at + [name]] + below))
  {
    var all := before + ([at + [name]] + below);
    forall i, j | 0 <= i < j < |all|
      ensures all[i] != all[j]
    {
      assert i < |before| ==> all[i] in before;
      assert j > |before| ==> all[j] == below[j - |before| - 1] && all[j] in below;
      assert i > |before| ==> all[i] == below[i - |before| - 1];
    }
  }

  lemma DistinctBelow(d: Node, n: nat)
    requires d.Directory? && n < |d.entries| && DistinctNames(d)
    ensures DistinctNames(d.entries[n].node)
    ensures forall i :: 0 <= i < n ==> d.entries[i].name != d.entries[n].name
  {
  }

  /** Where the paths before and below an entry part. */
  lemma PathsPart(d: Node, at: Path, n: nat)
    requires d.Directory? && n < |d.entries| && DistinctNames(d)
    ensures forall p :: p in Paths(d, at, n) ==> |p| > |at| && p[|at|] != d.entries[n].name
    ensures forall p :: p in Below(d.entries[n], at) ==> |p| > |at| + 1 && p[|at|] == d.entries[n].name
  {
    hide Paths;
    var e := d.entries[n];
    DistinctBelow(d, n);
    forall p | p in Paths(d, at, n)
      ensures |p| > |at| && p[|at|] != e.name
    {
      PathsLead(d, at, n, p);
    }
    forall p | p in Below(e, at)
      ensures |p| > |at| + 1 && p[|at|] == e.name
    {
      PathsLead(e.node, at + [e.name], |e.node.entries|, p);
      assert p[|at|] == p[..|at| + 1][|at|];
    }
  }

  lemma NothingRepeats(d: Node, at: Path)
    requires d.Directory?
    ensures NoRepeats(Paths(d, at, 0))
  {
  }

  /** A walk never visits a path twice. */
  lemma {:induction false} PathsAreDistinct(d: Node, at: Path, n: nat)
    requires d.Directory? && n <= |d.entries| && DistinctNames(d)
    ensures NoRepeats(Paths(d, at, n))
    decreases d, n
  {
    hide Paths, Below, NoRepeats, DistinctNames;
    if n == 0 {
      NothingRepeats(d, at);
    } else {
      var e := d.entries[n - 1];
      DistinctBelow(d, n - 1);
      PathsAreDistinct(d, at, n - 1);
      BelowIsDistinct(e, at);
      PathsPart(d, at, n - 1);
      OneMorePath(d, at, n - 1);
      JoinedWithoutRepeats(Paths(d, at, n - 1), at, e.name, Below(e, at));
    }
  }

  lemma {:induction false} BelowIsDistinct(e: Entry, at: Path)
    requires DistinctNames(e.node)
    ensures NoRepeats(Below(e, at))
    decreases e, 0
  {
    if e.node.Directory? {
      PathsAreDistinct(e.node, at + [e.name], |e.node.entries|);
    }
  }
}

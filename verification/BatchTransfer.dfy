/** Batches that are placed completely or not at all: copying a selection through staging names,
    moving it by renames, and promoting an extraction stage (utils/operations.go,
    utils/archive_extract.go). */
module BatchTransfer {

  /*** The order of names ***/

  /** Byte-wise order of strings. */
  predicate Before(a: string, b: string) {
    b != "" && (a == "" || a[0] < b[0] || (a[0] == b[0] && Before(a[1..], b[1..])))
  }

  lemma {:induction false} BeforeIsStrict(a: string, b: string)
    requires Before(a, b)
    ensures !Before(b, a)
  {
    if a == "" || a[0] != b[0] {
    } else {
      BeforeIsStrict(a[1..], b[1..]);
    }
  }

  /** The strings part at `k`: one ends there, or has the smaller character. */
  predicate PartAt(a: string, b: string, k: nat) {
    k <= |a| && k < |b| && a[..k] == b[..k] && (k == |a| || a[k] < b[k])
  }

  lemma {:induction false} BeforeIsByteOrder(a: string, b: string)
    ensures Before(a, b) <==> exists k: nat :: PartAt(a, b, k)
  {
    if a == "" || b == "" || a[0] != b[0] {
      assert Before(a, b) ==> PartAt(a, b, 0);
      assert forall k: nat :: k > 0 && PartAt(a, b, k) ==> a[..k][0] == b[..k][0];
    } else {
      BeforeIsByteOrder(a[1..], b[1..]);
      forall k: nat | PartAt(a[1..], b[1..], k)
        ensures PartAt(a, b, k + 1)
      {
        assert a[..k + 1] == [a[0]] + a[1..][..k] && b[..k + 1] == [b[0]] + b[1..][..k];
      }
      forall k: nat | PartAt(a, b, k)
        ensures k > 0 && PartAt(a[1..], b[1..], k - 1)
      {
        assert k > 0 ==> a[1..][..k - 1] == a[..k][1..] && b[1..][..k - 1] == b[..k][1..];
      }
    }
  }

  lemma {:induction false} ExtensionIsAfter(a: string, suffix: string)
    requires suffix != ""
    ensures Before(a, a + suffix)
  {
    if a == "" {
    } else {
      ExtensionIsAfter(a[1..], suffix);
      assert (a + suffix)[1..] == a[1..] + suffix;
    }
  }

  /** The order in which a validated selection comes. */
  predicate Sorted(names: seq<string>) {
    forall i, j :: 0 <= i < j < |names| ==> Before(names[i], names[j])
  }

  const SUFFIX := ".fileharbor-copy-staging"

  function Staging(name: string): string {
    name + SUFFIX
  }

  lemma StagingIsInjective(a: string, b: string)
    requires Staging(a) == Staging(b)
    ensures a == b
  {
    assert a == Staging(a)[..|Staging(a)| - |SUFFIX|] && b == Staging(b)[..|Staging(b)| - |SUFFIX|];
  }

  predicate Distinct(names: seq<string>) {
    forall i, j :: 0 <= i < j < |names| ==> names[i] != names[j]
  }

  /** A name that is also a staging name comes after the name it would stage. */
  predicate StagesFirst(names: seq<string>) {
    forall i, j :: 0 <= i < |names| && 0 <= j < |names| && names[j] == Staging(names[i]) ==> i < j
  }

  lemma SortedStagesFirst(names: seq<string>)
    requires Sorted(names)
    ensures StagesFirst(names) && Distinct(names)
  {
    forall i, j | 0 <= i < |names| && 0 <= j < |names| && names[j] == Staging(names[i])
      ensures i < j
    {
      ExtensionIsAfter(names[i], SUFFIX);
      if j < i {
        BeforeIsStrict(names[j], names[i]);
      }
    }
    forall i, j | 0 <= i < j < |names|
      ensures names[i] != names[j]
    {
      if names[i] == names[j] {
        BeforeIsStrict(names[i], names[j]);
      }
    }
  }

  /*** Copying through staging names, as functions of the directory ***/

  type Directory<T> = map<string, T>

  function Renamed<T>(d: Directory<T>, from: string, to: string): Directory<T> {
    if from in d then d[to := d[from]] - {from} else d
  }

  function StagedAll<T>(d: Directory<T>, names: seq<string>, copies: seq<T>, n: nat): Directory<T>
    requires n <= |names| == |copies|
  {
    if n == 0 then d else StagedAll(d, names, copies, n - 1)[Staging(names[n - 1]) := copies[n - 1]]
  }

  function PromotedAll<T>(d: Directory<T>, names: seq<string>, n: nat): Directory<T>
    requires n <= |names|
  {
    if n == 0 then d else Renamed(PromotedAll(d, names, n - 1), Staging(names[n - 1]), names[n - 1])
  }

  /** What a copy should lead to. */
  function Placed<T>(d: Directory<T>, names: seq<string>, copies: seq<T>): Directory<T>
    requires |names| == |copies|
  {
    if names == [] then d else Placed(d, names[..|names| - 1], copies[..|names| - 1])[names[|names| - 1] := copies[|names| - 1]]
  }

  /** Neither the names nor their staging names are taken. */
  predicate Vacant<T>(d: Directory<T>, names: seq<string>) {
    forall i :: 0 <= i < |names| ==> names[i] !in d && Staging(names[i]) !in d
  }

  /** `u` is `d` with the first `n` copies in place and the others staged. */
  ghost predicate Midway<T>(d: Directory<T>, u: Directory<T>, names: seq<string>, copies: seq<T>, n: nat)
    requires n <= |names| == |copies|
  {
    && (forall i :: 0 <= i < n ==> names[i] in u && u[names[i]] == copies[i])
    && (forall i :: n <= i < |names| ==> Staging(names[i]) in u && u[Staging(names[i])] == copies[i])
    && (forall x :: x in d ==> x in u && u[x] == d[x])
    && (forall x :: x in u && x !in d ==>
          (exists i :: 0 <= i < n && names[i] == x) || (exists i :: n <= i < |names| && Staging(names[i]) == x))
  }

  /** `u` is `d` with the first `n` copies staged. */
  ghost predicate StagedUpTo<T>(d: Directory<T>, u: Directory<T>, names: seq<string>, copies: seq<T>, n: nat)
    requires n <= |names| == |copies|
  {
    && (forall i :: 0 <= i < n ==> Staging(names[i]) in u && u[Staging(names[i])] == copies[i])
    && (forall x :: x in d ==> x in u && u[x] == d[x])
    && (forall x :: x in u && x !in d ==> exists i :: 0 <= i < n && Staging(names[i]) == x)
  }

  lemma OtherStagings(names: seq<string>, n: nat)
    requires n < |names| && Distinct(names)
    ensures forall i :: 0 <= i < n ==> Staging(names[i]) != Staging(names[n])
  {
    forall i | 0 <= i < n
      ensures Staging(names[i]) != Staging(names[n])
    {
      if Staging(names[i]) == Staging(names[n]) {
        StagingIsInjective(names[i], names[n]);
      }
    }
  }

  lemma NothingStaged<T>(d: Directory<T>, names: seq<string>, copies: seq<T>)
    requires |names| == |copies|
    ensures StagedUpTo(d, d, names, copies, 0)
  {
  }

  lemma StagingOne<T>(d: Directory<T>, u: Directory<T>, names: seq<string>, copies: seq<T>, n: nat)
    requires n < |names| == |copies| && StagedUpTo(d, u, names, copies, n) && Staging(names[n]) !in d
    requires forall i :: 0 <= i < n ==> Staging(names[i]) != Staging(names[n])
    ensures StagedUpTo(d, u[Staging(names[n]) := copies[n]], names, copies, n + 1)
  {
    hide Staging;
  }

  lemma {:induction false} StagedAllIsMidway<T>(d: Directory<T>, names: seq<string>, copies: seq<T>, n: nat)
    requires n <= |names| == |copies| && Distinct(names) && Vacant(d, names)
    ensures StagedUpTo(d, StagedAll(d, names, copies, n), names, copies, n)
  {
    hide StagedUpTo, Distinct, Staging;
    if n == 0 {
      NothingStaged(d, names, copies);
    } else {
      StagedAllIsMidway(d, names, copies, n - 1);
      OtherStagings(names, n - 1);
      StagingOne(d, StagedAll(d, names, copies, n - 1), names, copies, n - 1);
    }
  }

  lemma PromotingOne<T>(d: Directory<T>, u: Directory<T>, names: seq<string>, copies: seq<T>, n: nat)
    requires n < |names| == |copies| && Distinct(names) && StagesFirst(names) && Vacant(d, names)
    requires Midway(d, u, names, copies, n)
    ensures names[n] !in u && Staging(names[n]) in u
    ensures Midway(d, Renamed(u, Staging(names[n]), names[n]), names, copies, n + 1)
  {
    var name, stage := names[n], Staging(names[n]);
    forall i | 0 <= i < |names| && i != n
      ensures Staging(names[i]) != stage
    {
      if Staging(names[i]) == stage {
        StagingIsInjective(names[i], name);
      }
    }
    assert forall i :: 0 <= i < n ==> names[i] != stage;
    assert forall i :: n <= i < |names| ==> Staging(names[i]) != name;
  }

  lemma StagedIsMidway<T>(d: Directory<T>, names: seq<string>, copies: seq<T>)
    requires |names| == |copies| && Distinct(names) && Vacant(d, names)
    ensures Midway(d, StagedAll(d, names, copies, |names|), names, copies, 0)
  {
    StagedAllIsMidway(d, names, copies, |names|);
  }

  lemma {:induction false} PromotedAllIsMidway<T>(d: Directory<T>, names: seq<string>, copies: seq<T>, n: nat)
    requires n <= |names| == |copies| && Distinct(names) && StagesFirst(names) && Vacant(d, names)
    ensures Midway(d, PromotedAll(StagedAll(d, names, copies, |names|), names, n), names, copies, n)
  {
    hide Midway, Distinct, StagesFirst, Vacant;
    var u := StagedAll(d, names, copies, |names|);
    if n == 0 {
      StagedIsMidway(d, names, copies);
    } else {
      PromotedAllIsMidway(d, names, copies, n - 1);
      PromotingOne(d, PromotedAll(u, names, n - 1), names, copies, n - 1);
    }
  }

  lemma PlacingOne<T>(d: Directory<T>, u: Directory<T>, names: seq<string>, copies: seq<T>, m: nat)
    requires |names| == |copies| == m + 1 && Distinct(names) && forall i :: 0 <= i < |names| ==> names[i] !in d
    requires Midway(d, u, names[..m], copies[..m], m)
    ensures Midway(d, u[names[m] := copies[m]], names, copies, m + 1)
  {
    var v := u[names[m] := copies[m]];
    forall i | 0 <= i < m
      ensures names[i] in v && v[names[i]] == copies[i]
    {
      assert names[..m][i] == names[i] && copies[..m][i] == copies[i];
    }
    forall x | x in v && x !in d
      ensures exists i :: 0 <= i < m + 1 && names[i] == x
    {
      if x == names[m] {
      } else {
        var i :| 0 <= i < m && names[..m][i] == x;
        assert names[i] == x;
      }
    }
  }

  lemma NothingIsMidway<T>(d: Directory<T>, copies: seq<T>)
    requires copies == []
    ensures Midway(d, d, [], copies, 0)
  {
  }

  lemma {:induction false} PlacedIsMidway<T>(d: Directory<T>, names: seq<string>, copies: seq<T>)
    requires |names| == |copies| && Distinct(names) && forall i :: 0 <= i < |names| ==> names[i] !in d
    ensures Midway(d, Placed(d, names, copies), names, copies, |names|)
  {
    hide Midway;
    if names == [] {
      NothingIsMidway(d, copies);
    } else {
      var m := |names| - 1;
      PlacedIsMidway(d, names[..m], copies[..m]);
      PlacingOne(d, Placed(d, names[..m], copies[..m]), names, copies, m);
    }
  }

  lemma SameWhenDone<T>(d: Directory<T>, u: Directory<T>, v: Directory<T>, names: seq<string>, copies: seq<T>)
    requires |names| == |copies| && Midway(d, u, names, copies, |names|) && Midway(d, v, names, copies, |names|)
    ensures u == v
  {
    forall x
      ensures x in u <==> x in v
      ensures x in u ==> u[x] == v[x]
    {
    }
  }

  /** In an order that stages first, the copies all arrive and nothing else changes. */
  lemma CopiesArrive<T>(d: Directory<T>, names: seq<string>, copies: seq<T>)
    requires |names| == |copies| && Distinct(names) && StagesFirst(names) && Vacant(d, names)
    ensures PromotedAll(StagedAll(d, names, copies, |names|), names, |names|) == Placed(d, names, copies)
  {
    PromotedAllIsMidway(d, names, copies, |names|);
    PlacedIsMidway(d, names, copies);
    hide Distinct, StagesFirst, Vacant, StagedAll, PromotedAll, Placed;
    SameWhenDone(d, PromotedAll(StagedAll(d, names, copies, |names|), names, |names|), Placed(d, names, copies), names, copies);
  }

  lemma {:induction false} OverwrittenCopyIsLost<T>(d: Directory<T>, names: seq<string>, i: nat, j: nat, n: nat)
    requires j < i < n <= |names| && Distinct(names) && names[j] == Staging(names[i])
    ensures names[j] !in PromotedAll(d, names, n)
  {
    if n == i + 1 {
    } else {
      OverwrittenCopyIsLost(d, names, i, j, n - 1);
    }
  }

  lemma {:induction false} PlacedIsThere<T>(d: Directory<T>, names: seq<string>, copies: seq<T>, i: nat)
    requires i < |names| == |copies|
    ensures names[i] in Placed(d, names, copies)
  {
    if i == |names| - 1 {
    } else {
      PlacedIsThere(d, names[..|names| - 1], copies[..|names| - 1], i);
    }
  }

  /** Exactly when it is right to copy through the staging names without sorting: in any other
      order a copy is overwritten before it reaches its place. */
  lemma CopiesArriveInOrder<T>(d: Directory<T>, names: seq<string>, copies: seq<T>)
    requires |names| == |copies| && Distinct(names) && Vacant(d, names)
    ensures PromotedAll(StagedAll(d, names, copies, |names|), names, |names|) == Placed(d, names, copies) <==> StagesFirst(names)
  {
    if StagesFirst(names) {
      CopiesArrive(d, names, copies);
    } else {
      var i, j :| 0 <= i < |names| && 0 <= j < |names| && names[j] == Staging(names[i]) && j <= i;
      OverwrittenCopyIsLost(StagedAll(d, names, copies, |names|), names, i, j, |names|);
      PlacedIsThere(d, names, copies, j);
    }
  }

  /** The two names of such a pair in the wrong order: one copy ends up under the other's name. */
  lemma UnsortedCopyIsWrong<T>(first: T, second: T)
    ensures
      var names := ["a.fileharbor-copy-staging", "a"];
      && Distinct(names) && Vacant<T>(map[], names) && !StagesFirst(names)
      && PromotedAll(StagedAll(map[], names, [first, second], 2), names, 2) == map["a" := first]
  {
    var names := ["a.fileharbor-copy-staging", "a"];
    assert names[0] == Staging("a");
    var stage, twice := Staging("a"), Staging(Staging("a"));
    assert |twice| > |stage| > |"a"|;
    assert names[0] == Staging(names[1]);
    var none: Directory<T> := map[];
    assert StagedAll(none, names, [first, second], 1) == map[twice := first];
    var staged := StagedAll(none, names, [first, second], 2);
    assert staged == map[twice := first, stage := second];
    assert PromotedAll(staged, names, 1) == map[stage := first];
  }

  /*** The operations ***/

  datatype Outcome = Done | Exists | Busy | Failed | Incomplete

  /** `u` has everything `d` has, and nothing else but at the given names. */
  ghost predicate Extends<T>(d: Directory<T>, u: Directory<T>, names: seq<string>) {
    && (forall x :: x in d ==> x in u && u[x] == d[x])
    && (forall x :: x in u && x !in d ==> x in names)
  }

  function Stagings(names: seq<string>): (stages: seq<string>)
    ensures |stages| == |names| && forall i :: 0 <= i < |names| ==> stages[i] == Staging(names[i])
  {
    seq(|names|, i requires 0 <= i < |names| => Staging(names[i]))
  }

  lemma MidwayExtends<T>(d: Directory<T>, u: Directory<T>, names: seq<string>, copies: seq<T>, n: nat)
    requires n <= |names| == |copies| && Midway(d, u, names, copies, n)
    ensures Extends(d, u, names[..n] + Stagings(names))
  {
    forall x | x in u && x !in d
      ensures x in names[..n] + Stagings(names)
    {
      if exists i :: 0 <= i < n && names[i] == x {
        var i :| 0 <= i < n && names[i] == x;
        assert x == names[..n][i];
      } else {
        var i :| n <= i < |names| && Staging(names[i]) == x;
        assert x == Stagings(names)[i];
      }
    }
  }

  /** One more staging name is put in use, whatever is put there. */
  lemma OneMoreStage<T>(d: Directory<T>, u: Directory<T>, names: seq<string>, n: nat, content: T)
    requires n < |names| && Distinct(names) && Extends(d, u, Stagings(names[..n]))
    ensures Staging(names[n]) in u <==> Staging(names[n]) in d
    ensures Extends(d, u, Stagings(names[..n + 1]))
    ensures Staging(names[n]) !in u ==> Extends(d, u[Staging(names[n]) := content], Stagings(names[..n + 1]))
  {
    var before, after := Stagings(names[..n]), Stagings(names[..n + 1]);
    assert after[n] == Staging(names[n]) && after[..n] == before;
    OtherStagings(names, n);
    hide Distinct, Staging;
    assert forall i :: 0 <= i < n ==> before[i] != after[n];
    assert forall x :: x in after <==> x in before || x == after[n] by {
      assert after == before + [after[n]];
    }
  }

  lemma StagingsAreAbsent<T>(d: Directory<T>, names: seq<string>, n: nat)
    requires n <= |names| && forall i :: 0 <= i < n ==> Staging(names[i]) !in d
    ensures forall x :: x in Stagings(names[..n]) ==> x !in d
  {
  }

  lemma EmptyExtends<T>(d: Directory<T>)
    ensures Extends(d, d, Stagings([]))
  {
  }

  lemma PrefixExtends<T>(d: Directory<T>, u: Directory<T>, names: seq<string>, n: nat)
    requires n <= |names| && Extends(d, u, Stagings(names[..n]))
    ensures Extends(d, u, Stagings(names))
  {
    assert Stagings(names[..n]) == Stagings(names)[..n];
  }

  lemma PromotedExtends<T>(d: Directory<T>, u: Directory<T>, names: seq<string>, n: nat)
    requires n <= |names| && Extends(d, u, names[..n] + Stagings(names))
    ensures Extends(d, u, names + Stagings(names))
  {
  }

  lemma VacantPaths<T>(d: Directory<T>, names: seq<string>, n: nat)
    requires n <= |names| && Vacant(d, names)
    ensures forall x :: x in names[..n] + Stagings(names) ==> x !in d
  {
  }

  /** Everything is in one of the two directories: where it was, or moved. */
  ghost predicate Conserved<T>(from: Directory<T>, to: Directory<T>, source: Directory<T>, target: Directory<T>) {
    forall x :: Stayed(from, to, source, target, x) || Moved(from, to, source, target, x)
  }

  ghost predicate Stayed<T>(from: Directory<T>, to: Directory<T>, source: Directory<T>, target: Directory<T>, x: string) {
    && (x in source <==> x in from) && (x in from ==> source[x] == from[x])
    && (x in target <==> x in to) && (x in to ==> target[x] == to[x])
  }

  ghost predicate Moved<T>(from: Directory<T>, to: Directory<T>, source: Directory<T>, target: Directory<T>, x: string) {
    x in from && x !in to && x !in source && x in target && target[x] == from[x]
  }

  /** Exactly the given names have moved. */
  ghost predicate MovedExactly<T>(from: Directory<T>, to: Directory<T>, source: Directory<T>, target: Directory<T>, names: seq<string>) {
    forall x :: if x in names then Moved(from, to, source, target, x) else Stayed(from, to, source, target, x)
  }

  lemma AllStayed<T>(from: Directory<T>, to: Directory<T>, source: Directory<T>, target: Directory<T>)
    requires forall x :: Stayed(from, to, source, target, x)
    ensures source == from && target == to
  {
    assert forall x :: x in from ==> Stayed(from, to, source, target, x);
    assert forall x :: x in source ==> Stayed(from, to, source, target, x);
    assert forall x :: x in to ==> Stayed(from, to, source, target, x);
    assert forall x :: x in target ==> Stayed(from, to, source, target, x);
  }

  class Batch<T> {
    /** The directory that the batch goes to. */
    var target: Directory<T>
    /** The directory that a move comes from. */
    var source: Directory<T>
    /** Removals and renames that undo something succeed. */
    const reliable: bool
    /** Nothing fails. */
    const steady: bool

    method Fault() returns (fault: bool)
      ensures steady ==> !fault
    {
      fault := *;
      fault := fault && !steady;
    }

    /** Removes what is there of the given paths, as far as that succeeds. */
    method Remove(paths: seq<string>)
      modifies `target
      ensures forall x :: x in target ==> x in old(target) && target[x] == old(target)[x]
      ensures forall x :: x in old(target) && x !in paths ==> x in target
      ensures reliable ==> forall x :: x in paths ==> x !in target
    {
      for i := 0 to |paths|
        invariant forall x :: x in target ==> x in old(target) && target[x] == old(target)[x]
        invariant forall x :: x in old(target) && x !in paths ==> x in target
        invariant reliable ==> forall k :: 0 <= k < i ==> paths[k] !in target
      {
        var stuck: bool := *;
        if paths[i] in target && (reliable || !stuck) {
          target := target - {paths[i]};
        }
      }
    }

    /** Takes back what was put at the given paths. */
    method TakeBack(ghost before: Directory<T>, paths: seq<string>)
      requires Extends(before, target, paths) && forall x :: x in paths ==> x !in before
      modifies `target
      ensures Extends(before, target, paths)
      ensures reliable ==> target == before
    {
      Remove(paths);
    }

    /** Copies a selection.  Either every copy arrives, or, if what was put in place can be
        removed again, the directory is as before; what was there is never touched. */
    method Copy(names: seq<string>, copies: seq<T>, garbage: T) returns (outcome: Outcome)
      requires |names| == |copies| && Sorted(names)
      modifies `target
      ensures outcome == Done ==> target == Placed(old(target), names, copies)
      ensures outcome != Done && reliable ==> target == old(target)
      ensures Extends(old(target), target, names + Stagings(names))
      ensures outcome == Exists <==> exists i :: 0 <= i < |names| && names[i] in old(target)
      ensures steady && Vacant(old(target), names) ==> outcome == Done
    {
      SortedStagesFirst(names);
      for i := 0 to |names|
        invariant forall k :: 0 <= k < i ==> names[k] !in target
        invariant target == old(target)
      {
        if names[i] in target {
          return Exists;
        }
      }
      outcome := StageCopies(names, copies, garbage);
      if outcome == Done {
        outcome := PromoteCopies(old(target), names, copies);
      }
    }

    method StageCopies(names: seq<string>, copies: seq<T>, garbage: T) returns (outcome: Outcome)
      requires |names| == |copies| && Distinct(names)
      modifies `target
      ensures outcome == Done ==> target == StagedAll(old(target), names, copies, |names|)
      ensures outcome == Done ==> forall i :: 0 <= i < |names| ==> Staging(names[i]) !in old(target)
      ensures outcome != Done && reliable ==> target == old(target)
      ensures Extends(old(target), target, Stagings(names))
      ensures outcome != Exists
      ensures steady && (forall i :: 0 <= i < |names| ==> Staging(names[i]) !in old(target)) ==> outcome == Done
    {
      hide Extends, Stagings, Distinct;
      EmptyExtends(target);
      assert names[..0] == [] && names[..|names|] == names;
      for n := 0 to |names|
        invariant target == StagedAll(old(target), names, copies, n)
        invariant Extends(old(target), target, Stagings(names[..n]))
        invariant forall i :: 0 <= i < n ==> Staging(names[i]) !in old(target)
      {
        var stage := Staging(names[n]);
        OneMoreStage(old(target), target, names, n, garbage);
        OneMoreStage(old(target), target, names, n, copies[n]);
        StagingsAreAbsent(old(target), names, n);
        if stage in target {
          TakeBack(old(target), Stagings(names[..n]));
          PrefixExtends(old(target), target, names, n);
          return Busy;
        }
        var fault := Fault();
        if fault {
          var started: bool := *;
          if started {
            target := target[stage := garbage];
          }
          StagingsAreAbsent(old(target), names, n + 1);
          TakeBack(old(target), Stagings(names[..n + 1]));
          PrefixExtends(old(target), target, names, n + 1);
          return Failed;
        }
        target := target[stage := copies[n]];
      }
      return Done;
    }

    method PromoteCopies(ghost before: Directory<T>, names: seq<string>, copies: seq<T>) returns (outcome: Outcome)
      requires |names| == |copies| && Distinct(names) && StagesFirst(names) && Vacant(before, names)
      requires target == StagedAll(before, names, copies, |names|)
      modifies `target
      ensures outcome == Done ==> target == Placed(before, names, copies)
      ensures outcome != Done && reliable ==> target == before
      ensures Extends(before, target, names + Stagings(names))
      ensures outcome == Done || outcome == Incomplete
      ensures steady ==> outcome == Done
    {
      StagedIsMidway(before, names, copies);
      PlacedIsMidway(before, names, copies);
      hide StagedAll, StagesFirst, Distinct, Midway, Vacant, Extends, Stagings, Placed;
      for n := 0 to |names|
        invariant Midway(before, target, names, copies, n)
      {
        MidwayExtends(before, target, names, copies, n);
        PromotingOne(before, target, names, copies, n);
        var fault := Fault();
        if fault {
          VacantPaths(before, names, n);
          TakeBack(before, names[..n] + Stagings(names));
          PromotedExtends(before, target, names, n);
          return Incomplete;
        }
        target := target[names[n] := target[Staging(names[n])]] - {Staging(names[n])};
      }
      MidwayExtends(before, target, names, copies, |names|);
      PromotedExtends(before, target, names, |names|);
      SameWhenDone(before, target, Placed(before, names, copies), names, copies);
      return Done;
    }

    /** Takes the names back in reverse order, as far as that succeeds. */
    method MoveBack(ghost from: Directory<T>, ghost to: Directory<T>, names: seq<string>) returns (all: bool)
      requires Distinct(names) && MovedExactly(from, to, source, target, names)
      modifies `source, `target
      ensures Conserved(from, to, source, target)
      ensures forall x :: x !in names ==> Stayed(from, to, source, target, x)
      ensures if all then source == from && target == to else target != to
      ensures reliable ==> all
    {
      all := true;
      var n := |names|;
      ghost var left := "";
      assert names[..n] == names;
      while n > 0
        invariant 0 <= n <= |names|
        invariant forall x :: if x in names[..n] then Moved(from, to, source, target, x) else Stayed(from, to, source, target, x) || Moved(from, to, source, target, x)
        invariant forall x :: x !in names ==> Stayed(from, to, source, target, x)
        invariant all ==> forall x :: x !in names[..n] ==> Stayed(from, to, source, target, x)
        invariant !all ==> left !in names[..n] && Moved(from, to, source, target, left)
        invariant reliable ==> all
      {
        n := n - 1;
        var name := names[n];
        var stuck: bool := *;
        assert names[..n + 1] == names[..n] + [name] && name !in names[..n];
        assert Moved(from, to, source, target, name);
        ghost var s, t := source, target;
        if reliable || !stuck {
          source, target := source[name := target[name]], target - {name};
          assert Stayed(from, to, source, target, name);
        } else {
          all, left := false, name;
        }
        forall x | x != name
          ensures Stayed(from, to, source, target, x) <==> Stayed(from, to, s, t, x)
          ensures Moved(from, to, source, target, x) <==> Moved(from, to, s, t, x)
        {
        }
      }
      if all {
        AllStayed(from, to, source, target);
      }
    }

    /** Promotes an extraction stage without replacing anything. */
    method Promote(tops: seq<string>) returns (outcome: Outcome)
      requires Distinct(tops)
      modifies `source, `target
      ensures Conserved(old(source), old(target), source, target)
      ensures outcome == Done ==> MovedExactly(old(source), old(target), source, target, tops)
      ensures outcome == Exists || outcome == Failed ==> source == old(source) && target == old(target)
      ensures outcome == Incomplete ==> target != old(target)
      ensures outcome != Done && reliable ==> source == old(source) && target == old(target)
      ensures outcome == Exists ==> exists i :: 0 <= i < |tops| && tops[i] in old(target)
      ensures steady && (forall i :: 0 <= i < |tops| ==> tops[i] in old(source)) ==>
                (outcome == Done <==> forall i :: 0 <= i < |tops| ==> tops[i] !in old(target))
    {
      for n := 0 to |tops|
        invariant MovedExactly(old(source), old(target), source, target, tops[..n])
      {
        var top := tops[n];
        assert top !in tops[..n];
        assert tops[..n + 1] == tops[..n] + [top];
        assert Stayed(old(source), old(target), source, target, top);
        var fault := Fault();
        if fault || top !in source || top in target {
          var all := MoveBack(old(source), old(target), tops[..n]);
          return if !all then Incomplete else if top in target then Exists else Failed;
        }
        source, target := source - {top}, target[top := source[top]];
      }
      assert tops[..|tops|] == tops;
      assert forall i :: 0 <= i < |tops| ==> Moved(old(source), old(target), source, target, tops[i]);
      return Done;
    }

    /** Moves a selection by renames that would replace what is there, after a check that
        nothing is. */
    method Move(names: seq<string>) returns (outcome: Outcome)
      requires Distinct(names)
      modifies `source, `target
      ensures Conserved(old(source), old(target), source, target)
      ensures outcome == Done ==> MovedExactly(old(source), old(target), source, target, names)
      ensures outcome == Failed <==> exists i :: 0 <= i < |names| && names[i] !in old(source)
      ensures outcome == Exists <==> outcome != Failed && exists i :: 0 <= i < |names| && names[i] in old(target)
      ensures outcome == Failed || outcome == Exists ==> source == old(source) && target == old(target)
      ensures outcome != Done && reliable ==> source == old(source) && target == old(target)
      ensures steady ==> outcome != Incomplete && outcome != Busy
    {
      for i := 0 to |names|
        invariant forall k :: 0 <= k < i ==> names[k] in source
      {
        if names[i] !in source {
          return Failed;
        }
      }
      for i := 0 to |names|
        invariant forall k :: 0 <= k < i ==> names[k] !in target
      {
        if names[i] in target {
          return Exists;
        }
      }
      for n := 0 to |names|
        invariant MovedExactly(old(source), old(target), source, target, names[..n])
      {
        var name := names[n];
        assert name !in names[..n];
        assert names[..n + 1] == names[..n] + [name];
        var fault := Fault();
        if fault {
          var all := MoveBack(old(source), old(target), names[..n]);
          return Incomplete;
        }
        source, target := source - {name}, target[name := source[name]];
      }
      assert names[..|names|] == names;
      return Done;
    }
  }
}

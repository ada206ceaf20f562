/** Names of archive entries (utils/archive_extract.go): from the raw bytes of an entry's name to
    the components of a relative path. */
module ArchiveNames {
  import opened Basics

  /** The pieces of `s` between slashes. */
  function Split(s: string): (parts: seq<string>)
    ensures parts != []
  {
    if s == "" then [""]
    else
      var rest := Split(s[1..]);
      if s[0] == '/' then [""] + rest else [[s[0]] + rest[0]] + rest[1..]
  }

  function Join(parts: seq<string>): string {
    if parts == [] then ""
    else if |parts| == 1 then parts[0]
    else parts[0] + "/" + Join(parts[1..])
  }

  predicate NoSlash(parts: seq<string>) {
    forall i :: 0 <= i < |parts| ==> '/' !in parts[i]
  }

  lemma {:induction false} SplitPieces(s: string)
    ensures NoSlash(Split(s)) && Join(Split(s)) == s
  {
    if s == "" {
    } else {
      SplitPieces(s[1..]);
      var rest := Split(s[1..]);
      assert s == [s[0]] + s[1..];
      if s[0] == '/' {
        assert Split(s)[1..] == rest;
      } else {
        assert Split(s) == [[s[0]] + rest[0]] + rest[1..];
        assert Split(s)[1..] == rest[1..];
      }
    }
  }

  lemma {:induction false} SplitFirst(head: string, tail: string)
    requires '/' !in head
    ensures Split(head + "/" + tail) == [head] + Split(tail)
    ensures Split(head) == [head]
  {
    if head == "" {
      assert head + "/" + tail == "/" + tail;
      assert ("/" + tail)[1..] == tail;
    } else {
      SplitFirst(head[1..], tail);
      assert (head + "/" + tail)[1..] == head[1..] + "/" + tail;
      assert head == [head[0]] + head[1..];
    }
  }

  /** A path is determined by its components and determines them. */
  lemma {:induction false} SplitJoin(parts: seq<string>)
    requires parts != [] && NoSlash(parts)
    ensures Split(Join(parts)) == parts
  {
    if |parts| == 1 {
      SplitFirst(parts[0], "");
    } else {
      SplitJoin(parts[1..]);
      SplitFirst(parts[0], Join(parts[1..]));
    }
  }

  /** Every component folded on its own, as lower-casing a joined path does. */
  function Folded(fold: string -> string, path: seq<string>): (key: seq<string>)
    ensures |key| == |path|
  {
    seq(|path|, i requires 0 <= i < |path| => fold(path[i]))
  }

  /** Folded keys are equal exactly when the paths are as long and fold alike in every place. */
  lemma FoldedKeysAgree(fold: string -> string, p: seq<string>, q: seq<string>)
    ensures Folded(fold, p) == Folded(fold, q) <==> |p| == |q| && forall i :: 0 <= i < |p| ==> fold(p[i]) == fold(q[i])
  {
    assert forall i :: 0 <= i < |p| && i < |q| ==> (Folded(fold, p)[i] == Folded(fold, q)[i] <==> fold(p[i]) == fold(q[i]));
  }

  /** Joined keys are equal only if they are equal component by component. */
  lemma JoinedKeysAgree(fold: string -> string, p: seq<string>, q: seq<string>)
    requires forall s :: '/' !in s ==> '/' !in fold(s)
    requires p != [] && q != [] && NoSlash(p) && NoSlash(q)
    ensures Join(Folded(fold, p)) == Join(Folded(fold, q)) <==> Folded(fold, p) == Folded(fold, q)
  {
    SplitJoin(Folded(fold, p));
    SplitJoin(Folded(fold, q));
  }

  function Slashes(raw: string): (s: string)
    ensures |s| == |raw|
  {
    seq(|raw|, i requires 0 <= i < |raw| => if raw[i] == '\\' then '/' else raw[i])
  }

  /** The local rules for one component.  `leafOk` stands for the rules that a leaf name obeys
      on every supported system. */
  predicate Portable(leafOk: string -> bool, part: string) {
    part != "" && part != "." && part != ".." && |part| <= 255 && leafOk(part)
  }

  /** `path` is what the raw name of an entry stands for. */
  predicate Names(leafOk: string -> bool, raw: string, path: seq<string>) {
    && |raw| <= 4096 && '\0' !in raw
    && path != [] && NoSlash(path)
    && (forall i :: 0 <= i < |path| ==> Portable(leafOk, path[i]))
    && (Slashes(raw) == Join(path) || Slashes(raw) == Join(path) + "/")
  }

  lemma {:induction false} JoinEmptyLast(path: seq<string>)
    requires path != []
    ensures Join(path + [""]) == Join(path) + "/"
  {
    if |path| == 1 {
      assert (path + [""])[1..] == [""];
    } else {
      JoinEmptyLast(path[1..]);
      assert (path + [""])[1..] == path[1..] + [""];
    }
  }

  /** The only candidate for the path of a raw name is given by its pieces. */
  lemma NamesByPieces(leafOk: string -> bool, raw: string, path: seq<string>)
    requires Names(leafOk, raw, path)
    ensures Split(Slashes(raw)) == path || Split(Slashes(raw)) == path + [""]
  {
    SplitJoin(path);
    JoinEmptyLast(path);
    SplitJoin(path + [""]);
  }

  /** Apart from an empty last piece, every piece is a component of the path. */
  lemma PiecesOfName(leafOk: string -> bool, raw: string, path: seq<string>)
    requires Names(leafOk, raw, path)
    ensures
      var pieces := Split(Slashes(raw));
      && pieces[0] != ""
      && (forall i :: 0 <= i < |pieces| ==> Portable(leafOk, pieces[i]) || (i == |pieces| - 1 && pieces[i] == ""))
      && path == if pieces[|pieces| - 1] == "" then pieces[..|pieces| - 1] else pieces
  {
    NamesByPieces(leafOk, raw, path);
    assert Portable(leafOk, path[|path| - 1]) && Portable(leafOk, path[0]);
  }

  lemma NamedByPieces(leafOk: string -> bool, raw: string, count: nat)
    requires |raw| <= 4096 && '\0' !in raw
    requires
      var pieces := Split(Slashes(raw));
      && 0 < count <= |pieces| && (count == |pieces| || (count == |pieces| - 1 && pieces[count] == ""))
      && forall i :: 0 <= i < count ==> Portable(leafOk, pieces[i])
    ensures Names(leafOk, raw, Split(Slashes(raw))[..count])
  {
    var pieces := Split(Slashes(raw));
    SplitPieces(Slashes(raw));
    if count < |pieces| {
      assert pieces == pieces[..count] + [""];
      JoinEmptyLast(pieces[..count]);
    } else {
      assert pieces[..count] == pieces;
    }
  }

  /*** What a raw name spells ***/

  predicate IsSlash(c: char) {
    c == '/' || c == '\\'
  }

  /** `raw` is the components of `path`, with a slash of either kind between any two of them and
      perhaps one more at the end. */
  predicate Spells(raw: string, path: seq<string>)
    decreases |path|
  {
    && path != [] && path[0] <= raw
    && var rest := raw[|path[0]|..];
    if |path| == 1 then |rest| == 0 || (|rest| == 1 && IsSlash(rest[0]))
    else |rest| > 0 && IsSlash(rest[0]) && Spells(rest[1..], path[1..])
  }

  predicate Slashless(s: string) {
    forall k :: 0 <= k < |s| ==> !IsSlash(s[k])
  }

  predicate AllSlashless(path: seq<string>) {
    forall i :: 0 <= i < |path| ==> Slashless(path[i])
  }

  /** A component that is safe on every supported system. */
  predicate SafeComponent(leafOk: string -> bool, part: string) {
    1 <= |part| <= 255 && leafOk(part) && Slashless(part) && part != "." && part != ".."
  }

  /** The raw name is within bounds and spells a path of safe components. */
  predicate SafelyNames(leafOk: string -> bool, raw: string, path: seq<string>) {
    && |raw| <= 4096 && (forall i :: 0 <= i < |raw| ==> raw[i] != 0 as char)
    && Spells(raw, path)
    && forall i :: 0 <= i < |path| ==> SafeComponent(leafOk, path[i])
  }

  lemma SlashAt(raw: string, k: nat)
    requires k < |raw|
    ensures Slashes(raw)[k] == if IsSlash(raw[k]) then '/' else raw[k]
  {
  }

  /** A head without slashes is in the normal form exactly when it is in the raw name. */
  lemma AfterHead(raw: string, head: string, t: string)
    requires Slashless(head)
    ensures Slashes(raw) == head + t <==> head <= raw && Slashes(raw[|head|..]) == t
  {
    if head <= raw {
      forall k | 0 <= k < |head|
        ensures Slashes(raw)[k] == head[k]
      {
        SlashAt(raw, k);
      }
      assert Slashes(raw)[..|head|] == head && Slashes(raw)[|head|..] == Slashes(raw[|head|..]);
      assert Slashes(raw) == head + Slashes(raw[|head|..]);
    } else if Slashes(raw) == head + t {
      forall k | 0 <= k < |head|
        ensures raw[k] == head[k]
      {
        SlashAt(raw, k);
        assert Slashes(raw)[k] == head[k];
      }
      assert false;
    }
  }

  lemma AfterSlash(raw: string, t: string)
    ensures Slashes(raw) == "/" + t <==> raw != "" && IsSlash(raw[0]) && Slashes(raw[1..]) == t
  {
    if raw != "" {
      SlashAt(raw, 0);
      assert Slashes(raw)[1..] == Slashes(raw[1..]) && ("/" + t)[1..] == t;
      assert Slashes(raw) == [Slashes(raw)[0]] + Slashes(raw)[1..];
    }
  }

  /** The normal form of a raw name is the joined path exactly when the raw name spells the path. */
  lemma {:induction false} SpellingIsJoined(raw: string, path: seq<string>)
    requires path != [] && AllSlashless(path)
    ensures Spells(raw, path) <==> Slashes(raw) == Join(path) || Slashes(raw) == Join(path) + "/"
    decreases |path|
  {
    hide Slashes;
    var head := path[0];
    assert Slashless(head);
    var rest := if head <= raw then raw[|head|..] else "";
    if |path| == 1 {
      AfterHead(raw, head, "");
      AfterHead(raw, head, "/");
      AfterSlash(rest, "");
      NormalOfNothing(rest);
    } else {
      var tail := Join(path[1..]);
      AfterHead(raw, head, "/" + tail);
      AfterHead(raw, head, "/" + (tail + "/"));
      AfterSlash(rest, tail);
      AfterSlash(rest, tail + "/");
      if rest != "" {
        SpellingIsJoined(rest[1..], path[1..]);
      }
      assert Join(path) == head + ("/" + tail) && Join(path) + "/" == head + ("/" + (tail + "/"));
    }
  }

  lemma NormalOfNothing(raw: string)
    ensures Slashes(raw) == "" <==> raw == ""
    ensures |raw| > 0 ==> (Slashes(raw[1..]) == "" <==> |raw| == 1)
  {
  }

  /** What an accepted name means, in terms of the raw characters only. */
  lemma NamesAreSafe(leafOk: string -> bool, raw: string, path: seq<string>)
    ensures Names(leafOk, raw, path) <==> SafelyNames(leafOk, raw, path)
  {
    hide Join, Slashes;
    if Names(leafOk, raw, path) {
      NamedIsSlashless(raw, path);
    }
    if path != [] && AllSlashless(path) {
      SpellingIsJoined(raw, path);
    }
    assert forall part :: Slashless(part) ==> '/' !in part;
    assert ('\0' !in raw) <==> forall i :: 0 <= i < |raw| ==> raw[i] != 0 as char;
  }

  /** A joined path that is a normal form has no backslash in any component. */
  lemma NamedIsSlashless(raw: string, path: seq<string>)
    requires NoSlash(path) && (Slashes(raw) == Join(path) || Slashes(raw) == Join(path) + "/")
    ensures AllSlashless(path)
  {
    forall i, k | 0 <= i < |path| && 0 <= k < |path[i]|
      ensures !IsSlash(path[i][k])
    {
      JoinHolds(path, i, k);
      var at :| 0 <= at < |Join(path)| && Join(path)[at] == path[i][k];
      assert Slashes(raw)[at] == path[i][k];
      SlashAt(raw, at);
      assert path[i][k] in path[i];
    }
  }

  lemma {:induction false} JoinHolds(path: seq<string>, i: nat, k: nat)
    requires i < |path| && k < |path[i]|
    ensures exists at :: 0 <= at < |Join(path)| && Join(path)[at] == path[i][k]
  {
    if i == 0 {
      assert Join(path)[k] == path[0][k];
    } else {
      JoinHolds(path[1..], i - 1, k);
      var at :| 0 <= at < |Join(path[1..])| && Join(path[1..])[at] == path[i][k];
      assert Join(path)[|path[0]| + 1 + at] == path[i][k];
    }
  }

  predicate SameButForSlashes(a: string, b: string) {
    |a| == |b| && forall i :: 0 <= i < |a| ==> a[i] == b[i] || (IsSlash(a[i]) && IsSlash(b[i]))
  }

  /** It makes no difference which of the two slashes stands where. */
  lemma EitherSlashWillDo(leafOk: string -> bool, a: string, b: string, path: seq<string>)
    requires SameButForSlashes(a, b)
    ensures Names(leafOk, a, path) <==> Names(leafOk, b, path)
  {
    NamesAreSafe(leafOk, a, path);
    NamesAreSafe(leafOk, b, path);
    hide Names;
    if AllSlashless(path) {
      SameSpelling(a, b, path);
    }
    assert SafelyNames(leafOk, a, path) ==> AllSlashless(path);
    assert SafelyNames(leafOk, b, path) ==> AllSlashless(path);
  }

  lemma {:induction false} SameSpelling(a: string, b: string, path: seq<string>)
    requires SameButForSlashes(a, b) && AllSlashless(path)
    ensures Spells(a, path) <==> Spells(b, path)
    decreases |path|
  {
    if path == [] {
    } else {
      var n := |path[0]|;
      assert Slashless(path[0]);
      assert path[0] <= a <==> path[0] <= b by {
        assert forall k :: 0 <= k < n && n <= |a| ==> (a[k] == path[0][k] <==> b[k] == path[0][k]);
      }
      if n < |a| {
        SameSpelling(a[n + 1..], b[n + 1..], path[1..]);
        assert a[n..][1..] == a[n + 1..] && b[n..][1..] == b[n + 1..];
      }
    }
  }

  /** Accepts a raw name exactly when some path is what it stands for, and returns that path. */
  method ValidateName(leafOk: string -> bool, raw: string) returns (name: Option<seq<string>>)
    ensures name.Some? ==> Names(leafOk, raw, name.value)
    ensures forall path :: Names(leafOk, raw, path) ==> name == Some(path)
    ensures forall path :: name == Some(path) <==> SafelyNames(leafOk, raw, path)
  {
    forall path
      ensures Names(leafOk, raw, path) <==> SafelyNames(leafOk, raw, path)
    {
      NamesAreSafe(leafOk, raw, path);
    }
    hide SafelyNames;
    var normal := Slashes(raw);
    var parts := Split(normal);
    forall path | Names(leafOk, raw, path)
      ensures parts[0] != "" && path == if parts[|parts| - 1] == "" then parts[..|parts| - 1] else parts
      ensures forall i :: 0 <= i < |parts| ==> Portable(leafOk, parts[i]) || (i == |parts| - 1 && parts[i] == "")
    {
      PiecesOfName(leafOk, raw, path);
    }
    if raw == "" || '\0' in raw || normal[0] == '/' || |normal| > 4096 {
      return None;
    }
    hide Portable, Join, NoSlash, Slashes;
    var count := |parts|;
    for index := 0 to |parts|
      invariant count == |parts|
      invariant forall i :: 0 <= i < index ==> Portable(leafOk, parts[i])
    {
      var part := parts[index];
      if index == |parts| - 1 && part == "" {
        count := index;
        break;
      }
      if !Portable(leafOk, part) {
        return None;
      }
    }
    NamedByPieces(leafOk, raw, count);
    return Some(parts[..count]);
  }
}

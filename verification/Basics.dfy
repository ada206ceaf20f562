/** What several modules share. */
module Basics {

  datatype Option<+T> = None | Some(value: T)

  newtype byte = x: int | 0 <= x < 0x100

  type Bytes = seq<byte>

  /*** Paths ***/

  /** `leaf` is what follows the last slash of `path`. */
  predicate IsLastComponent(path: string, leaf: string) {
    && '/' !in leaf && |leaf| <= |path| && path[|path| - |leaf|..] == leaf
    && (|leaf| < |path| ==> path[|path| - |leaf| - 1] == '/')
  }

  /** `path` ends in `leaf`, and before that there is only `directory` with a slash, or nothing in
      the root. */
  predicate IsEntry(path: string, directory: string, leaf: string) {
    && |leaf| <= |path| && path[|path| - |leaf|..] == leaf
    && path[..|path| - |leaf|] == if directory == "" then "" else directory + "/"
  }

  /*** Collections ***/

  lemma SubsetSize<T>(a: set<T>, b: set<T>)
    requires a <= b
    ensures |a| <= |b|
  {
    assert b == a + (b - a);
  }

  lemma WithoutOne<T>(s: seq<T>, k: nat)
    requires k < |s|
    ensures multiset(s[..k] + s[k + 1..]) == multiset(s) - multiset{s[k]}
  {
    assert s == s[..k] + [s[k]] + s[k + 1..];
  }
}

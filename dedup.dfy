/**
 * `Array.distinct` as the runner relies on it: equal elements collapse to
 * one, and nothing else is lost.
 */
module Dedup {

  predicate NoDuplicates<T(==)>(s: seq<T>) {
    forall i, j :: 0 <= i < j < |s| ==> s[i] != s[j]
  }

  /** Keeps the first occurrence of each element, in input order. */
  method Distinct<T(==)>(s: seq<T>) returns (r: seq<T>)
    ensures NoDuplicates(r)
    ensures forall x :: x in r <==> x in s
    ensures |r| <= |s|
  {
    r := [];
    for i := 0 to |s|
      invariant NoDuplicates(r)
      invariant forall x :: x in r <==> x in s[..i]
      invariant |r| <= i
    {
      assert s[..i + 1] == s[..i] + [s[i]];
      if s[i] !in r {
        r := r + [s[i]];
      }
    }
    assert s[..|s|] == s;
  }
}

/**
 * Dialect classification of input paths: every entry point of the runner
 * splits its file list with order-preserving suffix filters.
 */
module Classify {

  /** Keeps, in order, the elements of `s` that satisfy `p` (Swift's `filter`). */
  function Filter<T>(p: T -> bool, s: seq<T>): (r: seq<T>)
    ensures |r| <= |s|
  {
    if s == [] then []
    else (if p(s[0]) then [s[0]] else []) + Filter(p, s[1..])
  }

  /** The filter is exact: it keeps every element that satisfies `p`, as often as it occurs, and nothing else. */
  lemma {:induction false} FilterExact<T(!new)>(p: T -> bool, s: seq<T>)
    ensures forall x :: multiset(Filter(p, s))[x] == if p(x) then multiset(s)[x] else 0
    ensures forall x :: x in Filter(p, s) <==> x in s && p(x)
  {
    if s != [] {
      FilterExact(p, s[1..]);
      assert s == [s[0]] + s[1..];
      assert multiset(s) == multiset{s[0]} + multiset(s[1..]);
      var head := if p(s[0]) then [s[0]] else [];
      assert multiset(Filter(p, s)) == multiset(head) + multiset(Filter(p, s[1..]));
      forall x ensures x in Filter(p, s) <==> x in s && p(x) {
        assert x in Filter(p, s) <==> x in multiset(Filter(p, s));
        assert x in s <==> x in multiset(s);
      }
    }
  }

  /** Filtering distributes over concatenation: the relative order of the kept elements is the input order. */
  lemma {:induction false} FilterConcat<T>(p: T -> bool, a: seq<T>, b: seq<T>)
    ensures Filter(p, a + b) == Filter(p, a) + Filter(p, b)
  {
    if a == [] {
      assert a + b == b;
    } else {
      var head := if p(a[0]) then [a[0]] else [];
      assert (a + b)[0] == a[0];
      assert (a + b)[1..] == a[1..] + b;
      FilterConcat(p, a[1..], b);
      calc {
        Filter(p, a + b);
        head + Filter(p, a[1..] + b);
        head + (Filter(p, a[1..]) + Filter(p, b));
        (head + Filter(p, a[1..])) + Filter(p, b);
        Filter(p, a) + Filter(p, b);
      }
    }
  }

  /** Swift's `String.hasSuffix`, on sequences of characters. */
  predicate HasSuffix(s: string, suffix: string) {
    |suffix| <= |s| && s[|s| - |suffix|..] == suffix
  }

  lemma SuffixLastChar(s: string, suffix: string)
    requires HasSuffix(s, suffix) && |suffix| > 0
    ensures s[|s| - 1] == suffix[|suffix| - 1]
  {
  }

  /** Objective-C header or implementation file. */
  predicate IsObjcPath(f: string) {
    HasSuffix(f, ".h") || HasSuffix(f, ".m")
  }

  predicate IsSwiftPath(f: string) {
    HasSuffix(f, ".swift")
  }

  predicate IsHeaderPath(f: string) {
    HasSuffix(f, ".h")
  }

  /** No path is both an Objective-C path and a Swift path. */
  lemma DialectsExclusive(f: string)
    ensures !(IsObjcPath(f) && IsSwiftPath(f))
  {
    if IsSwiftPath(f) {
      SuffixLastChar(f, ".swift");
      if HasSuffix(f, ".h") { SuffixLastChar(f, ".h"); }
      if HasSuffix(f, ".m") { SuffixLastChar(f, ".m"); }
    }
  }

  /**
   * The `ocFiles` and `swiftFiles` groups of `parse`: each holds exactly the
   * input paths of its dialect, and no path is in both.  Paths of neither
   * dialect are in neither group.
   */
  function ParseGroups(files: seq<string>): (groups: (seq<string>, seq<string>))
    ensures forall f :: f in groups.0 <==> f in files && IsObjcPath(f)
    ensures forall f :: f in groups.1 <==> f in files && IsSwiftPath(f)
    ensures forall f :: f in groups.0 ==> f !in groups.1
  {
    var oc := Filter(IsObjcPath, files);
    var swift := Filter(IsSwiftPath, files);
    FilterExact(IsObjcPath, files);
    FilterExact(IsSwiftPath, files);
    assert forall f :: f in oc ==> f !in swift by {
      forall f | f in oc ensures f !in swift { DialectsExclusive(f); }
    }
    (oc, swift)
  }

  /** Classifying a concatenation classifies each part and keeps them in order. */
  lemma ParseGroupsOrder(a: seq<string>, b: seq<string>)
    ensures ParseGroups(a + b).0 == ParseGroups(a).0 + ParseGroups(b).0
    ensures ParseGroups(a + b).1 == ParseGroups(a).1 + ParseGroups(b).1
  {
    FilterConcat(IsObjcPath, a, b);
    FilterConcat(IsSwiftPath, a, b);
  }

  /** The `sources` of `parseMethods`: every path that is not a header, as often as it occurs. */
  function MethodSources(files: seq<string>): (sources: seq<string>)
    ensures forall f :: f in sources <==> f in files && !IsHeaderPath(f)
    ensures forall f :: multiset(sources)[f] == if IsHeaderPath(f) then 0 else multiset(files)[f]
  {
    FilterExact(f => !IsHeaderPath(f), files);
    Filter(f => !IsHeaderPath(f), files)
  }

  /**
   * The two groups of `parseInerit`, split by the (external) `isSwift` test:
   * together they are a permutation of the input, every path lands in exactly one.
   */
  function InheritGroups(files: seq<string>, isSwift: string -> bool): (groups: (seq<string>, seq<string>))
    ensures multiset(groups.0) + multiset(groups.1) == multiset(files)
    ensures forall f :: f in groups.0 <==> f in files && !isSwift(f)
    ensures forall f :: f in groups.1 <==> f in files && isSwift(f)
  {
    var objc := Filter(f => !isSwift(f), files);
    var swift := Filter(isSwift, files);
    FilterExact(f => !isSwift(f), files);
    FilterExact(isSwift, files);
    assert forall f :: (multiset(objc) + multiset(swift))[f] == multiset(files)[f];
    (objc, swift)
  }
}

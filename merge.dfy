/**
 * `Array<ImplementationNode>.merged()`: implementation nodes grouped by
 * class name into a dictionary, the method lists of nodes that share a name
 * concatenated in input order.
 */
module Merging {
  import opened Nodes

  /** The class names occurring in a list of implementation nodes. */
  function ClassNames(imps: seq<ImplementationNode>): set<string> {
    set imp | imp in imps :: imp.className
  }

  /** The methods of all nodes named `name`, concatenated in input order. */
  function MethodsFor(imps: seq<ImplementationNode>, name: string): seq<MethodNode> {
    if imps == [] then []
    else (if imps[0].className == name then imps[0].methods else []) + MethodsFor(imps[1..], name)
  }

  /** Position of the first node named `name`. */
  function FirstIndex(imps: seq<ImplementationNode>, name: string): (i: nat)
    requires name in ClassNames(imps)
    ensures i < |imps| && imps[i].className == name
    ensures forall j :: 0 <= j < i ==> imps[j].className != name
  {
    if imps[0].className == name then 0
    else
      assert exists imp :: imp in imps[1..] && imp.className == name by {
        var imp :| imp in imps && imp.className == name;
        assert imp != imps[0];
      }
      1 + FirstIndex(imps[1..], name)
  }

  /**
   * What the merged dictionary should hold for a class name of the input:
   * the first node of that name, its methods replaced by the methods of all
   * nodes of that name.
   */
  function Expected(imps: seq<ImplementationNode>, name: string): ImplementationNode
    requires name in ClassNames(imps)
  {
    imps[FirstIndex(imps, name)].(methods := MethodsFor(imps, name))
  }

  /** The body of one iteration of the loop in `merged()`. */
  function Absorb(impDic: map<string, ImplementationNode>, imp: ImplementationNode): map<string, ImplementationNode> {
    if imp.className in impDic then
      impDic[imp.className := impDic[imp.className].(methods := impDic[imp.className].methods + imp.methods)]
    else
      impDic[imp.className := imp]
  }

  /** The dictionary `merged()` builds: the loop body applied to every node in turn. */
  function Merge(imps: seq<ImplementationNode>): map<string, ImplementationNode> {
    if imps == [] then map[]
    else Absorb(Merge(imps[..|imps| - 1]), imps[|imps| - 1])
  }

  lemma {:induction false} MethodsForConcat(a: seq<ImplementationNode>, b: seq<ImplementationNode>, name: string)
    ensures MethodsFor(a + b, name) == MethodsFor(a, name) + MethodsFor(b, name)
  {
    if a == [] {
      assert a + b == b;
    } else {
      var head := if a[0].className == name then a[0].methods else [];
      assert (a + b)[0] == a[0];
      assert (a + b)[1..] == a[1..] + b;
      MethodsForConcat(a[1..], b, name);
      calc {
        MethodsFor(a + b, name);
        head + MethodsFor(a[1..] + b, name);
        head + (MethodsFor(a[1..], name) + MethodsFor(b, name));
        (head + MethodsFor(a[1..], name)) + MethodsFor(b, name);
        MethodsFor(a, name) + MethodsFor(b, name);
      }
    }
  }

  lemma {:induction false} MethodsForAbsent(imps: seq<ImplementationNode>, name: string)
    requires name !in ClassNames(imps)
    ensures MethodsFor(imps, name) == []
  {
    if imps != [] {
      assert imps[0] in imps;
      assert ClassNames(imps[1..]) <= ClassNames(imps);
      MethodsForAbsent(imps[1..], name);
    }
  }

  lemma MethodsForSingleton(x: ImplementationNode, name: string)
    ensures MethodsFor([x], name) == if x.className == name then x.methods else []
  {
  }

  lemma ClassNamesConcat(a: seq<ImplementationNode>, b: seq<ImplementationNode>)
    ensures ClassNames(a + b) == ClassNames(a) + ClassNames(b)
  {
  }

  lemma FirstIndexConcat(a: seq<ImplementationNode>, b: seq<ImplementationNode>, name: string)
    requires name in ClassNames(a) + ClassNames(b)
    ensures name in ClassNames(a + b)
    ensures name in ClassNames(a) ==> FirstIndex(a + b, name) == FirstIndex(a, name)
    ensures name !in ClassNames(a) ==> FirstIndex(a + b, name) == |a| + FirstIndex(b, name)
  {
    ClassNamesConcat(a, b);
    if name in ClassNames(a) {
      var i := FirstIndex(a, name);
      assert (a + b)[i] == a[i];
      assert forall j :: 0 <= j < i ==> (a + b)[j] == a[j];
    } else {
      var i := FirstIndex(b, name);
      assert (a + b)[|a| + i] == b[i];
      assert forall j :: 0 <= j < |a| ==> (a + b)[j] == a[j] && a[j] in a;
      assert forall j :: |a| <= j < |a| + i ==> (a + b)[j] == b[j - |a|];
    }
  }

  /** A name of the first part: its first node comes from the first part, its methods from both. */
  lemma ExpectedConcatLeft(a: seq<ImplementationNode>, b: seq<ImplementationNode>, name: string)
    requires name in ClassNames(a)
    ensures name in ClassNames(a + b)
    ensures Expected(a + b, name) == Expected(a, name).(methods := MethodsFor(a, name) + MethodsFor(b, name))
  {
    FirstIndexConcat(a, b, name);
    MethodsForConcat(a, b, name);
    assert (a + b)[FirstIndex(a, name)] == a[FirstIndex(a, name)];
  }

  /** A name only of the second part: the first part contributes nothing. */
  lemma ExpectedConcatRight(a: seq<ImplementationNode>, b: seq<ImplementationNode>, name: string)
    requires name !in ClassNames(a) && name in ClassNames(b)
    ensures name in ClassNames(a + b)
    ensures Expected(a + b, name) == Expected(b, name)
  {
    FirstIndexConcat(a, b, name);
    MethodsForConcat(a, b, name);
    MethodsForAbsent(a, name);
    assert (a + b)[|a| + FirstIndex(b, name)] == b[FirstIndex(b, name)];
  }

  lemma ClassNamesSingleton(x: ImplementationNode)
    ensures ClassNames([x]) == {x.className}
  {
  }

  /** The loop invariant of `merged()` survives one more node. */
  lemma MergeStep(s: seq<ImplementationNode>, x: ImplementationNode, name: string)
    requires Merge(s).Keys == ClassNames(s)
    requires forall n :: n in Merge(s) ==> Merge(s)[n] == Expected(s, n)
    requires name in ClassNames(s + [x])
    ensures name in Absorb(Merge(s), x)
    ensures Absorb(Merge(s), x)[name] == Expected(s + [x], name)
  {
    ClassNamesConcat(s, [x]);
    ClassNamesSingleton(x);
    MethodsForSingleton(x, name);
    var m := Merge(s);
    if name in ClassNames(s) {
      ExpectedConcatLeft(s, [x], name);
      assert m[name] == Expected(s, name);
      if name == x.className {
        assert Absorb(m, x)[name] == m[name].(methods := m[name].methods + x.methods);
      } else {
        assert Absorb(m, x)[name] == m[name];
        assert MethodsFor(s, name) + [] == MethodsFor(s, name);
      }
    } else {
      assert name == x.className && name !in m;
      ExpectedConcatRight(s, [x], name);
      assert FirstIndex([x], name) == 0;
      assert Absorb(m, x)[name] == x;
    }
  }

  /**
   * The dictionary `merged()` builds has exactly one key per class name of
   * the input, and under each key the first node of that name with the
   * methods of all nodes of that name, in input order.
   */
  lemma {:induction false} MergeSpec(imps: seq<ImplementationNode>)
    ensures Merge(imps).Keys == ClassNames(imps)
    ensures forall name :: name in Merge(imps) ==> Merge(imps)[name] == Expected(imps, name)
  {
    if imps != [] {
      var s, x := imps[..|imps| - 1], imps[|imps| - 1];
      assert imps == s + [x];
      MergeSpec(s);
      ClassNamesConcat(s, [x]);
      assert ClassNames([x]) == {x.className} by {
        assert forall imp :: imp in [x] <==> imp == x;
      }
      forall name | name in ClassNames(imps)
        ensures name in Merge(imps) && Merge(imps)[name] == Expected(imps, name)
      {
        MergeStep(s, x, name);
      }
    }
  }

  /**
   * `merged()`: the dictionary has exactly one key per class name of the
   * input; under each key sits the first node of that name, unchanged except
   * that its methods are those of all nodes of that name, in input order.
   */
  method Merged(imps: seq<ImplementationNode>) returns (impDic: map<string, ImplementationNode>)
    ensures impDic == Merge(imps)
    ensures impDic.Keys == ClassNames(imps)
    ensures forall name :: name in impDic ==>
      impDic[name] == imps[FirstIndex(imps, name)].(methods := MethodsFor(imps, name))
  {
    impDic := map[];
    for i := 0 to |imps|
      invariant impDic == Merge(imps[..i])
    {
      var imp := imps[i];
      assert imps[..i + 1][..i] == imps[..i];
      if imp.className in impDic {
        impDic := impDic[imp.className := impDic[imp.className].(methods := impDic[imp.className].methods + imp.methods)];
      } else {
        impDic := impDic[imp.className := imp];
      }
    }
    assert imps[..|imps|] == imps;
    MergeSpec(imps);
  }

  /**
   * Merging is additive: merging a concatenation has the keys of both
   * halves; a name present in both keeps the node of the first half with the
   * methods of the second half appended; a name present in one half keeps
   * that half's merged node unchanged.
   */
  lemma MergeConcat(a: seq<ImplementationNode>, b: seq<ImplementationNode>)
    ensures Merge(a + b).Keys == Merge(a).Keys + Merge(b).Keys
    ensures forall name :: name in Merge(a) && name in Merge(b) ==>
      Merge(a + b)[name] == Merge(a)[name].(methods := Merge(a)[name].methods + Merge(b)[name].methods)
    ensures forall name :: name in Merge(a) && name !in Merge(b) ==> Merge(a + b)[name] == Merge(a)[name]
    ensures forall name :: name !in Merge(a) && name in Merge(b) ==> Merge(a + b)[name] == Merge(b)[name]
  {
    MergeSpec(a);
    MergeSpec(b);
    MergeSpec(a + b);
    ClassNamesConcat(a, b);
    forall name | name in ClassNames(a)
      ensures Merge(a + b)[name] == Merge(a)[name].(methods := Merge(a)[name].methods + MethodsFor(b, name))
    {
      ExpectedConcatLeft(a, b, name);
    }
    forall name | name in ClassNames(a) && name !in ClassNames(b)
      ensures MethodsFor(b, name) == []
    {
      MethodsForAbsent(b, name);
    }
    forall name | name !in ClassNames(a) && name in ClassNames(b)
      ensures Merge(a + b)[name] == Merge(b)[name]
    {
      ExpectedConcatRight(a, b, name);
    }
  }

  lemma MethodsForContains(imps: seq<ImplementationNode>, i: nat)
    requires i < |imps|
    ensures multiset(imps[i].methods) <= multiset(MethodsFor(imps, imps[i].className))
  {
    var name := imps[i].className;
    assert imps == imps[..i] + ([imps[i]] + imps[i + 1..]);
    MethodsForConcat(imps[..i], [imps[i]] + imps[i + 1..], name);
    MethodsForConcat([imps[i]], imps[i + 1..], name);
    MethodsForSingleton(imps[i], name);
    var left, right := MethodsFor(imps[..i], name), MethodsFor(imps[i + 1..], name);
    assert multiset(MethodsFor(imps, name)) == multiset(left) + multiset(imps[i].methods) + multiset(right);
  }

  /** Nothing is dropped: every method of every input node is in the merged node of its class. */
  lemma MergeKeepsEveryMethod(imps: seq<ImplementationNode>, i: nat)
    requires i < |imps|
    ensures imps[i].className in Merge(imps)
    ensures multiset(imps[i].methods) <= multiset(Merge(imps)[imps[i].className].methods)
  {
    MergeSpec(imps);
    assert imps[i] in imps;
    MethodsForContains(imps, i);
  }

  lemma MultisetRemoveFirst(a: seq<ImplementationNode>, b: seq<ImplementationNode>, j: nat)
    requires multiset(a) == multiset(b) && |a| > 0 && j < |b| && b[j] == a[0]
    ensures multiset(a[1..]) == multiset(b[..j] + b[j + 1..])
  {
    assert a == [a[0]] + a[1..];
    assert b == b[..j] + [b[j]] + b[j + 1..];
    assert multiset(a[1..]) == multiset(a) - multiset{a[0]};
    assert multiset(b[..j] + b[j + 1..]) == multiset(b) - multiset{b[j]};
  }

  lemma MethodsForSplit(b: seq<ImplementationNode>, j: nat, name: string)
    requires j < |b|
    ensures MethodsFor(b, name) == MethodsFor(b[..j], name) + (MethodsFor([b[j]], name) + MethodsFor(b[j + 1..], name))
    ensures MethodsFor(b[..j] + b[j + 1..], name) == MethodsFor(b[..j], name) + MethodsFor(b[j + 1..], name)
  {
    assert b == b[..j] + ([b[j]] + b[j + 1..]);
    MethodsForConcat(b[..j], [b[j]] + b[j + 1..], name);
    MethodsForConcat([b[j]], b[j + 1..], name);
    MethodsForConcat(b[..j], b[j + 1..], name);
  }

  lemma MultisetMiddle<T>(own: seq<T>, left: seq<T>, right: seq<T>)
    ensures multiset(own + (left + right)) == multiset(left + (own + right))
  {
  }

  /** The multiset of a class's methods depends only on the multiset of input nodes. */
  lemma {:induction false} MethodsForPermutation(a: seq<ImplementationNode>, b: seq<ImplementationNode>, name: string)
    requires multiset(a) == multiset(b)
    ensures multiset(MethodsFor(a, name)) == multiset(MethodsFor(b, name))
    decreases |a|
  {
    if a == [] {
      assert |b| == |multiset(b)| == 0;
    } else {
      assert a[0] in multiset(b);
      var j :| 0 <= j < |b| && b[j] == a[0];
      var rest := b[..j] + b[j + 1..];
      MultisetRemoveFirst(a, b, j);
      MethodsForPermutation(a[1..], rest, name);
      MethodsForSplit(b, j, name);
      var own, left, right := MethodsFor([a[0]], name), MethodsFor(b[..j], name), MethodsFor(b[j + 1..], name);
      assert MethodsFor(a, name) == own + MethodsFor(a[1..], name) by {
        assert a == [a[0]] + a[1..];
        MethodsForConcat([a[0]], a[1..], name);
      }
      MultisetMiddle(own, left, right);
    }
  }

  /**
   * Permuting the input of `merged()` leaves the key set and, for every
   * key, the multiset of methods unchanged; only method order may differ.
   */
  lemma MergePermutation(a: seq<ImplementationNode>, b: seq<ImplementationNode>)
    requires multiset(a) == multiset(b)
    ensures Merge(a).Keys == Merge(b).Keys
    ensures forall name :: name in Merge(a) ==> multiset(Merge(a)[name].methods) == multiset(Merge(b)[name].methods)
  {
    MergeSpec(a);
    MergeSpec(b);
    assert forall imp :: imp in a <==> imp in b by {
      forall imp ensures imp in a <==> imp in b {
        assert imp in a <==> imp in multiset(a);
        assert imp in b <==> imp in multiset(b);
      }
    }
    assert ClassNames(a) == ClassNames(b);
    forall name | name in Merge(a)
      ensures multiset(Merge(a)[name].methods) == multiset(Merge(b)[name].methods)
    {
      MethodsForPermutation(a, b, name);
    }
  }

  /**
   * Submitting the same bodies twice (the same implementation file listed
   * twice) keeps the key set but lists every method of a class twice.
   */
  lemma MergeTwice(imps: seq<ImplementationNode>)
    ensures Merge(imps + imps).Keys == Merge(imps).Keys
    ensures forall name :: name in Merge(imps) ==>
      Merge(imps + imps)[name] == Merge(imps)[name].(methods := Merge(imps)[name].methods + Merge(imps)[name].methods)
  {
    MergeConcat(imps, imps);
  }
}

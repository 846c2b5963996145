/**
 * The `ParserRunner` itself: its three result buffers, the primary `parse`
 * entry point (collection, then reconciliation), and the per-file method map
 * of `parseMethods`.  The worker fan-out is modelled as running the workers
 * one after another in submission order; each worker's appends are atomic.
 */
module Runner {
  import opened Nodes
  import opened Classify
  import opened Merging
  import opened Dedup

  /** The per-file lexer-and-parser pipelines `parse` runs (a file path in, nodes or nil out). */
  datatype Parsers = Parsers(
    interfaceParser: string -> Option<seq<InterfaceNode>>,
    implementationParser: string -> Option<seq<ImplementationNode>>,
    swiftParser: string -> Option<(seq<ProtocolNode>, seq<ClassNode>)>)

  /** The per-file pipelines `parseMethods` chooses between, and the dialect test that chooses. */
  datatype MethodParsers = MethodParsers(
    isSwift: string -> bool,
    swiftMethodParser: string -> Option<seq<MethodNode>>,
    objcMethodParser: string -> Option<seq<MethodNode>>)

  /** What the Objective-C workers append to `interfaces`, file by file (`?? []` on nil). */
  function CollectInterfaces(files: seq<string>, p: Parsers): seq<InterfaceNode> {
    if files == [] then []
    else CollectInterfaces(files[..|files| - 1], p) + p.interfaceParser(files[|files| - 1]).GetOr([])
  }

  /** What the Objective-C workers append to `implementations`, file by file. */
  function CollectImplementations(files: seq<string>, p: Parsers): seq<ImplementationNode> {
    if files == [] then []
    else CollectImplementations(files[..|files| - 1], p) + p.implementationParser(files[|files| - 1]).GetOr([])
  }

  /** What the Swift workers append to `classList`: the classes, never the protocols. */
  function CollectSwiftClasses(files: seq<string>, p: Parsers): seq<ClassNode> {
    if files == [] then []
    else CollectSwiftClasses(files[..|files| - 1], p) + p.swiftParser(files[|files| - 1]).GetOr(([], [])).1
  }

  /** `impDic[name]`: the merged body of a class, or nil. */
  function Lookup(impDic: map<string, ImplementationNode>, name: string): Option<ImplementationNode> {
    if name in impDic then Some(impDic[name]) else None
  }

  /** The records the reconciliation loop appends: one per declaration, in declaration order. */
  function Joined(interfaces: seq<InterfaceNode>, impDic: map<string, ImplementationNode>): seq<ClassNode> {
    seq(|interfaces|, i requires 0 <= i < |interfaces| =>
      ClassNode(interfaces[i], Lookup(impDic, interfaces[i].className)))
  }

  /** What one `parseMethods` worker stores for its file: the dialect's method parser's result, or []. */
  function RunParse(file: string, p: MethodParsers): seq<MethodNode> {
    if p.isSwift(file) then p.swiftMethodParser(file).GetOr([])
    else p.objcMethodParser(file).GetOr([])
  }

  /**
   * The join keeps every declaration: record i carries declaration i, and
   * it has a body exactly when some implementation node has its class name;
   * that body is named after the class and holds all of the class's methods.
   */
  lemma JoinedRecords(interfaces: seq<InterfaceNode>, imps: seq<ImplementationNode>)
    ensures |Joined(interfaces, Merge(imps))| == |interfaces|
    ensures forall i :: 0 <= i < |interfaces| ==>
      var c := Joined(interfaces, Merge(imps))[i];
      && c.interface == interfaces[i]
      && (c.implementation.Some? <==> exists j :: 0 <= j < |imps| && imps[j].className == interfaces[i].className)
      && (c.implementation.Some? ==>
            c.implementation.value.className == interfaces[i].className &&
            c.implementation.value.methods == MethodsFor(imps, interfaces[i].className))
  {
    MergeSpec(imps);
    forall i | 0 <= i < |interfaces|
      ensures interfaces[i].className in ClassNames(imps) <==>
        exists j :: 0 <= j < |imps| && imps[j].className == interfaces[i].className
    {
      var name := interfaces[i].className;
      if name in ClassNames(imps) {
        var j := FirstIndex(imps, name);
        assert imps[j].className == name;
      } else {
        forall j | 0 <= j < |imps| ensures imps[j].className != name {
          assert imps[j] in imps;
        }
      }
    }
  }

  /** A declaration no body node names is kept, with no body. */
  lemma DeclarationWithoutBody(interfaces: seq<InterfaceNode>, imps: seq<ImplementationNode>, i: nat)
    requires i < |interfaces|
    requires forall j :: 0 <= j < |imps| ==> imps[j].className != interfaces[i].className
    ensures i < |Joined(interfaces, Merge(imps))|
    ensures Joined(interfaces, Merge(imps))[i] == ClassNode(interfaces[i], None)
  {
  }

  /**
   * A body no declaration names contributes no record: no joined record is
   * declared under that name, and none carries a body of that name.
   */
  lemma OrphanBodyDropped(interfaces: seq<InterfaceNode>, imps: seq<ImplementationNode>, name: string)
    requires forall i :: 0 <= i < |interfaces| ==> interfaces[i].className != name
    ensures forall c :: c in Joined(interfaces, Merge(imps)) ==>
      c.interface.className != name && (c.implementation.None? || c.implementation.value.className != name)
  {
    JoinedRecords(interfaces, imps);
  }

  /**
   * Under the model's structural record equality, two declarations of one
   * class with different content yield two distinct records of that class
   * name, so deduplication keeps both.
   */
  lemma SameNameDistinctRecords(name: string, a: string, b: string)
    requires a != b
    ensures var records := Joined([InterfaceNode(name, a), InterfaceNode(name, b)], map[]);
      && |records| == 2
      && NoDuplicates(records)
      && records[0].interface.className == records[1].interface.className == name
  {
  }

  class ParserRunner {
    var interfaces: seq<InterfaceNode>
    var implementations: seq<ImplementationNode>
    var classList: seq<ClassNode>

    constructor ()
      ensures interfaces == [] && implementations == [] && classList == []
    {
      interfaces, implementations, classList := [], [], [];
    }

    /**
     * The reconciliation step of `parse`: merge the bodies, append one record per
     * declaration to `classList`, and return `classList` without duplicates.
     */
    method Reconcile() returns (result: seq<ClassNode>)
      modifies this`classList
      ensures classList == old(classList) + Joined(interfaces, Merge(implementations))
      ensures NoDuplicates(result)
      ensures forall c :: c in result <==> c in classList
    {
      var impDic := Merged(implementations);
      for i := 0 to |interfaces|
        invariant classList == old(classList) + Joined(interfaces[..i], impDic)
      {
        var interface := interfaces[i];
        var cls := ClassNode(interface, Lookup(impDic, interface.className));
        assert Joined(interfaces[..i + 1], impDic) == Joined(interfaces[..i], impDic) + [cls];
        classList := classList + [cls];
      }
      assert interfaces[..|interfaces|] == interfaces;
      result := Distinct(classList);
    }

    /** The Objective-C fan-out of `parse`: every worker appends its declarations and bodies. */
    method RunObjcWorkers(ocFiles: seq<string>, p: Parsers)
      modifies this`interfaces, this`implementations
      ensures interfaces == old(interfaces) + CollectInterfaces(ocFiles, p)
      ensures implementations == old(implementations) + CollectImplementations(ocFiles, p)
    {
      for i := 0 to |ocFiles|
        invariant interfaces == old(interfaces) + CollectInterfaces(ocFiles[..i], p)
        invariant implementations == old(implementations) + CollectImplementations(ocFiles[..i], p)
      {
        var file := ocFiles[i];
        assert ocFiles[..i + 1][..i] == ocFiles[..i];
        interfaces := interfaces + p.interfaceParser(file).GetOr([]);
        implementations := implementations + p.implementationParser(file).GetOr([]);
      }
      assert ocFiles[..|ocFiles|] == ocFiles;
    }

    /** The Swift fan-out of `parse`: every worker appends its classes; its protocols are dropped. */
    method RunSwiftWorkers(swiftFiles: seq<string>, p: Parsers)
      modifies this`classList
      ensures classList == old(classList) + CollectSwiftClasses(swiftFiles, p)
    {
      for i := 0 to |swiftFiles|
        invariant classList == old(classList) + CollectSwiftClasses(swiftFiles[..i], p)
      {
        var file := swiftFiles[i];
        assert swiftFiles[..i + 1][..i] == swiftFiles[..i];
        var (_, classes) := p.swiftParser(file).GetOr(([], []));
        classList := classList + classes;
      }
      assert swiftFiles[..|swiftFiles|] == swiftFiles;
    }

    /**
     * `parse`: classify the paths, reset the buffers, run every
     * Objective-C worker and then every Swift worker, and reconcile.
     */
    method Parse(files: seq<string>, p: Parsers) returns (result: seq<ClassNode>)
      modifies this
      ensures interfaces == CollectInterfaces(ParseGroups(files).0, p)
      ensures implementations == CollectImplementations(ParseGroups(files).0, p)
      ensures classList == CollectSwiftClasses(ParseGroups(files).1, p) + Joined(interfaces, Merge(implementations))
      ensures NoDuplicates(result)
      ensures forall c :: c in result <==> c in classList
    {
      var groups := ParseGroups(files);
      interfaces, implementations, classList := [], [], [];
      RunObjcWorkers(groups.0, p);
      assert interfaces == CollectInterfaces(groups.0, p);
      assert implementations == CollectImplementations(groups.0, p);
      RunSwiftWorkers(groups.1, p);
      assert classList == CollectSwiftClasses(groups.1, p);
      result := Reconcile();
    }

    /**
     * `parseMethods`: one entry per non-header path, holding what that
     * path's method parser produced (or [] when it produced nothing).
     */
    method ParseMethods(files: seq<string>, p: MethodParsers) returns (results: map<string, seq<MethodNode>>)
      ensures results.Keys == set f | f in files && !IsHeaderPath(f)
      ensures forall f :: f in results ==> results[f] == RunParse(f, p)
    {
      var sources := MethodSources(files);
      results := map[];
      for i := 0 to |sources|
        invariant results.Keys == set f | f in sources[..i]
        invariant forall f :: f in results ==> results[f] == RunParse(f, p)
      {
        var file := sources[i];
        assert sources[..i + 1] == sources[..i] + [file];
        results := results[file := RunParse(file, p)];
      }
      assert sources[..|sources|] == sources;
    }
  }
}

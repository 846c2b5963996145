# Drafter `ParserRunner`: reconciliation of parsed class fragments

Drafter turns Objective-C and Swift source files into a class model. Its
`ParserRunner` sends every file to a lexer and parser on a worker thread.
It collects the nodes the workers produce into three buffers:

- `interfaces`: class declarations;
- `implementations`: class bodies;
- `classList`: Swift classes.

It then reconciles these buffers into one list of `ClassNode`s. This
project models the sequential part of that coordinator in Dafny:

- **Classification** (`Classify`). The suffix filters split the input
  paths. `parse` takes `.h`/`.m` against `.swift`. `parseMethods` takes
  every non-header path. `parseInerit` splits by an external `isSwift` test.
- **Merge** (`Merging`). `Array<ImplementationNode>.merged()` groups body
  nodes by class name into a dictionary. The method lists of nodes that
  share a name are concatenated. `Merged` is the loop. `Merge` is the
  dictionary it builds, written as a function. `MergeSpec` proves what
  that dictionary holds. Further lemmas prove that merging is additive and
  keeps every method. Permuting the input keeps the key set and each key's
  multiset of methods. The node kept under a key is the first of its name,
  so its other fields and its method order depend on the input order.
- **Join and dedup** (`Runner`, `Dedup`). There is one `ClassNode` per
  declaration, carrying the merged body of its class or none. These records
  are appended to `classList`, and the list is returned without duplicates.
  `ParserRunner` is a class whose three buffers are fields. `Reconcile`
  appends to `classList` in place. `Parse` runs the whole primary path.
  `ParseMethods` builds the per-file method map.

Nodes are records. The coordinator reads only a class name and, in a body,
the method list. Everything else is an opaque `content` string. A parser
is a function from a path to an optional result. A `nil` result becomes
the empty list, as in `?? []`.

Two consequences of the model are worth knowing:

- The model compares records structurally, over all their fields. Under
  that equality, deduplication does not merge records by class name, so a
  class name can still occur in more than one record of the result.
  `SameNameDistinctRecords` shows two records of one class that both
  survive deduplication. Swift's own equality for `ClassNode` is not part
  of this model (see "## Left out").
- If the whole list of implementation files is repeated, `MergeTwice`
  shows that the merged keys are unchanged but each merged body lists each
  of its methods twice. For a single file listed twice among others,
  `MergeSpec` with `MethodsForConcat` shows the general case: that
  file's methods appear in its class's merged body once per listing.

## Model

| member | source | states |
|---|---|---|
| `Classify.Filter` | Sources/Drafter/ParserRunner.swift:17-18 | its own contract only bounds the length; what the filter keeps is stated by `FilterExact` (exactly the satisfying elements, with their multiplicities) and `FilterConcat` (in input order) |
| `Classify.FilterExact` | Sources/Drafter/ParserRunner.swift:17-18 | a filter keeps exactly the elements satisfying the predicate, each as many times as in the input |
| `Classify.FilterConcat` | Sources/Drafter/ParserRunner.swift:17-18 | filtering distributes over concatenation, so kept elements stay in input order |
| `Classify.DialectsExclusive` | Sources/Drafter/ParserRunner.swift:17-18 | no path ends both in ".h"/".m" and in ".swift" |
| `Classify.ParseGroups` | Sources/Drafter/ParserRunner.swift:17-18 | `ocFiles` holds exactly the input paths ending in ".h" or ".m", `swiftFiles` exactly those ending in ".swift", and no path is in both |
| `Classify.ParseGroupsOrder` | Sources/Drafter/ParserRunner.swift:17-18 | classifying a concatenation classifies each part in order |
| `Classify.MethodSources` | Sources/Drafter/ParserRunner.swift:96 | the method-parsing sources are exactly the non-".h" paths, each as often as in the input |
| `Classify.InheritGroups` | Sources/Drafter/ParserRunner.swift:141-150 | the non-Swift and Swift groups of `parseInerit` together are a permutation of the input, split by `isSwift` |
| `Merging.Merged` | Sources/Drafter/ParserRunner.swift:179-193 | the key set is the set of input class names; under each key is the first node of that name, whose methods are those of all nodes of that name in input order |
| `Merging.MergeSpec` | Sources/Drafter/ParserRunner.swift:182-191 | the dictionary the loop builds has exactly the input's class names as keys, and under each the first node of that name carrying the methods of all nodes of that name in input order |
| `Merging.MergeStep` | Sources/Drafter/ParserRunner.swift:184-188 | one more node either extends the methods of the existing entry for its name or becomes the entry for a new name, and the characterisation above still holds |
| `Merging.MethodsForConcat` | Sources/Drafter/ParserRunner.swift:184-185 | the methods gathered for a class from a concatenation are those gathered from each part, in order |
| `Merging.MergeConcat` | Sources/Drafter/ParserRunner.swift:184-187 | merging is additive: keys are the union, a shared key keeps the first part's node with the second part's methods appended, and nothing is overwritten |
| `Merging.MergeKeepsEveryMethod` | Sources/Drafter/ParserRunner.swift:184-187 | every method of every input node is in the merged node of its class |
| `Merging.MethodsForPermutation` | Sources/Drafter/ParserRunner.swift:181-192 | the multiset of a class's methods depends only on the multiset of input nodes |
| `Merging.MergePermutation` | Sources/Drafter/ParserRunner.swift:181-192 | permuting the input keeps the key set and each key's multiset of methods |
| `Merging.MergeTwice` | Sources/Drafter/ParserRunner.swift:184-187 | merging a list with itself keeps the keys and doubles each method list |
| `Dedup.Distinct` | Sources/Drafter/ParserRunner.swift:61 | the result has no two equal elements and holds exactly the elements of the input |
| `Runner.JoinedRecords` | Sources/Drafter/ParserRunner.swift:56-58 | one record per declaration, in order; it has a body if and only if some body node has the class name; that body is named after the class and holds all its methods |
| `Runner.DeclarationWithoutBody` | Sources/Drafter/ParserRunner.swift:56-58 | a declaration that no body node names is kept with no body |
| `Runner.OrphanBodyDropped` | Sources/Drafter/ParserRunner.swift:56-59 | a body whose class has no declaration appears in no joined record |
| `Runner.SameNameDistinctRecords` | Sources/Drafter/ParserRunner.swift:56-61 | under structural record equality, two declarations of one class with different content give two distinct records of the same name |
| `Runner.ParserRunner.constructor` | Sources/Drafter/ParserRunner.swift:64-67 | a new runner starts with three empty buffers |
| `Runner.ParserRunner.RunObjcWorkers` | Sources/Drafter/ParserRunner.swift:25-37 | `interfaces` and `implementations` gain, file by file, what the declaration and body parsers returned, with nil read as empty |
| `Runner.ParserRunner.RunSwiftWorkers` | Sources/Drafter/ParserRunner.swift:40-50 | `classList` gains, file by file, the classes the Swift parser returned; its protocols are dropped |
| `Runner.ParserRunner.Reconcile` | Sources/Drafter/ParserRunner.swift:55-61 | `classList` gains the joined records of the declarations with the merged bodies; the result has no duplicates and the same elements as `classList` |
| `Runner.ParserRunner.Parse` | Sources/Drafter/ParserRunner.swift:16-61 | the buffers are reset and then hold what the workers of each group produced, with nil read as empty; Swift protocols are discarded; the result is the reconciled `classList` without duplicates |
| `Runner.ParserRunner.ParseMethods` | Sources/Drafter/ParserRunner.swift:77-108 | one entry per non-header path, holding the Swift or Objective-C method parser's result for it, or [] when that is nil |

## Left out

- Concurrency (lines 27-49, 98-102, 117-156, 169-176) is not modelled. This covers the four-permit `DispatchSemaphore`, `DispatchQueue.global().async`, the `writeQueue.sync` lane and the drain-then-refill barrier `waitUntilFinished`. The workers run one after another in submission order.
- `Runner.ParserRunner.Parse`: fixes one completion order, the submission order, because the real order is not determined. For any other order of body nodes, `MergePermutation` proves only that the merged key set and each class's multiset of methods are unchanged. The node kept for a class, with its other fields, and the order of its methods depend on the completion order.
- The source's workers append to the shared arrays `interfaces`, `implementations` (lines 33-34) and `classList` (line 47) without synchronisation, which is a data race. The model assumes that race away: each worker's appends happen atomically.
- The unsynchronised write `results[file] = runParse(file)` (line 100) is a data race too. `ParseMethods` models it as a sequential map update.
- The lexer and parsers are not part of this model: `SourceLexer`, `InterfaceParser`, `ImplementationParser`, `SwiftParser`, `SwiftMethodParser`, `ObjcMethodParser` and `toClassNode`. They are function parameters from a path to an optional result.
- `String.isSwift` is not part of this model. It is a predicate parameter of `ParseMethods` and `InheritGroups`.
- `parseInerit` is modelled only through its two filters (`InheritGroups`). Its aggregation through `classes.merge` (lines 125, 136) is not part of this model, and neither is its protocol list.
- `Dedup.Distinct`: the library `distinct` is not part of this model. Only its observable contract is stated: no duplicates and the same element set. Which occurrence is kept, and in what order, is not stated.
- Record equality is structural over the modelled fields. Swift's own `Equatable`/`Hashable` conformance for `ClassNode`, which `distinct` uses, and the `ClassNode(interface:implementation:)` initializer are not part of this model.
- `Runner.SameNameDistinctRecords`: its conclusion holds for the structural record equality the model chooses. If `ClassNode`'s real equality were keyed on the class name alone, `distinct` would keep one record per name and this lemma would not describe the program.
- Nodes are values. If the Swift node types are classes, `merged()` appends to the first input node object itself. That aliasing is not modelled.
- `Classify.HasSuffix` compares characters. Swift's `hasSuffix` compares grapheme clusters. They differ when the character just before the suffix joins the suffix's first character into one grapheme cluster. One example is a Prepend character such as U+0600 before ".h": Swift's `hasSuffix(".h")` is then false and `HasSuffix` is true.
- Logging (`print`) and file reading are left out. The static shared instance `runner` is left out too.

# jiewo macro-expansion engine in Dafny

This project models the engine that rewrites TypeScript syntax trees for jiewo.
Call sites written `name!(args)` or `obj.name!(args)` are expanded by registered
macros. A macro may also *hoist* statements into an enclosing scope: a function
body, a block, a module block or the source file. The model has three parts.

- **Ledger and materializer.** `MacroTransformer.hoist` fills a two-level ordered
  ledger: destination, then origin node, then statements. `processHoists` walks
  the tree bottom-up. For each live destination it resolves an anchor index for
  every origin group, sorts the groups by anchor in descending order, splices
  them in, and finally clears the ledger.
  The central theorem, `Splice.MaterializedOrder`, states the combined effect:
  - unresolved groups come first;
  - every original statement is preceded by the groups anchored at it;
  - groups that share an anchor appear with the latest registered first.
- **Expansion pass and driver.** `processMacros` transforms children before it
  classifies the node. `visitorImpl` takes the first registry entry whose name
  the call carries. The default export alternates expansion and hoisting until a
  round hands back the file it was given.
- **Classifiers and the result carrier.** These are the macro-call shape
  predicates, the destination and function-like kind tests, and `some`. They
  also include `getResultIdentifier`, which gives each function one shared
  `{ value: undefined, error: undefined }` carrier and hoists it to the file
  once.

Modelling choices:

- **Nodes.** A syntax node is the datatype `Syntax.Node`. Its `orig` field stands
  for `ts.getOriginalNode`. An `Origin` is a node together with its parent chain
  in the parsed tree.
- **Maps.** A JavaScript `Map` is `OrderedMaps.OrderedMap`, a sequence of pairs.
  Keys keep their first-insertion order, and lookups use the first entry with
  the key.
- **Macros.** A macro is opaque. It is a function from the call node to its
  output and the list of `hoist` calls it makes, in order.
  `Expansion.Visit` returns those calls, and `Transformer.MacroTransformer.ProcessMacros`
  replays them into the ledger in the same order.
- **State.** `MacroTransformer` and the result cache are classes whose methods
  update their fields. The loops of the source are `while` loops with
  invariants. Each method is proved against a function that specifies it.

A call with the macro shape whose name no registry entry carries is deleted:
`visitorImpl` returns `undefined` for it and `visit` returns nothing
(`Expansion.UnregisteredCallRemoved`). The hoists made while visiting its
arguments are kept (`Expansion.NestedHoistsSurviveRemoval`).

## Model

| member | source | states |
|---|---|---|
| Some.FilterSome | plugin/utilities/some.ts:2 | `filter(some)` keeps only present values, each of them, and never grows the list |
| Some.SomeAcceptsEveryValue | plugin/utilities/some.ts:2 | `some` is false exactly for null and undefined and true for every other value |
| Some.FilterSomeAppend | plugin/macro/transformer.ts:37 | filtering distributes over concatenation, so kept values keep their relative order |
| Some.FilterSomeKeepsValues | plugin/macro/transformer.ts:37 | a list with nothing missing passes the filter unchanged |
| Some.FilterSomeDropsOnlyMissing | plugin/utilities/some.ts:2 | the filter removes exactly as many entries as are null or undefined |
| Seqs.IndexOf | plugin/macro/transformer.ts:98-109 | `indexOf` finds the first occurrence and finds nothing exactly when the element is absent |
| Queries.StylesExclusive | plugin/queries/isMacroCall.ts:16-33 | no call is both a function-style and a method-style macro call |
| Queries.MatchByName | plugin/queries/isMacroCall.ts:16-39 | a call matches a given name iff it has the macro shape and is written with that name |
| Queries.MissingNameMatchesAny | plugin/queries/isMacroCall.ts:22 | a null name and an undefined name both mean any name |
| Queries.NameNarrows | plugin/queries/isMacroCall.ts:34-39 | matching with a name implies matching without one |
| Queries.MacroCallShapes | plugin/queries/isMacroCall.ts:9-39 | `name!(…)` is a macro call named `name`; `f!!()` and `(f)!()` are not macro calls |
| Queries.OptionalCallIsNoMacroCall | plugin/queries/isMacroCall.ts:13 | a call written with `?.` is never a macro call |
| Queries.FunctionLikeIsDestination | plugin/queries/isMacroHoistableDestination.ts:12 | every function-like declaration, expression-bodied arrows included, is a destination |
| Queries.FunctionLikeKindsExactly | plugin/queries/isFunctionLikeDeclaration.ts:6-14 | a node is function-like iff its kind is one of the seven: arrow, function declaration, method, function expression, constructor, get and set accessor; blocks, source files and every other kind are not |
| Queries.DestinationKindsExactly | plugin/queries/isMacroHoistableDestination.ts:8-13 | a node is a hoisting destination iff it is a source file, a block, a module block or function-like; every other statement, class declarations and calls included, is not |
| OrderedMaps.Get | plugin/macro/transformer.ts:65 | `get` finds nothing exactly when the key is absent |
| OrderedMaps.Set | plugin/macro/transformer.ts:248-258 | `set` appends a new key at the end and keeps an existing key's place; the key maps to the new value, other keys are unchanged, and distinct keys stay distinct |
| OrderedMaps.SetTwice | plugin/macro/transformer.ts:248-258 | setting a key twice equals setting it once to the later value, so get-or-create followed by an update is a single `set` |
| Ledger.Push | plugin/macro/transformer.ts:244-262 | the statement is appended to its (destination, origin) list; a new destination or origin goes last; no other destination or origin changes; distinct keys are preserved |
| Ledger.RecordPending | plugin/macro/transformer.ts:244-262 | after a log of hoists, each (destination, origin) pair holds exactly its own statements in call order |
| Ledger.RecordDestinations | plugin/macro/transformer.ts:248-252 | a destination is in the ledger iff some hoist named it |
| Transformer.MacroTransformer.constructor | plugin/macro/transformer.ts:227-236 | a transformer starts with the registry and file it was given and an empty ledger |
| Transformer.MacroTransformer.Hoist | plugin/macro/transformer.ts:237-262 | the imperative get-or-create and push leaves the ledger as `Ledger.Push` of the old ledger |
| Transformer.MacroTransformer.HoistAll | plugin/macro/transformer.ts:237-262 | a macro's hoist calls, in order, record its log onto the ledger |
| Splice.InsertDesc | plugin/macro/transformer.ts:114 | inserting into a descending list keeps it descending and a permutation |
| Splice.SortDesc | plugin/macro/transformer.ts:114 | the sort yields a list that is descending by anchor (unresolved as -1) and a permutation of its input |
| Splice.SortKeepsKeyOrder | plugin/macro/transformer.ts:114 | the sort is stable: groups with equal anchors keep their registration order |
| Splice.MaterializedOrder | plugin/macro/transformer.ts:114-216 | sorting descending and splicing each group at its anchor (unresolved at 0) gives: unresolved groups first, then each statement preceded by its anchored groups, latest registered first, each group contiguous and in its own order |
| Splice.SharedAnchorOrder | lib/core/result/err.test.ts:32-44 | with one group anchored at `foo` and two at `bar`, the later group for `bar` lands ahead of the earlier one, as in the snapshot |
| Hoists.FirstDestinationFrom | plugin/macro/transformer.ts:70-86 | finds the nearest ancestor whose original is the destination, or reports that none exists |
| Hoists.LastStatementBelow | plugin/macro/transformer.ts:74 | the statement remembered last on the walk is the outermost statement below the destination |
| Hoists.AnchorNamesOutermostStatement | plugin/macro/transformer.ts:70-112 | a resolved anchor indexes, in the ancestor's statement list, the outermost statement between origin and destination |
| Hoists.UnresolvedCases | plugin/macro/transformer.ts:87-93 | no matching ancestor, or no statement on the way, leaves the group unresolved |
| Hoists.ResolveAnchor | plugin/macro/transformer.ts:70-112 | the `for (;;)` walk up the parents computes `Hoists.AnchorOf` |
| Hoists.GroupsOf | plugin/macro/transformer.ts:68-113 | one group per origin, in entry order, each with its anchor and its statements |
| Hoists.IndexGroups | plugin/macro/transformer.ts:68-113 | the `.map` over the entries builds exactly `Hoists.GroupsOf` |
| Hoists.SpliceGroups | plugin/macro/transformer.ts:116-216 | the `for…of` loop that reassigns `destination` equals applying the groups in order |
| Hoists.MaterializeDestination | plugin/macro/transformer.ts:68-218 | resolve, sort and splice for one destination |
| Hoists.HoistTreeEmpty | plugin/macro/transformer.ts:52 | with an empty ledger the walk changes nothing, which is why returning the input early is sound |
| Hoists.VisitHoists | plugin/macro/transformer.ts:54-219 | the bottom-up walk materializes every live destination that has pending groups |
| Hoists.ApplyAllList | plugin/macro/transformer.ts:173-214 | a source file, module block or block takes every group into its own statement list |
| Hoists.ApplyAllBody | plugin/macro/transformer.ts:146-170 | a function-like destination with a block body takes every group into the body's statements |
| Hoists.ApplyAllNoBody | plugin/macro/transformer.ts:118 | a function-like destination without a body is skipped by every pass |
| Hoists.MaterializeList | plugin/macro/transformer.ts:114-214 | the ordering theorem for a statement-list destination |
| Hoists.MaterializeBody | plugin/macro/transformer.ts:114-170 | the ordering theorem for a function body |
| Hoists.MaterializeExpressionArrow | plugin/macro/transformer.ts:120-145 | an expression-bodied arrow becomes a block holding the groups in their intended order, then `return <expression>` |
| Expansion.ExportedNamesDistinct | plugin/macro/macros.ts:3-13 | the ten exported macro names are distinct |
| Expansion.FirstMacro | plugin/macro/transformer.ts:271-281 | the first entry whose name the call carries; no entry before it matches; none found means no entry matches |
| Expansion.VisitorImpl | plugin/macro/transformer.ts:271-281 | the first-match `for` loop returns that entry's expansion, or nothing |
| Expansion.RegisteredMacroRuns | plugin/macro/transformer.ts:271-281 | with the exported registry, `name!(…)` runs the macro exported as `name` |
| Expansion.UnknownNameNotDispatched | plugin/macro/transformer.ts:271-281 | a call whose name no entry carries gets no expansion |
| Expansion.VisitMacroFree | plugin/macro/transformer.ts:26-42 | a tree with no macro call comes back unchanged and hoists nothing, at any fuel |
| Expansion.UnregisteredCallRemoved | plugin/macro/transformer.ts:29-33 | once its children are visited, a macro-shaped call whose name no entry carries is deleted, and the hoists made inside its arguments are kept |
| Expansion.NestedHoistsSurviveRemoval | plugin/macro/transformer.ts:29-33 | `unknown!(arg)`, where visiting `arg` hoists something, as a registered call does: the outer call is deleted, and the argument's hoists survive |
| Expansion.RegisteredCallExpanded | plugin/macro/transformer.ts:31-41 | a registered call becomes the single node its macro returns, which is not visited again, after the macro's hoists |
| Expansion.RegisteredCallArray | plugin/macro/transformer.ts:34-38 | an empty array is passed up as it is; a non-empty array of macro-free nodes comes back whole and in order |
| Expansion.VisitPlainItems | plugin/macro/transformer.ts:37 | `flatMap(visit).filter(some)` over macro-free items returns the items |
| Expansion.SpreadThenFilter | plugin/macro/transformer.ts:37 | spreading one visit result into `flatMap` and then dropping missing entries gives exactly the nodes a list slot takes from it: none for a deleted node, the node itself, or an array's items |
| Expansion.ItemsAsList | plugin/macro/transformer.ts:37 | `flatMap(visit).filter(some)` over any array visits its items as `visitEachChild` visits a child list: the same nodes in the same order, the same hoists, and the same failures |
| Expansion.DispatchedCall | plugin/macro/transformer.ts:29-41 | after its children are visited, a dispatched call is replaced by the macro's output, and the hoists come in order: first its arguments', then the macro's; a non-empty returned array is visited again, with one unit of fuel less, exactly as a child list would be, nested macro calls included |
| Expansion.KindKept | plugin/macro/transformer.ts:29-41 | a node that is not a call keeps its kind and stays one node |
| Transformer.MacroTransformer.ProcessMacros | plugin/macro/transformer.ts:19-46 | the visit's result, with its hoists recorded in the ledger in order |
| Transformer.MacroTransformer.ProcessHoists | plugin/macro/transformer.ts:48-224 | returns the materialized tree for the current ledger and always leaves the ledger empty |
| Transformer.MacroTransformer.ProcessRound | plugin/macro/transformer.ts:289-292 | one expansion pass followed by one hoisting pass yields `Transformer.Round` of the file, given as any function that agrees with `Round` on every file; a finished round leaves the ledger empty |
| Transformer.MacroTransformer.Transform | plugin/macro/transformer.ts:284-300 | the `while (!complete)` loop computes `Transformer.Drive` over that round function: it stops at the first file a round hands back unchanged, aborts when a round yields no file, and otherwise reports the file reached after the bound |
| Transformer.ExpandedIsFixedPoint | plugin/macro/transformer.ts:294 | the loop stops only at a file that one more round hands back unchanged |
| Transformer.MoreRoundsAgree | plugin/macro/transformer.ts:287-297 | once the loop has stopped, allowing more rounds changes nothing |
| Transformer.MacroFreeFileExpanded | plugin/macro/transformer.ts:287-297 | a file without macro calls is its own fixed point after one round |
| Transformer.RootStaysOneNode | plugin/macro/transformer.ts:290 | expanding a source file yields one source file whenever the visit finishes |
| ResultCarrier.ClosestFunction | lib/core/result/result.ts:14-19 | the nearest function-like node on the path, the node itself tested first |
| ResultCarrier.FindClosestFunction | lib/core/result/result.ts:14-19 | the `do…while` walk over the parents computes `ResultCarrier.ClosestFunction` |
| ResultCarrier.BaseNameShape | lib/core/result/result.ts:24-26 | the base name is `<name>__result` for a named function and `result` otherwise |
| ResultCarrier.BaseNameInjective | lib/core/result/result.ts:24-26 | named functions share a base name only when they share their name |
| ResultCarrier.CarrierShape | lib/core/result/result.ts:27-51 | the carrier is one `const` binding of the identifier to `{ value: undefined, error: undefined }`, in that property order |
| ResultCarrier.ResultCache.constructor | lib/core/result/result.ts:5-8 | the cache starts empty, which satisfies the cache invariant `Valid` |
| ResultCarrier.ResultCache.GetResultIdentifier | lib/core/result/result.ts:10-59 | no enclosing function gives no identifier and changes nothing; a cache hit returns the cached identifier and hoists nothing; a miss creates an identifier that differs from every cached one, hoists one carrier to the file attributed to the node, and caches it; the invariant `Valid` holds throughout: every cached identifier comes from a serial already handed out, and no two functions share one |
| ResultCarrier.FreshIdentifierIsNew | lib/core/result/result.ts:22-26 | the name built from the next serial is new to the cache, and caching it for a function not yet cached keeps the cache injective and below the next serial |
| ResultCarrier.ResultCache.SameFunctionSharesCarrier | lib/core/result/result.ts:22-58 | two calls in one function get the same identifier, at most one carrier is hoisted, and the cache stays `Valid` |

## Left out

- TypeScript compiler machinery is not modelled. This covers `ts.visitEachChild`, the `f.update*` and `f.create*` factory calls, `getText()` and the printer. Factory updates are functional updates of `Syntax.Node`.
- Node identity is value equality here. Two nodes with the same content are the same node, whereas the source compares references. In particular, `Transformer.Drive` stops when a round returns a file equal to its input, while the source stops only when the very same object comes back.
- Every child slot is treated as one list, and a node's `body` as the only single-node slot. The host compiler's per-slot node tests are left out. The assertion that a single-node slot received several nodes is the `Crashed` outcome.
- The macros themselves are not modelled; each is an opaque function from the call node to its output and its hoists. Their name mangling (`createUniqueName` numbering such as `foo__result_1`) is also out. `createUniqueName` is modelled only as a serial that keeps generated names apart.
- Each macro is a pure function of the call node, so a macro cannot read state such as the result cache. `ResultCarrier.ResultCache` models that state separately.
- Termination of the driver loop is not proved; the source does not guarantee it. `Transformer.Drive` takes a bound on rounds, and `Expansion.Visit` takes fuel that bounds re-visits of returned arrays. Running out gives `Unfinished` or `OutOfFuel`.
- Null or undefined items inside an array a macro returns are not modelled. The source would hand them to `visit`, which fails on them.
- Splice.MaterializedOrder: holds only when every anchor lies within the live list. Anchors are looked up in the parsed ancestor's statement list, as the source does, while splicing goes into the live list. The source clamps a larger anchor, and the lemma does not describe that case.
- Hoists.MaterializeList: holds only when every anchor lies within the live statement list, as for `Splice.MaterializedOrder`. The source clamps a larger anchor, and the ordering theorem does not describe that case.
- Hoists.MaterializeBody: holds only when every anchor lies within the live body's statement list, as for `Splice.MaterializedOrder`. The source clamps a larger anchor, and the ordering theorem does not describe that case.
- Hoists.MaterializeExpressionArrow: assumes every anchor is at most 0. This covers the case where the arrow had no block body when it was parsed.
- The `WeakMap` of the result cache is a plain map, and garbage collection is out of scope. The cache is module-wide, so `ResultCarrier.ResultCache` is a separate object from `Transformer.MacroTransformer` and outlives any one file.
- The ledger is keyed by the destination's original identity. Macros hoist into parsed nodes, whose original is themselves. Every node the factory builds shares the one identity `Synthesized`, including the block and return statement `Hoists.BlockOf` and `Hoists.ReturnOf` build. So a ledger key `Synthesized` would stand for every synthesized destination at once, where the source would key one particular object.
- Transformer.MacroTransformer.ProcessMacros: records a macro's hoists after the visit has finished, in the order the macros made them. The source records each hoist at the moment it is made. Nothing reads the ledger in between, so the ledger ends up the same.
- Types (`.d.ts` files), the test suite and the build configuration carry no runtime behaviour and are not part of this model.

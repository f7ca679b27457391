# ComputeGraph: incremental recalculation over a dependency graph

This project models the core of `attributive`, a TypeScript library. Its
`ComputeGraph` keeps numeric vertices in a directed graph and recalculates
them when their inputs change. There are three kinds of vertex:

- A scalar vertex holds a value.
- A compute vertex holds an operation key from the registry in
  `src/operations.ts`, such as `SUM`, `DIF`, `CLAMP` or `AVG`. Its value is
  that operation applied to its inputs' values, taken in in-neighbour
  order.
- A validator vertex is treated like a scalar.

Each vertex carries a `dirty` flag. The mutators (`setValues`, `addNode`,
`addEdge`, ...) work in the same way:

1. They change the store.
2. They mark the touched vertex and everything reachable from it as dirty
   (`setDescendantsDirty`, which walks the graph with `recurseNeighbors`).
3. They run `update`. This drains a queue of dirty vertices. A vertex
   whose inputs are still dirty goes to the back of the queue. The queue
   stops after 22 turns, even when work is left.

Two copies of the class are modelled:

- `src/cgraph.ts` marks after every structural change.
- `src/graph.ts` is the older copy. Its `addEdge` and `addEdges` only
  link.

Both copies share one engine. Its rows below cite `src/cgraph.ts`. The same members of `src/graph.ts` (lines 66-211) behave the same way.

The model is layered as follows:

| module | file | what it holds |
|---|---|---|
| `Wrappers` | `wrappers.dfy` | `Option`, used for `undefined` and NaN. |
| `Operations` | `operations.dfy` | The operation registry. Each operation is a function over `real`. SUM, DIF, PRD and QUO are proved against right-recursive reference definitions (`Total`, `Prod`). The others are stated by property contracts: MIN and MAX are an element that bounds the rest, the clamps and rounders are bounds and idempotence. |
| `Store` | `store.dfy` | The graph, the `_values` mirror, and the well-formedness invariant (`Valid`). It also holds the dirty list, value writes, edge and vertex insertion, and `MarkFrom`: the effect of `setDescendantsDirty`, defined through reachability. |
| `Traversal` | `traversal.dfy` | The walk of `recurseNeighbors`, with paths and reachability. A ghost ranking in which edges descend gives the walk its termination measure: the number of paths from the start vertex. |
| `Scheduler` | `scheduler.dfy` | `updateNode` (`Resolve`) and `update` (`Drain`/`Update`). It also holds the consistency invariant: every clean vertex is *resolved*, which means its inputs are clean and its value is what those inputs give. |
| `Mutations` | `mutations.dfy` | The specification functions of the mutators. |
| `Engine` | `engine.dfy` | The class holding the mutable state. Each of its methods is proved to equal a specification function of the old state. |
| `Consistency` | `consistency.dfy` | Proofs that each `src/cgraph.ts` mutator keeps the consistency invariant. It also shows a counterexample where the `src/graph.ts` `addEdge` breaks it. |
| `CGraph` | `cgraph.dfy` | The mutators of `src/cgraph.ts`. |
| `LegacyGraph` | `graph.dfy` | The mutators of `src/graph.ts`. |
| `Example` | `example.dfy` | The four-vertex graph of `tests/cgraph.test.ts`, resolved by `update` step by step. |

A JavaScript number is a `real`. A non-finite or missing result is `None`:
NaN, plus or minus `Infinity`, and `undefined`. A call that throws is the
`Throws` outcome. Every `try`/`catch` in the source that swallows an error
is modelled as "nothing changes after the throw".

## Model

| member | source | states |
|---|---|---|
| Operations.Lookup | src/operations.ts:130-151 | A key finds a function exactly when it is a registered key, and it finds that key's function. |
| Operations.RegistryKeys | src/operations.ts:130-146 | Exactly the thirteen keys SUM, DIF, PRD, QUO, MIN, MAX, CLAMP_MIN, CLAMP_MAX, CLAMP, FLOOR, CEIL, ROUND and AVG are registered. |
| Operations.SumOf | src/operations.ts:20-22 | SUM fails exactly on the empty array, and one element passes through. |
| Operations.DifferenceOf | src/operations.ts:28-30 | DIF fails exactly on the empty array, and one element passes through. |
| Operations.ProductOf | src/operations.ts:36-38 | PRD fails exactly on the empty array, and one element passes through. |
| Operations.Least | src/operations.ts:54-56 | `Math.min` of numbers is undefined exactly for no arguments. Otherwise it is one of them and no argument is smaller. |
| Operations.Greatest | src/operations.ts:62-64 | `Math.max` of numbers is undefined exactly for no arguments. Otherwise it is one of them and no argument is larger. |
| Operations.Reduce | src/operations.ts:20-22 | A seedless `reduce` fails exactly on the empty array. A one-element array passes its element through. |
| Operations.FoldSum | src/operations.ts:20-22 | A left fold of `+` from an accumulator equals the accumulator plus the right-recursive total. |
| Operations.SumIsTotal | src/operations.ts:20-22 | SUM of a non-empty array is the total of its elements. On an empty array it fails. |
| Operations.FoldDifference | src/operations.ts:28-30 | A left fold of `-` equals the accumulator minus the total of the rest. |
| Operations.DifferenceIsHeadMinusRest | src/operations.ts:28-30 | DIF is the first element minus the total of the others. |
| Operations.FoldProduct | src/operations.ts:36-38 | A left fold of `*` equals the accumulator times the product of the rest. |
| Operations.ProductIsProd | src/operations.ts:36-38 | PRD of a non-empty array is the product of its elements. |
| Operations.ProdNonZero | src/operations.ts:44-46 | A product of non-zero divisors is non-zero. |
| Operations.FoldQuotient | src/operations.ts:44-46 | Dividing by each divisor in turn equals dividing once by their product. |
| Operations.QuotientOf | src/operations.ts:44-46 | QUO is finite exactly when the array is non-empty and no divisor after the first element is zero. |
| Operations.QuotientIsHeadOverRest | src/operations.ts:44-46 | QUO is the first element over the product of the others. |
| Operations.MinOf | src/operations.ts:54-56 | MIN is an element of the array and no element is smaller. |
| Operations.MaxOf | src/operations.ts:62-64 | MAX is an element of the array and no element is larger. |
| Operations.ClampMinOf | src/operations.ts:70-72 | The result is one of the two arguments and at least both. A missing bound passes the value through. A missing value gives undefined. |
| Operations.ClampMaxOf | src/operations.ts:78-80 | The result is one of the two arguments and at most both. A missing bound passes the value through. |
| Operations.ClampOf | src/operations.ts:86-88 | The result is undefined exactly when the value is. Without an upper bound, CLAMP acts as CLAMP_MIN. |
| Operations.ClampInRange | src/operations.ts:86-88 | With lo <= hi, the result lies in [lo, hi]. A value already inside is returned unchanged. |
| Operations.ClampLowerBoundWins | src/operations.ts:86-88 | A value below the lower bound gives the lower bound, whatever the upper bound is. The lower test comes first. |
| Operations.ClampIdempotent | src/operations.ts:86-88 | Clamping twice with the same bounds (lo <= hi) is clamping once. |
| Operations.FloorOf | src/operations.ts:96-98 | FLOOR is the integer at or below the value and within 1 of it. |
| Operations.CeilOf | src/operations.ts:104-106 | CEIL is the integer at or above the value and within 1 of it. |
| Operations.RoundOf | src/operations.ts:112-114 | ROUND is the integer within one half of the value, and halves round up. |
| Operations.AverageOf | src/operations.ts:122-124 | AVG is defined exactly on non-empty arrays. |
| Operations.AverageBetweenMinAndMax | src/operations.ts:122-124 | AVG lies between MIN and MAX of the same array. |
| Operations.Apply | src/operations.ts:130-151 | Calling a registered function throws exactly when it is one of the seedless folds (SUM, DIF, PRD, QUO, AVG) and the arguments are empty. |
| Operations.ApplyOnNumbers | src/operations.ts:20-64 | On defined, non-empty arguments, SUM, DIF, PRD, MIN and MAX give the total, the head minus the rest, the product, the least element and the greatest element. |
| Operations.SingleInputPassesThrough | src/operations.ts:20-38 | SUM, DIF and PRD of one input give that input. |
| Operations.UndefinedInputIsNaN | src/operations.ts:20-124 | One undefined input makes every fold and MIN/MAX give NaN. |
| Store.DirtyAmong | src/cgraph.ts:68-72 | The filter keeps exactly the dirty vertices, keeps them distinct, and keeps them in the order of the list it filters. |
| Store.DirtyNodes | src/cgraph.ts:68-72 | `getDirtyNodes` lists each dirty vertex exactly once, nothing else, in store order. |
| Store.NoDirtyNodes | src/cgraph.ts:68-72 | When no vertex is dirty, the list is empty. |
| Store.Write | src/cgraph.ts:114-117 | `setNodeValue` keeps the store valid. It sets the vertex's value attribute and `_values[n]` to the value, and changes nothing else. |
| Store.SetDirty | src/cgraph.ts:96-98 | `setNodeDirty` keeps the store valid and gives the vertex the flag it was asked for. Nothing else changes. |
| Store.Link | src/cgraph.ts:346 | A new edge appends the target to the source's out-list and the source to the target's in-list. A refused edge (a missing end, or an existing edge) changes nothing. |
| Store.LinkValid | src/cgraph.ts:346 | Linking keeps the store valid, including the mirrored in/out lists. |
| Store.AddVertex | src/cgraph.ts:293 | A new id becomes a dirty vertex at the end of the node order, with no edges. A taken id changes nothing. |
| Store.AddVertexValid | src/cgraph.ts:293 | Adding a vertex keeps the store valid. |
| Store.MarkFrom | src/cgraph.ts:79-81 | Marking the descendants keeps the store valid. |
| Traversal.WalkHoldsReachable | src/cgraph.ts:193-221 | The queue that `recurseNeighbors` returns holds exactly the vertices reachable from the start. |
| Traversal.ClosedHoldsReachable | src/cgraph.ts:205-209 | A queue closed under neighbours holds everything reachable from its members. |
| Traversal.SumPathsStep | src/cgraph.ts:205-207 | Each call consumes one path and adds the neighbours' paths. This is the measure that makes the recursion end on an acyclic reachable part. |
| Scheduler.Inputs | src/cgraph.ts:156 | The in-neighbours of a vertex are vertices of the graph. |
| Scheduler.AnyDirty | src/cgraph.ts:157 | True exactly when some input is dirty. No inputs are never dirty. |
| Scheduler.Evaluate | src/cgraph.ts:161-166 | The call throws exactly when the key is unregistered, or when it is a seedless fold (SUM, DIF, PRD, QUO, AVG) and there are no inputs. |
| Scheduler.Assign | src/cgraph.ts:167-168 | The vertex takes the value and is clean, `_values[n]` is the value, and nothing else changes. |
| Scheduler.Clean | src/cgraph.ts:177 | Only the vertex's flag is cleared. |
| Scheduler.InputValues | src/cgraph.ts:162-165 | The operation's arguments are the inputs' values, in in-neighbour order, with undefined where an input has no value. |
| Scheduler.Resolve | src/cgraph.ts:153-183 | A successful `updateNode` is made only on a known vertex. It changes only that vertex's value and flag, cleans it, and writes `_values` exactly when it writes a value. |
| Scheduler.ComputeDefers | src/cgraph.ts:159-168 | A compute vertex fails to update exactly when an input is dirty or the call throws. An unregistered key, or SUM without inputs, never updates. |
| Scheduler.ComputeWrites | src/cgraph.ts:159-168 | With clean inputs and a call that returns, a compute vertex takes the result in the store and in `_values`, and is clean. |
| Scheduler.PassThrough | src/cgraph.ts:169-177 | A non-compute vertex with inputs defers exactly when any input is dirty, and otherwise copies the first input's value. Without inputs, it only becomes clean. |
| Scheduler.AssignSteps | src/cgraph.ts:167-177 | `setNodeValue` followed by clearing the flag is the single combined assignment. |
| Scheduler.Step | src/cgraph.ts:129-136 | One turn shifts the front vertex. A success gives the resolved store and the rest of the queue. A failure gives the same store and the rest of the queue with the vertex at the back. |
| Scheduler.Drain | src/cgraph.ts:126-146 | An empty queue changes nothing. Otherwise at least one vertex is shifted, and work is left only when the turn limit was reached. |
| Scheduler.DrainUnfold | src/cgraph.ts:129-141 | One turn, then a stop when the queue is empty or the iteration is past 20, otherwise the next call. |
| Scheduler.DrainBudget | src/cgraph.ts:139-141 | A call at iteration i shifts at most 22 - i vertices. |
| Scheduler.DrainShrinks | src/cgraph.ts:129-141 | The queue never grows, and it shrinks by at most the number of turns. |
| Scheduler.Update | src/cgraph.ts:126-146 | `update()` keeps the store valid and shifts at most 22 vertices. It leaves work only after all 22 turns. With no dirty vertex it changes nothing. |
| Scheduler.ResolveMakesResolved | src/cgraph.ts:153-183 | A vertex that updates is resolved afterwards. |
| Scheduler.ResolveKeepsConsistent | src/cgraph.ts:153-183 | An update of a dirty vertex keeps every clean vertex resolved. |
| Scheduler.StepKeepsQueue | src/cgraph.ts:129-141 | One turn keeps the queue equal to the dirty set, settles only what it writes, and keeps consistency. |
| Scheduler.DrainKeepsQueue | src/cgraph.ts:126-146 | The recursion keeps the queue equal to the dirty set, changes only vertices that were dirty, and keeps consistency. It shifts at most 22 - iteration vertices. |
| Scheduler.UpdateKeepsQueue | src/cgraph.ts:126-146 | `update()` leaves exactly the dirty vertices queued. It keeps consistency and shifts at most 22 vertices. |
| Scheduler.UpdateConverged | src/cgraph.ts:139-141 | When update empties its queue, no vertex is dirty. From a consistent store, every vertex is then resolved. |
| Scheduler.BudgetLeavesWork | src/cgraph.ts:139-141 | With more than 22 dirty vertices, one update always leaves dirty vertices behind. |
| Scheduler.UpdateWhenClean | src/cgraph.ts:129-141 | With no dirty vertex, update changes nothing. |
| Scheduler.SettledTrans | src/cgraph.ts:126-146 | The updates of successive turns compose. |
| Mutations.Refresh | src/cgraph.ts:306 | The optional update at the end of a mutator keeps the store valid and changes only the attributes. |
| Mutations.MarkedLink | src/cgraph.ts:343-359 | `addEdge` before its update keeps the store valid. |
| Mutations.MarkedLinks | src/cgraph.ts:366-379 | `addEdges` before its update keeps the store valid. |
| Mutations.Links | src/graph.ts:281-289 | The older `addEdges` keeps the node order, the attributes and the vertex set. |
| Mutations.LinksValid | src/graph.ts:281-289 | The older `addEdges` keeps the store valid. |
| Mutations.NodeEdges | src/cgraph.ts:297-299 | The edges of a configuration are the sources-to-id edges, then the id-to-targets edges, in order. Every one touches the id. |
| Mutations.SourceEdges | src/graph.ts:231-235 | The sources-to-id edges, in order. |
| Mutations.TargetEdges | src/graph.ts:237-241 | The id-to-targets edges, in order. |
| Mutations.LinksAppend | src/graph.ts:231-241 | Linking two edge lists one after the other is linking their concatenation. |
| Mutations.Created | src/cgraph.ts:293-294 | The new vertex is dirty, at the end of the order, with no edges, and holds the configured value. `_values` gains the id exactly when a value is given, and nothing else changes. |
| Mutations.LinksAcyclic | src/graph.ts:281-289 | Linking edges that descend in a ranking keeps the graph acyclic under that ranking. |
| Mutations.NewNode | src/cgraph.ts:279-313 | `addNode` before its update keeps the store valid. |
| Mutations.LegacyNewNode | src/graph.ts:213-254 | The older `addNode` before its update keeps the store valid. |
| Mutations.NewNodes | src/cgraph.ts:320-335 | `addNodes` keeps the store valid. |
| Mutations.LegacyNewNodes | src/graph.ts:256-271 | The older `addNodes` keeps the store valid. |
| Mutations.Assigned | src/cgraph.ts:244-257 | `setValues` before its update changes only attributes and keeps the store valid. |
| Mutations.AssignedStep | src/cgraph.ts:246-249 | One more key (`setNodeValue`, then `setDescendantsDirty`) extends the assignment by that key, in any order of keys. |
| Mutations.TouchedStep | src/cgraph.ts:246-249 | After one more key, a vertex is touched exactly when it was touched before or the new key reaches it. |
| Mutations.AssignedNothing | src/cgraph.ts:244-257 | `setValues` of no keys changes nothing before the update. |
| Engine.MarkedIsMarkFrom | src/cgraph.ts:79-81 | Calling `setNodeDirty` on every entry of the walk is marking exactly the vertices reachable from the start. |
| Engine.MarkFromUnknown | src/cgraph.ts:79-81 | Marking from an unknown vertex changes nothing. |
| Engine.DirectionClosed | src/cgraph.ts:202-204 | Both neighbour directions only lead to known vertices. |
| Engine.Engine.constructor | src/cgraph.ts:59-63 | An empty graph, empty `_values`, not initialized. |
| Engine.Engine.SetNodeDirty | src/cgraph.ts:96-98 | The new store is `SetDirty` of the old one. |
| Engine.Engine.SetNodeValue | src/cgraph.ts:114-117 | The new store is `Write` of the old one. |
| Engine.Engine.UpdateNode | src/cgraph.ts:153-183 | It returns true exactly when `Resolve` succeeds, and the store is then the resolved one. On false, nothing changed. |
| Engine.Engine.Update | src/cgraph.ts:126-146 | The loop that replaces the recursion leaves the store of `Scheduler.Update`. |
| Engine.Engine.RecurseNeighbors | src/cgraph.ts:193-221 | An unknown start returns nothing and changes nothing. Otherwise it returns a walk with one entry per path from the start, calls back on each entry, and changes nothing else. |
| Engine.Engine.Recurse | src/cgraph.ts:200-216 | One recursive call: the rest of the walk from position pos, with the callbacks applied. |
| Engine.Engine.SetDescendantsDirty | src/cgraph.ts:79-81 | The new store is `MarkFrom` of the old one. It returns a result exactly for a known vertex, and that result holds exactly the reachable vertices. |
| Engine.Engine.GetDescendants | src/cgraph.ts:386-388 | The walk along out-edges, with the callback applied to each entry. |
| Engine.Engine.GetAncestors | src/cgraph.ts:395-397 | The walk along in-edges, with the callback applied to each entry. |
| Engine.Engine.Init | src/cgraph.ts:226-235 | One update, then initialized, and it returns true. |
| Engine.Engine.GetValues | src/cgraph.ts:240-242 | The copy has exactly the keys of `_values`. Each entry is the vertex's value, and every valued vertex has an entry. |
| Engine.Engine.GetValue | src/cgraph.ts:263-265 | A vertex's value, or undefined for an unknown key. |
| Engine.Engine.SetValues | src/cgraph.ts:244-257 | The new store is `Update(Assigned(old, vals))`. |
| Engine.Engine.AssignKeys | src/cgraph.ts:246-250 | Handling the keys in any order leaves `Assigned(old, vals)`. |
| Engine.Engine.AssignKey | src/cgraph.ts:247-248 | One key extends the assignment by that key. |
| Engine.Engine.SetValue | src/cgraph.ts:272-274 | `setValues` with the one key. |
| Engine.Engine.AddGraphNode | src/cgraph.ts:293 | It succeeds exactly when the id is new, and the graph becomes `AddVertex` of the old one. |
| Engine.Engine.AddDirectedEdge | src/cgraph.ts:346 | It succeeds exactly when `CanLink` holds, and the graph becomes `Link` of the old one. |
| Consistency.MarkKeepsConsistent | src/cgraph.ts:79-81 | Marking descendants keeps every clean vertex resolved. |
| Consistency.MarkRepairs | src/cgraph.ts:79-81 | After any change confined to what x reaches, marking from x restores consistency. |
| Consistency.WriteThenMarkKeepsConsistent | src/cgraph.ts:247-248 | `setNodeValue` followed by `setDescendantsDirty` keeps consistency. |
| Consistency.LinkThenMarkKeepsConsistent | src/cgraph.ts:343-359 | Linking followed by marking from the source keeps consistency. |
| Consistency.MarkedLinkKeepsConsistent | src/cgraph.ts:343-359 | `addEdge` keeps consistency. |
| Consistency.MarkedLinksKeepsConsistent | src/cgraph.ts:366-379 | `addEdges` keeps consistency. |
| Consistency.AddVertexKeepsConsistent | src/cgraph.ts:293 | A new, dirty vertex keeps consistency. |
| Consistency.WriteDirtyKeepsConsistent | src/cgraph.ts:294 | Writing the value of a dirty vertex keeps consistency. |
| Consistency.CreatedKeepsConsistent | src/cgraph.ts:293-294 | Creating the vertex with its value keeps consistency. |
| Consistency.NewNodeKeepsConsistent | src/cgraph.ts:279-313 | `addNode` keeps consistency. |
| Consistency.NewNodesKeepsConsistent | src/cgraph.ts:320-335 | `addNodes` keeps consistency. |
| Consistency.LegacyNewNodeKeepsConsistent | src/graph.ts:213-254 | The older `addNode` keeps consistency, because its final marking from the id covers every edge it added. |
| Consistency.LegacyNewNodesKeepsConsistent | src/graph.ts:256-271 | The older `addNodes` keeps consistency. |
| Consistency.LinksThenMarkKeepsConsistent | src/graph.ts:231-243 | Edges that all touch x, followed by marking from x, keep consistency. |
| Consistency.AssignedKeepsConsistent | src/cgraph.ts:244-250 | The assignment half of `setValues` keeps consistency. |
| Consistency.RefreshKeepsConsistent | src/cgraph.ts:306 | The optional update keeps consistency. |
| Consistency.TwoSourcesConsistent | src/graph.ts:273-279 | The starting store of the counterexample, two clean vertices without inputs, is consistent. |
| Consistency.UnmarkedLinkGoesStale | src/graph.ts:273-279 | The older `addEdge` can leave a clean vertex whose value disagrees with its new input, and `update` then leaves it stale. |
| CGraph.ComputeGraph.constructor | src/cgraph.ts:59-63 | An empty, uninitialized graph. |
| CGraph.ComputeGraph.AddEdge | src/cgraph.ts:343-359 | A refused edge changes nothing. Otherwise the new store is `MarkedLink`, updated when asked for and initialized. A consistent store stays consistent. |
| CGraph.ComputeGraph.AddEdges | src/cgraph.ts:366-379 | `MarkedLinks` over the edges, updated when asked for and initialized. A consistent store stays consistent. |
| CGraph.ComputeGraph.AddNode | src/cgraph.ts:279-313 | A taken id changes nothing. Otherwise the new store is `NewNode`, updated when asked for and initialized. A consistent store stays consistent. |
| CGraph.ComputeGraph.AddNodes | src/cgraph.ts:320-335 | `NewNodes` over the configurations, updated when asked for and initialized. A consistent store stays consistent. |
| LegacyGraph.ComputeGraph.constructor | src/graph.ts:60-64 | An empty, uninitialized graph. |
| LegacyGraph.ComputeGraph.AddEdge | src/graph.ts:273-279 | Only the link, on any valid store. A refused edge changes nothing, and no flag changes. |
| LegacyGraph.ComputeGraph.AddEdges | src/graph.ts:281-289 | `Links` over the edges, on any valid store, and no flag changes. |
| LegacyGraph.ComputeGraph.AddNode | src/graph.ts:213-254 | A taken id changes nothing. Otherwise the new store is `LegacyNewNode`, updated whenever asked for. |
| LegacyGraph.ComputeGraph.AddNodes | src/graph.ts:256-271 | `LegacyNewNodes`, updated whenever asked for. |
| Example.AllDirty | src/cgraph.ts:68-72 | When every listed vertex is dirty, the filter returns the whole list. |
| Example.EvaluateSum | src/cgraph.ts:161-166 | SUM over two inputs holding x and y returns x + y. |
| Example.PendingResolves | src/cgraph.ts:126-146 | On the test's graph with every vertex dirty, `update()` takes four turns (a, b, s, o) and ends with every vertex clean and s = o = a + b. |
| Example.InitValues | tests/cgraph.test.ts:32-43 | After `addNodes` and `init()`, `getValues()` is {a: 2, b: 5, s: 7, o: 7}. |
| Example.SetValuesValues | tests/cgraph.test.ts:45-52 | After `setValues({a: 7, b: 8})`, `getValues()` is {a: 7, b: 8, s: 15, o: 15}. |

## Left out

- Numbers are exact reals, not IEEE doubles. Rounding error, signed zero and overflow to `Infinity` are not modelled. A division by zero, and any result that would be NaN or infinite, is `None`. This changes downstream results: in JavaScript QUO([1, 0]) is `Infinity` and MIN([Infinity, 3]) is 3, while here the first is `None` and so is any MIN that takes it as an input.
- Operations.QuotientOf: a zero divisor gives `None`. JavaScript would give `Infinity` or NaN, and a later division by `Infinity` could bring the value back to 0. The model does not follow a non-finite value through the fold.
- Operations.Least: `Math.min()` of no arguments is `Infinity`. It is `None` here, like every non-finite value. `Operations.Greatest` is the same for `-Infinity`.
- The prototype keys of the `operations` object, such as `toString`, are not registry keys here. In the source, such a key finds an inherited function.
- Only the registry functions a vertex can reach are modelled. The tuple types on the clamps and rounders are not enforced at run time, and the model accepts any argument length, like the source.
- graphology is not part of this model. Its node and edge stores are modelled as an ordered key list plus in- and out-lists in insertion order. graphology lists integer-like keys first; that ordering is not modelled. Only the behaviours the class relies on are kept: a duplicate node throws, and an edge with a missing end or a duplicate edge throws.
- The `visible` attribute and `export()` are left out. Neither takes part in recalculation.
- A node configuration carries its kind and its optional value and operation with the defaults already applied. The destructuring defaults of `addNode` are therefore not modelled.
- Asynchrony is modelled as sequential execution, in program order. `setValues` starts one asynchronous marking per key and awaits them together. Each marking completes before the next key starts, and the resulting state is proved the same in any key order. In `src/graph.ts`, `addNodes` and the `addEdge` calls inside `addNode` are not awaited; they are modelled as completing in order.
- Callbacks of `getDescendants` and `getAncestors` are limited to the two the class uses: none, and `setNodeDirty`. An arbitrary callback could change the graph in ways the model does not follow.
- `console.error` logging is left out. A swallowed error is modelled as "nothing changes after the throw".
- Engine.Engine.SetValues: requires every key to be a known vertex. In the source, an unknown key writes `_values[key]` and then throws inside `setAttribute`. That throw rejects `Promise.all`, so the update is skipped. This error path is not modelled. `Engine.Engine.SetValue` inherits the same requirement.
- Engine.Engine.SetDescendantsDirty: requires a ghost ranking in which every edge descends. `recurseNeighbors` only ends when no cycle is reachable from the start; on a cycle it never terminates: each call awaits the callback before recursing, so the queue grows until memory runs out (a stack overflow would be caught by `src/cgraph.ts:217-220`). The model does not cover that case. The same ranking requirement applies to `Engine.Engine.GetDescendants`, `Engine.Engine.GetAncestors`, `Engine.Engine.RecurseNeighbors`, `Engine.Engine.SetValues`, `Engine.Engine.AssignKeys`, `Engine.Engine.AssignKey` and `Engine.Engine.SetValue`.
- CGraph.ComputeGraph.AddEdge: requires the edge to descend in the ranking whenever it would be accepted. A cycle-closing edge is therefore outside the model, because the marking that follows would not end. The same requirement applies to `CGraph.ComputeGraph.AddEdges`, `CGraph.ComputeGraph.AddNode` and `CGraph.ComputeGraph.AddNodes`. `LegacyGraph.ComputeGraph.AddNode` and `LegacyGraph.ComputeGraph.AddNodes` ask for it too, because they mark from the new id. `LegacyGraph.ComputeGraph.AddEdge` and `LegacyGraph.ComputeGraph.AddEdges` do not walk and need no ranking.
- Engine.Engine.RecurseNeighbors: the visit list keeps repeats, one entry per path, as in the source. Only its membership and length are stated. Its exact order is left to `Traversal.IsWalk`.
- `src/graph.compute.ts` and `src/utilities/index.ts` are not part of this model.
- Example.PendingResolves: the pending stores are written out, not derived through `NewNodes` and `Assigned`. The third part of the test (adding `node_scalar_c`) is not replayed.

## Findings

| source | as written | input that shows it | evidently intended | confidence | as-written member | corrected member |
|---|---|---|---|---|---|---|
| src/graph.ts:273-279 | `addEdge` links source to target but marks nothing dirty, so a clean target keeps a value that no longer matches its new input. The next `update()` leaves it stale; only a later marking that reaches it (a `setValues` or `addNode` from the source) revisits it. | Two clean scalar vertices `a` = 1 and `b` = 2, then `addEdge("a", "b")`. `b` is clean with value 2 but its first input is 1, and `update()` leaves it so. | Mark the source and everything it reaches after linking, as `src/cgraph.ts:343-359` does, so that every clean vertex stays resolved. | not executed | LegacyGraph.ComputeGraph.AddEdge, Consistency.UnmarkedLinkGoesStale | CGraph.ComputeGraph.AddEdge, Consistency.LinkThenMarkKeepsConsistent |

# dijkstra-wasm, modelled in Dafny

`dijkstra-wasm` keeps a weighted directed graph (`GraphWrapper`) and answers
single-source shortest-path queries over it. The graph is an ordered
adjacency map from each vertex to its out-neighbours and edge weights.
`add_edge` inserts or overwrites one edge and makes sure both endpoints are
vertices. `dijkstra(start)` runs Dijkstra's algorithm:

- The answer map `ans` sends each vertex it meets to either the start marker
  (`None`) or to `(predecessor, distance)`.
- The frontier `prio` is an ordered set of `(distance, vertex)` pairs.
  `pop_first` takes the least pair.
- When a vertex improves, its stale frontier pair is removed explicitly.
- At the end, `ans` is flattened into records in ascending vertex order.

The model has six modules:

- `Graphs` (`graphs.dfy`): the graph value and `WithEdge`, the edge insertion.
  It also defines routes and their weights, which the solver's contract is
  stated against.
- `Ordered` (`ordered.dfy`): the two orders the source gets from
  `BTreeMap`/`BTreeSet`.
  - A `BTreeMap` is walked in ascending key order.
  - `pop_first` takes the lexicographically least `(distance, vertex)` pair.
- `Results` (`results.dfy`): the answer map (`Entry` = `StartMarker` |
  `Reached(pred, dist)`) and its flattening into `DijkstraResult` records.
  It also holds `IsShortestPathResult`, the contract the solver meets, and
  facts that follow from that contract.
- `Solver` (`solver.dfy`): the body of `dijkstra` as imperative code.
  - `ShortestPaths` does the seeding loop and the `while let pop_first` loop.
  - `RelaxEdges` is the inner `for` loop, and `RelaxEdge` is its body.
  - The main loop invariant (`Inv`) is proved preserved step by step.
- `GraphStore` (`graphstore.dfy`): the `GraphWrapper` class. It has one
  mutable field, `graph`, and the methods `AddEdge` and `Dijkstra`.
- `Scenarios` (`scenarios.dfy`): worked graphs on which the contract fixes
  the answer completely. Vertices A, B, C, D are numbered 0, 1, 2, 3.

What `IsShortestPathResult(g, s, ans)` says:

- The keys of `ans` are exactly the start plus the vertices reachable from it.
- The start keeps its marker exactly when there is no edge `s -> s`.
- Every other entry is reached, and its distance is the weight of a lightest
  route of one or more edges.
- Each reached entry names a predecessor that has an entry, is joined to it by
  an edge, and whose own distance (0 for the start) plus that edge's weight is
  the entry's distance.
- The predecessors form a tree rooted at the start. Some ranking of the
  vertices puts every predecessor other than the start below the vertex it
  leads to. So following predecessors back from any vertex reaches the start
  (`Results.PredecessorRoute`), even across zero-weight cycles.

A self-loop on the start behaves differently from what a reader might
expect. One could expect the start to always keep its marker. In the code as
written, the seeding loop (src/lib.rs:53-56) overwrites the start's `None`
with `Some((start, w))` when there is an edge `start -> start`. After that,
the start's distance is the weight of its lightest cycle. The model follows
the code, and `Scenarios.LoopResult` pins this down on a one-edge graph.

## Model

| member | source | states |
|---|---|---|
| Graphs.WithEdge | src/lib.rs:35-43 | After inserting `from -> to` with weight `w`, both endpoints are keys and no other key is added. The edge set is the old one plus `from -> to`, which has weight `w`. Every other edge keeps its weight. |
| Graphs.WithEdgeKeepsClosed | src/lib.rs:37-38 | Inserting an edge keeps every edge target a key of the map. |
| Graphs.WithEdgeOverwrites | src/lib.rs:39-42 | Inserting the same edge twice leaves only the second weight. |
| Graphs.WithEdgeCommutes | src/lib.rs:35-43 | Inserting two different edges gives the same graph in either order. |
| GraphStore.GraphWrapper.constructor | src/lib.rs:28-32 | A new store holds the empty graph. |
| GraphStore.GraphWrapper.AddEdge | src/lib.rs:35-43 | The field becomes `WithEdge` of its old value. It keeps the store's validity: every edge target is a vertex. Validity is stated as kept rather than required, because `add_edge` accepts any state of the graph. |
| GraphStore.GraphWrapper.Dijkstra | src/lib.rs:46-88 | The returned records read back into a map that meets `IsShortestPathResult` for the stored graph. They are exactly that map's flattening, in strictly ascending vertex order. |
| Ordered.LeastPairExists | src/lib.rs:59 | A non-empty frontier has a lexicographically least pair, so `pop_first` always has something to return. |
| Ordered.LeastVertexExists | src/lib.rs:53 | A non-empty key set has a least key, which an ascending walk visits first. |
| Ordered.SortedKeys | src/lib.rs:79-80 | Walking a map's keys yields each key exactly once, in strictly ascending order. |
| Results.Records | src/lib.rs:81-87 | The record at position `i` carries the `i`-th key and that key's entry, converted as by the `map` closure. |
| Results.Flatten | src/lib.rs:79-88 | There is one record per key of `ans`. |
| Results.FlattenAscending | src/lib.rs:79-88 | Records come in strictly ascending vertex order. |
| Results.FlattenEntries | src/lib.rs:81-87 | Each record names a key of `ans` and carries that key's entry: `None` for the marker, otherwise predecessor and distance. |
| Results.FlattenComplete | src/lib.rs:79-88 | Every key of `ans` has a record. |
| Results.ReadBackRecords | src/lib.rs:81-87 | Reading back the records of a key sequence gives exactly those keys with their entries. |
| Results.FlattenRoundTrip | src/lib.rs:79-88 | Flattening loses nothing: reading the records back gives the same map. |
| Results.NoOutEdgesOnlyStart | src/lib.rs:50-59 | If the start has no out-edges, or is not a vertex at all, the only possible result is `{start: marker}`. |
| Results.NoIncomingEdgeAbsent | src/lib.rs:50-77 | A vertex other than the start that no edge enters gets no entry. |
| Results.PredecessorRoute | src/lib.rs:54-68 | Following the recorded predecessors back from any entry other than the start reaches the start, along a route whose weight is the entry's distance. |
| Results.ChainBack | src/lib.rs:54-68 | The same, by induction on the rank, from the ranking and the predecessor facts alone. |
| Results.NoPredecessorCycle | src/lib.rs:54-68 | Two vertices other than the start are never each other's predecessor. |
| Results.OnlyTargetsReached | src/lib.rs:50-77 | Every key of the result is the start or the target of some edge. |
| Results.ResultsAgree | src/lib.rs:46-77 | Two results for the same graph and start have the same keys, the same marker placement and the same distances. They can differ only among equally short predecessors. |
| Solver.RelaxEdge | src/lib.rs:62-73 | A target with no entry, or with a strictly longer one, takes the popped vertex as predecessor and the new distance. Its old frontier pair is replaced by the new one. A marker, or an entry at most as long, leaves everything unchanged. |
| Solver.RelaxOne | src/lib.rs:61-74 | Relaxing the edge to one more target extends the relaxation summary (`RelaxedOn`) by that target. |
| Solver.NothingToRelax | src/lib.rs:60 | A popped vertex that is not a key of the graph changes nothing. |
| Solver.RelaxEdges | src/lib.rs:60-76 | Every improved out-neighbour records the popped vertex and its new distance. Its frontier pair is swapped, and nothing else changes. No key is lost, the marker is never replaced, and an entry only ever changes to a strictly shorter one. New keys are out-neighbours. |
| Solver.Seed | src/lib.rs:50-57 | The start gets the marker. Then each out-neighbour of the start is recorded with the start as predecessor and the edge weight as distance, and put on the frontier at that weight. Nothing else is added. |
| Solver.SeedPopOrder | src/lib.rs:50-57 | After seeding, the start is every entry's predecessor, so the empty pop order is consistent with the predecessors. |
| Solver.SeedEstablishes | src/lib.rs:47-57 | After seeding, the loop invariant holds with nothing popped. |
| Solver.OnePairPerVertex | src/lib.rs:67-72 | The frontier holds at most one pair per vertex. |
| Solver.RouteMeetsFrontier | src/lib.rs:59-77 | Any route from the start ends at a popped vertex or at the marker, or it weighs at least some frontier distance. |
| Solver.FromExpanded | src/lib.rs:61-73 | An edge out of the start or out of a popped vertex leads to an entry that is popped, is the marker, or is bounded by a frontier distance. |
| Solver.PoppedIsFinal | src/lib.rs:59 | No route to the vertex of the pair `pop_first` takes is lighter than the popped distance. |
| Solver.PoppedIsShortest | src/lib.rs:59 | When every recorded distance is the weight of some route, as the loop invariant keeps it, the popped pair carries the weight of a lightest route to its vertex. |
| Solver.StepBasics | src/lib.rs:59-75 | Within one iteration, the popped pair is its vertex's current entry and the vertex was not yet popped. No popped vertex is updated, and popping the start updates nothing. Every update follows an edge of the popped vertex. Other entries stay as they were. |
| Solver.StepKeepsShape | src/lib.rs:59-75 | An iteration keeps the map's keys within the graph's vertices and keeps the marker on the start alone. It leaves popped entries unchanged. |
| Solver.StepKeepsFrontier | src/lib.rs:59-75 | After an iteration, the frontier still holds exactly one pair per reached, unpopped vertex, at its current distance. |
| Solver.NewFrontierAbovePopped | src/lib.rs:59-72 | After popping distance `d`, every frontier pair has distance at least `d`. Popped distances therefore never decrease. |
| Solver.StepKeepsPreds | src/lib.rs:62-68 | An iteration keeps every predecessor on the start or a popped vertex. The entry's distance stays that predecessor's distance plus the edge weight. |
| Solver.StepKeepsWitnesses | src/lib.rs:62-68 | An iteration keeps every recorded distance the weight of a real route. |
| Solver.StepKeepsFinal | src/lib.rs:59 | An iteration makes the popped distance final and keeps the earlier final distances. |
| Solver.StepKeepsExpanded | src/lib.rs:60-75 | After an iteration, every out-edge of the start and of each popped vertex has been relaxed. |
| Solver.StaysExpanded | src/lib.rs:63-73 | Relaxation only shortens entries, so an already relaxed vertex stays relaxed. |
| Solver.StepKeepsInv | src/lib.rs:59-77 | One iteration preserves the loop invariant. It shrinks the set of unpopped vertices, which is why the loop ends. |
| Solver.StepKeepsPopOrder | src/lib.rs:59-72 | When `u` is popped as number `count`, every predecessor other than the start is still popped, and popped before the vertex it leads to. This holds because an updated vertex takes `u`, which is now the last popped, and has not been popped itself. |
| Solver.StepKeepsLoop | src/lib.rs:59-77 | One iteration keeps both the loop invariant and the pop order, and shrinks the set of unpopped vertices. |
| Solver.FinalAllPopped | src/lib.rs:59 | Once the frontier is empty, every reached vertex has been popped. |
| Solver.FinalKeys | src/lib.rs:50-77 | Once the frontier is empty, the keys are exactly the start plus the reachable vertices. |
| Solver.FinalShortest | src/lib.rs:59-77 | Once the frontier is empty, every reached distance is the weight of a lightest route. |
| Solver.FinalPredecessors | src/lib.rs:62-68 | Every reached entry names a recorded predecessor joined to it by an edge, consistent with the distances. |
| Solver.FinalResult | src/lib.rs:46-77 | With the frontier empty, the invariant and the pop order imply `IsShortestPathResult`. The pop order is the ranking that makes the predecessors a tree. |
| Solver.ShortestPaths | src/lib.rs:46-77 | The map built by seeding and then popping until the frontier is empty meets `IsShortestPathResult` for the graph and start. |
| Scenarios.StartKeepsMarker | src/lib.rs:50-65 | Without an edge `s -> s`, the start keeps the marker. |
| Scenarios.EntryIs | src/lib.rs:59-77 | A route that matches a feasible potential gives a vertex's distance. The only in-edge that meets the potential gives its predecessor. |
| Scenarios.KeysWithin | src/lib.rs:50-77 | Every key of the result lies in the domain of any feasible potential, that is, any potential that is 0 at the start and that no edge undercuts. |
| Scenarios.DetourBuilt | src/lib.rs:35-43 | Three `add_edge` calls build the graph A->B (1), B->C (2), A->C (5). |
| Scenarios.DetourResult | src/lib.rs:46-77 | From A on that graph, C's entry is (B, 3) and not (A, 5). The whole result is determined. |
| Scenarios.StrandedResult | src/lib.rs:46-77 | A vertex D with an edge into A's component, but none from it, is absent from the result from A. |
| Scenarios.LoopResult | src/lib.rs:50-57 | From A with a self-loop A->A (10), the result is `{A: (A, 10)}`: the seeding loop overwrites the marker. |
| Scenarios.IsolatedStartResult | src/lib.rs:50-59 | A start with no out-edges yields only the marker, whether or not the start is a vertex. |
| Scenarios.TwoPathsResult | src/lib.rs:46-77 | On A->B (10), A->C (1), C->B (1), B's entry is (C, 2), C's is (A, 1) and A keeps the marker. |
| Scenarios.ZeroCycleResult | src/lib.rs:59-72 | On A->B (1), B->C (0), C->B (0), the result is `{A: marker, B: (A, 1), C: (B, 1)}`. C->B is as short as A->B, but B cannot take C as its predecessor, because the relaxation at line 64 skips equal distances. |

## Left out

- `wasm_bindgen` attributes, `serde` derives, `serde_wasm_bindgen::to_value`
  and the `JsValue::NULL` fallback (src/lib.rs:2-8, 13-23, 90) are host and
  serialisation plumbing. `GraphWrapper.Dijkstra` returns the record sequence
  itself.
- Weights are `nat`, not `OrderedFloat<f64>`. Negative weights, NaN,
  infinities and float rounding in `path_weight + weight` are not modelled.
  The `into_inner` conversion (src/lib.rs:85) is the identity.
- Vertex identifiers are unbounded `nat` instead of `u32`. No arithmetic is
  done on them, so nothing wraps.
- Solver.ShortestPaths: the contract fixes keys, marker placement and
  distances, and requires the predecessors to form a tree rooted at the
  start. It does not say which of several equally short, tree-forming
  predecessors the `(distance, vertex)` pop order and the ascending edge walk
  choose. The code makes that choice, but the contract only requires some
  consistent one.
- GraphStore.GraphWrapper.Dijkstra: the same gap as `Solver.ShortestPaths`,
  for the same reason. Its records carry the map that `ShortestPaths`
  returns, so the predecessor chosen among equally short, tree-forming ones
  is not pinned down either.
- Solver.NewFrontierAbovePopped: pop order is stated as non-decreasing
  distance. With zero-weight edges, a later pop can have the same distance
  and a smaller vertex, so lexicographic order is not claimed.
- `BTreeMap`/`BTreeSet` internals are left out. They are modelled as `map`
  and `set`, with the ascending walk and `pop_first` given by `Ordered`.
- examples/basic.rs is not part of this model. It calls a `dijkstra`/`Graph`
  API that src/lib.rs does not define, and it only prints.

# Shortest paths on a road graph: two Dijkstra engines, visited counts and routes

The repository benchmarks two implementations of Dijkstra's algorithm on road
graphs stored as `{node: {neighbour: weight}}` dictionaries:

- `algo_A_Heap` keeps a `heapq` priority queue of `(distance, node)` tuples
  with lazy deletion;
- `algo_B_Array` scans an "unvisited" dictionary linearly for the smallest
  tentative distance.

`evaluate` scores a result as feasible (0.0) or "no path" (1.0).
run_analysis_scaling.py adds a visited-node counter to both engines and crops
the graph to its first `n` keys with `get_subgraph`. visualize_route.py and
generate_all_images.py extend the heap engine with a predecessor table and walk
back from `end` to draw the route.

This project models all of that in Dafny and proves the following:

- Both engines return the shortest distance. For the scanning engine this
  holds for every target that is a key or the start; any other target gets
  infinity.
- The engines agree on every closed graph.
- `evaluate`, applied to a shortest distance, flags exactly the unreachable
  targets.
- The heap counter lies between 1 and the number of nodes reachable from
  `start`, and equals it when the search runs dry. The scan counter does
  the same for the nodes reachable through keys and `start`. On a closed
  graph the two sets coincide. Both counters are 1 when `start == end`.
- `get_subgraph` keeps the first `n` keys in order. Its result is closed
  under edges, and searching it is the same as searching the full graph
  restricted to the kept keys.
- When `end` is reachable, the drawn route is a shortest path from `start`
  to `end`. An unreachable key gets `[]` and an unreachable non-key gets
  `[end]` (see "## Findings").

Modules follow the program:

| module | contents |
|---|---|
| `Graphs` (graph.dfy) | the graph, `Dist` (finite or infinite), paths, their weights, and the shortest-distance specification |
| `Order` (order.dfy) | Python's order on `(distance, node)` tuples, which `heapq` pops by |
| `Settle` (settle.dfy) | the invariant shared by both engines: settled nodes are final and every recorded distance is witnessed by a path |
| `HeapQueue` (heapqueue.dfy) | the heap engine's state and steps |
| `Scan` (scan.dfy) | the scanning engine's state and steps |
| `Run` (run.dfy) | run.py |
| `Scaling` (scaling.dfy) | run_analysis_scaling.py |
| `Trace` (trace.dfy) | the predecessor table and the walk back |
| `Routes` (routes.dfy) | visualize_route.py |
| `ImageRoutes` (imageroutes.dfy) | generate_all_images.py |

A graph is a `Graph(order, adj)`. Here `adj` maps each key to its neighbour
weights, and `order` lists the keys in dictionary insertion order. That order
decides the scanning engine's tie-break and the keys `get_subgraph` keeps.
`Valid(g)` says that `order` lists every key exactly once, which holds of every
dictionary. Distances are `Inf` or `Fin(n)` with `n` a natural number.

A search is specified over a node universe `w`: `ShortestWithin(g, w, s, t, r)`
says that `r` is the least weight of a path from `s` to `t` inside `w`. For the
heap engine `w` holds every node the graph names, so the restriction vanishes
(`Shortest`). The scanning engine only ever sees the keys and `start`.

## Model

| member | source | states |
|---|---|---|
| Run.AlgoAHeap | run.py:9-43 | the result is the shortest distance from `start` to `end`, infinite exactly when `end` is unreachable; 0 when `start == end` |
| Run.HeapSearch | run.py:17-43 | over any universe holding the keys, `start` and every edge target, the loop returns the shortest distance inside that universe |
| Settle.InitDist | run.py:17-18 | the initial table of both engines (also run.py:52-53) has exactly the keys plus `start`, holds 0 at `start` and infinity everywhere else |
| Settle.Get | run.py:43 | `distances.get(v, inf)`, also used at line 27: a finite answer comes only from a stored entry, and the answer is infinite exactly when `v` is absent or stored as infinite |
| Graphs.Neighbours | run.py:31 | `graph.get(u, {})`: a node that is not a key has no outgoing edges, a key's are its own entry, and on a closed graph every neighbour is a key |
| HeapQueue.HeapInit | run.py:17-19 | the initial table (every key infinite, `start` at 0) with the queue `[(0, start)]` satisfies the heap engine's invariant, with nothing settled yet |
| HeapQueue.MinOf | run.py:22 | `heappop` on a non-empty queue yields an entry no larger than any other under tuple order |
| Order.StrLt | run.py:22 | Python's string `<`, which breaks ties between equal distances: no string is below itself, and a proper prefix comes first |
| Order.StrLtTotal | run.py:22 | two different strings are comparable |
| Order.StrLtAsymmetric | run.py:22 | no two strings are each below the other |
| Order.StrLtTransitive | run.py:22 | the string order is transitive |
| Order.StrLtTrichotomy | run.py:22 | of two different strings exactly one is below the other |
| Order.EntryLe | run.py:22 | tuple `<=` on `(distance, node)`: entries with different distances compare by distance, and entries with equal distances compare as "not node b below node a" |
| Order.EntryLeTotal | run.py:22 | any two queue entries are comparable |
| Order.EntryLeTransitive | run.py:22 | the entry order is transitive |
| Order.EntryLeAntisymmetric | run.py:22 | two entries each at most the other are equal |
| Order.MinExists | run.py:22 | every non-empty queue has a least `(distance, node)` entry |
| Order.MinUnique | run.py:22 | the least entry is unique, so the pop is deterministic |
| HeapQueue.StalePop | run.py:27-28 | dropping an entry above its node's recorded distance keeps the queue invariant |
| HeapQueue.FreshPop | run.py:22-28 | a pop that is not stale belongs to an unsettled node, carries its recorded distance, and is minimal among the unsettled nodes |
| HeapQueue.EndPop | run.py:24-25 | the first pop of `end` carries its shortest distance |
| HeapQueue.HeapExhausted | run.py:21-43 | once the queue is empty the table's entry (infinity if absent) is the answer for every target, and the settled nodes are exactly the reachable ones |
| HeapQueue.RelaxStep | run.py:33-41 | an improving relaxation keeps the invariant with the new entry pushed; a non-improving one changes nothing |
| Settle.NoIncreaseLower | run.py:39-40 | lowering an entry keeps the table pointwise no higher than before |
| HeapQueue.RelaxNeighbour | run.py:32-41 | one neighbour's relaxation keeps the invariant, never raises a distance, and marks the neighbour handled |
| HeapQueue.RelaxHeap | run.py:30-41 | after all out-edges of the popped node are relaxed it is settled: every edge out of it satisfies the triangle inequality |
| HeapQueue.SettleNode | run.py:27-41 | a fresh pop settles a node not settled before, at its popped distance |
| HeapQueue.Expand | run.py:22-41 | a pop either drops a stale entry or settles a new node, and the search makes progress |
| Run.AlgoBArray | run.py:45-90 | for a target that is a key or `start` the result is the shortest distance; any other target gets infinity; 0 when `start == end` |
| Run.ScanSearch | run.py:51-90 | the loop returns the shortest distance over paths through keys and `start` |
| Scan.InitUnvisited | run.py:51-57 | the unvisited list holds each key once in key order, then `start` if it is not a key |
| Scan.ScanInit | run.py:51-57 | the initial table and unvisited list satisfy the scanning engine's invariant: every key and `start` unvisited, nothing settled |
| Scan.ScanMin | run.py:65-74 | the scan returns nothing exactly when every unvisited distance is infinite; otherwise it returns the first strict minimum in unvisited order |
| Scan.FirstMinUnique | run.py:68-71 | the first strict minimum is unique, so the scan is deterministic |
| Scan.Remove | run.py:79 | deleting a node removes exactly that node, keeps the rest distinct and shortens the list when the node was present |
| Scan.RemoveAt | run.py:79 | deleting the node at position `i` leaves the entries before and after it in order |
| Scan.ScanSelect | run.py:65-76 | the selected node is a minimal unsettled node and its recorded distance is the shortest one |
| Scan.RelaxNeighbour | run.py:83-88 | relaxing one neighbour, skipped when already visited, keeps the settling invariant, never raises a distance, and keeps every unvisited finite distance at or above the selected one |
| Scan.RelaxScan | run.py:82-88 | after relaxing all out-edges the selected node is settled |
| Scan.Visit | run.py:79-88 | a visit settles a node never settled before (the first visit is `start`), shrinks the unvisited list and never raises a distance |
| Scan.ScanExhausted | run.py:73-74 | once only infinite entries remain, the table answers every target and the settled nodes are exactly the reachable ones |
| Run.Evaluate | run.py:94-99 | the score is 1.0 exactly for an infinite result and 0.0 exactly for a finite one |
| Run.EvaluateUnreachable | run.py:94-99 | applied to a shortest distance the score is 1.0 exactly for an unreachable target and 0.0 exactly for a reachable one |
| Run.CompareEngines | run.py:9-90 | both engines return the same distance whenever the target is a key or `start`, and always on a closed graph |
| Scaling.AlgoAHeapCount | run_analysis_scaling.py:17-42 | the distance is the shortest one; the count of non-stale pops is between 1 and the number of reachable nodes, equals it when `end` is unreachable, and is 1 with distance 0 when `start == end` |
| Scaling.HeapSearchCount | run_analysis_scaling.py:18-42 | the same outcome over any universe that holds the keys, `start` and every edge target |
| HeapQueue.HeapFoundCount | run_analysis_scaling.py:26-32 | when `end` is popped fresh its distance is exact, and the count (settled nodes plus one) lies between 1 and the number of reachable nodes, and is 1 when `start == end` |
| HeapQueue.HeapExhaustedCount | run_analysis_scaling.py:23-42 | when the queue runs dry, the count is the number of reachable nodes and the answer is infinite or exact |
| Scaling.AlgoBArrayCount | run_analysis_scaling.py:44-77 | the distance is as for `algo_B_Array`; the count lies between 1 and the number of nodes reachable through keys, which is at most the number of keys plus `start`; it equals that number when `end` is unreachable, and is 1 when `start == end` |
| Scaling.ScanSearchCount | run_analysis_scaling.py:45-77 | the same outcome for the loop over keys and `start` |
| Scan.ScanFoundCount | run_analysis_scaling.py:61-66 | when `end` is selected, the count is within the reachable set and the distance is exact |
| Scan.ScanExhaustedCount | run_analysis_scaling.py:52-77 | when only infinite entries remain, the count is the number of reachable nodes |
| Scaling.CompareCounts | run_analysis_scaling.py:116-134 | on a closed graph with `end` unreachable, both counters equal the number of nodes reachable from `start` |
| Scaling.CountsDifferOnTies | run_analysis_scaling.py:164 | on keys `S, B, A` with edges `S -> A` and `S -> B` of weight 1, the heap pops `(1, "A")` before `(1, "B")`, while the scan selects `B` (the first strict minimum in key order) before `A` |
| Scaling.GetSubgraph | run_analysis_scaling.py:80-91 | an empty cut raises `IndexError`; otherwise the first `n` keys are kept in order, the result is closed, the endpoints are the first and last kept key, and the edges and weights between kept keys are unchanged |
| Scaling.CropPaths | run_analysis_scaling.py:85-89 | a path of the cropped graph is exactly a path of the full graph through kept keys, with the same weight |
| Scaling.CropShortest | run_analysis_scaling.py:116-122 | a shortest distance on the cropped graph is the shortest distance of the full graph restricted to the kept keys |
| Trace.PredInit | visualize_route.py:19 | the empty predecessor table is consistent with the initial distances |
| Trace.PredImprove | visualize_route.py:39-41 | lowering a neighbour and recording the popped node as its predecessor keeps every predecessor a parent joined by an edge that accounts exactly for the distance |
| Trace.Reverse | visualize_route.py:56 | position `i` of the result holds position `n-1-i` of the input |
| Trace.Backtrack | visualize_route.py:52-56 | the walk terminates; the result ends at `end`, starts at a node without predecessor, and each node is the predecessor of the next; `[end]` when `end` has no predecessor |
| Trace.ChainPath | visualize_route.py:52-56 | a predecessor chain ending at a finite node is a path from `start` whose weight is that node's distance |
| Routes.RouteImprove | visualize_route.py:39-42 | an improving relaxation with its recorded predecessor keeps both the queue and the predecessor invariants |
| Routes.RouteKeep | visualize_route.py:39 | a relaxation that does not improve leaves the state valid with the neighbour handled |
| Routes.RouteNeighbour | visualize_route.py:32-42 | one neighbour's relaxation keeps the relaxation state |
| Routes.RelaxRoute | visualize_route.py:31-42 | after all out-edges of the popped node are relaxed, every edge from it is relaxed and the predecessor table is consistent |
| Routes.ExpandRoute | visualize_route.py:22-42 | a pop other than `end` keeps the loop invariant and makes progress; a stale entry is dropped with table and predecessors unchanged, a fresh one settles its node at the popped distance |
| Routes.RouteSearch | visualize_route.py:14-42 | when the loop stops, the entry for `end` is its shortest distance and the predecessor table is consistent |
| Routes.PredRanked | visualize_route.py:52-54 | every predecessor was settled before its node, so the walk back cannot cycle |
| Routes.GetDijkstraPath | visualize_route.py:8-56 | a reachable `end` gets a path from `start` to `end` whose weight is the shortest distance; an unreachable key gets `[]`; an unreachable non-key gets `[end]`; `start == end` gets `[start]` |
| Routes.MissingEndPath | visualize_route.py:48-50 | in the graph `{"a": {}}` the target "z" is unreachable from "a" and not a key, and `["z"]` is not a path from "a" |
| Routes.GetDijkstraPathFixed | visualize_route.py:48-50 | with the infinity check reading a missing entry as infinity, the result is `[]` exactly when `end` is unreachable, and a shortest path otherwise |
| Routes.RouteMatchesDistance | visualize_route.py:8-56 | a finite `algo_A_Heap` distance is the weight of the drawn route from `start` to `end`; an infinite one for a key comes with no route |
| ImageRoutes.GetDijkstraPath | generate_all_images.py:13-38 | the copy has every outcome of the original, the `[end]` quirk included |

## Left out

- Loading instances: reading JSON, `argparse`, the batch runner and the `instance['meta']` lookup with its `str(...)` conversion are left out. The engines take the graph, `start` and `end` directly.
- Timing (`time.perf_counter`), printing, the result tables and all plotting are left out, together with plot_*.py, analyze_data.py and generate_instances.py.
- Weights are natural numbers and `float('inf')` is the `Inf` constructor. Fractional and negative weights are not modelled. The shortest-path claims need non-negative weights, and road graphs have them.
- `evaluate`'s `instance` and `project` parameters are left out because the function does not read them.
- Neighbour dictionaries are unordered maps, and each loop picks the next neighbour arbitrarily. Every property is proved for every iteration order, so the source's insertion order is not needed.
- `heapq`'s array layout is left out: the queue is a multiset, and a pop takes its least element under Python's tuple order. That order compares distances first and breaks ties by Python's string comparison.
- The scanning engine's `unvisited` dictionary is a list of nodes in insertion order whose values are read from the distance table. The source always writes both dictionaries together, so the values agree.
- The predecessor table stores only the entries the search sets. Reading an absent key as `None` matches both the `None` entries the source starts with and `predecessors.get` on a missing key.
- `Valid(g)` (a requirement of the scanning engine, the counters and `get_subgraph`) only states that the key list is the dictionary's key order. It holds of every dictionary.
- Scaling.CompareCounts: the result is weaker than the plot title at run_analysis_scaling.py:164, which claims the two counters are always equal. They differ under ties (see "## Findings"). The model proves equality only when the search runs dry, with `end` unreachable on a closed graph.
- Scaling.AlgoAHeapCount: the exact count when `end` is found depends on tie-breaking. Only its bounds are stated.
- Scaling.AlgoBArrayCount: the exact count when `end` is found depends on tie-breaking. Only its bounds are stated.

## Findings

| source | as written | input that shows it | evidently intended | confidence | as-written member | corrected member |
|---|---|---|---|---|---|---|
| visualize_route.py:48-50 | `distances.get(end) == float('inf')` only catches an infinite entry. An `end` that is neither a key nor ever reached has no entry, so `get` returns `None`, the comparison is false, and the walk back returns `[end]` | graph `{"a": {}}`, start `"a"`, end `"z"`: the result is `["z"]`, which is not a path from `"a"` (Routes.MissingEndPath) | `[]` for every unreachable `end`, as the comment on line 48 says ("check whether the end node is reachable") | high, not executed | Routes.GetDijkstraPath | Routes.GetDijkstraPathFixed |
| generate_all_images.py:34 | the copied function makes the same comparison and returns `[end]` in the same case | the same graph and endpoints (Routes.MissingEndPath) | `[]` for every unreachable `end` | high, not executed | ImageRoutes.GetDijkstraPath | Routes.GetDijkstraPathFixed |
| run_analysis_scaling.py:164 | the plot title calls the two visited counts "always the same" (Selalu Sama) | keys in the order `S, B, A`, edges `S -> A` and `S -> B` of weight 1, start `S`, end `A` (the first and last key, as `get_subgraph` picks them). The heap pops `(1, "A")` before `(1, "B")`, while the scan selects `B`, the first strict minimum in key order, before `A`; these choices are Scaling.CountsDifferOnTies. The counts 2 and 3 then follow from run_analysis_scaling.py:24-32 and 56-66 | equal counts only where tie-breaking cannot matter, such as a search that runs dry | high, not executed | Scaling.CountsDifferOnTies | Scaling.CompareCounts |

/**
 `run_analysis_scaling.py`: the two engines instrumented with a counter of
 visited nodes, and the cropper that builds the smaller maps of the scaling
 experiment from the first `n` keys of a graph.
 */
module Scaling {
  import opened Graphs
  import opened Order
  import opened Settle
  import opened HeapQueue
  import opened Scan

  /** `algo_A_Heap_Count`: the heap engine, counting the pops that survive the
      staleness check. The distance is the shortest one; the count covers
      only reachable nodes, all of them when `end` is unreachable, and is 1
      when `start` is `end`. */
  method AlgoAHeapCount(g: Graph, start: Node, end: Node) returns (r: Dist, count: nat)
    ensures Shortest(g, start, end, r)
    ensures 1 <= count <= |ReachSet(g, start)|
    ensures r.Inf? ==> count == |ReachSet(g, start)|
    ensures start == end ==> r == Fin(0) && count == 1
  {
    UniverseEdgeClosed(g, start);
    r, count := HeapSearchCount(g, Universe(g, start), start, end);
    ShortestFromUniverse(g, start, end, r);
    ReachSetFromUniverse(g, start);
    if start == end {
      ShortestSelf(g, start, r);
    }
  }

  /** The search loop of `algo_A_Heap_Count` (lines 18-42): unlike `algo_A_Heap`,
      a stale pop is discarded before the `end` test. */
  method HeapSearchCount(g: Graph, ghost w: set<Node>, start: Node, end: Node) returns (r: Dist, count: nat)
    requires EdgeClosed(g, w) && g.adj.Keys <= w && start in w
    ensures CountOutcome(g, w, start, end, r, count)
  {
    var dist := InitDist(g, start);
    var pq := multiset{Entry(0, start)};
    count := 0;
    ghost var settled: set<Node> := {};
    ghost var floor: nat := 0;
    HeapInit(g, w, start);
    while |pq| > 0
      invariant HeapInv(g, w, start, dist, pq, settled, floor)
      invariant end !in settled && count == |settled|
      invariant start == end ==> settled == {} && dist == InitDist(g, start)
      decreases |w - settled|, |pq|
    {
      var e := MinOf(pq);
      if !Get(dist, e.node).Less(Fin(e.d)) {
        count := count + 1;
        if e.node == end {
          HeapFoundCount(g, w, start, end, dist, pq, settled, floor, e, count);
          return Fin(e.d), count;
        }
      }
      // a stale pop is discarded (`continue`); a fresh one is settled
      dist, pq, settled, floor := Expand(g, w, start, dist, pq, settled, floor, e);
    }
    HeapExhaustedCount(g, w, start, end, dist, settled, floor, count);
    r := Get(dist, end);
  }

  /** `algo_B_Array_Count`: the scan engine, counting the selections. The
      count never exceeds the nodes reachable inside the keys and `start`, and
      hence never exceeds the number of keys plus `start`; it equals the number
      of those reachable nodes when the answer is infinite. */
  method AlgoBArrayCount(g: Graph, start: Node, end: Node) returns (r: Dist, count: nat)
    requires Valid(g)
    ensures end in g.adj || end == start ==> Shortest(g, start, end, r)
    ensures end !in g.adj && end != start ==> r == Inf
    ensures 1 <= count <= |ReachSetWithin(g, g.adj.Keys + {start}, start)| <= |g.adj.Keys + {start}|
    ensures r.Inf? ==> count == |ReachSetWithin(g, g.adj.Keys + {start}, start)|
    ensures start == end ==> r == Fin(0) && count == 1
  {
    r, count := ScanSearchCount(g, start, end);
    SubsetCard(ReachSetWithin(g, g.adj.Keys + {start}, start), g.adj.Keys + {start});
    if end in g.adj || end == start {
      ShortestFromKeys(g, start, end, r);
      if start == end {
        ShortestSelf(g, start, r);
      }
    } else {
      OutsideInf(g, g.adj.Keys + {start}, start, end, r);
    }
  }

  /** The search loop of `algo_B_Array_Count` (lines 45-77). */
  method ScanSearchCount(g: Graph, start: Node, end: Node) returns (r: Dist, count: nat)
    requires Valid(g)
    ensures CountOutcome(g, g.adj.Keys + {start}, start, end, r, count)
  {
    ghost var w := g.adj.Keys + {start};
    var dist := InitDist(g, start);
    var unvisited := InitUnvisited(g, start);
    count := 0;
    ghost var settled: set<Node> := {};
    ghost var floor: nat := 0;
    ScanInit(g, start);
    while |unvisited| > 0
      invariant ScanInv(g, w, start, dist, unvisited, settled, floor)
      invariant end !in settled && count == |settled|
      invariant start == end ==> settled == {} && dist == InitDist(g, start)
      decreases |unvisited|
    {
      var current, at := ScanMin(dist, unvisited);
      if current.None? {
        break;
      }
      var u := current.value;
      count := count + 1;
      if u == end {
        ScanFoundCount(g, start, end, dist, unvisited, settled, floor, at, count);
        return dist[end], count;
      }
      var d := dist[u].value;
      dist, unvisited := Visit(g, w, start, dist, unvisited, settled, floor, at, u);
      settled, floor := settled + {u}, d;
    }
    ScanExhaustedCount(g, start, end, dist, unvisited, settled, floor, count);
    r := Get(dist, end);
  }

  /** The counters of both engines on the same instance agree when `end` is
      unreachable in a closed graph: each is the size of the reachable set. */
  method CompareCounts(g: Graph, start: Node, end: Node) returns (a: nat, b: nat)
    requires Valid(g)
    ensures Closed(g) && !Reachable(g, start, end) ==> a == b == |ReachSet(g, start)|
  {
    var ra, rb;
    ra, a := AlgoAHeapCount(g, start, end);
    rb, b := AlgoBArrayCount(g, start, end);
    if Closed(g) && !Reachable(g, start, end) {
      ReachSetFromKeys(g, start);
      if end in g.adj || end == start {
        ShortestUnique(g, start, end, ra, rb);
      }
    }
  }

  /** Under a tie the two counters part ways. Keys `S, B, A`, edges `S -> A`
      and `S -> B` of weight 1, start `S` (the first key) and end `A` (the
      last key), as `get_subgraph` would choose them. After `S`, the heap holds
      `(1, "A")` and `(1, "B")` and pops `(1, "A")` first, since "A" < "B": its
      count stops at 2. The scan meets `B` before `A` in key order and takes
      the first strict minimum, so it visits `B` before selecting `A` and its
      count reaches 3. */
  lemma CountsDifferOnTies()
    ensures var g := Graph(["S", "B", "A"], map["S" := map["A" := 1, "B" := 1], "B" := map[], "A" := map[]]);
      && Valid(g) && Closed(g)
      && EdgeW(g, "S", "A") == 1 && EdgeW(g, "S", "B") == 1
    ensures IsMin(Entry(1, "A"), multiset{Entry(1, "A"), Entry(1, "B")})
    ensures FirstMin(map["S" := Fin(0), "B" := Fin(1), "A" := Fin(1)], ["B", "A"], 0)
  {
  }

  // ---------------------------------------------------------------- cropping

  /** What `get_subgraph` returns: the cropped graph and its first and last key. */
  datatype Crop = Crop(graph: Graph, start: Node, end: Node)

  /** A result, or the `IndexError` of `nodes[0]` on an empty key list. */
  datatype Result<T> = Ok(value: T) | IndexError

  /** Where Python's `xs[:n]` stops on a list of length `len`: a negative `n`
      counts from the end. */
  function SliceStop(n: int, len: nat): (k: nat)
    ensures k <= len
  {
    if n >= len then len
    else if n >= 0 then n
    else if len + n > 0 then len + n
    else 0
  }

  /** `get_subgraph`: keep the first `n` keys in order, drop every edge into a
      node that was cut off, and use the first and last kept key as the
      endpoints. An empty cut fails like `nodes[0]` does. */
  function GetSubgraph(full: Graph, n: int): (r: Result<Crop>)
    requires Valid(full)
    ensures r.IndexError? <==> SliceStop(n, |full.order|) == 0
    ensures r.Ok? ==>
      var k := SliceStop(n, |full.order|);
      var sub := r.value.graph;
      && sub.order == full.order[..k]
      && Valid(sub)
      && Closed(sub)
      && r.value.start == sub.order[0]
      && r.value.end == sub.order[k - 1]
      && (forall u, v :: u in sub.adj && v in sub.adj ==>
            (HasEdge(sub, u, v) <==> HasEdge(full, u, v)) && EdgeW(sub, u, v) == EdgeW(full, u, v))
  {
    var k := SliceStop(n, |full.order|);
    var nodes := full.order[..k];
    var kept := set v | v in nodes;
    assert forall u :: u in kept ==> u in full.adj;
    var clean := map u | u in kept :: map v | v in full.adj[u] && v in kept :: full.adj[u][v];
    if k == 0 then IndexError
    else Ok(Crop(Graph(nodes, clean), nodes[0], nodes[k - 1]))
  }

  /** A path of the cropped graph is exactly a path of the full graph over the
      kept keys, with the same weight. */
  lemma CropPaths(full: Graph, n: int, p: seq<Node>, s: Node, t: Node)
    requires Valid(full) && GetSubgraph(full, n).Ok?
    requires s in GetSubgraph(full, n).value.graph.adj
    ensures var sub := GetSubgraph(full, n).value.graph;
      && (PathFromTo(sub, p, s, t) <==> WPath(full, sub.adj.Keys, p, s, t))
      && (PathFromTo(sub, p, s, t) ==> Weight(sub, p) == Weight(full, p))
  {
    var sub := GetSubgraph(full, n).value.graph;
    var kept := sub.adj.Keys;
    if PathFromTo(sub, p, s, t) {
      forall i | 0 <= i < |p|
        ensures p[i] in kept
      {
        if i > 0 {
          assert EdgeAt(sub, p, i - 1);
        }
      }
      forall i | 0 <= i < |p| - 1
        ensures EdgeAt(full, p, i)
      {
        assert EdgeAt(sub, p, i);
      }
      WeightAgree(sub, full, kept, p);
    }
    if WPath(full, kept, p, s, t) {
      forall i | 0 <= i < |p| - 1
        ensures EdgeAt(sub, p, i)
      {
        assert EdgeAt(full, p, i);
      }
    }
  }

  /** Running a search on the cropped graph is searching the full graph inside
      the kept keys. */
  lemma CropShortest(full: Graph, n: int, s: Node, t: Node, r: Dist)
    requires Valid(full) && GetSubgraph(full, n).Ok?
    requires s in GetSubgraph(full, n).value.graph.adj
    ensures var sub := GetSubgraph(full, n).value.graph;
      Shortest(sub, s, t, r) <==> ShortestWithin(full, sub.adj.Keys, s, t, r)
  {
    var sub := GetSubgraph(full, n).value.graph;
    forall p
      ensures (PathFromTo(sub, p, s, t) <==> WPath(full, sub.adj.Keys, p, s, t))
      ensures (PathFromTo(sub, p, s, t) ==> Weight(sub, p) == Weight(full, p))
    {
      CropPaths(full, n, p, s, t);
    }
  }
}

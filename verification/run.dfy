/**
 The two Dijkstra engines of `run.py` and the feasibility check applied to
 their results.
 */
module Run {
  import opened Graphs
  import opened Order
  import opened Settle
  import opened HeapQueue
  import opened Scan

  /** `algo_A_Heap`: Dijkstra with a binary heap and lazy deletion. The answer
      is the shortest distance from `start` to `end`, infinite when `end` is
      unreachable. */
  method AlgoAHeap(g: Graph, start: Node, end: Node) returns (r: Dist)
    ensures Shortest(g, start, end, r)
    ensures start == end ==> r == Fin(0)
  {
    UniverseEdgeClosed(g, start);
    r := HeapSearch(g, Universe(g, start), start, end);
    ShortestFromUniverse(g, start, end, r);
    if start == end {
      ShortestSelf(g, start, r);
    }
  }

  /** The search loop of `algo_A_Heap` (lines 17-43), over any node universe
      `w` that holds the keys, `start` and every edge target. */
  method HeapSearch(g: Graph, ghost w: set<Node>, start: Node, end: Node) returns (r: Dist)
    requires EdgeClosed(g, w) && g.adj.Keys <= w && start in w
    ensures ShortestWithin(g, w, start, end, r)
  {
    var dist := InitDist(g, start);
    var pq := multiset{Entry(0, start)};
    ghost var settled: set<Node> := {};
    ghost var floor: nat := 0;
    HeapInit(g, w, start);
    while |pq| > 0
      invariant HeapInv(g, w, start, dist, pq, settled, floor)
      invariant end !in settled
      decreases |w - settled|, |pq|
    {
      var e := MinOf(pq);
      if e.node == end {
        EndPop(g, w, start, dist, pq, settled, floor, e);
        return Fin(e.d);
      }
      dist, pq, settled, floor := Expand(g, w, start, dist, pq, settled, floor, e);
    }
    HeapExhausted(g, w, start, dist, settled, floor, end);
    r := Get(dist, end);
  }

  /** `algo_B_Array`: Dijkstra with a linear scan over the unvisited keys. The
      search never leaves the keys and `start`: for a target among them the
      answer is the shortest distance, for any other target it is infinity. */
  method AlgoBArray(g: Graph, start: Node, end: Node) returns (r: Dist)
    requires Valid(g)
    ensures end in g.adj || end == start ==> Shortest(g, start, end, r)
    ensures end !in g.adj && end != start ==> r == Inf
    ensures start == end ==> r == Fin(0)
  {
    r := ScanSearch(g, start, end);
    if end in g.adj || end == start {
      ShortestFromKeys(g, start, end, r);
      if start == end {
        ShortestSelf(g, start, r);
      }
    } else {
      OutsideInf(g, g.adj.Keys + {start}, start, end, r);
    }
  }

  /** The search loop of `algo_B_Array` (lines 51-90). */
  method ScanSearch(g: Graph, start: Node, end: Node) returns (r: Dist)
    requires Valid(g)
    ensures ShortestWithin(g, g.adj.Keys + {start}, start, end, r)
  {
    ghost var w := g.adj.Keys + {start};
    var dist := InitDist(g, start);
    var unvisited := InitUnvisited(g, start);
    ghost var settled: set<Node> := {};
    ghost var floor: nat := 0;
    ScanInit(g, start);
    while |unvisited| > 0
      invariant ScanInv(g, w, start, dist, unvisited, settled, floor)
      decreases |unvisited|
    {
      var current, at := ScanMin(dist, unvisited);
      if current.None? {
        // only infinite distances are left: the rest is unreachable
        break;
      }
      var u := current.value;
      if u == end {
        ScanSelect(g, w, start, dist, unvisited, settled, floor, at);
        return dist[end];
      }
      var d := dist[u].value;
      dist, unvisited := Visit(g, w, start, dist, unvisited, settled, floor, at, u);
      settled, floor := settled + {u}, d;
    }
    ScanExhausted(g, w, start, dist, unvisited, settled, floor, end);
    r := Get(dist, end);
  }

  /** `evaluate`: the feasibility score, 1.0 for "no path found" and 0.0 otherwise. */
  function Evaluate(result: Dist): (score: real)
    ensures score == 1.0 <==> result.Inf?
    ensures score == 0.0 <==> result.Fin?
  {
    if result.Inf? then 1.0 else 0.0
  }

  /** Applied to a shortest distance, the score flags exactly the unreachable targets. */
  lemma EvaluateUnreachable(g: Graph, start: Node, end: Node, r: Dist)
    requires Shortest(g, start, end, r)
    ensures Evaluate(r) == 1.0 <==> !Reachable(g, start, end)
    ensures Evaluate(r) == 0.0 <==> Reachable(g, start, end)
  {
    ShortestInfIff(g, start, end, r);
  }

  /** Both engines on the same instance: they agree whenever the target is a key
      or `start`, and always on a closed graph. */
  method CompareEngines(g: Graph, start: Node, end: Node) returns (a: Dist, b: Dist)
    requires Valid(g)
    ensures end in g.adj || end == start ==> a == b
    ensures Closed(g) ==> a == b
  {
    a := AlgoAHeap(g, start, end);
    b := AlgoBArray(g, start, end);
    if end in g.adj || end == start {
      ShortestUnique(g, start, end, a, b);
    } else if Closed(g) && a.Fin? {
      ShortestInfIff(g, start, end, a);
      ClosedReach(g, start, end);
    }
  }
}

/**
 `get_dijkstra_path` of visualize_route.py: the heap engine extended with a
 predecessor table, stopping as soon as `end` is popped, followed by the walk
 back from `end`.
 */
module Routes {
  import opened Graphs
  import opened Order
  import opened Settle
  import opened HeapQueue
  import opened Trace
  import Run

  /** Every key the search adds to the table beyond the graph's keys and
      `start` carries a finite distance. */
  ghost predicate NewKeysFinite(g: Graph, start: Node, dist: map<Node, Dist>) {
    forall v :: v in dist && v !in g.adj && v != start ==> dist[v].Fin?
  }

  /** The invariant of the `while pq` loop of `get_dijkstra_path`. */
  ghost predicate RouteInv(g: Graph, w: set<Node>, start: Node, dist: map<Node, Dist>, pq: multiset<Entry>,
                           pred: map<Node, Node>, settled: set<Node>, floor: nat, rank: map<Node, nat>) {
    && HeapInv(g, w, start, dist, pq, settled, floor)
    && PredInv(g, start, dist, pred, settled, rank)
    && NewKeysFinite(g, start, dist)
  }

  /** The state while the out-edges of `u` (settled at `d`) are relaxed;
      `done` holds the neighbours already handled. */
  ghost predicate Relaxing(g: Graph, w: set<Node>, start: Node, dist: map<Node, Dist>,
                           pq: multiset<Entry>, pred: map<Node, Node>, settled: set<Node>, rank: map<Node, nat>,
                           u: Node, d: nat, done: set<Node>) {
    && HeapRelaxing(g, w, start, dist, pq, settled, u, d, done)
    && PredInv(g, start, dist, pred, settled + {u}, rank)
  }

  /** The part of `Relaxing` that the heap engine shares. */
  ghost predicate HeapRelaxing(g: Graph, w: set<Node>, start: Node, dist: map<Node, Dist>,
                               pq: multiset<Entry>, settled: set<Node>, u: Node, d: nat, done: set<Node>) {
    && Settling(g, w, start, dist, settled, u, done)
    && NewKeysFinite(g, start, dist)
    && QueueInv(dist, pq, settled + {u}, d)
    && g.adj.Keys <= dist.Keys && dist[u] == Fin(d)
  }

  lemma HeapRelaxImprove(g: Graph, w: set<Node>, start: Node, dist: map<Node, Dist>,
                         pq: multiset<Entry>, settled: set<Node>, u: Node, d: nat, done: set<Node>, v: Node, nd: nat)
    requires EdgeClosed(g, w) && HasEdge(g, u, v)
    requires HeapRelaxing(g, w, start, dist, pq, settled, u, d, done)
    requires nd == d + EdgeW(g, u, v) && Fin(nd).Less(Get(dist, v))
    ensures HeapRelaxing(g, w, start, dist[v := Fin(nd)], pq + multiset{Entry(nd, v)}, settled, u, d, done + {v})
    ensures v !in settled + {u} && v != start
  {
    HeapImprove(g, w, start, dist, pq, settled, u, done, v, nd);
    ImproveUnsettled(g, w, start, dist, settled, u, done, v, nd);
  }

  /** An improving relaxation of the edge `u -> v`: the new distance, the
      pushed entry and the recorded predecessor keep the state consistent. */
  lemma RouteImprove(g: Graph, w: set<Node>, start: Node, dist: map<Node, Dist>,
                     pq: multiset<Entry>, pred: map<Node, Node>, settled: set<Node>, rank: map<Node, nat>,
                     u: Node, d: nat, done: set<Node>, v: Node, nd: nat)
    requires EdgeClosed(g, w) && HasEdge(g, u, v)
    requires Relaxing(g, w, start, dist, pq, pred, settled, rank, u, d, done)
    requires nd == d + EdgeW(g, u, v) && Fin(nd).Less(Get(dist, v))
    ensures Relaxing(g, w, start, dist[v := Fin(nd)], pq + multiset{Entry(nd, v)}, pred[v := u],
                     settled, rank, u, d, done + {v})
  {
    HeapRelaxImprove(g, w, start, dist, pq, settled, u, d, done, v, nd);
    PredImprove(g, start, dist, pred, settled + {u}, rank, u, v, nd);
  }

  /** A relaxation of `u -> v` that does not improve changes nothing. */
  lemma RouteKeep(g: Graph, w: set<Node>, start: Node, dist: map<Node, Dist>,
                  pq: multiset<Entry>, pred: map<Node, Node>, settled: set<Node>, rank: map<Node, nat>,
                  u: Node, d: nat, done: set<Node>, v: Node, nd: nat)
    requires Relaxing(g, w, start, dist, pq, pred, settled, rank, u, d, done)
    requires nd == d + EdgeW(g, u, v) && !Fin(nd).Less(Get(dist, v))
    ensures Relaxing(g, w, start, dist, pq, pred, settled, rank, u, d, done + {v})
  {
    RelaxKeep(g, w, start, dist, settled, u, done, v);
  }

  /** Lines 32-42 of visualize_route.py for one neighbour `v` of the popped `u`. */
  method RouteNeighbour(g: Graph, ghost w: set<Node>, ghost start: Node, dist: map<Node, Dist>, pq: multiset<Entry>, pred: map<Node, Node>,
                        ghost settled: set<Node>, ghost rank: map<Node, nat>, u: Node, d: nat,
                        ghost done: set<Node>, v: Node)
    returns (dist': map<Node, Dist>, pq': multiset<Entry>, pred': map<Node, Node>)
    requires EdgeClosed(g, w) && HasEdge(g, u, v)
    requires Relaxing(g, w, start, dist, pq, pred, settled, rank, u, d, done)
    ensures Relaxing(g, w, start, dist', pq', pred', settled, rank, u, d, done + {v})
  {
    var newDist := d + Neighbours(g, u)[v];
    // a neighbour missing from the table reads as infinity, which `new_dist` beats
    if Fin(newDist).Less(Get(dist, v)) {
      RouteImprove(g, w, start, dist, pq, pred, settled, rank, u, d, done, v, newDist);
      dist', pq', pred' := dist[v := Fin(newDist)], pq + multiset{Entry(newDist, v)}, pred[v := u];
    } else {
      RouteKeep(g, w, start, dist, pq, pred, settled, rank, u, d, done, v, newDist);
      dist', pq', pred' := dist, pq, pred;
    }
  }

  /** Lines 31-42 of visualize_route.py: relax every out-edge of the popped `u`;
      an improvement also records `u` as the predecessor. */
  method RelaxRoute(g: Graph, ghost w: set<Node>, ghost start: Node, dist0: map<Node, Dist>, pq0: multiset<Entry>,
                    pred0: map<Node, Node>, ghost settled: set<Node>, ghost rank: map<Node, nat>, u: Node, d: nat)
    returns (dist: map<Node, Dist>, pq: multiset<Entry>, pred: map<Node, Node>)
    requires EdgeClosed(g, w)
    requires Relaxing(g, w, start, dist0, pq0, pred0, settled, rank, u, d, {})
    ensures Relaxing(g, w, start, dist, pq, pred, settled, rank, u, d, Neighbours(g, u).Keys)
  {
    dist, pq, pred := dist0, pq0, pred0;
    var neighbours := Neighbours(g, u);
    var todo := neighbours.Keys;
    ghost var done: set<Node> := {};
    while todo != {}
      invariant todo <= neighbours.Keys && done == neighbours.Keys - todo
      invariant Relaxing(g, w, start, dist, pq, pred, settled, rank, u, d, done)
      decreases |todo|
    {
      var v :| v in todo;
      dist, pq, pred := RouteNeighbour(g, w, start, dist, pq, pred, settled, rank, u, d, done, v);
      WorklistTake(neighbours.Keys, todo, done, v);
      todo, done := todo - {v}, done + {v};
    }
    WorklistEmpty(neighbours.Keys, todo, done);
  }

  /** Lines 27-42 of visualize_route.py after popping `e` (not for `end`): a
      stale entry is dropped; otherwise the node is settled, given the next
      rank, and its out-edges are relaxed. */
  method ExpandRoute(g: Graph, ghost w: set<Node>, ghost start: Node, dist0: map<Node, Dist>, pq0: multiset<Entry>,
                     pred0: map<Node, Node>, ghost settled0: set<Node>, ghost floor0: nat, ghost rank0: map<Node, nat>,
                     e: Entry)
    returns (dist: map<Node, Dist>, pq: multiset<Entry>, pred: map<Node, Node>,
             ghost settled: set<Node>, ghost floor: nat, ghost rank: map<Node, nat>)
    requires EdgeClosed(g, w)
    requires RouteInv(g, w, start, dist0, pq0, pred0, settled0, floor0, rank0) && IsMin(e, pq0)
    ensures RouteInv(g, w, start, dist, pq, pred, settled, floor, rank)
    ensures settled <= settled0 + {e.node}
    ensures Get(dist0, e.node).Less(Fin(e.d)) ==> dist == dist0 && pq == pq0 - multiset{e} && pred == pred0
    ensures !Get(dist0, e.node).Less(Fin(e.d)) ==> e.node !in settled0 && e.node in settled && dist[e.node] == Fin(e.d)
    ensures |w - settled| < |w - settled0| || (|w - settled| == |w - settled0| && |pq| < |pq0|)
  {
    if Get(dist0, e.node).Less(Fin(e.d)) {
      StalePop(g, w, start, dist0, pq0, settled0, floor0, e);
      dist, pq, pred, settled, floor, rank := dist0, pq0 - multiset{e}, pred0, settled0, floor0, rank0;
    } else {
      FreshPop(g, w, start, dist0, pq0, settled0, floor0, e);
      PredSettle(g, start, dist0, pred0, settled0, rank0, e.node);
      rank := rank0[e.node := |settled0|];
      dist, pq, pred := RelaxRoute(g, w, start, dist0, pq0 - multiset{e}, pred0, settled0, rank, e.node, e.d);
      EndSettle(g, w, start, dist, settled0, e.node);
      settled, floor := settled0 + {e.node}, e.d;
      assert w - settled < w - settled0;
    }
  }

  /** Lines 14-42 of visualize_route.py over a node universe `w`: the table
      holds the answer for `end` when the loop stops, together with a
      consistent predecessor table. */
  method RouteSearch(g: Graph, ghost w: set<Node>, start: Node, end: Node)
    returns (dist: map<Node, Dist>, pred: map<Node, Node>, ghost parents: set<Node>, ghost rank: map<Node, nat>)
    requires EdgeClosed(g, w) && g.adj.Keys <= w && start in w
    ensures ShortestWithin(g, w, start, end, Get(dist, end))
    ensures PredInv(g, start, dist, pred, parents, rank)
    ensures g.adj.Keys <= dist.Keys && NewKeysFinite(g, start, dist)
  {
    dist := InitDist(g, start);
    var pq := multiset{Entry(0, start)};
    pred := map[];
    ghost var floor: nat := 0;
    parents, rank := {}, map[];
    HeapInit(g, w, start);
    PredInit(g, start, dist);
    ghost var found := false;
    while |pq| > 0
      invariant RouteInv(g, w, start, dist, pq, pred, parents, floor, rank)
      invariant end !in parents
      decreases |w - parents|, |pq|
    {
      var e := MinOf(pq);
      if e.node == end {
        EndPop(g, w, start, dist, pq, parents, floor, e);
        found := true;
        break;
      }
      dist, pq, pred, parents, floor, rank := ExpandRoute(g, w, start, dist, pq, pred, parents, floor, rank, e);
    }
    if !found {
      HeapExhausted(g, w, start, dist, parents, floor, end);
    }
  }

  /** The predecessors of a consistent table are ranked below their nodes, so
      the walk back terminates. */
  lemma PredRanked(g: Graph, start: Node, dist: map<Node, Dist>, pred: map<Node, Node>,
                   parents: set<Node>, rank: map<Node, nat>)
    requires PredInv(g, start, dist, pred, parents, rank)
    ensures forall v :: v in pred ==> pred[v] in rank && rank[pred[v]] < Rank(rank, |parents|, v)
  {
    forall v | v in pred
      ensures pred[v] in rank && rank[pred[v]] < Rank(rank, |parents|, v)
    {
      assert pred[v] in parents;
    }
  }

  /** `get_dijkstra_path` (lines 8-56 of visualize_route.py). A reachable `end`
      yields a shortest path from `start` to `end`; an unreachable key yields
      `[]`. An unreachable `end` that is not a key of the graph is never entered
      in the distance table, so `distances.get(end)` is `None` rather than
      infinity and the walk back returns `[end]`. */
  method GetDijkstraPath(g: Graph, start: Node, end: Node) returns (path: seq<Node>)
    ensures Reachable(g, start, end) ==>
      PathFromTo(g, path, start, end) && Shortest(g, start, end, Fin(Weight(g, path)))
    ensures !Reachable(g, start, end) && end in g.adj ==> path == []
    ensures !Reachable(g, start, end) && end !in g.adj ==> path == [end]
    ensures start == end ==> path == [start]
  {
    UniverseEdgeClosed(g, start);
    var dist, pred, parents, rank := RouteSearch(g, Universe(g, start), start, end);
    ShortestFromUniverse(g, start, end, Get(dist, end));
    ShortestInfIff(g, start, end, Get(dist, end));
    if end in dist && dist[end] == Inf {
      return [];
    }
    PredRanked(g, start, dist, pred, parents, rank);
    path := Backtrack(pred, end, rank, |parents|);
    if Reachable(g, start, end) {
      ChainPath(g, start, dist, pred, parents, rank, path);
    }
  }

  /** The counterexample to the path promise of lines 48-50: in a graph with
      one key "a" and no edges, "z" is unreachable from "a" and not a key, so
      `get_dijkstra_path` answers `["z"]`, which is no path from "a". */
  lemma MissingEndPath()
    ensures var g := Graph(["a"], map["a" := map[]]);
      && !Reachable(g, "a", "z") && "z" !in g.adj
      && !PathFromTo(g, ["z"], "a", "z")
  {
    var g := Graph(["a"], map["a" := map[]]);
    forall p
      ensures !PathFromTo(g, p, "a", "z")
    {
      if |p| > 1 && p[0] == "a" {
        assert !HasEdge(g, "a", p[1]);
        assert !EdgeAt(g, p, 0);
      }
    }
  }

  /** `get_dijkstra_path` with the unreachability test it evidently intends:
      `distances.get(end, float('inf')) == float('inf')`. The answer is `[]`
      exactly when `end` is unreachable, and a shortest path otherwise. */
  method GetDijkstraPathFixed(g: Graph, start: Node, end: Node) returns (path: seq<Node>)
    ensures path == [] <==> !Reachable(g, start, end)
    ensures Reachable(g, start, end) ==>
      PathFromTo(g, path, start, end) && Shortest(g, start, end, Fin(Weight(g, path)))
    ensures start == end ==> path == [start]
  {
    UniverseEdgeClosed(g, start);
    var dist, pred, parents, rank := RouteSearch(g, Universe(g, start), start, end);
    ShortestFromUniverse(g, start, end, Get(dist, end));
    ShortestInfIff(g, start, end, Get(dist, end));
    if Get(dist, end) == Inf {
      return [];
    }
    PredRanked(g, start, dist, pred, parents, rank);
    path := Backtrack(pred, end, rank, |parents|);
    ChainPath(g, start, dist, pred, parents, rank, path);
  }

  /** The drawn route and the benchmarked distance describe the same
      answer: a finite `algo_A_Heap` result is the weight of the path, and an
      infinite one for a key of the graph comes with no path. */
  method RouteMatchesDistance(g: Graph, start: Node, end: Node) returns (r: Dist, path: seq<Node>)
    ensures r.Fin? ==> path != [] && path[0] == start && path[|path| - 1] == end && r == Fin(Weight(g, path))
    ensures r.Inf? && end in g.adj ==> path == []
  {
    r := Run.AlgoAHeap(g, start, end);
    path := GetDijkstraPath(g, start, end);
    ShortestInfIff(g, start, end, r);
    if r.Fin? {
      ShortestUnique(g, start, end, r, Fin(Weight(g, path)));
    }
  }
}

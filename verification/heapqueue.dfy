/**
 The priority-queue engine's state: a distance table, a `heapq` frontier of
 `(dist, node)` entries with lazy deletion, and (ghost) the settled nodes. The
 search universe is `w`: every node the engine can name.
 */
module HeapQueue {
  import opened Graphs
  import opened Order
  import opened Settle

  /** How the frontier relates to the distance table; `floor` is the distance of
      the latest pop, which separates the settled nodes from the queued entries. */
  ghost predicate QueueInv(dist: map<Node, Dist>, pq: multiset<Entry>, settled: set<Node>, floor: nat) {
    // no entry is below its node's recorded distance
    && (forall e :: e in pq ==> e.node in dist && dist[e.node].Fin? && dist[e.node].value <= e.d)
    // every unsettled finite distance is waiting in the frontier
    && (forall v :: v in dist && v !in settled && dist[v].Fin? ==> Entry(dist[v].value, v) in pq)
    // every entry left for a settled node is stale
    && (forall e :: e in pq && e.node in settled ==> e.node in dist && dist[e.node].Fin? && dist[e.node].value < e.d)
    // a current distance is pushed at most once
    && (forall v :: v in dist && dist[v].Fin? ==> pq[Entry(dist[v].value, v)] <= 1)
    // settled nodes are no farther than anything still queued
    && (forall s :: s in settled ==> s in dist && dist[s].Fin? && dist[s].value <= floor)
    && (forall e :: e in pq ==> floor <= e.d)
  }

  /** The invariant of the `while pq` loop. */
  ghost predicate HeapInv(g: Graph, w: set<Node>, start: Node, dist: map<Node, Dist>, pq: multiset<Entry>,
                          settled: set<Node>, floor: nat) {
    && Sound(g, w, start, dist, settled)
    && QueueInv(dist, pq, settled, floor)
    && g.adj.Keys <= dist.Keys
  }

  lemma HeapInit(g: Graph, w: set<Node>, start: Node)
    requires g.adj.Keys <= w && start in w
    ensures HeapInv(g, w, start, InitDist(g, start), multiset{Entry(0, start)}, {}, 0)
  {
    var dist := InitDist(g, start);
    assert WPath(g, w, [start], start, start) && Weight(g, [start]) == 0;
    assert Witnessed(g, w, start, dist);
  }

  /** The entry `heapq.heappop` would return from a non-empty frontier. */
  method MinOf(pq: multiset<Entry>) returns (e: Entry)
    requires |pq| > 0
    ensures IsMin(e, pq)
  {
    ghost var m := MinExists(pq);
    e :| IsMin(e, pq);
  }

  /** A popped entry above its node's distance is stale; dropping it keeps the invariant. */
  lemma StalePop(g: Graph, w: set<Node>, start: Node, dist: map<Node, Dist>, pq: multiset<Entry>, settled: set<Node>,
                 floor: nat, e: Entry)
    requires HeapInv(g, w, start, dist, pq, settled, floor)
    requires e in pq && Get(dist, e.node).Less(Fin(e.d))
    ensures HeapInv(g, w, start, dist, pq - multiset{e}, settled, floor)
  {
    var pq' := pq - multiset{e};
    forall v | v in dist && v !in settled && dist[v].Fin?
      ensures Entry(dist[v].value, v) in pq'
    {
      assert Entry(dist[v].value, v) != e;
    }
  }

  /** A popped entry that is not stale belongs to an unsettled node, is the least
      unsettled distance, and opens that node's settling phase. */
  lemma FreshPop(g: Graph, w: set<Node>, start: Node, dist: map<Node, Dist>, pq: multiset<Entry>, settled: set<Node>,
                 floor: nat, e: Entry)
    requires HeapInv(g, w, start, dist, pq, settled, floor)
    requires IsMin(e, pq) && !Get(dist, e.node).Less(Fin(e.d))
    ensures e.node !in settled && dist[e.node] == Fin(e.d)
    ensures MinUnsettled(w, dist, settled, e.node)
    ensures Settling(g, w, start, dist, settled, e.node, {})
    ensures QueueInv(dist, pq - multiset{e}, settled + {e.node}, e.d)
  {
    var u := e.node;
    var pq' := pq - multiset{e};
    assert u in dist && dist[u] == Fin(e.d);
    forall v | v in w && v !in settled && v in dist && dist[v].Fin?
      ensures dist[u].value <= dist[v].value
    {
      assert Entry(dist[v].value, v) in pq;
      assert EntryLe(e, Entry(dist[v].value, v));
    }
    BeginSettle(g, w, start, dist, settled, u);
    forall v | v in dist && v !in settled + {u} && dist[v].Fin?
      ensures Entry(dist[v].value, v) in pq'
    {
      assert Entry(dist[v].value, v) in pq;
    }
    assert pq[e] <= 1;
    assert pq'[e] == 0;
    forall x | x in pq' && x.node in settled + {u}
      ensures x.node in dist && dist[x.node].Fin? && dist[x.node].value < x.d
    {
      if x.node == u {
        assert x != e;
      }
    }
    forall x | x in pq'
      ensures e.d <= x.d
    {
      assert EntryLe(e, x);
    }
    forall v | v in dist && dist[v].Fin?
      ensures pq'[Entry(dist[v].value, v)] <= 1
    {
      assert pq[Entry(dist[v].value, v)] <= 1;
    }
  }

  /** The first pop of `end` carries its shortest distance. */
  lemma EndPop(g: Graph, w: set<Node>, start: Node, dist: map<Node, Dist>, pq: multiset<Entry>, settled: set<Node>,
               floor: nat, e: Entry)
    requires HeapInv(g, w, start, dist, pq, settled, floor)
    requires IsMin(e, pq) && e.node !in settled
    ensures dist[e.node] == Fin(e.d)
    ensures ShortestWithin(g, w, start, e.node, Fin(e.d))
  {
    var u := e.node;
    assert Entry(dist[u].value, u) in pq;
    assert EntryLe(e, Entry(dist[u].value, u));
    FreshPop(g, w, start, dist, pq, settled, floor, e);
    SelectedAnswer(g, w, start, dist, settled, u);
  }

  /** An empty frontier means every unsettled node is infinitely far. */
  lemma QueueEmpty(g: Graph, w: set<Node>, start: Node, dist: map<Node, Dist>, settled: set<Node>, floor: nat)
    requires HeapInv(g, w, start, dist, multiset{}, settled, floor)
    ensures forall v :: v in dist && v !in settled ==> dist[v].Inf?
  {
  }

  /** Once the frontier is empty the table holds the answer for every target,
      and the settled nodes are exactly those reachable inside `w`. */
  lemma HeapExhausted(g: Graph, w: set<Node>, start: Node, dist: map<Node, Dist>, settled: set<Node>, floor: nat, t: Node)
    requires HeapInv(g, w, start, dist, multiset{}, settled, floor)
    ensures ShortestWithin(g, w, start, t, Get(dist, t))
    ensures settled == ReachSetWithin(g, w, start)
  {
    QueueEmpty(g, w, start, dist, settled, floor);
    Exhausted(g, w, start, dist, settled, t);
    ExhaustedSettledAll(g, w, start, dist, settled);
  }

  /** The outcome when the first fresh pop of `end` comes after `settled`. */
  lemma HeapFoundCount(g: Graph, w: set<Node>, start: Node, end: Node, dist: map<Node, Dist>, pq: multiset<Entry>,
                       settled: set<Node>, floor: nat, e: Entry, count: nat)
    requires HeapInv(g, w, start, dist, pq, settled, floor)
    requires IsMin(e, pq) && e.node == end && end !in settled && count == |settled| + 1
    requires start == end ==> settled == {}
    ensures CountOutcome(g, w, start, end, Fin(e.d), count)
  {
    EndPop(g, w, start, dist, pq, settled, floor, e);
    CountWithinReach(g, w, start, dist, settled, end);
  }

  /** The outcome when the frontier runs empty: every reachable node was
      counted, `end` not among them. */
  lemma HeapExhaustedCount(g: Graph, w: set<Node>, start: Node, end: Node, dist: map<Node, Dist>,
                           settled: set<Node>, floor: nat, count: nat)
    requires HeapInv(g, w, start, dist, multiset{}, settled, floor)
    requires count == |settled| && end !in settled
    ensures CountOutcome(g, w, start, end, Get(dist, end), count)
  {
    HeapExhausted(g, w, start, dist, settled, floor, end);
    StartReached(g, w, start);
  }

  /** Pushing `(nd, v)` after lowering `v` to `nd` keeps the frontier in step. */
  lemma QueueImprove(dist: map<Node, Dist>, pq: multiset<Entry>, settled: set<Node>, floor: nat, v: Node, nd: nat)
    requires QueueInv(dist, pq, settled, floor)
    requires v !in settled && Fin(nd).Less(Get(dist, v)) && floor <= nd
    ensures QueueInv(dist[v := Fin(nd)], pq + multiset{Entry(nd, v)}, settled, floor)
  {
    var dist' := dist[v := Fin(nd)];
    var ne := Entry(nd, v);
    var pq' := pq + multiset{ne};
    assert pq[ne] == 0;
    forall x | x in dist' && dist'[x].Fin?
      ensures pq'[Entry(dist'[x].value, x)] <= 1
    {
      if x != v {
        assert Entry(dist'[x].value, x) != ne;
      }
    }
    forall x | x in pq'
      ensures x.node in dist' && dist'[x.node].Fin? && dist'[x.node].value <= x.d
    {
      if x != ne && x.node == v {
        assert x in pq;
      }
    }
  }

  /** The neighbour loop's improving branch: lower `v` to `nd` and push `(nd, v)`. */
  lemma HeapImprove(g: Graph, w: set<Node>, start: Node, dist: map<Node, Dist>, pq: multiset<Entry>,
                    settled: set<Node>, u: Node, done: set<Node>, v: Node, nd: nat)
    requires Settling(g, w, start, dist, settled, u, done)
    requires QueueInv(dist, pq, settled + {u}, dist[u].value)
    requires EdgeClosed(g, w)
    requires HasEdge(g, u, v) && nd == dist[u].value + EdgeW(g, u, v) && Fin(nd).Less(Get(dist, v))
    ensures Settling(g, w, start, dist[v := Fin(nd)], settled, u, done + {v})
    ensures QueueInv(dist[v := Fin(nd)], pq + multiset{Entry(nd, v)}, settled + {u}, dist[u].value)
  {
    ImproveUnsettled(g, w, start, dist, settled, u, done, v, nd);
    RelaxImprove(g, w, start, dist, settled, u, done, v, nd);
    QueueImprove(dist, pq, settled + {u}, dist[u].value, v, nd);
  }

  /** One iteration of the neighbour loop, in both of its outcomes. */
  lemma RelaxStep(g: Graph, w: set<Node>, start: Node, dist0: map<Node, Dist>, dist: map<Node, Dist>, pq: multiset<Entry>,
                  settled: set<Node>, u: Node, done: set<Node>, v: Node, nd: nat)
    requires Settling(g, w, start, dist, settled, u, done)
    requires QueueInv(dist, pq, settled + {u}, dist[u].value)
    requires EdgeClosed(g, w) && NoIncrease(dist0, dist)
    requires HasEdge(g, u, v) && nd == dist[u].value + EdgeW(g, u, v)
    ensures Fin(nd).Less(Get(dist, v)) ==>
      && Settling(g, w, start, dist[v := Fin(nd)], settled, u, done + {v})
      && QueueInv(dist[v := Fin(nd)], pq + multiset{Entry(nd, v)}, settled + {u}, dist[u].value)
      && NoIncrease(dist0, dist[v := Fin(nd)])
    ensures !Fin(nd).Less(Get(dist, v)) ==> Settling(g, w, start, dist, settled, u, done + {v})
  {
    if Fin(nd).Less(Get(dist, v)) {
      HeapImprove(g, w, start, dist, pq, settled, u, done, v, nd);
      NoIncreaseLower(dist0, dist, v, nd);
    } else {
      RelaxKeep(g, w, start, dist, settled, u, done, v);
    }
  }

  /** Lines 33-41 of run.py for one neighbour `v` of the popped `u`. A neighbour
      missing from the table is entered as infinity, which `new_dist` always
      beats: `Get` reads it as infinity directly. */
  method RelaxNeighbour(g: Graph, ghost w: set<Node>, ghost start: Node, ghost dist0: map<Node, Dist>,
                        dist: map<Node, Dist>, pq: multiset<Entry>, ghost settled: set<Node>, u: Node, d: nat,
                        ghost done: set<Node>, v: Node)
    returns (dist': map<Node, Dist>, pq': multiset<Entry>)
    requires EdgeClosed(g, w) && HasEdge(g, u, v)
    requires Settling(g, w, start, dist, settled, u, done) && NoIncrease(dist0, dist)
    requires QueueInv(dist, pq, settled + {u}, d)
    requires g.adj.Keys <= dist.Keys && dist[u] == Fin(d)
    ensures Settling(g, w, start, dist', settled, u, done + {v}) && NoIncrease(dist0, dist')
    ensures QueueInv(dist', pq', settled + {u}, d)
    ensures g.adj.Keys <= dist'.Keys && dist'[u] == Fin(d)
  {
    var newDist := d + Neighbours(g, u)[v];
    RelaxStep(g, w, start, dist0, dist, pq, settled, u, done, v, newDist);
    dist', pq' := dist, pq;
    if Fin(newDist).Less(Get(dist, v)) {
      dist' := dist[v := Fin(newDist)];
      pq' := pq + multiset{Entry(newDist, v)};
    }
  }

  /** Lines 30-41 of run.py: relax every out-edge of the freshly popped `u`. */
  method RelaxHeap(g: Graph, ghost w: set<Node>, ghost start: Node, dist0: map<Node, Dist>, pq0: multiset<Entry>,
                   ghost settled: set<Node>, u: Node, d: nat)
    returns (dist: map<Node, Dist>, pq: multiset<Entry>)
    requires EdgeClosed(g, w)
    requires Settling(g, w, start, dist0, settled, u, {})
    requires QueueInv(dist0, pq0, settled + {u}, d)
    requires g.adj.Keys <= dist0.Keys
    requires dist0[u] == Fin(d)
    ensures HeapInv(g, w, start, dist, pq, settled + {u}, d)
    ensures dist[u] == Fin(d)
    ensures NoIncrease(dist0, dist)
  {
    dist, pq := dist0, pq0;
    var neighbours := Neighbours(g, u);
    var todo := neighbours.Keys;
    ghost var done: set<Node> := {};
    while todo != {}
      invariant todo <= neighbours.Keys && done == neighbours.Keys - todo
      invariant Settling(g, w, start, dist, settled, u, done)
      invariant QueueInv(dist, pq, settled + {u}, d)
      invariant g.adj.Keys <= dist.Keys
      invariant dist[u] == Fin(d)
      invariant NoIncrease(dist0, dist)
      decreases |todo|
    {
      var v :| v in todo;
      dist, pq := RelaxNeighbour(g, w, start, dist0, dist, pq, settled, u, d, done, v);
      todo, done := todo - {v}, done + {v};
    }
    assert done == Neighbours(g, u).Keys;
    EndSettle(g, w, start, dist, settled, u);
  }

  /** Lines 30-41 of run.py after a pop `e` that is not stale: the node is
      settled at the popped distance and its out-edges are relaxed. */
  method SettleNode(g: Graph, ghost w: set<Node>, ghost start: Node, dist0: map<Node, Dist>, pq0: multiset<Entry>,
                    ghost settled0: set<Node>, ghost floor0: nat, e: Entry)
    returns (dist: map<Node, Dist>, pq: multiset<Entry>)
    requires EdgeClosed(g, w)
    requires HeapInv(g, w, start, dist0, pq0, settled0, floor0) && IsMin(e, pq0)
    requires !Get(dist0, e.node).Less(Fin(e.d))
    ensures HeapInv(g, w, start, dist, pq, settled0 + {e.node}, e.d)
    ensures e.node in w && e.node !in settled0 && dist0[e.node] == Fin(e.d)
    ensures NoIncrease(dist0, dist)
  {
    FreshPop(g, w, start, dist0, pq0, settled0, floor0, e);
    dist, pq := RelaxHeap(g, w, start, dist0, pq0 - multiset{e}, settled0, e.node, e.d);
  }

  /** Lines 22 and 27-41 of run.py: pop the least entry `e` (known not to be
      for `end`), drop it if it is stale, otherwise settle its node and relax the
      node's out-edges. Either the node joins the settled set or the frontier
      shrinks. */
  method Expand(g: Graph, ghost w: set<Node>, ghost start: Node, dist0: map<Node, Dist>, pq0: multiset<Entry>,
                ghost settled0: set<Node>, ghost floor0: nat, e: Entry)
    returns (dist: map<Node, Dist>, pq: multiset<Entry>, ghost settled: set<Node>, ghost floor: nat)
    requires EdgeClosed(g, w)
    requires HeapInv(g, w, start, dist0, pq0, settled0, floor0) && IsMin(e, pq0)
    ensures HeapInv(g, w, start, dist, pq, settled, floor)
    ensures Get(dist0, e.node).Less(Fin(e.d)) ==> dist == dist0 && pq == pq0 - multiset{e} && settled == settled0
    ensures !Get(dist0, e.node).Less(Fin(e.d)) ==>
      e.node in w && e.node !in settled0 && settled == settled0 + {e.node} && dist0[e.node] == Fin(e.d)
    ensures NoIncrease(dist0, dist)
    ensures |w - settled| < |w - settled0| || (|w - settled| == |w - settled0| && |pq| < |pq0|)
  {
    if Get(dist0, e.node).Less(Fin(e.d)) {
      // a stale entry: the node was already reached more cheaply
      StalePop(g, w, start, dist0, pq0, settled0, floor0, e);
      dist, pq, settled, floor := dist0, pq0 - multiset{e}, settled0, floor0;
    } else {
      dist, pq := SettleNode(g, w, start, dist0, pq0, settled0, floor0, e);
      settled, floor := settled0 + {e.node}, e.d;
      assert w - settled < w - settled0;
    }
  }
}

/**
 The invariant both Dijkstra engines maintain, stated once over a node
 universe `w` (the nodes an engine may ever assign a distance to) and a set
 `settled` of finalised nodes, together with the three facts the engines are
 built from: a selected minimum is final, relaxing one edge keeps the
 invariant, and an exhausted search has decided every node.
 */
module Settle {
  import opened Graphs

  /** `distances.get(v, inf)`. */
  function Get(dist: map<Node, Dist>, v: Node): (d: Dist)
    ensures d.Fin? ==> v in dist && dist[v] == d
    ensures d == Inf <==> v !in dist || dist[v] == Inf
  {
    if v in dist then dist[v] else Inf
  }

  /** The initial table of both engines: `{node: inf for node in graph}`
      followed by `distances[start] = 0`. */
  function InitDist(g: Graph, start: Node): (dist: map<Node, Dist>)
    ensures dist.Keys == g.adj.Keys + {start}
    ensures dist[start] == Fin(0)
    ensures forall v :: v in dist && v != start ==> dist[v] == Inf
  {
    (map k | k in g.adj :: Inf)[start := Fin(0)]
  }

  /** Every finite tentative distance is the weight of a real path from `start`. */
  ghost predicate Witnessed(g: Graph, w: set<Node>, start: Node, dist: map<Node, Dist>) {
    forall v :: v in dist && dist[v].Fin? ==> PathOfWeightWithin(g, w, start, v, dist[v].value)
  }

  /** Settled nodes carry their shortest distance. */
  ghost predicate Final(g: Graph, w: set<Node>, start: Node, dist: map<Node, Dist>, settled: set<Node>) {
    forall s :: s in settled ==> s in dist && dist[s].Fin? && LowerBoundWithin(g, w, start, s, dist[s].value)
  }

  /** Every edge from `u` to a node of `targets` inside `w` has been relaxed. */
  ghost predicate EdgesRelaxed(g: Graph, w: set<Node>, dist: map<Node, Dist>, u: Node, targets: set<Node>) {
    && u in dist
    && dist[u].Fin?
    && forall v :: v in targets && HasEdge(g, u, v) && v in w ==>
         v in dist && dist[v].Fin? && dist[v].value <= dist[u].value + EdgeW(g, u, v)
  }

  /** The invariant between two selections. */
  ghost predicate Sound(g: Graph, w: set<Node>, start: Node, dist: map<Node, Dist>, settled: set<Node>) {
    && start in w
    && start in dist
    && dist[start] == Fin(0)
    && dist.Keys <= w
    && settled <= w
    && Witnessed(g, w, start, dist)
    && Final(g, w, start, dist, settled)
    && forall s :: s in settled ==> EdgesRelaxed(g, w, dist, s, Neighbours(g, s).Keys)
  }

  /** The invariant while the out-edges of the selected node `u` are relaxed;
      `done` holds the neighbours already handled. */
  ghost predicate Settling(g: Graph, w: set<Node>, start: Node, dist: map<Node, Dist>,
                           settled: set<Node>, u: Node, done: set<Node>)
  {
    && Sound(g, w, start, dist, settled)
    && u in w
    && u !in settled
    && u in dist
    && dist[u].Fin?
    && LowerBoundWithin(g, w, start, u, dist[u].value)
    && EdgesRelaxed(g, w, dist, u, done)
    && forall s :: s in settled ==> s in dist && dist[s].Fin? && dist[s].value <= dist[u].value
  }

  /** The candidate a selection may pick: unsettled, finite, and no larger than
      any other unsettled finite node of `w`. */
  ghost predicate MinUnsettled(w: set<Node>, dist: map<Node, Dist>, settled: set<Node>, u: Node) {
    && u in w
    && u !in settled
    && u in dist
    && dist[u].Fin?
    && forall v :: v in w && v !in settled && v in dist && dist[v].Fin? ==> dist[u].value <= dist[v].value
  }

  lemma FirstUnsettled(p: seq<Node>, settled: set<Node>) returns (i: nat)
    requires |p| > 0 && p[|p| - 1] !in settled
    ensures i < |p| && p[i] !in settled
    ensures forall j :: 0 <= j < i ==> p[j] in settled
  {
    i := 0;
    while p[i] in settled
      invariant i < |p|
      invariant forall j :: 0 <= j < i ==> p[j] in settled
      decreases |p| - i
    {
      i := i + 1;
    }
  }

  /** Where a path from `start` first leaves the settled set, the node it enters
      has been relaxed from its settled predecessor. */
  lemma Crossing(g: Graph, w: set<Node>, start: Node, dist: map<Node, Dist>, settled: set<Node>,
                 p: seq<Node>, t: Node, i: nat)
    requires Sound(g, w, start, dist, settled)
    requires WPath(g, w, p, start, t) && 0 < i < |p| && p[i - 1] in settled
    ensures p[i] in dist && dist[p[i]].Fin? && dist[p[i]].value <= Weight(g, p[..i + 1])
  {
    var x, y := p[i - 1], p[i];
    PrefixPath(g, w, p, start, t, i);
    assert dist[x].value <= Weight(g, p[..i]);
    assert EdgeAt(g, p, i - 1);
    assert EdgesRelaxed(g, w, dist, x, Neighbours(g, x).Keys);
    assert p[..i + 1] == p[..i] + [y];
    WeightAppend(g, p[..i], y);
  }

  /** No path to a minimal unsettled node is shorter than its tentative distance. */
  lemma PathBound(g: Graph, w: set<Node>, start: Node, dist: map<Node, Dist>, settled: set<Node>, u: Node, p: seq<Node>)
    requires Sound(g, w, start, dist, settled)
    requires MinUnsettled(w, dist, settled, u)
    requires WPath(g, w, p, start, u)
    ensures dist[u].value <= Weight(g, p)
  {
    var i := FirstUnsettled(p, settled);
    if i > 0 {
      Crossing(g, w, start, dist, settled, p, u, i);
      PrefixWeight(g, p, i + 1);
    }
  }

  /** The heart of Dijkstra's algorithm: a minimal unsettled tentative distance
      is already the shortest distance. */
  lemma SelectIsFinal(g: Graph, w: set<Node>, start: Node, dist: map<Node, Dist>, settled: set<Node>, u: Node)
    requires Sound(g, w, start, dist, settled)
    requires MinUnsettled(w, dist, settled, u)
    ensures LowerBoundWithin(g, w, start, u, dist[u].value)
  {
    forall p | WPath(g, w, p, start, u)
      ensures dist[u].value <= Weight(g, p)
    {
      PathBound(g, w, start, dist, settled, u, p);
    }
  }

  /** Selecting `u` opens its settling phase. */
  lemma BeginSettle(g: Graph, w: set<Node>, start: Node, dist: map<Node, Dist>, settled: set<Node>, u: Node)
    requires Sound(g, w, start, dist, settled)
    requires MinUnsettled(w, dist, settled, u)
    requires forall s :: s in settled ==> s in dist && dist[s].Fin? && dist[s].value <= dist[u].value
    ensures Settling(g, w, start, dist, settled, u, {})
  {
    SelectIsFinal(g, w, start, dist, settled, u);
  }

  /** A strict improvement never reaches a settled node or `u` itself. */
  lemma ImproveUnsettled(g: Graph, w: set<Node>, start: Node, dist: map<Node, Dist>,
                         settled: set<Node>, u: Node, done: set<Node>, v: Node, nd: nat)
    requires Settling(g, w, start, dist, settled, u, done)
    requires nd == dist[u].value + EdgeW(g, u, v) && Fin(nd).Less(Get(dist, v))
    ensures v !in settled && v != u
  {
  }

  /** Relaxing the edge `u -> v` with a strict improvement to `nd` keeps the invariant. */
  lemma RelaxImprove(g: Graph, w: set<Node>, start: Node, dist: map<Node, Dist>,
                     settled: set<Node>, u: Node, done: set<Node>, v: Node, nd: nat)
    requires Settling(g, w, start, dist, settled, u, done)
    requires HasEdge(g, u, v) && v in w && v !in settled && v != u
    requires nd == dist[u].value + EdgeW(g, u, v) && Fin(nd).Less(Get(dist, v))
    ensures Settling(g, w, start, dist[v := Fin(nd)], settled, u, done + {v})
  {
    var dist' := dist[v := Fin(nd)];
    assert v != start;
    forall x | x in dist' && dist'[x].Fin?
      ensures PathOfWeightWithin(g, w, start, x, dist'[x].value)
    {
      if x == v {
        var p :| WPath(g, w, p, start, u) && Weight(g, p) == dist[u].value;
        ExtendPath(g, w, p, start, u, v);
        assert WPath(g, w, p + [v], start, v) && Weight(g, p + [v]) == nd;
      }
    }
    forall s | s in settled
      ensures EdgesRelaxed(g, w, dist', s, Neighbours(g, s).Keys)
    {
      assert EdgesRelaxed(g, w, dist, s, Neighbours(g, s).Keys);
    }
  }

  /** Relaxing an edge that brings no improvement (or leaves `w`) changes nothing. */
  lemma RelaxKeep(g: Graph, w: set<Node>, start: Node, dist: map<Node, Dist>,
                  settled: set<Node>, u: Node, done: set<Node>, v: Node)
    requires Settling(g, w, start, dist, settled, u, done)
    requires v !in w || (v in dist && dist[v].Fin? && dist[v].value <= dist[u].value + EdgeW(g, u, v))
    ensures Settling(g, w, start, dist, settled, u, done + {v})
  {
  }

  /** Once every out-edge of `u` is relaxed, `u` joins the settled set. */
  lemma EndSettle(g: Graph, w: set<Node>, start: Node, dist: map<Node, Dist>, settled: set<Node>, u: Node)
    requires Settling(g, w, start, dist, settled, u, Neighbours(g, u).Keys)
    ensures Sound(g, w, start, dist, settled + {u})
  {
  }

  /** When no unsettled node has a finite distance, every path from `start`
      inside `w` runs through settled nodes only. */
  lemma AllSettledAlong(g: Graph, w: set<Node>, start: Node, dist: map<Node, Dist>,
                        settled: set<Node>, p: seq<Node>, t: Node)
    requires Sound(g, w, start, dist, settled)
    requires forall v :: v in dist && v !in settled ==> dist[v].Inf?
    requires WPath(g, w, p, start, t)
    ensures forall i :: 0 <= i < |p| ==> p[i] in settled
  {
    var i := 0;
    while i < |p|
      invariant i <= |p|
      invariant forall j :: 0 <= j < i ==> p[j] in settled
    {
      if i > 0 {
        var x := p[i - 1];
        assert EdgesRelaxed(g, w, dist, x, Neighbours(g, x).Keys);
        assert EdgeAt(g, p, i - 1);
      }
      i := i + 1;
    }
  }

  /** An exhausted search has decided every target. */
  lemma Exhausted(g: Graph, w: set<Node>, start: Node, dist: map<Node, Dist>, settled: set<Node>, t: Node)
    requires Sound(g, w, start, dist, settled)
    requires forall v :: v in dist && v !in settled ==> dist[v].Inf?
    ensures ShortestWithin(g, w, start, t, Get(dist, t))
  {
    if Get(dist, t).Inf? {
      if p :| WPath(g, w, p, start, t) {
        AllSettledAlong(g, w, start, dist, settled, p, t);
      }
    } else {
      assert t in settled;
    }
  }

  /** An exhausted search has settled exactly the nodes reachable inside `w`. */
  lemma ExhaustedSettledAll(g: Graph, w: set<Node>, start: Node, dist: map<Node, Dist>, settled: set<Node>)
    requires Sound(g, w, start, dist, settled)
    requires forall v :: v in dist && v !in settled ==> dist[v].Inf?
    ensures settled == ReachSetWithin(g, w, start)
  {
    forall v | v in ReachSetWithin(g, w, start)
      ensures v in settled
    {
      var p :| WPath(g, w, p, start, v);
      AllSettledAlong(g, w, start, dist, settled, p, v);
      assert p[|p| - 1] in settled;
    }
    forall v | v in settled
      ensures v in ReachSetWithin(g, w, start)
    {
      assert PathOfWeightWithin(g, w, start, v, dist[v].value);
    }
  }

  /** Settled nodes are reachable, so a search settles at most the reachable set. */
  lemma SettledReachable(g: Graph, w: set<Node>, start: Node, dist: map<Node, Dist>, settled: set<Node>)
    requires Sound(g, w, start, dist, settled)
    ensures settled <= ReachSetWithin(g, w, start)
    ensures |settled| <= |ReachSetWithin(g, w, start)|
  {
    forall v | v in settled
      ensures v in ReachSetWithin(g, w, start)
    {
      assert PathOfWeightWithin(g, w, start, v, dist[v].value);
    }
    SubsetCard(settled, ReachSetWithin(g, w, start));
  }

  lemma {:induction false} SubsetCard<T>(a: set<T>, b: set<T>)
    requires a <= b
    ensures |a| <= |b|
    decreases |a|
  {
    if a != {} {
      var x :| x in a;
      SubsetCard(a - {x}, b - {x});
    }
  }

  /** The neighbour loops take their nodes from a worklist `todo`; `done`
      holds the keys already handled. Taking `v` keeps the two complementary. */
  lemma WorklistTake<T>(keys: set<T>, todo: set<T>, done: set<T>, v: T)
    requires todo <= keys && done == keys - todo && v in todo
    ensures todo - {v} <= keys && done + {v} == keys - (todo - {v})
  {
  }

  /** An empty worklist means every key was handled. */
  lemma WorklistEmpty<T>(keys: set<T>, todo: set<T>, done: set<T>)
    requires todo <= keys && done == keys - todo && todo == {}
    ensures done == keys
  {
  }

  /** The answer returned when the selected node is the target. */
  lemma SelectedAnswer(g: Graph, w: set<Node>, start: Node, dist: map<Node, Dist>, settled: set<Node>, u: Node)
    requires Sound(g, w, start, dist, settled)
    requires MinUnsettled(w, dist, settled, u)
    ensures ShortestWithin(g, w, start, u, dist[u])
  {
    SelectIsFinal(g, w, start, dist, settled, u);
  }

  /** Relaxation only ever lowers recorded distances, never forgets a node, and
      enters a new node only with a finite distance. */
  ghost predicate NoIncrease(before: map<Node, Dist>, after: map<Node, Dist>) {
    && (forall v :: v in before ==> v in after && after[v].AtMost(before[v]))
    && (forall v :: v in after && v !in before ==> after[v].Fin?)
  }

  /** Lowering one entry keeps a table no higher than an earlier one. */
  lemma NoIncreaseLower(before: map<Node, Dist>, dist: map<Node, Dist>, v: Node, nd: nat)
    requires NoIncrease(before, dist) && Fin(nd).Less(Get(dist, v))
    ensures NoIncrease(before, dist[v := Fin(nd)])
  {
  }

  /** `start` is always reachable from itself. */
  lemma StartReached(g: Graph, w: set<Node>, start: Node)
    requires start in w
    ensures start in ReachSetWithin(g, w, start) && |ReachSetWithin(g, w, start)| >= 1
  {
    assert WPath(g, w, [start], start, start);
  }

  /** Selecting one more reachable node keeps the number selected within the
      reachable set. */
  lemma CountWithinReach(g: Graph, w: set<Node>, start: Node, dist: map<Node, Dist>, settled: set<Node>, u: Node)
    requires Sound(g, w, start, dist, settled)
    requires u in w && u !in settled && ReachableWithin(g, w, start, u)
    ensures |settled + {u}| == |settled| + 1 <= |ReachSetWithin(g, w, start)|
  {
    SettledReachable(g, w, start, dist, settled);
    SubsetCard(settled + {u}, ReachSetWithin(g, w, start));
  }

  /** What an instrumented search promises: the answer restricted to `w`, and a
      count of selected nodes that lies between 1 and the number of nodes
      reachable inside `w`, reaches that number when the answer is infinite,
      and is 1 when `start` is the target. */
  ghost predicate CountOutcome(g: Graph, w: set<Node>, start: Node, end: Node, r: Dist, count: nat) {
    && ShortestWithin(g, w, start, end, r)
    && 1 <= count <= |ReachSetWithin(g, w, start)|
    && (r.Inf? ==> count == |ReachSetWithin(g, w, start)|)
    && (start == end ==> count == 1)
  }
}

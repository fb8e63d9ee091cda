/**
 The predecessor table of `get_dijkstra_path` and the walk back along it.
 Only the entries the search sets are kept: an absent node reads as `None`,
 exactly as `predecessors.get` reads both a missing key and the initial
 `None` entries of the graph's keys.
 */
module Trace {
  import opened Graphs

  /** The position of `v` in settling order; nodes not settled yet come last. */
  ghost function Rank(rank: map<Node, nat>, bound: nat, v: Node): nat {
    if v in rank then rank[v] else bound
  }

  /** How the predecessor table relates to the distance table. `parents` are
      the settled nodes (and the one being settled), numbered by `rank` in
      settling order: every predecessor is a parent settled before its node,
      joined to it by an edge that accounts exactly for the distance, and
      every finite node other than `start` has a predecessor. */
  ghost predicate PredInv(g: Graph, start: Node, dist: map<Node, Dist>, pred: map<Node, Node>,
                          parents: set<Node>, rank: map<Node, nat>) {
    && start in dist && dist[start] == Fin(0)
    && start !in pred
    && rank.Keys == parents
    && (forall s :: s in rank ==> rank[s] < |parents|)
    && (forall v :: v in dist && dist[v].Fin? && v != start ==> v in pred)
    && (forall v :: v in pred ==> Linked(g, dist, pred[v], v) && pred[v] in parents)
    && (forall v :: v in pred && v in rank ==> pred[v] in rank && rank[pred[v]] < rank[v])
  }

  /** `u` is a correct predecessor of `v`: an edge `u -> v` whose weight is the
      difference of their finite distances. */
  ghost predicate Linked(g: Graph, dist: map<Node, Dist>, u: Node, v: Node) {
    && HasEdge(g, u, v)
    && u in dist && dist[u].Fin?
    && v in dist && dist[v].Fin?
    && dist[v].value == dist[u].value + EdgeW(g, u, v)
  }

  lemma PredInit(g: Graph, start: Node, dist: map<Node, Dist>)
    requires start in dist && dist[start] == Fin(0)
    requires forall v :: v in dist && v != start ==> dist[v] == Inf
    ensures PredInv(g, start, dist, map[], {}, map[])
  {
  }

  /** Settling `u` gives it the next rank. */
  lemma PredSettle(g: Graph, start: Node, dist: map<Node, Dist>, pred: map<Node, Node>,
                   parents: set<Node>, rank: map<Node, nat>, u: Node)
    requires PredInv(g, start, dist, pred, parents, rank) && u !in parents
    ensures PredInv(g, start, dist, pred, parents + {u}, rank[u := |parents|])
  {
    var rank' := rank[u := |parents|];
    forall v | v in pred && v in rank'
      ensures pred[v] in rank' && rank'[pred[v]] < rank'[v]
    {
      assert pred[v] in parents;
    }
  }

  /** Lowering `v` to `nd` through the parent `u` and recording `u` as its
      predecessor keeps the table consistent. */
  lemma PredImprove(g: Graph, start: Node, dist: map<Node, Dist>, pred: map<Node, Node>,
                    parents: set<Node>, rank: map<Node, nat>, u: Node, v: Node, nd: nat)
    requires PredInv(g, start, dist, pred, parents, rank)
    requires u in parents && u in dist && dist[u].Fin? && v !in parents && v != start
    requires HasEdge(g, u, v) && nd == dist[u].value + EdgeW(g, u, v)
    ensures PredInv(g, start, dist[v := Fin(nd)], pred[v := u], parents, rank)
  {
    var dist', pred' := dist[v := Fin(nd)], pred[v := u];
    forall x | x in pred'
      ensures Linked(g, dist', pred'[x], x) && pred'[x] in parents
    {
      if x != v {
        assert Linked(g, dist, pred[x], x);
        assert pred[x] != v;
      }
    }
  }

  /** `path[::-1]`. */
  function Reverse(s: seq<Node>): (r: seq<Node>)
    ensures |r| == |s|
    ensures forall i :: 0 <= i < |s| ==> r[i] == s[|s| - 1 - i]
  {
    if |s| == 0 then [] else Reverse(s[1..]) + [s[0]]
  }

  /** `p` follows the predecessor table backwards from its last node to a
      node without a predecessor. */
  ghost predicate Chain(pred: map<Node, Node>, p: seq<Node>) {
    && |p| > 0
    && p[0] !in pred
    && forall i :: 0 < i < |p| ==> p[i] in pred && pred[p[i]] == p[i - 1]
  }

  /** Lines 45-56 of visualize_route.py: walk from `end` through the
      predecessors until one is `None`, then reverse. `rank` and `bound` are
      the settling order that makes the walk finite. */
  method Backtrack(pred: map<Node, Node>, end: Node, ghost rank: map<Node, nat>, ghost bound: nat)
    returns (path: seq<Node>)
    requires forall v :: v in pred ==> pred[v] in rank && rank[pred[v]] < Rank(rank, bound, v)
    ensures Chain(pred, path) && path[|path| - 1] == end
    ensures end !in pred ==> path == [end]
  {
    var trail: seq<Node> := [];
    var curr: Option<Node> := Some(end);
    while curr.Some?
      invariant curr.Some? ==> (trail == [] ==> curr.value == end)
      invariant trail != [] ==> trail[0] == end
      invariant trail != [] && curr.Some? ==> trail[|trail| - 1] in pred && pred[trail[|trail| - 1]] == curr.value
      invariant curr.None? ==> trail != [] && trail[|trail| - 1] !in pred
      invariant forall i :: 0 <= i < |trail| - 1 ==> trail[i] in pred && pred[trail[i]] == trail[i + 1]
      decreases if curr.Some? then Rank(rank, bound, curr.value) + 1 else 0
    {
      trail := trail + [curr.value];
      curr := if curr.value in pred then Some(pred[curr.value]) else None;
    }
    path := Reverse(trail);
    forall i | 0 < i < |path|
      ensures path[i] in pred && pred[path[i]] == path[i - 1]
    {
      assert path[i] == trail[|trail| - 1 - i] && path[i - 1] == trail[|trail| - 1 - i + 1];
    }
  }

  /** A chain ending at a finite node is a path from `start` whose weight is
      that node's distance. */
  lemma {:induction false} ChainPath(g: Graph, start: Node, dist: map<Node, Dist>, pred: map<Node, Node>,
                                     parents: set<Node>, rank: map<Node, nat>, p: seq<Node>)
    requires PredInv(g, start, dist, pred, parents, rank)
    requires Chain(pred, p)
    requires p[|p| - 1] in dist && dist[p[|p| - 1]].Fin?
    ensures PathFromTo(g, p, start, p[|p| - 1])
    ensures Weight(g, p) == dist[p[|p| - 1]].value
    decreases |p|
  {
    var v := p[|p| - 1];
    if |p| > 1 {
      var q := p[..|p| - 1];
      var u := q[|q| - 1];
      assert pred[v] == u;
      assert Linked(g, dist, u, v);
      ChainPath(g, start, dist, pred, parents, rank, q);
      assert p == q + [v];
      WeightAppend(g, q, v);
      forall i | 0 <= i < |p| - 1
        ensures EdgeAt(g, p, i)
      {
        if i < |q| - 1 {
          assert EdgeAt(g, q, i);
        }
      }
    }
  }
}

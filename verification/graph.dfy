/**
 The graph model shared by every engine: an adjacency dictionary from node
 identifier to a dictionary of (neighbour -> non-negative weight), tentative
 distances with an explicit infinity, and the path-based specification of a
 shortest distance that the engines are proved against.
 */
module Graphs {

  /** Node identifiers are strings (the instances' JSON keys). */
  type Node = string

  /** A tentative distance: a finite path weight, or infinity. */
  datatype Dist = Inf | Fin(value: nat) {

    /** The strict `<` of the source, with infinity above every finite value. */
    predicate Less(other: Dist) {
      match this
      case Inf => false
      case Fin(a) => other.Inf? || a < other.value
    }

    /** `this <= other`. */
    predicate AtMost(other: Dist) {
      !other.Less(this)
    }
  }

  /** A value that may be absent (Python's `None`). */
  datatype Option<T> = None | Some(value: T)

  /** An adjacency dictionary. `order` is the insertion order of the outer keys,
      which the scan-based engine and the sub-graph cropper depend on; the inner
      dictionaries are kept as maps because their order is never observable. */
  datatype Graph = Graph(order: seq<Node>, adj: map<Node, map<Node, nat>>)

  predicate Distinct<T(==)>(s: seq<T>) {
    forall i, j :: 0 <= i < j < |s| ==> s[i] != s[j]
  }

  /** A dictionary lists each of its keys exactly once. */
  ghost predicate Valid(g: Graph) {
    && Distinct(g.order)
    && (forall v :: v in g.order <==> v in g.adj)
  }

  /** `graph.get(u, {})`: unknown nodes have no outgoing edges. */
  function Neighbours(g: Graph, u: Node): (out: map<Node, nat>)
    ensures u !in g.adj ==> out == map[]
    ensures u in g.adj ==> out == g.adj[u]
    ensures Closed(g) ==> out.Keys <= g.adj.Keys
  {
    if u in g.adj then g.adj[u] else map[]
  }

  predicate HasEdge(g: Graph, u: Node, v: Node) {
    v in Neighbours(g, u)
  }

  function EdgeW(g: Graph, u: Node, v: Node): nat {
    if HasEdge(g, u, v) then Neighbours(g, u)[v] else 0
  }

  /** Every neighbour is itself a key: nothing is reachable only as a destination. */
  ghost predicate Closed(g: Graph) {
    forall u, v :: u in g.adj && v in g.adj[u] ==> v in g.adj
  }

  /** Every node a search from `s` can ever name: the keys, the edge targets and `s`. */
  ghost function Universe(g: Graph, s: Node): set<Node> {
    g.adj.Keys + (set u, v | u in g.adj && v in g.adj[u] :: v) + {s}
  }

  // ---------------------------------------------------------------- paths

  /** Step `i` of `p` follows an edge. */
  ghost predicate EdgeAt(g: Graph, p: seq<Node>, i: int) {
    0 <= i < |p| - 1 && HasEdge(g, p[i], p[i + 1])
  }

  ghost predicate PathFromTo(g: Graph, p: seq<Node>, s: Node, t: Node) {
    && |p| > 0
    && p[0] == s
    && p[|p| - 1] == t
    && forall i :: 0 <= i < |p| - 1 ==> EdgeAt(g, p, i)
  }

  ghost predicate Within(p: seq<Node>, w: set<Node>) {
    forall i :: 0 <= i < |p| ==> p[i] in w
  }

  /** A path from `s` to `t` that only visits nodes of `w`. */
  ghost predicate WPath(g: Graph, w: set<Node>, p: seq<Node>, s: Node, t: Node) {
    PathFromTo(g, p, s, t) && Within(p, w)
  }

  /** The sum of the edge weights along `p`. */
  function Weight(g: Graph, p: seq<Node>): nat
    decreases |p|
  {
    if |p| <= 1 then 0
    else Weight(g, p[..|p| - 1]) + EdgeW(g, p[|p| - 2], p[|p| - 1])
  }

  ghost predicate Reachable(g: Graph, s: Node, t: Node) {
    exists p :: PathFromTo(g, p, s, t)
  }

  ghost predicate ReachableWithin(g: Graph, w: set<Node>, s: Node, t: Node) {
    exists p :: WPath(g, w, p, s, t)
  }

  ghost predicate PathOfWeightWithin(g: Graph, w: set<Node>, s: Node, t: Node, d: nat) {
    exists p :: WPath(g, w, p, s, t) && Weight(g, p) == d
  }

  ghost predicate LowerBoundWithin(g: Graph, w: set<Node>, s: Node, t: Node, d: nat) {
    forall p :: WPath(g, w, p, s, t) ==> d <= Weight(g, p)
  }

  /** `r` is the least weight of a path from `s` to `t` inside `w`, or infinity
      exactly when there is no such path. */
  ghost predicate ShortestWithin(g: Graph, w: set<Node>, s: Node, t: Node, r: Dist) {
    match r
    case Inf => !ReachableWithin(g, w, s, t)
    case Fin(d) => PathOfWeightWithin(g, w, s, t, d) && LowerBoundWithin(g, w, s, t, d)
  }

  /** `r` is the shortest-path distance from `s` to `t`, infinity when unreachable. */
  ghost predicate Shortest(g: Graph, s: Node, t: Node, r: Dist) {
    match r
    case Inf => !Reachable(g, s, t)
    case Fin(d) =>
      && (exists p :: PathFromTo(g, p, s, t) && Weight(g, p) == d)
      && (forall p :: PathFromTo(g, p, s, t) ==> d <= Weight(g, p))
  }

  /** The nodes reachable from `s` inside `w` (`s` itself when `s` is in `w`). */
  ghost function ReachSetWithin(g: Graph, w: set<Node>, s: Node): set<Node> {
    set v | v in w && ReachableWithin(g, w, s, v)
  }

  /** The nodes reachable from `s`. */
  ghost function ReachSet(g: Graph, s: Node): set<Node> {
    set v | v in Universe(g, s) && Reachable(g, s, v)
  }

  // ---------------------------------------------------------------- lemmas

  lemma NeighbourInUniverse(g: Graph, s: Node, u: Node, v: Node)
    requires HasEdge(g, u, v)
    ensures v in Universe(g, s)
  {
    assert u in g.adj && v in g.adj[u];
  }

  /** Every edge target lies in `w`. */
  ghost predicate EdgeClosed(g: Graph, w: set<Node>) {
    forall u, v :: HasEdge(g, u, v) ==> v in w
  }

  lemma UniverseEdgeClosed(g: Graph, s: Node)
    ensures EdgeClosed(g, Universe(g, s))
  {
    forall u, v | HasEdge(g, u, v)
      ensures v in Universe(g, s)
    {
      NeighbourInUniverse(g, s, u, v);
    }
  }

  /** A search from `s` never leaves the universe of `s`. */
  lemma PathWithinUniverse(g: Graph, p: seq<Node>, s: Node, t: Node)
    requires PathFromTo(g, p, s, t)
    ensures Within(p, Universe(g, s))
  {
    forall i | 0 <= i < |p|
      ensures p[i] in Universe(g, s)
    {
      if i > 0 {
        assert EdgeAt(g, p, i - 1);
        NeighbourInUniverse(g, s, p[i - 1], p[i]);
      }
    }
  }

  /** Restricting paths to the universe of `s` restricts nothing. */
  lemma ShortestFromUniverse(g: Graph, s: Node, t: Node, r: Dist)
    requires ShortestWithin(g, Universe(g, s), s, t, r)
    ensures Shortest(g, s, t, r)
  {
    forall p | PathFromTo(g, p, s, t)
      ensures WPath(g, Universe(g, s), p, s, t)
    {
      PathWithinUniverse(g, p, s, t);
    }
  }

  /** In a closed graph the universe of `s` is the keys plus `s`. */
  lemma ClosedUniverse(g: Graph, s: Node)
    requires Closed(g)
    ensures Universe(g, s) == g.adj.Keys + {s}
  {
  }

  lemma ReachSetFromUniverse(g: Graph, s: Node)
    ensures ReachSetWithin(g, Universe(g, s), s) == ReachSet(g, s)
  {
    forall v | v in ReachSet(g, s)
      ensures v in ReachSetWithin(g, Universe(g, s), s)
    {
      var p :| PathFromTo(g, p, s, v);
      PathWithinUniverse(g, p, s, v);
      assert WPath(g, Universe(g, s), p, s, v);
    }
  }

  /** The shortest distance is unique: two engines meeting the specification agree. */
  lemma ShortestUnique(g: Graph, s: Node, t: Node, r1: Dist, r2: Dist)
    requires Shortest(g, s, t, r1) && Shortest(g, s, t, r2)
    ensures r1 == r2
  {
    if r1.Fin? && r2.Fin? {
      var p1 :| PathFromTo(g, p1, s, t) && Weight(g, p1) == r1.value;
      var p2 :| PathFromTo(g, p2, s, t) && Weight(g, p2) == r2.value;
      assert r1.value <= r2.value && r2.value <= r1.value;
    }
  }

  lemma WeightAppend(g: Graph, p: seq<Node>, v: Node)
    requires |p| > 0
    ensures Weight(g, p + [v]) == Weight(g, p) + EdgeW(g, p[|p| - 1], v)
  {
    assert (p + [v])[..|p|] == p;
  }

  lemma {:induction false} WeightPrepend(g: Graph, u: Node, q: seq<Node>)
    requires |q| > 0
    ensures Weight(g, [u] + q) == EdgeW(g, u, q[0]) + Weight(g, q)
    decreases |q|
  {
    if |q| == 1 {
      assert [u] + q == [u, q[0]];
      assert ([u] + q)[..1] == [u];
    } else {
      var q' := q[..|q| - 1];
      assert ([u] + q)[..|q|] == [u] + q';
      WeightPrepend(g, u, q');
      assert q'[0] == q[0];
    }
  }

  /** Edge weights are non-negative, so a prefix never weighs more than the path. */
  lemma {:induction false} PrefixWeight(g: Graph, p: seq<Node>, k: nat)
    requires 1 <= k <= |p|
    ensures Weight(g, p[..k]) <= Weight(g, p)
    decreases |p| - k
  {
    if k < |p| {
      PrefixWeight(g, p[..|p| - 1], k);
      assert p[..|p| - 1][..k] == p[..k];
    } else {
      assert p[..k] == p;
    }
  }

  /** A path prefix is a path. */
  lemma PrefixPath(g: Graph, w: set<Node>, p: seq<Node>, s: Node, t: Node, k: nat)
    requires WPath(g, w, p, s, t) && 1 <= k <= |p|
    ensures WPath(g, w, p[..k], s, p[k - 1])
  {
    forall i | 0 <= i < k - 1
      ensures EdgeAt(g, p[..k], i)
    {
      assert EdgeAt(g, p, i);
    }
  }

  /** Extending a path by one edge. */
  lemma ExtendPath(g: Graph, w: set<Node>, p: seq<Node>, s: Node, u: Node, v: Node)
    requires WPath(g, w, p, s, u) && HasEdge(g, u, v) && v in w
    ensures WPath(g, w, p + [v], s, v)
    ensures Weight(g, p + [v]) == Weight(g, p) + EdgeW(g, u, v)
  {
    WeightAppend(g, p, v);
    forall i | 0 <= i < |p|
      ensures EdgeAt(g, p + [v], i)
    {
      if i < |p| - 1 {
        assert EdgeAt(g, p, i);
      }
    }
  }

  /** A node is at distance zero from itself. */
  lemma ShortestSelf(g: Graph, s: Node, r: Dist)
    requires Shortest(g, s, s, r)
    ensures r == Fin(0)
  {
    assert PathFromTo(g, [s], s, s) && Weight(g, [s]) == 0;
  }

  /** The specification's answer is infinite exactly when the target is unreachable. */
  lemma ShortestInfIff(g: Graph, s: Node, t: Node, r: Dist)
    requires Shortest(g, s, t, r)
    ensures r.Inf? <==> !Reachable(g, s, t)
  {
  }

  /** A path can only pass through keys before its last node: every step leaves a key. */
  lemma PathInKeys(g: Graph, p: seq<Node>, s: Node, t: Node)
    requires PathFromTo(g, p, s, t) && (t in g.adj || t == s)
    ensures Within(p, g.adj.Keys + {s})
  {
    forall i | 0 <= i < |p|
      ensures p[i] in g.adj.Keys + {s}
    {
      if i < |p| - 1 {
        assert EdgeAt(g, p, i);
      }
    }
  }

  /** Restricting paths to the keys and `s` restricts nothing for a target among them. */
  lemma ShortestFromKeys(g: Graph, s: Node, t: Node, r: Dist)
    requires ShortestWithin(g, g.adj.Keys + {s}, s, t, r) && (t in g.adj || t == s)
    ensures Shortest(g, s, t, r)
  {
    forall p | PathFromTo(g, p, s, t)
      ensures WPath(g, g.adj.Keys + {s}, p, s, t)
    {
      PathInKeys(g, p, s, t);
    }
  }

  /** No path inside `w` ends outside `w`. */
  lemma OutsideInf(g: Graph, w: set<Node>, s: Node, t: Node, r: Dist)
    requires ShortestWithin(g, w, s, t, r) && t !in w
    ensures r == Inf
  {
  }

  /** In a closed graph every node reachable from `s` other than `s` is a key. */
  lemma ClosedReach(g: Graph, s: Node, t: Node)
    requires Closed(g) && Reachable(g, s, t) && t != s
    ensures t in g.adj
  {
    var p :| PathFromTo(g, p, s, t);
    assert EdgeAt(g, p, |p| - 2);
  }

  /** Two graphs with the same edge weights between the nodes of `w` give a
      path inside `w` the same weight. */
  lemma {:induction false} WeightAgree(g1: Graph, g2: Graph, w: set<Node>, p: seq<Node>)
    requires Within(p, w)
    requires forall u, v :: u in w && v in w ==> EdgeW(g1, u, v) == EdgeW(g2, u, v)
    ensures Weight(g1, p) == Weight(g2, p)
    decreases |p|
  {
    if |p| > 1 {
      WeightAgree(g1, g2, w, p[..|p| - 1]);
      assert p[|p| - 2] in w && p[|p| - 1] in w;
    }
  }

  /** In a closed graph, searching the keys and `s` reaches everything. */
  lemma ReachSetFromKeys(g: Graph, s: Node)
    requires Closed(g)
    ensures ReachSetWithin(g, g.adj.Keys + {s}, s) == ReachSet(g, s)
  {
    ClosedUniverse(g, s);
    ReachSetFromUniverse(g, s);
  }
}

/**
 The linear-scan engine's state: the distance table and the `unvisited`
 dictionary, whose keys keep their insertion order (the scan breaks ties by
 it). Both dictionaries are always written together, so `unvisited` is
 modelled as the ordered sequence of its keys and its values are read from
 the distance table. The search universe is `w`: the graph's keys and `start`.
 */
module Scan {
  import opened Graphs
  import opened Settle

  /** `{node: inf for node in nodes}` followed by `unvisited[start] = 0`: the
      keys in order, then `start` when it is not a key. */
  function InitUnvisited(g: Graph, start: Node): (unvisited: seq<Node>)
    requires Valid(g)
    ensures Distinct(unvisited)
    ensures forall v :: v in unvisited <==> v in g.adj || v == start
    ensures |unvisited| > 0 && (start in g.adj ==> unvisited == g.order)
    ensures |g.order| <= |unvisited| && unvisited[..|g.order|] == g.order
    ensures start !in g.adj ==> |unvisited| == |g.order| + 1 && unvisited[|g.order|] == start
  {
    if start in g.adj then g.order else g.order + [start]
  }

  /** Position `i` holds the value the scan selects: the first strict minimum,
      which must be finite. */
  predicate FirstMin(dist: map<Node, Dist>, unvisited: seq<Node>, i: int)
    requires forall v :: v in unvisited ==> v in dist
  {
    && 0 <= i < |unvisited|
    && dist[unvisited[i]].Fin?
    && (forall j :: 0 <= j < i ==> dist[unvisited[i]].Less(dist[unvisited[j]]))
    && (forall j :: i < j < |unvisited| ==> dist[unvisited[i]].AtMost(dist[unvisited[j]]))
  }

  /** The scan's choice is determined: at most one position is the first strict minimum. */
  lemma FirstMinUnique(dist: map<Node, Dist>, unvisited: seq<Node>, i: int, k: int)
    requires forall v :: v in unvisited ==> v in dist
    requires FirstMin(dist, unvisited, i) && FirstMin(dist, unvisited, k)
    ensures i == k
  {
  }

  /** Lines 65-71 of run.py: one pass over `unvisited` keeping the first entry
      strictly below the running minimum, which starts at infinity. */
  method ScanMin(dist: map<Node, Dist>, unvisited: seq<Node>) returns (current: Option<Node>, ghost at: nat)
    requires forall v :: v in unvisited ==> v in dist
    ensures current.None? <==> forall j :: 0 <= j < |unvisited| ==> dist[unvisited[j]].Inf?
    ensures current.Some? ==> FirstMin(dist, unvisited, at) && current.value == unvisited[at]
  {
    current, at := None, 0;
    var minVal := Inf;
    var k := 0;
    while k < |unvisited|
      invariant k <= |unvisited|
      invariant current.None? ==> minVal == Inf && forall j :: 0 <= j < k ==> dist[unvisited[j]].Inf?
      invariant current.Some? ==>
        && at < k && current.value == unvisited[at] && minVal == dist[unvisited[at]] && minVal.Fin?
        && (forall j :: 0 <= j < at ==> minVal.Less(dist[unvisited[j]]))
        && (forall j :: at < j < k ==> minVal.AtMost(dist[unvisited[j]]))
    {
      var node := unvisited[k];
      if dist[node].Less(minVal) {
        minVal := dist[node];
        current, at := Some(node), k;
      }
      k := k + 1;
    }
  }

  /** `del unvisited[x]`: `x` leaves, the others keep their order. */
  function Remove(s: seq<Node>, x: Node): (r: seq<Node>)
    ensures forall v :: v in r <==> v in s && v != x
    ensures Distinct(s) ==> Distinct(r)
    ensures x in s ==> |r| < |s|
    ensures |r| <= |s|
  {
    if |s| == 0 then []
    else if s[0] == x then Remove(s[1..], x)
    else
      var rest := Remove(s[1..], x);
      assert Distinct(s) ==> Distinct(s[1..]) && s[0] !in rest;
      [s[0]] + rest
  }

  /** Removing a listed key splices it out at its position. */
  lemma {:induction false} RemoveAt(s: seq<Node>, i: nat)
    requires Distinct(s) && i < |s|
    ensures Remove(s, s[i]) == s[..i] + s[i + 1..]
  {
    if i == 0 {
      RemoveAbsent(s[1..], s[0]);
    } else {
      RemoveAt(s[1..], i - 1);
      assert s[1..][..i - 1] == s[1..i];
      assert s[1..][i..] == s[i + 1..];
      assert [s[0]] + s[1..i] == s[..i];
    }
  }

  lemma {:induction false} RemoveAbsent(s: seq<Node>, x: Node)
    requires x !in s
    ensures Remove(s, x) == s
  {
    if |s| > 0 {
      RemoveAbsent(s[1..], x);
      assert [s[0]] + s[1..] == s;
    }
  }

  /** The invariant of the `while unvisited` loop: `unvisited` lists exactly
      the unsettled nodes of `w`, and `floor` (the latest selected distance)
      separates the settled nodes from the finite unvisited ones. */
  ghost predicate ScanInv(g: Graph, w: set<Node>, start: Node, dist: map<Node, Dist>, unvisited: seq<Node>,
                          settled: set<Node>, floor: nat) {
    && Sound(g, w, start, dist, settled)
    && dist.Keys == w
    && Distinct(unvisited)
    && (forall v :: v in unvisited <==> v in w && v !in settled)
    && (forall s :: s in settled ==> s in dist && dist[s].Fin? && dist[s].value <= floor)
    && (forall v :: v in unvisited && v in dist && dist[v].Fin? ==> floor <= dist[v].value)
  }

  lemma ScanInit(g: Graph, start: Node)
    requires Valid(g)
    ensures ScanInv(g, g.adj.Keys + {start}, start, InitDist(g, start), InitUnvisited(g, start), {}, 0)
  {
    var w := g.adj.Keys + {start};
    var dist := InitDist(g, start);
    assert WPath(g, w, [start], start, start) && Weight(g, [start]) == 0;
    assert Witnessed(g, w, start, dist);
  }

  /** The scan's choice is a minimal unsettled node, so it is final; every
      other unvisited finite distance is at least as large. */
  lemma ScanSelect(g: Graph, w: set<Node>, start: Node, dist: map<Node, Dist>, unvisited: seq<Node>,
                   settled: set<Node>, floor: nat, at: nat)
    requires ScanInv(g, w, start, dist, unvisited, settled, floor)
    requires FirstMin(dist, unvisited, at)
    ensures MinUnsettled(w, dist, settled, unvisited[at])
    ensures ShortestWithin(g, w, start, unvisited[at], dist[unvisited[at]])
    ensures Settling(g, w, start, dist, settled, unvisited[at], {})
    ensures forall v :: v in unvisited && dist[v].Fin? ==> dist[unvisited[at]].value <= dist[v].value
  {
    var u := unvisited[at];
    forall v | v in unvisited && dist[v].Fin?
      ensures dist[u].value <= dist[v].value
    {
      var j :| 0 <= j < |unvisited| && unvisited[j] == v;
      if j < at {
        assert dist[u].Less(dist[unvisited[j]]);
      } else if j > at {
        assert dist[u].AtMost(dist[unvisited[j]]);
      }
    }
    SelectedAnswer(g, w, start, dist, settled, u);
    BeginSettle(g, w, start, dist, settled, u);
  }

  /** The outcome when the scan selects `end` after `settled`. */
  lemma ScanFoundCount(g: Graph, start: Node, end: Node, dist: map<Node, Dist>, unvisited: seq<Node>,
                       settled: set<Node>, floor: nat, at: nat, count: nat)
    requires ScanInv(g, g.adj.Keys + {start}, start, dist, unvisited, settled, floor)
    requires FirstMin(dist, unvisited, at) && unvisited[at] == end && count == |settled| + 1
    requires start == end ==> settled == {}
    ensures CountOutcome(g, g.adj.Keys + {start}, start, end, dist[end], count)
  {
    ScanSelect(g, g.adj.Keys + {start}, start, dist, unvisited, settled, floor, at);
    CountWithinReach(g, g.adj.Keys + {start}, start, dist, settled, end);
  }

  /** The outcome when the scan runs out: every reachable node was selected,
      `end` not among them. */
  lemma ScanExhaustedCount(g: Graph, start: Node, end: Node, dist: map<Node, Dist>, unvisited: seq<Node>,
                           settled: set<Node>, floor: nat, count: nat)
    requires ScanInv(g, g.adj.Keys + {start}, start, dist, unvisited, settled, floor)
    requires forall j :: 0 <= j < |unvisited| ==> dist[unvisited[j]].Inf?
    requires count == |settled| && end !in settled
    ensures CountOutcome(g, g.adj.Keys + {start}, start, end, Get(dist, end), count)
  {
    ScanExhausted(g, g.adj.Keys + {start}, start, dist, unvisited, settled, floor, end);
    StartReached(g, g.adj.Keys + {start}, start);
  }

  /** One iteration of the neighbour loop for an unvisited neighbour `v`, in
      both of its outcomes. */
  lemma ScanStep(g: Graph, w: set<Node>, start: Node, dist0: map<Node, Dist>, dist: map<Node, Dist>,
                 settled: set<Node>, u: Node, done: set<Node>, v: Node, nd: nat)
    requires Settling(g, w, start, dist, settled, u, done) && NoIncrease(dist0, dist)
    requires HasEdge(g, u, v) && v in w && v !in settled && v != u && v in dist
    requires nd == dist[u].value + EdgeW(g, u, v)
    ensures Fin(nd).Less(dist[v]) ==>
      && Settling(g, w, start, dist[v := Fin(nd)], settled, u, done + {v})
      && NoIncrease(dist0, dist[v := Fin(nd)])
    ensures !Fin(nd).Less(dist[v]) ==> Settling(g, w, start, dist, settled, u, done + {v})
  {
    if Fin(nd).Less(dist[v]) {
      RelaxImprove(g, w, start, dist, settled, u, done, v, nd);
      NoIncreaseLower(dist0, dist, v, nd);
    } else {
      RelaxKeep(g, w, start, dist, settled, u, done, v);
    }
  }

  /** Lines 84-88 of run.py for one neighbour `v` of the selected `u`: only a
      still-unvisited neighbour is relaxed. */
  method RelaxNeighbour(g: Graph, ghost w: set<Node>, ghost start: Node, ghost dist0: map<Node, Dist>,
                        dist: map<Node, Dist>, unvisited: seq<Node>, ghost settled: set<Node>, u: Node, d: nat,
                        ghost done: set<Node>, v: Node)
    returns (dist': map<Node, Dist>)
    requires Settling(g, w, start, dist, settled, u, done) && NoIncrease(dist0, dist)
    requires dist.Keys == w && dist[u] == Fin(d) && HasEdge(g, u, v)
    requires forall x :: x in unvisited <==> x in w && x !in settled && x != u
    requires forall x :: x in unvisited && x in dist && dist[x].Fin? ==> d <= dist[x].value
    ensures Settling(g, w, start, dist', settled, u, done + {v}) && NoIncrease(dist0, dist')
    ensures dist'.Keys == w && dist'[u] == Fin(d)
    ensures forall x :: x in unvisited && x in dist' && dist'[x].Fin? ==> d <= dist'[x].value
  {
    dist' := dist;
    if v in unvisited {
      var newDist := d + Neighbours(g, u)[v];
      ScanStep(g, w, start, dist0, dist, settled, u, done, v, newDist);
      if Fin(newDist).Less(dist[v]) {
        dist' := dist[v := Fin(newDist)];
      }
    } else {
      // a settled neighbour (or `u` itself) is already no farther than `u`
      RelaxKeep(g, w, start, dist, settled, u, done, v);
    }
  }

  /** Lines 82-88 of run.py: relax the edges from the selected `u` (already
      removed from `unvisited`) into nodes that are still unvisited. */
  method RelaxScan(g: Graph, ghost w: set<Node>, ghost start: Node, dist0: map<Node, Dist>, unvisited: seq<Node>,
                   ghost settled: set<Node>, u: Node, d: nat)
    returns (dist: map<Node, Dist>)
    requires Settling(g, w, start, dist0, settled, u, {})
    requires dist0.Keys == w && dist0[u] == Fin(d)
    requires forall v :: v in unvisited <==> v in w && v !in settled && v != u
    requires forall v :: v in unvisited && v in dist0 && dist0[v].Fin? ==> d <= dist0[v].value
    ensures Sound(g, w, start, dist, settled + {u})
    ensures dist.Keys == w && dist[u] == Fin(d)
    ensures forall v :: v in unvisited && v in dist && dist[v].Fin? ==> d <= dist[v].value
    ensures NoIncrease(dist0, dist)
  {
    dist := dist0;
    var neighbours := Neighbours(g, u);
    var todo := neighbours.Keys;
    while todo != {}
      invariant todo <= neighbours.Keys
      invariant Settling(g, w, start, dist, settled, u, neighbours.Keys - todo)
      invariant dist.Keys == w && dist[u] == Fin(d)
      invariant forall v :: v in unvisited && v in dist && dist[v].Fin? ==> d <= dist[v].value
      invariant NoIncrease(dist0, dist)
      decreases |todo|
    {
      var v :| v in todo;
      dist := RelaxNeighbour(g, w, start, dist0, dist, unvisited, settled, u, d, neighbours.Keys - todo, v);
      assert neighbours.Keys - (todo - {v}) == (neighbours.Keys - todo) + {v};
      todo := todo - {v};
    }
    assert neighbours.Keys - todo == Neighbours(g, u).Keys;
    EndSettle(g, w, start, dist, settled, u);
  }

  /** Lines 78-88 of run.py after the scan selected `u` at position `at`: `u`
      leaves `unvisited` and is settled, and its edges are relaxed. */
  method Visit(g: Graph, ghost w: set<Node>, ghost start: Node, dist0: map<Node, Dist>, unvisited0: seq<Node>,
               ghost settled0: set<Node>, ghost floor0: nat, ghost at: nat, u: Node)
    returns (dist: map<Node, Dist>, unvisited: seq<Node>)
    requires ScanInv(g, w, start, dist0, unvisited0, settled0, floor0)
    requires FirstMin(dist0, unvisited0, at) && u == unvisited0[at]
    ensures ScanInv(g, w, start, dist, unvisited, settled0 + {u}, dist0[u].value)
    ensures u !in settled0 && |unvisited| < |unvisited0|
    ensures NoIncrease(dist0, dist)
    ensures dist0 == InitDist(g, start) ==> u == start
  {
    ScanSelect(g, w, start, dist0, unvisited0, settled0, floor0, at);
    unvisited := Remove(unvisited0, u);
    dist := RelaxScan(g, w, start, dist0, unvisited, settled0, u, dist0[u].value);
  }

  /** When the scan finds nothing finite, the table holds the answer for every
      target, and the settled nodes are exactly those reachable inside `w`. */
  lemma ScanExhausted(g: Graph, w: set<Node>, start: Node, dist: map<Node, Dist>, unvisited: seq<Node>,
                      settled: set<Node>, floor: nat, t: Node)
    requires ScanInv(g, w, start, dist, unvisited, settled, floor)
    requires forall j :: 0 <= j < |unvisited| ==> dist[unvisited[j]].Inf?
    ensures ShortestWithin(g, w, start, t, Get(dist, t))
    ensures settled == ReachSetWithin(g, w, start)
  {
    forall v | v in dist && v !in settled
      ensures dist[v].Inf?
    {
      assert v in unvisited;
      var j :| 0 <= j < |unvisited| && unvisited[j] == v;
    }
    Exhausted(g, w, start, dist, settled, t);
    ExhaustedSettledAll(g, w, start, dist, settled);
  }
}

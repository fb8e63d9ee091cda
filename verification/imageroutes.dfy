/**
 generate_all_images.py carries its own copy of `get_dijkstra_path` (lines
 13-38): the same initialisation, loop, relaxation and walk back, written more
 compactly. It behaves exactly as the one in visualize_route.py.
 */
module ImageRoutes {
  import opened Graphs
  import Routes

  /** The copy in generate_all_images.py, with the same outcomes as the
      original, including `[end]` for an unreachable `end` outside the keys. */
  method GetDijkstraPath(g: Graph, start: Node, end: Node) returns (path: seq<Node>)
    ensures Reachable(g, start, end) ==>
      PathFromTo(g, path, start, end) && Shortest(g, start, end, Fin(Weight(g, path)))
    ensures !Reachable(g, start, end) && end in g.adj ==> path == []
    ensures !Reachable(g, start, end) && end !in g.adj ==> path == [end]
    ensures start == end ==> path == [start]
  {
    path := Routes.GetDijkstraPath(g, start, end);
  }
}

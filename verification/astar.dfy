/** `aStarRoute`. Its queue is ordered by a field named `heuristic`, but
    only the start entry is queued with `calculateHeuristic(start, end)`;
    every relaxation queues the neighbour with its new distance, and the
    difference of the two `calculateHeuristic` distances computed beside it
    is never read. So the loop is the `DijkstraSearch` loop, and only the
    start entry's priority differs. */
module AStar {
  import opened Keys
  import opened Graphs
  import opened DijkstraSearch
  import opened DijkstraInvariant
  import opened Dijkstra

  /** The first dequeue finds the start entry alone in the queue, so the
      priority it was queued with is never compared with anything: the loop
      ends in the same state whatever that priority is. */
  lemma StartPriorityIrrelevant(g: Graph, domain: set<LatLng>, start: LatLng, end: LatLng,
                                choose: Chooser, p0: nat)
    requires MinChooser(choose)
    ensures Loop(g, end, choose, Initial(domain, start, p0)) == Loop(g, end, choose, Initial(domain, start, 0))
  {
    var sa, sb := Initial(domain, start, p0), Initial(domain, start, 0);
    var ea, eb := Entry(start, p0), Entry(start, 0);
    ChooserPicks(choose, sa.queue);
    ChooserPicks(choose, sb.queue);
    assert choose(sa.queue) == ea && choose(sb.queue) == eb;
    assert Settle(sa, ea) == Settle(sb, eb);
  }

  /** `aStarRoute`, with `calculateHeuristic` as the parameter `heuristic`
      (a great-circle distance, so never negative). Whatever the heuristic,
      the route is the one `dijkstraRoute` returns. */
  function AStarRoute(g: Graph, start: LatLng, end: LatLng, choose: Chooser,
                      heuristic: (LatLng, LatLng) -> nat): (path: seq<LatLng>)
    requires MinChooser(choose)
    ensures path == DijkstraRoute(g, start, end, choose)
    ensures path != [] ==> ShortestPath(g, start, end, path)
    ensures (end in g || end == start) ==> (path == [] <==> !Reachable(g, start, end))
  {
    var st := Loop(g, end, choose, Initial(g.Keys, start, heuristic(start, end)));
    StartPriorityIrrelevant(g, g.Keys, start, end, choose, heuristic(start, end));
    assert st == Search(g, g.Keys, start, end, choose);
    Reconstruct(st, end)
  }
}

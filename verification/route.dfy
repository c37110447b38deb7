/** The `/api/route` handler's use of the three searches: with a via
    marker, each algorithm's answer is its route from the snapped start to
    the snapped via node followed by its route from the via node to the
    snapped end, concatenated as they are. */
module Route {
  import opened Options
  import opened Keys
  import opened Graphs
  import opened DijkstraSearch
  import opened Dijkstra
  import opened AStar
  import opened Bfs

  /** What the concatenation of two legs meeting at `m` looks like: it runs
      from `s` to `e`, `m` appears twice in a row where the legs meet, and
      dropping one of the two copies leaves a path of the graph. */
  ghost predicate ViaShape(g: Graph, s: LatLng, m: LatLng, e: LatLng, r: seq<LatLng>) {
    exists k ::
      && 0 <= k < |r| - 1 && r[k] == m && r[k + 1] == m
      && PathFromTo(g, r[..k] + r[k + 1..], s, e)
  }

  lemma {:induction false} JoinLegs(g: Graph, s: LatLng, m: LatLng, e: LatLng, p1: seq<LatLng>, p2: seq<LatLng>)
    requires PathFromTo(g, p1, s, m) && PathFromTo(g, p2, m, e)
    ensures ViaShape(g, s, m, e, p1 + p2)
  {
    var r := p1 + p2;
    var k := |p1| - 1;
    assert r[k] == m && r[k + 1] == m;
    assert r[..k] + r[k + 1..] == p1 + p2[1..];
    PathJoin(g, p1, p2);
  }

  /** The breadth-first answer. With a via node, a leg that does not exist
      is `[]` and vanishes from the concatenation: the answer is then the
      other leg alone. */
  function BfsVia(g: Graph, s: LatLng, mid: Option<LatLng>, e: LatLng): (r: seq<LatLng>)
    ensures mid.None? ==> r == BfsRoute(g, s, e)
    ensures mid.Some? && Reachable(g, s, mid.value) && Reachable(g, mid.value, e) ==> ViaShape(g, s, mid.value, e, r)
    ensures mid.Some? && !Reachable(g, s, mid.value) ==> r == BfsRoute(g, mid.value, e)
    ensures mid.Some? && !Reachable(g, mid.value, e) ==> r == BfsRoute(g, s, mid.value)
  {
    if mid.Some? then
      var leg1, leg2 := BfsRoute(g, s, mid.value), BfsRoute(g, mid.value, e);
      if leg1 != [] && leg2 != [] then
        JoinLegs(g, s, mid.value, e, leg1, leg2);
        leg1 + leg2
      else
        leg1 + leg2
    else BfsRoute(g, s, e)
  }

  /** The Dijkstra answer, with the same shape when both legs exist. */
  function DijkstraVia(g: Graph, s: LatLng, mid: Option<LatLng>, e: LatLng, choose: Chooser): (r: seq<LatLng>)
    requires MinChooser(choose)
    ensures mid.None? ==> r == DijkstraRoute(g, s, e, choose)
    ensures mid.Some? && DijkstraRoute(g, s, mid.value, choose) != [] && DijkstraRoute(g, mid.value, e, choose) != [] ==>
      ViaShape(g, s, mid.value, e, r)
    ensures mid.Some? && DijkstraRoute(g, s, mid.value, choose) == [] ==> r == DijkstraRoute(g, mid.value, e, choose)
    ensures mid.Some? && DijkstraRoute(g, mid.value, e, choose) == [] ==> r == DijkstraRoute(g, s, mid.value, choose)
  {
    if mid.Some? then
      var leg1, leg2 := DijkstraRoute(g, s, mid.value, choose), DijkstraRoute(g, mid.value, e, choose);
      if leg1 != [] && leg2 != [] then
        JoinLegs(g, s, mid.value, e, leg1, leg2);
        leg1 + leg2
      else
        leg1 + leg2
    else DijkstraRoute(g, s, e, choose)
  }

  /** The A* answer, leg by leg the A* route, is the Dijkstra answer. */
  function AStarVia(g: Graph, s: LatLng, mid: Option<LatLng>, e: LatLng, choose: Chooser,
                    heuristic: (LatLng, LatLng) -> nat): (r: seq<LatLng>)
    requires MinChooser(choose)
    ensures r == DijkstraVia(g, s, mid, e, choose)
  {
    if mid.Some? then
      AStarRoute(g, s, mid.value, choose, heuristic) + AStarRoute(g, mid.value, e, choose, heuristic)
    else AStarRoute(g, s, e, choose, heuristic)
  }
}

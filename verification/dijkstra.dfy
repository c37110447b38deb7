/** `dijkstraRoute`: the search loop run from the start node over the
    graph's keys, followed by path reconstruction; and the same search with
    every edge destination given a `distances` entry too. */
module Dijkstra {
  import opened Keys
  import opened Graphs
  import opened DijkstraSearch
  import opened DijkstraInvariant

  /** The search loop from its initial state, where `domain` is the set of
      nodes whose `distances` entry starts at `Infinity`. It ends with the
      invariant intact, and either the queue empty or the end node just
      visited. */
  function Search(g: Graph, domain: set<LatLng>, start: LatLng, end: LatLng, choose: Chooser): (st: SearchState)
    requires MinChooser(choose) && g.Keys <= domain
    ensures Inv(g, start, end, st) && Stopped(st, end)
    ensures st.dist.Keys == domain + {start}
  {
    var s0 := Initial(domain, start, 0);
    InitialInv(g, domain, start, end);
    LoopInv(g, start, end, choose, s0);
    LoopStops(g, end, choose, s0);
    LoopKeys(g, end, choose, s0);
    Loop(g, end, choose, s0)
  }

  /** The only visited node without a predecessor is the start node. */
  lemma RootIsStart(start: LatLng, prev: map<LatLng, LatLng>, visited: seq<LatLng>, queue: multiset<Entry>, v: LatLng)
    requires Rooted(start, prev, visited, queue) && v in visited && v !in prev
    ensures v == start
  {
    var k :| 0 <= k < |visited| && visited[k] == v;
  }

  /** Following `previous` back from a visited node crosses real edge
      records whose weights add up to the difference between the node's
      distance and the distance of the root the chain ends at. */
  lemma {:induction false} TraceWalk(g: Graph, dist: map<LatLng, Dist>, prev: map<LatLng, LatLng>,
                                     visited: seq<LatLng>, v: LatLng)
    returns (ws: seq<nat>)
    requires PrevEdges(g, dist, prev, visited) && Ranked(prev, visited)
    requires VisitedFinite(dist, visited) && v in visited
    ensures IsWalk(g, Trace(prev, visited, v), ws)
    ensures Trace(prev, visited, v)[0] in dist
    ensures Sum(ws) + dist[Trace(prev, visited, v)[0]].n == dist[v].n
    decreases IndexOf(visited, v)
  {
    if v in prev {
      var u := prev[v];
      TraceStep(prev, visited, v);
      var ws0 := TraceWalk(g, dist, prev, visited, u);
      var w := dist[v].n - dist[u].n;
      var q := Trace(prev, visited, u);
      assert q[|q| - 1] == u;
      assert u in g;
      assert Edge(v, w) in g[u];
      WalkExtend(g, q, ws0, v, w);
      SumAppend(ws0, w);
      ws := ws0 + [w];
    } else {
      ws := [];
    }
  }

  /** Once the end node is visited, reconstruction gives a shortest path. */
  lemma FoundIsShortest(g: Graph, start: LatLng, end: LatLng, st: SearchState)
    requires Core(g, start, st) && end in st.visited
    ensures ShortestPath(g, start, end, Trace(st.prev, st.visited, end))
  {
    var p := Trace(st.prev, st.visited, end);
    var ws := TraceWalk(g, st.dist, st.prev, st.visited, end);
    RootIsStart(start, st.prev, st.visited, st.queue, p[0]);
    WalkIsPath(g, p, ws);
    assert LowerBound(g, start, end, Sum(ws));
  }

  /** With an empty queue, every node with a finite distance is visited. */
  lemma DrainedVisited(dist: map<LatLng, Dist>, visited: seq<LatLng>)
    requires QueueComplete(dist, visited, multiset{})
    ensures forall v | v in dist && dist[v].Fin? :: v in visited
  {
  }

  /** When the queue runs dry before the end node is visited, a path from the
      start node to the end node can only leave the visited nodes through
      its last edge, into an end node that has no `distances` entry. */
  lemma Unreached(g: Graph, start: LatLng, end: LatLng, st: SearchState, p: seq<LatLng>)
    requires Inv(g, start, end, st) && st.queue == multiset{} && end !in st.visited
    requires PathFromTo(g, p, start, end)
    ensures end !in st.dist && |p| > 1
  {
    DrainedVisited(st.dist, st.visited);
    var vis := set x | x in st.visited;
    var i := Crossing(p, vis);
    var x := p[i - 1];
    assert HasEdge(g, x, p[i]);
    var ed :| ed in g[x] && ed.end == p[i];
    assert RelaxedFrom(g, st.dist, x);
    assert EdgeRelaxed(st.dist, x, ed);
    assert p[i] !in st.dist;
    PathKeys(g, p);
  }

  /** `dijkstraRoute`: a shortest path from the start node to the end node,
      or `[]` when the end node is never visited. That happens exactly when
      the end node is unreachable, provided the end node is a graph key or
      the start node itself (see `NonKeyEndMissed` for the other case). */
  function DijkstraRoute(g: Graph, start: LatLng, end: LatLng, choose: Chooser): (path: seq<LatLng>)
    requires MinChooser(choose)
    ensures path != [] ==> ShortestPath(g, start, end, path)
    ensures (end in g || end == start) ==> (path == [] <==> !Reachable(g, start, end))
  {
    var st := Search(g, g.Keys, start, end, choose);
    if end in st.visited then
      FoundIsShortest(g, start, end, st);
      Reconstruct(st, end)
    else
      assert st.queue == multiset{};
      assert (end in g || end == start) ==> !Reachable(g, start, end) by {
        if (end in g || end == start) && Reachable(g, start, end) {
          var p :| PathFromTo(g, p, start, end);
          Unreached(g, start, end, st, p);
        }
      }
      Reconstruct(st, end)
  }

  /** When the start node is the end node, the first dequeue visits it and
      stops, and the route is that node alone. */
  lemma DijkstraStartIsEnd(g: Graph, start: LatLng, choose: Chooser)
    requires MinChooser(choose)
    ensures DijkstraRoute(g, start, start, choose) == [start]
  {
    var s0 := Initial(g.Keys, start, 0);
    var e := Entry(start, 0);
    ChooserPicks(choose, s0.queue);
    assert choose(s0.queue) == e;
    var s1 := Settle(s0, e);
    assert Loop(g, start, choose, s0) == s1;
    assert s1.visited == [start] && s1.prev == map[];
    assert Trace(s1.prev, s1.visited, start) == [start];
  }

  /** The same search when every edge destination also starts with an
      `Infinity` entry: the route is `[]` exactly when the end node is
      unreachable, whatever the end node. */
  function DijkstraRouteAllNodes(g: Graph, start: LatLng, end: LatLng, choose: Chooser): (path: seq<LatLng>)
    requires MinChooser(choose)
    ensures path != [] ==> ShortestPath(g, start, end, path)
    ensures path == [] <==> !Reachable(g, start, end)
  {
    var st := Search(g, g.Keys + EdgeEnds(g), start, end, choose);
    if end in st.visited then
      FoundIsShortest(g, start, end, st);
      Reconstruct(st, end)
    else
      assert st.queue == multiset{};
      assert !Reachable(g, start, end) by {
        if Reachable(g, start, end) {
          var p :| PathFromTo(g, p, start, end);
          Unreached(g, start, end, st, p);
          LastIsEdgeEnd(g, p);
        }
      }
      Reconstruct(st, end)
  }

  /** The last node of a path with at least one edge is an edge destination. */
  lemma LastIsEdgeEnd(g: Graph, p: seq<LatLng>)
    requires IsPath(g, p) && |p| > 1
    ensures p[|p| - 1] in EdgeEnds(g)
  {
    var u := p[|p| - 2];
    assert HasEdge(g, u, p[|p| - 1]);
    var ed :| ed in g[u] && ed.end == p[|p| - 1];
    var i :| 0 <= i < |g[u]| && g[u][i] == ed;
  }

  /** A node that is neither a graph key nor the start node never gets a
      `distances` entry, so no edge into it is ever relaxed and it is never
      visited: the route to it is `[]`, reachable or not. */
  lemma NonKeyEndNeverRouted(g: Graph, start: LatLng, end: LatLng, choose: Chooser)
    requires MinChooser(choose) && end !in g && end != start
    ensures DijkstraRoute(g, start, end, choose) == []
  {
    var st := Search(g, g.Keys, start, end, choose);
    assert end !in st.dist;
    assert end !in st.visited;
  }

  /** With the single edge `A -> B`, `dijkstraRoute` from `A` to `B` returns
      `[]` although `B` is one edge away. */
  lemma NonKeyEndMissed(choose: Chooser)
    requires MinChooser(choose)
    ensures var a, b := LatLng(0, 0), LatLng(0, 1);
            var g: Graph := map[a := [Edge(b, 1)]];
            Reachable(g, a, b) && DijkstraRoute(g, a, b, choose) == []
  {
    var a, b := LatLng(0, 0), LatLng(0, 1);
    var g: Graph := map[a := [Edge(b, 1)]];
    assert HasEdge(g, a, b);
    assert PathFromTo(g, [a, b], a, b);
    NonKeyEndNeverRouted(g, a, b, choose);
  }

  /** On the same graph the corrected search finds the edge. */
  lemma NonKeyEndFound(choose: Chooser)
    requires MinChooser(choose)
    ensures var a, b := LatLng(0, 0), LatLng(0, 1);
            var g: Graph := map[a := [Edge(b, 1)]];
            DijkstraRouteAllNodes(g, a, b, choose) != []
  {
    var a, b := LatLng(0, 0), LatLng(0, 1);
    var g: Graph := map[a := [Edge(b, 1)]];
    assert HasEdge(g, a, b);
    assert PathFromTo(g, [a, b], a, b);
  }
}

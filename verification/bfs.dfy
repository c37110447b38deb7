/** `bfsRoute`: the breadth-first loop from the start node, stopping when
    the end node reaches the front of the queue, and the reconstruction
    from `previous` that follows. */
module Bfs {
  import opened Keys
  import opened Graphs
  import opened BfsSearch
  import opened BfsInvariant

  /** The loop from its initial state. It ends with the invariant intact and
      the queue empty or the end node at its front. */
  function Search(g: Graph, start: LatLng, end: LatLng): (st: BfsState)
    ensures Inv(g, start, end, st)
    ensures st.queue == [] || st.queue[0] == end
  {
    InitialInv(g, start, end);
    LoopInv(g, start, end, Initial(start));
    Loop(g, end, Initial(start))
  }

  /** The only visited node without a predecessor is the start node. */
  lemma RootIsStart(start: LatLng, prev: map<LatLng, LatLng>, visited: seq<LatLng>, v: LatLng)
    requires Rooted(start, prev, visited) && |visited| > 0 && visited[0] == start
    requires v in visited && v !in prev
    ensures v == start
  {
    var k :| 0 <= k < |visited| && visited[k] == v;
  }

  /** The `previous` chain of a visited node is a path of the graph from the
      start node. */
  lemma TracePath(g: Graph, start: LatLng, st: BfsState, v: LatLng)
    requires Queued(start, st) && Rooted(start, st.prev, st.visited)
    requires PrevLinks(g, st.prev, st.visited) && Ranked(st.prev, st.visited) && v in st.visited
    ensures PathFromTo(g, Trace(st.prev, st.visited, v), start, v)
  {
    var p := Trace(st.prev, st.visited, v);
    forall i | 0 <= i < |p| - 1
      ensures HasEdge(g, p[i], p[i + 1])
    {
      assert p[i + 1] in st.prev && st.prev[p[i + 1]] == p[i];
    }
    RootIsStart(start, st.prev, st.visited, p[0]);
  }

  /** Once the queue is empty, every node on a path from the start node has
      been visited. */
  lemma {:induction false} DrainedReach(g: Graph, start: LatLng, end: LatLng, st: BfsState, p: seq<LatLng>)
    requires Inv(g, start, end, st) && st.queue == []
    requires IsPath(g, p) && p[0] == start
    ensures p[|p| - 1] in st.visited
    decreases |p|
  {
    var n := |p|;
    if n > 1 {
      PathPrefix(g, p, n - 2);
      var q := p[..n - 1];
      DrainedReach(g, start, end, st, q);
      assert q[|q| - 1] == p[n - 2];
      assert Done(st) == st.visited;
      assert HasEdge(g, p[n - 2], p[n - 1]);
      var ed :| ed in g[p[n - 2]] && ed.end == p[n - 1];
    }
  }

  /** `bfsRoute`: a path from the start node to the end node with as few
      edges as any, or `[]` exactly when the end node is unreachable. The end
      node need not be a graph key. */
  function BfsRoute(g: Graph, start: LatLng, end: LatLng): (path: seq<LatLng>)
    ensures path != [] ==> PathFromTo(g, path, start, end) && HopBound(g, start, end, |path| - 1)
    ensures path == [] <==> !Reachable(g, start, end)
  {
    var st := Search(g, start, end);
    if st.queue != [] then
      assert end in st.visited;
      TracePath(g, start, st, end);
      Trace(st.prev, st.visited, end)
    else
      assert Done(st) == st.visited;
      assert !Reachable(g, start, end) by {
        if Reachable(g, start, end) {
          var p :| PathFromTo(g, p, start, end);
          DrainedReach(g, start, end, st, p);
        }
      }
      []
  }

  /** The start node is at the front of the queue before the first dequeue,
      so a route from a node to itself is that node alone. */
  lemma BfsStartIsEnd(g: Graph, start: LatLng)
    ensures BfsRoute(g, start, start) == [start]
  {
    var s0 := Initial(start);
    assert Loop(g, start, s0) == s0;
    assert Trace(s0.prev, s0.visited, start) == [start];
  }

  /** Two graphs with the same keys and the same edge destinations, in the
      same order, differing at most in weights. */
  ghost predicate SameEnds(g1: Graph, g2: Graph) {
    && g1.Keys == g2.Keys
    && forall u | u in g1 :: |g1[u]| == |g2[u]| && forall i | 0 <= i < |g1[u]| :: g1[u][i].end == g2[u][i].end
  }

  lemma {:induction false} NeighboursSameEnds(st: BfsState, u: LatLng, e1: seq<Edge>, e2: seq<Edge>)
    requires |e1| == |e2| && forall i | 0 <= i < |e1| :: e1[i].end == e2[i].end
    ensures Neighbours(st, u, e1) == Neighbours(st, u, e2)
    decreases |e1|
  {
    if |e1| > 0 {
      assert e1[0].end == e2[0].end;
      NeighboursSameEnds(Discover(st, u, e1[0].end), u, e1[1..], e2[1..]);
    }
  }

  lemma {:induction false} LoopSameEnds(g1: Graph, g2: Graph, end: LatLng, st: BfsState)
    requires SameEnds(g1, g2)
    ensures Loop(g1, end, st) == Loop(g2, end, st)
    decreases |EdgeEnds(g1) - VisitedSet(st)|, |st.queue|
  {
    if st.queue != [] && st.queue[0] != end {
      var u := st.queue[0];
      var s1 := st.(queue := st.queue[1..]);
      if u in g1 {
        NeighboursSameEnds(s1, u, g1[u], g2[u]);
      }
      assert Expand(g1, st) == Expand(g2, st);
      ExpandShrinks(g1, st);
      LoopSameEnds(g1, g2, end, Expand(g1, st));
    }
  }

  /** `bfsRoute` never reads a weight: graphs that differ only in weights
      give the same route. */
  lemma BfsIgnoresWeights(g1: Graph, g2: Graph, start: LatLng, end: LatLng)
    requires SameEnds(g1, g2)
    ensures BfsRoute(g1, start, end) == BfsRoute(g2, start, end)
  {
    LoopSameEnds(g1, g2, end, Initial(start));
  }
}

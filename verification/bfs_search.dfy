/** The loop of `bfsRoute`: a FIFO queue of node keys, a `visited` set that
    a node enters at the moment it is queued, and `previous` links recorded
    at that same moment. Edge weights are never read. */
module BfsSearch {
  import opened Keys
  import opened Graphs

  /** The call-local state. `visited` is a JavaScript `Set`, which keeps
      insertion order, so it is a sequence here. */
  datatype BfsState = BfsState(queue: seq<LatLng>, visited: seq<LatLng>, prev: map<LatLng, LatLng>)

  /** The start node is queued and marked visited before the loop. */
  function Initial(start: LatLng): (st: BfsState)
    ensures st.queue == [start] && st.visited == [start] && st.prev == map[]
  {
    BfsState([start], [start], map[])
  }

  /** The destinations of a run of edge records. */
  function EndsOf(edges: seq<Edge>): set<LatLng> {
    set ed | ed in edges :: ed.end
  }

  lemma EndsOfNode(g: Graph, u: LatLng)
    requires u in g
    ensures EndsOf(g[u]) <= EdgeEnds(g)
  {
    forall v | v in EndsOf(g[u])
      ensures v in EdgeEnds(g)
    {
      var ed :| ed in g[u] && ed.end == v;
      var i :| 0 <= i < |g[u]| && g[u][i] == ed;
    }
  }

  /** One pass of the neighbour loop: an unvisited destination is marked
      visited, linked back to `u` and queued, all at once; a visited one is
      left alone. */
  function Discover(st: BfsState, u: LatLng, v: LatLng): BfsState {
    if v in st.visited then st
    else BfsState(st.queue + [v], st.visited + [v], st.prev[v := u])
  }

  /** The neighbour loop of `u` over its edge records in stored order. The
      nodes it marks visited are exactly the nodes it queues, in the same
      order; each is a destination of `edges` not visited before, no node is
      marked twice, and afterwards every destination is visited. */
  function Neighbours(st: BfsState, u: LatLng, edges: seq<Edge>): (r: BfsState)
    ensures |st.visited| <= |r.visited| && r.visited[..|st.visited|] == st.visited
    ensures r.queue == st.queue + r.visited[|st.visited|..]
    ensures forall i | |st.visited| <= i < |r.visited| :: r.visited[i] in EndsOf(edges) && r.visited[i] !in st.visited
    ensures forall ed | ed in edges :: ed.end in r.visited
    ensures NoDup(st.visited) ==> NoDup(r.visited)
    decreases |edges|
  {
    if |edges| == 0 then st
    else
      var v := edges[0].end;
      var s1 := Discover(st, u, v);
      var r := Neighbours(s1, u, edges[1..]);
      assert EndsOf(edges[1..]) <= EndsOf(edges) by {
        forall ed | ed in edges[1..] ensures ed in edges {}
      }
      assert v in EndsOf(edges) by { assert edges[0] in edges; }
      if v in st.visited then
        r
      else
        NoDupAppend(st.visited, v);
        NeighboursStep(st.visited, r.visited, v);
        r
  }

  lemma NoDupAppend(s: seq<LatLng>, v: LatLng)
    requires v !in s
    ensures NoDup(s) ==> NoDup(s + [v])
  {
  }

  /** How the visited sequence after a fresh discovery of `v` relates to the
      one before it. */
  lemma NeighboursStep(vis: seq<LatLng>, rvis: seq<LatLng>, v: LatLng)
    requires |vis| + 1 <= |rvis| && rvis[..|vis| + 1] == vis + [v]
    ensures rvis[..|vis|] == vis
    ensures rvis[|vis|..] == [v] + rvis[|vis| + 1..]
    ensures rvis[|vis|] == v
  {
    assert rvis[..|vis|] == rvis[..|vis| + 1][..|vis|];
  }

  /** Dequeue the front node and, when the graph has an entry for it, run
      its neighbour loop. */
  function Expand(g: Graph, st: BfsState): BfsState
    requires st.queue != []
  {
    var u := st.queue[0];
    var s1 := st.(queue := st.queue[1..]);
    if u in g then Neighbours(s1, u, g[u]) else s1
  }

  function VisitedSet(st: BfsState): set<LatLng> {
    set v | v in st.visited
  }

  /** A step either queues a new node, which is an edge destination, or
      only shortens the queue. */
  lemma ExpandShrinks(g: Graph, st: BfsState)
    requires st.queue != []
    ensures var r := Expand(g, st);
      || |EdgeEnds(g) - VisitedSet(r)| < |EdgeEnds(g) - VisitedSet(st)|
      || (VisitedSet(r) == VisitedSet(st) && |r.queue| < |st.queue|)
  {
    var u := st.queue[0];
    var r := Expand(g, st);
    var s1 := st.(queue := st.queue[1..]);
    if u in g {
      var n := |st.visited|;
      assert r.visited[..n] == st.visited;
      if |r.visited| > n {
        EndsOfNode(g, u);
        var v := r.visited[n];
        assert v in EndsOf(g[u]) && v !in st.visited;
        var before, after := EdgeEnds(g) - VisitedSet(st), EdgeEnds(g) - VisitedSet(r);
        assert VisitedSet(st) <= VisitedSet(r) by {
          forall x | x in st.visited ensures x in r.visited {
            var k :| 0 <= k < n && st.visited[k] == x;
            assert r.visited[k] == x;
          }
        }
        assert v in before && v !in after;
        SubsetCard(after, before);
      } else {
        assert r.visited == st.visited;
        assert r.queue == s1.queue;
      }
    }
  }

  /** The main loop: stop when the queue is empty or its front node is the
      end node; otherwise dequeue and expand the front node. */
  function Loop(g: Graph, end: LatLng, st: BfsState): (r: BfsState)
    ensures r.queue == [] || r.queue[0] == end
    decreases |EdgeEnds(g) - VisitedSet(st)|, |st.queue|
  {
    if st.queue == [] || st.queue[0] == end then st
    else
      ExpandShrinks(g, st);
      Loop(g, end, Expand(g, st))
  }
}

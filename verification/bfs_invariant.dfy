/** What stays true of the `bfsRoute` state between two dequeues, and the
    proof that every step keeps it. The level of a visited node is the
    number of edges in its `previous` chain; the queue holds at most two
    consecutive levels in order, and every node reachable in fewer edges
    than the front node's level has already been dequeued. */
module BfsInvariant {
  import opened Keys
  import opened Graphs
  import opened BfsSearch

  /** The dequeued nodes: the visited ones that have left the queue. */
  function Done(st: BfsState): seq<LatLng> {
    if |st.queue| <= |st.visited| then st.visited[..|st.visited| - |st.queue|] else []
  }

  /** Visited nodes are distinct, the start node was visited first, and the
      queue holds the most recently visited nodes in visiting order. */
  ghost predicate Queued(start: LatLng, st: BfsState) {
    && NoDup(st.visited) && |st.visited| > 0 && st.visited[0] == start
    && |st.queue| <= |st.visited|
    && st.queue == st.visited[|st.visited| - |st.queue|..]
  }

  /** The start node has no predecessor; every other visited node has one. */
  ghost predicate Rooted(start: LatLng, prev: map<LatLng, LatLng>, visited: seq<LatLng>) {
    && start !in prev
    && forall i | 0 < i < |visited| :: visited[i] in prev
  }

  /** Each recorded predecessor is visited and has an edge to the node. */
  ghost predicate PrevLinks(g: Graph, prev: map<LatLng, LatLng>, visited: seq<LatLng>) {
    forall v {:trigger prev[v]} | v in prev :: prev[v] in visited && HasEdge(g, prev[v], v)
  }

  /** The number of edges on the `previous` chain of a visited node. */
  ghost function Level(prev: map<LatLng, LatLng>, visited: seq<LatLng>, v: LatLng): nat
    requires Ranked(prev, visited) && v in visited
  {
    |Trace(prev, visited, v)| - 1
  }

  /** No path from the start node reaches a visited node in fewer edges
      than its level. */
  ghost predicate Optimal(g: Graph, start: LatLng, prev: map<LatLng, LatLng>, visited: seq<LatLng>) {
    Ranked(prev, visited) && forall v | v in visited :: HopBound(g, start, v, Level(prev, visited, v))
  }

  /** The levels of the queued nodes, front first. */
  ghost function Levels(prev: map<LatLng, LatLng>, visited: seq<LatLng>, queue: seq<LatLng>): (ls: seq<nat>)
    requires Ranked(prev, visited) && forall x | x in queue :: x in visited
    ensures |ls| == |queue|
    ensures forall i | 0 <= i < |queue| :: ls[i] == Level(prev, visited, queue[i])
    decreases |queue|
  {
    if |queue| == 0 then [] else [Level(prev, visited, queue[0])] + Levels(prev, visited, queue[1..])
  }

  /** Non-decreasing values, each `L` or `L + 1`. */
  ghost predicate Banded(ls: seq<nat>, L: nat) {
    && (forall i | 0 <= i < |ls| :: L <= ls[i] <= L + 1)
    && (forall i, j | 0 <= i <= j < |ls| :: ls[i] <= ls[j])
  }

  /** Queued nodes have level `L` or `L + 1`, in non-decreasing order. */
  ghost predicate Band(prev: map<LatLng, LatLng>, visited: seq<LatLng>, queue: seq<LatLng>, L: nat) {
    && Ranked(prev, visited)
    && (forall x | x in queue :: x in visited)
    && Banded(Levels(prev, visited, queue), L)
  }

  /** Every node reachable from the start node in fewer than `L` edges has
      been dequeued. */
  ghost predicate Complete(g: Graph, start: LatLng, done: seq<LatLng>, L: nat) {
    forall p | IsPath(g, p) && p[0] == start && |p| <= L :: p[|p| - 1] in done
  }

  /** Every destination of a dequeued node other than `u` is visited. */
  ghost predicate ClosedExcept(g: Graph, done: seq<LatLng>, visited: seq<LatLng>, u: LatLng) {
    forall x, ed | x in done && x != u && x in g && ed in g[x] :: ed.end in visited
  }

  /** Every destination of a dequeued node is visited. */
  ghost predicate Closed(g: Graph, done: seq<LatLng>, visited: seq<LatLng>) {
    forall x, ed | x in done && x in g && ed in g[x] :: ed.end in visited
  }

  /** The queue is banded around its front node's level, and everything
      closer than that level is done. */
  ghost predicate Frontier(g: Graph, start: LatLng, st: BfsState) {
    st.queue != [] ==>
      && Ranked(st.prev, st.visited) && st.queue[0] in st.visited
      && Band(st.prev, st.visited, st.queue, Level(st.prev, st.visited, st.queue[0]))
      && Complete(g, start, Done(st), Level(st.prev, st.visited, st.queue[0]))
  }

  /** The loop invariant of `bfsRoute`. */
  ghost predicate Inv(g: Graph, start: LatLng, end: LatLng, st: BfsState) {
    && Queued(start, st)
    && Rooted(start, st.prev, st.visited)
    && PrevLinks(g, st.prev, st.visited)
    && Optimal(g, start, st.prev, st.visited)
    && Closed(g, Done(st), st.visited)
    && end !in Done(st)
    && Frontier(g, start, st)
  }

  /** The state while the neighbours of the dequeued node `u`, of level `L`,
      are being discovered. */
  ghost predicate Expanding(g: Graph, start: LatLng, end: LatLng, s: BfsState, u: LatLng, L: nat) {
    && Queued(start, s)
    && Rooted(start, s.prev, s.visited)
    && PrevLinks(g, s.prev, s.visited)
    && Optimal(g, start, s.prev, s.visited)
    && u in Done(s) && Level(s.prev, s.visited, u) == L
    && ClosedExcept(g, Done(s), s.visited, u)
    && end !in Done(s)
    && Band(s.prev, s.visited, s.queue, L)
    && Complete(g, start, Done(s), L)
  }

  /** The state before the first dequeue satisfies the invariant. */
  lemma InitialInv(g: Graph, start: LatLng, end: LatLng)
    ensures Inv(g, start, end, Initial(start))
  {
    var st := Initial(start);
    assert Trace(st.prev, st.visited, start) == [start];
    assert Levels(st.prev, st.visited, st.queue) == [0];
    assert Done(st) == [];
  }

  // ---------------------------------------------------------------------
  // Dequeuing the front node

  /** The front node joins the done nodes. */
  lemma DequeueDone(st: BfsState)
    requires |st.queue| > 0 && |st.queue| <= |st.visited| && st.queue == st.visited[|st.visited| - |st.queue|..]
    ensures Done(st.(queue := st.queue[1..])) == Done(st) + [st.queue[0]]
  {
    var k := |st.visited| - |st.queue|;
    assert st.queue[0] == st.visited[k];
    assert st.visited[..k + 1] == st.visited[..k] + [st.visited[k]];
  }

  lemma BandTail(prev: map<LatLng, LatLng>, visited: seq<LatLng>, queue: seq<LatLng>, L: nat)
    requires Band(prev, visited, queue, L) && queue != []
    ensures Band(prev, visited, queue[1..], L)
  {
    var ls := Levels(prev, visited, queue);
    assert Levels(prev, visited, queue[1..]) == ls[1..];
  }

  lemma ClosedDequeue(g: Graph, done: seq<LatLng>, visited: seq<LatLng>, u: LatLng)
    requires Closed(g, done, visited)
    ensures ClosedExcept(g, done + [u], visited, u)
  {
  }

  lemma CompleteGrow(g: Graph, start: LatLng, done: seq<LatLng>, x: LatLng, L: nat)
    requires Complete(g, start, done, L)
    ensures Complete(g, start, done + [x], L)
  {
  }

  /** Dequeuing keeps the queue a suffix of the visited nodes. */
  lemma DequeueQueued(start: LatLng, st: BfsState, s1: BfsState)
    requires Queued(start, st) && st.queue != []
    requires s1 == st.(queue := st.queue[1..])
    ensures Queued(start, s1)
    ensures Done(s1) == Done(st) + [st.queue[0]]
  {
    DequeueDone(st);
    assert s1.queue == s1.visited[|s1.visited| - |s1.queue|..];
  }

  /** Dequeuing the front node `u`, of level `L`, starts its expansion. */
  lemma DequeueExpanding(g: Graph, start: LatLng, end: LatLng, st: BfsState, s1: BfsState, u: LatLng, L: nat)
    requires Inv(g, start, end, st) && st.queue != [] && st.queue[0] != end
    requires u == st.queue[0] && s1 == st.(queue := st.queue[1..])
    requires Ranked(st.prev, st.visited) && u in st.visited && L == Level(st.prev, st.visited, u)
    ensures Expanding(g, start, end, s1, u, L)
  {
    DequeueQueued(start, st, s1);
    BandTail(st.prev, st.visited, st.queue, L);
    ClosedDequeue(g, Done(st), st.visited, u);
    CompleteGrow(g, start, Done(st), u, L);
  }

  // ---------------------------------------------------------------------
  // Discovering one neighbour

  lemma DiscoverQueued(start: LatLng, s: BfsState, u: LatLng, v: LatLng)
    requires Queued(start, s) && v !in s.visited
    ensures Queued(start, Discover(s, u, v))
    ensures Done(Discover(s, u, v)) == Done(s)
  {
    var r := Discover(s, u, v);
    var k := |s.visited| - |s.queue|;
    assert r.visited[..k] == s.visited[..k];
    assert r.visited[k..] == s.visited[k..] + [v];
  }

  lemma DiscoverLinks(g: Graph, start: LatLng, prev: map<LatLng, LatLng>, visited: seq<LatLng>, u: LatLng, v: LatLng)
    requires Rooted(start, prev, visited) && PrevLinks(g, prev, visited)
    requires |visited| > 0 && visited[0] == start
    requires u in visited && v !in visited && HasEdge(g, u, v)
    ensures Rooted(start, prev[v := u], visited + [v])
    ensures PrevLinks(g, prev[v := u], visited + [v])
  {
  }

  /** A node first seen from `u` of level `L` cannot be reached from the
      start node in `L` edges or fewer. */
  lemma NewLevelBound(g: Graph, start: LatLng, done: seq<LatLng>, visited: seq<LatLng>,
                      u: LatLng, L: nat, v: LatLng, p: seq<LatLng>)
    requires Complete(g, start, done, L) && ClosedExcept(g, done, visited, u)
    requires HopBound(g, start, u, L) && start in visited && v !in visited
    requires PathFromTo(g, p, start, v)
    ensures L + 1 <= |p| - 1
  {
    var n := |p|;
    assert n >= 2;
    var w := p[n - 2];
    PathPrefix(g, p, n - 2);
    var q := p[..n - 1];
    assert q[0] == start && q[|q| - 1] == w;
    assert HasEdge(g, w, v);
    var ed :| ed in g[w] && ed.end == v;
  }

  /** Discovering `v` from `u` gives it the level after `u`'s and keeps
      every other level. */
  lemma DiscoverLevel(prev: map<LatLng, LatLng>, visited: seq<LatLng>, u: LatLng, v: LatLng)
    requires Ranked(prev, visited) && u in visited && v !in visited
    ensures Ranked(prev[v := u], visited + [v])
    ensures Level(prev[v := u], visited + [v], v) == Level(prev, visited, u) + 1
    ensures forall x | x in visited :: Level(prev[v := u], visited + [v], x) == Level(prev, visited, x)
  {
    TraceNew(prev, visited, u, v);
    forall x | x in visited
      ensures Level(prev[v := u], visited + [v], x) == Level(prev, visited, x)
    {
      TraceExtend(prev, visited, u, v, x);
    }
  }

  /** Discovering `v` from `u` of level `L` keeps the levels optimal. */
  lemma DiscoverOptimal(g: Graph, start: LatLng, done: seq<LatLng>, prev: map<LatLng, LatLng>, visited: seq<LatLng>,
                        u: LatLng, L: nat, v: LatLng)
    requires Optimal(g, start, prev, visited)
    requires Complete(g, start, done, L) && ClosedExcept(g, done, visited, u)
    requires u in visited && Level(prev, visited, u) == L
    requires start in visited && v !in visited
    ensures Optimal(g, start, prev[v := u], visited + [v])
  {
    DiscoverLevel(prev, visited, u, v);
    forall p | PathFromTo(g, p, start, v)
      ensures L + 1 <= |p| - 1
    {
      NewLevelBound(g, start, done, visited, u, L, v, p);
    }
  }

  lemma BandedAppend(ls: seq<nat>, L: nat)
    requires Banded(ls, L)
    ensures Banded(ls + [L + 1], L)
  {
  }

  /** Queuing `v` at level `L + 1` keeps the queue banded. */
  lemma DiscoverBand(prev: map<LatLng, LatLng>, visited: seq<LatLng>, queue: seq<LatLng>, u: LatLng, L: nat, v: LatLng)
    requires Band(prev, visited, queue, L)
    requires u in visited && Level(prev, visited, u) == L && v !in visited
    ensures Band(prev[v := u], visited + [v], queue + [v], L)
  {
    var p2, vis2, q2 := prev[v := u], visited + [v], queue + [v];
    DiscoverLevel(prev, visited, u, v);
    var ls := Levels(prev, visited, queue);
    assert Levels(p2, vis2, q2) == ls + [L + 1];
    BandedAppend(ls, L);
  }

  lemma DiscoverExpanding(g: Graph, start: LatLng, end: LatLng, s: BfsState, u: LatLng, L: nat, v: LatLng)
    requires Expanding(g, start, end, s, u, L) && HasEdge(g, u, v)
    ensures Expanding(g, start, end, Discover(s, u, v), u, L)
  {
    if v !in s.visited {
      var r := Discover(s, u, v);
      DiscoverQueued(start, s, u, v);
      DiscoverLinks(g, start, s.prev, s.visited, u, v);
      DiscoverLevel(s.prev, s.visited, u, v);
      DiscoverOptimal(g, start, Done(s), s.prev, s.visited, u, L, v);
      DiscoverBand(s.prev, s.visited, s.queue, u, L, v);
      assert ClosedExcept(g, Done(r), r.visited, u);
    }
  }

  /** The whole neighbour loop of `u` keeps the expansion invariant. */
  lemma {:induction false} NeighboursExpanding(g: Graph, start: LatLng, end: LatLng, s: BfsState,
                                               u: LatLng, L: nat, edges: seq<Edge>)
    requires Expanding(g, start, end, s, u, L) && u in g
    requires forall ed | ed in edges :: ed in g[u]
    ensures Expanding(g, start, end, Neighbours(s, u, edges), u, L)
    decreases |edges|
  {
    if |edges| > 0 {
      var v := edges[0].end;
      assert edges[0] in g[u];
      assert HasEdge(g, u, v);
      DiscoverExpanding(g, start, end, s, u, L, v);
      assert forall ed | ed in edges[1..] :: ed in edges;
      NeighboursExpanding(g, start, end, Discover(s, u, v), u, L, edges[1..]);
    }
  }

  // ---------------------------------------------------------------------
  // Back to the loop invariant

  /** A visited node at level at most `L` is done once every queued node is
      above level `L`. */
  lemma LowDone(s: BfsState, x: LatLng, L: nat)
    requires |s.queue| <= |s.visited| && s.queue == s.visited[|s.visited| - |s.queue|..]
    requires Ranked(s.prev, s.visited) && x in s.visited && Level(s.prev, s.visited, x) <= L
    requires forall y | y in s.queue :: y in s.visited && L + 1 <= Level(s.prev, s.visited, y)
    ensures x in Done(s)
  {
    assert s.visited == Done(s) + s.queue;
  }

  /** When the front level goes up by one, every node one edge past the old
      level is done. */
  lemma CompleteNext(g: Graph, start: LatLng, s: BfsState, L: nat)
    requires Queued(start, s) && Optimal(g, start, s.prev, s.visited)
    requires Complete(g, start, Done(s), L) && Closed(g, Done(s), s.visited)
    requires forall y | y in s.queue :: y in s.visited && L + 1 <= Level(s.prev, s.visited, y)
    ensures Complete(g, start, Done(s), L + 1)
  {
    forall p | IsPath(g, p) && p[0] == start && |p| <= L + 1
      ensures p[|p| - 1] in Done(s)
    {
      var n := |p|;
      var x := p[n - 1];
      if n > 1 {
        var w := p[n - 2];
        PathPrefix(g, p, n - 2);
        assert p[..n - 1][0] == start && p[..n - 1][n - 2] == w;
        assert HasEdge(g, w, x);
        var ed :| ed in g[w] && ed.end == x;
      }
      assert x in s.visited;
      assert PathFromTo(g, p, start, x);
      LowDone(s, x, L);
    }
  }

  lemma BandedUp(ls: seq<nat>, L: nat)
    requires Banded(ls, L) && |ls| > 0 && ls[0] != L
    ensures Banded(ls, L + 1)
  {
    assert forall i | 0 <= i < |ls| :: ls[0] <= ls[i];
  }

  /** When the front node is one level up, so is every queued node. */
  lemma QueueAbove(prev: map<LatLng, LatLng>, visited: seq<LatLng>, queue: seq<LatLng>, L: nat)
    requires Band(prev, visited, queue, L) && queue != [] && Level(prev, visited, queue[0]) != L
    ensures Band(prev, visited, queue, L + 1)
    ensures forall y | y in queue :: y in visited && L + 1 <= Level(prev, visited, y)
  {
    var ls := Levels(prev, visited, queue);
    BandedUp(ls, L);
    forall y | y in queue
      ensures L + 1 <= Level(prev, visited, y)
    {
      var j :| 0 <= j < |queue| && queue[j] == y;
      assert ls[j] == Level(prev, visited, y);
    }
  }

  /** When the front level goes up by one, the queue is banded around the
      new level and everything closer is done. */
  lemma FrontierUp(g: Graph, start: LatLng, s: BfsState, L: nat)
    requires Queued(start, s) && Optimal(g, start, s.prev, s.visited)
    requires Band(s.prev, s.visited, s.queue, L) && Complete(g, start, Done(s), L)
    requires Closed(g, Done(s), s.visited)
    requires s.queue != [] && Level(s.prev, s.visited, s.queue[0]) != L
    ensures Band(s.prev, s.visited, s.queue, L + 1) && Complete(g, start, Done(s), L + 1)
  {
    QueueAbove(s.prev, s.visited, s.queue, L);
    CompleteNext(g, start, s, L);
  }

  /** After the neighbour loop the queue is banded around its new front
      node's level, and everything closer is done. */
  lemma FrontierAfter(g: Graph, start: LatLng, s: BfsState, L: nat)
    requires Queued(start, s) && Optimal(g, start, s.prev, s.visited)
    requires Band(s.prev, s.visited, s.queue, L) && Complete(g, start, Done(s), L)
    requires Closed(g, Done(s), s.visited)
    ensures Frontier(g, start, s)
  {
    if s.queue != [] {
      var L2 := Level(s.prev, s.visited, s.queue[0]);
      if L2 != L {
        FrontierUp(g, start, s, L);
        assert L2 == L + 1;
      }
    }
  }

  /** After the neighbour loop of `u` the invariant holds again. */
  lemma FinishExpanding(g: Graph, start: LatLng, end: LatLng, s: BfsState, u: LatLng, L: nat)
    requires Expanding(g, start, end, s, u, L)
    requires u in g ==> forall ed | ed in g[u] :: ed.end in s.visited
    ensures Inv(g, start, end, s)
  {
    assert Closed(g, Done(s), s.visited);
    FrontierAfter(g, start, s, L);
  }

  /** One step of the loop keeps the invariant. */
  lemma StepInv(g: Graph, start: LatLng, end: LatLng, st: BfsState)
    requires Inv(g, start, end, st) && st.queue != [] && st.queue[0] != end
    ensures Inv(g, start, end, Expand(g, st))
  {
    var u := st.queue[0];
    var s1 := st.(queue := st.queue[1..]);
    var L := Level(st.prev, st.visited, u);
    DequeueExpanding(g, start, end, st, s1, u, L);
    if u in g {
      NeighboursExpanding(g, start, end, s1, u, L, g[u]);
      FinishExpanding(g, start, end, Neighbours(s1, u, g[u]), u, L);
    } else {
      FinishExpanding(g, start, end, s1, u, L);
    }
  }

  /** The loop keeps the invariant. */
  lemma {:induction false} LoopInv(g: Graph, start: LatLng, end: LatLng, st: BfsState)
    requires Inv(g, start, end, st)
    ensures Inv(g, start, end, Loop(g, end, st))
    decreases |EdgeEnds(g) - VisitedSet(st)|, |st.queue|
  {
    if st.queue != [] && st.queue[0] != end {
      ExpandShrinks(g, st);
      StepInv(g, start, end, st);
      LoopInv(g, start, end, Expand(g, st));
    }
  }
}

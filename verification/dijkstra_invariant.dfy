/** What stays true of the search state between two dequeues of
    `dijkstraRoute`, given non-negative weights and a least-priority dequeue,
    and the proof that every step keeps it. Each invariant is stated over the
    parts of the state it reads, so that a step that leaves those parts alone
    visibly keeps it. */
module DijkstraInvariant {
  import opened Keys
  import opened Graphs
  import opened DijkstraSearch

  /** Every graph key has a `distances` entry and the start node's is 0. */
  ghost predicate Domain(g: Graph, start: LatLng, dist: map<LatLng, Dist>) {
    g.Keys <= dist.Keys && start in dist && dist[start] == Fin(0)
  }

  /** Visited nodes are distinct and have finite distances. */
  ghost predicate VisitedFinite(dist: map<LatLng, Dist>, visited: seq<LatLng>) {
    && NoDup(visited)
    && forall v | v in visited :: v in dist && dist[v].Fin?
  }

  /** Every queue entry names a node with a finite distance no larger than
      the entry's priority (entries for since-improved nodes are stale). */
  ghost predicate QueueSound(dist: map<LatLng, Dist>, queue: multiset<Entry>) {
    forall e | e in queue :: e.node in dist && dist[e.node].Fin? && dist[e.node].n <= e.priority
  }

  /** Every unvisited node with a finite distance is queued with exactly that
      distance. */
  ghost predicate QueueComplete(dist: map<LatLng, Dist>, visited: seq<LatLng>, queue: multiset<Entry>) {
    forall v | v in dist && v !in visited && dist[v].Fin? :: Entry(v, dist[v].n) in queue
  }

  /** The start node has no predecessor and is visited first; every other
      visited or queued node has a predecessor. */
  ghost predicate Rooted(start: LatLng, prev: map<LatLng, LatLng>, visited: seq<LatLng>, queue: multiset<Entry>) {
    && start !in prev
    && (|visited| > 0 ==> visited[0] == start)
    && (forall i | 0 < i < |visited| :: visited[i] in prev)
    && (forall e | e in queue :: e.node == start || e.node in prev)
  }

  /** Each recorded predecessor is visited and is joined to the node by an
      edge whose weight is exactly the difference of their distances. */
  ghost predicate PrevEdges(g: Graph, dist: map<LatLng, Dist>, prev: map<LatLng, LatLng>, visited: seq<LatLng>) {
    forall v {:trigger prev[v]} | v in prev ::
      && v in dist && dist[v].Fin?
      && prev[v] in visited && prev[v] in g
      && prev[v] in dist && dist[prev[v]].Fin?
      && dist[prev[v]].n <= dist[v].n
      && Edge(v, dist[v].n - dist[prev[v]].n) in g[prev[v]]
  }

  /** No visited node is farther than an unvisited one with a finite
      distance. */
  ghost predicate Settled(dist: map<LatLng, Dist>, visited: seq<LatLng>) {
    forall x, y | x in visited && y in dist && y !in visited && dist[y].Fin? ::
      x in dist && dist[x].Fin? && dist[x].n <= dist[y].n
  }

  /** The distance of every visited node is a lower bound on every walk to
      it from the start node. */
  ghost predicate Optimal(g: Graph, start: LatLng, dist: map<LatLng, Dist>, visited: seq<LatLng>) {
    forall x | x in visited :: x in dist && dist[x].Fin? && LowerBound(g, start, x, dist[x].n)
  }

  /** The edge `x -> ed.end` is relaxed: its destination, when it has a
      `distances` entry, is no farther than `distances[x] + ed.weight`. */
  ghost predicate EdgeRelaxed(dist: map<LatLng, Dist>, x: LatLng, ed: Edge) {
    && x in dist && dist[x].Fin?
    && (ed.end in dist ==> dist[ed.end].Fin? && dist[ed.end].n <= dist[x].n + ed.weight)
  }

  /** All outgoing edges of `x` are relaxed. */
  ghost predicate RelaxedFrom(g: Graph, dist: map<LatLng, Dist>, x: LatLng) {
    x in g ==> forall ed | ed in g[x] :: EdgeRelaxed(dist, x, ed)
  }

  /** Every visited node other than `end` and `u` has been expanded. */
  ghost predicate RelaxedExcept(g: Graph, end: LatLng, dist: map<LatLng, Dist>, visited: seq<LatLng>, u: LatLng) {
    forall x | x in visited && x != end && x != u :: RelaxedFrom(g, dist, x)
  }

  /** Every visited node other than the end node has been expanded. */
  ghost predicate Relaxed(g: Graph, end: LatLng, dist: map<LatLng, Dist>, visited: seq<LatLng>) {
    forall x | x in visited && x != end :: RelaxedFrom(g, dist, x)
  }

  /** `u` is visited and no visited node is farther. */
  ghost predicate Farthest(dist: map<LatLng, Dist>, visited: seq<LatLng>, u: LatLng) {
    && u in visited && u in dist && dist[u].Fin?
    && forall x | x in visited :: x in dist && dist[x].Fin? && dist[x].n <= dist[u].n
  }

  /** While `u` is being expanded: no visited node is farther than `u`, and
      every other visited node except the end node has been expanded. */
  ghost predicate Frontier(g: Graph, end: LatLng, dist: map<LatLng, Dist>, visited: seq<LatLng>, u: LatLng) {
    Farthest(dist, visited, u) && RelaxedExcept(g, end, dist, visited, u)
  }

  /** Every invariant except the one about expanded nodes. */
  ghost predicate Core(g: Graph, start: LatLng, st: SearchState) {
    && Domain(g, start, st.dist)
    && VisitedFinite(st.dist, st.visited)
    && QueueSound(st.dist, st.queue)
    && QueueComplete(st.dist, st.visited, st.queue)
    && Rooted(start, st.prev, st.visited, st.queue)
    && PrevEdges(g, st.dist, st.prev, st.visited)
    && Ranked(st.prev, st.visited)
    && Settled(st.dist, st.visited)
    && Optimal(g, start, st.dist, st.visited)
  }

  /** The loop invariant of `dijkstraRoute`. */
  ghost predicate Inv(g: Graph, start: LatLng, end: LatLng, st: SearchState) {
    Core(g, start, st) && Relaxed(g, end, st.dist, st.visited)
  }

  /** The state while the neighbours of the just-visited node `u` are being
      relaxed. */
  ghost predicate Expanding(g: Graph, start: LatLng, end: LatLng, st: SearchState, u: LatLng) {
    && Core(g, start, st)
    && u != end && u in g
    && Frontier(g, end, st.dist, st.visited, u)
  }

  /** The state `dijkstraRoute` starts from satisfies the invariant, whether
      or not the start node is a graph key. */
  lemma InitialInv(g: Graph, domain: set<LatLng>, start: LatLng, end: LatLng)
    requires g.Keys <= domain
    ensures Inv(g, start, end, Initial(domain, start, 0))
  {
  }

  // ---------------------------------------------------------------------
  // Dropping a stale entry

  lemma SkipQueue(dist: map<LatLng, Dist>, visited: seq<LatLng>, queue: multiset<Entry>, e: Entry)
    requires e in queue && e.node in visited
    requires QueueSound(dist, queue) && QueueComplete(dist, visited, queue)
    ensures QueueSound(dist, queue - multiset{e}) && QueueComplete(dist, visited, queue - multiset{e})
  {
    forall v | v in dist && v !in visited && dist[v].Fin?
      ensures Entry(v, dist[v].n) in queue - multiset{e}
    {
      assert Entry(v, dist[v].n) in queue;
    }
  }

  lemma SkipRooted(start: LatLng, prev: map<LatLng, LatLng>, visited: seq<LatLng>, queue: multiset<Entry>, e: Entry)
    requires Rooted(start, prev, visited, queue)
    ensures Rooted(start, prev, visited, queue - multiset{e})
  {
  }

  /** Dropping a stale entry keeps the invariant. */
  lemma SkipInv(g: Graph, start: LatLng, end: LatLng, st: SearchState, e: Entry)
    requires Inv(g, start, end, st)
    requires e in st.queue && e.node in st.visited
    ensures Inv(g, start, end, Skip(st, e))
  {
    SkipQueue(st.dist, st.visited, st.queue, e);
    SkipRooted(start, st.prev, st.visited, st.queue, e);
  }

  // ---------------------------------------------------------------------
  // Settling the least entry

  /** The dequeued least entry of an unvisited node carries exactly that
      node's distance, which is no larger than any unvisited finite
      distance. */
  lemma PopIsLeast(dist: map<LatLng, Dist>, visited: seq<LatLng>, queue: multiset<Entry>, e: Entry)
    requires QueueSound(dist, queue) && QueueComplete(dist, visited, queue)
    requires e in queue && e.node !in visited
    requires forall f | f in queue :: e.priority <= f.priority
    ensures e.node in dist && dist[e.node] == Fin(e.priority)
    ensures forall y | y in dist && y !in visited && dist[y].Fin? :: e.priority <= dist[y].n
  {
    assert Entry(e.node, dist[e.node].n) in queue;
    forall y | y in dist && y !in visited && dist[y].Fin?
      ensures e.priority <= dist[y].n
    {
      assert Entry(y, dist[y].n) in queue;
    }
  }

  /** The distance of the node about to be settled bounds every walk to it:
      a walk from the visited start must leave the visited set somewhere,
      and the edge it leaves by is relaxed. */
  lemma PopOptimal(g: Graph, start: LatLng, end: LatLng, dist: map<LatLng, Dist>, visited: seq<LatLng>, u: LatLng)
    requires Domain(g, start, dist)
    requires Relaxed(g, end, dist, visited) && Optimal(g, start, dist, visited)
    requires end !in visited && u !in visited && u in dist && dist[u].Fin?
    requires forall y | y in dist && y !in visited && dist[y].Fin? :: dist[u].n <= dist[y].n
    ensures LowerBound(g, start, u, dist[u].n)
  {
    forall p, ws | IsWalk(g, p, ws) && p[0] == start && p[|p| - 1] == u
      ensures dist[u].n <= Sum(ws)
    {
      var vis := set x | x in visited;
      if start in vis {
        var i := Crossing(p, vis);
        var x := p[i - 1];
        var ed := Edge(p[i], ws[i - 1]);
        assert x in g && ed in g[x];
        assert p[i] in dist by {
          if i < |ws| {
            assert p[i] in g;
          }
        }
        assert RelaxedFrom(g, dist, x);
        assert EdgeRelaxed(dist, x, ed);
        WalkPrefix(g, p, ws, i - 1);
        assert p[..i][0] == start && p[..i][i - 1] == x;
        assert dist[x].n <= Sum(ws[..i - 1]);
        SumStep(ws, i - 1);
        SumPrefix(ws, i);
      }
    }
  }

  lemma SettleVisited(dist: map<LatLng, Dist>, visited: seq<LatLng>, queue: multiset<Entry>, e: Entry)
    requires VisitedFinite(dist, visited) && QueueSound(dist, queue) && QueueComplete(dist, visited, queue)
    requires e in queue && e.node !in visited
    ensures VisitedFinite(dist, visited + [e.node])
    ensures QueueSound(dist, queue - multiset{e})
    ensures QueueComplete(dist, visited + [e.node], queue - multiset{e})
  {
    forall v | v in dist && v !in visited + [e.node] && dist[v].Fin?
      ensures Entry(v, dist[v].n) in queue - multiset{e}
    {
      assert Entry(v, dist[v].n) in queue;
    }
  }

  lemma SettleRooted(g: Graph, start: LatLng, dist: map<LatLng, Dist>, prev: map<LatLng, LatLng>,
                     visited: seq<LatLng>, queue: multiset<Entry>, e: Entry)
    requires Rooted(start, prev, visited, queue) && PrevEdges(g, dist, prev, visited)
    requires e in queue && e.node !in visited
    ensures Rooted(start, prev, visited + [e.node], queue - multiset{e})
  {
  }

  lemma SettlePrevEdges(g: Graph, dist: map<LatLng, Dist>, prev: map<LatLng, LatLng>, visited: seq<LatLng>, u: LatLng)
    requires PrevEdges(g, dist, prev, visited)
    ensures PrevEdges(g, dist, prev, visited + [u])
  {
  }

  lemma SettleRanked(g: Graph, dist: map<LatLng, Dist>, prev: map<LatLng, LatLng>, visited: seq<LatLng>, u: LatLng)
    requires PrevEdges(g, dist, prev, visited) && Ranked(prev, visited) && u !in visited
    ensures Ranked(prev, visited + [u])
  {
    var vis := visited + [u];
    forall v | v in prev && v in vis
      ensures prev[v] in vis && IndexOf(vis, prev[v]) < IndexOf(vis, v)
    {
      assert prev[v] in visited;
      IndexOfAppend(visited, u, prev[v]);
      if v == u {
        IndexOfLast(visited, u);
      } else {
        IndexOfAppend(visited, u, v);
      }
    }
  }

  lemma SettleOrder(g: Graph, start: LatLng, end: LatLng, dist: map<LatLng, Dist>, visited: seq<LatLng>, u: LatLng)
    requires Domain(g, start, dist)
    requires Settled(dist, visited) && Optimal(g, start, dist, visited) && Relaxed(g, end, dist, visited)
    requires end !in visited && u !in visited && u in dist && dist[u].Fin?
    requires forall y | y in dist && y !in visited && dist[y].Fin? :: dist[u].n <= dist[y].n
    ensures Settled(dist, visited + [u])
    ensures Optimal(g, start, dist, visited + [u])
    ensures Frontier(g, end, dist, visited + [u], u)
  {
    PopOptimal(g, start, end, dist, visited, u);
  }

  /** Marking the least queued unvisited node visited keeps every invariant
      except that the node still has to be expanded; it is then the farthest
      visited node. */
  lemma SettleInv(g: Graph, start: LatLng, end: LatLng, st: SearchState, e: Entry)
    requires Inv(g, start, end, st) && end !in st.visited
    requires e in st.queue && e.node !in st.visited
    requires forall f | f in st.queue :: e.priority <= f.priority
    ensures Core(g, start, Settle(st, e))
    ensures Frontier(g, end, Settle(st, e).dist, Settle(st, e).visited, e.node)
  {
    PopIsLeast(st.dist, st.visited, st.queue, e);
    SettleVisited(st.dist, st.visited, st.queue, e);
    SettleRooted(g, start, st.dist, st.prev, st.visited, st.queue, e);
    SettlePrevEdges(g, st.dist, st.prev, st.visited, e.node);
    SettleRanked(g, st.dist, st.prev, st.visited, e.node);
    SettleOrder(g, start, end, st.dist, st.visited, e.node);
  }

  // ---------------------------------------------------------------------
  // Relaxing the edges of the node being expanded

  /** A strict improvement never targets a visited node: none is farther
      than the node being expanded. */
  lemma ImprovesUnvisited(g: Graph, start: LatLng, st: SearchState, u: LatLng, ed: Edge)
    requires Domain(g, start, st.dist) && Farthest(st.dist, st.visited, u)
    requires Improves(st, u, ed)
    ensures ed.end !in st.visited && ed.end != start
  {
  }

  lemma RelaxQueue(dist: map<LatLng, Dist>, visited: seq<LatLng>, queue: multiset<Entry>, v: LatLng, d: nat)
    requires QueueSound(dist, queue) && QueueComplete(dist, visited, queue)
    requires v in dist && Less(Fin(d), dist[v]) && v !in visited
    ensures QueueSound(dist[v := Fin(d)], queue + multiset{Entry(v, d)})
    ensures QueueComplete(dist[v := Fin(d)], visited, queue + multiset{Entry(v, d)})
  {
  }

  lemma RelaxRooted(start: LatLng, prev: map<LatLng, LatLng>, visited: seq<LatLng>, queue: multiset<Entry>,
                    u: LatLng, v: LatLng, d: nat)
    requires Rooted(start, prev, visited, queue) && v != start
    ensures Rooted(start, prev[v := u], visited, queue + multiset{Entry(v, d)})
  {
  }

  lemma RelaxRanked(prev: map<LatLng, LatLng>, visited: seq<LatLng>, u: LatLng, v: LatLng)
    requires Ranked(prev, visited) && v !in visited
    ensures Ranked(prev[v := u], visited)
  {
    forall y | y in prev[v := u] && y in visited
      ensures prev[v := u][y] == prev[y]
    {
    }
  }

  lemma RelaxPrevEdges(g: Graph, dist: map<LatLng, Dist>, prev: map<LatLng, LatLng>,
                       visited: seq<LatLng>, u: LatLng, ed: Edge)
    requires PrevEdges(g, dist, prev, visited)
    requires u in visited && u in g && ed in g[u] && u in dist && dist[u].Fin?
    requires ed.end in dist && ed.end !in visited
    ensures PrevEdges(g, dist[ed.end := Fin(dist[u].n + ed.weight)], prev[ed.end := u], visited)
  {
    var v := ed.end;
    var d := dist[u].n + ed.weight;
    var dist' := dist[v := Fin(d)];
    var prev' := prev[v := u];
    forall y | y in prev'
      ensures && y in dist' && dist'[y].Fin?
              && prev'[y] in visited && prev'[y] in g
              && prev'[y] in dist' && dist'[prev'[y]].Fin?
              && dist'[prev'[y]].n <= dist'[y].n
              && Edge(y, dist'[y].n - dist'[prev'[y]].n) in g[prev'[y]]
    {
      if y == v {
        assert Edge(v, d - dist[u].n) == ed;
      } else {
        assert prev[y] != v;
      }
    }
  }

  lemma RelaxDomain(g: Graph, start: LatLng, dist: map<LatLng, Dist>, v: LatLng, d: nat)
    requires Domain(g, start, dist) && v in dist && v != start
    ensures Domain(g, start, dist[v := Fin(d)])
  {
  }

  lemma RelaxSettled(dist: map<LatLng, Dist>, visited: seq<LatLng>, u: LatLng, v: LatLng, d: nat)
    requires Settled(dist, visited) && VisitedFinite(dist, visited) && Farthest(dist, visited, u)
    requires v in dist && v !in visited && dist[u].n <= d
    ensures Settled(dist[v := Fin(d)], visited) && VisitedFinite(dist[v := Fin(d)], visited)
  {
  }

  lemma RelaxOptimal(g: Graph, start: LatLng, dist: map<LatLng, Dist>, visited: seq<LatLng>, v: LatLng, d: nat)
    requires Optimal(g, start, dist, visited) && v !in visited
    ensures Optimal(g, start, dist[v := Fin(d)], visited)
  {
  }

  lemma RelaxFrontier(g: Graph, end: LatLng, dist: map<LatLng, Dist>, visited: seq<LatLng>, u: LatLng, v: LatLng, d: nat)
    requires Frontier(g, end, dist, visited, u)
    requires v in dist && v !in visited && Less(Fin(d), dist[v])
    ensures Frontier(g, end, dist[v := Fin(d)], visited, u)
  {
    var dist' := dist[v := Fin(d)];
    forall x, f | x in visited && x != end && x != u && x in g && f in g[x]
      ensures EdgeRelaxed(dist', x, f)
    {
      assert RelaxedFrom(g, dist, x);
      assert EdgeRelaxed(dist, x, f);
    }
  }

  /** The invariants about distances survive a strict improvement of an
      unvisited node that is no nearer than the node being expanded. */
  lemma ImprovedDist(g: Graph, start: LatLng, dist: map<LatLng, Dist>, visited: seq<LatLng>, u: LatLng, v: LatLng, d: nat)
    requires Domain(g, start, dist) && VisitedFinite(dist, visited)
    requires Settled(dist, visited) && Optimal(g, start, dist, visited) && Farthest(dist, visited, u)
    requires v in dist && v !in visited && v != start && dist[u].n <= d
    ensures Domain(g, start, dist[v := Fin(d)]) && VisitedFinite(dist[v := Fin(d)], visited)
    ensures Settled(dist[v := Fin(d)], visited) && Optimal(g, start, dist[v := Fin(d)], visited)
  {
    RelaxDomain(g, start, dist, v, d);
    RelaxSettled(dist, visited, u, v, d);
    RelaxOptimal(g, start, dist, visited, v, d);
  }

  /** The invariants about the queue survive a strict improvement of an
      unvisited node other than the start node. */
  lemma ImprovedQueue(start: LatLng, dist: map<LatLng, Dist>, prev: map<LatLng, LatLng>,
                      visited: seq<LatLng>, queue: multiset<Entry>, u: LatLng, v: LatLng, d: nat)
    requires QueueSound(dist, queue) && QueueComplete(dist, visited, queue)
    requires Rooted(start, prev, visited, queue)
    requires v in dist && Less(Fin(d), dist[v]) && v !in visited && v != start
    ensures QueueSound(dist[v := Fin(d)], queue + multiset{Entry(v, d)})
    ensures QueueComplete(dist[v := Fin(d)], visited, queue + multiset{Entry(v, d)})
    ensures Rooted(start, prev[v := u], visited, queue + multiset{Entry(v, d)})
  {
    RelaxQueue(dist, visited, queue, v, d);
    RelaxRooted(start, prev, visited, queue, u, v, d);
  }

  /** The invariants about predecessor links survive a strict improvement
      through an edge of the node being expanded. */
  lemma ImprovedLinks(g: Graph, dist: map<LatLng, Dist>, prev: map<LatLng, LatLng>,
                      visited: seq<LatLng>, u: LatLng, ed: Edge, v: LatLng, d: nat)
    requires PrevEdges(g, dist, prev, visited) && Ranked(prev, visited)
    requires u in visited && u in g && u in dist && dist[u].Fin?
    requires ed in g[u] && v == ed.end && v in dist && d == dist[u].n + ed.weight && v !in visited
    ensures PrevEdges(g, dist[v := Fin(d)], prev[v := u], visited)
    ensures Ranked(prev[v := u], visited)
  {
    RelaxRanked(prev, visited, u, v);
    RelaxPrevEdges(g, dist, prev, visited, u, ed);
  }

  /** A strict improvement of `v`'s distance to `d` through the edge `ed`
      of the node being expanded keeps the invariant. */
  lemma ImprovedInv(g: Graph, start: LatLng, end: LatLng, st: SearchState, u: LatLng, ed: Edge, v: LatLng, d: nat)
    requires Expanding(g, start, end, st, u)
    requires ed in g[u] && v == ed.end && v in st.dist && d == st.dist[u].n + ed.weight && Less(Fin(d), st.dist[v])
    ensures Expanding(g, start, end, SearchState(st.dist[v := Fin(d)], st.prev[v := u], st.visited,
                                                 st.queue + multiset{Entry(v, d)}), u)
  {
    assert v !in st.visited && v != start;
    ImprovedDist(g, start, st.dist, st.visited, u, v, d);
    ImprovedQueue(start, st.dist, st.prev, st.visited, st.queue, u, v, d);
    ImprovedLinks(g, st.dist, st.prev, st.visited, u, ed, v, d);
    RelaxFrontier(g, end, st.dist, st.visited, u, v, d);
  }

  /** The improving case of `RelaxEdgeInv`. */
  lemma RelaxEdgeImproved(g: Graph, start: LatLng, end: LatLng, st: SearchState, u: LatLng, ed: Edge)
    requires Expanding(g, start, end, st, u) && ed in g[u] && Improves(st, u, ed)
    ensures Expanding(g, start, end, RelaxEdge(st, u, ed), u)
    ensures EdgeRelaxed(RelaxEdge(st, u, ed).dist, u, ed)
    ensures forall x | x in st.visited :: RelaxEdge(st, u, ed).dist[x] == st.dist[x]
  {
    var v, d := ed.end, st.dist[u].n + ed.weight;
    var r := SearchState(st.dist[v := Fin(d)], st.prev[v := u], st.visited, st.queue + multiset{Entry(v, d)});
    ImprovedInv(g, start, end, st, u, ed, v, d);
    assert RelaxEdge(st, u, ed) == r;
    assert v !in st.visited;
  }

  /** Relaxing one edge of the node being expanded keeps the invariant and
      leaves that edge relaxed; visited distances do not change. */
  lemma RelaxEdgeInv(g: Graph, start: LatLng, end: LatLng, st: SearchState, u: LatLng, ed: Edge)
    requires Expanding(g, start, end, st, u) && ed in g[u]
    ensures Expanding(g, start, end, RelaxEdge(st, u, ed), u)
    ensures EdgeRelaxed(RelaxEdge(st, u, ed).dist, u, ed)
    ensures forall x | x in st.visited :: RelaxEdge(st, u, ed).dist[x] == st.dist[x]
  {
    if Improves(st, u, ed) {
      RelaxEdgeImproved(g, start, end, st, u, ed);
    } else if ed.end in st.dist {
      assert !Less(Plus(st.dist[u], ed.weight), st.dist[ed.end]);
    }
  }

  /** Relaxing a run of edges of the node being expanded keeps the invariant
      and leaves each of them relaxed. */
  lemma {:induction false} RelaxInv(g: Graph, start: LatLng, end: LatLng, st: SearchState, u: LatLng, edges: seq<Edge>)
    requires Expanding(g, start, end, st, u)
    requires forall i :: 0 <= i < |edges| ==> edges[i] in g[u]
    ensures Expanding(g, start, end, Relax(st, u, edges), u)
    ensures forall i :: 0 <= i < |edges| ==> EdgeRelaxed(Relax(st, u, edges).dist, u, edges[i])
    ensures forall x | x in st.visited :: Relax(st, u, edges).dist[x] == st.dist[x]
    decreases |edges|
  {
    if |edges| > 0 {
      var st1 := RelaxEdge(st, u, edges[0]);
      RelaxEdgeInv(g, start, end, st, u, edges[0]);
      RelaxInv(g, start, end, st1, u, edges[1..]);
      var r := Relax(st1, u, edges[1..]);
      assert r == Relax(st, u, edges);
      forall i | 0 <= i < |edges|
        ensures EdgeRelaxed(r.dist, u, edges[i])
      {
        if i == 0 {
          assert EdgeRelaxed(st1.dist, u, edges[0]);
          if edges[0].end in st1.dist {
            assert AtMost(r.dist[edges[0].end], st1.dist[edges[0].end]);
          }
        } else {
          assert edges[1..][i - 1] == edges[i];
        }
      }
    }
  }

  /** Settling the least entry and expanding its node keeps the invariant. */
  lemma ExpandInv(g: Graph, start: LatLng, end: LatLng, st: SearchState, e: Entry)
    requires Inv(g, start, end, st) && end !in st.visited
    requires e in st.queue && e.node !in st.visited && e.node != end
    requires forall f | f in st.queue :: e.priority <= f.priority
    ensures Inv(g, start, end, Expand(g, Settle(st, e), e.node))
  {
    var u := e.node;
    var s1 := Settle(st, e);
    SettleInv(g, start, end, st, e);
    if u in g {
      RelaxInv(g, start, end, s1, u, g[u]);
      var r := Relax(s1, u, g[u]);
      assert RelaxedFrom(g, r.dist, u) by {
        forall ed | ed in g[u]
          ensures EdgeRelaxed(r.dist, u, ed)
        {
          var i :| 0 <= i < |g[u]| && g[u][i] == ed;
        }
      }
    }
  }

  /** The whole loop keeps the invariant, and stops with an empty queue or
      right after settling the end node. */
  lemma {:induction false} LoopInv(g: Graph, start: LatLng, end: LatLng, choose: Chooser, st: SearchState)
    requires MinChooser(choose)
    requires Inv(g, start, end, st) && end !in st.visited
    ensures Inv(g, start, end, Loop(g, end, choose, st))
    decreases |Unsettled(st)|, |st.queue|
  {
    if st.queue != multiset{} {
      var e := choose(st.queue);
      ChooserPicks(choose, st.queue);
      if e.node in st.visited {
        SkipShrinks(st, e);
        SkipInv(g, start, end, st, e);
        assert Loop(g, end, choose, st) == Loop(g, end, choose, Skip(st, e));
        LoopInv(g, start, end, choose, Skip(st, e));
      } else if e.node == end {
        SettleInv(g, start, end, st, e);
        assert Loop(g, end, choose, st) == Settle(st, e);
      } else {
        SettleShrinks(g, st, e);
        ExpandInv(g, start, end, st, e);
        var next := Expand(g, Settle(st, e), e.node);
        assert Loop(g, end, choose, st) == Loop(g, end, choose, next);
        LoopInv(g, start, end, choose, next);
      }
    }
  }
}

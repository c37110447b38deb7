/** The label-setting search loop that `dijkstraRoute` runs: per-call
    `distances`, `previous`, `visited` and a min-priority queue, one dequeue
    per step, stale entries skipped, relaxation only on strict improvement,
    and an early stop once the end node is marked visited. */
module DijkstraSearch {
  import opened Keys
  import opened Graphs

  /** A recorded distance: `Infinity` or a finite cost. */
  datatype Dist = Inf | Fin(n: nat)

  /** `a < b` on recorded distances; `Infinity < Infinity` is false. */
  predicate Less(a: Dist, b: Dist) {
    a.Fin? && (b.Inf? || a.n < b.n)
  }

  /** `a <= b` on recorded distances. */
  predicate AtMost(a: Dist, b: Dist) {
    b.Inf? || (a.Fin? && a.n <= b.n)
  }

  /** `distance + weight`, with `Infinity + w == Infinity`. */
  function Plus(d: Dist, w: nat): Dist {
    if d.Inf? then Inf else Fin(d.n + w)
  }

  /** A queue entry: the node to expand and the priority it was queued with. */
  datatype Entry = Entry(node: LatLng, priority: nat)

  /** The queue's `dequeue`. The heap's tie-breaking is not visible, so the
      choice stays a parameter; `MinChooser` says it picks an entry of least
      priority. */
  type Chooser = multiset<Entry> -> Entry

  ghost predicate MinChooser(choose: Chooser) {
    forall q: multiset<Entry>, e {:trigger choose(q), q[e]} | e in q ::
      choose(q) in q && choose(q).priority <= e.priority
  }

  /** A least-priority dequeue returns an entry of the (non-empty) queue,
      no heavier than any other. */
  lemma ChooserPicks(choose: Chooser, q: multiset<Entry>)
    requires MinChooser(choose) && q != multiset{}
    ensures choose(q) in q
    ensures forall e | e in q :: choose(q).priority <= e.priority
  {
    var e0 :| e0 in q;
    assert q[e0] > 0;
  }

  /** The call-local search state. `visited` is a JavaScript `Set`, which keeps
      insertion order, so it is a sequence here. */
  datatype SearchState = SearchState(
    dist: map<LatLng, Dist>,
    prev: map<LatLng, LatLng>,
    visited: seq<LatLng>,
    queue: multiset<Entry>)

  /** Initialisation: `Infinity` for every node of `domain` (the graph's keys),
      then 0 for the start node whether or not it is a key; the queue holds
      the start alone, queued with priority `p0`. */
  function Initial(domain: set<LatLng>, start: LatLng, p0: nat): (st: SearchState)
    ensures st.dist.Keys == domain + {start}
    ensures st.dist[start] == Fin(0)
    ensures forall v | v in domain && v != start :: st.dist[v] == Inf
    ensures st.prev == map[] && st.visited == []
    ensures st.queue == multiset{Entry(start, p0)}
  {
    SearchState((map v | v in domain :: Inf)[start := Fin(0)], map[], [], multiset{Entry(start, p0)})
  }

  /** `distances[u] + w < distances[v]`, where a missing entry is
      `undefined` and every comparison with it is false. */
  predicate Improves(st: SearchState, u: LatLng, ed: Edge) {
    && u in st.dist
    && ed.end in st.dist
    && Less(Plus(st.dist[u], ed.weight), st.dist[ed.end])
  }

  function QueueNodes(q: multiset<Entry>): set<LatLng> {
    set e | e in q :: e.node
  }

  /** One pass of the neighbour loop over the edge `u -> ed.end`: on strict
      improvement `distances`, `previous` and the queue change together, and
      the destination is queued with its new distance as priority. */
  function RelaxEdge(st: SearchState, u: LatLng, ed: Edge): (r: SearchState)
    ensures r.visited == st.visited && r.dist.Keys == st.dist.Keys
    ensures !Improves(st, u, ed) ==> r == st
    ensures Improves(st, u, ed) ==>
      && r.dist[ed.end] == Plus(st.dist[u], ed.weight)
      && Less(r.dist[ed.end], st.dist[ed.end])
      && r.prev == st.prev[ed.end := u]
      && r.queue == st.queue + multiset{Entry(ed.end, r.dist[ed.end].n)}
      && forall x | x in st.dist && x != ed.end :: r.dist[x] == st.dist[x]
  {
    if Improves(st, u, ed) then
      var d := Plus(st.dist[u], ed.weight);
      SearchState(st.dist[ed.end := d], st.prev[ed.end := u], st.visited,
                  st.queue + multiset{Entry(ed.end, d.n)})
    else st
  }

  /** The whole neighbour loop of `u`, edges in their stored order. Nothing is
      visited, no key is added to `distances`, no distance grows, and every
      newly queued node already has a `distances` entry. */
  function Relax(st: SearchState, u: LatLng, edges: seq<Edge>): (r: SearchState)
    ensures r.visited == st.visited && r.dist.Keys == st.dist.Keys
    ensures st.queue <= r.queue
    ensures QueueNodes(r.queue) <= QueueNodes(st.queue) + st.dist.Keys
    ensures forall x | x in st.dist :: AtMost(r.dist[x], st.dist[x])
    decreases |edges|
  {
    if |edges| == 0 then st
    else
      var st1 := RelaxEdge(st, u, edges[0]);
      assert QueueNodes(st1.queue) <= QueueNodes(st.queue) + st.dist.Keys;
      Relax(st1, u, edges[1..])
  }

  /** Expansion of a freshly visited node: relax its edges when it is a key
      of the graph; a node with no entry has no neighbours. */
  function Expand(g: Graph, st: SearchState, u: LatLng): (r: SearchState)
    ensures r.visited == st.visited && r.dist.Keys == st.dist.Keys
    ensures QueueNodes(r.queue) <= QueueNodes(st.queue) + st.dist.Keys
  {
    if u in g then Relax(st, u, g[u]) else st
  }

  /** Nodes the loop may still settle: those with a `distances` entry or a
      queue entry, minus the visited ones. */
  function Unsettled(st: SearchState): set<LatLng> {
    (st.dist.Keys + QueueNodes(st.queue)) - (set v | v in st.visited)
  }

  /** Dropping a dequeued entry whose node is already visited. */
  function Skip(st: SearchState, e: Entry): SearchState {
    st.(queue := st.queue - multiset{e})
  }

  /** Dequeuing an entry whose node is not yet visited marks it visited. */
  function Settle(st: SearchState, e: Entry): SearchState {
    st.(queue := st.queue - multiset{e}, visited := st.visited + [e.node])
  }

  /** Skipping a stale entry leaves the unsettled nodes alone or fewer. */
  lemma SkipShrinks(st: SearchState, e: Entry)
    requires e in st.queue
    ensures |Unsettled(Skip(st, e))| <= |Unsettled(st)|
    ensures |Skip(st, e).queue| < |st.queue|
  {
    SubsetCard(Unsettled(Skip(st, e)), Unsettled(st));
  }

  /** Settling a queued, unvisited node removes it from the unsettled nodes,
      and relaxing its edges adds none. */
  lemma SettleShrinks(g: Graph, st: SearchState, e: Entry)
    requires e in st.queue && e.node !in st.visited
    ensures |Unsettled(Expand(g, Settle(st, e), e.node))| < |Unsettled(st)|
  {
    var u := e.node;
    var s1 := Settle(st, e);
    var next := Expand(g, s1, u);
    assert QueueNodes(s1.queue) <= QueueNodes(st.queue) by {
      forall x | x in s1.queue ensures x in st.queue {
      }
    }
    assert (set v | v in next.visited) == (set v | v in st.visited) + {u};
    assert u in Unsettled(st);
    assert Unsettled(next) <= Unsettled(st) - {u};
    SubsetCard(Unsettled(next), Unsettled(st) - {u});
  }

  /** The main loop: dequeue a least entry; skip it when its node is already
      visited; otherwise mark the node visited, stop if it is the end node,
      else relax its outgoing edges. */
  function Loop(g: Graph, end: LatLng, choose: Chooser, st: SearchState): SearchState
    requires MinChooser(choose)
    decreases |Unsettled(st)|, |st.queue|
  {
    if st.queue == multiset{} then st
    else
      var e := choose(st.queue);
      ChooserPicks(choose, st.queue);
      if e.node in st.visited then
        SkipShrinks(st, e);
        Loop(g, end, choose, Skip(st, e))
      else if e.node == end then Settle(st, e)
      else
        SettleShrinks(g, st, e);
        Loop(g, end, choose, Expand(g, Settle(st, e), e.node))
  }

  /** The queue is empty, or the last node marked visited is the end node. */
  predicate Stopped(st: SearchState, end: LatLng) {
    st.queue == multiset{} || (|st.visited| > 0 && st.visited[|st.visited| - 1] == end)
  }

  /** The loop ends only when the queue is empty or right after the end node
      was marked visited. */
  lemma {:induction false} LoopStops(g: Graph, end: LatLng, choose: Chooser, st: SearchState)
    requires MinChooser(choose)
    ensures Stopped(Loop(g, end, choose, st), end)
    decreases |Unsettled(st)|, |st.queue|
  {
    if st.queue != multiset{} {
      var e := choose(st.queue);
      ChooserPicks(choose, st.queue);
      if e.node in st.visited {
        SkipShrinks(st, e);
        assert Loop(g, end, choose, st) == Loop(g, end, choose, Skip(st, e));
        LoopStops(g, end, choose, Skip(st, e));
      } else if e.node == end {
        var r := Settle(st, e);
        assert Loop(g, end, choose, st) == r;
        assert r.visited[|r.visited| - 1] == end;
      } else {
        SettleShrinks(g, st, e);
        assert Loop(g, end, choose, st) == Loop(g, end, choose, Expand(g, Settle(st, e), e.node));
        LoopStops(g, end, choose, Expand(g, Settle(st, e), e.node));
      }
    }
  }

  /** The loop never adds or removes a `distances` key. */
  lemma {:induction false} LoopKeys(g: Graph, end: LatLng, choose: Chooser, st: SearchState)
    requires MinChooser(choose)
    ensures Loop(g, end, choose, st).dist.Keys == st.dist.Keys
    decreases |Unsettled(st)|, |st.queue|
  {
    if st.queue != multiset{} {
      var e := choose(st.queue);
      ChooserPicks(choose, st.queue);
      if e.node in st.visited {
        SkipShrinks(st, e);
        assert Loop(g, end, choose, st) == Loop(g, end, choose, Skip(st, e));
        LoopKeys(g, end, choose, Skip(st, e));
      } else if e.node != end {
        SettleShrinks(g, st, e);
        assert Loop(g, end, choose, st) == Loop(g, end, choose, Expand(g, Settle(st, e), e.node));
        LoopKeys(g, end, choose, Expand(g, Settle(st, e), e.node));
      }
    }
  }

  /** Reconstruction: nothing when the end node was never visited, otherwise
      the `previous` chain from the end node back to its root, root first. */
  function Reconstruct(st: SearchState, end: LatLng): (path: seq<LatLng>)
    requires Ranked(st.prev, st.visited)
    ensures end !in st.visited <==> path == []
    ensures path != [] ==> path[|path| - 1] == end
  {
    if end !in st.visited then [] else Trace(st.prev, st.visited, end)
  }
}

/** The static, directed, weighted graph every search reads, the paths and
    walks over it, and the backward reconstruction of a path from a
    `previous` map that all three searches share. */
module Graphs {
  import opened Keys

  /** One outgoing edge record `{end: [lat, lng], weight}`; weights are
      non-negative. */
  datatype Edge = Edge(end: LatLng, weight: nat)

  /** Source node -> its ordered outgoing edges. The source indexes this map
      by the key string of the node; since `Key` is injective
      (`Keys.KeyInjective`), indexing by the coordinate is the same lookup. */
  type Graph = map<LatLng, seq<Edge>>

  /** Some edge record of `a` points at `b`. */
  ghost predicate HasEdge(g: Graph, a: LatLng, b: LatLng) {
    a in g && exists e :: e in g[a] && e.end == b
  }

  /** A non-empty node sequence whose consecutive nodes are joined by edges. */
  ghost predicate IsPath(g: Graph, p: seq<LatLng>) {
    |p| > 0 && forall i :: 0 <= i < |p| - 1 ==> HasEdge(g, p[i], p[i + 1])
  }

  ghost predicate PathFromTo(g: Graph, p: seq<LatLng>, a: LatLng, b: LatLng) {
    IsPath(g, p) && p[0] == a && p[|p| - 1] == b
  }

  ghost predicate Reachable(g: Graph, a: LatLng, b: LatLng) {
    exists p :: PathFromTo(g, p, a, b)
  }

  /** A path together with the weight of the edge record taken at each step. */
  ghost predicate IsWalk(g: Graph, p: seq<LatLng>, ws: seq<nat>) {
    && |p| == |ws| + 1
    && forall i :: 0 <= i < |ws| ==> p[i] in g && Edge(p[i + 1], ws[i]) in g[p[i]]
  }

  function Sum(ws: seq<nat>): nat {
    if |ws| == 0 then 0 else Sum(ws[..|ws| - 1]) + ws[|ws| - 1]
  }

  /** No walk from `start` to `x` weighs less than `d`. */
  ghost predicate LowerBound(g: Graph, start: LatLng, x: LatLng, d: nat) {
    forall p, ws | IsWalk(g, p, ws) && p[0] == start && p[|p| - 1] == x :: d <= Sum(ws)
  }

  /** `p` runs from `a` to `b` along edges whose weights add up to no more
      than any walk from `a` to `b`. */
  ghost predicate ShortestPath(g: Graph, a: LatLng, b: LatLng, p: seq<LatLng>) {
    PathFromTo(g, p, a, b) && exists ws :: IsWalk(g, p, ws) && LowerBound(g, a, b, Sum(ws))
  }

  /** No path from `start` to `x` has fewer than `h` edges. */
  ghost predicate HopBound(g: Graph, start: LatLng, x: LatLng, h: nat) {
    forall p | PathFromTo(g, p, start, x) :: h <= |p| - 1
  }

  /** Every node some edge points at. */
  function EdgeEnds(g: Graph): set<LatLng> {
    set u, i | u in g && 0 <= i < |g[u]| :: g[u][i].end
  }

  predicate NoDup(s: seq<LatLng>) {
    forall i, j :: 0 <= i < j < |s| ==> s[i] != s[j]
  }

  /** Position of the first occurrence of `x` in `s`. */
  function IndexOf(s: seq<LatLng>, x: LatLng): (k: nat)
    requires x in s
    ensures k < |s| && s[k] == x
    ensures forall j :: 0 <= j < k ==> s[j] != x
  {
    if s[0] == x then 0 else 1 + IndexOf(s[1..], x)
  }

  /** Appending to a sequence keeps the positions of what was there. */
  lemma IndexOfAppend(s: seq<LatLng>, y: LatLng, x: LatLng)
    requires x in s
    ensures IndexOf(s + [y], x) == IndexOf(s, x)
  {
    var k := IndexOf(s, x);
    assert (s + [y])[k] == x;
  }

  lemma IndexOfLast(s: seq<LatLng>, y: LatLng)
    requires y !in s
    ensures IndexOf(s + [y], y) == |s|
  {
    assert (s + [y])[|s|] == y;
  }

  /** Every recorded predecessor of a visited node was visited earlier:
      following `previous` from a visited node walks strictly back in
      visiting order, so it cannot cycle. */
  ghost predicate Ranked(prev: map<LatLng, LatLng>, visited: seq<LatLng>) {
    forall v | v in prev && v in visited ::
      prev[v] in visited && IndexOf(visited, prev[v]) < IndexOf(visited, v)
  }

  /** Path reconstruction: follow `previous` back from `v` until a node with
      no predecessor, prepending each node, so the result runs root-first. */
  function Trace(prev: map<LatLng, LatLng>, visited: seq<LatLng>, v: LatLng): (p: seq<LatLng>)
    requires Ranked(prev, visited) && v in visited
    ensures |p| > 0 && p[|p| - 1] == v && p[0] !in prev
    ensures forall i :: 0 <= i < |p| ==> p[i] in visited
    ensures forall i :: 0 < i < |p| ==> p[i] in prev && prev[p[i]] == p[i - 1]
    decreases IndexOf(visited, v)
  {
    if v in prev then Trace(prev, visited, prev[v]) + [v] else [v]
  }

  /** A path that starts inside `s` and ends outside it leaves `s` at some
      step `i - 1 -> i`. */
  lemma {:induction false} Crossing(p: seq<LatLng>, s: set<LatLng>) returns (i: nat)
    requires |p| > 0 && p[0] in s && p[|p| - 1] !in s
    ensures 0 < i < |p| && p[i - 1] in s && p[i] !in s
    decreases |p|
  {
    if p[1] !in s {
      i := 1;
    } else {
      var j := Crossing(p[1..], s);
      i := j + 1;
    }
  }

  lemma SumStep(ws: seq<nat>, k: nat)
    requires k < |ws|
    ensures Sum(ws[..k + 1]) == Sum(ws[..k]) + ws[k]
  {
    assert ws[..k + 1][..k] == ws[..k];
  }

  /** Weights are non-negative, so a prefix never weighs more than the whole. */
  lemma {:induction false} SumPrefix(ws: seq<nat>, k: nat)
    requires k <= |ws|
    ensures Sum(ws[..k]) <= Sum(ws)
    decreases |ws| - k
  {
    if k < |ws| {
      SumStep(ws, k);
      SumPrefix(ws, k + 1);
    } else {
      assert ws[..k] == ws;
    }
  }

  lemma WalkPrefix(g: Graph, p: seq<LatLng>, ws: seq<nat>, k: nat)
    requires IsWalk(g, p, ws) && k <= |ws|
    ensures IsWalk(g, p[..k + 1], ws[..k])
  {
  }

  lemma WalkIsPath(g: Graph, p: seq<LatLng>, ws: seq<nat>)
    requires IsWalk(g, p, ws)
    ensures IsPath(g, p)
  {
    forall i | 0 <= i < |p| - 1
      ensures HasEdge(g, p[i], p[i + 1])
    {
      assert Edge(p[i + 1], ws[i]) in g[p[i]];
    }
  }

  lemma SumAppend(ws: seq<nat>, w: nat)
    ensures Sum(ws + [w]) == Sum(ws) + w
  {
    assert (ws + [w])[..|ws|] == ws;
  }

  /** A walk extended by one more edge record of its last node. */
  lemma WalkExtend(g: Graph, p: seq<LatLng>, ws: seq<nat>, v: LatLng, w: nat)
    requires IsWalk(g, p, ws) && p[|p| - 1] in g && Edge(v, w) in g[p[|p| - 1]]
    ensures IsWalk(g, p + [v], ws + [w])
  {
  }

  /** One step of reconstruction: the chain to a node with a predecessor is
      the chain to the predecessor, then the node. */
  lemma TraceStep(prev: map<LatLng, LatLng>, visited: seq<LatLng>, v: LatLng)
    requires Ranked(prev, visited) && v in visited && v in prev
    ensures prev[v] in visited
    ensures Trace(prev, visited, v) == Trace(prev, visited, prev[v]) + [v]
  {
  }

  /** Marking a new node `v` visited with predecessor `u` keeps the ranking. */
  lemma RankedExtend(prev: map<LatLng, LatLng>, visited: seq<LatLng>, u: LatLng, v: LatLng)
    requires Ranked(prev, visited) && u in visited && v !in visited
    ensures Ranked(prev[v := u], visited + [v])
  {
    var p2, vis := prev[v := u], visited + [v];
    forall x | x in p2 && x in vis
      ensures p2[x] in vis && IndexOf(vis, p2[x]) < IndexOf(vis, x)
    {
      if x == v {
        IndexOfAppend(visited, v, u);
        IndexOfLast(visited, v);
      } else {
        IndexOfAppend(visited, v, p2[x]);
        IndexOfAppend(visited, v, x);
      }
    }
  }

  /** ... and leaves the reconstruction of every node visited before alone. */
  lemma {:induction false} TraceExtend(prev: map<LatLng, LatLng>, visited: seq<LatLng>, u: LatLng, v: LatLng, x: LatLng)
    requires Ranked(prev, visited) && u in visited && v !in visited && x in visited
    ensures Ranked(prev[v := u], visited + [v])
    ensures Trace(prev[v := u], visited + [v], x) == Trace(prev, visited, x)
    decreases IndexOf(visited, x)
  {
    RankedExtend(prev, visited, u, v);
    if x in prev {
      TraceExtend(prev, visited, u, v, prev[x]);
    }
  }

  /** The reconstruction of the new node is that of its predecessor, then
      the node. */
  lemma TraceNew(prev: map<LatLng, LatLng>, visited: seq<LatLng>, u: LatLng, v: LatLng)
    requires Ranked(prev, visited) && u in visited && v !in visited
    ensures Ranked(prev[v := u], visited + [v])
    ensures Trace(prev[v := u], visited + [v], v) == Trace(prev, visited, u) + [v]
  {
    TraceExtend(prev, visited, u, v, u);
  }

  /** Every node of a path but the last has outgoing edges, so is a key. */
  lemma PathKeys(g: Graph, p: seq<LatLng>)
    requires IsPath(g, p)
    ensures forall j | 0 <= j < |p| - 1 :: p[j] in g
  {
    forall j | 0 <= j < |p| - 1
      ensures p[j] in g
    {
      assert HasEdge(g, p[j], p[j + 1]);
    }
  }

  /** A path into `m` followed by a path out of `m`, sharing `m` once, is a
      path. */
  lemma PathJoin(g: Graph, p1: seq<LatLng>, p2: seq<LatLng>)
    requires IsPath(g, p1) && IsPath(g, p2) && p1[|p1| - 1] == p2[0]
    ensures IsPath(g, p1 + p2[1..])
  {
    var p := p1 + p2[1..];
    forall i | 0 <= i < |p| - 1
      ensures HasEdge(g, p[i], p[i + 1])
    {
      if i < |p1| - 1 {
        assert p[i] == p1[i] && p[i + 1] == p1[i + 1];
      } else {
        var j := i - |p1| + 1;
        assert p[i] == p2[j] && p[i + 1] == p2[j + 1];
      }
    }
  }

  lemma PathPrefix(g: Graph, p: seq<LatLng>, k: nat)
    requires IsPath(g, p) && k < |p|
    ensures IsPath(g, p[..k + 1])
  {
  }

  /** A subset is no larger than its superset, and a proper subset is
      smaller; the loops' termination measures rest on this. */
  lemma SubsetCard(a: set<LatLng>, b: set<LatLng>)
    requires a <= b
    ensures |a| <= |b|
    ensures a < b ==> |a| < |b|
  {
    assert b == a + (b - a);
  }
}

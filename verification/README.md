# pathpilot route search, modelled in Dafny

The back end of pathpilot answers a route request in three steps:

1. It snaps the start, end and optional via markers to the nearest nodes of a static street graph (`snapToPoints`).
2. It runs three searches over that graph: breadth-first (`bfsRoute`), Dijkstra (`dijkstraRoute`) and A* (`aStarRoute`).
3. With a via marker, each algorithm's answer is two legs concatenated.

The graph maps a node key string `(lat, lng)` to a list of edge records `{ end: [lat, lng], weight }`.

This project models that core as pure Dafny functions, methods and lemmas.

- `keys.dfy` (modules `Options`, `Keys`):
  - coordinates and the node-key format;
  - `extractLatLng` as a parser;
  - the proof that it inverts the key template and that keys are injective.

  Because of this, a graph is modelled as a map from coordinates to edge lists.
- `graph.dfy` (module `Graphs`):
  - paths, walks and their costs, shortest paths and hop bounds;
  - the reconstruction of a route from the `previous` map (`Trace`).
- `dijkstra_search.dfy` (module `DijkstraSearch`): the search loop shared by `dijkstraRoute` and `aStarRoute`. It has:
  - `distances` with `Infinity`;
  - the min-priority queue as a multiset, with its `dequeue` as a chooser of least priority;
  - the skip of stale entries, the early stop at the end node, strict-improvement relaxation and reconstruction.
- `dijkstra_invariant.dfy` (module `DijkstraInvariant`): the loop invariant and the proof that every step keeps it.
- `dijkstra.dfy` (module `Dijkstra`):
  - `dijkstraRoute` returns a shortest path;
  - when the end node is a graph key, it returns `[]` exactly when the end node is unreachable;
  - the corrected search of the finding below.
- `astar.dfy` (module `AStar`): `aStarRoute` and the proof that it returns exactly what `dijkstraRoute` returns.
- `bfs_search.dfy`, `bfs_invariant.dfy`, `bfs.dfy` (modules `BfsSearch`, `BfsInvariant`, `Bfs`):
  - `bfsRoute` returns a path with the fewest edges, or `[]` exactly when the end node is unreachable;
  - it never reads a weight.
- `snap.dfy` (module `Snap`): `snapToPoints` as a strict-less reduce that keeps the first closest key.
- `route.dfy` (module `Route`): the via-marker concatenation of two legs in the `/api/route` handler.

A* deserves a note. By its name, `aStarRoute` would order its queue by distance plus a heuristic estimate of the remaining cost. It does not:

- Only the start entry is queued with `calculateHeuristic(start, end)`.
- Every relaxation queues the neighbour with priority equal to its new distance.
- Beside each relaxation it computes two more `calculateHeuristic` distances, named `currentToNeighborAngle` and `currentToEndAngle`, and the absolute difference of the two, `angleDifference`. That difference is never read, so none of the three affects the queue.

The model follows the code. Its A* is therefore Dijkstra's loop with a different priority for the first entry, and `AStar.StartPriorityIrrelevant` shows that this priority never matters.

## Model

| member | source | states |
|---|---|---|
| Keys.ExtractKeyRoundTrip | api/dijkstra.ts:20-23 | `extractLatLng` applied to the key `(${lat}, ${lng})` of a coordinate gives that coordinate back |
| Keys.IntRoundTrip | api/aStar.ts:21-24 | reading back a rendered integer coordinate with `Number` gives the same integer |
| Keys.KeyInjective | api/dijkstra.ts:39-45 | two coordinates have the same key string exactly when they are equal, so a lookup by key is a lookup by coordinate |
| Keys.CanonicalRoundTrip | api/helpers.ts:45-48 | every key written in the key format parses to a coordinate whose key is the original string |
| DijkstraSearch.Initial | api/dijkstra.ts:33-41 | every graph key starts at `Infinity`, the start node at 0 whether or not it is a key, `previous` and `visited` are empty, and the queue holds the start entry alone |
| DijkstraSearch.ChooserPicks | api/dijkstra.ts:26-29 | the queue's `dequeue` (least `distance` first) returns an entry of the queue with no greater priority than any other entry |
| DijkstraSearch.RelaxEdge | api/dijkstra.ts:60-66 | without strict improvement nothing changes; with it, the destination's distance becomes the current node's distance plus the edge weight, which is strictly less than before, its predecessor becomes the current node, it is queued with that new distance, and no other distance changes |
| DijkstraSearch.Relax | api/dijkstra.ts:57-68 | the neighbour loop visits nothing, adds no `distances` key, never raises a distance, only adds queue entries, and only queues nodes that have a `distances` entry |
| DijkstraSearch.LoopStops | api/dijkstra.ts:43-55 | the loop ends only with the queue empty or right after the end node was marked visited |
| DijkstraSearch.LoopKeys | api/dijkstra.ts:43-69 | the loop never adds or removes a `distances` key |
| DijkstraSearch.Reconstruct | api/dijkstra.ts:71-86 | the result is `[]` exactly when the end node was never visited, and otherwise ends at the end node |
| DijkstraInvariant.InitialInv | api/dijkstra.ts:33-41 | the initial state satisfies the loop invariant (distances, queue, predecessor links, settled order, optimality of visited distances) |
| DijkstraInvariant.SkipInv | api/dijkstra.ts:44-49 | skipping a dequeued entry whose node is already visited keeps the invariant |
| DijkstraInvariant.PopOptimal | api/dijkstra.ts:44-51 | a least unvisited finite distance, dequeued after all visited nodes were expanded, is a lower bound on every walk to that node |
| DijkstraInvariant.SettleInv | api/dijkstra.ts:51 | marking the least-priority unvisited node visited keeps every invariant except the expansion one, and makes it the farthest visited node |
| DijkstraInvariant.RelaxInv | api/dijkstra.ts:57-68 | relaxing the current node's edges keeps the invariant, relaxes every edge of it, and leaves the distances of visited nodes alone |
| DijkstraInvariant.LoopInv | api/dijkstra.ts:43-69 | the whole loop keeps the invariant |
| Dijkstra.Search | api/dijkstra.ts:25-69 | the loop from its initial state ends with the invariant, stopped, and with `distances` keyed by the initial domain plus the start node |
| Dijkstra.FoundIsShortest | api/dijkstra.ts:80-84 | once the end node is visited, the `previous` chain from it is a path from the start node whose cost is no more than that of any walk |
| Dijkstra.Unreached | api/dijkstra.ts:57-69 | if the queue runs dry before the end node is visited, any path to the end node enters it through an edge whose destination has no `distances` entry |
| Dijkstra.DijkstraRoute | api/dijkstra.ts:25-87 | a non-empty answer is a shortest path from start to end; when the end node is a graph key or the start node, the answer is `[]` exactly when the end node is unreachable |
| Dijkstra.DijkstraStartIsEnd | api/dijkstra.ts:51-55 | the route from a node to itself is that node alone |
| Dijkstra.NonKeyEndNeverRouted | api/dijkstra.ts:60-62 | an end node that is neither a graph key nor the start node gets the answer `[]`, whether or not it is reachable |
| Dijkstra.NonKeyEndMissed | api/dijkstra.ts:33-36 | on the one-edge graph from (0, 0) to (0, 1), the second node is reachable but the answer is `[]` |
| Dijkstra.DijkstraRouteAllNodes | api/dijkstra.ts:33-36 | with `Infinity` also given to every edge destination, the answer is a shortest path, or `[]` exactly when the end node is unreachable, for every end node |
| Dijkstra.NonKeyEndFound | api/dijkstra.ts:33-36 | the corrected search finds the route on the one-edge graph |
| AStar.StartPriorityIrrelevant | api/aStar.ts:42-47 | the loop ends in the same state whatever priority the start entry is queued with |
| AStar.AStarRoute | api/aStar.ts:26-106 | whatever the heuristic, the answer equals `dijkstraRoute`'s answer, so it is a shortest path or `[]` under the same conditions |
| BfsSearch.Neighbours | api/bfs.ts:43-53 | the nodes marked visited are exactly the ones queued, in the same order; each is a destination not visited before; no node is marked twice; and afterwards every destination of the edges is visited |
| BfsSearch.ExpandShrinks | api/bfs.ts:32-53 | each step visits a new edge destination or only shortens the queue, so the loop ends |
| BfsSearch.Loop | api/bfs.ts:32-34 | the loop stops with the queue empty or with the end node at its front |
| BfsInvariant.InitialInv | api/bfs.ts:27-30 | the state after the start node is queued and marked visited, the only node in either, with no predecessors, satisfies the breadth-first invariant: it sits at level 0, the queue spans one level, and no node is closer |
| BfsInvariant.DiscoverOptimal | api/bfs.ts:46-50 | marking a new destination of a level-`L` node visited, at level `L + 1`, keeps every visited node's level a lower bound on the edge count of any path to it from the start node |
| BfsInvariant.NeighboursExpanding | api/bfs.ts:43-53 | the neighbour loop keeps the levels optimal and the queue ordered by level, spanning at most two consecutive levels |
| BfsInvariant.StepInv | api/bfs.ts:32-53 | one dequeue and neighbour loop keeps the invariant |
| BfsInvariant.LoopInv | api/bfs.ts:32-54 | the whole loop keeps the invariant |
| Bfs.TracePath | api/bfs.ts:35-41 | the `previous` chain of a visited node is a path of the graph from the start node |
| Bfs.DrainedReach | api/bfs.ts:32-55 | when the queue runs dry, every node on a path from the start node has been visited |
| Bfs.BfsRoute | api/bfs.ts:23-56 | a non-empty answer is a path from start to end with no more edges than any other; the answer is `[]` exactly when the end node is unreachable, whether or not it is a key |
| Bfs.BfsStartIsEnd | api/bfs.ts:32-41 | the route from a node to itself is that node alone |
| Bfs.BfsIgnoresWeights | api/bfs.ts:43-53 | graphs that differ only in edge weights give the same answer |
| Snap.GraphArray | api/helpers.ts:45-48 | parsing every key back gives the coordinates of the keys, in key order |
| Snap.FirstMinUnique | api/helpers.ts:50-54 | at most one position of the key list is the first closest one |
| Snap.IsFirstMinUnique | api/helpers.ts:50-54 | so the closest node is determined by the key list, the marker and the distance function |
| Snap.Closest | api/helpers.ts:50-54 | the reduce yields `undefined` exactly for an empty key list; otherwise it yields the first key, in key order, that is no farther than any other key; with one key, that key |
| Snap.SnapToPoints | api/helpers.ts:44-69 | start and end are each snapped to their first closest key; `closestMid` is `null` exactly when there is no via marker, and otherwise is the via marker's first closest key |
| Route.JoinLegs | api/index.ts:66-67 | two legs meeting at the via node concatenate to a sequence where the via node appears twice in a row, and dropping one copy leaves a path from start to end |
| Route.BfsVia | api/index.ts:76-78 | with no via node the answer is the direct route; when both legs exist it has the via shape; when one leg is missing it is the other leg alone |
| Route.DijkstraVia | api/index.ts:66-68 | the same, for the Dijkstra legs |
| Route.AStarVia | api/index.ts:71-73 | the A* answer with or without a via node is the Dijkstra answer |

## Left out

- Coordinates are integers. Floating-point coordinates, their JavaScript string rendering and `NaN` keys are not modelled. The key format is modelled as `(` integer `, ` integer `)`.
- Keys not in the key format, such as a key with extra spaces or a trailing comma, are not modelled. Graph lookups are by coordinate.
- `extractLatLng` uses `parseFloat` in `api/dijkstra.ts` and `api/bfs.ts` but `Number` in `api/aStar.ts` and `api/helpers.ts`. On canonical integer keys they agree, and `Keys.ExtractLatLng` models both.
- `getDistance` (`api/helpers.ts:23-42`) is a parameter of `Snap.Closest` and `Snap.SnapToPoints`. The haversine arithmetic is floating point and trigonometry, so it is not modelled. Its transposed `lat`/`lng` components are not modelled either; the snapping contracts hold for any distance function.
- `calculateHeuristic` (`api/aStar.ts:108-122`) is a parameter of `AStar.AStarRoute` returning a natural number. It is a great-circle distance, so it is never negative. Its value only sets the start entry's priority.
- The two `calculateHeuristic` distances at `api/aStar.ts:72-76` and their difference `angleDifference` at `api/aStar.ts:77-79` are not modelled. The difference is computed and never read, so none of them reaches the queue or the result. `calculateAngle` in `api/helpers.ts:10-21` is never called.
- The binary heap of `@datastructures-js/priority-queue` is not modelled. Its `dequeue` is any function that returns an entry of least priority, so the tie-breaking among equal priorities stays open. Every property holds for every such choice.
- Edge weights are natural numbers. Negative and fractional weights are not modelled, since the shortest-path properties rely on weights being non-negative.
- Object key order (`Object.keys`, `for ... in`) is given as the `order` parameter of `Snap.SnapToPoints`. `Initial` only uses the set of keys.
- Loading `graph.json`, the Express handler, query parsing, the HTTP response and the `Date.now()` timings are not modelled.
- `snapToPoints` reads the fixed graph from `graph.json`. The model takes the list of keys as a parameter instead.
- In the `/api/route` handler, an empty graph gives `undefined` snapped nodes that are then passed to the searches. That path is not modelled: the route functions take snapped coordinates.
- Route.DijkstraVia: states the via-shape property when both Dijkstra legs are non-empty, not when both are reachable. `Dijkstra.NonKeyEndMissed` shows that these differ for a node that is not a key.

## Findings

| source | as written | input that shows it | evidently intended | confidence | as-written member | corrected member |
|---|---|---|---|---|---|---|
| api/dijkstra.ts:33-36, 62 (and api/aStar.ts:34-37, 68) | `distances` starts at `Infinity` only for graph keys. A destination that is not a key keeps `undefined`, every `distance < undefined` is false, and so it is never relaxed or reached. | graph `{"(0, 0)": [{end: [0, 1], weight: 1}]}`, start (0, 0), end (0, 1): `dijkstraRoute` and `aStarRoute` return `[]`, while `bfsRoute` returns the one-edge path | every node that appears in the graph, key or edge destination, starts at `Infinity`, so the answer is `[]` only when the end node is unreachable | not executed | Dijkstra.NonKeyEndMissed | Dijkstra.DijkstraRouteAllNodes |

The `/api/route` handler calls `dijkstraRoute` and `aStarRoute` as written. So the `Route` module uses `Dijkstra.DijkstraRoute` and `AStar.AStarRoute`, and `Dijkstra.DijkstraRouteAllNodes` is the corrected search on its own.

/** `snapToPoints`: each marker is snapped to the graph node closest to it,
    where "closest" is decided by a left-to-right reduce over the graph's
    keys that replaces the running choice only on a strictly smaller
    distance. */
module Snap {
  import opened Options
  import opened Keys
  import opened Graphs

  /** A marker position as the client sends it. */
  datatype Position = Position(lat: real, lng: real)

  /** The distance from a marker position to a graph node (`getDistance`). */
  type Distance = (Position, LatLng) -> real

  /** `graphArray`: every key of the graph, in key order, parsed back into a
      coordinate. */
  function GraphArray(order: seq<LatLng>): (points: seq<LatLng>)
    ensures points == order
  {
    if |order| == 0 then []
    else
      ExtractKeyRoundTrip(order[0]);
      [ExtractLatLng(Key(order[0])).value] + GraphArray(order[1..])
  }

  /** `c`, found at position `k` of `points`, is no farther from `t` than any
      point, and strictly closer than every point before position `k`. */
  ghost predicate FirstMinAt(points: seq<LatLng>, t: Position, distance: Distance, k: int) {
    && 0 <= k < |points|
    && (forall j | 0 <= j < |points| :: distance(t, points[k]) <= distance(t, points[j]))
    && (forall j | 0 <= j < k :: distance(t, points[k]) < distance(t, points[j]))
  }

  ghost predicate IsFirstMin(points: seq<LatLng>, t: Position, distance: Distance, c: LatLng) {
    exists k :: FirstMinAt(points, t, distance, k) && points[k] == c
  }

  /** At most one position is the first minimum. */
  lemma FirstMinUnique(points: seq<LatLng>, t: Position, distance: Distance, k1: int, k2: int)
    requires FirstMinAt(points, t, distance, k1) && FirstMinAt(points, t, distance, k2)
    ensures k1 == k2
  {
    assert distance(t, points[k1]) == distance(t, points[k2]);
  }

  /** So the snapped node is determined by the points, the marker and the
      distance alone. */
  lemma IsFirstMinUnique(points: seq<LatLng>, t: Position, distance: Distance, c1: LatLng, c2: LatLng)
    requires IsFirstMin(points, t, distance, c1) && IsFirstMin(points, t, distance, c2)
    ensures c1 == c2
  {
    var k1 :| FirstMinAt(points, t, distance, k1) && points[k1] == c1;
    var k2 :| FirstMinAt(points, t, distance, k2) && points[k2] == c2;
    FirstMinUnique(points, t, distance, k1, k2);
  }

  /** The reduce over `points`: start from the first point and move to the
      current point only when it is strictly closer than the running choice.
      With no points there is nothing to reduce, and the result is
      `undefined`, written `None`. */
  method Closest(points: seq<LatLng>, t: Position, distance: Distance) returns (best: Option<LatLng>)
    ensures best.None? <==> |points| == 0
    ensures best.Some? ==> best.value in points && IsFirstMin(points, t, distance, best.value)
    ensures |points| == 1 ==> best == Some(points[0])
  {
    if |points| == 0 {
      return None;
    }
    var k := 0;
    for i := 1 to |points|
      invariant 0 <= k < i
      invariant forall j | 0 <= j < i :: distance(t, points[k]) <= distance(t, points[j])
      invariant forall j | 0 <= j < k :: distance(t, points[k]) < distance(t, points[j])
    {
      if distance(t, points[i]) < distance(t, points[k]) {
        k := i;
      }
    }
    assert FirstMinAt(points, t, distance, k);
    best := Some(points[k]);
  }

  /** The three snapped nodes. `closestMid` is `None` (JavaScript `null`)
      when no via marker is given; each snapped node is `None` (`undefined`)
      when the graph has no keys. */
  datatype Snapped = Snapped(closestStart: Option<LatLng>, closestEnd: Option<LatLng>,
                             closestMid: Option<Option<LatLng>>)

  /** The closest-node contract for one marker. */
  ghost predicate SnapsTo(order: seq<LatLng>, t: Position, distance: Distance, r: Option<LatLng>) {
    && (r.None? <==> |order| == 0)
    && (r.Some? ==> r.value in order && IsFirstMin(order, t, distance, r.value))
  }

  /** `snapToPoints` over the graph's keys listed in key order. Each marker
      is snapped on its own: each result satisfies the closest-node contract
      for its own marker, which by `IsFirstMinUnique` pins it down. */
  method SnapToPoints(order: seq<LatLng>, distance: Distance, start: Position, end: Position, mid: Option<Position>)
    returns (r: Snapped)
    ensures SnapsTo(order, start, distance, r.closestStart)
    ensures SnapsTo(order, end, distance, r.closestEnd)
    ensures r.closestMid.None? <==> mid.None?
    ensures mid.Some? ==> SnapsTo(order, mid.value, distance, r.closestMid.value)
  {
    var points := GraphArray(order);
    var closestStart := Closest(points, start, distance);
    var closestMid: Option<Option<LatLng>> := None;
    if mid.Some? {
      var m := Closest(points, mid.value, distance);
      closestMid := Some(m);
    }
    var closestEnd := Closest(points, end, distance);
    r := Snapped(closestStart, closestEnd, closestMid);
  }
}

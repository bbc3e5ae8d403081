/**
 * Map coordinates and the two Leaflet geometry calls the planner relies on.
 * Coordinates are integers; `map.distance(a, b) < 20` is not computed here but
 * passed to the handlers as a predicate `near`, and the work-zone test
 * `workZonePolygon.getBounds().contains(p)` is the inclusive bounding box of the
 * polygon's vertices.
 */
module Geometry {
  import opened Wrappers

  datatype LatLng = LatLng(lat: int, lng: int)

  /** Leaflet's `LatLngBounds`: south-west and north-east corners. */
  datatype Box = Box(south: int, west: int, north: int, east: int)

  /** `LatLngBounds.contains(p)`, inclusive on every edge. */
  predicate BoxContains(b: Box, p: LatLng) {
    b.south <= p.lat <= b.north && b.west <= p.lng <= b.east
  }

  /** Box `b` lies inside box `c`. */
  predicate BoxWithin(b: Box, c: Box) {
    c.south <= b.south && b.north <= c.north && c.west <= b.west && b.east <= c.east
  }

  function Min(a: int, b: int): int { if a <= b then a else b }
  function Max(a: int, b: int): int { if a <= b then b else a }

  /** `LatLngBounds.extend(p)`. */
  function Extend(b: Box, p: LatLng): Box {
    Box(Min(b.south, p.lat), Min(b.west, p.lng), Max(b.north, p.lat), Max(b.east, p.lng))
  }

  /** `getBounds()` of a ring: the box grown vertex by vertex. */
  function BoundsOf(pts: seq<LatLng>): (b: Box)
    requires |pts| > 0
    ensures forall i :: 0 <= i < |pts| ==> BoxContains(b, pts[i])
    decreases |pts|
  {
    if |pts| == 1 then Box(pts[0].lat, pts[0].lng, pts[0].lat, pts[0].lng)
    else Extend(BoundsOf(pts[..|pts| - 1]), pts[|pts| - 1])
  }

  /** The bounds are the least box holding every vertex. */
  lemma {:induction false} BoundsAreLeast(pts: seq<LatLng>, c: Box)
    requires |pts| > 0
    requires forall i :: 0 <= i < |pts| ==> BoxContains(c, pts[i])
    ensures BoxWithin(BoundsOf(pts), c)
    decreases |pts|
  {
    if |pts| > 1 {
      var init := pts[..|pts| - 1];
      assert forall i :: 0 <= i < |init| ==> init[i] == pts[i];
      BoundsAreLeast(init, c);
    }
  }

  /** `isInsideWorkZone(p)`: with no polygon every point is inside; otherwise the
      point must lie in the polygon's bounding box. (A polygon always has at least
      three vertices; the empty case only keeps the function total.) */
  predicate InsideWorkZone(polygon: Option<seq<LatLng>>, p: LatLng) {
    match polygon
    case None => true
    case Some(pts) => |pts| > 0 && BoxContains(BoundsOf(pts), p)
  }

  /** Without a polygon there is no restriction; with one, every vertex passes,
      and a point passes exactly when it lies in every box that holds all the
      vertices. */
  lemma InsideWorkZoneMeans(polygon: Option<seq<LatLng>>, p: LatLng)
    ensures polygon.None? ==> InsideWorkZone(polygon, p)
    ensures polygon.Some? && p in polygon.value ==> InsideWorkZone(polygon, p)
    ensures polygon.Some? && |polygon.value| > 0 && InsideWorkZone(polygon, p) ==>
              forall c :: (forall i :: 0 <= i < |polygon.value| ==> BoxContains(c, polygon.value[i])) ==> BoxContains(c, p)
    ensures polygon.Some? && |polygon.value| > 0 &&
            (forall c :: (forall i :: 0 <= i < |polygon.value| ==> BoxContains(c, polygon.value[i])) ==> BoxContains(c, p)) ==>
              InsideWorkZone(polygon, p)
  {
    if polygon.Some? && |polygon.value| > 0 && InsideWorkZone(polygon, p) {
      forall c | forall i :: 0 <= i < |polygon.value| ==> BoxContains(c, polygon.value[i])
        ensures BoxContains(c, p)
      {
        BoundsAreLeast(polygon.value, c);
      }
    }
    if polygon.Some? && |polygon.value| > 0 {
      var b := BoundsOf(polygon.value);
      assert forall i :: 0 <= i < |polygon.value| ==> BoxContains(b, polygon.value[i]);
    }
  }

  /** The test is the bounding box, not the polygon: (9, 9) lies outside the
      triangle (0,0), (10,0), (0,10) and is still accepted. */
  lemma BoxIsNotPolygon()
    ensures InsideWorkZone(Some([LatLng(0, 0), LatLng(10, 0), LatLng(0, 10)]), LatLng(9, 9))
  {
    var pts := [LatLng(0, 0), LatLng(10, 0), LatLng(0, 10)];
    assert pts[..2] == [LatLng(0, 0), LatLng(10, 0)];
    assert pts[..2][..1] == [LatLng(0, 0)];
  }
}

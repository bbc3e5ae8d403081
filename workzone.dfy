/**
 * The work-zone drawer: the `workZoneBtn` toggle and the two `map.on("click")`
 * handlers. Leaflet runs both click handlers, in the order they were registered,
 * on every click: first `PreviewClick` (the yellow preview line), then
 * `CloseClick` (the green one that can close the polygon). `Click` is the two
 * together, which is what a click on the map does.
 */
module WorkZone {
  import opened Wrappers
  import opened Geometry

  /** `workZoneMode`, `workZonePoints` and the logical content of
      `workZonePolygon` (its vertices, or `None` when there is no polygon). */
  datatype Zone = Zone(drawing: bool, points: seq<LatLng>, polygon: Option<seq<LatLng>>)

  const Initial: Zone := Zone(false, [], None)

  /** While drawing there is no polygon, and a polygon has at least three vertices. */
  ghost predicate Valid(z: Zone) {
    && (z.drawing ==> z.polygon.None?)
    && (z.polygon.Some? ==> |z.polygon.value| >= 3)
  }

  /** What the second handler did: nothing (drawing is off), appended the click, or
      closed the polygon. */
  datatype ClickOutcome = NotDrawing | PointAdded | ZoneClosed

  /** `workZoneBtn.onclick`: flips the mode; switching it on discards the points
      and the polygon, switching it off keeps both. */
  function Toggle(z: Zone): (r: Zone)
    ensures r.drawing == !z.drawing
    ensures r.drawing ==> r.points == [] && r.polygon.None?
    ensures !r.drawing ==> r.points == z.points && r.polygon == z.polygon
    ensures Valid(z) ==> Valid(r)
  {
    if !z.drawing then Zone(true, [], None) else z.(drawing := false)
  }

  /** The first click handler: while drawing, append the click unconditionally. */
  function PreviewClick(z: Zone, click: LatLng): (r: Zone)
    ensures !z.drawing ==> r == z
    ensures z.drawing ==> r == z.(points := z.points + [click])
    ensures Valid(z) ==> Valid(r)
  {
    if !z.drawing then z else z.(points := z.points + [click])
  }

  /** The second click handler: with three or more points and the click near the
      first one, the polygon is made from the points and drawing stops, without
      appending the click; otherwise the click is appended. */
  function CloseClick(z: Zone, click: LatLng, near: (LatLng, LatLng) -> bool): (r: (Zone, ClickOutcome))
    ensures r.1 == NotDrawing <==> !z.drawing
    ensures r.1 == NotDrawing ==> r.0 == z
    ensures r.1 == ZoneClosed <==> z.drawing && |z.points| >= 3 && near(click, z.points[0])
    ensures r.1 == ZoneClosed ==> r.0 == Zone(false, z.points, Some(z.points))
    ensures r.1 == PointAdded ==> r.0 == z.(points := z.points + [click])
    ensures Valid(z) ==> Valid(r.0)
  {
    if !z.drawing then (z, NotDrawing)
    else if |z.points| >= 3 && near(click, z.points[0]) then
      (z.(polygon := Some(z.points), drawing := false), ZoneClosed)
    else (z.(points := z.points + [click]), PointAdded)
  }

  /** A click on the map: both handlers in registration order. */
  function Click(z: Zone, click: LatLng, near: (LatLng, LatLng) -> bool): (r: (Zone, ClickOutcome)) {
    CloseClick(PreviewClick(z, click), click, near)
  }

  /** What the two handlers do together: the click is stored once before the
      closing test, so two stored points are already enough to close, the closing
      click becomes a vertex, and a click that does not close is stored twice. */
  lemma ClickEffect(z: Zone, click: LatLng, near: (LatLng, LatLng) -> bool)
    ensures var r := Click(z, click, near);
            && (!z.drawing ==> r == (z, NotDrawing))
            && (z.drawing && |z.points| >= 2 && near(click, z.points[0]) ==>
                  r == (Zone(false, z.points + [click], Some(z.points + [click])), ZoneClosed))
            && (z.drawing && !(|z.points| >= 2 && near(click, z.points[0])) ==>
                  r == (z.(points := z.points + [click, click]), PointAdded))
  {
    if z.drawing {
      var p := z.points + [click];
      if |z.points| >= 1 {
        assert p[0] == z.points[0];
      }
      assert p + [click] == z.points + [click, click];
    }
  }

  /** Once the polygon is closed, clicks change nothing until the mode is toggled on
      again, which discards it. */
  lemma ClosedZoneIsFrozen(z: Zone, click: LatLng, near: (LatLng, LatLng) -> bool)
    requires Valid(z) && z.polygon.Some? && !z.drawing
    ensures Click(z, click, near) == (z, NotDrawing)
    ensures CloseClick(z, click, near) == (z, NotDrawing)
  {
  }

  /** The second handler on its own closes a triangle of three clicks with a fourth
      click near the first, keeping exactly the three points. */
  lemma CloseClickAloneKeepsThreePoints(p0: LatLng, p1: LatLng, p2: LatLng, c: LatLng, near: (LatLng, LatLng) -> bool)
    requires near(c, p0)
    ensures var z0 := Toggle(Initial);
            var z1 := CloseClick(z0, p0, near).0;
            var z2 := CloseClick(z1, p1, near).0;
            var z3 := CloseClick(z2, p2, near).0;
            CloseClick(z3, c, near) == (Zone(false, [p0, p1, p2], Some([p0, p1, p2])), ZoneClosed)
  {
    var z0 := Toggle(Initial);
    var z1 := CloseClick(z0, p0, near).0;
    assert z1.points == [p0];
    var z2 := CloseClick(z1, p1, near).0;
    assert z2.points == [p0, p1];
    var z3 := CloseClick(z2, p2, near).0;
    assert z3 == Zone(true, [p0, p1, p2], None);
  }

  /** What the map actually does with the same four clicks (each click is one call
      of both handlers): every point is stored twice and the closing click is
      kept as a seventh vertex. */
  lemma ClicksStoreEachPointTwice(p0: LatLng, p1: LatLng, p2: LatLng, c: LatLng, near: (LatLng, LatLng) -> bool)
    requires !near(p1, p0) && !near(p2, p0) && near(c, p0)
    ensures var z0 := Toggle(Initial);
            var z1 := Click(z0, p0, near).0;
            var z2 := Click(z1, p1, near).0;
            var z3 := Click(z2, p2, near).0;
            Click(z3, c, near).0.polygon == Some([p0, p0, p1, p1, p2, p2, c])
  {
    var z0 := Toggle(Initial);
    ClickEffect(z0, p0, near);
    var z1 := Click(z0, p0, near).0;
    assert z1.points == [p0, p0];
    ClickEffect(z1, p1, near);
    var z2 := Click(z1, p1, near).0;
    assert z2.points == [p0, p0, p1, p1];
    ClickEffect(z2, p2, near);
    var z3 := Click(z2, p2, near).0;
    assert z3.points == [p0, p0, p1, p1, p2, p2] && z3.drawing;
    ClickEffect(z3, c, near);
    assert z3.points + [c] == [p0, p0, p1, p1, p2, p2, c];
  }
}

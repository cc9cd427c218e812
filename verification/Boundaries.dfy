/** Boundary lookup: polygons with holes, geometry boxes, and the two indexes that test
    the box before the rings. */
module Boundaries {
  import opened Optional
  import opened RayCasting
  import opened RingLaws

  datatype Geometry = Polygon(rings: seq<Ring>) | MultiPolygon(polygons: seq<seq<Ring>>) | Unsupported

  function PolygonsOf(g: Geometry): seq<seq<Ring>>
    requires !g.Unsupported?
  {
    if g.Polygon? then [g.rings] else g.polygons
  }

  /** Every ring has vertices, as a linear ring of RFC 7946 section 3.1.6 must. */
  predicate WellFormed(g: Geometry) {
    !g.Unsupported? &&
    forall polygon, ring | polygon in PolygonsOf(g) && ring in polygon :: ring != []
  }

  // ---------------------------------------------------------------------- boxes

  function VerticesOfRings(rings: seq<Ring>): (points: seq<Point>)
    ensures forall ring, q | ring in rings && q in ring :: q in points
    ensures forall q | q in points :: exists ring :: ring in rings && q in ring
  {
    if rings == [] then []
    else
      assert rings == [rings[0]] + rings[1..];
      rings[0] + VerticesOfRings(rings[1..])
  }

  function Vertices(polygons: seq<seq<Ring>>): (points: seq<Point>)
    ensures forall polygon, ring, q | polygon in polygons && ring in polygon && q in ring :: q in points
    ensures forall q | q in points :: exists polygon, ring :: polygon in polygons && ring in polygon && q in ring
  {
    if polygons == [] then []
    else
      assert polygons == [polygons[0]] + polygons[1..];
      VerticesOfRings(polygons[0]) + Vertices(polygons[1..])
  }

  predicate Within(inner: Box, outer: Box) {
    outer.minX <= inner.minX && outer.minY <= inner.minY && inner.maxX <= outer.maxX && inner.maxY <= outer.maxY
  }

  /** The smallest box around the points. */
  function Hull(points: seq<Point>): (box: Box)
    requires points != []
    ensures Bounds(box, points)
    ensures forall outer | Bounds(outer, points) :: Within(box, outer)
  {
    var q := points[0];
    assert forall outer | Bounds(outer, points) :: InBox(outer, q);
    if |points| == 1 then Box(q.x, q.y, q.x, q.y)
    else
      var rest := Hull(points[1..]);
      assert forall outer | Bounds(outer, points) :: Bounds(outer, points[1..]);
      var box := Box(if q.x < rest.minX then q.x else rest.minX, if q.y < rest.minY then q.y else rest.minY,
                     if q.x > rest.maxX then q.x else rest.maxX, if q.y > rest.maxY then q.y else rest.maxY);
      assert points == [q] + points[1..];
      box
  }

  /** `geometry_bbox`; an unsupported or empty geometry has none. */
  function GeometryBox(g: Geometry): Option<Box> {
    if g.Unsupported? || Vertices(PolygonsOf(g)) == [] then None else Some(Hull(Vertices(PolygonsOf(g))))
  }

  lemma BoxBoundsEveryRing(g: Geometry, polygon: seq<Ring>, ring: Ring)
    requires GeometryBox(g).Some? && polygon in PolygonsOf(g) && ring in polygon
    ensures Bounds(GeometryBox(g).value, ring)
  {
    var points := Vertices(PolygonsOf(g));
    forall k | 0 <= k < |ring| ensures InBox(Hull(points), ring[k]) {
      assert ring[k] in points;
    }
  }

  // ---------------------------------------------------------- point in geometry

  /** Inside the outer ring and inside no hole. */
  predicate InPolygon(p: Point, polygon: seq<Ring>) {
    polygon != [] && Inside(polygon[0], p) && forall hole | hole in polygon[1..] :: !Inside(hole, p)
  }

  predicate PointInGeometry(p: Point, g: Geometry) {
    !g.Unsupported? && exists polygon | polygon in PolygonsOf(g) :: InPolygon(p, polygon)
  }

  /** What the historical index and the scoring context test: outer rings only. */
  predicate PointInOuterRings(p: Point, g: Geometry) {
    !g.Unsupported? && exists polygon | polygon in PolygonsOf(g) :: polygon != [] && Inside(polygon[0], p)
  }

  /** The two readings differ exactly on points that a hole cuts out of every polygon
      whose outer ring holds them. */
  lemma ReadingsDifferInHoles(p: Point, g: Geometry)
    ensures PointInGeometry(p, g) ==> PointInOuterRings(p, g)
    ensures PointInOuterRings(p, g) && !PointInGeometry(p, g) <==>
            PointInOuterRings(p, g) &&
            forall polygon | polygon in PolygonsOf(g) && polygon != [] && Inside(polygon[0], p) ::
              exists hole | hole in polygon[1..] :: Inside(hole, p)
  {}

  function Square(low: real, high: real): Ring {
    [Point(low, low), Point(high, low), Point(high, high), Point(low, high)]
  }

  /** In a square are the points strictly between its sides. */
  lemma InsideSquare(low: real, high: real, p: Point)
    requires low < p.x < high && low < p.y < high
    ensures Inside(Square(low, high), p)
  {
    var a, b, c, d := Point(low, low), Point(high, low), Point(high, high), Point(low, high);
    assert !Crosses(d, a, p) by { MeetsBetween(d, a, p, low, low); }
    assert Crosses(b, c, p) by { MeetsBetween(b, c, p, high, high); }
    assert [d] + Square(low, high) == [d, a, b, c, d];
    assert [d, a, b, c, d][1..] == [a, b, c, d] && [a, b, c, d][1..] == [b, c, d];
    assert [b, c, d][1..] == [c, d] && [c, d][1..] == [d];
    assert !Trace([c, d], p);
  }

  const PIERCED := Polygon([Square(0.0, 10.0), Square(4.0, 6.0)])

  /** The two readings do differ: on the middle of a square with a square hole. */
  lemma HoleSeparatesReadings()
    ensures WellFormed(PIERCED)
    ensures PointInOuterRings(Point(5.0, 5.0), PIERCED) && !PointInGeometry(Point(5.0, 5.0), PIERCED)
  {
    var p, outer, hole := Point(5.0, 5.0), Square(0.0, 10.0), Square(4.0, 6.0);
    InsideSquare(0.0, 10.0, p);
    InsideSquare(4.0, 6.0, p);
    assert PolygonsOf(PIERCED) == [[outer, hole]] && [outer, hole][1..] == [hole];
    assert [outer, hole] in PolygonsOf(PIERCED) && hole in [outer, hole][1..];
  }

  /** A point in the geometry lies in the geometry's box. */
  lemma BoxIsLossless(p: Point, g: Geometry, box: Box)
    requires GeometryBox(g) == Some(box) && (PointInGeometry(p, g) || PointInOuterRings(p, g))
    ensures InBox(box, p)
  {
    ReadingsDifferInHoles(p, g);
    var polygon :| polygon in PolygonsOf(g) && polygon != [] && Inside(polygon[0], p);
    BoxBoundsEveryRing(g, polygon, polygon[0]);
    if !InBox(box, p) { OutsideBoxIsOutsideRing(polygon[0], box, p); }
  }

  /** `point_in_geometry`: polygon by polygon, and in each of them hole by hole. */
  method HoldsPoint(p: Point, g: Geometry) returns (inside: bool)
    requires WellFormed(g)
    ensures inside == PointInGeometry(p, g)
  {
    var polygons := PolygonsOf(g);
    for i := 0 to |polygons|
      invariant forall k | 0 <= k < i :: !InPolygon(p, polygons[k])
    {
      var polygon := polygons[i];
      if polygon == [] { continue; }
      assert polygon in polygons && polygon[0] in polygon;
      var outer := InsideRing(p, polygon[0]);
      if !outer { continue; }
      var held := false;
      for j := 1 to |polygon|
        invariant held <==> exists k :: 1 <= k < j && Inside(polygon[k], p)
      {
        assert polygon[j] in polygon;
        var hole := InsideRing(p, polygon[j]);
        held := held || hole;
      }
      HolesOf(p, polygon);
      if !held { return true; }
    }
    return false;
  }

  lemma HolesOf(p: Point, polygon: seq<Ring>)
    requires polygon != []
    ensures (exists k :: 1 <= k < |polygon| && Inside(polygon[k], p)) <==>
            exists hole :: hole in polygon[1..] && Inside(hole, p)
  {
    if k :| 1 <= k < |polygon| && Inside(polygon[k], p) {
      assert polygon[1..][k - 1] == polygon[k];
      assert polygon[k] in polygon[1..];
    }
    if hole :| hole in polygon[1..] && Inside(hole, p) {
      var k :| 0 <= k < |polygon| - 1 && polygon[1..][k] == hole;
      assert polygon[k + 1] == hole;
    }
  }

  // ----------------------------------------------------------- resolve_boundary

  datatype Level = Village | District | Regency | Province | OtherLevel

  datatype Boundary = Boundary(code: string, level: Level, geometry: Geometry, box: Box)

  function Rank(level: Level): nat {
    match level case Village => 4 case District => 3 case Regency => 2 case Province => 1 case OtherLevel => 0
  }

  /** The stored box is the one computed at import. */
  predicate Indexed(b: Boundary) {
    WellFormed(b.geometry) && GeometryBox(b.geometry) == Some(b.box)
  }

  function Matches(p: Point, bs: seq<Boundary>): seq<Boundary> {
    if bs == [] then []
    else (if InBox(bs[0].box, p) && PointInGeometry(p, bs[0].geometry) then [bs[0]] else []) + Matches(p, bs[1..])
  }

  /** The first match of the highest rank. */
  function Finest(matches: seq<Boundary>): Boundary
    requires matches != []
  {
    if |matches| == 1 then matches[0]
    else
      var rest := Finest(matches[1..]);
      if Rank(matches[0].level) >= Rank(rest.level) then matches[0] else rest
  }

  function ResolveBoundary(p: Point, bs: seq<Boundary>): Option<Boundary> {
    var matches := Matches(p, bs);
    if matches == [] then None else Some(Finest(matches))
  }

  /** `bs[k]` contains `p`, no containing boundary ranks higher, and no earlier one as high. */
  ghost predicate IsFinest(p: Point, bs: seq<Boundary>, k: nat)
    requires k < |bs|
  {
    PointInGeometry(p, bs[k].geometry) &&
    forall j | 0 <= j < |bs| && PointInGeometry(p, bs[j].geometry) ::
      Rank(bs[j].level) <= Rank(bs[k].level) && (j < k ==> Rank(bs[j].level) < Rank(bs[k].level))
  }

  /** The lookup answers as if no boxes were there: the first boundary of the finest level
      that contains the point, or nothing when none does. */
  lemma {:induction false} ResolveBoundaryIsExact(p: Point, bs: seq<Boundary>)
    requires forall b | b in bs :: Indexed(b)
    ensures match ResolveBoundary(p, bs)
            case None => forall b | b in bs :: !PointInGeometry(p, b.geometry)
            case Some(b) => exists k: nat :: k < |bs| && bs[k] == b && IsFinest(p, bs, k)
  {
    if bs != [] {
      var b, rest := bs[0], bs[1..];
      assert b in bs && forall c | c in rest :: c in bs;
      ResolveBoundaryIsExact(p, rest);
      if PointInGeometry(p, b.geometry) { BoxIsLossless(p, b.geometry, b.box); }
      forall j | 0 <= j < |rest| ensures rest[j] == bs[j + 1] {}
      if PointInGeometry(p, b.geometry) && Matches(p, rest) == [] {
        assert Matches(p, bs) == [b];
        assert forall c | c in rest :: !PointInGeometry(p, c.geometry);
        assert IsFinest(p, bs, 0);
      } else if Matches(p, rest) != [] {
        var k: nat :| k < |rest| && rest[k] == Finest(Matches(p, rest)) && IsFinest(p, rest, k);
        FinestOfMore(p, bs, k);
        if PointInGeometry(p, b.geometry) {
          assert Matches(p, bs) == [b] + Matches(p, rest);
          assert Matches(p, bs)[1..] == Matches(p, rest);
        } else {
          assert Matches(p, bs) == Matches(p, rest);
        }
        assert bs[k + 1] == rest[k];
      }
    }
  }

  lemma FinestOfMore(p: Point, bs: seq<Boundary>, k: nat)
    requires bs != [] && k < |bs| - 1 && IsFinest(p, bs[1..], k)
    ensures if PointInGeometry(p, bs[0].geometry) && Rank(bs[0].level) >= Rank(bs[k + 1].level)
            then IsFinest(p, bs, 0) else IsFinest(p, bs, k + 1)
  {}

  /** Villages lie in districts, districts in regencies, and regencies in provinces. */
  predicate LiesIn(inner: Level, outer: Level) {
    match outer
    case Village => false
    case District => inner == Village
    case Regency => inner == Village || inner == District
    case Province => inner == Village || inner == District || inner == Regency
    case OtherLevel => inner != OtherLevel
  }

  /** No boundary of a finer level than the answer's holds the point. */
  lemma FinestLevelWins(p: Point, bs: seq<Boundary>, b: Boundary)
    requires (forall c | c in bs :: Indexed(c)) && b in bs && PointInGeometry(p, b.geometry)
    ensures ResolveBoundary(p, bs).Some? && !LiesIn(b.level, ResolveBoundary(p, bs).value.level)
    ensures ResolveBoundary(p, bs).value in bs && PointInGeometry(p, ResolveBoundary(p, bs).value.geometry)
  {
    ResolveBoundaryIsExact(p, bs);
    var k: nat :| k < |bs| && bs[k] == ResolveBoundary(p, bs).value && IsFinest(p, bs, k);
    var j :| 0 <= j < |bs| && bs[j] == b;
    assert Rank(bs[j].level) <= Rank(bs[k].level);
  }

  // -------------------------------------------------------- ProvinceIndex.lookup

  datatype Entry = Entry(code: string, geometry: Geometry, box: Box)

  /** Every polygon has an outer ring. */
  predicate HasOuterRings(g: Geometry) {
    !g.Unsupported? && forall k | 0 <= k < |PolygonsOf(g)| :: PolygonsOf(g)[k] != []
  }

  predicate IndexedEntry(e: Entry) {
    HasOuterRings(e.geometry) && GeometryBox(e.geometry) == Some(e.box)
  }

  class ProvinceIndex {
    const entries: seq<Entry>

    constructor (rows: seq<Entry>)
      ensures entries == rows
    {
      entries := rows;
    }

    method PolygonContains(g: Geometry, p: Point) returns (contains: bool)
      requires HasOuterRings(g)
      ensures contains == PointInOuterRings(p, g)
    {
      var polygons := PolygonsOf(g);
      for i := 0 to |polygons|
        invariant forall k | 0 <= k < i :: !Inside(polygons[k][0], p)
      {
        var inside := RingContains(polygons[i][0], p);
        if inside { return true; }
      }
      return false;
    }

    /** The code of the first entry whose outer rings hold the point, boxes or not. */
    method Lookup(p: Point) returns (code: Option<string>)
      requires forall e | e in entries :: IndexedEntry(e)
      ensures match code
              case None => forall e | e in entries :: !PointInOuterRings(p, e.geometry)
              case Some(c) => exists k :: 0 <= k < |entries| && entries[k].code == c &&
                                PointInOuterRings(p, entries[k].geometry) &&
                                forall j | 0 <= j < k :: !PointInOuterRings(p, entries[j].geometry)
    {
      for i := 0 to |entries|
        invariant forall j | 0 <= j < i :: !PointInOuterRings(p, entries[j].geometry)
      {
        var e := entries[i];
        assert e in entries;
        if !InBox(e.box, p) {
          if PointInOuterRings(p, e.geometry) { BoxIsLossless(p, e.geometry, e.box); }
          continue;
        }
        var contains := PolygonContains(e.geometry, p);
        if contains { return Some(e.code); }
      }
      return None;
    }
  }

  /** `point_in_geojson` on a missing or present geometry; empty polygons are skipped. */
  method PointInGeoJson(p: Point, geometry: Option<Geometry>) returns (inside: bool)
    ensures inside == (geometry.Some? && PointInOuterRings(p, geometry.value))
  {
    if geometry.None? || geometry.value.Unsupported? { return false; }
    var polygons := PolygonsOf(geometry.value);
    for i := 0 to |polygons|
      invariant forall k | 0 <= k < i :: polygons[k] == [] || !Inside(polygons[k][0], p)
    {
      if polygons[i] == [] { continue; }
      var found := RingInGeoJson(polygons[i][0], p);
      if found { return true; }
    }
    return false;
  }
}

/** Laws of the even-odd rule: what may be done to a ring without changing its answers,
    gluing of neighbouring rings, and bounding boxes. */
module RingLaws {
  import opened RayCasting

  // ------------------------------------------------- equivalent spellings of a ring

  /** The first vertex is a free choice. */
  lemma RotationKeepsInside(a: Ring, b: Ring, p: Point)
    requires a != [] && b != []
    ensures Inside(a + b, p) == Inside(b + a, p)
  {
    var la, lb := a[|a| - 1], b[|b| - 1];
    TraceJoinsLists([lb] + a, b, p);
    TraceJoinsLists([la] + b, a, p);
    assert [lb] + (a + b) == [lb] + a + b && [la] + (b + a) == [la] + b + a;
  }

  lemma TraceJoinsLists(a: seq<Point>, b: seq<Point>, p: Point)
    requires a != []
    ensures Trace(a + b, p) == (Trace(a, p) != Trace([a[|a| - 1]] + b, p))
  {
    assert a == a[..|a| - 1] + [a[|a| - 1]];
    TraceJoins(a[..|a| - 1], a[|a| - 1], b, p);
  }

  function Reversed(path: seq<Point>): (r: seq<Point>)
    ensures |r| == |path|
    ensures path != [] ==> r[0] == path[|path| - 1] && r[|r| - 1] == path[0]
  {
    if path == [] then [] else Reversed(path[1..]) + [path[0]]
  }

  lemma {:induction false} ReversalKeepsTrace(path: seq<Point>, p: Point)
    ensures Trace(Reversed(path), p) == Trace(path, p)
  {
    if |path| >= 2 {
      ReversalKeepsTrace(path[1..], p);
      TraceOneMore(Reversed(path[1..]), path[0], p);
      CrossesIsSymmetric(path[1], path[0], p);
    }
  }

  lemma {:induction false} ReversedOneMore(path: seq<Point>, x: Point)
    ensures Reversed(path + [x]) == [x] + Reversed(path)
  {
    if path != [] {
      ReversedOneMore(path[1..], x);
      assert (path + [x])[1..] == path[1..] + [x];
    }
  }

  lemma {:induction false} ReversedTwice(path: seq<Point>)
    ensures Reversed(Reversed(path)) == path
  {
    if path != [] {
      ReversedTwice(path[1..]);
      ReversedOneMore(Reversed(path[1..]), path[0]);
    }
  }

  lemma {:induction false} ReversedMembers(path: seq<Point>, p: Point)
    ensures p in Reversed(path) <==> p in path
  {
    if path != [] {
      ReversedMembers(path[1..], p);
      assert path == [path[0]] + path[1..];
    }
  }

  /** The closing edge may be traced at either end. */
  lemma ClosingEdge(ring: Ring, p: Point)
    requires ring != []
    ensures Inside(ring, p) == Trace(ring + [ring[0]], p)
  {
    var closed := [ring[|ring| - 1]] + ring;
    assert closed[1..] == ring && closed[1] == ring[0];
    TraceOneMore(ring, ring[0], p);
  }

  /** Clockwise or counter-clockwise makes no difference. */
  lemma ReversalKeepsInside(ring: Ring, p: Point)
    requires ring != []
    ensures Inside(Reversed(ring), p) == Inside(ring, p)
  {
    ReversedOneMore(ring, ring[0]);
    ReversalKeepsTrace(ring + [ring[0]], p);
    ClosingEdge(ring, p);
  }

  /** Repeating the first vertex at the end, as GeoJSON does, makes no difference. */
  lemma ClosingVertexKeepsInside(ring: Ring, p: Point)
    requires ring != []
    ensures Inside(ring + [ring[0]], p) == Inside(ring, p)
  {
    var closed := ring + [ring[0]];
    ClosingEdge(ring, p);
    assert ([ring[0]] + closed)[1..] == closed;
  }

  /** A ring is a path and the way back from its end to its start. */
  lemma InsideSplits(path: seq<Point>, rest: seq<Point>, p: Point)
    requires path != []
    ensures Inside(path + rest, p) == (Trace(path, p) != Trace([path[|path| - 1]] + rest + [path[0]], p))
  {
    ClosingEdge(path + rest, p);
    TraceJoinsLists(path, rest + [path[0]], p);
    assert path + rest + [path[0]] == path + (rest + [path[0]]);
    assert [path[|path| - 1]] + rest + [path[0]] == [path[|path| - 1]] + (rest + [path[0]]);
  }

  /** Two rings that share a border, walked in opposite directions, tile the ring around
      both: a point is inside the outer ring exactly when it is inside one of the two,
      and never inside both and the outer ring. */
  lemma SharedBorderIsTiled(border: seq<Point>, a: seq<Point>, b: seq<Point>, p: Point)
    requires border != []
    ensures var first, last := border[0], border[|border| - 1];
            Inside([last] + a + [first] + b, p) == (Inside(border + a, p) != Inside(Reversed(border) + b, p))
  {
    var first, last := border[0], border[|border| - 1];
    InsideSplits(border, a, p);
    InsideSplits(Reversed(border), b, p);
    InsideSplits([last] + a + [first], b, p);
    ReversalKeepsTrace(border, p);
  }

  // ------------------------------------------------------------- bounding boxes

  datatype Box = Box(minX: real, minY: real, maxX: real, maxY: real)

  predicate InBox(box: Box, p: Point) {
    box.minX <= p.x <= box.maxX && box.minY <= p.y <= box.maxY
  }

  predicate Bounds(box: Box, path: seq<Point>) {
    forall k | 0 <= k < |path| :: InBox(box, path[k])
  }

  /** Above, below or to the right of the box the ray crosses nothing. */
  lemma {:induction false} NothingCrossed(path: seq<Point>, box: Box, p: Point)
    requires Bounds(box, path) && (p.y < box.minY || box.maxY < p.y || box.maxX < p.x)
    ensures !Trace(path, p)
  {
    if |path| >= 2 {
      NothingCrossed(path[1..], box, p);
      assert InBox(box, path[0]) && InBox(box, path[1]);
      if Straddles(path[0], path[1], p) { MeetsBetween(path[0], path[1], p, box.minX, box.maxX); }
    }
  }

  /** To its left the ray crosses every straddling edge, so only the end points count. */
  lemma {:induction false} EveryStraddleCrossed(path: seq<Point>, box: Box, p: Point)
    requires path != [] && Bounds(box, path) && p.x < box.minX
    ensures Trace(path, p) == Straddles(path[0], path[|path| - 1], p)
  {
    if |path| >= 2 {
      EveryStraddleCrossed(path[1..], box, p);
      assert InBox(box, path[0]) && InBox(box, path[1]);
      if Straddles(path[0], path[1], p) { MeetsBetween(path[0], path[1], p, box.minX, box.maxX); }
    }
  }

  /** The prefilter is lossless on one ring: a point outside the box is outside the ring. */
  lemma OutsideBoxIsOutsideRing(ring: Ring, box: Box, p: Point)
    requires Bounds(box, ring) && !InBox(box, p)
    ensures !Inside(ring, p)
  {
    if ring != [] {
      var closed := [ring[|ring| - 1]] + ring;
      assert Bounds(box, closed);
      if p.x < box.minX { EveryStraddleCrossed(closed, box, p); } else { NothingCrossed(closed, box, p); }
    }
  }
}

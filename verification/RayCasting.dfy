/** Even-odd ray casting over exact reals: the three loops of the source and the parity
    that all of them compute. */
module RayCasting {
  datatype Point = Point(x: real, y: real)

  /** The vertices of a linear ring; the closing vertex may or may not be repeated. */
  type Ring = seq<Point>

  /** The edge's end points lie on different sides of the horizontal line through `p`. */
  predicate Straddles(a: Point, b: Point, p: Point) {
    (a.y > p.y) != (b.y > p.y)
  }

  /** Where the edge meets that line. */
  function MeetsAt(a: Point, b: Point, y: real): real
    requires a.y != b.y
  {
    (b.x - a.x) * (y - a.y) / (b.y - a.y) + a.x
  }

  /** The ray from `p` to the right crosses the edge. */
  predicate Crosses(a: Point, b: Point, p: Point) {
    Straddles(a, b, p) && p.x < MeetsAt(a, b, p.y)
  }

  lemma QuotientIsUnique(n: real, d: real, q: real)
    requires d != 0.0 && n == q * d
    ensures n / d == q
  {}

  lemma CrossesIsSymmetric(a: Point, b: Point, p: Point)
    ensures Crosses(a, b, p) == Crosses(b, a, p)
  {
    if a.y != b.y {
      var w, h, t := b.x - a.x, b.y - a.y, p.y - a.y;
      var q := w * t / h;
      assert q * h == w * t;
      assert (-w) * (t - h) == (q - w) * (-h);
      QuotientIsUnique((-w) * (t - h), -h, q - w);
      assert a.x - b.x == -w && p.y - b.y == t - h && a.y - b.y == -h;
      assert MeetsAt(a, b, p.y) == q + a.x && MeetsAt(b, a, p.y) == q - w + b.x;
    }
  }

  lemma ProductIsBetween(w: real, s: real)
    requires 0.0 <= s <= 1.0
    ensures if 0.0 <= w then 0.0 <= w * s <= w else w <= w * s <= 0.0
  {}

  lemma FractionIsBetween(t: real, h: real)
    requires h != 0.0 && (0.0 <= t <= h || h <= t <= 0.0)
    ensures 0.0 <= t / h <= 1.0
  {}

  /** The meeting point lies between the end points, as the segment is convex. */
  lemma MeetsBetween(a: Point, b: Point, p: Point, lo: real, hi: real)
    requires Straddles(a, b, p) && lo <= a.x <= hi && lo <= b.x <= hi
    ensures lo <= MeetsAt(a, b, p.y) <= hi
  {
    var w, h, t := b.x - a.x, b.y - a.y, p.y - a.y;
    var s := t / h;
    FractionIsBetween(t, h);
    assert (w * s) * h == w * t by { assert s * h == t; }
    QuotientIsUnique(w * t, h, w * s);
    ProductIsBetween(w, s);
    assert MeetsAt(a, b, p.y) == w * t / h + a.x;
  }

  // -------------------------------------------------------------------- parity

  /** Parity of the edges crossed along an open path. */
  function Trace(path: seq<Point>, p: Point): bool {
    if |path| < 2 then false else Crosses(path[0], path[1], p) != Trace(path[1..], p)
  }

  /** The even-odd rule on the closed ring. */
  function Inside(ring: Ring, p: Point): bool {
    ring != [] && Trace([ring[|ring| - 1]] + ring, p)
  }

  lemma {:induction false} TraceJoins(a: seq<Point>, x: Point, b: seq<Point>, p: Point)
    ensures Trace(a + [x] + b, p) == (Trace(a + [x], p) != Trace([x] + b, p))
  {
    if a == [] {
      assert a + [x] + b == [x] + b && a + [x] == [x];
    } else {
      TraceJoins(a[1..], x, b, p);
      assert (a + [x] + b)[1..] == a[1..] + [x] + b;
      assert (a + [x])[1..] == a[1..] + [x];
      assert (a + [x] + b)[1] == (a + [x])[1];
    }
  }

  lemma TraceOneMore(path: seq<Point>, x: Point, p: Point)
    requires path != []
    ensures Trace(path + [x], p) == (Trace(path, p) != Crosses(path[|path| - 1], x, p))
  {
    var front, last := path[..|path| - 1], path[|path| - 1];
    assert path == front + [last] && path + [x] == front + [last] + [x];
    TraceJoins(front, last, [x], p);
    assert ([last] + [x])[1..] == [x];
  }

  // ---------------------------------------------------------------- the casters

  /** `_inside_ring`: remembers the previous vertex.  It reads the last vertex first, so
      the ring must not be empty. */
  method InsideRing(p: Point, ring: Ring) returns (inside: bool)
    requires ring != []
    ensures inside == Inside(ring, p)
  {
    inside := false;
    var previous := ring[|ring| - 1];
    ghost var path := [previous];
    for i := 0 to |ring|
      invariant path == [ring[|ring| - 1]] + ring[..i] && previous == path[i]
      invariant inside == Trace(path, p)
    {
      var current := ring[i];
      TraceOneMore(path, current, p);
      if Crosses(previous, current, p) { inside := !inside; }
      previous := current;
      path := path + [current];
    }
    assert ring[..|ring|] == ring;
  }

  /** `_ring_contains`: walks two indices, and reads each edge backwards. */
  method RingContains(ring: Ring, p: Point) returns (inside: bool)
    ensures inside == Inside(ring, p)
  {
    inside := false;
    var n := |ring|;
    var j := n - 1;
    ghost var path := if n == 0 then [] else [ring[n - 1]];
    for i := 0 to n
      invariant n > 0 ==> path == [ring[n - 1]] + ring[..i] && 0 <= j < n && path[i] == ring[j]
      invariant n == 0 ==> path == []
      invariant inside == Trace(path, p)
    {
      TraceOneMore(path, ring[i], p);
      CrossesIsSymmetric(ring[i], ring[j], p);
      if Crosses(ring[i], ring[j], p) { inside := !inside; }
      path := path + [ring[i]];
      j := i;
    }
    assert ring[..n] == ring;
  }

  /** The edge test of `point_in_geojson`, which replaces a zero height by a small one. */
  predicate CrossesGuarded(current: Point, previous: Point, p: Point) {
    var height := if previous.y == current.y then 0.000000000001 else previous.y - current.y;
    Straddles(current, previous, p) && p.x < (previous.x - current.x) * (p.y - current.y) / height + current.x
  }

  /** A straddling edge is never level, so the replacement never matters. */
  lemma GuardIsDead(current: Point, previous: Point, p: Point)
    ensures CrossesGuarded(current, previous, p) == Crosses(previous, current, p)
  {}

  /** The inner loop of `point_in_geojson`: indexes the previous vertex with `index - 1`. */
  method RingInGeoJson(ring: Ring, p: Point) returns (inside: bool)
    ensures inside == Inside(ring, p)
  {
    inside := false;
    ghost var path := if ring == [] then [] else [ring[|ring| - 1]];
    for index := 0 to |ring|
      invariant ring != [] ==> path == [ring[|ring| - 1]] + ring[..index]
      invariant ring == [] ==> path == []
      invariant inside == Trace(path, p)
    {
      var current := ring[index];
      var previous := ring[if index == 0 then |ring| - 1 else index - 1];
      TraceOneMore(path, current, p);
      GuardIsDead(current, previous, p);
      if CrossesGuarded(current, previous, p) { inside := !inside; }
      path := path + [current];
    }
    assert ring[..|ring|] == ring;
  }
}

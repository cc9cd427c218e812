/** What the even-odd rule answers on triangles, in terms of turns to the left or right:
    the reference that fixes where a slanted edge is crossed. */
module Triangles {
  import opened RayCasting
  import opened RingLaws

  /** Twice the signed area of the triangle `a`, `b`, `p`: positive when `p` lies left of the
      way from `a` to `b`, negative when it lies right of it. */
  function Turn(a: Point, b: Point, p: Point): real {
    (a.x - p.x) * (b.y - p.y) - (b.x - p.x) * (a.y - p.y)
  }

  lemma QuotientOrder(d: real, n: real, h: real)
    requires h != 0.0
    ensures d < n / h <==> if h > 0.0 then d * h < n else d * h > n
  {
    var q := n / h;
    assert q * h == n;
    if d == q {
      assert d * h == n;
    } else if h > 0.0 {
      if d < q { ProductOrder(d, q, h); } else { ProductOrder(q, d, h); }
    } else {
      assert d * -h == -(d * h) && q * -h == -(q * h);
      if d < q { ProductOrder(d, q, -h); } else { ProductOrder(q, d, -h); }
    }
  }

  lemma ProductOrder(a: real, b: real, c: real)
    requires a < b && c > 0.0
    ensures a * c < b * c
  {}

  /** The ray to the right of `p` crosses an edge that leads from one side of the level of
      `p` to the other exactly when `p` lies left of it on the way up. */
  lemma CrossesIffTurn(a: Point, b: Point, p: Point)
    requires (a.y > p.y) != (b.y > p.y)
    ensures Crosses(a, b, p) <==> if b.y > a.y then Turn(a, b, p) > 0.0 else Turn(a, b, p) < 0.0
  {
    var n, h := (b.x - a.x) * (p.y - a.y), b.y - a.y;
    QuotientOrder(p.x - a.x, n, h);
    TurnOtherwise(a, b, p);
  }

  lemma TurnOtherwise(a: Point, b: Point, p: Point)
    ensures Turn(a, b, p) == (b.x - a.x) * (p.y - a.y) - (p.x - a.x) * (b.y - a.y)
  {}

  /** The three turns balance the heights of the opposite vertices. */
  lemma TurnsBalance(a: Point, b: Point, c: Point, p: Point)
    ensures Turn(b, c, p) * (a.y - p.y) + Turn(c, a, p) * (b.y - p.y) + Turn(a, b, p) * (c.y - p.y) == 0.0
  {}

  predicate OneSign(x: real, y: real, z: real) {
    (x > 0.0 && y > 0.0 && z > 0.0) || (x < 0.0 && y < 0.0 && z < 0.0)
  }

  lemma InsideOfThree(a: Point, b: Point, c: Point, p: Point)
    ensures Inside([a, b, c], p) == (Crosses(c, a, p) != (Crosses(a, b, p) != Crosses(b, c, p)))
  {
    assert [c] + [a, b, c] == [c, a, b, c];
    assert [c, a, b, c][1..] == [a, b, c] && [a, b, c][1..] == [b, c] && [b, c][1..] == [c];
    assert Trace([b, c], p) == Crosses(b, c, p);
    assert Trace([a, b, c], p) == (Crosses(a, b, p) != Trace([b, c], p));
  }

  lemma ProductSign(x: real, y: real)
    ensures x > 0.0 && y > 0.0 ==> x * y > 0.0
    ensures x > 0.0 && y <= 0.0 ==> x * y <= 0.0
    ensures x < 0.0 && y > 0.0 ==> x * y < 0.0
    ensures x < 0.0 && y <= 0.0 ==> x * y >= 0.0
    ensures x > 0.0 && y < 0.0 ==> x * y < 0.0
    ensures x < 0.0 && y < 0.0 ==> x * y > 0.0
  {}

  /** With `a` on its own side of the level of `p`, the third turn has the sign of the other
      two when these agree. */
  lemma ThirdTurn(a: Point, b: Point, c: Point, p: Point)
    requires (a.y > p.y) != (b.y > p.y) && (a.y > p.y) != (c.y > p.y)
    requires Turn(a, b, p) != 0.0 && Turn(b, c, p) != 0.0 && Turn(c, a, p) != 0.0
    requires (Turn(a, b, p) > 0.0) == (Turn(c, a, p) > 0.0)
    ensures (Turn(b, c, p) > 0.0) == (Turn(a, b, p) > 0.0)
  {
    TurnsBalance(a, b, c, p);
    ProductSign(Turn(b, c, p), a.y - p.y);
    ProductSign(Turn(c, a, p), b.y - p.y);
    ProductSign(Turn(a, b, p), c.y - p.y);
  }

  lemma InsideWithOneApart(a: Point, b: Point, c: Point, p: Point)
    requires (a.y > p.y) != (b.y > p.y) && (a.y > p.y) != (c.y > p.y)
    requires Turn(a, b, p) != 0.0 && Turn(b, c, p) != 0.0 && Turn(c, a, p) != 0.0
    ensures Inside([a, b, c], p) <==> OneSign(Turn(a, b, p), Turn(b, c, p), Turn(c, a, p))
  {
    InsideOfThree(a, b, c, p);
    CrossesIffTurn(a, b, p);
    CrossesIffTurn(c, a, p);
    if (Turn(a, b, p) > 0.0) == (Turn(c, a, p) > 0.0) { ThirdTurn(a, b, c, p); }
  }

  /** Positive weights of heights on one side balance only when all heights vanish. */
  lemma WeightsOnOneSide(x: real, y: real, z: real, u: real, v: real, w: real)
    requires x > 0.0 && y > 0.0 && z > 0.0
    ensures u > 0.0 && v > 0.0 && w > 0.0 ==> x * u + y * v + z * w > 0.0
    ensures u <= 0.0 && v <= 0.0 && w <= 0.0 && x * u + y * v + z * w == 0.0 ==> u == v == w == 0.0
  {
    ProductSign(x, u);
    ProductSign(y, v);
    ProductSign(z, w);
  }

  lemma NotOneSignWhenNoneApart(a: Point, b: Point, c: Point, p: Point)
    requires (a.y > p.y) == (b.y > p.y) == (c.y > p.y)
    ensures !OneSign(Turn(a, b, p), Turn(b, c, p), Turn(c, a, p))
  {
    var x, y, z := Turn(b, c, p), Turn(c, a, p), Turn(a, b, p);
    var u, v, w := a.y - p.y, b.y - p.y, c.y - p.y;
    TurnsBalance(a, b, c, p);
    if x > 0.0 && y > 0.0 && z > 0.0 { WeightsOnOneSide(x, y, z, u, v, w); }
    if x < 0.0 && y < 0.0 && z < 0.0 {
      assert -x * u + -y * v + -z * w == 0.0;
      WeightsOnOneSide(-x, -y, -z, u, v, w);
    }
  }

  lemma OutsideWhenNoneApart(a: Point, b: Point, c: Point, p: Point)
    requires (a.y > p.y) == (b.y > p.y) == (c.y > p.y)
    ensures !Inside([a, b, c], p) && !OneSign(Turn(a, b, p), Turn(b, c, p), Turn(c, a, p))
  {
    InsideOfThree(a, b, c, p);
    NotOneSignWhenNoneApart(a, b, c, p);
  }

  /** A point on none of the three lines is inside a triangle exactly when it lies on the
      same hand of all three sides, whichever way round the triangle is given. */
  lemma InsideTriangleIff(a: Point, b: Point, c: Point, p: Point)
    requires Turn(a, b, p) != 0.0 && Turn(b, c, p) != 0.0 && Turn(c, a, p) != 0.0
    ensures Inside([a, b, c], p) <==> OneSign(Turn(a, b, p), Turn(b, c, p), Turn(c, a, p))
  {
    var upA, upB, upC := a.y > p.y, b.y > p.y, c.y > p.y;
    if upA == upB && upB == upC {
      OutsideWhenNoneApart(a, b, c, p);
    } else if upB == upC {
      InsideWithOneApart(a, b, c, p);
    } else if upA == upC {
      InsideWithOneApart(b, c, a, p);
      RotationKeepsInside([a], [b, c], p);
      assert [a] + [b, c] == [a, b, c] && [b, c] + [a] == [b, c, a];
    } else {
      InsideWithOneApart(c, a, b, p);
      RotationKeepsInside([a, b], [c], p);
      assert [a, b] + [c] == [a, b, c] && [c] + [a, b] == [c, a, b];
    }
  }

  lemma TraceFrom(x: Point, path: seq<Point>, p: Point)
    requires path != []
    ensures Trace([x] + path, p) == (Crosses(x, path[0], p) != Trace(path, p))
  {
    assert ([x] + path)[1..] == path;
  }

  /** One more vertex adds one triangle, and flips the answer on exactly its points: so the
      triangles from the first vertex decide for every ring. */
  lemma OneMoreVertexOneTriangle(ring: Ring, x: Point, p: Point)
    requires |ring| >= 2
    ensures Inside(ring + [x], p) == (Inside(ring, p) != Inside([ring[0], ring[|ring| - 1], x], p))
  {
    var first, last := ring[0], ring[|ring| - 1];
    TraceFrom(x, ring + [x], p);
    TraceOneMore(ring, x, p);
    TraceFrom(last, ring, p);
    InsideOfThree(first, last, x, p);
    CrossesIsSymmetric(first, last, p);
  }

  predicate InTriangle(a: Point, b: Point, c: Point, p: Point) {
    OneSign(Turn(a, b, p), Turn(b, c, p), Turn(c, a, p))
  }

  /** Whether an odd number of the triangles from the first vertex hold the point. */
  function InFan(ring: Ring, p: Point): bool {
    if |ring| < 3 then false
    else
      var n := |ring| - 1;
      InFan(ring[..n], p) != InTriangle(ring[0], ring[n - 1], ring[n], p)
  }

  predicate OffLines(a: Point, b: Point, c: Point, p: Point) {
    Turn(a, b, p) != 0.0 && Turn(b, c, p) != 0.0 && Turn(c, a, p) != 0.0
  }

  predicate OffLinesAt(ring: Ring, k: int, p: Point)
    requires 2 <= k < |ring|
  {
    OffLines(ring[0], ring[k - 1], ring[k], p)
  }

  /** The point lies on none of the lines through the sides of those triangles. */
  predicate OffFan(ring: Ring, p: Point) {
    forall k | 2 <= k < |ring| :: OffLinesAt(ring, k, p)
  }

  /** So the answer on any ring is the parity of the triangles that hold the point. */
  lemma {:induction false} InsideIsFan(ring: Ring, p: Point)
    requires OffFan(ring, p)
    ensures Inside(ring, p) == InFan(ring, p)
  {
    if |ring| >= 3 {
      var n := |ring| - 1;
      var rest := ring[..n];
      assert ring == rest + [ring[n]];
      forall k | 2 <= k < n ensures OffLinesAt(rest, k, p) { assert OffLinesAt(ring, k, p); }
      InsideIsFan(rest, p);
      OneMoreVertexOneTriangle(rest, ring[n], p);
      assert OffLinesAt(ring, n, p);
      InsideTriangleIff(ring[0], ring[n - 1], ring[n], p);
    } else {
      SmallRingsAreEmpty(ring, p);
    }
  }

  lemma SmallRingsAreEmpty(ring: Ring, p: Point)
    requires |ring| < 3
    ensures !Inside(ring, p)
  {
    if |ring| == 1 {
      TraceFrom(ring[0], ring, p);
    } else if |ring| == 2 {
      TraceFrom(ring[1], ring, p);
      TraceFrom(ring[0], [ring[1]], p);
      assert ring == [ring[0]] + [ring[1]];
      CrossesIsSymmetric(ring[0], ring[1], p);
    }
  }
}

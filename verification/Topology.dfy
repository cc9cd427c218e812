/** Decoding a topology: rings are stitched together from shared arcs, some of them
    stored the other way round. */
module Topology {
  import opened Optional
  import opened RayCasting
  import opened RingLaws
  import opened Boundaries

  type Arc = seq<Point>

  /** The points an index stands for. */
  type Coords = int -> Option<Arc>

  /** An entry of a geometry's arc list: one index, one ring, or several rings. */
  datatype Group = Single(index: int) | OneRing(indices: seq<int>) | SeveralRings(rings: seq<seq<int>>)

  // -------------------------------------------------------------------- one ring

  /** `~index` names the arc `index` backwards; an index beyond the list is an error. */
  function ArcCoords(arcs: seq<Arc>): Coords {
    index =>
      var at := if index >= 0 then index else -index - 1;
      if at >= |arcs| then None else Some(if index >= 0 then arcs[at] else Reversed(arcs[at]))
  }

  /** The next arc starts where the ring ends, so its first point is dropped. */
  function Extended(ring: Ring, arc: Arc): Ring {
    if ring == [] || arc == [] then ring + arc else ring + arc[1..]
  }

  /** The first `n` arcs stitched together. */
  function Stitched(coords: Coords, indices: seq<int>, n: nat): Option<Ring>
    requires n <= |indices|
  {
    if n == 0 then Some([])
    else
      var ring := Stitched(coords, indices, n - 1);
      var arc := coords(indices[n - 1]);
      if ring.None? || arc.None? then None else Some(Extended(ring.value, arc.value))
  }

  function Closed(ring: Ring): Ring {
    if ring != [] && ring[0] != ring[|ring| - 1] then ring + [ring[0]] else ring
  }

  function RingOf(coords: Coords, indices: seq<int>): Option<Ring> {
    match Stitched(coords, indices, |indices|)
    case None => None
    case Some(ring) => Some(Closed(ring))
  }

  method DecodeRing(coords: Coords, indices: seq<int>) returns (ring: Option<Ring>)
    ensures ring == RingOf(coords, indices)
  {
    var points: Ring := [];
    for n := 0 to |indices|
      invariant Stitched(coords, indices, n) == Some(points)
    {
      var arc := coords(indices[n]);
      if arc.None? {
        StitchedFailsEarly(coords, indices, n + 1, |indices|);
        return None;
      }
      points := Extended(points, arc.value);
    }
    return Some(Closed(points));
  }

  lemma {:induction false} StitchedFailsEarly(coords: Coords, indices: seq<int>, n: nat, m: nat)
    requires n <= m <= |indices| && Stitched(coords, indices, n).None?
    ensures Stitched(coords, indices, m).None?
  {
    if n < m { StitchedFailsEarly(coords, indices, n, m - 1); }
  }

  // ------------------------------------------------------- decoding undoes cutting

  /** The positions where a ring is cut, from its first point to its last. */
  predicate Cuts(ring: Ring, cuts: seq<nat>) {
    && ring != [] && |cuts| >= 2 && cuts[0] == 0 && cuts[|cuts| - 1] == |ring| - 1
    && forall j, k | 0 <= j < k < |cuts| :: cuts[j] <= cuts[k]
  }

  /** The piece between two neighbouring cuts; neighbouring pieces share a point. */
  function Piece(ring: Ring, cuts: seq<nat>, k: nat): Arc
    requires Cuts(ring, cuts) && k + 1 < |cuts|
  {
    ring[cuts[k]..cuts[k + 1] + 1]
  }

  /** The arc named by `index` is the piece, or is stored as the piece reversed. */
  predicate Stores(arcs: seq<Arc>, index: int, piece: Arc) {
    if index >= 0 then index < |arcs| && arcs[index] == piece
    else -index - 1 < |arcs| && arcs[-index - 1] == Reversed(piece)
  }

  predicate StoresPiece(arcs: seq<Arc>, indices: seq<int>, ring: Ring, cuts: seq<nat>, k: nat)
    requires Cuts(ring, cuts) && |indices| == |cuts| - 1 && k < |indices|
  {
    Stores(arcs, indices[k], Piece(ring, cuts, k))
  }

  predicate StoresCut(arcs: seq<Arc>, indices: seq<int>, ring: Ring, cuts: seq<nat>) {
    Cuts(ring, cuts) && |indices| == |cuts| - 1 &&
    forall k: nat | k < |indices| :: StoresPiece(arcs, indices, ring, cuts, k)
  }

  lemma StoredArc(arcs: seq<Arc>, index: int, piece: Arc)
    requires Stores(arcs, index, piece)
    ensures ArcCoords(arcs)(index) == Some(piece)
  {
    ReversedTwice(piece);
  }

  lemma NextPiece(ring: Ring, a: nat, b: nat)
    requires a <= b < |ring|
    ensures Extended(ring[..a + 1], ring[a..b + 1]) == ring[..b + 1]
  {}

  predicate GivesPiece(coords: Coords, indices: seq<int>, ring: Ring, cuts: seq<nat>, k: nat)
    requires Cuts(ring, cuts) && |indices| == |cuts| - 1 && k < |indices|
  {
    coords(indices[k]) == Some(Piece(ring, cuts, k))
  }

  lemma {:induction false} StitchingUndoesCutting(coords: Coords, indices: seq<int>, ring: Ring, cuts: seq<nat>, n: nat)
    requires Cuts(ring, cuts) && |indices| == |cuts| - 1 && 0 < n <= |indices|
    requires forall k: nat | k < |indices| :: GivesPiece(coords, indices, ring, cuts, k)
    ensures Stitched(coords, indices, n) == Some(ring[..cuts[n] + 1])
  {
    assert GivesPiece(coords, indices, ring, cuts, n - 1);
    if n > 1 {
      StitchingUndoesCutting(coords, indices, ring, cuts, n - 1);
      NextPiece(ring, cuts[n - 1], cuts[n]);
    } else {
      assert Stitched(coords, indices, 0) == Some([]);
      assert [] + ring[0..cuts[n] + 1] == ring[..cuts[n] + 1];
    }
  }

  /** A ring cut into arcs anywhere, any of them stored reversed, decodes to itself, with
      its closing point added when it has none. */
  lemma DecodingUndoesCutting(arcs: seq<Arc>, indices: seq<int>, ring: Ring, cuts: seq<nat>)
    requires StoresCut(arcs, indices, ring, cuts)
    ensures RingOf(ArcCoords(arcs), indices) == Some(Closed(ring))
    ensures ring[0] == ring[|ring| - 1] ==> RingOf(ArcCoords(arcs), indices) == Some(ring)
  {
    forall k: nat | k < |indices| ensures GivesPiece(ArcCoords(arcs), indices, ring, cuts, k) {
      assert StoresPiece(arcs, indices, ring, cuts, k);
      StoredArc(arcs, indices[k], Piece(ring, cuts, k));
    }
    StitchingUndoesCutting(ArcCoords(arcs), indices, ring, cuts, |indices|);
    assert ring[..cuts[|indices|] + 1] == ring;
  }

  /** So the decoded ring encloses the same points as the ring that was cut. */
  lemma DecodedRingEnclosesTheSame(arcs: seq<Arc>, indices: seq<int>, ring: Ring, cuts: seq<nat>, p: Point)
    requires StoresCut(arcs, indices, ring, cuts)
    ensures RingOf(ArcCoords(arcs), indices).Some?
    ensures Inside(RingOf(ArcCoords(arcs), indices).value, p) == Inside(ring, p)
  {
    DecodingUndoesCutting(arcs, indices, ring, cuts);
    if ring[0] != ring[|ring| - 1] { ClosingVertexKeepsInside(ring, p); }
  }

  // ------------------------------------------------------------ the whole topology

  /** The index lists of the rings of one group. */
  function RingsOf(g: Group): seq<seq<int>> {
    match g
    case Single(index) => [[index]]
    case OneRing(indices) => [indices]
    case SeveralRings(rings) => if rings == [] then [[]] else rings
  }

  /** Those of the first `n` groups. */
  function AllRings(groups: seq<Group>, n: nat): seq<seq<int>>
    requires n <= |groups|
  {
    if n == 0 then [] else AllRings(groups, n - 1) + RingsOf(groups[n - 1])
  }

  predicate IsDecoded(coords: Coords, lists: seq<seq<int>>, rings: seq<Ring>) {
    |rings| == |lists| && forall k | 0 <= k < |lists| :: RingOf(coords, lists[k]) == Some(rings[k])
  }

  predicate Decodable(coords: Coords, lists: seq<seq<int>>) {
    forall k | 0 <= k < |lists| :: RingOf(coords, lists[k]).Some?
  }

  method DecodeGroup(coords: Coords, lists: seq<seq<int>>) returns (rings: Option<seq<Ring>>)
    ensures rings.Some? <==> Decodable(coords, lists)
    ensures rings.Some? ==> IsDecoded(coords, lists, rings.value)
  {
    var decoded: seq<Ring> := [];
    for k := 0 to |lists|
      invariant |decoded| == k && forall j | 0 <= j < k :: RingOf(coords, lists[j]) == Some(decoded[j])
    {
      var ring := DecodeRing(coords, lists[k]);
      if ring.None? { return None; }
      decoded := decoded + [ring.value];
    }
    return Some(decoded);
  }

  /** A geometry decodes to the rings of all its groups in order, or fails as a whole. */
  method DecodeShape(coords: Coords, groups: seq<Group>) returns (rings: Option<seq<Ring>>)
    ensures rings.Some? <==> Decodable(coords, AllRings(groups, |groups|))
    ensures rings.Some? ==> IsDecoded(coords, AllRings(groups, |groups|), rings.value)
  {
    var decoded: seq<Ring> := [];
    for n := 0 to |groups|
      invariant IsDecoded(coords, AllRings(groups, n), decoded)
    {
      var more := DecodeGroup(coords, RingsOf(groups[n]));
      if more.None? {
        DecodableParts(coords, AllRings(groups, n), RingsOf(groups[n]));
        AllRingsGrow(groups, n + 1, |groups|);
        PrefixFails(coords, AllRings(groups, n + 1), AllRings(groups, |groups|));
        return None;
      }
      DecodedParts(coords, AllRings(groups, n), decoded, RingsOf(groups[n]), more.value);
      decoded := decoded + more.value;
    }
    DecodedIsDecodable(coords, AllRings(groups, |groups|), decoded);
    return Some(decoded);
  }

  lemma DecodedIsDecodable(coords: Coords, lists: seq<seq<int>>, rings: seq<Ring>)
    requires IsDecoded(coords, lists, rings)
    ensures Decodable(coords, lists)
  {}

  lemma DecodableParts(coords: Coords, a: seq<seq<int>>, b: seq<seq<int>>)
    ensures Decodable(coords, a + b) <==> Decodable(coords, a) && Decodable(coords, b)
  {
    assert forall k | 0 <= k < |a| :: (a + b)[k] == a[k];
    assert forall k | 0 <= k < |b| :: (a + b)[|a| + k] == b[k];
  }

  lemma DecodedParts(coords: Coords, a: seq<seq<int>>, ra: seq<Ring>, b: seq<seq<int>>, rb: seq<Ring>)
    requires IsDecoded(coords, a, ra) && IsDecoded(coords, b, rb)
    ensures IsDecoded(coords, a + b, ra + rb)
  {
    forall k | 0 <= k < |a + b| ensures RingOf(coords, (a + b)[k]) == Some((ra + rb)[k]) {
      if k < |a| {
        assert RingOf(coords, a[k]) == Some(ra[k]);
      } else {
        assert RingOf(coords, b[k - |a|]) == Some(rb[k - |a|]);
      }
    }
  }

  lemma {:induction false} AllRingsGrow(groups: seq<Group>, n: nat, m: nat)
    requires n <= m <= |groups|
    ensures AllRings(groups, n) <= AllRings(groups, m)
  {
    if n < m { AllRingsGrow(groups, n, m - 1); }
  }

  lemma PrefixFails(coords: Coords, a: seq<seq<int>>, b: seq<seq<int>>)
    requires a <= b && !Decodable(coords, a)
    ensures !Decodable(coords, b)
  {}

  // ------------------------------------------------------------- shapes of cut rings

  /** The indices name the pieces of a closed ring, cut somewhere. */
  ghost predicate Names(arcs: seq<Arc>, indices: seq<int>, ring: Ring) {
    exists cuts :: StoresCut(arcs, indices, ring, cuts) && ring[0] == ring[|ring| - 1]
  }

  /** The group stands for these rings: one index or one list for one ring, or a list each. */
  ghost predicate StandsFor(arcs: seq<Arc>, g: Group, rings: seq<Ring>) {
    match g
    case Single(index) => |rings| == 1 && Names(arcs, [index], rings[0])
    case OneRing(indices) => |rings| == 1 && Names(arcs, indices, rings[0])
    case SeveralRings(lists) =>
      lists != [] && |rings| == |lists| && forall k | 0 <= k < |lists| :: Names(arcs, lists[k], rings[k])
  }

  function Flat(parts: seq<seq<Ring>>): seq<Ring> {
    if parts == [] then [] else Flat(parts[..|parts| - 1]) + parts[|parts| - 1]
  }

  lemma NamedRingDecodes(arcs: seq<Arc>, indices: seq<int>, ring: Ring)
    requires Names(arcs, indices, ring)
    ensures RingOf(ArcCoords(arcs), indices) == Some(ring)
  {
    var cuts :| StoresCut(arcs, indices, ring, cuts) && ring[0] == ring[|ring| - 1];
    DecodingUndoesCutting(arcs, indices, ring, cuts);
  }

  lemma GroupDecodes(arcs: seq<Arc>, g: Group, rings: seq<Ring>)
    requires StandsFor(arcs, g, rings)
    ensures IsDecoded(ArcCoords(arcs), RingsOf(g), rings)
  {
    forall k | 0 <= k < |rings| ensures k < |RingsOf(g)| && RingOf(ArcCoords(arcs), RingsOf(g)[k]) == Some(rings[k]) {
      NamedRingDecodes(arcs, RingsOf(g)[k], rings[k]);
    }
  }

  /** A shape built from cut rings decodes to all of them, group by group and in order. */
  lemma {:induction false} ShapeDecodes(arcs: seq<Arc>, groups: seq<Group>, parts: seq<seq<Ring>>, n: nat)
    requires n <= |groups| == |parts| && forall k | 0 <= k < n :: StandsFor(arcs, groups[k], parts[k])
    ensures IsDecoded(ArcCoords(arcs), AllRings(groups, n), Flat(parts[..n]))
  {
    if n > 0 {
      ShapeDecodes(arcs, groups, parts, n - 1);
      GroupDecodes(arcs, groups[n - 1], parts[n - 1]);
      DecodedParts(ArcCoords(arcs), AllRings(groups, n - 1), Flat(parts[..n - 1]), RingsOf(groups[n - 1]),
                   parts[n - 1]);
      assert parts[..n][..n - 1] == parts[..n - 1];
    }
  }

  /** So decoding such a shape never fails, and gives these rings and no others. */
  method DecodeCutShape(arcs: seq<Arc>, groups: seq<Group>, ghost parts: seq<seq<Ring>>) returns (rings: seq<Ring>)
    requires |groups| == |parts| && forall k | 0 <= k < |groups| :: StandsFor(arcs, groups[k], parts[k])
    ensures rings == Flat(parts)
  {
    var decoded := DecodeShape(ArcCoords(arcs), groups);
    ShapeDecodes(arcs, groups, parts, |groups|);
    assert parts[..|groups|] == parts;
    DecodedIsDecodable(ArcCoords(arcs), AllRings(groups, |groups|), Flat(parts));
    rings := decoded.value;
    DecodedOnce(ArcCoords(arcs), AllRings(groups, |groups|), rings, Flat(parts));
  }

  lemma DecodedOnce(coords: Coords, lists: seq<seq<int>>, a: seq<Ring>, b: seq<Ring>)
    requires IsDecoded(coords, lists, a) && IsDecoded(coords, lists, b)
    ensures a == b
  {}

  // ----------------------------------------------------------------- area bounds

  /** `area_bounds`; a polygon without points has none. */
  function AreaBounds(rings: seq<Ring>): Option<Box> {
    if VerticesOfRings(rings) == [] then None else Some(Hull(VerticesOfRings(rings)))
  }

  predicate OfAnArc(arcs: seq<Arc>, p: Point) {
    exists arc :: arc in arcs && p in arc
  }

  lemma ArcPoint(arcs: seq<Arc>, index: int, p: Point)
    requires ArcCoords(arcs)(index).Some? && p in ArcCoords(arcs)(index).value
    ensures OfAnArc(arcs, p)
  {
    var at := if index >= 0 then index else -index - 1;
    ReversedMembers(arcs[at], p);
    assert arcs[at] in arcs && p in arcs[at];
  }

  /** Every point of a stitched ring is a point of one of its arcs. */
  lemma {:induction false} StitchedPoint(coords: Coords, indices: seq<int>, n: nat, p: Point) returns (k: nat)
    requires n <= |indices| && Stitched(coords, indices, n).Some? && p in Stitched(coords, indices, n).value
    ensures k < n && coords(indices[k]).Some? && p in coords(indices[k]).value
  {
    if p in coords(indices[n - 1]).value { k := n - 1; } else { k := StitchedPoint(coords, indices, n - 1, p); }
  }

  /** Every decoded ring is closed, and made of points of the arcs. */
  lemma DecodedRingIsClosed(arcs: seq<Arc>, indices: seq<int>)
    requires RingOf(ArcCoords(arcs), indices).Some? && RingOf(ArcCoords(arcs), indices).value != []
    ensures var ring := RingOf(ArcCoords(arcs), indices).value;
            ring[0] == ring[|ring| - 1] && forall p | p in ring :: OfAnArc(arcs, p)
  {
    var coords := ArcCoords(arcs);
    forall p | p in RingOf(coords, indices).value ensures OfAnArc(arcs, p) {
      var k := StitchedPoint(coords, indices, |indices|, p);
      ArcPoint(arcs, indices[k], p);
    }
  }

  /** Every nonempty ring lies within the bounds of its area, and no smaller box would do. */
  lemma RingsAreBounded(rings: seq<Ring>, k: nat)
    requires k < |rings| && rings[k] != []
    ensures AreaBounds(rings).Some? && Bounds(AreaBounds(rings).value, rings[k])
    ensures forall box | (forall ring | ring in rings :: Bounds(box, ring)) :: Within(AreaBounds(rings).value, box)
  {
    var points := VerticesOfRings(rings);
    var ring := rings[k];
    assert ring in rings && ring[0] in ring && ring[0] in points;
    forall j | 0 <= j < |rings[k]| ensures InBox(Hull(points), ring[j]) {
      assert ring[j] in ring && ring[j] in points;
    }
    forall box | (forall ring | ring in rings :: Bounds(box, ring)) ensures Within(AreaBounds(rings).value, box) {
      VerticesAreBounded(rings, box);
    }
  }

  lemma {:induction false} VerticesAreBounded(rings: seq<Ring>, box: Box)
    requires forall ring | ring in rings :: Bounds(box, ring)
    ensures Bounds(box, VerticesOfRings(rings))
  {
    if rings != [] {
      assert rings[0] in rings;
      VerticesAreBounded(rings[1..], box);
    }
  }
}

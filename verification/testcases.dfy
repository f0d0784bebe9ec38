/**
 The documented conversions, one lemma per scenario: each builds the input
 tree the scenario describes and states the geometry it converts to, before
 rewinding. Coordinates are multiplied by 10 where the scenario passes
 `transformCoords`.
 */
module TestCases {
  import opened Results
  import opened Tree
  import opened Coords
  import opened Rings
  import opened Surfaces
  import opened Encodings
  import opened Assembly
  import opened Numerals

  /** The unit square. */
  const CoordsA: seq<Tuple> := [[0, 0], [0, 1], [1, 1], [1, 0], [0, 0]]
  /** A larger square, disjoint from A. */
  const CoordsB: seq<Tuple> := [[2, 2], [2, 5], [5, 5], [5, 2], [2, 2]]
  /** A square inside B. */
  const CoordsC: seq<Tuple> := [[3, 3], [3, 4], [4, 4], [4, 3], [3, 3]]

  /** CoordsA, B and C multiplied by 10. */
  const RingA10: Ring := [[0, 0], [0, 10], [10, 10], [10, 0], [0, 0]]
  const RingB10: Ring := [[20, 20], [20, 50], [50, 50], [50, 20], [20, 20]]
  const RingC10: Ring := [[30, 30], [30, 40], [40, 40], [40, 30], [30, 30]]

  /** The attributes `{'gml:id': id}`. */
  function Id(id: string): map<string, string>
  {
    map[Gml("id") := id]
  }

  lemma TimesPair(a: int, b: int)
    ensures Times10([a, b]) == [10 * a, 10 * b]
  {
  }

  /** `transformCoords` scales the corners of a square with corner values `a` and `b`. */
  lemma ScaledSquare(c: seq<Tuple>, a: int, b: int)
    requires c == [[a, a], [a, b], [b, b], [b, a], [a, a]]
    ensures MapSeq(Times10, c) == [[10 * a, 10 * a], [10 * a, 10 * b], [10 * b, 10 * b], [10 * b, 10 * a], [10 * a, 10 * a]]
  {
    TimesPair(a, a);
    TimesPair(a, b);
    TimesPair(b, b);
    TimesPair(b, a);
  }

  /** `transformCoords` turns the three squares into their scaled rings. */
  lemma Scaled()
    ensures MapSeq(Times10, CoordsA) == RingA10
    ensures MapSeq(Times10, CoordsB) == RingB10
    ensures MapSeq(Times10, CoordsC) == RingC10
    ensures AllOfArity(CoordsA, 2) && AllOfArity(CoordsB, 2) && AllOfArity(CoordsC, 2)
    ensures PreservesArity(Times10)
  {
    Times10PreservesArity();
    ScaledSquare(CoordsA, 0, 1);
    ScaledSquare(CoordsB, 2, 5);
    ScaledSquare(CoordsC, 3, 4);
  }

  /** A `Polygon` or `Rectangle` with an exterior ring and no holes. */
  lemma ParseOneRing(tag: string, attributes: map<string, string>, e: Node, x: Ring, f: Transform, s: Dim)
    requires tag == Gml("Polygon") || tag == Gml("Rectangle")
    requires RingsOf(e, f, s) == Ok([x])
    ensures Polygons(PolygonNode(tag, attributes, e, []), f, s) == Ok([[x]])
    ensures Parse(PolygonNode(tag, attributes, e, []), f, s) == Ok(Polygon([x]))
  {
    assert [x] + [] == [x];
    ParsePolygonNode(tag, attributes, e, [], x, [], f, s);
  }

  /** A `PolygonPatch` or `Rectangle` patch with an exterior ring and no holes. */
  lemma PatchOneRing(tag: string, attributes: map<string, string>, e: Node, x: Ring, f: Transform, s: Dim)
    requires tag == Gml("PolygonPatch") || tag == Gml("Rectangle")
    requires RingsOf(e, f, s) == Ok([x])
    ensures PatchPolygons(PolygonNode(tag, attributes, e, []), f, s) == Ok([[x]])
  {
    assert [x] + [] == [x];
    PatchIsPolygon(tag, attributes, e, [], x, [], f, s);
  }

  /** Cutting five tuples at every index gives the four neighbouring pairs. */
  lemma FourSlices<T>(r: seq<T>)
    requires |r| == 5
    ensures ValidCuts([0, 1, 2, 3, 4], |r|)
    ensures Slices(r, [0, 1, 2, 3, 4]) == [r[0..2], r[1..3], r[2..4], r[3..]]
  {
    assert ValidCuts([4], 5);
    assert ValidCuts([3, 4], 5);
    assert ValidCuts([2, 3, 4], 5);
    assert ValidCuts([1, 2, 3, 4], 5);
    assert Slices(r, [3, 4]) == [r[3..5]] + Slices(r, [4]);
    assert Slices(r, [2, 3, 4]) == [r[2..4]] + Slices(r, [3, 4]);
    assert Slices(r, [1, 2, 3, 4]) == [r[1..3]] + Slices(r, [2, 3, 4]);
    assert Slices(r, [0, 1, 2, 3, 4]) == [r[0..2]] + Slices(r, [1, 2, 3, 4]);
    assert Slices(r, [4]) == [] && r[3..5] == r[3..];
  }

  /** Cutting five tuples at 0, 2 and 4 gives the first three and the last three. */
  lemma TwoSlices<T>(r: seq<T>)
    requires |r| == 5
    ensures ValidCuts([0, 2, 4], |r|)
    ensures Slices(r, [0, 2, 4]) == [r[0..3], r[2..]]
  {
    assert ValidCuts([4], 5);
    assert ValidCuts([2, 4], 5);
    assert Slices(r, [2, 4]) == [r[2..5]] + Slices(r, [4]);
    assert Slices(r, [0, 2, 4]) == [r[0..3]] + Slices(r, [2, 4]);
    assert Slices(r, [4]) == [] && r[2..5] == r[2..];
  }

  /** A `LinearRing` whose block reads is that one ring. */
  lemma LinearRingOfBlock(cs: seq<Node>, x: Ring, f: Transform, s: Dim)
    requires Block(H(Gml("LinearRing"), cs), f, s) == Ok(x)
    ensures RingsOf(H(Gml("LinearRing"), cs), f, s) == Ok([x])
  {
    GmlLocalName("LinearRing");
  }

  /** A `Ring` whose curve members merge into a ring is that one ring. */
  lemma RingOfCurves(curves: seq<Node>, x: Ring, f: Transform, s: Dim)
    requires CurveRing(RingOf(curves), f, s) == Ok(x)
    ensures RingsOf(RingOf(curves), f, s) == Ok([x])
  {
    GmlLocalName("Ring");
    GmlLocalName("LinearRing");
  }

  /** The three coordinate encodings of a `LinearRing` give the same ring. */
  lemma LinearRingEncodings(coords: seq<Tuple>, f: Transform, s: Dim)
    requires |coords| > 0 && AllOfArity(coords, s) && PreservesArity(f)
    ensures RingsOf(H(Gml("LinearRing"), [PosList(coords)]), f, s) == Ok([MapSeq(f, coords)])
    ensures RingsOf(H(Gml("LinearRing"), Pos5(coords)), f, s) == Ok([MapSeq(f, coords)])
    ensures RingsOf(H(Gml("LinearRing"), Point5(coords)), f, s) == Ok([MapSeq(f, coords)])
  {
    EncodingsAgree(Gml("LinearRing"), coords, f, s);
    LinearRingOfBlock([PosList(coords)], MapSeq(f, coords), f, s);
    LinearRingOfBlock(Pos5(coords), MapSeq(f, coords), f, s);
    LinearRingOfBlock(Point5(coords), MapSeq(f, coords), f, s);
  }

  /** `Polygon > exterior > LinearRing` with `posList`, `pos`×5 or `Point`×5 `> pos`. */
  lemma PolygonOfLinearRing()
    ensures ParseWith(PolygonNode(Gml("Polygon"), Id("some-id"), H(Gml("LinearRing"), [PosList(CoordsA)]), []), Times10)
      == Ok(Polygon([RingA10]))
    ensures ParseWith(PolygonNode(Gml("Polygon"), Id("some-id"), H(Gml("LinearRing"), Pos5(CoordsA)), []), Times10)
      == Ok(Polygon([RingA10]))
    ensures ParseWith(PolygonNode(Gml("Polygon"), Id("some-id"), H(Gml("LinearRing"), Point5(CoordsA)), []), Times10)
      == Ok(Polygon([RingA10]))
  {
    Scaled();
    LinearRingEncodings(CoordsA, Times10, 2);
    ParseOneRing(Gml("Polygon"), Id("some-id"), H(Gml("LinearRing"), [PosList(CoordsA)]), RingA10, Times10, 2);
    ParseOneRing(Gml("Polygon"), Id("some-id"), H(Gml("LinearRing"), Pos5(CoordsA)), RingA10, Times10, 2);
    ParseOneRing(Gml("Polygon"), Id("some-id"), H(Gml("LinearRing"), Point5(CoordsA)), RingA10, Times10, 2);
  }

  /**
   The first test as written: `parse(p, transformCoords)` equals
   `rewind(simpleExterior)` whenever the orientation step applied after the
   conversion is `rewind` itself.
   */
  lemma OrientedSimpleExterior(rewind: Geometry -> Geometry)
    ensures ParseOriented(PolygonNode(Gml("Polygon"), Id("some-id"), H(Gml("LinearRing"), [PosList(CoordsA)]), []), Times10, DefaultStride, rewind)
      == Ok(rewind(Polygon([RingA10])))
  {
    PolygonOfLinearRing();
    OrientedOf(PolygonNode(Gml("Polygon"), Id("some-id"), H(Gml("LinearRing"), [PosList(CoordsA)]), []), Times10, DefaultStride, Polygon([RingA10]), rewind);
  }

  /** `Rectangle > exterior > LinearRing > posList`. */
  lemma RectangleOfLinearRing()
    ensures ParseWith(PolygonNode(Gml("Rectangle"), map[], LinearRingOf(CoordsA), []), Times10) == Ok(Polygon([RingA10]))
  {
    Scaled();
    LinearRingReads(CoordsA, Times10, 2);
    ParseOneRing(Gml("Rectangle"), map[], LinearRingOf(CoordsA), RingA10, Times10, 2);
  }

  /** `Polygon > exterior > Ring > curveMember > LineString` with `posList` or `pos`×5. */
  lemma PolygonOfLineString()
    ensures ParseWith(PolygonNode(Gml("Polygon"), Id("some-id"), RingOf([LineStringOf(CoordsA)]), []), Times10)
      == Ok(Polygon([RingA10]))
    ensures ParseWith(PolygonNode(Gml("Polygon"), Id("some-id"), RingOf([H(Gml("LineString"), Pos5(CoordsA))]), []), Times10)
      == Ok(Polygon([RingA10]))
  {
    Scaled();
    LinearRingEncodings(CoordsA, Times10, 2);
    SingleMemberRing([PosList(CoordsA)], Times10, 2);
    SingleMemberRing(Pos5(CoordsA), Times10, 2);
    ParseOneRing(Gml("Polygon"), Id("some-id"), RingOf([LineStringOf(CoordsA)]), RingA10, Times10, 2);
    ParseOneRing(Gml("Polygon"), Id("some-id"), RingOf([H(Gml("LineString"), Pos5(CoordsA))]), RingA10, Times10, 2);
  }

  /** Four `LineString` members holding neighbouring pairs of five tuples make the ring of all five. */
  lemma FourLineStringsRing(r: seq<Tuple>, f: Transform, s: Dim)
    requires |r| == 5 && AllOfArity(r, s) && PreservesArity(f)
    ensures RingsOf(RingOf([LineStringOf(r[0..2]), LineStringOf(r[1..3]), LineStringOf(r[2..4]), LineStringOf(r[3..])]), f, s)
      == Ok([MapSeq(f, r)])
  {
    var cuts: seq<nat> := [0, 1, 2, 3, 4];
    FourSlices(r);
    var curves := LineStrings(Slices(r, cuts));
    assert curves == [LineStringOf(r[0..2]), LineStringOf(r[1..3]), LineStringOf(r[2..4]), LineStringOf(r[3..])];
    CurveMembersReassemble(r, cuts, f, s);
    RingOfCurves(curves, MapSeq(f, r), f, s);
  }

  /** `Ring > curveMember`×4 `> LineString`, each holding two neighbouring tuples of A. */
  lemma PolygonOfFourLineStrings()
    ensures ParseWith(PolygonNode(Gml("Polygon"), Id("some-id"),
      RingOf([LineStringOf(CoordsA[0..2]), LineStringOf(CoordsA[1..3]), LineStringOf(CoordsA[2..4]), LineStringOf(CoordsA[3..])]),
      []), Times10) == Ok(Polygon([RingA10]))
  {
    Scaled();
    FourLineStringsRing(CoordsA, Times10, 2);
    ParseOneRing(Gml("Polygon"), Id("some-id"),
      RingOf([LineStringOf(CoordsA[0..2]), LineStringOf(CoordsA[1..3]), LineStringOf(CoordsA[2..4]), LineStringOf(CoordsA[3..])]),
      RingA10, Times10, 2);
  }

  /**
   The segments r[0..3] and r[2..] of five tuples make the ring of all five,
   whether they sit in two `Curve` members or in one.
   */
  lemma TwoSegmentsRing(r: seq<Tuple>, f: Transform, s: Dim)
    requires |r| == 5 && AllOfArity(r, s) && PreservesArity(f)
    ensures RingsOf(RingOf([CurveOf([r[0..3]]), CurveOf([r[2..]])]), f, s) == Ok([MapSeq(f, r)])
    ensures RingsOf(RingOf([CurveOf([r[0..3], r[2..]])]), f, s) == Ok([MapSeq(f, r)])
  {
    var cuts: seq<nat> := [0, 2, 4];
    var s1, s2 := r[0..3], r[2..];
    TwoSlices(r);
    var apart, together := [[s1], [s2]], [[s1, s2]];
    assert Concat(apart) == [s1, s2] by {
      assert Concat(apart) == [s1] + Concat([[s2]]);
      assert Concat([[s2]]) == [s2] + Concat([]);
    }
    assert Concat(together) == [s1, s2] by {
      assert Concat(together) == [s1, s2] + Concat([]);
    }
    SegmentGroupingsAgree(r, cuts, apart, f, s);
    SegmentGroupingsAgree(r, cuts, together, f, s);
    assert Curves(apart) == [CurveOf([s1]), CurveOf([s2])];
    assert Curves(together) == [CurveOf([s1, s2])];
    RingOfCurves(Curves(apart), MapSeq(f, r), f, s);
    RingOfCurves(Curves(together), MapSeq(f, r), f, s);
  }

  /**
   `Ring > curveMember > Curve > segments > LineStringSegment` with the two
   segments A[0..3] and A[2..] either in two curve members or in one.
   */
  lemma PolygonOfSegments()
    ensures ParseWith(PolygonNode(Gml("Polygon"), Id("some-id"),
      RingOf([CurveOf([CoordsA[0..3]]), CurveOf([CoordsA[2..]])]), []), Times10) == Ok(Polygon([RingA10]))
    ensures ParseWith(PolygonNode(Gml("Polygon"), Id("some-id"),
      RingOf([CurveOf([CoordsA[0..3], CoordsA[2..]])]), []), Times10) == Ok(Polygon([RingA10]))
  {
    Scaled();
    TwoSegmentsRing(CoordsA, Times10, 2);
    ParseOneRing(Gml("Polygon"), Id("some-id"), RingOf([CurveOf([CoordsA[0..3]]), CurveOf([CoordsA[2..]])]), RingA10, Times10, 2);
    ParseOneRing(Gml("Polygon"), Id("some-id"), RingOf([CurveOf([CoordsA[0..3], CoordsA[2..]])]), RingA10, Times10, 2);
  }

  /** A `Surface` with two patches of one polygon each holds both polygons, in order. */
  lemma TwoPatchPolygons(attributes: map<string, string>, p1: Node, p2: Node, l1: RingList, l2: RingList, f: Transform, s: Dim)
    requires PatchPolygons(p1, f, s) == Ok([l1]) && PatchPolygons(p2, f, s) == Ok([l2])
    ensures Polygons(SurfaceOf(attributes, [p1, p2]), f, s) == Ok([l1, l2])
  {
    PatchesFlatten(attributes, [p1, p2], f, s);
    CollectSingletons(EachPatch([p1, p2], f, s), [l1, l2]);
  }

  /** A `Surface` with two one-ring patches converts to a `MultiPolygon` of the two. */
  lemma TwoPatchSurface(attributes: map<string, string>, tag: string, a1: map<string, string>, a2: map<string, string>,
                        e1: Node, e2: Node, x1: Ring, x2: Ring, f: Transform, s: Dim)
    requires tag == Gml("PolygonPatch") || tag == Gml("Rectangle")
    requires RingsOf(e1, f, s) == Ok([x1]) && RingsOf(e2, f, s) == Ok([x2])
    ensures Parse(SurfaceOf(attributes, [PolygonNode(tag, a1, e1, []), PolygonNode(tag, a2, e2, [])]), f, s)
      == Ok(MultiPolygon([[x1], [x2]]))
  {
    PatchOneRing(tag, a1, e1, x1, f, s);
    PatchOneRing(tag, a2, e2, x2, f, s);
    TwoPatchPolygons(attributes, PolygonNode(tag, a1, e1, []), PolygonNode(tag, a2, e2, []), [x1], [x2], f, s);
    SurfaceKind(attributes, [PolygonNode(tag, a1, e1, []), PolygonNode(tag, a2, e2, [])]);
  }

  /** `Surface > patches > PolygonPatch`×2 and `Surface > patches > Rectangle`×2, holding A and B. */
  lemma SurfaceOfTwoPatches()
    ensures ParseWith(SurfaceOf(Id("some-id"), [
      PolygonNode(Gml("PolygonPatch"), Id("a"), LinearRingOf(CoordsA), []),
      PolygonNode(Gml("PolygonPatch"), Id("b"), LinearRingOf(CoordsB), [])]), Times10)
      == Ok(MultiPolygon([[RingA10], [RingB10]]))
    ensures ParseWith(SurfaceOf(Id("some-id"), [
      PolygonNode(Gml("Rectangle"), Id("a"), LinearRingOf(CoordsA), []),
      PolygonNode(Gml("Rectangle"), Id("b"), LinearRingOf(CoordsB), [])]), Times10)
      == Ok(MultiPolygon([[RingA10], [RingB10]]))
  {
    Scaled();
    LinearRingReads(CoordsA, Times10, 2);
    LinearRingReads(CoordsB, Times10, 2);
    TwoPatchSurface(Id("some-id"), Gml("PolygonPatch"), Id("a"), Id("b"), LinearRingOf(CoordsA), LinearRingOf(CoordsB), RingA10, RingB10, Times10, 2);
    TwoPatchSurface(Id("some-id"), Gml("Rectangle"), Id("a"), Id("b"), LinearRingOf(CoordsA), LinearRingOf(CoordsB), RingA10, RingB10, Times10, 2);
  }

  /** A collection of two members whose geometries have one polygon each holds both, in order. */
  lemma TwoMembers(tag: string, attributes: map<string, string>, gs: seq<Node>, p1: RingList, p2: RingList, f: Transform, s: Dim)
    requires tag == Gml("MultiSurface") || tag == Gml("CompositeSurface")
    requires |gs| == 2 && Polygons(gs[0], f, s) == Ok([p1]) && Polygons(gs[1], f, s) == Ok([p2])
    ensures Polygons(Element(tag, attributes, SurfaceMembers(gs)), f, s) == Ok([p1, p2])
  {
    var ps := [p1, p2];
    assert forall i :: 0 <= i < |gs| ==> Polygons(gs[i], f, s) == Ok([ps[i]]);
    MembersOfOnePolygon(tag, attributes, gs, ps, f, s);
  }

  /** A collection whose every member geometry has one polygon holds those polygons, in order. */
  lemma MembersOfOnePolygon(tag: string, attributes: map<string, string>, gs: seq<Node>, ps: seq<RingList>, f: Transform, s: Dim)
    requires tag == Gml("MultiSurface") || tag == Gml("CompositeSurface")
    requires |gs| == |ps|
    requires forall i :: 0 <= i < |gs| ==> Polygons(gs[i], f, s) == Ok([ps[i]])
    ensures Polygons(Element(tag, attributes, SurfaceMembers(gs)), f, s) == Ok(ps)
  {
    MembersFlatten(tag, attributes, gs, f, s);
    CollectSingletons(EachPolygons(gs, f, s), ps);
  }

  /** A `MultiSurface` whose members give two polygons is a `MultiPolygon` of them. */
  lemma ParseTwoMembers(attributes: map<string, string>, gs: seq<Node>, p1: RingList, p2: RingList, f: Transform, s: Dim)
    requires |gs| == 2 && Polygons(gs[0], f, s) == Ok([p1]) && Polygons(gs[1], f, s) == Ok([p2])
    ensures Parse(Element(Gml("MultiSurface"), attributes, SurfaceMembers(gs)), f, s) == Ok(MultiPolygon([p1, p2]))
  {
    GmlLocalName("MultiSurface");
    TwoMembers(Gml("MultiSurface"), attributes, gs, p1, p2, f, s);
  }

  /** A `Surface` with one one-ring patch is that one polygon. */
  lemma OnePatchSurface(attributes: map<string, string>, tag: string, a: map<string, string>, e: Node, x: Ring, f: Transform, s: Dim)
    requires tag == Gml("PolygonPatch") || tag == Gml("Rectangle")
    requires RingsOf(e, f, s) == Ok([x])
    ensures Polygons(SurfaceOf(attributes, [PolygonNode(tag, a, e, [])]), f, s) == Ok([[x]])
  {
    PatchOneRing(tag, a, e, x, f, s);
    PatchesFlatten(attributes, [PolygonNode(tag, a, e, [])], f, s);
    CollectAllOne(EachPatch([PolygonNode(tag, a, e, [])], f, s));
  }

  /** `MultiSurface > surfaceMember`×2 `> Surface > patches > Rectangle`, holding A and B. */
  lemma MultiSurfaceOfSurfaces()
    ensures ParseWith(Element(Gml("MultiSurface"), Id("m"), SurfaceMembers([
      SurfaceOf(Id("s1"), [PolygonNode(Gml("Rectangle"), map[], LinearRingOf(CoordsA), [])]),
      SurfaceOf(Id("s2"), [PolygonNode(Gml("Rectangle"), map[], LinearRingOf(CoordsB), [])])])), Times10)
      == Ok(MultiPolygon([[RingA10], [RingB10]]))
  {
    Scaled();
    LinearRingReads(CoordsA, Times10, 2);
    LinearRingReads(CoordsB, Times10, 2);
    OnePatchSurface(Id("s1"), Gml("Rectangle"), map[], LinearRingOf(CoordsA), RingA10, Times10, 2);
    OnePatchSurface(Id("s2"), Gml("Rectangle"), map[], LinearRingOf(CoordsB), RingB10, Times10, 2);
    ParseTwoMembers(Id("m"), [
      SurfaceOf(Id("s1"), [PolygonNode(Gml("Rectangle"), map[], LinearRingOf(CoordsA), [])]),
      SurfaceOf(Id("s2"), [PolygonNode(Gml("Rectangle"), map[], LinearRingOf(CoordsB), [])])],
      [RingA10], [RingB10], Times10, 2);
  }

  /** A `Polygon` with exterior A or B and no holes. */
  function PolygonA(id: string): Node
  {
    PolygonNode(Gml("Polygon"), Id(id), LinearRingOf(CoordsA), [])
  }

  function PolygonB(id: string): Node
  {
    PolygonNode(Gml("Polygon"), Id(id), LinearRingOf(CoordsB), [])
  }

  lemma PolygonsRead()
    ensures Polygons(PolygonA("p1"), Times10, 2) == Ok([[RingA10]])
    ensures Polygons(PolygonB("p2"), Times10, 2) == Ok([[RingB10]])
  {
    Scaled();
    LinearRingReads(CoordsA, Times10, 2);
    LinearRingReads(CoordsB, Times10, 2);
    ParseOneRing(Gml("Polygon"), Id("p1"), LinearRingOf(CoordsA), RingA10, Times10, 2);
    ParseOneRing(Gml("Polygon"), Id("p2"), LinearRingOf(CoordsB), RingB10, Times10, 2);
  }

  /** Wrapping the members of a collection in one `CompositeSurface` member keeps its polygons. */
  lemma NestedComposite(attributes: map<string, string>, c: Node, ps: seq<RingList>, f: Transform, s: Dim)
    requires c.Element? && c.tag == Gml("CompositeSurface")
    requires Polygons(c, f, s) == Ok(ps)
    ensures Polygons(Element(Gml("MultiSurface"), attributes, SurfaceMembers([c])), f, s) == Ok(ps)
  {
    MembersFlatten(Gml("MultiSurface"), attributes, [c], f, s);
    CollectAllOne(EachPolygons([c], f, s));
  }

  /**
   `MultiSurface > surfaceMember`×2 `> Polygon`, and the same two polygons
   one level deeper, inside `surfaceMember > CompositeSurface`.
   */
  lemma MultiSurfaceOfPolygons()
    ensures ParseWith(Element(Gml("MultiSurface"), Id("m"), SurfaceMembers([PolygonA("p1"), PolygonB("p2")])), Times10)
      == Ok(MultiPolygon([[RingA10], [RingB10]]))
    ensures ParseWith(Element(Gml("MultiSurface"), Id("m"), SurfaceMembers([
      Element(Gml("CompositeSurface"), Id("c"), SurfaceMembers([PolygonA("p1"), PolygonB("p2")]))])), Times10)
      == Ok(MultiPolygon([[RingA10], [RingB10]]))
  {
    PolygonsRead();
    ParseTwoMembers(Id("m"), [PolygonA("p1"), PolygonB("p2")], [RingA10], [RingB10], Times10, 2);
    var c := Element(Gml("CompositeSurface"), Id("c"), SurfaceMembers([PolygonA("p1"), PolygonB("p2")]));
    TwoMembers(Gml("CompositeSurface"), Id("c"), [PolygonA("p1"), PolygonB("p2")], [RingA10], [RingB10], Times10, 2);
    NestedComposite(Id("m"), c, [[RingA10], [RingB10]], Times10, 2);
    GmlLocalName("MultiSurface");
  }

  /** A `Polygon` with an exterior ring and one hole has both rings, exterior first. */
  lemma ParseOneHole(attributes: map<string, string>, e: Node, h: Node, x: Ring, y: Ring, f: Transform, s: Dim)
    requires RingsOf(e, f, s) == Ok([x]) && RingsOf(h, f, s) == Ok([y])
    ensures Parse(PolygonNode(Gml("Polygon"), attributes, e, [h]), f, s) == Ok(Polygon([x, y]))
  {
    assert [x] + [y] == [x, y];
    ParsePolygonNode(Gml("Polygon"), attributes, e, [h], x, [y], f, s);
  }

  /** `Polygon > exterior+interior > LinearRing > posList`: B with the hole C. */
  lemma PolygonWithHole()
    ensures ParseWith(PolygonNode(Gml("Polygon"), Id("some-id"), LinearRingOf(CoordsB), [LinearRingOf(CoordsC)]), Times10)
      == Ok(Polygon([RingB10, RingC10]))
  {
    Scaled();
    LinearRingReads(CoordsB, Times10, 2);
    LinearRingReads(CoordsC, Times10, 2);
    ParseOneHole(Id("some-id"), LinearRingOf(CoordsB), LinearRingOf(CoordsC), RingB10, RingC10, Times10, 2);
  }

  /** The three-component tuples of the stride scenarios; the ring is not closed. */
  const Coords3: seq<Tuple> := [[1, 1, 0], [1, 2, 0], [2, 2, 0]]

  lemma TimesTriple(a: int, b: int, c: int)
    ensures Times10([a, b, c]) == [10 * a, 10 * b, 10 * c]
  {
  }

  /** `parse(p, transformCoords, 3)`: a call-level stride of 3 groups the `posList` by three. */
  lemma CallStrideThree()
    ensures Parse(PolygonNode(Gml("Polygon"), Id("some-id"), LinearRingOf(Coords3), []), Times10, 3)
      == Ok(Polygon([[[10, 10, 0], [10, 20, 0], [20, 20, 0]]]))
  {
    Times10PreservesArity();
    TimesTriple(1, 1, 0);
    TimesTriple(1, 2, 0);
    TimesTriple(2, 2, 0);
    assert MapSeq(Times10, Coords3) == [[10, 10, 0], [10, 20, 0], [20, 20, 0]];
    LinearRingReads(Coords3, Times10, 3);
    ParseOneRing(Gml("Polygon"), Id("some-id"), LinearRingOf(Coords3), MapSeq(Times10, Coords3), Times10, 3);
  }

  /** The attributes `{srsDimension: '3'}`. */
  function Srs3(): map<string, string>
  {
    map["srsDimension" := "3"]
  }

  /** `srsDimension="3"` declares a stride of 3 whatever the inherited one. */
  lemma Srs3Declares(s: Dim)
    ensures DeclaredStride(Srs3(), s) == 3
  {
    assert IntToString(3) == "3";
    SrsDimensionOverrides("", Srs3(), [], 3, s);
  }

  /** Mapping the identity over tuples gives them back. */
  lemma MapIdentity(coords: seq<Tuple>)
    ensures MapSeq(Identity, coords) == coords
  {
  }

  /** A `LinearRing` holding a `posList` that declares stride 3. */
  lemma PosListThree(x: seq<Tuple>)
    requires AllOfArity(x, 3)
    ensures RingsOf(H(Gml("LinearRing"), [PosListAt(Srs3(), x)]), Identity, 2) == Ok([x])
  {
    var e := H(Gml("LinearRing"), [PosListAt(Srs3(), x)]);
    Srs3Declares(2);
    PosListReads(e, Srs3(), x, 2);
    BlockOfRead(e, x, Identity, 2);
    MapIdentity(x);
    LinearRingOfBlock([PosListAt(Srs3(), x)], x, Identity, 2);
  }

  /** A `LinearRing` holding `pos` elements that each declare stride 3. */
  lemma PosEachThree(y: seq<Tuple>)
    requires |y| > 0 && AllOfArity(y, 3)
    ensures RingsOf(H(Gml("LinearRing"), PosEach(Srs3(), y)), Identity, 2) == Ok([y])
  {
    var h := H(Gml("LinearRing"), PosEach(Srs3(), y));
    Srs3Declares(2);
    PosEachReads(h, Srs3(), y, 2);
    BlockOfRead(h, y, Identity, 2);
    MapIdentity(y);
    LinearRingOfBlock(PosEach(Srs3(), y), y, Identity, 2);
  }

  /**
   `parse(p)` with the default stride 2: an exterior `posList` and interior
   `pos` elements that declare `srsDimension="3"` are read three numbers per
   tuple, whatever the tuples hold.
   */
  lemma DeclaredStrideRings(x: seq<Tuple>, y: seq<Tuple>)
    requires |y| > 0 && AllOfArity(x, 3) && AllOfArity(y, 3)
    ensures ParseDefault(PolygonNode(Gml("Polygon"), Id("some-id"),
      H(Gml("LinearRing"), [PosListAt(Srs3(), x)]), [H(Gml("LinearRing"), PosEach(Srs3(), y))]))
      == Ok(Polygon([x, y]))
  {
    PosListThree(x);
    PosEachThree(y);
    ParseOneHole(Id("some-id"), H(Gml("LinearRing"), [PosListAt(Srs3(), x)]), H(Gml("LinearRing"), PosEach(Srs3(), y)), x, y, Identity, 2);
  }

  /** The `srsDimension` scenario with its two unclosed three-dimensional rings. */
  lemma DeclaredStrideThree()
    ensures ParseDefault(PolygonNode(Gml("Polygon"), Id("some-id"),
      H(Gml("LinearRing"), [PosListAt(Srs3(), [[1, 1, 4], [1, 2, 4], [2, 2, 4]])]),
      [H(Gml("LinearRing"), PosEach(Srs3(), [[1, 1, 5], [1, 2, 5], [2, 2, 5]]))]))
      == Ok(Polygon([[[1, 1, 4], [1, 2, 4], [2, 2, 4]], [[1, 1, 5], [1, 2, 5], [2, 2, 5]]]))
  {
    DeclaredStrideRings([[1, 1, 4], [1, 2, 4], [2, 2, 4]], [[1, 1, 5], [1, 2, 5], [2, 2, 5]]);
  }
}

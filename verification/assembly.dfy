/**
 The tree shapes the conversion is exercised on, written as builders over the
 coordinate encodings, and what the conversion makes of each shape: rings from
 `LinearRing`, `Ring > curveMember > LineString` and
 `Ring > curveMember > Curve > segments > LineStringSegment`, polygons with
 holes, and the surface collections.
 */
module Assembly {
  import opened Results
  import opened Tree
  import opened Coords
  import opened Rings
  import opened Surfaces
  import opened Encodings

  // Builders

  /** A `LinearRing` holding one `posList`. */
  function LinearRingOf(coords: seq<Tuple>): Node
  {
    H(Gml("LinearRing"), [PosList(coords)])
  }

  /** A `LineString` holding one `posList`. */
  function LineStringOf(coords: seq<Tuple>): Node
  {
    H(Gml("LineString"), [PosList(coords)])
  }

  /** A `LineStringSegment` holding one `posList`. */
  function SegmentOf(coords: seq<Tuple>): Node
  {
    H(Gml("LineStringSegment"), [PosList(coords)])
  }

  function LineStrings(pieces: seq<seq<Tuple>>): (ns: seq<Node>)
    ensures |ns| == |pieces|
    ensures forall i :: 0 <= i < |pieces| ==> ns[i] == LineStringOf(pieces[i])
  {
    seq(|pieces|, i requires 0 <= i < |pieces| => LineStringOf(pieces[i]))
  }

  function Segments(pieces: seq<seq<Tuple>>): (ns: seq<Node>)
    ensures |ns| == |pieces|
    ensures forall i :: 0 <= i < |pieces| ==> ns[i] == SegmentOf(pieces[i])
  {
    seq(|pieces|, i requires 0 <= i < |pieces| => SegmentOf(pieces[i]))
  }

  /** A `Curve` with one `segments` element holding one `LineStringSegment` per piece. */
  function CurveOf(pieces: seq<seq<Tuple>>): Node
  {
    H(Gml("Curve"), [H(Gml("segments"), Segments(pieces))])
  }

  function Curves(groups: seq<seq<seq<Tuple>>>): (ns: seq<Node>)
    ensures |ns| == |groups|
    ensures forall i :: 0 <= i < |groups| ==> ns[i] == CurveOf(groups[i])
  {
    seq(|groups|, i requires 0 <= i < |groups| => CurveOf(groups[i]))
  }

  function CurveMember(c: Node): Node
  {
    H(Gml("curveMember"), [c])
  }

  function CurveMembers(curves: seq<Node>): (ns: seq<Node>)
    ensures |ns| == |curves|
    ensures forall i :: 0 <= i < |curves| ==> ns[i] == CurveMember(curves[i])
  {
    seq(|curves|, i requires 0 <= i < |curves| => CurveMember(curves[i]))
  }

  /** A `Ring` with one `curveMember` per curve. */
  function RingOf(curves: seq<Node>): Node
  {
    H(Gml("Ring"), CurveMembers(curves))
  }

  /** A sequence of pieces that can each be read as a block of `d`-tuples. */
  predicate Readable(pieces: seq<seq<Tuple>>, d: Dim)
  {
    forall i :: 0 <= i < |pieces| ==> |pieces[i]| > 0 && AllOfArity(pieces[i], d)
  }

  // Rings

  /** A `posList` block reads as its tuples, each passed through the transform. */
  lemma PosListBlock(tag: string, coords: seq<Tuple>, f: Transform, s: Dim)
    requires |coords| > 0 && AllOfArity(coords, s) && PreservesArity(f)
    ensures Block(H(tag, [PosList(coords)]), f, s) == Ok(MapSeq(f, coords))
  {
    PosListReads(H(tag, [PosList(coords)]), map[], coords, s);
    BlockOfRead(H(tag, [PosList(coords)]), coords, f, s);
  }

  /** A `LinearRing` yields exactly its transformed block as one ring. */
  lemma LinearRingReads(coords: seq<Tuple>, f: Transform, s: Dim)
    requires |coords| > 0 && AllOfArity(coords, s) && PreservesArity(f)
    ensures RingsOf(LinearRingOf(coords), f, s) == Ok([MapSeq(f, coords)])
  {
    GmlLocalName("LinearRing");
    PosListBlock(Gml("LinearRing"), coords, f, s);
  }

  /** A `curveMember` holding one curve contributes the pieces of that curve. */
  lemma MemberOfOne(c: Node, f: Transform, s: Dim)
    ensures MemberPieces(CurveMember(c), f, s) == CurvePieces(c, f, s)
  {
    GmlLocalName("curveMember");
    var cs := [c];
    CollectAllOne(seq(|cs|, i requires 0 <= i < |cs| => CurvePieces(cs[i], f, s)));
  }

  /** A `Ring` with one `curveMember` holding one curve has the pieces of that curve. */
  lemma RingOfOne(c: Node, f: Transform, s: Dim)
    ensures RingPieces(RingOf([c]), f, s) == CurvePieces(c, f, s)
  {
    var m := CurveMember(c);
    MemberOfOne(c, f, s);
    var cs := ChildrenOf(RingOf([c]));
    assert cs == [m];
    CollectAllOne(seq(|cs|, i requires 0 <= i < |cs| => MemberPieces(cs[i], f, s)));
  }

  /** A `Ring` whose members make exactly one piece is that piece; a failure is passed on. */
  lemma OnePieceRing(ring: Node, b: Result<Ring>, f: Transform, s: Dim)
    requires RingPieces(ring, f, s) == AsList(b)
    ensures CurveRing(ring, f, s) == b
  {
    if b.Ok? {
      JoinSingle(b.value);
    }
  }

  /**
   A `Ring` with a single `curveMember > LineString` is the `LinearRing` with the
   same children: same ring, or same error.
   */
  lemma SingleMemberRing(cs: seq<Node>, f: Transform, s: Dim)
    ensures RingsOf(RingOf([H(Gml("LineString"), cs)]), f, s) == RingsOf(H(Gml("LinearRing"), cs), f, s)
  {
    var ls := H(Gml("LineString"), cs);
    GmlLocalName("LineString");
    GmlLocalName("Ring");
    GmlLocalName("LinearRing");
    RingOfOne(ls, f, s);
    assert RingPieces(RingOf([ls]), f, s) == AsList(Block(ls, f, s));
    OnePieceRing(RingOf([ls]), Block(ls, f, s), f, s);
    BlockOfChildren(ls, H(Gml("LinearRing"), cs), f, s);
  }

  /** One `curveMember > LineString` contributes its transformed block as one piece. */
  lemma LineStringMember(coords: seq<Tuple>, f: Transform, s: Dim)
    requires |coords| > 0 && AllOfArity(coords, s) && PreservesArity(f)
    ensures MemberPieces(CurveMember(LineStringOf(coords)), f, s) == Ok([MapSeq(f, coords)])
  {
    var ls := LineStringOf(coords);
    GmlLocalName("LineString");
    PosListBlock(Gml("LineString"), coords, f, s);
    MemberOfOne(ls, f, s);
  }

  /**
   A `Ring` of `curveMember > LineString`s is the junction merge of their
   transformed blocks in document order.
   */
  lemma LineStringsRing(pieces: seq<seq<Tuple>>, f: Transform, s: Dim)
    requires |pieces| > 0 && Readable(pieces, s) && PreservesArity(f)
    ensures CurveRing(RingOf(LineStrings(pieces)), f, s) == Ok(JoinPieces(MapEach(f, pieces)))
  {
    var cs := CurveMembers(LineStrings(pieces));
    var rs := seq(|cs|, i requires 0 <= i < |cs| => MemberPieces(cs[i], f, s));
    forall i | 0 <= i < |cs| ensures rs[i] == Ok([MapEach(f, pieces)[i]]) {
      LineStringMember(pieces[i], f, s);
    }
    CollectSingletons(rs, MapEach(f, pieces));
    assert RingPieces(RingOf(LineStrings(pieces)), f, s) == CollectAll(rs);
  }

  /** One `LineStringSegment` contributes its transformed block as one piece. */
  lemma SegmentReads(coords: seq<Tuple>, f: Transform, s: Dim)
    requires |coords| > 0 && AllOfArity(coords, s) && PreservesArity(f)
    ensures SegmentPieces(SegmentOf(coords), f, s) == Ok([MapSeq(f, coords)])
  {
    GmlLocalName("LineStringSegment");
    PosListBlock(Gml("LineStringSegment"), coords, f, s);
  }

  /** A `segments` element contributes one transformed block per `LineStringSegment`. */
  lemma SegmentsRead(pieces: seq<seq<Tuple>>, f: Transform, s: Dim)
    requires Readable(pieces, s) && PreservesArity(f)
    ensures SegmentsPieces(H(Gml("segments"), Segments(pieces)), f, s) == Ok(MapEach(f, pieces))
  {
    var cs := Segments(pieces);
    var rs := seq(|cs|, i requires 0 <= i < |cs| => SegmentPieces(cs[i], f, s));
    forall i | 0 <= i < |cs| ensures rs[i] == Ok([MapEach(f, pieces)[i]]) {
      SegmentReads(pieces[i], f, s);
    }
    CollectSingletons(rs, MapEach(f, pieces));
    GmlLocalName("segments");
  }

  /** A `Curve` is the junction merge of its transformed segments in document order. */
  lemma CurveReads(pieces: seq<seq<Tuple>>, f: Transform, s: Dim)
    requires |pieces| > 0 && Readable(pieces, s) && PreservesArity(f)
    ensures CurvePiece(CurveOf(pieces), f, s) == Ok(JoinPieces(MapEach(f, pieces)))
  {
    var segs := H(Gml("segments"), Segments(pieces));
    SegmentsRead(pieces, f, s);
    var cs := ChildrenOf(CurveOf(pieces));
    assert cs == [segs];
    CollectAllOne(seq(|cs|, i requires 0 <= i < |cs| => SegmentsPieces(cs[i], f, s)));
  }

  /** One `curveMember > Curve` contributes the merge of its segments as one piece. */
  lemma CurveMemberReads(pieces: seq<seq<Tuple>>, f: Transform, s: Dim)
    requires |pieces| > 0 && Readable(pieces, s) && PreservesArity(f)
    ensures MemberPieces(CurveMember(CurveOf(pieces)), f, s) == Ok([JoinPieces(MapEach(f, pieces))])
  {
    var c := CurveOf(pieces);
    GmlLocalName("Curve");
    GmlLocalName("LineString");
    CurveReads(pieces, f, s);
    assert CurvePieces(c, f, s) == AsList(CurvePiece(c, f, s));
    MemberOfOne(c, f, s);
  }

  /** The images of the groups, laid end to end, are the image of the groups laid end to end. */
  lemma {:induction false} ConcatMapEach(f: Transform, gs: seq<seq<seq<Tuple>>>)
    ensures Concat(seq(|gs|, i requires 0 <= i < |gs| => MapEach(f, gs[i]))) == MapEach(f, Concat(gs))
  {
    var hs := seq(|gs|, i requires 0 <= i < |gs| => MapEach(f, gs[i]));
    if |gs| > 0 {
      var rest := seq(|gs| - 1, i requires 0 <= i < |gs| - 1 => MapEach(f, gs[1..][i]));
      assert hs[1..] == rest;
      ConcatMapEach(f, gs[1..]);
      assert Concat(gs) == gs[0] + Concat(gs[1..]);
      assert MapEach(f, gs[0] + Concat(gs[1..])) == MapEach(f, gs[0]) + MapEach(f, Concat(gs[1..]));
    }
  }

  /**
   A `Ring` of `curveMember > Curve`s: the segments of every curve merged, and
   the curves merged again, is all the segments merged at once.
   */
  lemma CurvesRing(groups: seq<seq<seq<Tuple>>>, f: Transform, s: Dim)
    requires |groups| > 0 && PreservesArity(f)
    requires forall i :: 0 <= i < |groups| ==> |groups[i]| > 0 && Readable(groups[i], s)
    ensures CurveRing(RingOf(Curves(groups)), f, s) == Ok(JoinPieces(MapEach(f, Concat(groups))))
  {
    var cs := CurveMembers(Curves(groups));
    var hs := seq(|groups|, i requires 0 <= i < |groups| => MapEach(f, groups[i]));
    var rs := seq(|cs|, i requires 0 <= i < |cs| => MemberPieces(cs[i], f, s));
    forall i | 0 <= i < |cs| ensures rs[i] == Ok([JoinEach(hs)[i]]) {
      CurveMemberReads(groups[i], f, s);
    }
    CollectSingletons(rs, JoinEach(hs));
    assert RingPieces(RingOf(Curves(groups)), f, s) == CollectAll(rs);
    assert GroupsStartNonEmpty(hs) by {
      forall i | 0 <= i < |hs| ensures |hs[i]| > 0 && |hs[i][0]| > 0 {
        assert hs[i][0] == MapSeq(f, groups[i][0]);
      }
    }
    JoinAssociative(hs);
    ConcatMapEach(f, groups);
  }

  /** Every slice of a sequence of `d`-tuples is a non-empty sequence of `d`-tuples. */
  lemma {:induction false} SlicesReadable(r: seq<Tuple>, cuts: seq<nat>, d: Dim)
    requires ValidCuts(cuts, |r|) && AllOfArity(r, d)
    ensures Readable(Slices(r, cuts), d)
  {
    if |cuts| >= 2 {
      assert ValidCuts(cuts[1..], |r|) && cuts[1..][0] == cuts[1];
      SlicesReadable(r, cuts[1..], d);
    }
  }

  /**
   The overlapping slices of a ring, one per `curveMember > LineString`,
   reassemble the whole transformed ring: no junction vertex is doubled or lost.
   */
  lemma CurveMembersReassemble(r: seq<Tuple>, cuts: seq<nat>, f: Transform, s: Dim)
    requires |cuts| >= 2 && ValidCuts(cuts, |r|)
    requires cuts[0] == 0 && cuts[|cuts| - 1] == |r| - 1
    requires AllOfArity(r, s) && PreservesArity(f)
    ensures CurveRing(RingOf(LineStrings(Slices(r, cuts))), f, s) == Ok(MapSeq(f, r))
  {
    var ps := Slices(r, cuts);
    SlicesReadable(r, cuts, s);
    LineStringsRing(ps, f, s);
    JoinMap(f, ps);
    JoinOfCover(r, cuts);
  }

  /**
   However the overlapping slices of a ring are grouped into
   `curveMember > Curve > segments`, the ring comes out whole and transformed.
   */
  lemma SegmentGroupingsAgree(r: seq<Tuple>, cuts: seq<nat>, groups: seq<seq<seq<Tuple>>>, f: Transform, s: Dim)
    requires |cuts| >= 2 && ValidCuts(cuts, |r|)
    requires cuts[0] == 0 && cuts[|cuts| - 1] == |r| - 1
    requires AllOfArity(r, s) && PreservesArity(f)
    requires |groups| > 0 && (forall i :: 0 <= i < |groups| ==> |groups[i]| > 0)
    requires Concat(groups) == Slices(r, cuts)
    ensures CurveRing(RingOf(Curves(groups)), f, s) == Ok(MapSeq(f, r))
  {
    var ps := Slices(r, cuts);
    SlicesReadable(r, cuts, s);
    assert forall i :: 0 <= i < |groups| ==> Readable(groups[i], s) by {
      forall i, j | 0 <= i < |groups| && 0 <= j < |groups[i]|
        ensures |groups[i][j]| > 0 && AllOfArity(groups[i][j], s)
      {
        GroupInConcat(groups, i);
        assert groups[i][j] in groups[i];
        var k :| 0 <= k < |ps| && ps[k] == groups[i][j];
      }
    }
    CurvesRing(groups, f, s);
    JoinMap(f, ps);
    JoinOfCover(r, cuts);
  }

  /** Every piece of a group is a piece of the groups laid end to end. */
  lemma {:induction false} GroupInConcat<T>(gs: seq<seq<T>>, i: nat)
    requires i < |gs|
    ensures forall x :: x in gs[i] ==> x in Concat(gs)
  {
    if i > 0 {
      GroupInConcat(gs[1..], i - 1);
    }
  }

  // Polygons

  function Exterior(ring: Node): Node
  {
    H(Gml("exterior"), [ring])
  }

  function Interior(ring: Node): Node
  {
    H(Gml("interior"), [ring])
  }

  function Interiors(rings: seq<Node>): (ns: seq<Node>)
    ensures |ns| == |rings|
    ensures forall i :: 0 <= i < |rings| ==> ns[i] == Interior(rings[i])
  {
    seq(|rings|, i requires 0 <= i < |rings| => Interior(rings[i]))
  }

  /** A polygon-like element: one `exterior` followed by one `interior` per hole. */
  function PolygonNode(tag: string, attributes: map<string, string>, exterior: Node, holes: seq<Node>): Node
  {
    Element(tag, attributes, [Exterior(exterior)] + Interiors(holes))
  }

  /** An `exterior` or `interior` wrapping one ring-bearing element yields that ring. */
  lemma BoundaryOfOne(role: string, ring: Node, x: Ring, f: Transform, s: Dim)
    requires RingsOf(ring, f, s) == Ok([x])
    ensures BoundaryRing(H(Gml(role), [ring]), f, s) == Ok(x)
  {
    var cs := [ring];
    CollectAllOne(seq(|cs|, i requires 0 <= i < |cs| => RingsOf(cs[i], f, s)));
  }

  /** A boundary of one role contributes nothing where the other role is asked for. */
  lemma OtherRole(role: string, other: string, ring: Node, f: Transform, s: Dim)
    requires role != other
    ensures BoundaryRings(H(Gml(other), [ring]), role, f, s) == Ok([])
  {
    GmlLocalName(other);
  }

  lemma ExteriorOfPolygon(tag: string, attributes: map<string, string>, e: Node, hs: seq<Node>, x: Ring, f: Transform, s: Dim)
    requires RingsOf(e, f, s) == Ok([x])
    ensures ExteriorRings(PolygonNode(tag, attributes, e, hs), f, s) == Ok([x])
  {
    ExteriorOfOne(e, x, f, s);
    HolesNotExterior(hs, f, s);
    FirstRoleRings(Exterior(e), Interiors(hs), "exterior", x, f, s);
  }

  /** Only the first child has the role, and it holds one ring. */
  lemma FirstRoleRings(c: Node, cs: seq<Node>, role: string, x: Ring, f: Transform, s: Dim)
    requires BoundaryRings(c, role, f, s) == Ok([x])
    requires forall i :: 0 <= i < |cs| ==> BoundaryRings(cs[i], role, f, s) == Ok([])
    ensures CollectAll(RoleRings([c] + cs, role, f, s)) == Ok([x])
  {
    var rs := RoleRings([c] + cs, role, f, s);
    forall i | 1 <= i < |rs| ensures rs[i] == Ok([]) {
      assert ([c] + cs)[i] == cs[i - 1];
    }
    CollectHead(rs, [x]);
  }

  lemma ExteriorOfOne(e: Node, x: Ring, f: Transform, s: Dim)
    requires RingsOf(e, f, s) == Ok([x])
    ensures BoundaryRings(Exterior(e), "exterior", f, s) == Ok([x])
  {
    BoundaryOfOne("exterior", e, x, f, s);
    GmlLocalName("exterior");
  }

  lemma HolesNotExterior(hs: seq<Node>, f: Transform, s: Dim)
    ensures forall i :: 0 <= i < |hs| ==> BoundaryRings(Interiors(hs)[i], "exterior", f, s) == Ok([])
  {
    forall i | 0 <= i < |hs| ensures BoundaryRings(Interiors(hs)[i], "exterior", f, s) == Ok([]) {
      OtherRole("exterior", "interior", hs[i], f, s);
    }
  }

  lemma HolesAreInterior(hs: seq<Node>, ys: seq<Ring>, f: Transform, s: Dim)
    requires |hs| == |ys|
    requires forall i :: 0 <= i < |hs| ==> RingsOf(hs[i], f, s) == Ok([ys[i]])
    ensures forall i :: 0 <= i < |hs| ==> BoundaryRings(Interiors(hs)[i], "interior", f, s) == Ok([ys[i]])
  {
    forall i | 0 <= i < |hs| ensures BoundaryRings(Interiors(hs)[i], "interior", f, s) == Ok([ys[i]]) {
      InteriorOfOne(hs[i], ys[i], f, s);
    }
  }

  lemma InteriorsOfPolygon(tag: string, attributes: map<string, string>, e: Node, hs: seq<Node>, ys: seq<Ring>, f: Transform, s: Dim)
    requires |hs| == |ys|
    requires forall i :: 0 <= i < |hs| ==> RingsOf(hs[i], f, s) == Ok([ys[i]])
    ensures InteriorRings(PolygonNode(tag, attributes, e, hs), f, s) == Ok(ys)
  {
    OtherRole("interior", "exterior", e, f, s);
    HolesAreInterior(hs, ys, f, s);
    LaterRoleRings(Exterior(e), Interiors(hs), "interior", ys, f, s);
  }

  /** The first child lacks the role, and every later child holds one ring. */
  lemma LaterRoleRings(c: Node, cs: seq<Node>, role: string, ys: seq<Ring>, f: Transform, s: Dim)
    requires |cs| == |ys|
    requires BoundaryRings(c, role, f, s) == Ok([])
    requires forall i :: 0 <= i < |cs| ==> BoundaryRings(cs[i], role, f, s) == Ok([ys[i]])
    ensures CollectAll(RoleRings([c] + cs, role, f, s)) == Ok(ys)
  {
    var rs := RoleRings([c] + cs, role, f, s);
    forall i | 0 <= i < |ys| ensures rs[i + 1] == Ok([ys[i]]) {
      assert ([c] + cs)[i + 1] == cs[i];
    }
    CollectAfterHead(rs, ys);
  }

  lemma InteriorOfOne(h: Node, y: Ring, f: Transform, s: Dim)
    requires RingsOf(h, f, s) == Ok([y])
    ensures BoundaryRings(Interior(h), "interior", f, s) == Ok([y])
  {
    BoundaryOfOne("interior", h, y, f, s);
    GmlLocalName("interior");
  }

  /**
   A polygon-like element holding one exterior ring and some holes yields the
   exterior ring first and then the holes in document order.
   */
  lemma PolygonOfRings(tag: string, attributes: map<string, string>, e: Node, hs: seq<Node>, x: Ring, ys: seq<Ring>, f: Transform, s: Dim)
    requires RingsOf(e, f, s) == Ok([x])
    requires |hs| == |ys|
    requires forall i :: 0 <= i < |hs| ==> RingsOf(hs[i], f, s) == Ok([ys[i]])
    ensures PolygonRings(PolygonNode(tag, attributes, e, hs), f, s) == Ok([x] + ys)
  {
    ExteriorOfPolygon(tag, attributes, e, hs, x, f, s);
    InteriorsOfPolygon(tag, attributes, e, hs, ys, f, s);
  }

  /** The ring list of a polygon-like element depends on its children only. */
  lemma PolygonRingsOfChildren(a: Node, b: Node, f: Transform, s: Dim)
    requires ChildrenOf(a) == ChildrenOf(b)
    ensures PolygonRings(a, f, s) == PolygonRings(b, f, s)
  {
    assert ExteriorRings(a, f, s) == ExteriorRings(b, f, s);
    assert InteriorRings(a, f, s) == InteriorRings(b, f, s);
  }

  /** A `Rectangle` converts exactly as the `Polygon` with the same children. */
  lemma RectangleIsPolygon(a1: map<string, string>, a2: map<string, string>, cs: seq<Node>, f: Transform, s: Dim)
    ensures Parse(Element(Gml("Rectangle"), a1, cs), f, s) == Parse(Element(Gml("Polygon"), a2, cs), f, s)
  {
    var r, p := Element(Gml("Rectangle"), a1, cs), Element(Gml("Polygon"), a2, cs);
    GmlLocalName("Rectangle");
    GmlLocalName("Polygon");
    PolygonRingsOfChildren(r, p, f, s);
    assert Polygons(r, f, s) == AsList(PolygonRings(r, f, s));
    assert Polygons(p, f, s) == AsList(PolygonRings(p, f, s));
  }

  /** A `Polygon` or `Rectangle` with one exterior ring and some holes is one GeoJSON `Polygon`. */
  lemma ParsePolygonNode(tag: string, attributes: map<string, string>, e: Node, hs: seq<Node>, x: Ring, ys: seq<Ring>, f: Transform, s: Dim)
    requires tag == Gml("Polygon") || tag == Gml("Rectangle")
    requires RingsOf(e, f, s) == Ok([x])
    requires |hs| == |ys|
    requires forall i :: 0 <= i < |hs| ==> RingsOf(hs[i], f, s) == Ok([ys[i]])
    ensures Polygons(PolygonNode(tag, attributes, e, hs), f, s) == Ok([[x] + ys])
    ensures Parse(PolygonNode(tag, attributes, e, hs), f, s) == Ok(Polygon([x] + ys))
  {
    var n := PolygonNode(tag, attributes, e, hs);
    GmlLocalName("Rectangle");
    GmlLocalName("Polygon");
    PolygonOfRings(tag, attributes, e, hs, x, ys, f, s);
    assert Polygons(n, f, s) == Ok([[x] + ys]);
  }

  // Surfaces

  function SurfaceMember(g: Node): Node
  {
    H(Gml("surfaceMember"), [g])
  }

  function SurfaceMembers(gs: seq<Node>): (ns: seq<Node>)
    ensures |ns| == |gs|
    ensures forall i :: 0 <= i < |gs| ==> ns[i] == SurfaceMember(gs[i])
  {
    seq(|gs|, i requires 0 <= i < |gs| => SurfaceMember(gs[i]))
  }

  /** A `Surface` with one `patches` element holding the given patches. */
  function SurfaceOf(attributes: map<string, string>, patches: seq<Node>): Node
  {
    Element(Gml("Surface"), attributes, [H(Gml("patches"), patches)])
  }

  /** The polygons of each geometry, as contributions to be collected. */
  function EachPolygons(gs: seq<Node>, f: Transform, s: Dim): (rs: seq<Result<seq<RingList>>>)
    ensures |rs| == |gs|
    ensures forall i :: 0 <= i < |gs| ==> rs[i] == Polygons(gs[i], f, s)
  {
    seq(|gs|, i requires 0 <= i < |gs| => Polygons(gs[i], f, s))
  }

  /**
   A `MultiSurface` or `CompositeSurface` with one geometry per `surfaceMember`
   has the polygons of those geometries, in document order.
   */
  lemma MembersFlatten(tag: string, attributes: map<string, string>, gs: seq<Node>, f: Transform, s: Dim)
    requires tag == Gml("MultiSurface") || tag == Gml("CompositeSurface")
    ensures Polygons(Element(tag, attributes, SurfaceMembers(gs)), f, s) == CollectAll(EachPolygons(gs, f, s))
  {
    var n := Element(tag, attributes, SurfaceMembers(gs));
    var cs := SurfaceMembers(gs);
    GmlLocalName("MultiSurface");
    GmlLocalName("CompositeSurface");
    MembersUnfold(n, f, s);
    var rs := EachMember(cs, f, s);
    forall i | 0 <= i < |cs| ensures rs[i] == EachPolygons(gs, f, s)[i] {
      MemberOfGeometry(gs[i], f, s);
    }
    assert rs == EachPolygons(gs, f, s);
  }

  /** A `surfaceMember` wrapping one geometry contributes its polygons. */
  lemma MemberOfGeometry(g: Node, f: Transform, s: Dim)
    ensures MemberPolygons(SurfaceMember(g), f, s) == Polygons(g, f, s)
  {
    GmlLocalName("surfaceMember");
    var cs := [g];
    CollectAllOne(seq(|cs|, i requires 0 <= i < |cs| => Polygons(cs[i], f, s)));
  }

  /** A `Surface > patches` has the polygons of its patches, in document order. */
  lemma PatchesFlatten(attributes: map<string, string>, ps: seq<Node>, f: Transform, s: Dim)
    ensures Polygons(SurfaceOf(attributes, ps), f, s) == CollectAll(EachPatch(ps, f, s))
  {
    var n := SurfaceOf(attributes, ps);
    var c := H(Gml("patches"), ps);
    SurfaceKind(attributes, ps);
    GmlLocalName("patches");
    assert PatchesPolygons(c, f, s) == CollectAll(EachPatch(ps, f, s));
    var rs := SurfacePatches([c], f, s);
    assert rs == [PatchesPolygons(c, f, s)];
    CollectAllSingle(PatchesPolygons(c, f, s));
  }

  lemma SurfaceKind(attributes: map<string, string>, ps: seq<Node>)
    ensures KindOf(SurfaceOf(attributes, ps)) == SurfaceTag
  {
    GmlLocalName("Surface");
  }

  /** A `PolygonPatch` or `Rectangle` patch is one polygon: its ring list. */
  lemma PatchIsPolygon(tag: string, attributes: map<string, string>, e: Node, hs: seq<Node>, x: Ring, ys: seq<Ring>, f: Transform, s: Dim)
    requires tag == Gml("PolygonPatch") || tag == Gml("Rectangle")
    requires RingsOf(e, f, s) == Ok([x])
    requires |hs| == |ys|
    requires forall i :: 0 <= i < |hs| ==> RingsOf(hs[i], f, s) == Ok([ys[i]])
    ensures PatchPolygons(PolygonNode(tag, attributes, e, hs), f, s) == Ok([[x] + ys])
  {
    GmlLocalName("PolygonPatch");
    GmlLocalName("Rectangle");
    PolygonOfRings(tag, attributes, e, hs, x, ys, f, s);
  }
}

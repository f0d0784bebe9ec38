/**
 The transform is applied to each tuple right after extraction and before any
 assembly, so it commutes with the whole tree walk: for an arity-preserving
 transform, converting with it is converting with the identity and then
 transforming every component of every vertex.
 */
module TransformLaws {
  import opened Results
  import opened Tree
  import opened Coords
  import opened Rings
  import opened Surfaces

  /** A transform applied to every vertex of a geometry, keeping its shape. */
  function MapGeometry(g: Geometry, f: Transform): (h: Geometry)
    ensures h.Polygon? <==> g.Polygon?
    ensures PolygonsOf(h) == MapSeq(Lift(Lift(f)), PolygonsOf(g))
  {
    match g
    case Polygon(rl) => Polygon(MapSeq(Lift(f), rl))
    case MultiPolygon(ps) => MultiPolygon(MapSeq(Lift(Lift(f)), ps))
  }

  /** A transform applied to a conversion's successful geometry; errors are kept. */
  function MapParsed(r: Result<Geometry>, f: Transform): Result<Geometry>
  {
    if r.Ok? then Ok(MapGeometry(r.value, f)) else r
  }

  lemma LiftIsMapEach(f: Transform, ps: seq<seq<Tuple>>)
    ensures MapSeq(Lift(f), ps) == MapEach(f, ps)
  {
  }

  lemma SegmentPiecesT(seg: Node, f: Transform, s: Dim)
    requires PreservesArity(f)
    ensures SegmentPieces(seg, f, s) == MapOk(SegmentPieces(seg, Identity, s), Lift(f))
  {
    BlockTransform(seg, f, s);
    AsListMap(Block(seg, Identity, s), f);
  }

  lemma SegmentsPiecesT(c: Node, f: Transform, s: Dim)
    requires PreservesArity(f)
    ensures SegmentsPieces(c, f, s) == MapOk(SegmentsPieces(c, Identity, s), Lift(f))
  {
    if c.Element? && LocalName(c.tag) == "segments" {
      var cs := c.children;
      var rs := seq(|cs|, i requires 0 <= i < |cs| => SegmentPieces(cs[i], Identity, s));
      var qs := seq(|cs|, i requires 0 <= i < |cs| => SegmentPieces(cs[i], f, s));
      forall i | 0 <= i < |cs| ensures qs[i] == MapOk(rs[i], Lift(f)) {
        SegmentPiecesT(cs[i], f, s);
      }
      CollectAllMap(rs, qs, Lift(f));
    }
  }

  lemma CurvePieceT(curve: Node, f: Transform, s: Dim)
    requires PreservesArity(f)
    ensures CurvePiece(curve, f, s) == MapOk(CurvePiece(curve, Identity, s), f)
  {
    var cs := ChildrenOf(curve);
    var rs := seq(|cs|, i requires 0 <= i < |cs| => SegmentsPieces(cs[i], Identity, s));
    var qs := seq(|cs|, i requires 0 <= i < |cs| => SegmentsPieces(cs[i], f, s));
    forall i | 0 <= i < |cs| ensures qs[i] == MapOk(rs[i], Lift(f)) {
      SegmentsPiecesT(cs[i], f, s);
    }
    CollectAllMap(rs, qs, Lift(f));
    var segs := CollectAll(rs);
    if segs.Ok? && |segs.value| > 0 {
      LiftIsMapEach(f, segs.value);
      JoinMap(f, segs.value);
    }
  }

  lemma CurvePiecesT(c: Node, f: Transform, s: Dim)
    requires PreservesArity(f)
    ensures CurvePieces(c, f, s) == MapOk(CurvePieces(c, Identity, s), Lift(f))
  {
    if IsNamed(c, "LineString") {
      BlockTransform(c, f, s);
      AsListMap(Block(c, Identity, s), f);
    } else if IsNamed(c, "Curve") {
      CurvePieceT(c, f, s);
      AsListMap(CurvePiece(c, Identity, s), f);
    }
  }

  lemma MemberPiecesT(m: Node, f: Transform, s: Dim)
    requires PreservesArity(f)
    ensures MemberPieces(m, f, s) == MapOk(MemberPieces(m, Identity, s), Lift(f))
  {
    if m.Element? && LocalName(m.tag) == "curveMember" {
      var cs := m.children;
      var rs := seq(|cs|, i requires 0 <= i < |cs| => CurvePieces(cs[i], Identity, s));
      var qs := seq(|cs|, i requires 0 <= i < |cs| => CurvePieces(cs[i], f, s));
      forall i | 0 <= i < |cs| ensures qs[i] == MapOk(rs[i], Lift(f)) {
        CurvePiecesT(cs[i], f, s);
      }
      CollectAllMap(rs, qs, Lift(f));
    }
  }

  lemma CurveRingT(ring: Node, f: Transform, s: Dim)
    requires PreservesArity(f)
    ensures CurveRing(ring, f, s) == MapOk(CurveRing(ring, Identity, s), f)
  {
    var cs := ChildrenOf(ring);
    var rs := seq(|cs|, i requires 0 <= i < |cs| => MemberPieces(cs[i], Identity, s));
    var qs := seq(|cs|, i requires 0 <= i < |cs| => MemberPieces(cs[i], f, s));
    forall i | 0 <= i < |cs| ensures qs[i] == MapOk(rs[i], Lift(f)) {
      MemberPiecesT(cs[i], f, s);
    }
    CollectAllMap(rs, qs, Lift(f));
    var pieces := RingPieces(ring, Identity, s);
    if pieces.Ok? && |pieces.value| > 0 {
      LiftIsMapEach(f, pieces.value);
      JoinMap(f, pieces.value);
    }
  }

  lemma RingsOfT(e: Node, f: Transform, s: Dim)
    requires PreservesArity(f)
    ensures RingsOf(e, f, s) == MapOk(RingsOf(e, Identity, s), Lift(f))
  {
    if IsNamed(e, "LinearRing") {
      BlockTransform(e, f, s);
      AsListMap(Block(e, Identity, s), f);
    } else if IsNamed(e, "Ring") {
      CurveRingT(e, f, s);
      AsListMap(CurveRing(e, Identity, s), f);
    }
  }

  lemma BoundaryRingT(b: Node, f: Transform, s: Dim)
    requires PreservesArity(f)
    ensures BoundaryRing(b, f, s) == MapOk(BoundaryRing(b, Identity, s), f)
  {
    var cs := ChildrenOf(b);
    var rs := seq(|cs|, i requires 0 <= i < |cs| => RingsOf(cs[i], Identity, s));
    var qs := seq(|cs|, i requires 0 <= i < |cs| => RingsOf(cs[i], f, s));
    forall i | 0 <= i < |cs| ensures qs[i] == MapOk(rs[i], Lift(f)) {
      RingsOfT(cs[i], f, s);
    }
    CollectAllMap(rs, qs, Lift(f));
  }

  lemma BoundaryRingsT(c: Node, role: string, f: Transform, s: Dim)
    requires PreservesArity(f)
    ensures BoundaryRings(c, role, f, s) == MapOk(BoundaryRings(c, role, Identity, s), Lift(f))
  {
    if IsNamed(c, role) {
      BoundaryRingT(c, f, s);
      AsListMap(BoundaryRing(c, Identity, s), f);
    }
  }

  lemma ExteriorRingsT(p: Node, f: Transform, s: Dim)
    requires PreservesArity(f)
    ensures ExteriorRings(p, f, s) == MapOk(ExteriorRings(p, Identity, s), Lift(f))
  {
    var cs := ChildrenOf(p);
    var rs := RoleRings(cs, "exterior", Identity, s);
    var qs := RoleRings(cs, "exterior", f, s);
    forall i | 0 <= i < |cs| ensures qs[i] == MapOk(rs[i], Lift(f)) {
      BoundaryRingsT(cs[i], "exterior", f, s);
    }
    CollectAllMap(rs, qs, Lift(f));
  }

  lemma InteriorRingsT(p: Node, f: Transform, s: Dim)
    requires PreservesArity(f)
    ensures InteriorRings(p, f, s) == MapOk(InteriorRings(p, Identity, s), Lift(f))
  {
    var cs := ChildrenOf(p);
    var rs := RoleRings(cs, "interior", Identity, s);
    var qs := RoleRings(cs, "interior", f, s);
    forall i | 0 <= i < |cs| ensures qs[i] == MapOk(rs[i], Lift(f)) {
      BoundaryRingsT(cs[i], "interior", f, s);
    }
    CollectAllMap(rs, qs, Lift(f));
  }

  lemma PolygonRingsT(p: Node, f: Transform, s: Dim)
    requires PreservesArity(f)
    ensures PolygonRings(p, f, s) == MapOk(PolygonRings(p, Identity, s), Lift(f))
  {
    ExteriorRingsT(p, f, s);
    InteriorRingsT(p, f, s);
    ComposeRingsMap(ExteriorRings(p, Identity, s), InteriorRings(p, Identity, s), Lift(f));
  }

  /** Composing ring lists commutes with a ring-wise map. */
  lemma ComposeRingsMap(exteriors: Result<seq<Ring>>, holes: Result<seq<Ring>>, g: Ring -> Ring)
    ensures ComposeRings(MapOk(exteriors, g), MapOk(holes, g)) == MapOk(ComposeRings(exteriors, holes), g)
  {
    if exteriors.Ok? && |exteriors.value| > 0 && holes.Ok? {
      var e, h := exteriors.value, holes.value;
      assert MapOk(exteriors, g).value[0] == g(e[0]);
      assert MapSeq(g, [e[0]]) == [g(e[0])];
      MapSeqAppend(g, [e[0]], h);
    }
  }

  lemma PatchPolygonsT(p: Node, f: Transform, s: Dim)
    requires PreservesArity(f)
    ensures PatchPolygons(p, f, s) == MapOk(PatchPolygons(p, Identity, s), Lift(Lift(f)))
  {
    PolygonRingsT(p, f, s);
    AsListMap(PolygonRings(p, Identity, s), Lift(f));
  }

  lemma PatchesPolygonsT(c: Node, f: Transform, s: Dim)
    requires PreservesArity(f)
    ensures PatchesPolygons(c, f, s) == MapOk(PatchesPolygons(c, Identity, s), Lift(Lift(f)))
  {
    if IsNamed(c, "patches") {
      var cs := c.children;
      var rs := EachPatch(cs, Identity, s);
      var qs := EachPatch(cs, f, s);
      forall i | 0 <= i < |cs| ensures qs[i] == MapOk(rs[i], Lift(Lift(f))) {
        PatchPolygonsT(cs[i], f, s);
      }
      CollectAllMap(rs, qs, Lift(Lift(f)));
    }
  }

  lemma {:induction false} PolygonsT(n: Node, f: Transform, s: Dim)
    requires PreservesArity(f)
    ensures Polygons(n, f, s) == MapOk(Polygons(n, Identity, s), Lift(Lift(f)))
    decreases n, 2
  {
    var k := KindOf(n);
    if k == MultiSurfaceTag || k == CompositeSurfaceTag {
      CollectionT(n, f, s);
    } else {
      DirectPolygonsT(n, f, s);
    }
  }

  lemma DirectPolygonsT(n: Node, f: Transform, s: Dim)
    requires PreservesArity(f)
    ensures DirectPolygons(n, f, s) == MapOk(DirectPolygons(n, Identity, s), Lift(Lift(f)))
  {
    var k := KindOf(n);
    if k == PolygonTag || k == RectangleTag {
      PolygonRingsT(n, f, s);
      AsListMap(PolygonRings(n, Identity, s), Lift(f));
    } else if k == SurfaceTag {
      SurfaceT(n, f, s);
    }
  }

  lemma SurfaceT(n: Node, f: Transform, s: Dim)
    requires PreservesArity(f)
    requires KindOf(n) == SurfaceTag
    ensures DirectPolygons(n, f, s) == MapOk(DirectPolygons(n, Identity, s), Lift(Lift(f)))
  {
    var cs := ChildrenOf(n);
    var rs := SurfacePatches(cs, Identity, s);
    var qs := SurfacePatches(cs, f, s);
    forall i | 0 <= i < |cs| ensures qs[i] == MapOk(rs[i], Lift(Lift(f))) {
      PatchesPolygonsT(cs[i], f, s);
    }
    CollectAllMap(rs, qs, Lift(Lift(f)));
    assert DirectPolygons(n, Identity, s) == CollectAll(rs);
    assert DirectPolygons(n, f, s) == CollectAll(qs);
  }

  lemma {:induction false} CollectionT(n: Node, f: Transform, s: Dim)
    requires PreservesArity(f)
    requires KindOf(n) == MultiSurfaceTag || KindOf(n) == CompositeSurfaceTag
    ensures Polygons(n, f, s) == MapOk(Polygons(n, Identity, s), Lift(Lift(f)))
    decreases n, 1
  {
    MembersT(n, f, s);
    MembersUnfold(n, Identity, s);
    MembersUnfold(n, f, s);
  }

  /** The surface members of `n`, taken together, commute with the transform. */
  lemma {:induction false} MembersT(n: Node, f: Transform, s: Dim)
    requires PreservesArity(f)
    requires n.Element?
    ensures CollectAll(EachMember(n.children, f, s)) == MapOk(CollectAll(EachMember(n.children, Identity, s)), Lift(Lift(f)))
    decreases n, 0
  {
    var cs := n.children;
    var rs := EachMember(cs, Identity, s);
    var qs := EachMember(cs, f, s);
    forall i | 0 <= i < |cs| ensures qs[i] == MapOk(rs[i], Lift(Lift(f))) {
      MemberPolygonsT(cs[i], f, s);
    }
    CollectAllMap(rs, qs, Lift(Lift(f)));
  }

  lemma {:induction false} MemberPolygonsT(m: Node, f: Transform, s: Dim)
    requires PreservesArity(f)
    ensures MemberPolygons(m, f, s) == MapOk(MemberPolygons(m, Identity, s), Lift(Lift(f)))
    decreases m, 2
  {
    match m
    case Text(_) =>
    case Element(_, _, cs) =>
      if LocalName(m.tag) == "surfaceMember" {
        var rs := seq(|cs|, i requires 0 <= i < |cs| => Polygons(cs[i], Identity, s));
        var qs := seq(|cs|, i requires 0 <= i < |cs| => Polygons(cs[i], f, s));
        forall i | 0 <= i < |cs| ensures qs[i] == MapOk(rs[i], Lift(Lift(f))) {
          PolygonsT(cs[i], f, s);
        }
        CollectAllMap(rs, qs, Lift(Lift(f)));
      }
  }

  lemma PromoteMap(ps: seq<RingList>, f: Transform)
    ensures Promote(MapSeq(Lift(Lift(f)), ps)) == MapGeometry(Promote(ps), f)
  {
  }

  /**
   The transform acts component-wise on every tuple independently of ring and
   polygon structure: with an arity-preserving transform, the conversion is the
   untransformed conversion with every vertex transformed, and it fails exactly
   when the untransformed one does, with the same error.
   */
  lemma ParseTransform(n: Node, f: Transform, s: Dim)
    requires PreservesArity(f)
    ensures Parse(n, f, s) == MapParsed(Parse(n, Identity, s), f)
  {
    if IsGeometryKind(KindOf(n)) {
      PolygonsT(n, f, s);
      var ps := Polygons(n, Identity, s);
      if ps.Ok? && |ps.value| > 0 {
        PromoteMap(ps.value, f);
      }
    }
  }
}

/**
 Polygon composition, surface flattening and the entry point.

 A `Polygon`, `Rectangle` or `PolygonPatch` gives one ring list: its exterior
 ring first, then its interior rings in document order. `Surface > patches`,
 `MultiSurface > surfaceMember` and `CompositeSurface > surfaceMember` are
 flattened, to any depth, into one ordered list of ring lists; one entry makes
 a GeoJSON `Polygon`, any other number a `MultiPolygon`.
 */
module Surfaces {
  import opened Results
  import opened Tree
  import opened Coords
  import opened Rings

  /** The rings of one polygon: exterior first, then the holes. */
  type RingList = seq<Ring>

  /** The GeoJSON geometry the conversion returns, before any rewinding. */
  datatype Geometry =
    | Polygon(coordinates: RingList)
    | MultiPolygon(polygons: seq<RingList>)

  /** The polygons a geometry is made of. */
  function PolygonsOf(g: Geometry): seq<RingList>
  {
    match g
    case Polygon(rl) => [rl]
    case MultiPolygon(ps) => ps
  }

  /**
   Wraps flattened polygons into a geometry: exactly one polygon is a `Polygon`,
   never a one-element `MultiPolygon`; the polygons can always be read back.
   */
  function Promote(ps: seq<RingList>): (g: Geometry)
    ensures PolygonsOf(g) == ps
    ensures g.Polygon? <==> |ps| == 1
  {
    if |ps| == 1 then Polygon(ps[0]) else MultiPolygon(ps)
  }

  /** An `exterior` (or `interior`) child contributes the ring it wraps; other children nothing. */
  function BoundaryRings(c: Node, role: string, f: Transform, s: Dim): Result<seq<Ring>>
  {
    if IsNamed(c, role) then AsList(BoundaryRing(c, f, s)) else Ok([])
  }

  /** What each child contributes in the given role, in document order. */
  function RoleRings(cs: seq<Node>, role: string, f: Transform, s: Dim): (rs: seq<Result<seq<Ring>>>)
    ensures |rs| == |cs|
    ensures forall i :: 0 <= i < |cs| ==> rs[i] == BoundaryRings(cs[i], role, f, s)
  {
    seq(|cs|, i requires 0 <= i < |cs| => BoundaryRings(cs[i], role, f, s))
  }

  function ExteriorRings(p: Node, f: Transform, s: Dim): Result<seq<Ring>>
  {
    CollectAll(RoleRings(ChildrenOf(p), "exterior", f, s))
  }

  function InteriorRings(p: Node, f: Transform, s: Dim): Result<seq<Ring>>
  {
    CollectAll(RoleRings(ChildrenOf(p), "interior", f, s))
  }

  /**
   The ring list of a `Polygon`, `Rectangle` or `PolygonPatch`. Children are
   matched by role: the (first) exterior ring, then every interior ring in
   document order; no exterior ring is an error.
   */
  function PolygonRings(p: Node, f: Transform, s: Dim): (r: Result<RingList>)
    ensures r.Ok? ==> |r.value| >= 1
  {
    ComposeRings(ExteriorRings(p, f, s), InteriorRings(p, f, s))
  }

  /**
   Puts the first exterior ring in front of the holes. An exterior failure wins,
   then a missing exterior ring, then a hole failure.
   */
  function ComposeRings(exteriors: Result<seq<Ring>>, holes: Result<seq<Ring>>): (r: Result<RingList>)
    ensures r.Ok? <==> exteriors.Ok? && |exteriors.value| > 0 && holes.Ok?
    ensures r.Ok? ==> r.value == [exteriors.value[0]] + holes.value
    ensures exteriors.Ok? && |exteriors.value| == 0 ==> r == Fail(MissingExteriorRing)
    ensures exteriors.Fail? ==> r == Fail(exteriors.error)
    ensures exteriors.Ok? && |exteriors.value| > 0 && holes.Fail? ==> r == Fail(holes.error)
  {
    var es :- exteriors;
    if |es| == 0 then Fail(MissingExteriorRing)
    else
      var hs :- holes;
      Ok([es[0]] + hs)
  }

  /** A patch under `patches`: a `PolygonPatch` or `Rectangle`; anything else is skipped. */
  function PatchPolygons(p: Node, f: Transform, s: Dim): Result<seq<RingList>>
  {
    var k := KindOf(p);
    if k == PolygonPatchTag || k == RectangleTag then AsList(PolygonRings(p, f, s)) else Ok([])
  }

  /** What each patch contributes, in document order. */
  function EachPatch(ps: seq<Node>, f: Transform, s: Dim): (rs: seq<Result<seq<RingList>>>)
    ensures |rs| == |ps|
    ensures forall i :: 0 <= i < |ps| ==> rs[i] == PatchPolygons(ps[i], f, s)
  {
    seq(|ps|, i requires 0 <= i < |ps| => PatchPolygons(ps[i], f, s))
  }

  /** A `patches` child of a `Surface` contributes its patches in order. */
  function PatchesPolygons(c: Node, f: Transform, s: Dim): Result<seq<RingList>>
  {
    if IsNamed(c, "patches") then CollectAll(EachPatch(c.children, f, s)) else Ok([])
  }

  /**
   The flattened polygons of a geometry element, in document order. Surface
   members are dispatched again, so composite and multi wrappers nest to any
   depth; a foreign element contributes nothing.
   */
  function Polygons(n: Node, f: Transform, s: Dim): Result<seq<RingList>>
    decreases n
  {
    match n
    case Text(_) => Ok([])
    case Element(_, _, cs) =>
      var k := KindOf(n);
      if k == MultiSurfaceTag || k == CompositeSurfaceTag then
        CollectAll(seq(|cs|, i requires 0 <= i < |cs| => MemberPolygons(cs[i], f, s)))
      else DirectPolygons(n, f, s)
  }

  /**
   The polygons of an element that holds no surface members: a `Polygon` or
   `Rectangle` is one polygon, a `Surface` its patches, anything else nothing.
   */
  function DirectPolygons(n: Node, f: Transform, s: Dim): Result<seq<RingList>>
  {
    var k := KindOf(n);
    var cs := ChildrenOf(n);
    if k == PolygonTag || k == RectangleTag then AsList(PolygonRings(n, f, s))
    else if k == SurfaceTag then CollectAll(SurfacePatches(cs, f, s))
    else Ok([])
  }

  /** What each child of a `Surface` contributes, in document order. */
  function SurfacePatches(cs: seq<Node>, f: Transform, s: Dim): (rs: seq<Result<seq<RingList>>>)
    ensures |rs| == |cs|
    ensures forall i :: 0 <= i < |cs| ==> rs[i] == PatchesPolygons(cs[i], f, s)
  {
    seq(|cs|, i requires 0 <= i < |cs| => PatchesPolygons(cs[i], f, s))
  }

  /** What each child of a `MultiSurface` or `CompositeSurface` contributes, in document order. */
  function EachMember(cs: seq<Node>, f: Transform, s: Dim): (rs: seq<Result<seq<RingList>>>)
    ensures |rs| == |cs|
    ensures forall i :: 0 <= i < |cs| ==> rs[i] == MemberPolygons(cs[i], f, s)
  {
    seq(|cs|, i requires 0 <= i < |cs| => MemberPolygons(cs[i], f, s))
  }

  /** A collection's polygons are those its children contribute as members. */
  lemma MembersUnfold(n: Node, f: Transform, s: Dim)
    requires KindOf(n) == MultiSurfaceTag || KindOf(n) == CompositeSurfaceTag
    ensures Polygons(n, f, s) == CollectAll(EachMember(n.children, f, s))
  {
  }

  /** A `surfaceMember` contributes the polygons of the geometries it wraps. */
  function MemberPolygons(m: Node, f: Transform, s: Dim): Result<seq<RingList>>
    decreases m
  {
    match m
    case Element(_, _, cs) =>
      if LocalName(m.tag) == "surfaceMember" then
        CollectAll(seq(|cs|, i requires 0 <= i < |cs| => Polygons(cs[i], f, s)))
      else Ok([])
    case Text(_) => Ok([])
  }

  /**
   The conversion behind `parse(node, transform, stride)`, before its final
   ring-orientation step (see `ParseOriented`): the root must be a `Polygon`,
   `Rectangle`, `Surface`, `MultiSurface` or `CompositeSurface`, and must
   resolve to at least one polygon. The geometry holds exactly the flattened
   polygons, in the order the tree gives their vertices, as a `Polygon` when
   there is one of them.
   */
  function Parse(n: Node, f: Transform, s: Dim): (r: Result<Geometry>)
    ensures !IsGeometryKind(KindOf(n)) ==> r == Fail(UnsupportedGeometryKind)
    ensures r.Ok? ==> Polygons(n, f, s).Ok? && PolygonsOf(r.value) == Polygons(n, f, s).value
    ensures r.Ok? ==> (r.value.Polygon? <==> |Polygons(n, f, s).value| == 1)
    ensures IsGeometryKind(KindOf(n)) && Polygons(n, f, s).Ok? && |Polygons(n, f, s).value| > 0 ==> r.Ok?
  {
    if !IsGeometryKind(KindOf(n)) then Fail(UnsupportedGeometryKind)
    else
      var ps :- Polygons(n, f, s);
      if |ps| == 0 then Fail(EmptySurfaceCollection) else Ok(Promote(ps))
  }

  /**
   `parse(node, transform, stride)` as its callers see it: the conversion
   followed by an orientation step applied to the whole geometry. That step is
   not part of this model and is a parameter here; a failure passes through
   unchanged.
   */
  function ParseOriented(n: Node, f: Transform, s: Dim, orient: Geometry -> Geometry): (r: Result<Geometry>)
    ensures r.Ok? <==> Parse(n, f, s).Ok?
    ensures r.Ok? ==> r.value == orient(Parse(n, f, s).value)
    ensures r.Fail? ==> r.error == Parse(n, f, s).error
  {
    match Parse(n, f, s)
    case Ok(g) => Ok(orient(g))
    case Fail(e) => Fail(e)
  }

  /**
   Whenever the conversion gives `g`, `parse` gives the oriented `g`; so a
   test comparing `parse(p)` with `rewind(g)` holds once the orientation step
   agrees with `rewind` on `g`.
   */
  lemma OrientedOf(n: Node, f: Transform, s: Dim, g: Geometry, orient: Geometry -> Geometry)
    requires Parse(n, f, s) == Ok(g)
    ensures ParseOriented(n, f, s, orient) == Ok(orient(g))
  {
  }

  /** `parse(node, transform)`: the call-level stride defaults to 2. */
  function ParseWith(n: Node, f: Transform): Result<Geometry>
  {
    Parse(n, f, DefaultStride)
  }

  /** `parse(node)`: no transform and the default stride. */
  function ParseDefault(n: Node): Result<Geometry>
  {
    Parse(n, Identity, DefaultStride)
  }
}

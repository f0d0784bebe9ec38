# parse-gml-polygon, modelled in Dafny

`parse(node, transform?, stride?)` converts an already-built GML geometry
tree into a GeoJSON `Polygon` or `MultiPolygon`. This project models that
conversion as pure functions over an immutable tree. It then proves the
behaviour the repository's test suite fixes, both as general laws and as the
concrete scenarios of `test.js`.

The model has these parts:

- **Tree and dispatch** (`tree.dfy`). A node is an element (tag, attribute
  map, ordered children) or raw text. Geometry elements are recognised by the
  local name after the first `:` of the tag (`gml:Polygon` dispatches as
  `Polygon`). Tags not in the dispatch table are skipped wherever they appear
  below the root.
- **Coordinate text** (`numerals.dfy`). A whitespace tokenizer and a decimal
  integer reader. Writing integers with `join(' ')` and reading the text back
  gives the integers again.
- **Coordinate extraction** (`coords.dfy`).
  - A coordinate-bearing element takes its tuples from its first `posList`.
    Failing that, it takes one tuple per `pos`, and failing that one tuple per
    `Point > pos`.
  - Numbers are grouped by the active stride. The stride defaults to 2, the
    call can set it, and an element's own `srsDimension` overrides it for that
    element only.
  - Every tuple then goes through the caller's transform.
- **Ring assembly** (`rings.dfy`).
  - A `LinearRing` is its coordinate block.
  - A `Ring` joins its `curveMember` curves: a `LineString` block, or a
    `Curve > segments > LineStringSegment*` joined the same way.
  - Joining keeps the first piece whole. Every later piece loses its first
    tuple, which is the junction vertex it shares with the piece before.
- **Polygon composition and surface flattening** (`surfaces.dfy`).
  - A `Polygon`, `Rectangle` or `PolygonPatch` gives its exterior ring first,
    then its interior rings in document order.
  - `Surface > patches`, `MultiSurface > surfaceMember` and
    `CompositeSurface > surfaceMember` flatten, to any depth, into one list of
    ring lists.
  - One entry is a `Polygon`; any other count is a `MultiPolygon`.
- **Failures.** These are `Result` values. The error kinds are
  `UnsupportedGeometryKind`, `MissingCoordinates`, `MalformedCoordinateList`,
  `MissingExteriorRing` and `EmptySurfaceCollection`. Any failure aborts the
  whole conversion, and which one is reported follows a fixed precedence:
  - Among the members of a ring, the patches of a surface and the members of a
    collection, the first failure in document order wins.
  - Within one polygon, every `exterior` child is read before any `interior`
    child. A failing exterior ring wins, then a missing exterior ring
    (`MissingExteriorRing`), then a failing hole, wherever the children stand.
  - Within one coordinate-bearing element, only the chosen encoding is read:
    the first `posList`, else the `pos` children, else the `Point` children.
- **Test-side encodings and laws** (`encodings.dfy`, `assembly.dfy`,
  `transforms.dfy`, `testcases.dfy`).
  - The `posList`, `pos5` and `point5` helpers of the test suite, and
    `transformCoords`.
  - Builders for the tree shapes the tests use.
  - Laws that connect the shapes to their results.
  - A transform law: an arity-preserving transform acts vertex by vertex on
    the untransformed geometry.
  - One lemma per test scenario.

Every test compares `parse(...)` with `rewind(...)` of the expected geometry
(test.js:13-35, 344, 375). So `parse` returns rewound rings, and it must apply
an orientation step after the conversion. `Surfaces.Parse` models the conversion
before that step, with each ring in the vertex order the tree gives.
`Surfaces.ParseOriented` adds the step as a parameter. The scenario lemmas state
the geometry before orientation, which is the argument the tests pass to
`rewind`.

## Model

| member | source | states |
|---|---|---|
| Tree.LocalName | test.js:61 | a tag without a colon is its own local name; otherwise the local name is what follows a colon-free prefix and its colon |
| Tree.GmlLocalName | test.js:61 | the local name of a `gml:`-prefixed tag is the name written after the prefix |
| Tree.LocalNameOfPrefixed | test.js:61 | for any prefix without a colon, the local name of `prefix:name` is `name` |
| Tree.KindOf | test.js:61 | an element has the Polygon, Rectangle, PolygonPatch, Surface, MultiSurface or CompositeSurface kind exactly when its local name is that name |
| Tree.Named | test.js:40-51 | the children picked by local name are exactly the children with that name, never more than there are; document order and multiplicity are fixed by `Tree.NamedOne` and `Tree.NamedAppend` |
| Tree.NamedOne | test.js:40-51 | a single child is picked, once, exactly when it has the name |
| Tree.NamedAppend | test.js:40-51 | picking from two runs of children is picking from each in turn, so the picked children keep their document order; the first `posList` and the order of the `pos` and `Point` tuples rest on this |
| Numerals.Tokens | test.js:38 | splitting text on whitespace yields only non-empty words free of whitespace |
| Numerals.TokensAroundSpace | test.js:38 | the words of `a + " " + b` are the words of `a` followed by the words of `b` |
| Numerals.ParseInt | test.js:38 | a word reads as an integer exactly when it is digits, or `-` followed by digits; the sign of the value follows the `-` |
| Numerals.ParseIntOfIntToString | test.js:38 | reading back the decimal text of any integer gives that integer |
| Numerals.NumbersOfJoinedInts | test.js:38 | integers joined by single spaces read back as the same list of integers |
| Numerals.Numbers | test.js:37-39 | the numbers of a coordinate text; no ensures of its own, see `Numerals.NumbersOfJoinedInts` and `Encodings.NumbersOfCoordsText` |
| Numerals.IntToString | test.js:38 | the decimal text of an integer, a single word; read back by `Numerals.ParseIntOfIntToString` |
| Results.CollectAllSpec | test.js:205-223 | the contributions of a sequence of children combine exactly when every one succeeds, and then in document order; otherwise the result is the first failure's error |
| Coords.GroupSpec | test.js:335-339 | grouping by stride `d` succeeds exactly when the count is a multiple of `d`; it then gives `count / d` tuples of `d` numbers each that, laid end to end, are the input |
| Coords.GroupOfConcat | test.js:37-39 | grouping the components of `d`-tuples laid end to end gives back exactly those tuples |
| Coords.SrsDimensionOverrides | test.js:359 | an `srsDimension` attribute holding the decimal text of `d` makes `d` the active stride of its element, whatever stride is inherited |
| Coords.StrideInherited | test.js:344 | without `srsDimension` the element uses the stride passed down from the call |
| Coords.PosTuple | test.js:40-44 | a tuple read from one `pos` has exactly as many components as the active stride |
| Coords.ApplyTransform | test.js:53 | applying the transform succeeds exactly when it keeps the arity of every tuple, and then yields the tuple-wise image in order |
| Coords.BlockTransform | test.js:67 | with an arity-preserving transform, an element's block is the transform of its untransformed block |
| Coords.BlockOfChildren | test.js:93-102 | an element's coordinate block depends only on its children, not on its tag or attributes |
| Coords.Group | test.js:335-339 | stride grouping; no ensures of its own, see `Coords.GroupSpec` and `Coords.GroupOfConcat` |
| Coords.DeclaredStride | test.js:355-388 | the stride an attribute map declares; no ensures of its own, see `Coords.SrsDimensionOverrides` |
| Coords.ActiveStride | test.js:344 | the stride of one coordinate element; no ensures of its own, see `Coords.SrsDimensionOverrides` and `Coords.StrideInherited` |
| Coords.RawTuples | test.js:37-51 | the encoding precedence `posList` > `pos` > `Point`; no ensures of its own, see `Encodings.PosListReads`, `Encodings.PosEachReads` and `Encodings.Point5Reads` |
| Coords.Block | test.js:53 | the transformed tuples of an element; no ensures of its own, see `Encodings.EncodingsAgree`, `Coords.BlockTransform` and `Coords.BlockOfChildren` |
| Coords.PointTuple | test.js:45-51 | a `Point`'s tuple; no ensures of its own, see `Encodings.PointReads` |
| Rings.JoinCons | test.js:134-156 | joining a first piece with later pieces keeps the first whole and appends the others without their first tuple |
| Rings.JoinAppend | test.js:134-156 | joining two runs of pieces equals joining the first run and appending the second run's pieces without their first tuples |
| Rings.TailsOfSlices | test.js:134-156 | the later pieces of consecutive overlapping slices, without their first tuple, run from just after the first cut to the last cut |
| Rings.JoinOfSlices | test.js:134-156 | joining the overlapping slices between consecutive cuts gives the run from the first cut to the last, with no junction vertex repeated |
| Rings.JoinOfCover | test.js:134-156 | overlapping slices cut from the first to the last tuple of a ring join back to exactly that ring |
| Rings.DropFirstOfJoin | test.js:158-203 | dropping the first tuple of a joined group gives the group's pieces each without their first tuple |
| Rings.TailsOfJoins | test.js:158-203 | the later contributions are the same whether pieces are first joined group by group or taken flat |
| Rings.JoinAssociative | test.js:158-203 | joining groups that were each joined first equals joining all their pieces flat, so the merge is associative across the two nesting levels |
| Rings.JoinMap | test.js:53 | transforming the joined ring equals joining the transformed pieces |
| Rings.JoinPieces | test.js:134-156 | the junction merge; no ensures of its own, its contract is stated by `Rings.JoinCons`, `Rings.JoinOfSlices` and `Rings.JoinAssociative` |
| Rings.CurvePiece | test.js:184-203 | a `Curve`: its segments merged; no ensures of its own, see `Assembly.CurveReads` |
| Rings.CurveRing | test.js:104-203 | a `Ring`: its curve members merged; no ensures of its own, see `Assembly.OnePieceRing`, `Assembly.LineStringsRing`, `Assembly.CurvesRing` and `Assembly.SegmentGroupingsAgree` |
| Rings.RingsOf | test.js:60-203 | a `LinearRing` or `Ring` gives one ring, another element none; no ensures of its own, see `Assembly.LinearRingReads`, `Assembly.SingleMemberRing` and `TransformLaws.RingsOfT` |
| Rings.BoundaryRing | test.js:62-64 | the ring an `exterior` or `interior` wraps; no ensures of its own, see `Assembly.BoundaryOfOne` |
| Rings.TailsMap | test.js:53 | transforming the later contributions equals taking the later contributions of the transformed pieces |
| Surfaces.Promote | test.js:221 | the flattened polygons can always be read back from the geometry, and it is a `Polygon` exactly when there is one of them |
| Surfaces.ComposeRings | test.js:317-329 | a ring list is built exactly when the exterior rings and holes both read and there is an exterior ring; it is the first exterior ring followed by the holes in order, and no exterior ring is `MissingExteriorRing`; a failing exterior ring is reported before a missing one, and both before a failing hole |
| Surfaces.PolygonRings | test.js:317-329 | a polygon's ring list, when it is built, has at least its exterior ring |
| Surfaces.MembersUnfold | test.js:264-267 | a multi or composite surface's polygons are what its children contribute as surface members, in order |
| Surfaces.Parse | test.js:7 | a root of any other kind is `UnsupportedGeometryKind`; a result holds exactly the flattened polygons and is a `Polygon` exactly when there is one; a supported root whose polygons read and are not empty always converts |
| Surfaces.ParseOriented | test.js:67 | `parse` as the tests call it succeeds exactly when the conversion does, returns the oriented converted geometry, and otherwise reports the conversion's error |
| Surfaces.OrientedOf | test.js:67 | whenever the conversion gives `g`, `parse` gives the oriented `g`, so comparing with `rewind(g)` holds once the orientation step is `rewind` |
| Surfaces.Polygons | test.js:205-315 | the flattened polygons of a geometry element; no ensures of its own, its contract is stated by `Surfaces.MembersUnfold`, `Assembly.MembersFlatten`, `Assembly.PatchesFlatten`, `Assembly.ParsePolygonNode` and `TransformLaws.PolygonsT` |
| Surfaces.PatchPolygons | test.js:206-243 | one patch of a `Surface`; no ensures of its own, see `Assembly.PatchIsPolygon` |
| Surfaces.ExteriorRings | test.js:62-64 | the rings of a polygon's `exterior` children; no ensures of its own, see `Assembly.ExteriorOfPolygon` |
| Surfaces.InteriorRings | test.js:317-329 | the rings of a polygon's `interior` children in order; no ensures of its own, see `Assembly.InteriorsOfPolygon` |
| Surfaces.ParseWith | test.js:67 | `parse(node, transform)` with the default stride 2; no ensures of its own, see the `TestCases` scenarios |
| Surfaces.ParseDefault | test.js:375 | `parse(node)` with the identity transform and stride 2; no ensures of its own, see `TestCases.DeclaredStrideRings` |
| Encodings.Times10 | test.js:53 | `transformCoords` keeps the arity and multiplies every component by 10 |
| Encodings.Times10PreservesArity | test.js:53 | `transformCoords` keeps the arity of every tuple |
| Encodings.NumbersOfCoordsText | test.js:37-39 | the text `posList(coords)` writes reads back as all components of all tuples in order |
| Encodings.NumbersOfTupleText | test.js:40-44 | the text one `pos` holds reads back as that tuple |
| Encodings.PosListReads | test.js:37-39 | an element holding one `posList` yields its tuples, grouped by the stride the `posList` declares |
| Encodings.PosReads | test.js:42 | one `pos` whose tuple has the declared stride's arity reads as that tuple |
| Encodings.PosEachReads | test.js:40-44 | an element holding one `pos` per tuple yields the tuples in order |
| Encodings.PointReads | test.js:47-49 | a `Point` wrapping one `pos` reads as that `pos`'s tuple |
| Encodings.Point5Reads | test.js:45-51 | an element holding one `Point > pos` per tuple yields the tuples in order |
| Encodings.EncodingsAgree | test.js:60-91 | the `posList`, `pos`×n and `Point`×n encodings of the same tuples give the same coordinate block |
| Assembly.LinearRingReads | test.js:63 | a `LinearRing` with one `posList` is exactly one ring: its transformed tuples |
| Assembly.OnePieceRing | test.js:104-117 | a `Ring` whose members make exactly one piece is that piece, and a failure is passed on unchanged |
| Assembly.SingleMemberRing | test.js:104-132 | a `Ring` with one `curveMember > LineString` gives the same rings as a `LinearRing` with the same children |
| Assembly.LineStringMember | test.js:108-110 | a `curveMember` holding a `LineString` contributes exactly that curve's transformed block |
| Assembly.LineStringsRing | test.js:134-156 | a `Ring` of `LineString` members is the join of their transformed blocks |
| Assembly.SlicesReadable | test.js:134-156 | every slice of a ring is a non-empty run of tuples of the ring's arity |
| Assembly.CurveMembersReassemble | test.js:134-156 | `LineString` members holding the overlapping slices of a ring reassemble exactly the transformed ring |
| Assembly.SegmentsRead | test.js:159-160 | a `segments` element yields the transformed block of each `LineStringSegment` in order |
| Assembly.CurveReads | test.js:184-203 | a `Curve` is the join of its segments' transformed blocks |
| Assembly.CurveMemberReads | test.js:165-169 | a `curveMember` holding a `Curve` contributes exactly that curve's joined segments |
| Assembly.CurvesRing | test.js:158-182 | a `Ring` of `Curve` members is the join of all their segments taken flat |
| Assembly.SegmentGroupingsAgree | test.js:158-203 | however the overlapping segments of a ring are grouped into `Curve` members, the `Ring` is exactly the transformed ring |
| Assembly.BoundaryOfOne | test.js:62-64 | an `exterior` or `interior` wrapping one ring-bearing element is that element's ring |
| Assembly.OtherRole | test.js:317-325 | a boundary element of the other role contributes no ring to this role |
| Assembly.ExteriorOfPolygon | test.js:317-325 | a polygon element's exterior rings are exactly the one its `exterior` child wraps; its `interior` children add none |
| Assembly.InteriorsOfPolygon | test.js:317-325 | a polygon element's interior rings are exactly those of its `interior` children, in document order |
| Assembly.PolygonOfRings | test.js:317-329 | a polygon element's ring list is its exterior ring followed by its holes in order |
| Assembly.PolygonRingsOfChildren | test.js:93-102 | a polygon's ring list depends only on its children |
| Assembly.RectangleIsPolygon | test.js:93-102 | a `Rectangle` converts exactly as the `Polygon` with the same children, whatever the attributes of either |
| Assembly.ParsePolygonNode | test.js:60-69 | a `Polygon` or `Rectangle` with one exterior ring and some holes is one polygon and converts to a `Polygon` holding the exterior ring then the holes |
| Assembly.MembersFlatten | test.js:264-267 | a `MultiSurface` or `CompositeSurface` with one geometry per `surfaceMember` has the polygons of those geometries, concatenated in document order |
| Assembly.MemberOfGeometry | test.js:265 | a `surfaceMember` contributes exactly the polygons of the geometry it wraps |
| Assembly.PatchesFlatten | test.js:206-218 | a `Surface` with one `patches` element has the polygons of its patches, concatenated in document order |
| Assembly.SurfaceKind | test.js:206 | a `gml:Surface` element dispatches as a surface |
| Assembly.PatchIsPolygon | test.js:208-212 | a `PolygonPatch` or `Rectangle` patch contributes exactly one polygon: its exterior ring then its holes |
| TransformLaws.MapGeometry | test.js:53 | transforming a geometry keeps its shape and maps every vertex of every polygon |
| TransformLaws.RingsOfT | test.js:67 | with an arity-preserving transform, the rings of a ring-bearing element are the vertex-wise transform of its untransformed rings |
| TransformLaws.CurveRingT | test.js:104-117 | the same holds for a `Ring` assembled from curve members |
| TransformLaws.PolygonRingsT | test.js:317-329 | the same holds for a polygon's ring list |
| TransformLaws.PolygonsT | test.js:205-223 | the same holds for the flattened polygons of any geometry |
| TransformLaws.PromoteMap | test.js:221 | choosing between `Polygon` and `MultiPolygon` commutes with transforming the vertices |
| TransformLaws.ParseTransform | test.js:67 | with an arity-preserving transform, the conversion is the vertex-wise transform of the untransformed conversion, and the same error when that fails |
| TestCases.Scaled | test.js:9-35 | `transformCoords` maps the test squares A, B and C to the rings of the expected geometries before rewinding |
| TestCases.LinearRingEncodings | test.js:37-51 | the three encodings of any tuples inside a `LinearRing` give the same single ring |
| TestCases.PolygonOfLinearRing | test.js:60-91 | `Polygon > exterior > LinearRing` with `posList`, `pos`×5 or `Point`×5 of A converts to the `Polygon` of A×10 |
| TestCases.OrientedSimpleExterior | test.js:13-69 | on the first test's tree, `parse(p, transformCoords)` is the orientation step applied to the geometry that `simpleExterior` rewinds, so it equals `simpleExterior` when that step is `rewind` |
| TestCases.RectangleOfLinearRing | test.js:93-102 | `Rectangle > exterior > LinearRing > posList` of A converts to the `Polygon` of A×10 |
| TestCases.PolygonOfLineString | test.js:104-132 | `Ring > curveMember > LineString` with `posList` or `pos`×5 of A converts to the `Polygon` of A×10 |
| TestCases.FourLineStringsRing | test.js:134-156 | four `LineString` members holding neighbouring pairs of any five tuples make the ring of all five |
| TestCases.PolygonOfFourLineStrings | test.js:134-156 | the four-slice `Ring` of A converts to the `Polygon` of A×10 |
| TestCases.TwoSegmentsRing | test.js:158-203 | the segments holding tuples 0-2 and 2-4 of any five tuples make the ring of all five, in two `Curve` members or in one |
| TestCases.PolygonOfSegments | test.js:158-203 | both segment groupings of A convert to the `Polygon` of A×10 |
| TestCases.TwoPatchSurface | test.js:205-243 | a `Surface` with two one-ring patches converts to the `MultiPolygon` of the two, in order |
| TestCases.SurfaceOfTwoPatches | test.js:205-243 | `Surface > patches` with two `PolygonPatch`es or two `Rectangle`s of A and B converts to the `MultiPolygon` of A×10 and B×10 |
| TestCases.MembersOfOnePolygon | test.js:245-315 | a collection whose member geometries have one polygon each holds those polygons, in order |
| TestCases.ParseTwoMembers | test.js:245-291 | a `MultiSurface` of two one-polygon members converts to the `MultiPolygon` of the two |
| TestCases.MultiSurfaceOfSurfaces | test.js:245-271 | `MultiSurface > surfaceMember`×2 `> Surface > patches > Rectangle` of A and B converts to the `MultiPolygon` of A×10 and B×10 |
| TestCases.NestedComposite | test.js:293-315 | wrapping a `CompositeSurface` in one `surfaceMember` keeps its polygons |
| TestCases.MultiSurfaceOfPolygons | test.js:273-315 | two `Polygon` members, directly or inside a nested `CompositeSurface`, convert to the `MultiPolygon` of A×10 and B×10 |
| TestCases.ParseOneHole | test.js:317-329 | a `Polygon` with one exterior and one interior ring converts to the `Polygon` of the exterior ring then the hole |
| TestCases.PolygonWithHole | test.js:317-329 | exterior B with interior C converts to the `Polygon` of B×10 then C×10 |
| TestCases.CallStrideThree | test.js:331-353 | with call stride 3, a nine-number `posList` gives three 3-tuples, transformed, as an unclosed ring |
| TestCases.DeclaredStrideRings | test.js:355-388 | without a transform and with the default stride, a `posList` and `pos` elements that declare `srsDimension="3"` are read three numbers per tuple and pass unchanged |
| TestCases.DeclaredStrideThree | test.js:355-388 | the `srsDimension` scenario converts to its two unclosed three-dimensional rings, unchanged |

## Left out

- Surfaces.ParseOriented: the orientation step that `parse` applies after the conversion (test.js:5, 13-35, 344, 375) is a parameter, not a model of `@turf/rewind`. The model does not prove that the scenario geometries come out counter-clockwise with clockwise holes; it proves only what the conversion builds before that step.
- Building the tree with `hyper-xml` and the `tape` test runner (test.js:3-4): the tree is the `Node` datatype. `Encodings.H` plays `h(tag, children)` without attributes.
- The implementation module behind `require('.')` (test.js:7) is not part of this model. The successful conversions follow what the tests assert. No test in test.js asserts a failure, so the failure paths are a modelling choice:
  - the five error kinds listed above, with the precedence stated there;
  - foreign tags below the root are skipped;
  - an unsupported root is rejected.
- Floating-point numbers (`parseFloat`): components are unbounded integers written as an optional `-` followed by decimal digits. Fractions, exponents and a leading `+` are not read.
- The check that a ring has at least three distinct vertices (`DegenerateRing`) is not modelled. The stride scenarios' unclosed three-vertex rings convert unchanged, as the tests expect.
- Recursion-depth guards (`RecursionLimitExceeded`): the tree is finite and the recursion is structural.
- The constructs the tests mark as not yet supported are not modelled: `SimplePolygon`, `SimpleRectangle` (test.js:57-58), `pointProperty`, `CompositeCurve` and `OrientableCurve` (test.js:390-392). The dispatch table does not hold them, so they are skipped like any foreign tag.
- The transform is a total, pure function on tuples. A transform that changes a tuple's arity is reported as `MalformedCoordinateList`. Side effects of a JavaScript callback are out of scope.
- Attributes other than `srsDimension` (such as `gml:id`) are carried in the tree but never read.
- `EmptySurfaceCollection` is raised only when the root resolves to no polygon. A nested `Surface`, `MultiSurface` or `CompositeSurface` with no polygon contributes nothing and is not an error. So a `MultiSurface` holding an empty `CompositeSurface` beside a `Polygon` converts to that polygon.
- A `pos` whose number count differs from the active stride is reported as `MalformedCoordinateList`, the same error as a `posList` whose count is not a multiple of the stride. This is a modelling choice, since no test covers it.
- Whitespace in coordinate text is only space, tab, line feed and carriage return (`Numerals.IsSpace`). Form feed, vertical tab and Unicode spaces do not separate numbers, so a text containing them does not read.

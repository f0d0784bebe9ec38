/**
 Coordinate extraction: reading the tuples of one coordinate-bearing element
 (a LinearRing, LineString or LineStringSegment) from its `posList`, its `pos`
 children or its `Point > pos` children, grouping numbers by the active stride
 and passing every tuple through the caller's transform.
 */
module Coords {
  import opened Results
  import opened Tree
  import opened Numerals

  /** One coordinate: `stride` numeric components. */
  type Tuple = seq<int>

  /** A stride (number of components per tuple); always positive. */
  type Dim = n: int | n >= 1 witness 2

  /** The stride used when the caller gives none. */
  const DefaultStride: Dim := 2

  /** The caller's per-tuple transform; total and pure. */
  type Transform = Tuple -> Tuple

  /** The transform used when the caller gives none. */
  function Identity(t: Tuple): Tuple
  {
    t
  }

  /** The transform returns a tuple of the same arity for every tuple. */
  ghost predicate PreservesArity(f: Transform)
  {
    forall t: Tuple :: |f(t)| == |t|
  }

  /** Consecutive runs of `d` numbers, in order; a remainder shorter than `d` is dropped. */
  function Chunks(xs: seq<int>, d: Dim): seq<Tuple>
    decreases |xs|
  {
    if |xs| < d then [] else [xs[..d]] + Chunks(xs[d..], d)
  }

  /** Groups a flat number list into consecutive tuples of `d` numbers; a count that is not a multiple of `d` is malformed. */
  function Group(xs: seq<int>, d: Dim): Result<seq<Tuple>>
  {
    if |xs| % d != 0 then Fail(MalformedCoordinateList) else Ok(Chunks(xs, d))
  }

  /**
   Grouping fails exactly when the count is not a multiple of `d`; on success
   the tuples all have `d` components and laid end to end are the original list.
   */
  lemma GroupSpec(xs: seq<int>, d: Dim)
    ensures Group(xs, d).Ok? <==> |xs| % d == 0
    ensures Group(xs, d).Ok? ==> |Group(xs, d).value| * d == |xs|
    ensures Group(xs, d).Ok? ==> forall i :: 0 <= i < |Group(xs, d).value| ==> |Group(xs, d).value[i]| == d
    ensures Group(xs, d).Ok? ==> Concat(Group(xs, d).value) == xs
  {
    if |xs| % d == 0 {
      ChunksSpec(xs, d);
    }
  }

  lemma {:induction false} ChunksSpec(xs: seq<int>, d: Dim)
    requires |xs| % d == 0
    ensures |Chunks(xs, d)| * d == |xs|
    ensures forall i :: 0 <= i < |Chunks(xs, d)| ==> |Chunks(xs, d)[i]| == d
    ensures Concat(Chunks(xs, d)) == xs
    decreases |xs|
  {
    if |xs| > 0 {
      if |xs| < d {
        ModUnique(|xs|, d, 0, |xs|);
        assert false;
      }
      var rest := xs[d..];
      assert |rest| % d == 0 by { ModSubtract(|xs|, d); }
      ChunksSpec(rest, d);
      var cs := Chunks(xs, d);
      assert cs == [xs[..d]] + Chunks(rest, d);
      assert cs[1..] == Chunks(rest, d);
      assert xs == xs[..d] + rest;
    }
  }

  lemma ModSubtract(n: int, d: int)
    requires d >= 1 && n >= d
    ensures (n - d) % d == n % d
  {
    ModUnique(n - d, d, n / d - 1, n % d);
  }

  /** Euclidean division is unique: a quotient and an in-range remainder determine `%`. */
  lemma ModUnique(n: int, d: int, q: int, r: int)
    requires d >= 1 && 0 <= r < d && n == q * d + r
    ensures n % d == r
  {
    var k := q - n / d;
    assert k * d == n % d - r;
  }

  lemma {:induction false} ConcatLength(ts: seq<Tuple>, d: Dim)
    requires forall i :: 0 <= i < |ts| ==> |ts[i]| == d
    ensures |Concat(ts)| == |ts| * d
  {
    if |ts| > 0 {
      ConcatLength(ts[1..], d);
    }
  }

  /** Grouping the components of `d`-tuples laid end to end gives the tuples back. */
  lemma GroupOfConcat(ts: seq<Tuple>, d: Dim)
    requires forall i :: 0 <= i < |ts| ==> |ts[i]| == d
    ensures Group(Concat(ts), d) == Ok(ts)
  {
    ConcatLength(ts, d);
    MulMod(|ts|, d);
    ChunksOfConcat(ts, d);
  }

  lemma {:induction false} ChunksOfConcat(ts: seq<Tuple>, d: Dim)
    requires forall i :: 0 <= i < |ts| ==> |ts[i]| == d
    ensures Chunks(Concat(ts), d) == ts
  {
    if |ts| > 0 {
      var xs := Concat(ts);
      assert xs == ts[0] + Concat(ts[1..]);
      assert xs[..d] == ts[0];
      assert xs[d..] == Concat(ts[1..]);
      ChunksOfConcat(ts[1..], d);
      assert ts == [ts[0]] + ts[1..];
    }
  }

  lemma MulMod(k: nat, d: Dim)
    ensures (k * d) % d == 0
  {
    ModUnique(k * d, d, k, 0);
  }

  /**
   The stride declared by an attribute map: its `srsDimension` when that is a
   positive decimal integer, otherwise the stride passed down.
   */
  function DeclaredStride(attributes: map<string, string>, s: Dim): Dim
  {
    if "srsDimension" in attributes then
      var d := ParseNat(attributes["srsDimension"]);
      if d.Ok? && d.value >= 1 then d.value else s
    else s
  }

  /** The stride active on one coordinate element: the one its own attributes declare. */
  function ActiveStride(e: Node, s: Dim): Dim
  {
    if e.Element? then DeclaredStride(e.attributes, s) else s
  }

  /** A declared `srsDimension` overrides the inherited stride for its own element only. */
  lemma SrsDimensionOverrides(tag: string, attributes: map<string, string>, children: seq<Node>, d: Dim, s: Dim)
    requires "srsDimension" in attributes && attributes["srsDimension"] == IntToString(d)
    ensures ActiveStride(Element(tag, attributes, children), s) == d
  {
    ParseIntOfIntToString(d);
  }

  /** Without an `srsDimension` attribute the inherited stride applies. */
  lemma StrideInherited(e: Node, s: Dim)
    requires e.Element? ==> "srsDimension" !in e.attributes
    ensures ActiveStride(e, s) == s
  {
  }

  /** The tuples of a `posList`: its text, grouped by the active stride. */
  function PosListTuples(p: Node, s: Dim): Result<seq<Tuple>>
  {
    var nums :- Numbers(TextOf(p));
    Group(nums, ActiveStride(p, s))
  }

  /** The one tuple of a `pos`: its text must hold exactly the active stride's count of numbers. */
  function PosTuple(p: Node, s: Dim): (r: Result<Tuple>)
    ensures r.Ok? ==> |r.value| == ActiveStride(p, s)
  {
    var nums :- Numbers(TextOf(p));
    if |nums| == ActiveStride(p, s) then Ok(nums) else Fail(MalformedCoordinateList)
  }

  /** The one tuple of a `Point`: that of its first `pos` child. */
  function PointTuple(pt: Node, s: Dim): Result<Tuple>
  {
    var ps := Named(ChildrenOf(pt), "pos");
    if |ps| == 0 then Fail(MissingCoordinates) else PosTuple(ps[0], s)
  }

  function PosTuples(ps: seq<Node>, s: Dim): Result<seq<Tuple>>
  {
    CollectAll(seq(|ps|, i requires 0 <= i < |ps| => AsList(PosTuple(ps[i], s))))
  }

  function PointTuples(pts: seq<Node>, s: Dim): Result<seq<Tuple>>
  {
    CollectAll(seq(|pts|, i requires 0 <= i < |pts| => AsList(PointTuple(pts[i], s))))
  }

  /**
   The untransformed tuples of a coordinate-bearing element. A `posList` child
   wins; otherwise every `pos` child gives one tuple; otherwise every `Point`
   child does; an element with none of the three has no coordinates.
   */
  function RawTuples(e: Node, s: Dim): Result<seq<Tuple>>
  {
    var cs := ChildrenOf(e);
    var lists := Named(cs, "posList");
    var ps := Named(cs, "pos");
    var pts := Named(cs, "Point");
    if |lists| > 0 then PosListTuples(lists[0], s)
    else if |ps| > 0 then PosTuples(ps, s)
    else if |pts| > 0 then PointTuples(pts, s)
    else Fail(MissingCoordinates)
  }

  /**
   Passes every tuple through the transform. It fails exactly when the transform
   changes the arity of some tuple; otherwise the result is the tuple-wise image.
   */
  function ApplyTransform(f: Transform, ts: seq<Tuple>): (r: Result<seq<Tuple>>)
    ensures r.Ok? <==> forall i :: 0 <= i < |ts| ==> |f(ts[i])| == |ts[i]|
    ensures r.Ok? ==> r.value == MapSeq(f, ts)
  {
    if |ts| == 0 then Ok([])
    else if |f(ts[0])| != |ts[0]| then Fail(MalformedCoordinateList)
    else
      var tail := ts[1..];
      assert forall i :: 0 <= i < |tail| ==> tail[i] == ts[i + 1];
      var rest :- ApplyTransform(f, tail);
      assert [f(ts[0])] + MapSeq(f, tail) == MapSeq(f, ts);
      Ok([f(ts[0])] + rest)
  }

  /** The transformed tuples of a coordinate-bearing element. */
  function Block(e: Node, f: Transform, s: Dim): Result<seq<Tuple>>
  {
    var raw :- RawTuples(e, s);
    ApplyTransform(f, raw)
  }

  /** The block of an element depends on its children only, not on its tag or attributes. */
  lemma BlockOfChildren(a: Node, b: Node, f: Transform, s: Dim)
    requires ChildrenOf(a) == ChildrenOf(b)
    ensures Block(a, f, s) == Block(b, f, s)
  {
    assert RawTuples(a, s) == RawTuples(b, s);
  }

  /**
   The transform acts tuple by tuple on what the element holds: with an
   arity-preserving transform the block is the image of the identity block.
   */
  lemma BlockTransform(e: Node, f: Transform, s: Dim)
    requires PreservesArity(f)
    ensures Block(e, f, s) == MapOk(Block(e, Identity, s), f)
  {
    var raw := RawTuples(e, s);
    if raw.Ok? {
      assert MapSeq(Identity, raw.value) == raw.value;
    }
  }
}

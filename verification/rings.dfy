/**
 Ring assembly. A ring is either a `LinearRing` holding one coordinate block,
 or a `Ring` whose `curveMember`s hold `LineString`s or
 `Curve > segments > LineStringSegment*`. Consecutive pieces are assumed to
 share their junction vertex: the first piece is kept whole and every later
 piece contributes all its tuples but the first. The rule is structural and
 applied unconditionally; coordinates are never compared.
 */
module Rings {
  import opened Results
  import opened Tree
  import opened Coords

  /** A closed ordered sequence of tuples bounding a polygon or a hole. */
  type Ring = seq<Tuple>

  /** A sequence without its first element; empty stays empty. */
  function DropFirst<T>(xs: seq<T>): seq<T>
  {
    if |xs| == 0 then [] else xs[1..]
  }

  /** What the later pieces contribute: each of them without its first element. */
  function Tails<T>(ps: seq<seq<T>>): seq<T>
  {
    if |ps| == 0 then [] else DropFirst(ps[0]) + Tails(ps[1..])
  }

  /** Joins pieces that share their junction elements. */
  function JoinPieces<T>(ps: seq<seq<T>>): seq<T>
  {
    if |ps| == 0 then [] else ps[0] + Tails(ps[1..])
  }

  lemma {:induction false} TailsAppend<T>(a: seq<seq<T>>, b: seq<seq<T>>)
    ensures Tails(a + b) == Tails(a) + Tails(b)
  {
    if |a| == 0 {
      assert a + b == b;
    } else {
      assert (a + b)[1..] == a[1..] + b;
      TailsAppend(a[1..], b);
    }
  }

  lemma {:induction false} TailsCons<T>(p: seq<T>, ps: seq<seq<T>>)
    ensures Tails([p] + ps) == DropFirst(p) + Tails(ps)
  {
    assert ([p] + ps)[1..] == ps;
  }

  lemma {:induction false} JoinCons<T>(p: seq<T>, ps: seq<seq<T>>)
    ensures JoinPieces([p] + ps) == p + Tails(ps)
  {
    assert ([p] + ps)[1..] == ps;
  }

  /** Joining after a non-empty run of pieces: the later pieces only contribute their tails. */
  lemma {:induction false} JoinAppend<T>(a: seq<seq<T>>, b: seq<seq<T>>)
    requires |a| > 0
    ensures JoinPieces(a + b) == JoinPieces(a) + Tails(b)
  {
    assert (a + b)[1..] == a[1..] + b;
    TailsAppend(a[1..], b);
  }

  /** Adjacent slices of one sequence concatenate to the slice they span. */
  lemma Adjacent<T>(r: seq<T>, i: nat, j: nat, k: nat)
    requires i <= j <= k <= |r|
    ensures r[i..j] + r[j..k] == r[i..k]
  {
  }

  /** A single piece is joined to itself. */
  lemma JoinSingle<T>(p: seq<T>)
    ensures JoinPieces([p]) == p
  {
  }

  /** Cut points into a sequence of length `n`: in range and non-decreasing. */
  predicate ValidCuts(cuts: seq<nat>, n: nat)
  {
    |cuts| == 0 ||
      (cuts[0] < n && (|cuts| >= 2 ==> cuts[0] <= cuts[1]) && ValidCuts(cuts[1..], n))
  }

  /**
   The overlapping slices of `r` between consecutive cut points, each running
   from one cut to the next one inclusive, so neighbours share one element.
   */
  function Slices<T>(r: seq<T>, cuts: seq<nat>): (ps: seq<seq<T>>)
    requires ValidCuts(cuts, |r|)
    ensures |cuts| >= 1 ==> |ps| == |cuts| - 1
  {
    if |cuts| < 2 then []
    else
      assert ValidCuts(cuts[1..], |r|) && cuts[1..][0] == cuts[1];
      [r[cuts[0]..cuts[1] + 1]] + Slices(r, cuts[1..])
  }

  /** Valid cuts run from the first to the last one within range. */
  lemma {:induction false} CutsBounded(cuts: seq<nat>, n: nat)
    requires |cuts| >= 1 && ValidCuts(cuts, n)
    ensures cuts[0] <= cuts[|cuts| - 1] < n
  {
    if |cuts| >= 2 {
      CutsBounded(cuts[1..], n);
      assert cuts[1..][|cuts| - 2] == cuts[|cuts| - 1];
    }
  }

  lemma {:induction false} TailsOfSlices<T>(r: seq<T>, cuts: seq<nat>)
    requires |cuts| >= 1 && ValidCuts(cuts, |r|)
    ensures cuts[0] <= cuts[|cuts| - 1] < |r|
    ensures Tails(Slices(r, cuts)) == r[cuts[0] + 1..cuts[|cuts| - 1] + 1]
  {
    CutsBounded(cuts, |r|);
    if |cuts| >= 2 {
      var c0, c1, last := cuts[0], cuts[1], cuts[|cuts| - 1];
      var rest := cuts[1..];
      assert rest[0] == c1 && rest[|rest| - 1] == last;
      TailsOfSlices(r, rest);
      SlicesCons(r, cuts);
      TailsStep(r, c0, c1, last, Slices(r, rest));
    }
  }

  /** Putting the slice `r[c0..c1]` in front of pieces whose tails run from `c1` extends those tails back to `c0`. */
  lemma TailsStep<T>(r: seq<T>, c0: nat, c1: nat, last: nat, ps: seq<seq<T>>)
    requires c0 <= c1 <= last < |r|
    requires Tails(ps) == r[c1 + 1..last + 1]
    ensures Tails([r[c0..c1 + 1]] + ps) == r[c0 + 1..last + 1]
  {
    TailsCons(r[c0..c1 + 1], ps);
    DropFirstOfSlice(r, c0, c1 + 1);
    Adjacent(r, c0 + 1, c1 + 1, last + 1);
  }

  lemma SlicesCons<T>(r: seq<T>, cuts: seq<nat>)
    requires |cuts| >= 2 && ValidCuts(cuts, |r|)
    ensures cuts[0] <= cuts[1] < |r| && ValidCuts(cuts[1..], |r|)
    ensures Slices(r, cuts) == [r[cuts[0]..cuts[1] + 1]] + Slices(r, cuts[1..])
  {
    assert cuts[1..][0] == cuts[1];
  }

  lemma DropFirstOfSlice<T>(r: seq<T>, i: nat, j: nat)
    requires i < j <= |r|
    ensures DropFirst(r[i..j]) == r[i + 1..j]
  {
  }

  /**
   Junction merge reassembles overlapping slices exactly: joining the slices of
   `r` between cut points gives back the stretch of `r` they span, so no
   junction vertex is duplicated and none is lost.
   */
  lemma {:induction false} JoinOfSlices<T>(r: seq<T>, cuts: seq<nat>)
    requires |cuts| >= 2 && ValidCuts(cuts, |r|)
    ensures cuts[0] <= cuts[|cuts| - 1] < |r|
    ensures JoinPieces(Slices(r, cuts)) == r[cuts[0]..cuts[|cuts| - 1] + 1]
  {
    CutsBounded(cuts, |r|);
    var c0, c1, last := cuts[0], cuts[1], cuts[|cuts| - 1];
    var rest := cuts[1..];
    assert rest[0] == c1 && rest[|rest| - 1] == last;
    TailsOfSlices(r, rest);
    JoinCons(r[c0..c1 + 1], Slices(r, rest));
    Adjacent(r, c0, c1 + 1, last + 1);
  }

  /** Slicing a whole sequence from its first to its last element and joining gives the sequence. */
  lemma JoinOfCover<T>(r: seq<T>, cuts: seq<nat>)
    requires |cuts| >= 2 && ValidCuts(cuts, |r|)
    requires cuts[0] == 0 && cuts[|cuts| - 1] == |r| - 1
    ensures JoinPieces(Slices(r, cuts)) == r
  {
    JoinOfSlices(r, cuts);
    assert r[0..|r|] == r;
  }

  /** The join of each group, in order. */
  function JoinEach<T>(gs: seq<seq<seq<T>>>): (js: seq<seq<T>>)
    ensures |js| == |gs|
    ensures forall i :: 0 <= i < |gs| ==> js[i] == JoinPieces(gs[i])
  {
    seq(|gs|, i requires 0 <= i < |gs| => JoinPieces(gs[i]))
  }

  /** Every group holds a piece, and its first piece is not empty. */
  predicate GroupsStartNonEmpty<T>(gs: seq<seq<seq<T>>>)
  {
    forall i :: 0 <= i < |gs| ==> |gs[i]| > 0 && |gs[i][0]| > 0
  }

  /** Past its first element, the join of a group is what all its pieces contribute as later pieces. */
  lemma {:induction false} DropFirstOfJoin<T>(g: seq<seq<T>>)
    requires |g| > 0 && |g[0]| > 0
    ensures DropFirst(JoinPieces(g)) == Tails(g)
  {
    assert (g[0] + Tails(g[1..]))[1..] == g[0][1..] + Tails(g[1..]);
  }

  lemma {:induction false} TailsOfJoins<T>(gs: seq<seq<seq<T>>>)
    requires GroupsStartNonEmpty(gs)
    ensures Tails(JoinEach(gs)) == Tails(Concat(gs))
  {
    if |gs| > 0 {
      var g, rest := gs[0], gs[1..];
      assert GroupsStartNonEmpty(rest) by {
        forall i | 0 <= i < |rest| ensures |rest[i]| > 0 && |rest[i][0]| > 0 {
          assert rest[i] == gs[i + 1];
        }
      }
      TailsOfJoins(rest);
      assert JoinEach(gs) == [JoinPieces(g)] + JoinEach(rest);
      TailsCons(JoinPieces(g), JoinEach(rest));
      DropFirstOfJoin(g);
      assert Concat(gs) == g + Concat(rest);
      TailsAppend(g, Concat(rest));
    }
  }

  /**
   Junction merge is associative across nesting levels: joining the joins of
   groups of pieces is joining all the pieces at once, provided every group
   starts with a non-empty piece.
   */
  lemma {:induction false} JoinAssociative<T>(gs: seq<seq<seq<T>>>)
    requires GroupsStartNonEmpty(gs)
    ensures JoinPieces(JoinEach(gs)) == JoinPieces(Concat(gs))
  {
    if |gs| > 0 {
      var g, rest := gs[0], gs[1..];
      assert |g| > 0;
      assert GroupsStartNonEmpty(rest) by {
        forall i | 0 <= i < |rest| ensures |rest[i]| > 0 && |rest[i][0]| > 0 {
          assert rest[i] == gs[i + 1];
        }
      }
      TailsOfJoins(rest);
      assert JoinEach(gs) == [JoinPieces(g)] + JoinEach(rest);
      JoinCons(JoinPieces(g), JoinEach(rest));
      assert Concat(gs) == g + Concat(rest);
      JoinAppend(g, Concat(rest));
    }
  }

  /** The element-wise image of each piece. */
  function MapEach<T>(g: T -> T, ps: seq<seq<T>>): (qs: seq<seq<T>>)
    ensures |qs| == |ps|
    ensures forall i :: 0 <= i < |ps| ==> qs[i] == MapSeq(g, ps[i])
  {
    seq(|ps|, i requires 0 <= i < |ps| => MapSeq(g, ps[i]))
  }

  lemma {:induction false} TailsMap<T>(g: T -> T, ps: seq<seq<T>>)
    ensures MapSeq(g, Tails(ps)) == Tails(MapEach(g, ps))
  {
    if |ps| > 0 {
      assert MapEach(g, ps)[1..] == MapEach(g, ps[1..]);
      TailsMap(g, ps[1..]);
      MapSeqAppend(g, DropFirst(ps[0]), Tails(ps[1..]));
      assert MapSeq(g, DropFirst(ps[0])) == DropFirst(MapSeq(g, ps[0]));
    }
  }

  /** Junction merge commutes with an element-wise map: it never looks at the elements. */
  lemma {:induction false} JoinMap<T>(g: T -> T, ps: seq<seq<T>>)
    ensures MapSeq(g, JoinPieces(ps)) == JoinPieces(MapEach(g, ps))
  {
    if |ps| > 0 {
      assert MapEach(g, ps)[1..] == MapEach(g, ps[1..]);
      TailsMap(g, ps[1..]);
      MapSeqAppend(g, ps[0], Tails(ps[1..]));
    }
  }

  // The tree walk below a ring-bearing element.

  /** A `LineStringSegment` under `segments` contributes its coordinate block. */
  function SegmentPieces(seg: Node, f: Transform, s: Dim): Result<seq<seq<Tuple>>>
  {
    if IsNamed(seg, "LineStringSegment") then AsList(Block(seg, f, s)) else Ok([])
  }

  /** A `segments` element under a `Curve` contributes the blocks of its segments. */
  function SegmentsPieces(c: Node, f: Transform, s: Dim): Result<seq<seq<Tuple>>>
  {
    match c
    case Element(_, _, cs) =>
      if LocalName(c.tag) == "segments" then
        CollectAll(seq(|cs|, i requires 0 <= i < |cs| => SegmentPieces(cs[i], f, s)))
      else Ok([])
    case Text(_) => Ok([])
  }

  /** A `Curve`: its segments in document order, junction-merged. */
  function CurvePiece(curve: Node, f: Transform, s: Dim): Result<seq<Tuple>>
  {
    var cs := ChildrenOf(curve);
    var segs :- CollectAll(seq(|cs|, i requires 0 <= i < |cs| => SegmentsPieces(cs[i], f, s)));
    if |segs| == 0 then Fail(MissingCoordinates) else Ok(JoinPieces(segs))
  }

  /** The curve inside a `curveMember`: a `LineString` block or a merged `Curve`. */
  function CurvePieces(c: Node, f: Transform, s: Dim): Result<seq<seq<Tuple>>>
  {
    if IsNamed(c, "LineString") then AsList(Block(c, f, s))
    else if IsNamed(c, "Curve") then AsList(CurvePiece(c, f, s))
    else Ok([])
  }

  /** A `curveMember` under a `Ring` contributes the curves it wraps. */
  function MemberPieces(m: Node, f: Transform, s: Dim): Result<seq<seq<Tuple>>>
  {
    match m
    case Element(_, _, cs) =>
      if LocalName(m.tag) == "curveMember" then
        CollectAll(seq(|cs|, i requires 0 <= i < |cs| => CurvePieces(cs[i], f, s)))
      else Ok([])
    case Text(_) => Ok([])
  }

  /** The pieces of a `Ring`, one per curve, in document order. */
  function RingPieces(ring: Node, f: Transform, s: Dim): Result<seq<seq<Tuple>>>
  {
    var cs := ChildrenOf(ring);
    CollectAll(seq(|cs|, i requires 0 <= i < |cs| => MemberPieces(cs[i], f, s)))
  }

  /** A `Ring`: its curve members junction-merged into one ring. */
  function CurveRing(ring: Node, f: Transform, s: Dim): Result<Ring>
  {
    var pieces :- RingPieces(ring, f, s);
    if |pieces| == 0 then Fail(MissingCoordinates) else Ok(JoinPieces(pieces))
  }

  /** A ring-bearing child of `exterior`/`interior`: a `LinearRing` or a `Ring`. */
  function RingsOf(e: Node, f: Transform, s: Dim): Result<seq<Ring>>
  {
    if IsNamed(e, "LinearRing") then AsList(Block(e, f, s))
    else if IsNamed(e, "Ring") then AsList(CurveRing(e, f, s))
    else Ok([])
  }

  /** The ring an `exterior` or `interior` element wraps: its first ring-bearing child. */
  function BoundaryRing(b: Node, f: Transform, s: Dim): Result<Ring>
  {
    var cs := ChildrenOf(b);
    var rings :- CollectAll(seq(|cs|, i requires 0 <= i < |cs| => RingsOf(cs[i], f, s)));
    if |rings| == 0 then Fail(MissingCoordinates) else Ok(rings[0])
  }
}

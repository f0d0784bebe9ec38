/**
 The three coordinate encodings of the test helpers, written as tree builders:
 `posList(coords)` (one text of all components), `pos5(coords)` (one `pos`
 per tuple) and `point5(coords)` (one `Point` with an index id per tuple,
 wrapping a `pos`), plus the ×10 transform. Each of them reads back to the
 same tuples.
 */
module Encodings {
  import opened Results
  import opened Tree
  import opened Numerals
  import opened Coords

  /** `h(tag, children)`: an element without attributes. */
  function H(tag: string, children: seq<Node>): Node
  {
    Element(tag, map[], children)
  }

  /** `c.join(' ')` for one tuple. */
  function TupleText(c: Tuple): string
  {
    JoinWords(IntWords(c))
  }

  function TupleTexts(coords: seq<Tuple>): (ts: seq<string>)
    ensures |ts| == |coords|
    ensures forall i :: 0 <= i < |coords| ==> ts[i] == TupleText(coords[i])
  {
    seq(|coords|, i requires 0 <= i < |coords| => TupleText(coords[i]))
  }

  /** `coords.map(c => c.join(' ')).join(' ')`. */
  function CoordsText(coords: seq<Tuple>): string
  {
    JoinWords(TupleTexts(coords))
  }

  /** One `gml:posList` with the given attributes whose text holds every component. */
  function PosListAt(attributes: map<string, string>, coords: seq<Tuple>): Node
  {
    Element(Gml("posList"), attributes, [Text(CoordsText(coords))])
  }

  /** The `posList` helper: a `gml:posList` without attributes. */
  function PosList(coords: seq<Tuple>): Node
  {
    PosListAt(map[], coords)
  }

  /** One `gml:pos` with the given attributes holding one tuple. */
  function PosAt(attributes: map<string, string>, c: Tuple): Node
  {
    Element(Gml("pos"), attributes, [Text(TupleText(c))])
  }

  /** One `gml:pos` without attributes. */
  function Pos(c: Tuple): Node
  {
    PosAt(map[], c)
  }

  /** One `gml:pos` per tuple, all with the same attributes. */
  function PosEach(attributes: map<string, string>, coords: seq<Tuple>): (ns: seq<Node>)
    ensures |ns| == |coords|
    ensures forall i :: 0 <= i < |coords| ==> ns[i] == PosAt(attributes, coords[i])
  {
    seq(|coords|, i requires 0 <= i < |coords| => PosAt(attributes, coords[i]))
  }

  /** The `pos5` helper: one `gml:pos` per tuple. */
  function Pos5(coords: seq<Tuple>): seq<Node>
  {
    PosEach(map[], coords)
  }

  /** One `gml:Point` with id `i` wrapping the `pos` of one tuple. */
  function PointAt(i: nat, c: Tuple): Node
  {
    Element(Gml("Point"), map[Gml("id") := IntToString(i)], [Pos(c)])
  }

  /** The `point5` helper: one `gml:Point` per tuple. */
  function Point5(coords: seq<Tuple>): (ns: seq<Node>)
    ensures |ns| == |coords|
    ensures forall i :: 0 <= i < |coords| ==> ns[i] == PointAt(i, coords[i])
  {
    seq(|coords|, i requires 0 <= i < |coords| => PointAt(i, coords[i]))
  }

  /** `transformCoords`: every component multiplied by 10. */
  function Times10(t: Tuple): (u: Tuple)
    ensures |u| == |t|
    ensures forall i :: 0 <= i < |t| ==> u[i] == 10 * t[i]
  {
    seq(|t|, i requires 0 <= i < |t| => 10 * t[i])
  }

  lemma Times10PreservesArity()
    ensures PreservesArity(Times10)
  {
  }

  /** Every tuple has `d` components. */
  predicate AllOfArity(coords: seq<Tuple>, d: int)
  {
    forall i :: 0 <= i < |coords| ==> |coords[i]| == d
  }

  // Reading the text back

  lemma {:induction false} ParseNumbersOfIntWords(xs: seq<int>)
    ensures ParseNumbers(IntWords(xs)) == Ok(xs)
  {
    forall i | 0 <= i < |xs|
      ensures ParseInt(IntWords(xs)[i]) == Ok(xs[i])
    {
      ParseIntOfIntToString(xs[i]);
    }
    var r := ParseNumbers(IntWords(xs));
    assert r.value == xs;
  }

  lemma {:induction false} TokensOfTupleTexts(coords: seq<Tuple>)
    ensures TokensOfEach(TupleTexts(coords)) == IntWords(Concat(coords))
  {
    if |coords| > 0 {
      var c := coords[0];
      assert TupleTexts(coords)[1..] == TupleTexts(coords[1..]);
      TokensOfTupleTexts(coords[1..]);
      TokensOfJoinedWords(IntWords(c));
      assert Concat(coords) == c + Concat(coords[1..]);
      IntWordsAppend(c, Concat(coords[1..]));
    }
  }

  lemma IntWordsAppend(a: seq<int>, b: seq<int>)
    ensures IntWords(a + b) == IntWords(a) + IntWords(b)
  {
  }

  /** The text of `posList(coords)` reads back as all components in order. */
  lemma NumbersOfCoordsText(coords: seq<Tuple>)
    ensures Numbers(CoordsText(coords)) == Ok(Concat(coords))
  {
    TokensOfJoin(TupleTexts(coords));
    TokensOfTupleTexts(coords);
    ParseNumbersOfIntWords(Concat(coords));
  }

  /** The text of one `pos` reads back as its tuple. */
  lemma NumbersOfTupleText(c: Tuple)
    ensures Numbers(TupleText(c)) == Ok(c)
  {
    TokensOfJoinedWords(IntWords(c));
    ParseNumbersOfIntWords(c);
  }

  lemma {:induction false} NamedAll(cs: seq<Node>, name: string)
    requires forall i :: 0 <= i < |cs| ==> IsNamed(cs[i], name)
    ensures Named(cs, name) == cs
  {
    if |cs| > 0 {
      NamedAll(cs[1..], name);
    }
  }

  lemma {:induction false} NamedNone(cs: seq<Node>, name: string)
    requires forall i :: 0 <= i < |cs| ==> !IsNamed(cs[i], name)
    ensures Named(cs, name) == []
  {
    if |cs| > 0 {
      NamedNone(cs[1..], name);
    }
  }

  // The three encodings agree

  /** An element holding one `posList` yields its tuples, grouped by the stride the `posList` declares. */
  lemma PosListReads(e: Node, attributes: map<string, string>, coords: seq<Tuple>, s: Dim)
    requires AllOfArity(coords, DeclaredStride(attributes, s))
    requires ChildrenOf(e) == [PosListAt(attributes, coords)]
    ensures RawTuples(e, s) == Ok(coords)
  {
    GmlLocalName("posList");
    var p := PosListAt(attributes, coords);
    assert IsNamed(p, "posList");
    assert Named([p], "posList") == [p];
    TextOfSingle(CoordsText(coords));
    NumbersOfCoordsText(coords);
    GroupOfConcat(coords, DeclaredStride(attributes, s));
  }

  lemma PosReads(attributes: map<string, string>, c: Tuple, s: Dim)
    requires |c| == DeclaredStride(attributes, s)
    ensures PosTuple(PosAt(attributes, c), s) == Ok(c)
  {
    TextOfSingle(TupleText(c));
    NumbersOfTupleText(c);
  }

  /** The text of an element holding one text child is that text. */
  lemma TextOfSingle(t: string)
    ensures forall tag, attrs :: TextOf(Element(tag, attrs, [Text(t)])) == t
  {
    assert TextOfAll([Text(t)]) == t + TextOfAll([]);
  }

  lemma PosTuplesRead(ps: seq<Node>, coords: seq<Tuple>, s: Dim)
    requires |ps| == |coords|
    requires forall i :: 0 <= i < |ps| ==> PosTuple(ps[i], s) == Ok(coords[i])
    ensures PosTuples(ps, s) == Ok(coords)
  {
    var rs := seq(|ps|, i requires 0 <= i < |ps| => AsList(PosTuple(ps[i], s)));
    assert PosTuples(ps, s) == CollectAll(rs);
    CollectSingletons(rs, coords);
  }

  lemma PointTuplesRead(pts: seq<Node>, coords: seq<Tuple>, s: Dim)
    requires |pts| == |coords|
    requires forall i :: 0 <= i < |pts| ==> PointTuple(pts[i], s) == Ok(coords[i])
    ensures PointTuples(pts, s) == Ok(coords)
  {
    var rs := seq(|pts|, i requires 0 <= i < |pts| => AsList(PointTuple(pts[i], s)));
    assert PointTuples(pts, s) == CollectAll(rs);
    CollectSingletons(rs, coords);
  }

  /** Every element of `PosEach` is a `pos`, so none is a `posList`. */
  lemma PosEachNamed(attributes: map<string, string>, coords: seq<Tuple>)
    ensures Named(PosEach(attributes, coords), "posList") == []
    ensures Named(PosEach(attributes, coords), "pos") == PosEach(attributes, coords)
  {
    var cs := PosEach(attributes, coords);
    GmlLocalName("pos");
    GmlLocalName("posList");
    assert forall i :: 0 <= i < |cs| ==> IsNamed(cs[i], "pos") && !IsNamed(cs[i], "posList");
    NamedNone(cs, "posList");
    NamedAll(cs, "pos");
  }

  /** An element holding one `pos` per tuple yields the tuples, each read with the stride its `pos` declares. */
  lemma PosEachReads(e: Node, attributes: map<string, string>, coords: seq<Tuple>, s: Dim)
    requires |coords| > 0 && AllOfArity(coords, DeclaredStride(attributes, s))
    requires ChildrenOf(e) == PosEach(attributes, coords)
    ensures RawTuples(e, s) == Ok(coords)
  {
    var cs := PosEach(attributes, coords);
    PosEachNamed(attributes, coords);
    forall i | 0 <= i < |cs| ensures PosTuple(cs[i], s) == Ok(coords[i]) {
      PosReads(attributes, coords[i], s);
    }
    PosTuplesRead(cs, coords, s);
  }

  lemma PointReads(i: nat, c: Tuple, s: Dim)
    requires |c| == s
    ensures PointTuple(PointAt(i, c), s) == Ok(c)
  {
    GmlLocalName("pos");
    assert IsNamed(Pos(c), "pos");
    assert Named([Pos(c)], "pos") == [Pos(c)];
    PosReads(map[], c, s);
  }

  /** An element holding `point5(coords)` yields one tuple per `Point`. */
  lemma Point5Reads(e: Node, coords: seq<Tuple>, s: Dim)
    requires |coords| > 0 && AllOfArity(coords, s)
    requires ChildrenOf(e) == Point5(coords)
    ensures RawTuples(e, s) == Ok(coords)
  {
    var cs := Point5(coords);
    GmlLocalName("Point");
    assert forall i :: 0 <= i < |cs| ==>
      IsNamed(cs[i], "Point") && !IsNamed(cs[i], "pos") && !IsNamed(cs[i], "posList");
    NamedNone(cs, "posList");
    NamedNone(cs, "pos");
    NamedAll(cs, "Point");
    forall i | 0 <= i < |cs| ensures PointTuple(cs[i], s) == Ok(coords[i]) {
      PointReads(i, coords[i], s);
    }
    PointTuplesRead(cs, coords, s);
  }

  /**
   `posList`, `pos`×n and `Point`×n > `pos` encodings of the same tuples give
   the same coordinate block: the tuples passed through the transform.
   */
  lemma EncodingsAgree(tag: string, coords: seq<Tuple>, f: Transform, s: Dim)
    requires |coords| > 0 && AllOfArity(coords, s)
    ensures Block(H(tag, [PosList(coords)]), f, s) == ApplyTransform(f, coords)
    ensures Block(H(tag, Pos5(coords)), f, s) == ApplyTransform(f, coords)
    ensures Block(H(tag, Point5(coords)), f, s) == ApplyTransform(f, coords)
  {
    BlockOfRead(H(tag, [PosList(coords)]), coords, f, s) by {
      PosListReads(H(tag, [PosList(coords)]), map[], coords, s);
    }
    BlockOfRead(H(tag, Pos5(coords)), coords, f, s) by {
      PosEachReads(H(tag, Pos5(coords)), map[], coords, s);
    }
    BlockOfRead(H(tag, Point5(coords)), coords, f, s) by {
      Point5Reads(H(tag, Point5(coords)), coords, s);
    }
  }

  /** The block of an element is the transformed image of the tuples it holds. */
  lemma BlockOfRead(e: Node, coords: seq<Tuple>, f: Transform, s: Dim)
    requires RawTuples(e, s) == Ok(coords)
    ensures Block(e, f, s) == ApplyTransform(f, coords)
  {
  }
}

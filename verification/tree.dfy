/**
 The labelled tree the converter walks: elements with a (possibly
 namespace-prefixed) tag, an attribute map and ordered children, and raw text.
 The tree is built elsewhere and only read here.
 */
module Tree {

  datatype Node =
    | Element(tag: string, attributes: map<string, string>, children: seq<Node>)
    | Text(text: string)

  /** Position of the first ':' in a tag, or the tag's length when there is none. */
  function ColonIndex(tag: string): (k: nat)
    ensures k <= |tag|
    ensures k < |tag| ==> tag[k] == ':'
    ensures ':' !in tag[..k]
  {
    if |tag| == 0 then 0
    else if tag[0] == ':' then 0
    else
      var k := ColonIndex(tag[1..]);
      assert tag[..k + 1] == [tag[0]] + tag[1..][..k];
      k + 1
  }

  /** The local part of a tag: everything after the first ':', or the whole tag. */
  function LocalName(tag: string): (name: string)
    ensures ':' !in tag ==> name == tag
    ensures ':' in tag ==> exists p :: ':' !in p && tag == p + [':'] + name
  {
    var k := ColonIndex(tag);
    if k < |tag| then
      assert tag == tag[..k] + [':'] + tag[k + 1..];
      tag[k + 1..]
    else
      assert tag[..k] == tag;
      tag
  }

  /** Stripping a namespace prefix yields the name written after it. */
  lemma LocalNameOfPrefixed(prefix: string, name: string)
    requires ':' !in prefix
    ensures LocalName(prefix + [':'] + name) == name
  {
    ColonIndexOfPrefixed(prefix, name);
    assert (prefix + [':'] + name)[|prefix| + 1..] == name;
  }

  lemma {:induction false} ColonIndexOfPrefixed(prefix: string, name: string)
    requires ':' !in prefix
    ensures ColonIndex(prefix + [':'] + name) == |prefix|
  {
    if |prefix| > 0 {
      assert (prefix + [':'] + name)[1..] == prefix[1..] + [':'] + name;
      assert prefix[0] in prefix;
      ColonIndexOfPrefixed(prefix[1..], name);
    }
  }

  /** The tag of `name` in the GML namespace, written with the `gml` prefix. */
  function Gml(name: string): string
  {
    "gml" + [':'] + name
  }

  /** A `gml:`-prefixed tag dispatches on the name after the prefix. */
  lemma GmlLocalName(name: string)
    ensures LocalName(Gml(name)) == name
  {
    LocalNameOfPrefixed("gml", name);
  }

  /** An element whose tag has the given local name. */
  predicate IsNamed(n: Node, name: string)
  {
    n.Element? && LocalName(n.tag) == name
  }

  /** The children of an element; text has none. */
  function ChildrenOf(n: Node): seq<Node>
  {
    if n.Element? then n.children else []
  }

  /** The children with the given local name, in document order. */
  function Named(cs: seq<Node>, name: string): (r: seq<Node>)
    ensures forall c :: c in r <==> c in cs && IsNamed(c, name)
    ensures |r| <= |cs|
  {
    if |cs| == 0 then []
    else if IsNamed(cs[0], name) then [cs[0]] + Named(cs[1..], name)
    else Named(cs[1..], name)
  }

  /** A single child is picked exactly when it has the name. */
  lemma NamedOne(c: Node, name: string)
    ensures Named([c], name) == if IsNamed(c, name) then [c] else []
  {
    assert [c][1..] == [];
  }

  /**
   Picking distributes over concatenation: together with `NamedOne` this fixes
   `Named` as the order-preserving filter, each picked child once per occurrence.
   */
  lemma {:induction false} NamedAppend(a: seq<Node>, b: seq<Node>, name: string)
    ensures Named(a + b, name) == Named(a, name) + Named(b, name)
  {
    if |a| == 0 {
      assert a + b == b;
    } else {
      assert (a + b)[0] == a[0];
      assert (a + b)[1..] == a[1..] + b;
      NamedAppend(a[1..], b, name);
    }
  }

  /** The text content of a node: its own text, or the concatenated text children of an element. */
  function TextOf(n: Node): string
  {
    match n
    case Text(t) => t
    case Element(_, _, cs) => TextOfAll(cs)
  }

  function TextOfAll(cs: seq<Node>): string
  {
    if |cs| == 0 then []
    else (if cs[0].Text? then cs[0].text else []) + TextOfAll(cs[1..])
  }

  /** The geometry-bearing element kinds of the dispatch table; every other tag is foreign. */
  datatype Kind =
    | PolygonTag
    | RectangleTag
    | PolygonPatchTag
    | SurfaceTag
    | MultiSurfaceTag
    | CompositeSurfaceTag
    | ForeignTag

  /** Dispatch on the local name of a tag, compared exactly (case-sensitive). */
  function KindOf(n: Node): (k: Kind)
    ensures k == PolygonTag <==> IsNamed(n, "Polygon")
    ensures k == RectangleTag <==> IsNamed(n, "Rectangle")
    ensures k == PolygonPatchTag <==> IsNamed(n, "PolygonPatch")
    ensures k == SurfaceTag <==> IsNamed(n, "Surface")
    ensures k == MultiSurfaceTag <==> IsNamed(n, "MultiSurface")
    ensures k == CompositeSurfaceTag <==> IsNamed(n, "CompositeSurface")
  {
    if n.Text? then ForeignTag
    else
      match LocalName(n.tag)
      case "Polygon" => PolygonTag
      case "Rectangle" => RectangleTag
      case "PolygonPatch" => PolygonPatchTag
      case "Surface" => SurfaceTag
      case "MultiSurface" => MultiSurfaceTag
      case "CompositeSurface" => CompositeSurfaceTag
      case _ => ForeignTag
  }

  /** The kinds accepted at the root of a conversion and inside a surface member. */
  predicate IsGeometryKind(k: Kind)
  {
    k in {PolygonTag, RectangleTag, SurfaceTag, MultiSurfaceTag, CompositeSurfaceTag}
  }
}

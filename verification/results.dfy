/**
 The failure model of the converter and the sequence plumbing shared by every
 level of the tree walk.

 Every handler of the walk looks at one child node and contributes zero, one or
 several values (a foreign child contributes nothing); `CollectAll` joins those
 contributions in document order and stops at the first failure, which then
 aborts the whole conversion.
 */
module Results {

  /** The fatal error kinds a conversion can end with. */
  datatype Error =
    | UnsupportedGeometryKind   // the root element is not a geometry-bearing tag
    | MissingCoordinates        // a ring, curve or point holds no coordinate form
    | MalformedCoordinateList   // bad number, count not a multiple of the stride, arity-changing transform
    | MissingExteriorRing       // a Polygon/Rectangle/PolygonPatch without an exterior ring
    | EmptySurfaceCollection    // the root resolves to no polygon at all

  /** Success with a value, or a fatal error; usable with `:-`. */
  datatype Result<+T> = Ok(value: T) | Fail(error: Error) {

    predicate IsFailure() {
      Fail?
    }

    function PropagateFailure<U>(): Result<U>
      requires Fail?
    {
      Fail(error)
    }

    function Extract(): T
      requires Ok?
    {
      value
    }
  }

  /** Concatenation of a sequence of sequences. */
  function Concat<T>(xss: seq<seq<T>>): seq<T>
  {
    if |xss| == 0 then [] else xss[0] + Concat(xss[1..])
  }

  lemma {:induction false} ConcatAppend<T>(a: seq<seq<T>>, b: seq<seq<T>>)
    ensures Concat(a + b) == Concat(a) + Concat(b)
  {
    if |a| == 0 {
      assert a + b == b;
    } else {
      assert (a + b)[1..] == a[1..] + b;
      ConcatAppend(a[1..], b);
    }
  }

  /** All results succeeded. */
  predicate AllOk<T>(rs: seq<Result<T>>)
  {
    forall i :: 0 <= i < |rs| ==> rs[i].Ok?
  }

  /** The values of a sequence of successful results. */
  function Values<T>(rs: seq<Result<T>>): (vs: seq<T>)
    requires AllOk(rs)
    ensures |vs| == |rs|
  {
    seq(|rs|, i requires 0 <= i < |rs| => rs[i].value)
  }

  /** Index of the first failure, when there is one. */
  predicate FirstFailureAt<T>(rs: seq<Result<T>>, k: int)
  {
    0 <= k < |rs| && rs[k].Fail? && forall i :: 0 <= i < k ==> rs[i].Ok?
  }

  /** Joins the contributions of the children in order, stopping at the first failure. */
  function CollectAll<T>(rs: seq<Result<seq<T>>>): (r: Result<seq<T>>)
    ensures |rs| == 0 ==> r == Ok([])
    decreases |rs|, 1
  {
    if |rs| == 0 then Ok([]) else CollectNonEmpty(rs)
  }

  /** `CollectAll` of at least one contribution: the first, then the rest. */
  function CollectNonEmpty<T>(rs: seq<Result<seq<T>>>): Result<seq<T>>
    requires |rs| > 0
    decreases |rs|, 0
  {
    if rs[0].Fail? then Fail(rs[0].error)
    else
      var rest :- CollectAll(rs[1..]);
      Ok(rs[0].value + rest)
  }

  /**
   The collection succeeds exactly when every contribution does, and then holds
   all contributed values in order; otherwise it carries the error of the first
   failing contribution.
   */
  lemma {:induction false} CollectAllSpec<T>(rs: seq<Result<seq<T>>>)
    ensures CollectAll(rs).Ok? <==> AllOk(rs)
    ensures CollectAll(rs).Ok? ==> CollectAll(rs).value == Concat(Values(rs))
    ensures CollectAll(rs).Fail? ==> exists k :: FirstFailureAt(rs, k) && CollectAll(rs).error == rs[k].error
  {
    if |rs| == 0 {
    } else if rs[0].Fail? {
      assert FirstFailureAt(rs, 0);
    } else {
      CollectAllSpec(rs[1..]);
      if CollectAll(rs[1..]).Fail? {
        FirstFailureShift(rs, CollectAll(rs[1..]).error);
      } else {
        assert AllOk(rs);
        assert Values(rs) == [rs[0].value] + Values(rs[1..]);
      }
    }
  }

  lemma FirstFailureShift<T>(rs: seq<Result<T>>, e: Error)
    requires |rs| > 0 && rs[0].Ok?
    requires exists k :: FirstFailureAt(rs[1..], k) && e == rs[1..][k].error
    ensures exists k :: FirstFailureAt(rs, k) && e == rs[k].error
  {
    var k :| FirstFailureAt(rs[1..], k) && e == rs[1..][k].error;
    assert FirstFailureAt(rs, k + 1);
  }

  /** A lone contribution is collected as it is. */
  lemma CollectAllOne<T>(rs: seq<Result<seq<T>>>)
    requires |rs| == 1
    ensures CollectAll(rs) == rs[0]
  {
    assert |rs[1..]| == 0;
    if rs[0].Ok? {
      assert rs[0].value + [] == rs[0].value;
    }
  }

  /** A lone contribution is collected as it is. */
  lemma CollectAllSingle<T>(r: Result<seq<T>>)
    ensures CollectAll([r]) == r
  {
    assert [r][1..] == [];
    if r.Ok? {
      assert r.value + [] == r.value;
    }
  }

  /** A successful first contribution goes in front of the collected rest. */
  lemma CollectAllCons<T>(r: Result<seq<T>>, rs: seq<Result<seq<T>>>)
    requires r.Ok? && AllOk(rs)
    ensures CollectAll(rs).Ok?
    ensures CollectAll([r] + rs) == Ok(r.value + CollectAll(rs).value)
  {
    CollectAllSpec(rs);
    assert ([r] + rs)[1..] == rs;
  }

  lemma {:induction false} ConcatOfSingletons<T>(xs: seq<T>)
    ensures Concat(seq(|xs|, i requires 0 <= i < |xs| => [xs[i]])) == xs
  {
    if |xs| > 0 {
      var ss := seq(|xs|, i requires 0 <= i < |xs| => [xs[i]]);
      assert ss[1..] == seq(|xs[1..]|, i requires 0 <= i < |xs[1..]| => [xs[1..][i]]);
      ConcatOfSingletons(xs[1..]);
      assert xs == [xs[0]] + xs[1..];
    }
  }

  /** Every result is the one-element success of the matching value. */
  lemma CollectSingletons<T>(rs: seq<Result<seq<T>>>, xs: seq<T>)
    requires |rs| == |xs|
    requires forall i :: 0 <= i < |rs| ==> rs[i] == Ok([xs[i]])
    ensures CollectAll(rs) == Ok(xs)
  {
    CollectAllSpec(rs);
    assert AllOk(rs);
    assert Values(rs) == seq(|xs|, i requires 0 <= i < |xs| => [xs[i]]);
    ConcatOfSingletons(xs);
  }

  /** Only the first contribution holds anything: it is the collection. */
  lemma CollectHead<T>(rs: seq<Result<seq<T>>>, xs: seq<T>)
    requires |rs| > 0 && rs[0] == Ok(xs)
    requires forall i :: 1 <= i < |rs| ==> rs[i] == Ok([])
    ensures CollectAll(rs) == Ok(xs)
  {
    var tail := rs[1..];
    forall i | 0 <= i < |tail| ensures tail[i] == Ok([]) {
      assert tail[i] == rs[i + 1];
    }
    CollectNothing(tail);
    assert rs == [rs[0]] + tail;
    CollectAllCons(rs[0], tail);
    assert xs + [] == xs;
  }

  /** The first contribution is empty and every later one holds one value. */
  lemma CollectAfterHead<T>(rs: seq<Result<seq<T>>>, ys: seq<T>)
    requires |rs| == |ys| + 1 && rs[0] == Ok([])
    requires forall i :: 0 <= i < |ys| ==> rs[i + 1] == Ok([ys[i]])
    ensures CollectAll(rs) == Ok(ys)
  {
    var tail := rs[1..];
    forall i | 0 <= i < |tail| ensures tail[i] == Ok([ys[i]]) {
      assert tail[i] == rs[i + 1];
    }
    CollectSingletons(tail, ys);
    assert rs == [rs[0]] + tail;
    CollectAllCons(rs[0], tail);
    assert [] + ys == ys;
  }

  /** Contributions that are all empty collect to nothing. */
  lemma {:induction false} CollectNothing<T>(rs: seq<Result<seq<T>>>)
    requires forall i :: 0 <= i < |rs| ==> rs[i] == Ok([])
    ensures CollectAll(rs) == Ok([])
  {
    if |rs| > 0 {
      var tail := rs[1..];
      forall i | 0 <= i < |tail| ensures tail[i] == Ok([]) {
        assert tail[i] == rs[i + 1];
      }
      CollectNothing(tail);
      assert rs[0].value + [] == [];
    }
  }

  /** A single value as a one-element contribution. */
  function AsList<T>(r: Result<T>): (q: Result<seq<T>>)
    ensures q.Ok? <==> r.Ok?
    ensures q.Ok? ==> q.value == [r.value]
    ensures q.Fail? ==> q.error == r.error
  {
    if r.Ok? then Ok([r.value]) else Fail(r.error)
  }

  /** Element-wise image of a sequence. */
  function MapSeq<T>(g: T -> T, xs: seq<T>): (ys: seq<T>)
    ensures |ys| == |xs|
    ensures forall i :: 0 <= i < |xs| ==> ys[i] == g(xs[i])
  {
    seq(|xs|, i requires 0 <= i < |xs| => g(xs[i]))
  }

  /** The element-wise image as a function on sequences. */
  function Lift<T>(g: T -> T): seq<T> -> seq<T>
  {
    xs => MapSeq(g, xs)
  }

  /** Element-wise image of the value of a successful result; failures are kept. */
  function MapOk<T>(r: Result<seq<T>>, g: T -> T): (q: Result<seq<T>>)
    ensures q.Ok? <==> r.Ok?
    ensures r.Fail? ==> q == r
    ensures r.Ok? ==> q.value == MapSeq(g, r.value)
  {
    if r.Ok? then Ok(MapSeq(g, r.value)) else r
  }

  lemma MapSeqAppend<T>(g: T -> T, a: seq<T>, b: seq<T>)
    ensures MapSeq(g, a + b) == MapSeq(g, a) + MapSeq(g, b)
  {
  }

  /**
   Mapping every contribution before joining them is the same as mapping the
   joined result: the element-wise image commutes with `CollectAll`.
   */
  lemma {:induction false} CollectAllMap<T>(rs: seq<Result<seq<T>>>, qs: seq<Result<seq<T>>>, g: T -> T)
    requires |qs| == |rs|
    requires forall i :: 0 <= i < |rs| ==> qs[i] == MapOk(rs[i], g)
    ensures CollectAll(qs) == MapOk(CollectAll(rs), g)
  {
    if |rs| == 0 {
    } else if rs[0].Fail? {
      assert qs[0] == rs[0];
    } else {
      assert qs[0] == Ok(MapSeq(g, rs[0].value));
      CollectAllMap(rs[1..], qs[1..], g);
      var rest := CollectAll(rs[1..]);
      if rest.Ok? {
        MapSeqAppend(g, rs[0].value, rest.value);
      }
    }
  }

  /** Wrapping a mapped value as a contribution is mapping the wrapped contribution. */
  lemma AsListMap<T>(r: Result<seq<T>>, g: T -> T)
    ensures AsList(MapOk(r, g)) == MapOk(AsList(r), Lift(g))
  {
    if r.Ok? {
      assert MapSeq(Lift(g), [r.value]) == [MapSeq(g, r.value)];
    }
  }
}

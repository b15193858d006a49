/** Generic facts about sequences: which positions satisfy a predicate, the
    in-order image of those positions, and first-match search. The analysis
    loops of the server and the record builder of the ingest function are
    all "keep the elements that pass a test, transform them, keep the order";
    `Selects` states that shape once. */
module Seqs {
  import opened Results

  /** The positions of `xs` whose element satisfies `p`, in increasing order. */
  function Indices<T>(xs: seq<T>, p: T -> bool): (ix: seq<nat>)
    ensures forall j :: 0 <= j < |ix| ==> ix[j] < |xs| && p(xs[ix[j]])
    ensures forall j, k :: 0 <= j < k < |ix| ==> ix[j] < ix[k]
    ensures forall i :: 0 <= i < |xs| && p(xs[i]) ==> i in ix
    ensures |ix| <= |xs|
    decreases |xs|
  {
    if |xs| == 0 then []
    else
      var init := Indices(xs[..|xs| - 1], p);
      if p(xs[|xs| - 1]) then init + [|xs| - 1] else init
  }

  /** No element passes the test: nothing is selected. */
  lemma {:induction false} IndicesNone<T>(xs: seq<T>, p: T -> bool)
    requires forall i :: 0 <= i < |xs| ==> !p(xs[i])
    ensures Indices(xs, p) == []
    decreases |xs|
  {
    if |xs| > 0 {
      IndicesNone(xs[..|xs| - 1], p);
    }
  }

  /** `out` is, in order, `f` applied to exactly those elements of `xs` that satisfy `p`. */
  ghost predicate Selects<T, U>(out: seq<U>, xs: seq<T>, p: T -> bool, f: T -> U) {
    var ix := Indices(xs, p);
    |out| == |ix| && forall j :: 0 <= j < |out| ==> out[j] == f(xs[ix[j]])
  }

  /** Extending the input by one element extends the positions by at most its own. */
  lemma IndicesSnoc<T>(xs: seq<T>, x: T, p: T -> bool)
    ensures Indices(xs + [x], p) == if p(x) then Indices(xs, p) + [|xs|] else Indices(xs, p)
  {
    var ys := xs + [x];
    assert ys[..|ys| - 1] == xs;
    assert ys[|ys| - 1] == x;
  }

  /** Extending the input by one element extends the selection by at most that element's image. */
  lemma {:induction false} SelectsSnoc<T, U>(out: seq<U>, xs: seq<T>, x: T, p: T -> bool, f: T -> U)
    requires Selects(out, xs, p, f)
    ensures Selects(if p(x) then out + [f(x)] else out, xs + [x], p, f)
  {
    var ys := xs + [x];
    var ix := Indices(xs, p);
    var iy := Indices(ys, p);
    IndicesSnoc(xs, x, p);
    var out' := if p(x) then out + [f(x)] else out;
    assert |out'| == |iy|;
    forall j | 0 <= j < |out'|
      ensures out'[j] == f(ys[iy[j]])
    {
      if j < |out| {
        assert iy[j] == ix[j];
        assert ys[ix[j]] == xs[ix[j]];
        assert out'[j] == out[j];
      } else {
        assert iy[j] == |xs| && ys[|xs|] == x;
      }
    }
  }

  /** Filter-then-map, the shape of the Python list-building loops. */
  function FilterMap<T, U>(xs: seq<T>, p: T -> bool, f: T -> U): (out: seq<U>)
    ensures Selects(out, xs, p, f)
    decreases |xs|
  {
    if |xs| == 0 then []
    else
      var init := FilterMap(xs[..|xs| - 1], p, f);
      var x := xs[|xs| - 1];
      var out := if p(x) then init + [f(x)] else init;
      SelectsSnoc(init, xs[..|xs| - 1], x, p, f);
      assert xs[..|xs| - 1] + [x] == xs;
      out
  }

  /** A selection contains only images of elements that pass the test, and every such image. */
  lemma {:induction false} SelectsMembers<T, U>(out: seq<U>, xs: seq<T>, p: T -> bool, f: T -> U)
    requires Selects(out, xs, p, f)
    ensures forall u :: u in out ==> exists i :: 0 <= i < |xs| && p(xs[i]) && u == f(xs[i])
    ensures forall i :: 0 <= i < |xs| && p(xs[i]) ==> f(xs[i]) in out
  {
    var ix := Indices(xs, p);
    forall u | u in out
      ensures exists i :: 0 <= i < |xs| && p(xs[i]) && u == f(xs[i])
    {
      var j :| 0 <= j < |out| && out[j] == u;
      assert p(xs[ix[j]]) && u == f(xs[ix[j]]);
    }
    forall i | 0 <= i < |xs| && p(xs[i])
      ensures f(xs[i]) in out
    {
      var j :| 0 <= j < |ix| && ix[j] == i;
      assert out[j] == f(xs[i]);
    }
  }

  /** Number of elements of `xs` that satisfy `p`. */
  function Count<T>(xs: seq<T>, p: T -> bool): nat
    decreases |xs|
  {
    if |xs| == 0 then 0
    else Count(xs[..|xs| - 1], p) + (if p(xs[|xs| - 1]) then 1 else 0)
  }

  /** The selection has exactly as many elements as pass the test. */
  lemma {:induction false} IndicesCount<T>(xs: seq<T>, p: T -> bool)
    ensures |Indices(xs, p)| == Count(xs, p)
    decreases |xs|
  {
    if |xs| > 0 {
      IndicesCount(xs[..|xs| - 1], p);
    }
  }

  /** Position of the first element satisfying `p`, as in Python's `for ... break ... else`. */
  function FirstIndex<T>(xs: seq<T>, p: T -> bool): (r: Option<nat>)
    ensures r.Some? ==> r.value < |xs| && p(xs[r.value]) && forall j :: 0 <= j < r.value ==> !p(xs[j])
    ensures r.None? ==> forall j :: 0 <= j < |xs| ==> !p(xs[j])
    decreases |xs|
  {
    if |xs| == 0 then None
    else if p(xs[0]) then Some(0)
    else
      match FirstIndex(xs[1..], p)
      case None => None
      case Some(i) => Some(i + 1)
  }

  /** The images of the elements, each a sequence, laid end to end. */
  function ConcatMap<T, U>(xs: seq<T>, g: T -> seq<U>): seq<U>
    decreases |xs|
  {
    if |xs| == 0 then [] else ConcatMap(xs[..|xs| - 1], g) + g(xs[|xs| - 1])
  }

  /** Concatenated images of consecutive pieces concatenate. */
  lemma {:induction false} ConcatMapAppend<T, U>(a: seq<T>, b: seq<T>, g: T -> seq<U>)
    ensures ConcatMap(a + b, g) == ConcatMap(a, g) + ConcatMap(b, g)
    decreases |b|
  {
    if |b| == 0 {
      assert a + b == a;
    } else {
      var b' := b[..|b| - 1];
      assert (a + b)[..|a + b| - 1] == a + b';
      assert (a + b)[|a + b| - 1] == b[|b| - 1];
      ConcatMapAppend(a, b', g);
    }
  }

  /** An element whose image is empty can be dropped. */
  lemma ConcatMapSkip<T, U>(a: seq<T>, x: T, b: seq<T>, g: T -> seq<U>)
    requires g(x) == []
    ensures ConcatMap(a + [x] + b, g) == ConcatMap(a + b, g)
  {
    ConcatMapAppend(a + [x], b, g);
    ConcatMapAppend(a, b, g);
    assert (a + [x])[..|a + [x]| - 1] == a;
  }
}

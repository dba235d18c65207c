/** The post-filter on the Delaunay triangle list: a triangle is kept only
    when all three vertices lie in [0,w) x [0,h), in list order. */
module Triangles {
  import opened Geometry

  /** The kept triangles, as a function of the raw list (specification). */
  function KeepInside(ts: seq<Triangle>, w: int, h: int): (k: seq<Triangle>) {
    if ts == [] then []
    else
      var last := ts[|ts| - 1];
      KeepInside(ts[..|ts| - 1], w, h) + (if TriangleInImage(last, w, h) then [last] else [])
  }

  /** `a` is `b` with some entries removed, order kept. */
  predicate IsSubsequence<T(==)>(a: seq<T>, b: seq<T>)
    decreases |b|
  {
    if a == [] then true
    else if b == [] then false
    else if a[|a| - 1] == b[|b| - 1] && IsSubsequence(a[..|a| - 1], b[..|b| - 1]) then true
    else IsSubsequence(a, b[..|b| - 1])
  }

  /** The filter loop: walk the raw list once, appending each triangle
      whose vertices all lie inside the image. */
  method FilterTriangles(ts: seq<Triangle>, w: int, h: int) returns (kept: seq<Triangle>)
    ensures kept == KeepInside(ts, w, h)
    ensures |kept| <= |ts|
    ensures forall k :: 0 <= k < |kept| ==> TriangleInImage(kept[k], w, h)
  {
    kept := [];
    var i := 0;
    while i < |ts|
      invariant 0 <= i <= |ts|
      invariant kept == KeepInside(ts[..i], w, h)
      invariant |kept| <= i
      invariant forall k :: 0 <= k < |kept| ==> TriangleInImage(kept[k], w, h)
    {
      assert ts[..i + 1][..i] == ts[..i];
      if TriangleInImage(ts[i], w, h) {
        kept := kept + [ts[i]];
      }
      i := i + 1;
    }
    assert ts[..i] == ts;
  }

  /** The kept list is an order-preserving subsequence of the input. */
  lemma {:induction false} KeepInsideSubsequence(ts: seq<Triangle>, w: int, h: int)
    ensures IsSubsequence(KeepInside(ts, w, h), ts)
  {
    if ts != [] {
      var init := ts[..|ts| - 1];
      KeepInsideSubsequence(init, w, h);
      var last := ts[|ts| - 1];
      var k := KeepInside(ts, w, h);
      if TriangleInImage(last, w, h) {
        assert k[..|k| - 1] == KeepInside(init, w, h);
      } else {
        assert k == KeepInside(init, w, h);
        SubsequenceOfInit(k, ts);
      }
    }
  }

  /** A subsequence of a prefix is a subsequence of the whole. */
  lemma {:induction false} SubsequenceOfInit<T>(a: seq<T>, b: seq<T>)
    requires b != [] && IsSubsequence(a, b[..|b| - 1])
    ensures IsSubsequence(a, b)
  {
  }

  /** Exactly the in-bounds triangles survive: a triangle of the input is
      kept if and only if all three of its vertices lie inside the image. */
  lemma {:induction false} KeepInsideExact(ts: seq<Triangle>, w: int, h: int)
    ensures forall t :: t in KeepInside(ts, w, h) ==> t in ts && TriangleInImage(t, w, h)
    ensures forall t :: t in ts && TriangleInImage(t, w, h) ==> t in KeepInside(ts, w, h)
  {
    if ts != [] {
      var init := ts[..|ts| - 1];
      KeepInsideExact(init, w, h);
      assert ts == init + [ts[|ts| - 1]];
    }
  }

  /** Every rejected triangle has a vertex outside the image. */
  lemma RejectedOutside(ts: seq<Triangle>, w: int, h: int, t: Triangle)
    requires t in ts && t !in KeepInside(ts, w, h)
    ensures !VertexInImage(t.v1, w, h) || !VertexInImage(t.v2, w, h) || !VertexInImage(t.v3, w, h)
  {
    KeepInsideExact(ts, w, h);
  }
}

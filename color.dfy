/** Per-triangle colour: the mean of the image over the triangle's clipped
    bounding box, read from the three integral tables in O(1), and the
    collection of the successful results. */
module ColorAggregator {
  import opened Geometry
  import opened Integral

  datatype Option<T> = None | Some(value: T)

  /** A colour triple in the image's own channel order. */
  datatype Color = Color(ch0: int, ch1: int, ch2: int)

  /** A triangle ready for painting: integer vertices and one colour. */
  datatype ColoredTriangle = ColoredTriangle(pts: PixelTriangle, color: Color)

  /** An inclusive pixel box [minX,maxX] x [minY,maxY]. */
  datatype Box = Box(minX: int, maxX: int, minY: int, maxY: int)

  /** The bounding box of the truncated vertices, clipped to [0,w-1] x [0,h-1]. */
  function ClippedBox(t: Triangle, w: int, h: int): (b: Box)
    ensures 0 <= b.minX && b.maxX <= w - 1 && 0 <= b.minY && b.maxY <= h - 1
  {
    var p := Truncated(t);
    Box(Max(0, Min3(p.p1.x, p.p2.x, p.p3.x)), Min(w - 1, Max3(p.p1.x, p.p2.x, p.p3.x)),
        Max(0, Min3(p.p1.y, p.p2.y, p.p3.y)), Min(h - 1, Max3(p.p1.y, p.p2.y, p.p3.y)))
  }

  /** Rejected boxes: empty, or only one pixel wide or tall. */
  predicate Degenerate(b: Box) {
    b.minX >= b.maxX || b.minY >= b.maxY
  }

  /** Number of pixels in the inclusive box. */
  function Area(b: Box): (a: int) {
    (b.maxX - b.minX + 1) * (b.maxY - b.minY + 1)
  }

  /** Every index the four-term query uses is a valid cell of P; any other
      box would make the lookup fault. */
  predicate QueryInRange(P: array2<int>, b: Box) {
    && 0 <= b.minY < P.Length0 && 0 <= b.maxY + 1 < P.Length0
    && 0 <= b.minX < P.Length1 && 0 <= b.maxX + 1 < P.Length1
  }

  /** The colour of one triangle, or None. The channel-0 table feeds the
      first component and the channel-2 table the last one: the sums are
      named after the opposite channels and then emitted in swapped order,
      so the two swaps cancel. A faulting lookup yields None. */
  function ProcessTriangle(t: Triangle, w: int, h: int, ib: array2<int>, ig: array2<int>, ir: array2<int>)
    : (r: Option<ColoredTriangle>)
    reads ib, ig, ir
    ensures r.Some? ==> !Degenerate(ClippedBox(t, w, h)) && r.value.pts == Truncated(t)
  {
    var pts := Truncated(t);
    var b := ClippedBox(t, w, h);
    if Degenerate(b) then None
    else if !(QueryInRange(ir, b) && QueryInRange(ig, b) && QueryInRange(ib, b)) then None
    else
      var sumB := BoxQuery(ir, b.minY, b.maxY, b.minX, b.maxX);
      var sumG := BoxQuery(ig, b.minY, b.maxY, b.minX, b.maxX);
      var sumR := BoxQuery(ib, b.minY, b.maxY, b.minX, b.maxX);
      var area := Area(b);
      if area == 0 then None
      else Some(ColoredTriangle(pts, Color(TruncDiv(sumR, area), TruncDiv(sumG, area), TruncDiv(sumB, area))))
  }

  /** A box inside a w x h image. */
  predicate BoxInImage(b: Box, w: int, h: int) {
    0 <= b.minX <= b.maxX < w && 0 <= b.minY <= b.maxY < h
  }

  /** Reference definition: the floor of the brute-force mean of channel k over the box. */
  function BoxMean(img: Image, k: Chan, w: int, b: Box): (m: int)
    requires IsImage(img, |img|, w) && BoxInImage(b, w, |img|)
  {
    BoxSum(img, k, w, b.minY, b.maxY + 1, b.minX, b.maxX + 1) / Area(b)
  }

  /** Reference definition of a triangle's colouring, computed from the
      image directly, without prefix sums. */
  function ReferenceColor(img: Image, h: nat, w: nat, t: Triangle): (r: Option<ColoredTriangle>)
    requires IsImage(img, h, w)
  {
    var b := ClippedBox(t, w, h);
    if Degenerate(b) then None
    else Some(ColoredTriangle(Truncated(t), Color(BoxMean(img, 0, w, b), BoxMean(img, 1, w, b), BoxMean(img, 2, w, b))))
  }

  /** A box that survives the rejection test lies strictly inside the image,
      is at least two pixels each way, and every index of the four-term
      query is in range for (h+1) x (w+1) tables: the fault handler and the
      zero-area return are unreachable. */
  lemma AcceptedBoxSafe(t: Triangle, w: int, h: int, P: array2<int>)
    requires P.Length0 == h + 1 && P.Length1 == w + 1
    requires !Degenerate(ClippedBox(t, w, h))
    ensures var b := ClippedBox(t, w, h);
      && 0 <= b.minX < b.maxX <= w - 1 && 0 <= b.minY < b.maxY <= h - 1
      && QueryInRange(P, b)
      && Area(b) >= 4
  {
    var b := ClippedBox(t, w, h);
    assert b.maxX - b.minX + 1 >= 2 && b.maxY - b.minY + 1 >= 2;
    MulAtLeast(b.maxX - b.minX + 1, b.maxY - b.minY + 1);
  }

  lemma MulAtLeast(a: int, b: int)
    requires a >= 2 && b >= 2
    ensures a * b >= 4
  {
    assert a * b == 2 * b + (a - 2) * b;
    assert (a - 2) * b >= 0;
  }

  /** Inside the image, clipping is a no-op: the box is exactly the bounding
      box of the truncated vertices. */
  lemma ClippingNoOpInside(t: Triangle, w: int, h: int)
    requires TriangleInImage(t, w, h)
    ensures var p := Truncated(t);
      ClippedBox(t, w, h) == Box(Min3(p.p1.x, p.p2.x, p.p3.x), Max3(p.p1.x, p.p2.x, p.p3.x),
                                 Min3(p.p1.y, p.p2.y, p.p3.y), Max3(p.p1.y, p.p2.y, p.p3.y))
  {
    TruncInImage(t.v1, w, h);
    TruncInImage(t.v2, w, h);
    TruncInImage(t.v3, w, h);
  }

  /** With the three integral tables of the image, the prefix-sum colouring
      equals the brute-force reference: same acceptance, same vertices, and
      each component is the mean of its own channel (channel 0 first). */
  lemma ProcessTriangleCorrect(img: Image, h: nat, w: nat, t: Triangle, ib: array2<int>, ig: array2<int>, ir: array2<int>)
    requires IsIntegral(ib, img, 0, h, w) && IsIntegral(ig, img, 1, h, w) && IsIntegral(ir, img, 2, h, w)
    ensures ProcessTriangle(t, w, h, ib, ig, ir) == ReferenceColor(img, h, w, t)
  {
    var b := ClippedBox(t, w, h);
    if !Degenerate(b) {
      AcceptedBoxSafe(t, w, h, ib);
      BoxQueryCorrect(ib, img, 0, h, w, b.minY, b.maxY, b.minX, b.maxX);
      BoxQueryCorrect(ig, img, 1, h, w, b.minY, b.maxY, b.minX, b.maxX);
      BoxQueryCorrect(ir, img, 2, h, w, b.minY, b.maxY, b.minX, b.maxX);
      BoxSumBounds(img, 0, w, b.minY, b.maxY + 1, b.minX, b.maxX + 1);
      BoxSumBounds(img, 1, w, b.minY, b.maxY + 1, b.minX, b.maxX + 1);
      BoxSumBounds(img, 2, w, b.minY, b.maxY + 1, b.minX, b.maxX + 1);
    }
  }

  /** The reference colouring accepts exactly the non-degenerate boxes, and
      an accepted colour component c of channel k is the floor of the mean:
      c * area <= sum < (c + 1) * area, with 0 <= c <= 255. */
  lemma ReferenceColorFacts(img: Image, h: nat, w: nat, t: Triangle)
    requires IsImage(img, h, w)
    ensures ReferenceColor(img, h, w, t).Some? <==> !Degenerate(ClippedBox(t, w, h))
    ensures ReferenceColor(img, h, w, t).Some? ==>
      var b := ClippedBox(t, w, h);
      var c := ReferenceColor(img, h, w, t).value.color;
      && MeanOf(img, 0, w, b, c.ch0) && MeanOf(img, 1, w, b, c.ch1) && MeanOf(img, 2, w, b, c.ch2)
  {
    var b := ClippedBox(t, w, h);
    if !Degenerate(b) {
      MeanFacts(img, 0, w, b);
      MeanFacts(img, 1, w, b);
      MeanFacts(img, 2, w, b);
    }
  }

  /** c is the floored mean of channel k over b, and an 8-bit value. */
  ghost predicate MeanOf(img: Image, k: Chan, w: int, b: Box, c: int)
    requires IsImage(img, |img|, w) && BoxInImage(b, w, |img|)
  {
    var s := BoxSum(img, k, w, b.minY, b.maxY + 1, b.minX, b.maxX + 1);
    0 <= c <= 255 && c * Area(b) <= s < (c + 1) * Area(b)
  }

  lemma MeanFacts(img: Image, k: Chan, w: int, b: Box)
    requires IsImage(img, |img|, w) && BoxInImage(b, w, |img|)
    ensures MeanOf(img, k, w, b, BoxMean(img, k, w, b))
  {
    var s := BoxSum(img, k, w, b.minY, b.maxY + 1, b.minX, b.maxX + 1);
    var dx, dy := b.maxX - b.minX + 1, b.maxY - b.minY + 1;
    BoxSumBounds(img, k, w, b.minY, b.maxY + 1, b.minX, b.maxX + 1);
    assert (b.maxY + 1 - b.minY) * (b.maxX + 1 - b.minX) == dy * dx == dx * dy == Area(b);
    MulAtLeastOne(dx, dy);
    FloorMean(s, Area(b));
  }

  lemma MulAtLeastOne(a: int, b: int)
    requires a >= 1 && b >= 1
    ensures a * b >= 1
  {
  }

  /** The floor of the mean of 8-bit values is an 8-bit value that brackets the sum. */
  lemma FloorMean(s: int, a: int)
    requires a >= 1 && 0 <= s <= 255 * a
    ensures 0 <= s / a <= 255
    ensures (s / a) * a <= s < (s / a + 1) * a
  {
    var q := s / a;
    assert q * a <= s < q * a + a;
  }

  /** Map every input through f and keep the values of the Some results,
      in input order. */
  function Collect<A, B>(f: A -> Option<B>, s: seq<A>): (r: seq<B>) {
    if s == [] then []
    else
      Collect(f, s[..|s| - 1]) +
      match f(s[|s| - 1])
      case Some(c) => [c]
      case None => []
  }

  /** The colours of a triangle list, in list order, with None dropped
      (specification of the collection loop). This is Collect written out
      for ProcessTriangle, because a total `->` function value cannot read
      the three tables; ColorizeCorrect connects the two. */
  function Colorize(ts: seq<Triangle>, w: int, h: int, ib: array2<int>, ig: array2<int>, ir: array2<int>)
    : (r: seq<ColoredTriangle>)
    reads ib, ig, ir
  {
    if ts == [] then []
    else
      Colorize(ts[..|ts| - 1], w, h, ib, ig, ir) +
      match ProcessTriangle(ts[|ts| - 1], w, h, ib, ig, ir)
      case Some(c) => [c]
      case None => []
  }

  /** The same collection over the brute-force reference colouring. */
  function ReferenceColorize(img: Image, h: nat, w: nat, ts: seq<Triangle>): (r: seq<ColoredTriangle>)
    requires IsImage(img, h, w)
  {
    Collect(t => ReferenceColor(img, h, w, t), ts)
  }

  /** The collection loop: colour each triangle and append the successful results. */
  method CollectColors(ts: seq<Triangle>, w: int, h: int, ib: array2<int>, ig: array2<int>, ir: array2<int>) returns (out: seq<ColoredTriangle>)
    ensures out == Colorize(ts, w, h, ib, ig, ir)
    ensures |out| <= |ts|
  {
    out := [];
    var i := 0;
    while i < |ts|
      invariant 0 <= i <= |ts|
      invariant out == Colorize(ts[..i], w, h, ib, ig, ir)
      invariant |out| <= i
    {
      assert ts[..i + 1][..i] == ts[..i];
      var result := ProcessTriangle(ts[i], w, h, ib, ig, ir);
      if result.Some? {
        out := out + [result.value];
      }
      i := i + 1;
    }
    assert ts[..i] == ts;
  }

  /** Over integral tables of the image, the collected colours are the
      brute-force reference colours. */
  lemma {:induction false} ColorizeCorrect(img: Image, h: nat, w: nat, ts: seq<Triangle>,
                                           ib: array2<int>, ig: array2<int>, ir: array2<int>)
    requires IsIntegral(ib, img, 0, h, w) && IsIntegral(ig, img, 1, h, w) && IsIntegral(ir, img, 2, h, w)
    ensures Colorize(ts, w, h, ib, ig, ir) == ReferenceColorize(img, h, w, ts)
  {
    if ts != [] {
      ColorizeCorrect(img, h, w, ts[..|ts| - 1], ib, ig, ir);
      ProcessTriangleCorrect(img, h, w, ts[|ts| - 1], ib, ig, ir);
    }
  }

  /** The output holds one entry per accepted input and nothing else: never
      more entries than inputs, every entry is the result of some input, and
      every input's Some result is there. */
  lemma {:induction false} CollectExact<A, B>(f: A -> Option<B>, s: seq<A>)
    ensures |Collect(f, s)| <= |s|
    ensures forall c :: c in Collect(f, s) ==> exists t :: t in s && f(t) == Some(c)
    ensures forall t :: t in s && f(t).Some? ==> f(t).value in Collect(f, s)
  {
    if s != [] {
      var init := s[..|s| - 1];
      CollectExact(f, init);
      assert s == init + [s[|s| - 1]];
    }
  }

  /** Collecting a concatenation collects the parts. */
  lemma {:induction false} CollectAppend<A, B>(f: A -> Option<B>, a: seq<A>, b: seq<A>)
    ensures Collect(f, a + b) == Collect(f, a) + Collect(f, b)
    decreases |b|
  {
    if b == [] {
      assert a + b == a;
    } else {
      var b' := b[..|b| - 1];
      assert (a + b)[..|a + b| - 1] == a + b';
      CollectAppend(f, a, b');
    }
  }

  /** Results may be collected in any completion order: permuting the inputs
      permutes the collected results and nothing more. */
  lemma {:induction false} CollectPermutation<A, B>(f: A -> Option<B>, s: seq<A>, u: seq<A>)
    requires multiset(s) == multiset(u)
    ensures multiset(Collect(f, s)) == multiset(Collect(f, u))
    decreases |s|
  {
    if s == [] {
      assert |u| == |multiset(u)| == 0;
    } else {
      var x := s[|s| - 1];
      var s' := s[..|s| - 1];
      assert s == s' + [x];
      assert x in multiset(u);
      var p :| 0 <= p < |u| && u[p] == x;
      var u' := u[..p] + u[p + 1..];
      assert u == u[..p] + [x] + u[p + 1..];
      assert multiset(u) == multiset(u[..p]) + multiset{x} + multiset(u[p + 1..]);
      assert multiset(u') == multiset(u[..p]) + multiset(u[p + 1..]);
      assert multiset(s) == multiset(s') + multiset{x};
      assert multiset(s') == multiset(s) - multiset{x};
      assert multiset(u') == multiset(u) - multiset{x};
      CollectPermutation(f, s', u');
      CollectAppend(f, s', [x]);
      CollectAppend(f, u[..p] + [x], u[p + 1..]);
      CollectAppend(f, u[..p], [x]);
      CollectAppend(f, u[..p], u[p + 1..]);
    }
  }

  /** The reference colouring of a permuted triangle list is a permutation
      of the reference colouring. */
  lemma ReferenceColorizePermutation(img: Image, h: nat, w: nat, s: seq<Triangle>, u: seq<Triangle>)
    requires IsImage(img, h, w)
    requires multiset(s) == multiset(u)
    ensures multiset(ReferenceColorize(img, h, w, s)) == multiset(ReferenceColorize(img, h, w, u))
  {
    CollectPermutation(t => ReferenceColor(img, h, w, t), s, u);
  }
}

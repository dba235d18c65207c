/** The integer bookkeeping of get_low_poly_image, stage by stage. The
    image operations of the vision library (grey conversion, blur, Otsu
    threshold, Canny, Delaunay subdivision, polygon fill) are not modelled:
    their outputs enter as parameters (`edges`, `raw`), and the two random
    draws enter as `chosen` and `rand`. */
module LowPoly {
  import opened Params
  import opened Geometry
  import opened Sampler
  import opened Triangles
  import opened Integral
  import opened ColorAggregator

  /** Clamp the knobs, size the blur kernel, assemble the point list, filter
      the triangle list, build the three integral tables and colour every
      kept triangle. The colours returned are those of the brute-force
      reference; each lies in [0,255] and each triangle's vertices lie in
      the image. */
  method LowPolyTriangles(img: Image, h: nat, w: nat, numPoints: int, detailLevel: int, edges: seq<Pt>, chosen: seq<int>, rand: seq<Pt>, raw: seq<Triangle>) returns (detail: int, blurSize: int, points: seq<Pt>, colored: seq<ColoredTriangle>)
    requires IsImage(img, h, w)
    requires OverBudget(|edges|, ClampPoints(numPoints)) ==>
      IsChoice(chosen, |edges|, EdgeQuota(ClampPoints(numPoints)))
    requires |rand| == RandomCount(|edges|, ClampPoints(numPoints))
    requires forall i :: 0 <= i < |rand| ==> PtInImage(rand[i], w, h)
    ensures detail == ClampDetail(detailLevel)
    ensures blurSize == 5 + 2 * detail && 7 <= blurSize <= 15 && blurSize % 2 == 1
    ensures points == SamplePoints(edges, ClampPoints(numPoints), w, h, chosen, rand)
    ensures |points| == ClampPoints(numPoints)
    ensures colored == ReferenceColorize(img, h, w, KeepInside(raw, w, h))
    ensures |colored| <= |KeepInside(raw, w, h)| <= |raw|
    ensures forall c :: c in colored ==>
      && PtInImage(c.pts.p1, w, h) && PtInImage(c.pts.p2, w, h) && PtInImage(c.pts.p3, w, h)
      && 0 <= c.color.ch0 <= 255 && 0 <= c.color.ch1 <= 255 && 0 <= c.color.ch2 <= 255
  {
    detail := ClampDetail(detailLevel);
    var n := ClampPoints(numPoints);
    blurSize := BlurSize(detail);
    BlurSizeNeverBumped(detail);

    points := SamplePoints(edges, n, w, h, chosen, rand);

    var kept := FilterTriangles(raw, w, h);

    var ib := BuildIntegral(img, 0, h, w);
    var ig := BuildIntegral(img, 1, h, w);
    var ir := BuildIntegral(img, 2, h, w);

    colored := CollectColors(kept, w, h, ib, ig, ir);
    ColorizeCorrect(img, h, w, kept, ib, ig, ir);
    CollectExact(t => ReferenceColor(img, h, w, t), kept);
    KeepInsideExact(raw, w, h);
    forall c | c in colored
      ensures PtInImage(c.pts.p1, w, h) && PtInImage(c.pts.p2, w, h) && PtInImage(c.pts.p3, w, h)
      ensures 0 <= c.color.ch0 <= 255 && 0 <= c.color.ch1 <= 255 && 0 <= c.color.ch2 <= 255
    {
      var t :| t in kept && ReferenceColor(img, h, w, t) == Some(c);
      TruncInImage(t.v1, w, h);
      TruncInImage(t.v2, w, h);
      TruncInImage(t.v3, w, h);
      ReferenceColorFacts(img, h, w, t);
    }
  }
}

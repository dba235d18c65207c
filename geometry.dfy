/** Points, raw triangles and the integer helpers shared by the stages. */
module Geometry {

  /** An integer 2D point (x = column, y = row): an edge pixel, a random
      sample, or a triangle vertex after truncation. */
  datatype Pt = Pt(x: int, y: int)

  /** A vertex as the Delaunay subdivision reports it (floating point). */
  datatype Vertex = Vertex(x: real, y: real)

  /** One entry of the subdivision's triangle list: three vertices. */
  datatype Triangle = Triangle(v1: Vertex, v2: Vertex, v3: Vertex)

  /** A triangle with integer vertices, as handed to the renderer. */
  datatype PixelTriangle = PixelTriangle(p1: Pt, p2: Pt, p3: Pt)

  /** An integer point lies in the pixel grid [0,w) x [0,h). */
  predicate PtInImage(p: Pt, w: int, h: int) {
    0 <= p.x < w && 0 <= p.y < h
  }

  /** A floating-point vertex lies in [0,w) x [0,h). */
  predicate VertexInImage(v: Vertex, w: int, h: int) {
    0.0 <= v.x < w as real && 0.0 <= v.y < h as real
  }

  /** All three vertices lie in [0,w) x [0,h). */
  predicate TriangleInImage(t: Triangle, w: int, h: int) {
    VertexInImage(t.v1, w, h) && VertexInImage(t.v2, w, h) && VertexInImage(t.v3, w, h)
  }

  /** Python's int() on a float: truncation toward zero. */
  function Trunc(x: real): (r: int)
    ensures x >= 0.0 ==> r >= 0 && r as real <= x < r as real + 1.0
    ensures x < 0.0 ==> r <= 0 && r as real - 1.0 < x <= r as real
  {
    if x >= 0.0 then x.Floor else -((-x).Floor)
  }

  /** Python's int(a / b): the quotient truncated toward zero, for either
      sign of the divisor (Dafny's own `/` is Euclidean). */
  function TruncDiv(a: int, b: int): (q: int)
    requires b != 0
    ensures b > 0 && a >= 0 ==> q >= 0 && q * b <= a < q * b + b
    ensures b > 0 && a < 0 ==> q <= 0 && q * b - b < a <= q * b
    ensures (a >= 0) == (b > 0) ==> q >= 0
    ensures (a >= 0) != (b > 0) ==> q <= 0
  {
    if b > 0 then (if a >= 0 then a / b else -((-a) / b))
    else (if a >= 0 then -(a / -b) else (-a) / -b)
  }

  function TruncPt(v: Vertex): (p: Pt) {
    Pt(Trunc(v.x), Trunc(v.y))
  }

  /** Each vertex coordinate truncated to an integer. */
  function Truncated(t: Triangle): (p: PixelTriangle) {
    PixelTriangle(TruncPt(t.v1), TruncPt(t.v2), TruncPt(t.v3))
  }

  /** A vertex inside the image truncates to a pixel inside the image. */
  lemma TruncInImage(v: Vertex, w: int, h: int)
    requires VertexInImage(v, w, h)
    ensures PtInImage(TruncPt(v), w, h)
  {
  }

  function Min(a: int, b: int): (m: int)
    ensures m <= a && m <= b && (m == a || m == b)
  {
    if a <= b then a else b
  }

  function Max(a: int, b: int): (m: int)
    ensures m >= a && m >= b && (m == a || m == b)
  {
    if a >= b then a else b
  }

  function Min3(a: int, b: int, c: int): (m: int)
    ensures m <= a && m <= b && m <= c && (m == a || m == b || m == c)
  {
    Min(Min(a, b), c)
  }

  function Max3(a: int, b: int, c: int): (m: int)
    ensures m >= a && m >= b && m >= c && (m == a || m == b || m == c)
  {
    Max(Max(a, b), c)
  }
}

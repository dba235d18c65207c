/** The source image, its brute-force rectangle sums, and the per-channel
    integral image (summed-area table) with its four-term box query. */
module Integral {

  /** An 8-bit channel value. */
  type Byte = x: int | 0 <= x < 256

  /** A channel index: 0, 1 or 2, in the image's own (BGR) order. */
  type Chan = k: int | 0 <= k < 3

  /** One pixel: three 8-bit channel values in the image's channel order. */
  datatype Pixel = Pixel(c0: Byte, c1: Byte, c2: Byte) {
    function At(k: Chan): (v: Byte) {
      if k == 0 then c0 else if k == 1 then c1 else c2
    }
  }

  /** Rows of pixels; `img[y][x]` is the pixel in row y, column x. */
  type Image = seq<seq<Pixel>>

  /** The image is h rows of w pixels each. */
  predicate IsImage(img: Image, h: int, w: int) {
    |img| == h && forall y :: 0 <= y < |img| ==> |img[y]| == w
  }

  /** Sum of channel k over the columns [a,b) of one row. */
  function RangeSum(row: seq<Pixel>, k: Chan, a: int, b: int): (s: int)
    requires 0 <= a && b <= |row|
    decreases b - a
  {
    if b <= a then 0 else RangeSum(row, k, a, b - 1) + row[b - 1].At(k)
  }

  /** Brute-force sum of channel k over rows [y0,y1) and columns [x0,x1). */
  function BoxSum(img: Image, k: Chan, w: int, y0: int, y1: int, x0: int, x1: int): (s: int)
    requires IsImage(img, |img|, w)
    requires 0 <= y0 && y1 <= |img| && 0 <= x0 && x1 <= w
    decreases y1 - y0
  {
    if y1 <= y0 then 0 else BoxSum(img, k, w, y0, y1 - 1, x0, x1) + RangeSum(img[y1 - 1], k, x0, x1)
  }

  /** P is the (h+1) x (w+1) integral image of channel k: cell [r,c] holds
      the sum of the channel over rows < r and columns < c. */
  ghost predicate IsIntegral(P: array2<int>, img: Image, k: Chan, h: nat, w: nat)
    reads P
  {
    && IsImage(img, h, w)
    && P.Length0 == h + 1 && P.Length1 == w + 1
    && forall r, c :: 0 <= r <= h && 0 <= c <= w ==> P[r, c] == BoxSum(img, k, w, 0, r, 0, c)
  }

  /** A box with no columns sums to zero. */
  lemma {:induction false} BoxSumNoColumns(img: Image, k: Chan, w: int, y0: int, y1: int, x: int)
    requires IsImage(img, |img|, w)
    requires 0 <= y0 && y1 <= |img| && 0 <= x <= w
    ensures BoxSum(img, k, w, y0, y1, x, x) == 0
    decreases y1 - y0
  {
    if y1 > y0 {
      BoxSumNoColumns(img, k, w, y0, y1 - 1, x);
    }
  }

  /** Build the integral image of channel k with nested accumulation loops:
      row 0 and column 0 are zero, and each later cell adds the running sum
      of its own row to the cell above it. */
  method BuildIntegral(img: Image, k: Chan, h: nat, w: nat) returns (P: array2<int>)
    requires IsImage(img, h, w)
    ensures IsIntegral(P, img, k, h, w)
  {
    P := new int[h + 1, w + 1];
    for c := 0 to w + 1
      invariant forall j :: 0 <= j < c ==> P[0, j] == 0
    {
      P[0, c] := 0;
    }
    for r := 0 to h
      invariant forall i, j :: 0 <= i <= r && 0 <= j <= w ==> P[i, j] == BoxSum(img, k, w, 0, i, 0, j)
    {
      var next := r + 1;
      P[next, 0] := 0;
      BoxSumNoColumns(img, k, w, 0, next, 0);
      var run := 0;
      for c := 0 to w
        invariant run == RangeSum(img[r], k, 0, c)
        invariant forall i, j :: 0 <= i <= r && 0 <= j <= w ==> P[i, j] == BoxSum(img, k, w, 0, i, 0, j)
        invariant forall j :: 0 <= j <= c ==> P[next, j] == BoxSum(img, k, w, 0, next, 0, j)
      {
        run := run + img[r][c].At(k);
        P[next, c + 1] := P[r, c + 1] + run;
      }
    }
  }

  /** The four-term inclusion-exclusion over an integral table for the
      inclusive box [minY,maxY] x [minX,maxX]. */
  function BoxQuery(P: array2<int>, minY: int, maxY: int, minX: int, maxX: int): (s: int)
    reads P
    requires 0 <= minY < P.Length0 && 0 <= maxY + 1 < P.Length0
    requires 0 <= minX < P.Length1 && 0 <= maxX + 1 < P.Length1
  {
    P[maxY + 1, maxX + 1] - P[maxY + 1, minX] - P[minY, maxX + 1] + P[minY, minX]
  }

  /** Column ranges split additively. */
  lemma {:induction false} RangeSumSplit(row: seq<Pixel>, k: Chan, a: int, m: int, b: int)
    requires 0 <= a <= m <= b <= |row|
    ensures RangeSum(row, k, a, b) == RangeSum(row, k, a, m) + RangeSum(row, k, m, b)
    decreases b - m
  {
    if b > m {
      RangeSumSplit(row, k, a, m, b - 1);
    }
  }

  /** Boxes split additively along the rows. */
  lemma {:induction false} BoxSumRowSplit(img: Image, k: Chan, w: int, y0: int, ym: int, y1: int, x0: int, x1: int)
    requires IsImage(img, |img|, w)
    requires 0 <= y0 <= ym <= y1 <= |img| && 0 <= x0 && x1 <= w
    ensures BoxSum(img, k, w, y0, y1, x0, x1) == BoxSum(img, k, w, y0, ym, x0, x1) + BoxSum(img, k, w, ym, y1, x0, x1)
    decreases y1 - ym
  {
    if y1 > ym {
      BoxSumRowSplit(img, k, w, y0, ym, y1 - 1, x0, x1);
    }
  }

  /** Boxes split additively along the columns. */
  lemma {:induction false} BoxSumColumnSplit(img: Image, k: Chan, w: int, y0: int, y1: int, x0: int, xm: int, x1: int)
    requires IsImage(img, |img|, w)
    requires 0 <= y0 && y1 <= |img| && 0 <= x0 <= xm <= x1 <= w
    ensures BoxSum(img, k, w, y0, y1, x0, x1) == BoxSum(img, k, w, y0, y1, x0, xm) + BoxSum(img, k, w, y0, y1, xm, x1)
    decreases y1 - y0
  {
    if y1 > y0 {
      BoxSumColumnSplit(img, k, w, y0, y1 - 1, x0, xm, x1);
      RangeSumSplit(img[y1 - 1], k, x0, xm, x1);
    }
  }

  /** Four corner sums of the prefix table recover any box by inclusion-exclusion. */
  lemma InclusionExclusion(img: Image, k: Chan, w: int, y0: int, y1: int, x0: int, x1: int)
    requires IsImage(img, |img|, w)
    requires 0 <= y0 <= y1 <= |img| && 0 <= x0 <= x1 <= w
    ensures BoxSum(img, k, w, 0, y1, 0, x1) - BoxSum(img, k, w, 0, y1, 0, x0)
          - BoxSum(img, k, w, 0, y0, 0, x1) + BoxSum(img, k, w, 0, y0, 0, x0)
         == BoxSum(img, k, w, y0, y1, x0, x1)
  {
    BoxSumRowSplit(img, k, w, 0, y0, y1, 0, x1);
    BoxSumRowSplit(img, k, w, 0, y0, y1, 0, x0);
    BoxSumColumnSplit(img, k, w, y0, y1, 0, x0, x1);
  }

  /** The table's border row and column are zero. */
  lemma IntegralBorderZero(P: array2<int>, img: Image, k: Chan, h: nat, w: nat)
    requires IsIntegral(P, img, k, h, w)
    ensures forall c :: 0 <= c <= w ==> P[0, c] == 0
    ensures forall r :: 0 <= r <= h ==> P[r, 0] == 0
  {
    forall r | 0 <= r <= h ensures P[r, 0] == 0 {
      BoxSumNoColumns(img, k, w, 0, r, 0);
    }
  }

  /** The box query on an integral table equals the brute-force sum over the
      inclusive box [minY,maxY] x [minX,maxX]. */
  lemma BoxQueryCorrect(P: array2<int>, img: Image, k: Chan, h: nat, w: nat,
                        minY: int, maxY: int, minX: int, maxX: int)
    requires IsIntegral(P, img, k, h, w)
    requires 0 <= minY <= maxY + 1 <= h && 0 <= minX <= maxX + 1 <= w
    ensures BoxQuery(P, minY, maxY, minX, maxX) == BoxSum(img, k, w, minY, maxY + 1, minX, maxX + 1)
  {
    InclusionExclusion(img, k, w, minY, maxY + 1, minX, maxX + 1);
  }

  /** A box of 8-bit values sums to between 0 and 255 times its pixel count. */
  lemma {:induction false} BoxSumBounds(img: Image, k: Chan, w: int, y0: int, y1: int, x0: int, x1: int)
    requires IsImage(img, |img|, w)
    requires 0 <= y0 <= y1 <= |img| && 0 <= x0 <= x1 <= w
    ensures 0 <= BoxSum(img, k, w, y0, y1, x0, x1) <= 255 * ((y1 - y0) * (x1 - x0))
    decreases y1 - y0
  {
    if y1 > y0 {
      BoxSumBounds(img, k, w, y0, y1 - 1, x0, x1);
      RangeSumBounds(img[y1 - 1], k, x0, x1);
      assert (y1 - y0) * (x1 - x0) == (y1 - 1 - y0) * (x1 - x0) + (x1 - x0);
    }
  }

  lemma {:induction false} RangeSumBounds(row: seq<Pixel>, k: Chan, a: int, b: int)
    requires 0 <= a <= b <= |row|
    ensures 0 <= RangeSum(row, k, a, b) <= 255 * (b - a)
    decreases b - a
  {
    if b > a {
      RangeSumBounds(row, k, a, b - 1);
    }
  }
}

# Low-poly image pipeline: a Dafny model of its integer bookkeeping

The repository turns a photograph into a "low-poly" picture: feature points
are taken from the image's edges and topped up with random points, the points
are triangulated, every triangle gets the mean colour of the pixels in its
clipped bounding box (read in constant time from per-channel integral images),
and the triangles are painted onto a white canvas. All of it lives in
`get_low_poly_image` in `utils.py`.

This project models everything in that function that is not a call into the
vision library:

- `Params` (params.dfy): clamping of `detail_level` to [1,5] and of
  `num_points` to at least 100, and the odd Gaussian-kernel size rule.
- `Sampler` (sampler.dfy): the 80% edge-point quota, the draw without
  replacement, and the random fill; the two random draws are parameters
  (`chosen`: distinct indices; `rand`: exactly the requested number of points
  in [0,w) x [0,h)).
- `Triangles` (triangles.dfy): the loop that keeps a triangle only when all
  three vertices lie in [0,w) x [0,h), proved against a specification function.
- `Integral` (integral.dfy): the image (8-bit BGR pixels), a brute-force box
  sum, the (h+1) x (w+1) integral table built by nested loops, and the
  four-term inclusion-exclusion query.
- `ColorAggregator` (color.dfy): `process_triangle` as a function returning an
  `Option`, a brute-force reference colouring, the collection loop that drops
  `None`, and the proofs that the prefix-sum result equals the reference.
- `LowPoly` (lowpoly.dfy): the pipeline method that runs the stages in order.

Vertex coordinates of the triangle list are `real`; `int()` on them is
truncation toward zero (`Geometry.Trunc`), and `int(sum / area)` is truncating
division (`Geometry.TruncDiv`). The 0.8 factor is computed exactly on integers:
`5 * len > 4 * n` for the test and `(4 * n) / 5` for `int(n * 0.8)`, which agree
with the double-precision expressions for every budget of realistic size.

Behaviour of the code worth knowing:

- A bounding box is rejected when it is empty or only one pixel wide or tall
  (the `>=` test at utils.py:76); the `area == 0` return and the fault handler
  are therefore unreachable (`ColorAggregator.AcceptedBoxSafe`).
- The filter keeps a triangle only when all three vertices lie in the half-open
  [0,w) x [0,h), and it does not discard zero-area triangles.
- The random fill count is positive for every budget of at least one point
  (`Sampler.RandomFillPositive`).
- The sums are named after the opposite channels and then emitted in swapped
  order, so the emitted triple is in the image's own channel order
  (`ColorAggregator.ProcessTriangleCorrect`).

## Model

| member | source | states |
|---|---|---|
| `Params.ClampDetail` | utils.py:10 | the result is in [1,5]; values already in range are kept, smaller ones become 1, larger ones 5 |
| `Params.ClampPoints` | utils.py:11 | the result is at least 100 and at least the request; requests of 100 or more are kept, smaller ones become 100 |
| `Params.ClampDetailIdempotent` | utils.py:10 | clamping a clamped detail level changes nothing |
| `Params.ClampPointsIdempotent` | utils.py:11 | clamping a clamped budget changes nothing |
| `Params.ClampPointsFloor` | utils.py:11 | every request of at most 100 points behaves exactly like 100 |
| `Params.BlurSize` | utils.py:18-19 | the kernel size is odd and is the smallest odd number not below 5 + 2*d |
| `Params.BlurSizeNeverBumped` | utils.py:18-19 | 5 + 2*d is already odd, so the "+1" branch is never taken |
| `Params.BlurSizeRange` | utils.py:10-19 | for a clamped detail level the kernel size is odd and in [7,15] |
| `Geometry.Trunc` | utils.py:68 | int() of a vertex coordinate: the integer toward zero within distance 1 of the value |
| `Geometry.TruncDiv` | utils.py:106 | int(a / b): for a positive divisor the truncated quotient (q*b <= a < q*b + b when a >= 0, q*b - b < a <= q*b when a < 0); for any divisor q >= 0 when the signs of a and b agree and q <= 0 when they differ |
| `Geometry.TruncInImage` | utils.py:55-68 | a vertex inside [0,w) x [0,h) truncates to a pixel inside the image |
| `Sampler.EdgeQuota` | utils.py:32 | int(0.8 n) is the largest q with 5q <= 4n, and lies in [0,n] |
| `Sampler.SamplePoints` | utils.py:31-45 | exactly n points; over budget: the picked edge points followed by n - int(0.8 n) random points; otherwise all edge points followed by n - len random points; the random tail lies in [0,w) x [0,h) |
| `Sampler.RandomFillPositive` | utils.py:35-41 | for n >= 1 the random fill count is positive, and an edge list within budget is shorter than n |
| `Sampler.EdgePartDistinct` | utils.py:33-34 | distinct indices on a list without repeats give kept edge points without repeats |
| `Sampler.PickSubMultiset` | utils.py:33-34 | drawing distinct indices takes a sub-multiset of the edge points |
| `Triangles.FilterTriangles` | utils.py:53-56 | the loop's result is the specification list, no longer than the input, with every kept triangle inside the image |
| `Triangles.KeepInsideSubsequence` | utils.py:53-56 | the kept list is an order-preserving subsequence of the input |
| `Triangles.KeepInsideExact` | utils.py:55-56 | an input triangle is kept if and only if all three vertices lie in [0,w) x [0,h) |
| `Triangles.RejectedOutside` | utils.py:55 | every rejected triangle has a vertex outside the image |
| `Integral.BuildIntegral` | utils.py:59-61 | the table is (h+1) x (w+1) and cell [r,c] is the brute-force sum of the channel over rows < r and columns < c |
| `Integral.IntegralBorderZero` | utils.py:59-61 | row 0 and column 0 of an integral table are zero |
| `Integral.InclusionExclusion` | utils.py:81-98 | four prefix sums combine to the brute-force sum of any rectangle |
| `Integral.BoxQueryCorrect` | utils.py:81-98 | the four-term query on an integral table equals the brute-force sum over the inclusive box |
| `Integral.BoxSumBounds` | utils.py:59-61 | a box of 8-bit values sums to between 0 and 255 times its pixel count |
| `ColorAggregator.ClippedBox` | utils.py:71-74 | the box is clipped to [0,w-1] x [0,h-1] |
| `ColorAggregator.ClippingNoOpInside` | utils.py:73-74 | for a triangle inside the image the clipped box is exactly the bounding box of its truncated vertices |
| `ColorAggregator.ProcessTriangle` | utils.py:66-107 | a colouring is returned only for a non-degenerate clipped box, and carries the truncated vertices |
| `ColorAggregator.AcceptedBoxSafe` | utils.py:76-104 | an accepted box has 0 <= min < max <= w-1 (and h-1), every query index is inside (h+1) x (w+1) tables, and its area is at least 4: the fault handler and the zero-area return are unreachable |
| `ColorAggregator.ProcessTriangleCorrect` | utils.py:81-106 | with the image's integral tables, the prefix-sum colouring equals the brute-force reference: first component the channel-0 mean, last the channel-2 mean |
| `ColorAggregator.ReferenceColorFacts` | utils.py:76-106 | a colouring exists if and only if the box is non-degenerate, and each component c is the floored mean (c*area <= sum < (c+1)*area) in [0,255] |
| `ColorAggregator.MeanFacts` | utils.py:102-106 | the floored brute-force mean of 8-bit values is in [0,255] and brackets the box sum |
| `ColorAggregator.FloorMean` | utils.py:106 | the floored quotient of a sum of at most 255 per pixel is in [0,255] and brackets the sum |
| `ColorAggregator.CollectColors` | utils.py:110-115 | the loop's result is the successful colourings in list order, no more than the triangles |
| `ColorAggregator.ColorizeCorrect` | utils.py:110-115 | the collected colourings equal the brute-force reference colourings |
| `ColorAggregator.CollectExact` | utils.py:112-115 | dropping None keeps at most one entry per input; every entry is the result of some input; every Some result is present |
| `ColorAggregator.CollectAppend` | utils.py:110-115 | collecting a concatenation gives the concatenation of the collected parts |
| `ColorAggregator.CollectPermutation` | utils.py:110-115 | permuting the inputs only permutes the collected results |
| `ColorAggregator.ReferenceColorizePermutation` | utils.py:110-115 | permuting the triangle list only permutes the collected colourings, so completion order does not matter |
| `LowPoly.LowPolyTriangles` | utils.py:6-115 | clamped detail, odd kernel in [7,15], exactly the clamped number of points, and colourings equal to the reference over the kept triangles (no more of them than kept triangles), each with vertices in the image and channels in [0,255] |

## Left out

- The vision-library calls (grey conversion, Gaussian blur, Otsu threshold,
  Canny, Delaunay subdivision, anti-aliased polygon fill): foreign code whose
  behaviour is not visible; the edge-point list and the raw triangle list are
  parameters of `LowPoly.LowPolyTriangles`. The 0.5/1.5 scaling of the Otsu
  threshold into the Canny bounds (utils.py:23-24) only feeds the foreign
  Canny call and is not modelled either.
- The random index draw without replacement and the random point batch:
  non-deterministic; they are parameters with the guarantees the draws give
  (distinct in-range indices; in-bounds points of the requested count).
- The thread pool: modelled as a sequential loop; `CollectPermutation`
  shows that completion order only permutes the output.
- Floating point: float32 vertices, the 64-bit float accumulators of the integral tables and the float division before
  `int()` are modelled with exact reals and integers, without rounding.
- Negative-index wrap-around of the table lookups in the guarded block
  (utils.py:80-98): the model treats any index outside the table as a fault
  (the handler at utils.py:99); the indices are proved
  never negative, so this does not arise.
- The canvas filled with 255 and the painting loop (utils.py:118-122): only
  meaningful together with the polygon fill, which is foreign.
- main.py (the HTTP endpoint, upload checks, decode and encode) and
  static/main.js (the browser front end): I/O glue outside this model.
- Geometry.TruncDiv: for a negative divisor only the sign of the quotient is
  stated (non-negative when the operands' signs agree, non-positive when they
  differ), because every divisor in the pipeline is a positive area.

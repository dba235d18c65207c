/** Parameter checking and the smoothing-kernel size rule at the start of
    get_low_poly_image: both knobs are clamped rather than rejected. */
module Params {

  /** The detail level, forced into [1,5]. */
  function ClampDetail(d: int): (r: int)
    ensures 1 <= r <= 5
    ensures 1 <= d <= 5 ==> r == d
    ensures d < 1 ==> r == 1
    ensures d > 5 ==> r == 5
  {
    if d < 1 then 1 else if d > 5 then 5 else d
  }

  /** The point budget, raised to at least 100. */
  function ClampPoints(n: int): (r: int)
    ensures r >= 100
    ensures r >= n
    ensures n >= 100 ==> r == n
    ensures n < 100 ==> r == 100
  {
    if n < 100 then 100 else n
  }

  /** The Gaussian kernel side: 5 + 2*detail, bumped by one when even so
      that the kernel has a centre. */
  function BlurSize(d: int): (r: int)
    ensures r % 2 == 1
    ensures 5 + 2 * d <= r <= 6 + 2 * d
  {
    var b := 5 + 2 * d;
    if b % 2 == 0 then b + 1 else b
  }

  lemma ClampDetailIdempotent(d: int)
    ensures ClampDetail(ClampDetail(d)) == ClampDetail(d)
  {
  }

  lemma ClampPointsIdempotent(n: int)
    ensures ClampPoints(ClampPoints(n)) == ClampPoints(n)
  {
  }

  /** Requests below the floor all behave like the floor itself. */
  lemma ClampPointsFloor(n: int)
    requires n <= 100
    ensures ClampPoints(n) == ClampPoints(100) == 100
  {
  }

  /** 5 + 2*d is odd for every d, so the "+1" branch is never taken. */
  lemma BlurSizeNeverBumped(d: int)
    ensures BlurSize(d) == 5 + 2 * d
  {
  }

  /** For a clamped detail level the kernel is odd and between 7 and 15. */
  lemma BlurSizeRange(d: int)
    ensures var b := BlurSize(ClampDetail(d)); b % 2 == 1 && 7 <= b <= 15
  {
    BlurSizeNeverBumped(ClampDetail(d));
  }
}

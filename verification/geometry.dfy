/** Integer geometry of one frame: the side of the square canvas and the offset
    that centres the rotated image on it. Images are abstracted to their size. */
module Geometry {

  /** Width and height of a raster, in pixels. */
  datatype Size = Size(width: nat, height: nat)

  /** Squaring is monotone on the naturals. */
  lemma SquareMonotone(a: nat, b: nat)
    requires a <= b
    ensures a * a <= b * b
  {
    assert a * a <= a * b by {
      assert a * (b - a) >= 0;
    }
    assert a * b <= b * b by {
      assert (b - a) * b >= 0;
    }
  }

  /** One halving step of the integer square root: from the root of n / 4,
      twice that root is within one of the root of n. */
  lemma HalvingStep(n: nat, s: nat)
    requires s * s <= n / 4 < (s + 1) * (s + 1)
    ensures (2 * s) * (2 * s) <= n < (2 * s + 2) * (2 * s + 2)
  {
    var q := n / 4;
    assert 4 * q <= n < 4 * q + 4;
    assert (2 * s) * (2 * s) == 4 * (s * s);
    assert (2 * s + 2) * (2 * s + 2) == 4 * ((s + 1) * (s + 1));
    assert q + 1 <= (s + 1) * (s + 1);
  }

  /** The integer square root, rounded down, by repeated halving. */
  function FloorSqrt(n: nat): (r: nat)
    ensures r * r <= n < (r + 1) * (r + 1)
    decreases n
  {
    if n < 2 then n
    else
      var s := FloorSqrt(n / 4);
      HalvingStep(n, s);
      if (2 * s + 1) * (2 * s + 1) <= n then 2 * s + 1 else 2 * s
  }

  /** d is the least natural whose square reaches n. */
  ghost predicate IsCeilSqrt(n: nat, d: nat) {
    n <= d * d && (d == 0 || (d - 1) * (d - 1) < n)
  }

  /** The integer square root, rounded up: exact ceil(sqrt(n)). */
  function CeilSqrt(n: nat): (d: nat)
    ensures IsCeilSqrt(n, d)
  {
    var r := FloorSqrt(n);
    if r * r == n then r else r + 1
  }

  /** At most one natural is the rounded-up square root of n. */
  lemma CeilSqrtUnique(n: nat, d: nat)
    requires IsCeilSqrt(n, d)
    ensures d == CeilSqrt(n)
  {
    var c := CeilSqrt(n);
    if d < c {
      SquareMonotone(d, c - 1);
    } else if c < d {
      SquareMonotone(c, d - 1);
    }
  }

  /** A natural whose square reaches n is at least its rounded-up root. */
  lemma CeilSqrtLeast(n: nat, e: nat)
    requires n <= e * e
    ensures CeilSqrt(n) <= e
  {
    var c := CeilSqrt(n);
    if e < c {
      SquareMonotone(e, c - 1);
    }
  }

  /** A natural whose square stays below n is below its rounded-up root. */
  lemma CeilSqrtAbove(n: nat, e: nat)
    requires e * e < n
    ensures e < CeilSqrt(n)
  {
    var c := CeilSqrt(n);
    if c <= e {
      SquareMonotone(c, e);
    }
  }

  /** A natural whose square does not exceed n is at most its rounded-up root. */
  lemma SquareBelow(a: nat, n: nat)
    requires a * a <= n
    ensures a <= CeilSqrt(n)
  {
    if a > 0 {
      assert (a - 1) * (a - 1) == a * a - 2 * a + 1;
      CeilSqrtAbove(n, a - 1);
    }
  }

  /** Each side's square is at most the sum of squares, which is at most the
      square of the sum of sides. */
  lemma SumOfSquaresBetween(w: nat, h: nat)
    ensures w * w <= w * w + h * h
    ensures h * h <= w * w + h * h
    ensures w * w + h * h <= (w + h) * (w + h)
  {
    assert (w + h) * (w + h) == w * w + h * h + 2 * (w * h);
  }

  /** The rounded-up diagonal of a w x h rectangle lies between its longer
      side and the sum of its sides. */
  lemma DiagonalBounds(w: nat, h: nat)
    ensures var d := CeilSqrt(w * w + h * h);
      w <= d && h <= d && d <= w + h
  {
    SumOfSquaresBetween(w, h);
    var n := w * w + h * h;
    SquareBelow(w, n);
    SquareBelow(h, n);
    CeilSqrtLeast(n, w + h);
  }

  /** d is the side of the canvas for img: the least integer whose square
      reaches width^2 + height^2, at least each side of the image and at most
      their sum. */
  ghost predicate IsCanvasSide(img: Size, d: nat) {
    && IsCeilSqrt(img.width * img.width + img.height * img.height, d)
    && img.width <= d && img.height <= d
    && d <= img.width + img.height
  }

  /** Side of the square canvas: the diagonal of the source image rounded up,
      so that the image fits at any rotation. */
  function CanvasSide(img: Size): (d: nat)
    ensures IsCanvasSide(img, d)
  {
    DiagonalBounds(img.width, img.height);
    CeilSqrt(img.width * img.width + img.height * img.height)
  }

  /** The square canvas on which every frame is drawn. */
  function Canvas(img: Size): (c: Size)
    ensures c.width == c.height && IsCanvasSide(img, c.width)
  {
    var d := CanvasSide(img);
    Size(d, d)
  }

  /** Top-left corner at which a layer is pasted. */
  datatype Offset = Offset(x: int, y: int)

  /** Start of a span of length r centred in a span of length d, with floor
      division (Dafny's / on a positive divisor rounds down, as Python's //
      does). The start is non-negative exactly when the span fits; a fitting
      span ends inside the canvas, and its right margin equals its left margin
      or exceeds it by one. */
  function CenterStart(d: nat, r: nat): (x: int)
    ensures 2 * x <= d - r < 2 * x + 2
    ensures 0 <= x <==> r <= d
    ensures r <= d ==> x + r <= d
    ensures r <= d ==> x <= d - r - x <= x + 1
  {
    (d - r) / 2
  }

  /** Offset that centres an image of size `rotated` on a side x side canvas. */
  function CenterOffset(side: nat, rotated: Size): Offset {
    Offset(CenterStart(side, rotated.width), CenterStart(side, rotated.height))
  }

  /** An image no larger than the canvas on either axis, pasted at the centring
      offset, lies entirely inside the canvas. */
  lemma CenteredFits(side: nat, rotated: Size)
    requires rotated.width <= side && rotated.height <= side
    ensures var o := CenterOffset(side, rotated);
      && 0 <= o.x && o.x + rotated.width <= side
      && 0 <= o.y && o.y + rotated.height <= side
  {
  }

  /** A 100 x 100 image gets a 142 x 142 canvas and,
      unrotated, a 21-pixel margin on each side. */
  lemma HundredSquareCanvas()
    ensures CanvasSide(Size(100, 100)) == 142
    ensures CenterOffset(142, Size(100, 100)) == Offset(21, 21)
  {
    assert 142 * 142 == 20164;
    assert 141 * 141 == 19881;
    CeilSqrtUnique(20000, 142);
  }
}

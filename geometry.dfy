/** The frame geometry of `renderActiveImage` with its helpers
    `getHeightRatio` and `round`, on exact real arithmetic. */
module Geometry {

  const PaddingMin: int := 1
  const PaddingMax: int := 5
  /** The on-screen width of the canvas, in CSS pixels. */
  const CanvasWidth: int := 600
  /** Indexed by padding level minus one. */
  const PaddingModifiers: seq<int> := [-34, -21, -13, -8, -3]

  /** The levels the padding slider allows. */
  predicate ValidPadding(p: int)
  {
    PaddingMin <= p <= PaddingMax
  }

  /** `Math.round(x)`: the nearest integer, halves rounded up. */
  function MathRound(x: real): (n: int)
    ensures x - 0.5 < n as real <= x + 0.5
  {
    (x + 0.5).Floor
  }

  /** The integer within half a unit of x (ties up) is `Math.round(x)`. */
  lemma MathRoundUnique(x: real, n: int)
    requires x - 0.5 < n as real <= x + 0.5
    ensures MathRound(x) == n
  {
    var m := MathRound(x);
    assert m as real - n as real < 1.0 && n as real - m as real < 1.0;
  }

  /** `Math.round` is monotone. */
  lemma MathRoundMonotone(x: real, y: real)
    requires x <= y
    ensures MathRound(x) <= MathRound(y)
  {
  }

  /** `round(number)`: keep two decimals, rounding half up. */
  function Round2(x: real): (r: real)
    ensures x - 0.005 < r <= x + 0.005
    ensures (r * 100.0).Floor as real == r * 100.0
  {
    MathRound(x * 100.0) as real / 100.0
  }

  /** `getHeightRatio(width, height)`: height over width, to two decimals. */
  function HeightRatio(w: nat, h: nat): (r: real)
    requires w > 0
    ensures r >= 0.0
    ensures h as real / w as real - 0.005 < r <= h as real / w as real + 0.005
  {
    Round2(h as real / w as real)
  }

  /** Multiplying by a positive factor preserves strict order. */
  lemma MulStrict(a: real, b: real, c: real)
    requires a > 0.0 && b < c
    ensures a * b < a * c
  {
  }

  /** Multiplying by a non-negative factor preserves order. */
  lemma MulMono(a: real, b: real, c: real)
    requires a >= 0.0 && b <= c
    ensures a * b <= a * c
  {
  }

  /** For positive h and m, `h / m` is below h exactly when m exceeds one. */
  lemma QuotientBelow(h: real, m: real)
    requires h > 0.0 && m > 0.0
    ensures h / m > 0.0
    ensures h / m < h <==> m > 1.0
  {
    var y := h / m;
    assert y * m == h;
    assert y > 0.0;
    if m > 1.0 {
      MulStrict(y, 1.0, m);
    } else if y < h {
      MulStrict(m, y, h);
      assert m * h <= 1.0 * h by {
        assert m <= 1.0;
      }
    }
  }

  /** `h / w >= 0.005` exactly when `200 * h >= w`. */
  lemma RatioThreshold(w: nat, h: nat)
    requires w > 0
    ensures h as real / w as real >= 0.005 <==> 200 * h >= w
  {
    var x := h as real / w as real;
    var wr := w as real;
    assert wr * x == h as real;
    if x < 0.005 {
      MulStrict(wr, x, 0.005);
      assert h as real < wr * 0.005;
      assert (200 * h) as real < wr;
    } else {
      MulMono(wr, 0.005, x);
      assert wr * 0.005 <= h as real;
      assert (200 * h) as real >= wr;
    }
  }

  /** The height ratio is zero exactly for images more than 200 times wider
      than tall; only then does the y inset divide by zero. */
  lemma HeightRatioPositive(w: nat, h: nat)
    requires w > 0
    ensures HeightRatio(w, h) > 0.0 <==> 200 * h >= w
  {
    var x := h as real / w as real;
    var n := MathRound(x * 100.0);
    assert HeightRatio(w, h) == n as real / 100.0;
    assert HeightRatio(w, h) > 0.0 <==> n >= 1;
    assert n >= 1 <==> x >= 0.005;
    RatioThreshold(w, h);
  }

  /** `PADDING_MAX - paddingModifier`: the common divisor of both insets. */
  function Divisor(p: int): (d: int)
    requires ValidPadding(p)
    ensures d in {39, 26, 18, 13, 8}
    ensures d >= 8
  {
    PaddingMax - PaddingModifiers[p - 1]
  }

  /** A higher padding level gives a strictly smaller divisor. */
  lemma DivisorDecreasing(p: int, q: int)
    requires ValidPadding(p) && ValidPadding(q) && p < q
    ensures Divisor(q) < Divisor(p)
  {
  }

  /** `paddingX = naturalWidth / xMod` with `xMod = 1 * divisor`. */
  function PaddingX(w: nat, p: int): (r: real)
    requires ValidPadding(p)
    ensures w > 0 ==> 0.0 < r < w as real
    ensures r * Divisor(p) as real == w as real
  {
    w as real / (1.0 * Divisor(p) as real)
  }

  /** Dividing a positive amount by a larger divisor gives less. */
  lemma DivideByLarger(a: real, b: real, c: real)
    requires a > 0.0 && 0.0 < b < c
    ensures a / c < a / b
  {
    var u, v := a / b, a / c;
    assert u * b == a && v * c == a;
    assert v > 0.0;
    assert v * b < v * c;
    assert v * b < u * b;
  }

  /** In this code a higher padding level gives a LARGER x inset. */
  lemma PaddingXIncreasing(w: nat, p: int, q: int)
    requires w > 0 && ValidPadding(p) && ValidPadding(q) && p < q
    ensures PaddingX(w, p) < PaddingX(w, q)
  {
    DivisorDecreasing(p, q);
    DivideByLarger(w as real, Divisor(q) as real, Divisor(p) as real);
  }

  /** `paddingY = naturalHeight / yMod` with `yMod = heightRatio * divisor`. */
  function PaddingY(w: nat, h: nat, p: int): (r: real)
    requires w > 0 && ValidPadding(p) && HeightRatio(w, h) > 0.0
    ensures h > 0 ==> r > 0.0
    ensures r * (HeightRatio(w, h) * Divisor(p) as real) == h as real
  {
    h as real / (HeightRatio(w, h) * Divisor(p) as real)
  }

  /** The y inset stays below the height exactly when `heightRatio * divisor`
      exceeds one; a very wide image gets a y inset larger than itself. */
  lemma PaddingYBelowHeight(w: nat, h: nat, p: int)
    requires w > 0 && h > 0 && ValidPadding(p) && HeightRatio(w, h) > 0.0
    ensures PaddingY(w, h, p) < h as real <==> HeightRatio(w, h) * Divisor(p) as real > 1.0
  {
    QuotientBelow(h as real, HeightRatio(w, h) * Divisor(p) as real);
  }

  /** When the height ratio is exact (no more than two decimals), the two
      insets are equal: the border has the same width on every side. */
  lemma UniformBorder(w: nat, h: nat, p: int)
    requires w > 0 && h > 0 && ValidPadding(p)
    requires HeightRatio(w, h) == h as real / w as real
    ensures PaddingY(w, h, p) == PaddingX(w, p)
  {
    var d := Divisor(p) as real;
    var x := PaddingX(w, p);
    var y := PaddingY(w, h, p);
    var ratio := h as real / w as real;
    assert ratio * w as real == h as real;
    assert y * (ratio * d) == h as real;
    assert x * d == w as real;
    assert (x * d) * ratio == h as real;
    assert y * (ratio * d) == x * (ratio * d);
  }

  /** A rectangle `(x, y, width, height)` on the canvas, in canvas pixels. */
  datatype Rect = Rect(x: real, y: real, width: real, height: real)

  /** Everything `renderActiveImage` sets for one image: the pixel buffer
      size, the CSS display size, the background fill and the image's
      destination rectangle. */
  datatype Frame = Frame(
    canvasWidth: nat, canvasHeight: nat,
    styleWidth: int, styleHeight: int,
    fill: Rect, draw: Rect)

  /** Images the geometry is defined for: the source divides by the width
      and by the height ratio. */
  predicate Renderable(w: nat, h: nat)
  {
    w > 0 && HeightRatio(w, h) > 0.0
  }

  /** The frame for a `w` x `h` image at padding level `p`. */
  function FrameLayout(w: nat, h: nat, p: int): (f: Frame)
    requires Renderable(w, h) && ValidPadding(p)
    ensures f.canvasWidth == w && f.canvasHeight == h
    ensures f.styleWidth == CanvasWidth
    ensures f.fill == Rect(0.0, 0.0, w as real, h as real)
    // the image is centred in the fill on both axes
    ensures f.draw.x + f.draw.width + f.draw.x == f.fill.width
    ensures f.draw.y + f.draw.height + f.draw.y == f.fill.height
    // it keeps a border of positive width on every side
    ensures 0.0 < f.draw.x && 0.0 < f.draw.width
    ensures 0.0 < f.draw.y
    // the border on each axis is half of that axis's inset
    ensures f.draw.x == PaddingX(w, p) / 2.0
    ensures f.draw.y == PaddingY(w, h, p) / 2.0
    ensures f.draw.height > 0.0 <==> HeightRatio(w, h) * Divisor(p) as real > 1.0
  {
    HeightRatioPositive(w, h);
    PaddingYBelowHeight(w, h, p);
    var px := PaddingX(w, p);
    var py := PaddingY(w, h, p);
    Frame(w, h, CanvasWidth, MathRound(CanvasWidth as real * HeightRatio(w, h)),
          Rect(0.0, 0.0, w as real, h as real),
          Rect(px / 2.0, py / 2.0, w as real - px, h as real - py))
  }

  /** The display height is six times the rounded percentage height/width:
      `Math.round` is exact on `600 * round(h / w)`. */
  lemma DisplayHeightExact(w: nat, h: nat, p: int)
    requires Renderable(w, h) && ValidPadding(p)
    ensures FrameLayout(w, h, p).styleHeight == 6 * MathRound(h as real / w as real * 100.0)
  {
    var n := MathRound(h as real / w as real * 100.0);
    assert CanvasWidth as real * HeightRatio(w, h) == (6 * n) as real;
    MathRoundUnique((6 * n) as real, 6 * n);
  }

  /** The display keeps the image's proportions to within three CSS pixels. */
  lemma DisplayHeightProportional(w: nat, h: nat, p: int)
    requires Renderable(w, h) && ValidPadding(p)
    ensures var exact := 600.0 * (h as real / w as real);
      exact - 3.0 < FrameLayout(w, h, p).styleHeight as real <= exact + 3.0
  {
    DisplayHeightExact(w, h, p);
    var x := h as real / w as real;
    var n := MathRound(x * 100.0);
    assert x * 100.0 - 0.5 < n as real <= x * 100.0 + 0.5;
    assert FrameLayout(w, h, p).styleHeight as real == 6.0 * n as real;
  }

  /** Raising the padding level shrinks the drawn image on both axes. */
  lemma HigherLevelSmallerImage(w: nat, h: nat, p: int, q: int)
    requires Renderable(w, h) && ValidPadding(p) && ValidPadding(q) && p < q
    ensures FrameLayout(w, h, q).draw.width < FrameLayout(w, h, p).draw.width
    ensures FrameLayout(w, h, q).draw.height < FrameLayout(w, h, p).draw.height
  {
    PaddingXIncreasing(w, p, q);
    DivisorDecreasing(p, q);
    HeightRatioPositive(w, h);
    var ratio := HeightRatio(w, h);
    DivideByLarger(h as real, ratio * Divisor(q) as real, ratio * Divisor(p) as real);
  }

  /** A 1200 x 1800 portrait at level 1: a border of 1200/78 pixels on every
      side, around an image drawn 1200 - 1200/39 by 1800 - 1200/39. */
  lemma PortraitScenario()
    ensures FrameLayout(1200, 1800, 1).draw
         == Rect(1200.0 / 78.0, 1200.0 / 78.0, 1200.0 - 1200.0 / 39.0, 1800.0 - 1200.0 / 39.0)
  {
    MathRoundUnique(1800.0 / 1200.0 * 100.0, 150);
    assert HeightRatio(1200, 1800) == 1.5;
  }

  /** A 1000 x 10 panorama at level 1 has a height ratio of 0.01, so its y
      inset (10 / 0.39) exceeds its height and the drawn height is negative. */
  lemma PanoramaCollapses()
    ensures Renderable(1000, 10)
    ensures FrameLayout(1000, 10, 1).draw.height < 0.0
  {
    MathRoundUnique(10.0 / 1000.0 * 100.0, 1);
    assert HeightRatio(1000, 10) == 0.01;
  }

  /** A 3937 x 100 image is more than 39 times wider than tall, yet at
      level 1 it keeps a positive drawn height: its ratio rounds up to 0.03,
      and 0.03 * 39 exceeds one. */
  lemma RoundingUpKeepsHeight()
    ensures Renderable(3937, 100)
    ensures FrameLayout(3937, 100, 1).draw.height > 0.0
  {
    MathRoundUnique(100.0 / 3937.0 * 100.0, 3);
    assert HeightRatio(3937, 100) == 0.03;
  }
}

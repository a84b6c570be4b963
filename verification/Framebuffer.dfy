/** The drawing half of kernel/src/desktop/compositor.ts: clipped, alpha-blended rectangles over a byte
    buffer of RGBA pixels.

    Coordinates are unbounded integers and `| 0` is modelled as the wrap to 32 bits it is.  Alpha is an
    exact fraction, so blending has no rounding but the final truncation.
 */
module Framebuffer {
  import opened Wrappers
  import opened Word32
  import Crc32
  import Png

  datatype Color = Color(r: byte, g: byte, b: byte)

  datatype Pixel = Pixel(r: byte, g: byte, b: byte, a: byte)

  /** The fraction num / den. */
  datatype Alpha = Alpha(num: int, den: int)

  predicate Proper(a: Alpha) {
    a.den > 0
  }

  const OPAQUE := Alpha(1, 1)

  const TWO_31 := 0x8000_0000
  const TWO_32 := 0x1_0000_0000

  predicate Fits32(n: int) {
    -TWO_31 <= n < TWO_31
  }

  /** `n | 0` */
  function ToInt32(n: int): (r: int)
    ensures Fits32(r) && (Fits32(n) ==> r == n)
  {
    (n + TWO_31) % TWO_32 - TWO_31
  }

  function One(b: bool): nat {
    if b then 1 else 0
  }

  // ----- one pixel -----

  /** a.den times c * a + p * (1 - a). */
  function Mix(c: byte, p: byte, a: Alpha): int {
    c * a.num + p * (a.den - a.num)
  }

  lemma Mixed(c: byte, p: byte, a: Alpha)
    requires 0 < a.num < a.den
    ensures Min(c, p) * a.den <= Mix(c, p, a) <= Max(c, p) * a.den
  {
    if c <= p {
      assert (p - c) * a.num >= 0 && (p - c) * (a.den - a.num) >= 0;
    } else {
      assert (c - p) * a.num >= 0 && (c - p) * (a.den - a.num) >= 0;
    }
  }

  lemma MixGrows(c: byte, p: byte, a: Alpha, b: Alpha)
    requires 0 < a.num <= b.num < b.den && a.den == b.den
    ensures p <= c ==> Mix(c, p, a) <= Mix(c, p, b)
    ensures p >= c ==> Mix(c, p, a) >= Mix(c, p, b)
  {
    assert Mix(c, p, b) - Mix(c, p, a) == (c - p) * (b.num - a.num);
  }

  lemma TimesCancels(d: int, a: int, b: int)
    requires d > 0 && a * d < b * d
    ensures a < b
  {
    assert (b - a) * d > 0;
  }

  lemma DivBounds(lo: int, n: int, hi: int, d: int)
    requires d > 0 && lo * d <= n <= hi * d
    ensures lo <= n / d <= hi
  {
    var q, r := n / d, n % d;
    assert n == q * d + r && 0 <= r < d;
    assert (q + 1) * d == q * d + d && (hi + 1) * d == hi * d + d;
    TimesCancels(d, lo, q + 1);
    TimesCancels(d, q, hi + 1);
  }

  lemma QuotientIs(p: int, d: int, i: int)
    requires d > 0
    ensures p / d == i <==> i * d <= p < i * d + d
  {
    var q := p / d;
    assert p == q * d + p % d;
    if q == i {
      assert p == i * d + p % d;
    }
    if i * d <= p < i * d + d {
      assert (q + 1) * d == q * d + d && (i + 1) * d == i * d + d;
      TimesCancels(d, i, q + 1);
      TimesCancels(d, q, i + 1);
    }
  }

  /** One channel: the greatest whole number not above c * a + p * (1 - a), which lies between the old
      value and the colour. */
  function BlendChannel(c: byte, p: byte, a: Alpha): (r: byte)
    requires 0 < a.num < a.den
    ensures Min(c, p) <= r <= Max(c, p)
    ensures r * a.den <= Mix(c, p, a) < r * a.den + a.den
  {
    Mixed(c, p, a);
    DivBounds(Min(c, p), Mix(c, p, a), Max(c, p), a.den);
    QuotientIs(Mix(c, p, a), a.den, Mix(c, p, a) / a.den);
    Mix(c, p, a) / a.den
  }

  /** A stronger blend of the same colour ends no farther from it. */
  lemma StrongerIsNearer(c: byte, p: byte, a: Alpha, b: Alpha)
    requires 0 < a.num <= b.num < b.den && a.den == b.den
    ensures p <= c ==> p <= BlendChannel(c, p, a) <= BlendChannel(c, p, b) <= c
    ensures p >= c ==> p >= BlendChannel(c, p, a) >= BlendChannel(c, p, b) >= c
  {
    MixGrows(c, p, a, b);
    if p <= c { DivMonotone(Mix(c, p, a), Mix(c, p, b), a.den); }
    if p >= c { DivMonotone(Mix(c, p, b), Mix(c, p, a), a.den); }
  }

  function Solid(c: Color): Pixel {
    Pixel(c.r, c.g, c.b, 255)
  }

  function BlendPixel(p: Pixel, c: Color, a: Alpha): Pixel
    requires Proper(a)
  {
    if a.num <= 0 then p
    else if a.num >= a.den then Solid(c)
    else Pixel(BlendChannel(c.r, p.r, a), BlendChannel(c.g, p.g, a), BlendChannel(c.b, p.b, a), 255)
  }

  /** c is num / den of the way from p to the colour q, rounded down. */
  predicate IsMixed(c: byte, p: byte, q: byte, num: int, den: int) {
    c * den <= q * num + p * (den - num) < c * den + den
  }

  /** A blended pixel is opaque, and each channel is mixed from that channel of the pixel and of the
      colour; nothing happens at alpha 0 or below, and at alpha 1 or above the colour replaces the pixel. */
  lemma BlendIsExact(p: Pixel, c: Color, a: Alpha)
    requires Proper(a)
    ensures var r := BlendPixel(p, c, a);
            if a.num <= 0 then r == p
            else if a.num >= a.den then r == Pixel(c.r, c.g, c.b, 255)
            else
              && r.a == 255 && IsMixed(r.r, p.r, c.r, a.num, a.den)
              && IsMixed(r.g, p.g, c.g, a.num, a.den) && IsMixed(r.b, p.b, c.b, a.num, a.den)
  {}

  function BlendTimes(n: nat, p: Pixel, c: Color, a: Alpha): Pixel
    requires Proper(a)
  {
    if n == 0 then p else BlendPixel(BlendTimes(n - 1, p, c, a), c, a)
  }

  /** After k blends of start, one more or none. */
  lemma BlendOnceMore(n: nat, k: nat, before: Pixel, after: Pixel, start: Pixel, c: Color, a: Alpha)
    requires Proper(a) && n <= 1 && before == BlendTimes(k, start, c, a)
    requires after == if n == 1 then BlendPixel(before, c, a) else before
    ensures after == BlendTimes(k + n, start, c, a)
  {}

  /** An opaque colour is not changed by blending it again. */
  lemma {:induction false} OpaqueBlendsOnce(n: nat, p: Pixel, c: Color, a: Alpha)
    requires Proper(a) && a.num >= a.den && n > 0
    ensures BlendTimes(n, p, c, a) == Solid(c)
  {
    assert a.num > 0;
  }

  // ----- the clipped span -----

  /** Coordinate p is painted by a rectangle side that starts at `from` and is `len` long. */
  predicate InSpan(p: int, from: int, len: int) {
    ToInt32(from) <= p < ToInt32(from + len)
  }

  lemma SpanIsExact(p: int, from: int, len: int)
    requires Fits32(from) && Fits32(from + len)
    ensures InSpan(p, from, len) <==> from <= p < from + len
  {}

  ghost predicate SpanExact(from: int, len: int) {
    forall p :: 0 <= p < TWO_31 ==> (InSpan(p, from, len) <==> from <= p < from + len)
  }

  /** The whole numbers from a up to b and those from c up to d are the same. */
  predicate SameRange(a: int, b: int, c: int, d: int) {
    (a >= b && c >= d) || (a == c && b == d)
  }

  /** A side is painted as asked, on every coordinate a screen can have, exactly when wrapping its ends
      to 32 bits does not change what lies on such coordinates.  A side that starts within 32 bits must
      also end there; a longer one is cut short or vanishes. */
  lemma SpanIsExactIff(from: int, len: int)
    ensures SpanExact(from, len)
       <==> SameRange(Max(0, ToInt32(from)), ToInt32(from + len), Max(0, from), Min(TWO_31, from + len))
    ensures Fits32(from) && len >= 0 ==> (SpanExact(from, len) <==> from + len < TWO_31)
  {
    var a, b, c, d := Max(0, ToInt32(from)), ToInt32(from + len), Max(0, from), Min(TWO_31, from + len);
    assert forall p :: 0 <= p < TWO_31 ==> (InSpan(p, from, len) <==> a <= p < b);
    if SpanExact(from, len) {
      assert forall p :: 0 <= p < TWO_31 ==> (InSpan(p, from, len) <==> c <= p < d);
      if a < b {
        assert InSpan(a, from, len) && InSpan(b - 1, from, len);
      }
      if c < d {
        assert InSpan(c, from, len) && InSpan(d - 1, from, len);
      }
    }
    if Fits32(from) && len >= 0 && from + len >= TWO_31 {
      assert !InSpan(TWO_31 - 1, from, len);
    }
  }

  // ----- the gradient -----

  /** The numerator of top + (bottom - top) * row / d over d. */
  function Numerator(top: byte, bottom: byte, d: int, row: int): int {
    top * d + (bottom - top) * row
  }

  function GradientChannel(top: byte, bottom: byte, h: int, row: int): (r: byte)
    requires 0 <= row < Max(1, h)
    ensures Min(top, bottom) <= r <= Max(top, bottom)
    ensures h > 1 ==> r * (h - 1) <= Numerator(top, bottom, h - 1, row) < r * (h - 1) + (h - 1)
  {
    if h <= 1 then top
    else
      GradientBounds(top, bottom, h - 1, row);
      QuotientIs(Numerator(top, bottom, h - 1, row), h - 1, Numerator(top, bottom, h - 1, row) / (h - 1));
      DivBounds(Min(top, bottom), Numerator(top, bottom, h - 1, row), Max(top, bottom), h - 1);
      Numerator(top, bottom, h - 1, row) / (h - 1)
  }

  lemma GradientBounds(top: byte, bottom: byte, d: int, row: int)
    requires 0 <= row <= d && d > 0
    ensures Min(top, bottom) * d <= Numerator(top, bottom, d, row) <= Max(top, bottom) * d
  {
    if top <= bottom {
      assert 0 <= (bottom - top) * row <= (bottom - top) * d;
    } else {
      assert 0 <= (top - bottom) * row <= (top - bottom) * d;
    }
  }

  function GradientColor(top: Color, bottom: Color, h: int, row: int): Color
    requires 0 <= row < Max(1, h)
  {
    Color(GradientChannel(top.r, bottom.r, h, row), GradientChannel(top.g, bottom.g, h, row),
          GradientChannel(top.b, bottom.b, h, row))
  }

  lemma DivMonotone(a: int, b: int, d: int)
    requires d > 0 && a <= b
    ensures a / d <= b / d
  {
    var q, r := a / d, b / d;
    assert a == q * d + a % d && b == r * d + b % d;
    assert (r + 1) * d == r * d + d;
    TimesCancels(d, q, r + 1);
  }

  /** The numerator of a gradient channel moves one way only. */
  lemma NumeratorIsMonotone(top: byte, bottom: byte, d: int, i: int, j: int)
    requires 0 <= i <= j <= d
    ensures top <= bottom ==> Numerator(top, bottom, d, i) <= Numerator(top, bottom, d, j)
    ensures top >= bottom ==> Numerator(top, bottom, d, i) >= Numerator(top, bottom, d, j)
  {
    assert (bottom - top) * j - (bottom - top) * i == (bottom - top) * (j - i);
  }

  /** Down the rows a channel moves one way only. */
  lemma GradientIsMonotone(top: byte, bottom: byte, h: int, i: int, j: int)
    requires 0 <= i <= j < Max(1, h)
    ensures top <= bottom ==> GradientChannel(top, bottom, h, i) <= GradientChannel(top, bottom, h, j)
    ensures top >= bottom ==> GradientChannel(top, bottom, h, i) >= GradientChannel(top, bottom, h, j)
  {
    if h > 1 {
      var d := h - 1;
      var a, b := Numerator(top, bottom, d, i), Numerator(top, bottom, d, j);
      NumeratorIsMonotone(top, bottom, d, i, j);
      assert GradientChannel(top, bottom, h, i) == a / d && GradientChannel(top, bottom, h, j) == b / d;
      if top <= bottom { DivMonotone(a, b, d); }
      if top >= bottom { DivMonotone(b, a, d); }
    }
  }

  /** It starts at exactly the top colour and, with more than one row, ends at exactly the bottom one. */
  lemma GradientEnds(top: byte, bottom: byte, h: int)
    ensures GradientChannel(top, bottom, h, 0) == top
    ensures h > 1 ==> GradientChannel(top, bottom, h, h - 1) == bottom
  {
    if h > 1 {
      var d := h - 1;
      assert Numerator(top, bottom, d, 0) == top * d && Numerator(top, bottom, d, d) == bottom * d;
      DivBounds(top, top * d, top, d);
      DivBounds(bottom, bottom * d, bottom, d);
    }
  }

  /** All three channels: the first row is the top colour, the last one the bottom colour. */
  lemma GradientColorEnds(top: Color, bottom: Color, h: int)
    ensures GradientColor(top, bottom, h, 0) == top
    ensures h > 1 ==> GradientColor(top, bottom, h, h - 1) == bottom
  {
    GradientEnds(top.r, bottom.r, h);
    GradientEnds(top.g, bottom.g, h);
    GradientEnds(top.b, bottom.b, h);
  }

  /** The last of the first n rows of a gradient at y that paints screen row p, or -1. */
  function LastRow(p: int, y: int, n: nat): (row: int)
    ensures -1 <= row < n
    ensures row >= 0 ==> InSpan(p, y + row, 1)
  {
    if n == 0 then -1 else if InSpan(p, y + n - 1, 1) then n - 1 else LastRow(p, y, n - 1)
  }

  /** A row that starts at `from` is one screen row after wrapping, unless it wraps to the last one. */
  lemma RowWraps(p: int, from: int)
    ensures InSpan(p, from, 1) <==> ToInt32(from) == p && p != TWO_31 - 1
  {}

  lemma WrapsTo(p: int, from: int)
    requires Fits32(p)
    ensures ToInt32(from) == p <==> (from - p) % TWO_32 == 0
  {}

  lemma SameRemainder(p: int, y: int, row: nat)
    ensures (y + row - p) % TWO_32 == 0 <==> row % TWO_32 == (p - y) % TWO_32
  {}

  /** The greatest number below n that leaves remainder r modulo 2^32, or -1. */
  function GreatestBelow(n: nat, r: nat): int {
    if n <= r then -1 else n - 1 - (n - 1 - r) % TWO_32
  }

  lemma GreatestBelowStep(n: nat, r: nat)
    requires n > 0 && r < TWO_32
    ensures GreatestBelow(n, r) == if (n - 1) % TWO_32 == r then n - 1 else GreatestBelow(n - 1, r)
  {
    var m := n - 1;
    if m > r {
      assert m % TWO_32 == r <==> (m - r) % TWO_32 == 0;
      assert (m - r) % TWO_32 != 0 ==> (m - r) % TWO_32 == (m - r - 1) % TWO_32 + 1;
    } else if m < r {
      assert m % TWO_32 == m;
    }
  }

  lemma RowPaints(p: int, y: int, row: nat)
    requires Fits32(p) && p != TWO_31 - 1
    ensures InSpan(p, y + row, 1) <==> row % TWO_32 == (p - y) % TWO_32
  {
    RowWraps(p, y + row);
    WrapsTo(p, y + row);
    SameRemainder(p, y, row);
  }

  /** Rows repeat on screen every 2^32. */
  lemma {:induction false} LastRowIs(p: int, y: int, n: nat, r: nat)
    requires r == (p - y) % TWO_32
    ensures LastRow(p, y, n) == if Fits32(p) && p != TWO_31 - 1 then GreatestBelow(n, r) else -1
  {
    if n > 0 {
      LastRowIs(p, y, n - 1, r);
      if Fits32(p) && p != TWO_31 - 1 {
        RowPaints(p, y, n - 1);
        GreatestBelowStep(n, r);
      } else {
        RowWraps(p, y + n - 1);
      }
    }
  }

  /** Of all the rows that fall on a screen row the last one counts, and they are 2^32 apart; within 32
      bits there is one at most, and it is the distance from y. */
  lemma LastRowIsDistance(p: int, y: int, n: nat)
    ensures LastRow(p, y, n)
         == if Fits32(p) && p != TWO_31 - 1 then GreatestBelow(n, (p - y) % TWO_32) else -1
    ensures Fits32(y) && Fits32(y + n) ==> LastRow(p, y, n) == if y <= p < y + n then p - y else -1
  {
    LastRowIs(p, y, n, (p - y) % TWO_32);
    if Fits32(y) && Fits32(y + n) {
      LastRowWithin32(p, y, n);
    }
  }

  lemma {:induction false} LastRowWithin32(p: int, y: int, n: nat)
    requires Fits32(y) && Fits32(y + n)
    ensures LastRow(p, y, n) == if y <= p < y + n then p - y else -1
  {
    if n > 0 {
      SpanIsExact(p, y + n - 1, 1);
      LastRowWithin32(p, y, n - 1);
    }
  }

  // ----- the rounded corners -----

  /** The pixels of a w by h rectangle that `roundRect` does not skip. */
  predicate InRounded(xx: int, yy: int, w: int, h: int, r: int) {
    var left, right, upper, lower := xx < r, xx >= w - r, yy < r, yy >= h - r;
    var corner := (left || right) && (upper || lower);
    var dx := if left then r - 1 - xx else xx - (w - r);
    var dy := if upper then r - 1 - yy else yy - (h - r);
    !corner || dx < 0 || dx * dx + dy * dy <= r * r
  }

  /** The shape is its own mirror image, left to right in every column that is not within r of both
      sides and top to bottom in every such row; and turning the rectangle over its diagonal turns the
      shape.  With 2 * r at most the width and the height there are no other columns and rows. */
  lemma RoundedIsSymmetric(xx: int, yy: int, w: int, h: int, r: int)
    ensures !(w - r <= xx < r) ==> InRounded(w - 1 - xx, yy, w, h, r) == InRounded(xx, yy, w, h, r)
    ensures !(h - r <= yy < r) ==> InRounded(xx, h - 1 - yy, w, h, r) == InRounded(xx, yy, w, h, r)
    ensures InRounded(yy, xx, h, w, r) == InRounded(xx, yy, w, h, r)
  {}

  predicate Near(xx: int, yy: int, cx: int, cy: int, r: int) {
    (xx - cx) * (xx - cx) + (yy - cy) * (yy - cy) <= r * r
  }

  function Nearest(lo: int, hi: int, v: int): int {
    if v < lo then lo else if v > hi then hi else v
  }

  lemma SquareBound(d: int, r: int)
    requires -r <= d <= r
    ensures 0 <= d * d <= r * r
  {}

  lemma SquaresGrow(d: int, e: int)
    requires 0 <= d <= e || e <= d <= 0
    ensures d * d <= e * e
  {}

  /** A pixel of the rectangle is kept exactly when it is within r of the nearest point of the rectangle
      shrunk by the corners, whose own corners are the centres of the arcs. */
  lemma RoundedIsNear(xx: int, yy: int, w: int, h: int, r: int)
    requires 0 <= xx < w && 0 <= yy < h && r >= 1 && 2 * r <= w && 2 * r <= h
    ensures InRounded(xx, yy, w, h, r)
       <==> Near(xx, yy, Nearest(r - 1, w - r, xx), Nearest(r - 1, h - r, yy), r)
  {
    var dx, dy := xx - Nearest(r - 1, w - r, xx), yy - Nearest(r - 1, h - r, yy);
    assert -r <= dx <= r && -r <= dy <= r;
    SquareBound(dx, r);
    SquareBound(dy, r);
    assert dx * dx == (-dx) * (-dx) && dy * dy == (-dy) * (-dy);
  }

  lemma NearestIsNear(lo: int, hi: int, v: int, c: int)
    requires lo <= c <= hi
    ensures (v - Nearest(lo, hi, v)) * (v - Nearest(lo, hi, v)) <= (v - c) * (v - c)
  {
    SquaresGrow(v - Nearest(lo, hi, v), v - c);
  }

  ghost predicate InDilation(xx: int, yy: int, w: int, h: int, r: int) {
    exists cx, cy :: r - 1 <= cx <= w - r && r - 1 <= cy <= h - r && Near(xx, yy, cx, cy, r)
  }

  /** The rounded shape is what a disc of radius r covers when its centre goes over the rectangle shrunk
      by the corners: the rectangle with its corners cut to arcs. */
  lemma RoundedIsDilation(xx: int, yy: int, w: int, h: int, r: int)
    requires 0 <= xx < w && 0 <= yy < h && r >= 1 && 2 * r <= w && 2 * r <= h
    ensures InRounded(xx, yy, w, h, r) <==> InDilation(xx, yy, w, h, r)
  {
    var nx, ny := Nearest(r - 1, w - r, xx), Nearest(r - 1, h - r, yy);
    RoundedIsNear(xx, yy, w, h, r);
    if InDilation(xx, yy, w, h, r) {
      var cx, cy :| r - 1 <= cx <= w - r && r - 1 <= cy <= h - r && Near(xx, yy, cx, cy, r);
      NearestIsNear(r - 1, w - r, xx, cx);
      NearestIsNear(r - 1, h - r, yy, cy);
    }
  }

  /** Where left and right corners overlap the left one wins, and the mirror image may be lost. */
  lemma OverlapIsLopsided()
    ensures !InRounded(0, 0, 5, 10, 5) && InRounded(4, 0, 5, 10, 5)
  {}

  // ----- the buffer -----

  lemma RowsBefore(w: nat, y: nat, y': nat)
    requires y < y'
    ensures 0 <= y * w && y * w + w <= y' * w
  {
    assert y' * w - (y * w + w) == (y' - y - 1) * w;
  }

  class Buffer {
    const w: nat
    const h: nat
    const px: array<byte>

    predicate Valid() {
      px.Length == w * h * 4
    }

    predicate Inside(x: int, y: int) {
      0 <= x < w && 0 <= y < h
    }

    /** The first byte of a pixel. */
    function Offset(x: int, y: int): int {
      (y * w + x) * 4
    }

    lemma OffsetInRange(x: int, y: int)
      requires Valid() && Inside(x, y)
      ensures 0 <= Offset(x, y) && Offset(x, y) + 4 <= px.Length
    {
      RowsBefore(w, y, h);
    }

    /** Different pixels share no byte. */
    lemma OffsetsDiffer(x: int, y: int, x': int, y': int)
      requires Inside(x, y) && Inside(x', y') && (x != x' || y != y')
      ensures Offset(x, y) + 4 <= Offset(x', y') || Offset(x', y') + 4 <= Offset(x, y)
    {
      if y < y' {
        RowsBefore(w, y, y');
      } else if y' < y {
        RowsBefore(w, y', y);
      }
    }

    function At(x: int, y: int): Pixel
      requires Valid() && Inside(x, y)
      reads px
    {
      OffsetInRange(x, y);
      var i := Offset(x, y);
      Pixel(px[i], px[i + 1], px[i + 2], px[i + 3])
    }

    constructor (w: nat, h: nat)
      ensures Valid() && fresh(px) && this.w == w && this.h == h
      ensures forall x, y :: Inside(x, y) ==> At(x, y) == Pixel(0, 0, 0, 0)
    {
      this.w, this.h := w, h;
      px := new byte[w * h * 4](_ => 0);
      new;
      forall x, y | Inside(x, y) ensures At(x, y) == Pixel(0, 0, 0, 0) {
        OffsetInRange(x, y);
      }
    }

    /** `blend`: nothing happens off screen or at alpha 0; otherwise exactly one pixel changes. */
    method Blend(x: int, y: int, c: Color, a: Alpha)
      requires Valid() && Proper(a)
      modifies px
      ensures forall x', y' :: Inside(x', y') ==>
        At(x', y') == if x' == x && y' == y then BlendPixel(old(At(x', y')), c, a) else old(At(x', y'))
    {
      if x < 0 || y < 0 || x >= w || y >= h || a.num <= 0 {
        return;
      }
      OffsetInRange(x, y);
      var i := (y * w + x) * 4;
      if a.num >= a.den {
        px[i], px[i + 1], px[i + 2], px[i + 3] := c.r, c.g, c.b, 255;
      } else {
        px[i] := BlendChannel(c.r, px[i], a);
        px[i + 1] := BlendChannel(c.g, px[i + 1], a);
        px[i + 2] := BlendChannel(c.b, px[i + 2], a);
        px[i + 3] := 255;
      }
      forall x', y' | Inside(x', y') && (x' != x || y' != y) ensures At(x', y') == old(At(x', y')) {
        OffsetInRange(x', y');
        OffsetsDiffer(x, y, x', y');
      }
    }

    /** `fillRect`: every pixel of the clipped rectangle is blended once, and no other is touched. */
    method FillRect(x: int, y: int, width: int, height: int, c: Color, a: Alpha)
      requires Valid() && Proper(a)
      modifies px
      ensures forall x', y' :: Inside(x', y') ==>
        At(x', y') == if InSpan(x', x, width) && InSpan(y', y, height) then BlendPixel(old(At(x', y')), c, a)
                      else old(At(x', y'))
    {
      var x0, y0 := Max(0, ToInt32(x)), Max(0, ToInt32(y));
      var x1, y1 := Min(w, ToInt32(x + width)), Min(h, ToInt32(y + height));
      var yy := y0;
      while yy < y1
        invariant y0 <= yy
        invariant forall x', y' :: Inside(x', y') ==>
          At(x', y') == if x0 <= x' < x1 && y0 <= y' < Min(yy, y1) then BlendPixel(old(At(x', y')), c, a)
                        else old(At(x', y'))
      {
        var xx := x0;
        while xx < x1
          invariant x0 <= xx
          invariant forall x', y' :: Inside(x', y') ==>
            At(x', y') == if (x0 <= x' < x1 && y0 <= y' < yy) || (x0 <= x' < Min(xx, x1) && y' == yy)
                          then BlendPixel(old(At(x', y')), c, a)
                          else old(At(x', y'))
        {
          Blend(xx, yy, c, a);
          xx := xx + 1;
        }
        yy := yy + 1;
      }
    }

    /** `vGradient`: a pixel takes the colour of the last gradient row painted over it. */
    method VGradient(x: int, y: int, width: int, height: int, top: Color, bottom: Color)
      requires Valid()
      modifies px
      ensures forall x', y' :: Inside(x', y') ==>
        At(x', y') == if InSpan(x', x, width) && LastRow(y', y, Max(0, height)) >= 0
                      then Solid(GradientColor(top, bottom, height, LastRow(y', y, Max(0, height))))
                      else old(At(x', y'))
    {
      PaintRows(x, y, width, Max(0, height),
                (row: nat) => if row < Max(1, height) then GradientColor(top, bottom, height, row) else top);
    }

    /** The loop of `vGradient`, over the colours of its rows. */
    method PaintRows(x: int, y: int, width: int, height: nat, color: nat -> Color)
      requires Valid()
      modifies px
      ensures forall x', y' :: Inside(x', y') ==>
        At(x', y') == if InSpan(x', x, width) && LastRow(y', y, height) >= 0
                      then Solid(color(LastRow(y', y, height))) else old(At(x', y'))
    {
      var yy := 0;
      while yy < height
        invariant 0 <= yy <= height
        invariant forall x', y' :: Inside(x', y') ==>
          At(x', y') == if InSpan(x', x, width) && LastRow(y', y, yy) >= 0
                        then Solid(color(LastRow(y', y, yy))) else old(At(x', y'))
      {
        FillRect(x, y + yy, width, 1, color(yy), OPAQUE);
        yy := yy + 1;
      }
    }

    /** `roundRect`: every pixel of the rounded shape is blended once, and no other is touched. */
    method RoundRect(x: int, y: int, width: int, height: int, r: int, c: Color, a: Alpha)
      requires Valid() && Proper(a)
      modifies px
      ensures forall x', y' :: Inside(x', y') ==>
        At(x', y') == if 0 <= x' - x < width && 0 <= y' - y < height
                         && InRounded(x' - x, y' - y, width, height, r)
                      then BlendPixel(old(At(x', y')), c, a) else old(At(x', y'))
    {
      var yy := 0;
      while yy < height
        invariant 0 <= yy
        invariant forall x', y' :: Inside(x', y') ==>
          At(x', y') == if 0 <= x' - x < width && 0 <= y' - y < Min(yy, height)
                           && InRounded(x' - x, y' - y, width, height, r)
                        then BlendPixel(old(At(x', y')), c, a) else old(At(x', y'))
      {
        var xx := 0;
        while xx < width
          invariant 0 <= xx
          invariant forall x', y' :: Inside(x', y') ==>
            At(x', y') == if 0 <= x' - x < width && 0 <= y' - y < height
                             && (y' - y < yy || (y' - y == yy && x' - x < xx))
                             && InRounded(x' - x, y' - y, width, height, r)
                          then BlendPixel(old(At(x', y')), c, a) else old(At(x', y'))
        {
          var dx, dy := -1, -1;
          if xx < r && yy < r {
            dx, dy := r - 1 - xx, r - 1 - yy;
          } else if xx >= width - r && yy < r {
            dx, dy := xx - (width - r), r - 1 - yy;
          } else if xx < r && yy >= height - r {
            dx, dy := r - 1 - xx, yy - (height - r);
          } else if xx >= width - r && yy >= height - r {
            dx, dy := xx - (width - r), yy - (height - r);
          }
          if !(dx >= 0 && dx * dx + dy * dy > r * r) {
            Blend(x + xx, y + yy, c, a);
          }
          xx := xx + 1;
        }
        yy := yy + 1;
      }
    }

    /** 1 for a pixel on one side of a stroked rectangle, 0 for others. */
    function OnSide(x: int, y: int, width: int, height: int, x': int, y': int): nat {
      if InSpan(x', x, width) && InSpan(y', y, height) then 1 else 0
    }

    /** How many of the four sides hold the pixel. */
    function Sides(x: int, y: int, width: int, height: int, x': int, y': int): nat {
      OnSide(x, y, width, 1, x', y') + OnSide(x, y + height - 1, width, 1, x', y')
      + OnSide(x, y, 1, height, x', y') + OnSide(x + width - 1, y, 1, height, x', y')
    }

    /** `strokeRect`: every pixel is blended once for each side that holds it. */
    method StrokeRect(x: int, y: int, width: int, height: int, c: Color, a: Alpha)
      requires Valid() && Proper(a)
      modifies px
      ensures forall x', y' :: Inside(x', y') ==>
        At(x', y') == BlendTimes(Sides(x, y, width, height, x', y'), old(At(x', y')), c, a)
    {
      FillRect(x, y, width, 1, c, a);
      label First:
      FillRect(x, y + height - 1, width, 1, c, a);
      label Second:
      FillRect(x, y, 1, height, c, a);
      label Third:
      FillRect(x + width - 1, y, 1, height, c, a);
      forall x', y' | Inside(x', y')
        ensures At(x', y') == BlendTimes(Sides(x, y, width, height, x', y'), old(At(x', y')), c, a)
      {
        var p0, p1, p2, p3 :=
          old(At(x', y')), old@First(At(x', y')), old@Second(At(x', y')), old@Third(At(x', y'));
        var n1 := OnSide(x, y, width, 1, x', y');
        var n2 := OnSide(x, y + height - 1, width, 1, x', y');
        var n3 := OnSide(x, y, 1, height, x', y');
        var n4 := OnSide(x + width - 1, y, 1, height, x', y');
        BlendOnceMore(n1, 0, p0, p1, p0, c, a);
        BlendOnceMore(n2, n1, p1, p2, p0, c, a);
        BlendOnceMore(n3, n1 + n2, p2, p3, p0, c, a);
        BlendOnceMore(n4, n1 + n2 + n3, p3, At(x', y'), p0, c, a);
      }
    }

    /** Within 32 bits, a pixel is blended once for each side it lies on, for every width and height:
        where two sides meet, and wherever the rectangle is one pixel wide or high, that is more than once. */
    lemma SidesMeet(x: int, y: int, width: int, height: int, x': int, y': int)
      requires Fits32(x) && Fits32(x + width - 1) && Fits32(x + width) && Fits32(x + 1)
      requires Fits32(y) && Fits32(y + height - 1) && Fits32(y + height) && Fits32(y + 1)
      ensures Sides(x, y, width, height, x', y')
           == (if x <= x' < x + width then One(y' == y) + One(y' == y + height - 1) else 0)
            + (if y <= y' < y + height then One(x' == x) + One(x' == x + width - 1) else 0)
    {}

    /** So inside a rectangle of positive width and height, a pixel is blended exactly once when it lies
        on exactly one of the four lines; the four corners never are, and with width or height 1 no
        pixel is. */
    lemma StrokedOnceIff(x: int, y: int, width: int, height: int, x': int, y': int)
      requires Fits32(x) && Fits32(x + width) && Fits32(y) && Fits32(y + height)
      requires x <= x' < x + width && y <= y' < y + height
      ensures var onX, onY := x' == x || x' == x + width - 1, y' == y || y' == y + height - 1;
              && (Sides(x, y, width, height, x', y') == 0 <==> !onX && !onY)
              && (Sides(x, y, width, height, x', y') == 1 <==> onX != onY && (onX ==> width > 1) && (onY ==> height > 1))
    {
      SidesMeet(x, y, width, height, x', y');
    }

    lemma SizeIsRight()
      requires Valid()
      ensures px.Length == Png.Size(w, h)
    {
      assert w * h * 4 == w * 4 * h;
    }

    /** `toPNG`: whatever undoes `deflate`, decoding the file gives back the pixels of the buffer. */
    method ToPng(table: array<bv32>, deflate: Png.bytes -> Png.bytes) returns (r: Png.Result<Png.bytes>)
      requires Valid() && Crc32.IsTable(table[..])
      ensures r.Ok? <==> Png.Encodable(deflate, w, h, px[..])
      ensures r.Ok? ==> Png.Saves(deflate, w, h, px[..], r.value)
    {
      r := Png.Encode(table, deflate, w, h, px[..]);
      SizeIsRight();
      if r.Ok? {
        Png.EncodedSaves(deflate, w, h, px[..]);
      }
    }
  }
}

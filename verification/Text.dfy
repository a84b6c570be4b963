/** `text` of kernel/src/desktop/compositor.ts: a string in the 3 by 5 bitmap font, every dot of a glyph
    drawn as a filled square.  The font table is a parameter, and the string is taken in upper case.
 */
module Text {
  import opened Wrappers
  import opened Word32
  import opened Framebuffer

  /** Five rows of three dots. */
  type Glyph = seq<string>

  predicate IsGlyph(g: Glyph) {
    |g| == 5 && forall r :: 0 <= r < 5 ==> |g[r]| == 3
  }

  predicate IsFont(font: map<char, Glyph>) {
    forall ch :: ch in font ==> IsGlyph(font[ch])
  }

  // ----- how often the squares hold a pixel -----

  /** Of the first n dots of a row that starts at (x, y), how many are drawn over pixel (x', y'). */
  function RowHits(row: string, n: nat, x: int, y: int, scale: int, x': int, y': int): nat
    requires n <= |row|
  {
    if n == 0 then 0
    else
      RowHits(row, n - 1, x, y, scale, x', y')
      + if row[n - 1] == '#' && InSpan(x', x + (n - 1) * scale, scale) && InSpan(y', y, scale) then 1 else 0
  }

  function GlyphHits(g: Glyph, n: nat, x: int, y: int, scale: int, x': int, y': int): nat
    requires IsGlyph(g) && n <= 5
  {
    if n == 0 then 0
    else GlyphHits(g, n - 1, x, y, scale, x', y') + RowHits(g[n - 1], 3, x, y + (n - 1) * scale, scale, x', y')
  }

  function CharHits(font: map<char, Glyph>, ch: char, x: int, y: int, scale: int, x': int, y': int): nat
    requires IsFont(font)
  {
    if ch in font then GlyphHits(font[ch], 5, x, y, scale, x', y') else 0
  }

  /** Of the first n characters, four dots apart. */
  function TextHits(font: map<char, Glyph>, s: string, n: nat, x: int, y: int, scale: int, x': int, y': int): nat
    requires IsFont(font) && n <= |s|
  {
    if n == 0 then 0
    else
      TextHits(font, s, n - 1, x, y, scale, x', y')
      + CharHits(font, s[n - 1], x + 4 * (n - 1) * scale, y, scale, x', y')
  }

  // ----- drawing -----

  lemma {:induction false} BlendTimesAdd(m: nat, n: nat, p: Pixel, c: Color, a: Alpha)
    requires Proper(a)
    ensures BlendTimes(m + n, p, c, a) == BlendTimes(n, BlendTimes(m, p, c, a), c, a)
  {
    if n > 0 {
      BlendTimesAdd(m, n - 1, p, c, a);
    }
  }

  method DrawRow(fb: Buffer, row: string, x: int, y: int, scale: int, c: Color, a: Alpha)
    requires fb.Valid() && Proper(a) && |row| == 3
    modifies fb.px
    ensures forall x', y' :: fb.Inside(x', y') ==>
      fb.At(x', y') == BlendTimes(RowHits(row, 3, x, y, scale, x', y'), old(fb.At(x', y')), c, a)
  {
    var col := 0;
    while col < 3
      invariant 0 <= col <= 3
      invariant forall x', y' :: fb.Inside(x', y') ==>
        fb.At(x', y') == BlendTimes(RowHits(row, col, x, y, scale, x', y'), old(fb.At(x', y')), c, a)
    {
      if row[col] == '#' {
        fb.FillRect(x + col * scale, y, scale, scale, c, a);
      }
      col := col + 1;
    }
  }

  method DrawGlyph(fb: Buffer, g: Glyph, x: int, y: int, scale: int, c: Color, a: Alpha)
    requires fb.Valid() && Proper(a) && IsGlyph(g)
    modifies fb.px
    ensures forall x', y' :: fb.Inside(x', y') ==>
      fb.At(x', y') == BlendTimes(GlyphHits(g, 5, x, y, scale, x', y'), old(fb.At(x', y')), c, a)
  {
    var r := 0;
    while r < 5
      invariant 0 <= r <= 5
      invariant forall x', y' :: fb.Inside(x', y') ==>
        fb.At(x', y') == BlendTimes(GlyphHits(g, r, x, y, scale, x', y'), old(fb.At(x', y')), c, a)
    {
      label Before:
      DrawRow(fb, g[r], x, y + r * scale, scale, c, a);
      forall x', y' | fb.Inside(x', y')
        ensures fb.At(x', y') == BlendTimes(GlyphHits(g, r + 1, x, y, scale, x', y'), old(fb.At(x', y')), c, a)
      {
        BlendTimesAdd(GlyphHits(g, r, x, y, scale, x', y'), RowHits(g[r], 3, x, y + r * scale, scale, x', y'),
                      old(fb.At(x', y')), c, a);
      }
      r := r + 1;
    }
  }

  /** `text`: a pixel is blended once for every square drawn over it. */
  method DrawText(fb: Buffer, font: map<char, Glyph>, s: string, x: int, y: int, scale: int, c: Color, a: Alpha)
    requires fb.Valid() && Proper(a) && IsFont(font)
    modifies fb.px
    ensures forall x', y' :: fb.Inside(x', y') ==>
      fb.At(x', y') == BlendTimes(TextHits(font, s, |s|, x, y, scale, x', y'), old(fb.At(x', y')), c, a)
  {
    var cx, k := x, 0;
    while k < |s|
      invariant 0 <= k <= |s| && cx == x + 4 * k * scale
      invariant forall x', y' :: fb.Inside(x', y') ==>
        fb.At(x', y') == BlendTimes(TextHits(font, s, k, x, y, scale, x', y'), old(fb.At(x', y')), c, a)
    {
      if s[k] in font {
        DrawGlyph(fb, font[s[k]], cx, y, scale, c, a);
      }
      forall x', y' | fb.Inside(x', y')
        ensures fb.At(x', y') == BlendTimes(TextHits(font, s, k + 1, x, y, scale, x', y'), old(fb.At(x', y')), c, a)
      {
        BlendTimesAdd(TextHits(font, s, k, x, y, scale, x', y'), CharHits(font, s[k], cx, y, scale, x', y'),
                      old(fb.At(x', y')), c, a);
      }
      assert 4 * (k + 1) * scale == 4 * k * scale + 4 * scale;
      cx := cx + 4 * scale;
      k := k + 1;
    }
  }

  // ----- what it shows -----

  /** Dot (col, row) of the text, read as one bitmap four dots a character and five rows high. */
  predicate Lit(font: map<char, Glyph>, s: string, col: int, row: int)
    requires IsFont(font)
  {
    && 0 <= col < 4 * |s| && 0 <= row < 5 && col % 4 < 3
    && s[col / 4] in font && font[s[col / 4]][row][col % 4] == '#'
  }

  /** Within 32 bits, square number i of a line of n holds the coordinates whose quotient is i. */
  lemma SquareHolds(p: int, from: int, scale: int, i: int, n: int)
    requires 0 <= i < n && scale > 0 && Fits32(from) && Fits32(from + n * scale)
    ensures InSpan(p, from + i * scale, scale) <==> (p - from) / scale == i
  {
    RowsBefore(scale, i, n);
    SpanIsExact(p, from + i * scale, scale);
    QuotientIs(p - from, scale, i);
  }

  /** The same for dot `col` of character k of a line of `len` characters. */
  lemma DotHolds(p: int, from: int, scale: int, k: nat, col: nat, len: nat)
    requires col < 3 && k < len && scale > 0 && Fits32(from) && Fits32(from + 4 * len * scale)
    ensures InSpan(p, from + 4 * k * scale + col * scale, scale) <==> (p - from) / scale - 4 * k == col
  {
    assert from + 4 * k * scale + col * scale == from + (4 * k + col) * scale;
    SquareHolds(p, from, scale, 4 * k + col, 4 * len);
  }

  lemma {:induction false} RowHitsIs(row: string, n: nat, k: nat, len: nat, x: int, y: int, scale: int, x': int, y': int)
    requires |row| == 3 && n <= 3 && k < len && scale > 0
    requires Fits32(x) && Fits32(x + 4 * len * scale)
    ensures var col := (x' - x) / scale - 4 * k;
            RowHits(row, n, x + 4 * k * scale, y, scale, x', y')
            == One(0 <= col < n && row[col] == '#' && InSpan(y', y, scale))
  {
    if n > 0 {
      RowHitsIs(row, n - 1, k, len, x, y, scale, x', y');
      DotHolds(x', x, scale, k, n - 1, len);
    }
  }

  lemma {:induction false} GlyphHitsIs(g: Glyph, n: nat, k: nat, len: nat, x: int, y: int, scale: int, x': int, y': int)
    requires IsGlyph(g) && n <= 5 && k < len && scale > 0
    requires Fits32(x) && Fits32(x + 4 * len * scale) && Fits32(y) && Fits32(y + 5 * scale)
    ensures var col, row := (x' - x) / scale - 4 * k, (y' - y) / scale;
            GlyphHits(g, n, x + 4 * k * scale, y, scale, x', y')
            == One(0 <= col < 3 && 0 <= row < n && g[row][col] == '#')
  {
    if n > 0 {
      GlyphHitsIs(g, n - 1, k, len, x, y, scale, x', y');
      RowHitsIs(g[n - 1], 3, k, len, x, y + (n - 1) * scale, scale, x', y');
      SquareHolds(y', y, scale, n - 1, 5);
    }
  }

  /** Every pixel is blended exactly once where the text's bitmap, scaled up, is lit, and not at all
      elsewhere: the squares neither overlap nor leave gaps, as long as the text fits into 32 bits.
      With a scale below 1 there is nothing to see. */
  lemma TextIsScaledBitmap(font: map<char, Glyph>, s: string, x: int, y: int, scale: int, x': int, y': int)
    requires IsFont(font)
    requires Fits32(x) && Fits32(x + 4 * |s| * scale) && Fits32(y) && Fits32(y + 5 * scale)
    ensures TextHits(font, s, |s|, x, y, scale, x', y')
         == One(scale > 0 && Lit(font, s, (x' - x) / scale, (y' - y) / scale))
  {
    if scale > 0 {
      TextHitsIs(font, s, |s|, x, y, scale, x', y');
    } else {
      NoTextHits(font, s, |s|, x, y, scale, x', y');
    }
  }

  lemma {:induction false} NoRowHits(row: string, n: nat, x: int, y: int, scale: int, x': int, y': int)
    requires n <= |row| && !InSpan(y', y, scale)
    ensures RowHits(row, n, x, y, scale, x', y') == 0
  {
    if n > 0 { NoRowHits(row, n - 1, x, y, scale, x', y'); }
  }

  lemma {:induction false} NoGlyphHits(g: Glyph, n: nat, x: int, y: int, scale: int, x': int, y': int)
    requires IsGlyph(g) && n <= 5 && scale <= 0 && Fits32(y) && Fits32(y + 5 * scale)
    ensures GlyphHits(g, n, x, y, scale, x', y') == 0
  {
    if n > 0 {
      NoGlyphHits(g, n - 1, x, y, scale, x', y');
      RowsBefore(-scale, n - 1, n);
      TimesMonotone(-scale, n, 5);
      assert (n - 1) * scale == -((n - 1) * -scale) && n * scale == -(n * -scale);
      SpanIsExact(y', y + (n - 1) * scale, scale);
      NoRowHits(g[n - 1], 3, x, y + (n - 1) * scale, scale, x', y');
    }
  }

  lemma {:induction false} NoTextHits(font: map<char, Glyph>, s: string, n: nat, x: int, y: int, scale: int, x': int, y': int)
    requires IsFont(font) && n <= |s| && scale <= 0 && Fits32(y) && Fits32(y + 5 * scale)
    ensures TextHits(font, s, n, x, y, scale, x', y') == 0
  {
    if n > 0 {
      NoTextHits(font, s, n - 1, x, y, scale, x', y');
      if s[n - 1] in font {
        NoGlyphHits(font[s[n - 1]], 5, x + 4 * (n - 1) * scale, y, scale, x', y');
      }
    }
  }

  lemma {:induction false} TextHitsIs(font: map<char, Glyph>, s: string, n: nat, x: int, y: int, scale: int, x': int, y': int)
    requires IsFont(font) && n <= |s| && scale > 0
    requires Fits32(x) && Fits32(x + 4 * |s| * scale) && Fits32(y) && Fits32(y + 5 * scale)
    ensures var col, row := (x' - x) / scale, (y' - y) / scale;
            TextHits(font, s, n, x, y, scale, x', y') == One(col < 4 * n && Lit(font, s, col, row))
  {
    if n > 0 {
      TextHitsIs(font, s, n - 1, x, y, scale, x', y');
      if s[n - 1] in font {
        GlyphHitsIs(font[s[n - 1]], 5, n - 1, |s|, x, y, scale, x', y');
      }
    }
  }
}

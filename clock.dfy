/** Clock: the time as "H:MM" or "HH:MM" in a 5x7 bitmap font, scaled,
    centred, drawn over a one-pixel drop shadow, swelling and brightening
    with the beat. */
module ClockEffect {
  import opened Pixels
  import opened Framebuffers
  import opened Plotting
  import Audio

  /** The font: digits 0-9 and, at index 10, the colon. Each glyph is seven
      rows; bit 4 of a row is its leftmost pixel, bit 0 its rightmost. */
  const Font: seq<seq<bv8>> := [
    [0x0E, 0x11, 0x11, 0x11, 0x11, 0x11, 0x0E],
    [0x04, 0x0C, 0x04, 0x04, 0x04, 0x04, 0x0E],
    [0x0E, 0x11, 0x01, 0x06, 0x08, 0x10, 0x1F],
    [0x0E, 0x11, 0x01, 0x06, 0x01, 0x11, 0x0E],
    [0x02, 0x06, 0x0A, 0x12, 0x1F, 0x02, 0x02],
    [0x1F, 0x10, 0x1E, 0x01, 0x01, 0x11, 0x0E],
    [0x0E, 0x10, 0x10, 0x1E, 0x11, 0x11, 0x0E],
    [0x1F, 0x01, 0x02, 0x04, 0x08, 0x08, 0x08],
    [0x0E, 0x11, 0x11, 0x0E, 0x11, 0x11, 0x0E],
    [0x0E, 0x11, 0x11, 0x0F, 0x01, 0x02, 0x0C],
    [0x00, 0x00, 0x04, 0x00, 0x04, 0x00, 0x00]
  ]

  const Colon: int := 10

  /** Whether pixel (col, row) of glyph g is set: bits & (0x10 >> col). */
  predicate Lit(g: int, row: int, col: int)
    requires 0 <= g <= Colon && 0 <= row < 7 && 0 <= col < 5
  {
    Font[g][row] & (0x10 >> col) != 0
  }

  /** The colon is two dots in the middle column, on rows 2 and 4. */
  lemma ColonDots(row: int, col: int)
    requires 0 <= row < 7 && 0 <= col < 5
    ensures Lit(Colon, row, col) <==> col == 2 && (row == 2 || row == 4)
  {
  }

  /** The points (px, py) .. (px + n - 1, py) of one scaled row, left to right. */
  function Span(px: int, py: int, n: int): seq<Point>
    decreases n
  {
    if n <= 0 then [] else Span(px, py, n - 1) + [(px + n - 1, py)]
  }

  /** The first k rows of the s by s block whose top-left corner is (left, top). */
  function BlockRows(left: int, top: int, s: int, k: int): seq<Point>
    decreases k
  {
    if k <= 0 then [] else BlockRows(left, top, s, k - 1) + Span(left, top + k - 1, s)
  }

  /** The blocks of the lit pixels among the first c columns of glyph row `row`. */
  function RowCells(g: int, row: int, x: int, y: int, s: int, c: int): seq<Point>
    requires 0 <= g <= Colon && 0 <= row < 7 && c <= 5
    decreases c
  {
    if c <= 0 then []
    else
      RowCells(g, row, x, y, s, c - 1) + CellBlock(g, row, c - 1, x, y, s)
  }

  /** The s by s block of column c of glyph row `row`, if that pixel is lit. */
  function CellBlock(g: int, row: int, c: int, x: int, y: int, s: int): seq<Point>
    requires 0 <= g <= Colon && 0 <= row < 7 && 0 <= c < 5
  {
    LitBlock(Lit(g, row, c), x + c * s, y + row * s, s)
  }

  /** The s by s block at (left, top) when lit, nothing otherwise. */
  function LitBlock(lit: bool, left: int, top: int, s: int): seq<Point>
  {
    if lit then BlockRows(left, top, s, s) else []
  }

  /** The blocks of the lit pixels of each of the seven rows of glyph g. */
  function RowList(g: int, x: int, y: int, s: int): (rows: seq<seq<Point>>)
    requires 0 <= g <= Colon
    ensures |rows| == 7
  {
    seq(7, row requires 0 <= row < 7 => RowCells(g, row, x, y, s, 5))
  }

  /** The first r rows, one after the other. */
  function Concat(rows: seq<seq<Point>>, r: int): seq<Point>
    requires r <= |rows|
    decreases r
  {
    if r <= 0 then [] else Concat(rows, r - 1) + rows[r - 1]
  }

  /** The points drawGlyph writes, in the order it writes them: none for an
      index outside 0..10. */
  function GlyphPoints(g: int, x: int, y: int, s: int): seq<Point>
  {
    if g < 0 || g > Colon then [] else Concat(RowList(g, x, y, s), 7)
  }

  /** p lies in the s by s block whose top-left corner is (left, top). */
  predicate InCell(p: Point, left: int, top: int, s: int)
  {
    left <= p.0 < left + s && top <= p.1 < top + s
  }

  lemma InConcat(a: seq<Point>, b: seq<Point>, p: Point)
    ensures p in a + b <==> p in a || p in b
  {
  }

  lemma {:induction false} SpanMem(px: int, py: int, n: int, p: Point)
    ensures p in Span(px, py, n) <==> p.1 == py && px <= p.0 < px + n
    decreases n
  {
    if n > 0 {
      assert Span(px, py, n) == Span(px, py, n - 1) + [(px + n - 1, py)];
      SpanMem(px, py, n - 1, p);
      InConcat(Span(px, py, n - 1), [(px + n - 1, py)], p);
    }
  }

  lemma BlockMem(left: int, top: int, s: int, k: int, p: Point)
    requires k >= 0
    ensures p in BlockRows(left, top, s, k) <==> left <= p.0 < left + s && top <= p.1 < top + k
  {
    BlockInside(left, top, s, k, p);
    BlockCovers(left, top, s, k, p);
  }

  /** Every point of the first k rows lies in their rectangle. */
  lemma {:induction false} BlockInside(left: int, top: int, s: int, k: int, p: Point)
    requires k >= 0
    ensures p in BlockRows(left, top, s, k) ==> left <= p.0 < left + s && top <= p.1 < top + k
    decreases k
  {
    if k > 0 {
      BlockInside(left, top, s, k - 1, p);
      BlockRowsMem(left, top, s, k, p);
      SpanMem(left, top + k - 1, s, p);
    }
  }

  /** Every point of the rectangle of the first k rows is drawn. */
  lemma {:induction false} BlockCovers(left: int, top: int, s: int, k: int, p: Point)
    requires k >= 0
    ensures left <= p.0 < left + s && top <= p.1 < top + k ==> p in BlockRows(left, top, s, k)
    decreases k
  {
    if k > 0 && left <= p.0 < left + s && top <= p.1 < top + k {
      if p.1 < top + k - 1 {
        BlockCovers(left, top, s, k - 1, p);
        assert p in BlockRows(left, top, s, k - 1);
      } else {
        SpanMem(left, top + k - 1, s, p);
        assert p in Span(left, top + k - 1, s);
      }
      BlockRowsMem(left, top, s, k, p);
    }
  }

  /** The first k rows hold p exactly when the first k - 1 rows or row k - 1 do. */
  lemma BlockRowsMem(left: int, top: int, s: int, k: int, p: Point)
    requires k > 0
    ensures p in BlockRows(left, top, s, k) <==> p in BlockRows(left, top, s, k - 1) || p in Span(left, top + k - 1, s)
  {
    InConcat(BlockRows(left, top, s, k - 1), Span(left, top + k - 1, s), p);
  }

  /** Pixel (col, row) of glyph g is lit and p lies in its scaled block. */
  predicate LitCell(g: int, x: int, y: int, s: int, row: int, col: int, p: Point)
    requires 0 <= g <= Colon && 0 <= row < 7 && 0 <= col < 5
  {
    Lit(g, row, col) && InCell(p, x + col * s, y + row * s, s)
  }

  lemma {:induction false} RowMem(g: int, row: int, x: int, y: int, s: int, c: int, p: Point)
    requires 0 <= g <= Colon && 0 <= row < 7 && 0 <= c <= 5
    ensures p in RowCells(g, row, x, y, s, c) <==> exists col :: 0 <= col < c && LitCell(g, x, y, s, row, col, p)
    decreases c
  {
    if c > 0 {
      var a := RowCells(g, row, x, y, s, c - 1);
      var b := CellBlock(g, row, c - 1, x, y, s);
      assert RowCells(g, row, x, y, s, c) == a + b;
      CellMem(g, row, c - 1, x, y, s, p);
      RowMem(g, row, x, y, s, c - 1, p);
      InConcat(a, b, p);
      ExistsStep(g, x, y, s, row, c, p);
    }
  }

  /** p is in a cell's block exactly when that pixel is lit and p lies in the block. */
  lemma CellMem(g: int, row: int, c: int, x: int, y: int, s: int, p: Point)
    requires 0 <= g <= Colon && 0 <= row < 7 && 0 <= c < 5
    ensures p in CellBlock(g, row, c, x, y, s) <==> LitCell(g, x, y, s, row, c, p)
  {
    LitBlockMem(Lit(g, row, c), x + c * s, y + row * s, s, p);
  }

  /** A lit block holds exactly the points of its square; a dark one none. */
  lemma LitBlockMem(lit: bool, left: int, top: int, s: int, p: Point)
    ensures p in LitBlock(lit, left, top, s) <==> lit && InCell(p, left, top, s)
  {
    if lit && s >= 0 {
      BlockMem(left, top, s, s, p);
    }
  }

  /** The columns below c are those below c - 1 and c - 1 itself. */
  lemma ExistsStep(g: int, x: int, y: int, s: int, row: int, c: int, p: Point)
    requires 0 <= g <= Colon && 0 <= row < 7 && 0 < c <= 5
    ensures (exists col :: 0 <= col < c && LitCell(g, x, y, s, row, col, p)) <==>
      (exists col :: 0 <= col < c - 1 && LitCell(g, x, y, s, row, col, p)) || LitCell(g, x, y, s, row, c - 1, p)
  {
  }

  /** A point of the first r rows lies in one of them. */
  lemma {:induction false} RowOf(rows: seq<seq<Point>>, r: int, p: Point) returns (row: int)
    requires 0 <= r <= |rows| && p in Concat(rows, r)
    ensures 0 <= row < r && p in rows[row]
    decreases r
  {
    var a, b := Concat(rows, r - 1), rows[r - 1];
    assert p in a || p in b by {
      assert Concat(rows, r) == a + b;
      InConcat(a, b, p);
    }
    if p in b {
      row := r - 1;
    } else {
      row := RowOf(rows, r - 1, p);
    }
  }

  /** Each of the first r rows is part of them. */
  lemma {:induction false} InRows(rows: seq<seq<Point>>, r: int, row: int, p: Point)
    requires 0 <= row < r <= |rows| && p in rows[row]
    ensures p in Concat(rows, r)
    decreases r
  {
    var a, b := Concat(rows, r - 1), rows[r - 1];
    if row < r - 1 {
      InRows(rows, r - 1, row, p);
    }
    assert Concat(rows, r) == a + b;
    InConcat(a, b, p);
  }

  /** A glyph paints exactly the scaled blocks of its lit pixels: for every
      set bit (col, row), the block at (x + col s, y + row s). */
  lemma GlyphMem(g: int, x: int, y: int, s: int, p: Point)
    requires 0 <= g <= Colon
    ensures p in GlyphPoints(g, x, y, s) <==>
      exists row, col :: 0 <= row < 7 && 0 <= col < 5 && LitCell(g, x, y, s, row, col, p)
  {
    var rows := RowList(g, x, y, s);
    if p in GlyphPoints(g, x, y, s) {
      var row := RowOf(rows, 7, p);
      RowMem(g, row, x, y, s, 5, p);
      var col :| 0 <= col < 5 && LitCell(g, x, y, s, row, col, p);
    } else {
      forall row, col | 0 <= row < 7 && 0 <= col < 5
        ensures !LitCell(g, x, y, s, row, col, p)
      {
        RowMem(g, row, x, y, s, 5, p);
        if p in rows[row] {
          InRows(rows, 7, row, p);
        }
      }
    }
  }

  lemma CellInBox(x: int, y: int, s: int, row: int, col: int, p: Point)
    requires 0 <= row < 7 && 0 <= col < 5 && InCell(p, x + col * s, y + row * s, s)
    ensures x <= p.0 < x + 5 * s && y <= p.1 < y + 7 * s
  {
    MulMono(0, col, s);
    MulMono(col + 1, 5, s);
    MulMono(0, row, s);
    MulMono(row + 1, 7, s);
  }

  /** At scale 1 the glyph paints exactly its lit pixels. */
  lemma GlyphUnscaled(g: int, x: int, y: int, p: Point)
    requires 0 <= g <= Colon
    ensures p in GlyphPoints(g, x, y, 1) <==>
      0 <= p.0 - x < 5 && 0 <= p.1 - y < 7 && Lit(g, p.1 - y, p.0 - x)
  {
    GlyphMem(g, x, y, 1, p);
    UnscaledCell(g, x, y, p);
  }

  lemma UnscaledCell(g: int, x: int, y: int, p: Point)
    requires 0 <= g <= Colon
    ensures (exists row, col :: 0 <= row < 7 && 0 <= col < 5 && LitCell(g, x, y, 1, row, col, p)) <==>
      0 <= p.0 - x < 5 && 0 <= p.1 - y < 7 && Lit(g, p.1 - y, p.0 - x)
  {
    UnscaledOnly(g, x, y, p);
    UnscaledCovers(g, x, y, p);
  }

  /** At scale 1 a lit cell is the pixel at its own offset. */
  lemma UnscaledOnly(g: int, x: int, y: int, p: Point)
    requires 0 <= g <= Colon
    ensures (exists row, col :: 0 <= row < 7 && 0 <= col < 5 && LitCell(g, x, y, 1, row, col, p)) ==>
      0 <= p.0 - x < 5 && 0 <= p.1 - y < 7 && Lit(g, p.1 - y, p.0 - x)
  {
    forall row, col | 0 <= row < 7 && 0 <= col < 5 && LitCell(g, x, y, 1, row, col, p)
      ensures 0 <= p.0 - x < 5 && 0 <= p.1 - y < 7 && Lit(g, p.1 - y, p.0 - x)
    {
      UnitCellIsPoint(g, x, y, row, col, p);
    }
  }

  /** At scale 1 every lit pixel's offset is drawn. */
  lemma UnscaledCovers(g: int, x: int, y: int, p: Point)
    requires 0 <= g <= Colon
    ensures 0 <= p.0 - x < 5 && 0 <= p.1 - y < 7 && Lit(g, p.1 - y, p.0 - x) ==>
      exists row, col :: 0 <= row < 7 && 0 <= col < 5 && LitCell(g, x, y, 1, row, col, p)
  {
    if 0 <= p.0 - x < 5 && 0 <= p.1 - y < 7 && Lit(g, p.1 - y, p.0 - x) {
      UnitCellIsPoint(g, x, y, p.1 - y, p.0 - x, p);
    }
  }

  /** At scale 1 the block of (col, row) is the single point (x + col, y + row). */
  lemma UnitCellIsPoint(g: int, x: int, y: int, row: int, col: int, p: Point)
    requires 0 <= g <= Colon && 0 <= row < 7 && 0 <= col < 5
    ensures LitCell(g, x, y, 1, row, col, p) <==> Lit(g, row, col) && p.0 - x == col && p.1 - y == row
  {
  }

  /** A glyph stays inside its 5s by 7s cell. */
  lemma GlyphBox(g: int, x: int, y: int, s: int, p: Point)
    requires p in GlyphPoints(g, x, y, s)
    ensures x <= p.0 < x + 5 * s && y <= p.1 < y + 7 * s
  {
    GlyphMem(g, x, y, s, p);
    var row, col :| 0 <= row < 7 && 0 <= col < 5 && LitCell(g, x, y, s, row, col, p);
    CellInBox(x, y, s, row, col, p);
  }

  /** Writes col at (left, py) .. (left + n - 1, py), the in-bounds ones only. */
  method DrawSpan(fb: Framebuffer, left: int, py: int, n: int, col: Pixel)
    requires fb.Valid()
    modifies fb.pixels
    ensures Painted(old(fb.pixels[..]), fb.pixels[..], fb.width, fb.height, Span(left, py, n), col)
  {
    ghost var s := fb.pixels[..];
    PaintedNothing(s, fb.width, fb.height, col);
    var sx := 0;
    while sx < n
      invariant 0 <= sx <= Max(n, 0)
      invariant Painted(s, fb.pixels[..], fb.width, fb.height, Span(left, py, sx), col)
    {
      DrawSpanPixel(fb, s, left, py, sx, col);
      sx := sx + 1;
    }
    assert Span(left, py, n) == Span(left, py, sx);
  }

  /** Extends a painting of the span's first sx pixels by pixel sx. */
  method DrawSpanPixel(fb: Framebuffer, ghost s: seq<Pixel>, left: int, py: int, sx: int, col: Pixel)
    requires fb.Valid() && 0 <= sx
    requires Painted(s, fb.pixels[..], fb.width, fb.height, Span(left, py, sx), col)
    modifies fb.pixels
    ensures Painted(s, fb.pixels[..], fb.width, fb.height, Span(left, py, sx + 1), col)
  {
    ghost var before := fb.pixels[..];
    Plot(fb.pixels, fb.width, fb.height, left + sx, py, col);
    PaintedThen(s, before, fb.pixels[..], fb.width, fb.height, Span(left, py, sx), [(left + sx, py)], col);
  }

  /** Extends a painting of `drawn` by one more span. */
  method DrawSpanMore(fb: Framebuffer, ghost s0: seq<Pixel>, ghost drawn: seq<Point>, left: int, py: int, n: int, col: Pixel)
    requires fb.Valid() && Painted(s0, fb.pixels[..], fb.width, fb.height, drawn, col)
    modifies fb.pixels
    ensures Painted(s0, fb.pixels[..], fb.width, fb.height, drawn + Span(left, py, n), col)
  {
    ghost var before := fb.pixels[..];
    DrawSpan(fb, left, py, n, col);
    PaintedThen(s0, before, fb.pixels[..], fb.width, fb.height, drawn, Span(left, py, n), col);
  }

  /** Writes the in-bounds part of the s by s block at (left, top), row by row. */
  method DrawBlock(fb: Framebuffer, left: int, top: int, s: int, col: Pixel)
    requires fb.Valid()
    modifies fb.pixels
    ensures Painted(old(fb.pixels[..]), fb.pixels[..], fb.width, fb.height, BlockRows(left, top, s, s), col)
  {
    ghost var s0 := fb.pixels[..];
    PaintedNothing(s0, fb.width, fb.height, col);
    var sy := 0;
    while sy < s
      invariant 0 <= sy <= Max(s, 0)
      invariant Painted(s0, fb.pixels[..], fb.width, fb.height, BlockRows(left, top, s, sy), col)
    {
      DrawBlockRow(fb, s0, left, top, s, sy, col);
      sy := sy + 1;
    }
    assert BlockRows(left, top, s, s) == BlockRows(left, top, s, sy);
  }

  /** Extends a painting of the block's first sy rows by row sy. */
  method DrawBlockRow(fb: Framebuffer, ghost s0: seq<Pixel>, left: int, top: int, s: int, sy: int, col: Pixel)
    requires fb.Valid() && 0 <= sy
    requires Painted(s0, fb.pixels[..], fb.width, fb.height, BlockRows(left, top, s, sy), col)
    modifies fb.pixels
    ensures Painted(s0, fb.pixels[..], fb.width, fb.height, BlockRows(left, top, s, sy + 1), col)
  {
    DrawSpanMore(fb, s0, BlockRows(left, top, s, sy), left, top + sy, s, col);
  }

  /** Extends a painting of `drawn` by one more block. */
  method DrawBlockMore(fb: Framebuffer, ghost s0: seq<Pixel>, ghost drawn: seq<Point>, left: int, top: int, s: int, col: Pixel)
    requires fb.Valid() && Painted(s0, fb.pixels[..], fb.width, fb.height, drawn, col)
    modifies fb.pixels
    ensures Painted(s0, fb.pixels[..], fb.width, fb.height, drawn + BlockRows(left, top, s, s), col)
  {
    ghost var before := fb.pixels[..];
    DrawBlock(fb, left, top, s, col);
    PaintedThen(s0, before, fb.pixels[..], fb.width, fb.height, drawn, BlockRows(left, top, s, s), col);
  }

  /** Writes the blocks of the lit pixels of one glyph row, left to right. */
  method DrawGlyphRow(fb: Framebuffer, g: int, row: int, x: int, y: int, col: Pixel, s: int)
    requires fb.Valid() && 0 <= g <= Colon && 0 <= row < 7
    modifies fb.pixels
    ensures Painted(old(fb.pixels[..]), fb.pixels[..], fb.width, fb.height, RowCells(g, row, x, y, s, 5), col)
  {
    ghost var s0 := fb.pixels[..];
    ghost var drawn: seq<Point> := [];
    PaintedNothing(s0, fb.width, fb.height, col);
    var c := 0;
    while c < 5
      invariant 0 <= c <= 5 && drawn == RowCells(g, row, x, y, s, c)
      invariant Painted(s0, fb.pixels[..], fb.width, fb.height, drawn, col)
    {
      DrawCell(fb, s0, drawn, g, row, c, x, y, s, col);
      drawn := drawn + CellBlock(g, row, c, x, y, s);
      c := c + 1;
    }
  }

  /** Writes the block of column c of a glyph row when that pixel is lit. */
  method DrawCell(fb: Framebuffer, ghost s0: seq<Pixel>, ghost drawn: seq<Point>,
                  g: int, row: int, c: int, x: int, y: int, s: int, col: Pixel)
    requires fb.Valid() && 0 <= g <= Colon && 0 <= row < 7 && 0 <= c < 5
    requires Painted(s0, fb.pixels[..], fb.width, fb.height, drawn, col)
    modifies fb.pixels
    ensures Painted(s0, fb.pixels[..], fb.width, fb.height, drawn + CellBlock(g, row, c, x, y, s), col)
  {
    var left, top := x + c * s, y + row * s;
    if Font[g][row] & (0x10 >> c) != 0 {
      assert CellBlock(g, row, c, x, y, s) == BlockRows(left, top, s, s);
      DrawBlockMore(fb, s0, drawn, left, top, s, col);
    } else {
      assert drawn + CellBlock(g, row, c, x, y, s) == drawn;
    }
  }

  /** drawGlyph: glyph g at (x, y), every font pixel an s by s block,
      clipped to the buffer; an index outside 0..10 draws nothing. */
  method DrawGlyph(fb: Framebuffer, g: int, x: int, y: int, col: Pixel, s: int)
    requires fb.Valid()
    modifies fb.pixels
    ensures Painted(old(fb.pixels[..]), fb.pixels[..], fb.width, fb.height, GlyphPoints(g, x, y, s), col)
    ensures (g < 0 || g > Colon) ==> fb.pixels[..] == old(fb.pixels[..])
  {
    ghost var s0 := fb.pixels[..];
    PaintedNothing(s0, fb.width, fb.height, col);
    if g < 0 || g > Colon {
      return;
    }
    ghost var rows := RowList(g, x, y, s);
    var row := 0;
    while row < 7
      invariant 0 <= row <= 7
      invariant Painted(s0, fb.pixels[..], fb.width, fb.height, Concat(rows, row), col)
    {
      ghost var before := fb.pixels[..];
      DrawGlyphRow(fb, g, row, x, y, col, s);
      assert rows[row] == RowCells(g, row, x, y, s, 5);
      PaintedThen(s0, before, fb.pixels[..], fb.width, fb.height, Concat(rows, row), rows[row], col);
      row := row + 1;
    }
  }

  /** The displayed hour: the hour of the day modulo 12, with 0 shown as 12. */
  function Hour12(hour: int): (h: int)
    requires 0 <= hour
    ensures 1 <= h <= 12 && h % 12 == hour % 12
  {
    if hour % 12 == 0 then 12 else hour % 12
  }

  /** The five glyph slots of "HH:MM": the tens of the hour (-1, skipped,
      below 10), the hour's units, the colon, and the minute's two digits. */
  function Glyphs(hour: int, minute: int): seq<int>
    requires 0 <= hour && 0 <= minute
  {
    [if hour >= 10 then hour / 10 else -1, hour % 10, Colon, minute / 10, minute % 10]
  }

  /** The slots spell the time: reading the digits back gives the hour and
      minute, the leading slot is skipped exactly below ten o'clock, and every
      other slot is a glyph of the font. */
  lemma GlyphsSpell(hour: int, minute: int)
    requires 1 <= hour <= 12 && 0 <= minute < 60
    ensures var g := Glyphs(hour, minute);
      |g| == 5 && (g[0] == -1 <==> hour < 10) && (g[0] != -1 ==> g[0] == 1)
      && (if g[0] >= 0 then 10 * g[0] + g[1] else g[1]) == hour
      && g[2] == Colon && 10 * g[3] + g[4] == minute
      && 0 <= g[1] <= 9 && 0 <= g[3] <= 5 && 0 <= g[4] <= 9
  {
  }

  /** The scale grows by one while the beat envelope is above 0.4. */
  function EffectiveScale(scale: int, beat: real): int
  {
    scale + if beat > 0.4 then 1 else 0
  }

  /** A channel moved the fraction `beat` of the way toward 255, truncated. */
  function PulseChannel(c: Channel, beat: real): (r: Channel)
    requires 0.0 <= beat <= 1.0
    ensures c <= r
  {
    var gap := (255 - c) as real;
    ScaleMono(beat, 1.0, gap);
    assert 0.0 <= beat * gap <= gap;
    TruncMono(0.0, beat * gap);
    TruncMono(beat * gap, gap);
    TruncWhole(255 - c);
    c + Trunc(beat * gap)
  }

  /** The colour flashed toward white by the beat, fully opaque. */
  function PulseColor(color: Pixel, beat: real): (p: Pixel)
    requires 0.0 <= beat <= 1.0
    ensures Alpha(p) == 255 && Red(color) <= Red(p) && Green(color) <= Green(p) && Blue(color) <= Blue(p)
  {
    Opaque(PulseChannel(Red(color), beat), PulseChannel(Green(color), beat), PulseChannel(Blue(color), beat))
  }

  /** Without a beat the text has the configured colour (made opaque); at a
      full beat it is white. */
  lemma PulseEnds(color: Pixel)
    ensures PulseColor(color, 0.0) == Opaque(Red(color), Green(color), Blue(color))
    ensures PulseColor(color, 1.0) == OpaqueWhite
  {
  }

  /** Characters laid out: 5 with a tens digit of the hour, 4 without. */
  function NumChars(g: seq<int>): int
    requires |g| == 5
  {
    if g[0] >= 0 then 5 else 4
  }

  /** The width of n characters of width 5s separated by gaps of s. */
  function TotalWidth(n: int, s: int): int
  {
    n * (5 * s) + (n - 1) * s
  }

  /** One drawGlyph call: glyph g at (x, y), scale s, in colour col. */
  datatype Stroke = Stroke(g: int, x: int, y: int, s: int, col: Pixel)

  /** The points a stroke paints. */
  function StrokePoints(st: Stroke): seq<Point>
  {
    GlyphPoints(st.g, st.x, st.y, st.s)
  }

  /** The image after painting the strokes in order. */
  function PaintStrokes(s: seq<Pixel>, w: nat, h: nat, strokes: seq<Stroke>): (t: seq<Pixel>)
    requires |s| == w * h
    ensures |t| == w * h
    decreases |strokes|
  {
    if strokes == [] then s
    else PaintStrokes(Paint(s, w, h, StrokePoints(strokes[0]), strokes[0].col), w, h, strokes[1..])
  }

  lemma PaintStrokesTwo(s: seq<Pixel>, w: nat, h: nat, a: Stroke, b: Stroke)
    requires |s| == w * h
    ensures PaintStrokes(s, w, h, [a, b]) == Paint(Paint(s, w, h, StrokePoints(a), a.col), w, h, StrokePoints(b), b.col)
  {
    var t := Paint(s, w, h, StrokePoints(a), a.col);
    var u := Paint(t, w, h, StrokePoints(b), b.col);
    assert [a, b][1..] == [b] && [b][1..] == [];
    assert PaintStrokes(s, w, h, [a, b]) == PaintStrokes(t, w, h, [b]);
    assert PaintStrokes(t, w, h, [b]) == PaintStrokes(u, w, h, []);
  }

  /** Where the cell after slot i starts: a skipped slot takes no room,
      any other slot (a hidden colon too) one character and one gap. */
  function NextX(g: seq<int>, i: int, x: int, s: int): int
    requires |g| == 5 && 0 <= i < 5
  {
    if g[i] < 0 then x else x + 5 * s + s
  }

  /** What slot i draws: nothing when skipped or a hidden colon, otherwise
      its black shadow one pixel down and right, then the glyph itself. */
  function SlotPair(g: seq<int>, i: int, x: int, y: int, s: int, showColon: bool, pulse: Pixel): seq<Stroke>
    requires |g| == 5 && 0 <= i < 5
  {
    if g[i] < 0 || (i == 2 && !showColon) then []
    else [Stroke(g[i], x + 1, y + 1, s, OpaqueBlack), Stroke(g[i], x, y, s, pulse)]
  }

  /** Painting a + b is painting a, then b. */
  lemma {:induction false} PaintStrokesAppend(s: seq<Pixel>, w: nat, h: nat, a: seq<Stroke>, b: seq<Stroke>)
    requires |s| == w * h
    ensures PaintStrokes(s, w, h, a + b) == PaintStrokes(PaintStrokes(s, w, h, a), w, h, b)
    decreases |a|
  {
    if a == [] {
      assert a + b == b;
    } else {
      var t := Paint(s, w, h, StrokePoints(a[0]), a[0].col);
      assert (a + b)[0] == a[0] && (a + b)[1..] == a[1..] + b;
      assert PaintStrokes(s, w, h, a + b) == PaintStrokes(t, w, h, a[1..] + b);
      assert PaintStrokes(s, w, h, a) == PaintStrokes(t, w, h, a[1..]);
      PaintStrokesAppend(t, w, h, a[1..], b);
    }
  }

  /** The strokes of slots i.. with the slot i cell starting at column x. */
  function SlotStrokes(g: seq<int>, i: int, x: int, y: int, s: int, showColon: bool, pulse: Pixel): seq<Stroke>
    requires |g| == 5 && 0 <= i <= 5
    decreases 5 - i
  {
    if i == 5 then []
    else SlotPair(g, i, x, y, s, showColon, pulse) + SlotStrokes(g, i + 1, NextX(g, i, x, s), y, s, showColon, pulse)
  }

  /** Where and how large a render draws: the glyph slots, the scale, the
      top-left corner of the text and whether the colon shows. */
  datatype Layout = Layout(glyphs: seq<int>, s: int, startX: int, startY: int, showColon: bool)

  /** The layout for the time hour:minute, msec milliseconds into the second,
      in a w by h buffer: the text centred, C-style halving included. */
  function ClockLayout(w: int, h: int, hour: int, minute: int, msec: int, scale: int, blinkColon: bool, beat: real): (l: Layout)
    requires 0 <= hour && 0 <= minute
    ensures |l.glyphs| == 5
  {
    var g := Glyphs(Hour12(hour), minute);
    var s := EffectiveScale(scale, beat);
    Layout(g, s, CDiv(w - TotalWidth(NumChars(g), s), 2), CDiv(h - 7 * s, 2), !blinkColon || msec < 500)
  }

  /** Everything one render paints, in order. */
  function ClockStrokes(l: Layout, pulse: Pixel): seq<Stroke>
    requires |l.glyphs| == 5
  {
    SlotStrokes(l.glyphs, 0, l.startX, l.startY, l.s, l.showColon, pulse)
  }

  /** The number of slots from i on that take a cell. */
  function Cells(g: seq<int>, i: int): int
    requires |g| == 5 && 0 <= i <= 5
    decreases 5 - i
  {
    if i == 5 then 0 else (if g[i] >= 0 then 1 else 0) + Cells(g, i + 1)
  }

  /** The columns the cells of slots i.. take: 6s each, gap included. */
  function Extent(g: seq<int>, i: int, s: int): int
    requires |g| == 5 && 0 <= i <= 5
    decreases 5 - i
  {
    if i == 5 then 0 else (if g[i] >= 0 then 5 * s + s else 0) + Extent(g, i + 1, s)
  }

  lemma {:induction false} ExtentCells(g: seq<int>, i: int, s: int)
    requires |g| == 5 && 0 <= i <= 5
    ensures Extent(g, i, s) == 6 * s * Cells(g, i)
    decreases 5 - i
  {
    if i < 5 {
      ExtentCells(g, i + 1, s);
      assert 6 * s * (Cells(g, i + 1) + 1) == 6 * s * Cells(g, i + 1) + 6 * s;
    }
  }

  /** The strokes of slots i.. stay within the cells they take, shadow
      included: each glyph's 5s wide cell lies in columns x .. x + Extent - s
      and starts on row y or, for a shadow, y + 1. */
  lemma {:induction false} SlotsFit(g: seq<int>, i: int, x: int, y: int, s: int, showColon: bool, pulse: Pixel, st: Stroke)
    requires |g| == 5 && 0 <= i <= 5 && s >= 1
    requires st in SlotStrokes(g, i, x, y, s, showColon, pulse)
    ensures st.s == s && x <= st.x && st.x + 5 * s <= x + Extent(g, i, s) - s + 1 && y <= st.y <= y + 1
    decreases 5 - i
  {
    var pair := SlotPair(g, i, x, y, s, showColon, pulse);
    var rest := SlotStrokes(g, i + 1, NextX(g, i, x, s), y, s, showColon, pulse);
    assert SlotStrokes(g, i, x, y, s, showColon, pulse) == pair + rest;
    ExtentNonNeg(g, i + 1, s);
    if st in rest {
      SlotsFit(g, i + 1, NextX(g, i, x, s), y, s, showColon, pulse, st);
    } else {
      assert st in pair;
    }
  }

  lemma {:induction false} ExtentNonNeg(g: seq<int>, i: int, s: int)
    requires |g| == 5 && 0 <= i <= 5 && s >= 0
    ensures Extent(g, i, s) >= 0
    decreases 5 - i
  {
    if i < 5 {
      ExtentNonNeg(g, i + 1, s);
    }
  }

  /** With a positive scale the text and its shadow stay inside the box the
      layout centres: totalW wide from startX and 7s high from startY (the
      shadow reaching one pixel past both). */
  lemma ClockFits(w: int, h: int, hour: int, minute: int, msec: int, scale: int, blinkColon: bool, beat: real,
                  pulse: Pixel, st: Stroke, p: Point)
    requires 0 <= hour && 0 <= minute && EffectiveScale(scale, beat) >= 1
    requires var l := ClockLayout(w, h, hour, minute, msec, scale, blinkColon, beat);
      st in ClockStrokes(l, pulse) && p in StrokePoints(st)
    ensures var l := ClockLayout(w, h, hour, minute, msec, scale, blinkColon, beat);
      l.startX <= p.0 <= l.startX + TotalWidth(NumChars(l.glyphs), l.s) && l.startY <= p.1 <= l.startY + 7 * l.s
  {
    var l := ClockLayout(w, h, hour, minute, msec, scale, blinkColon, beat);
    SlotsFit(l.glyphs, 0, l.startX, l.startY, l.s, l.showColon, pulse, st);
    WidthOfCells(l.glyphs, l.s);
    GlyphBox(st.g, st.x, st.y, st.s, p);
  }

  /** The cells of the glyph slots span the layout's width plus one gap. */
  lemma WidthOfCells(g: seq<int>, s: int)
    requires |g| == 5 && g[1] >= 0 && g[2] >= 0 && g[3] >= 0 && g[4] >= 0
    ensures Extent(g, 0, s) == TotalWidth(NumChars(g), s) + s
  {
    assert Extent(g, 3, s) == 2 * (5 * s + s);
    assert Extent(g, 1, s) == 4 * (5 * s + s);
  }

  /** Slots after the colon are drawn the same whether the colon shows. */
  lemma {:induction false} AfterColon(g: seq<int>, i: int, x: int, y: int, s: int, pulse: Pixel)
    requires |g| == 5 && 3 <= i <= 5
    ensures SlotStrokes(g, i, x, y, s, true, pulse) == SlotStrokes(g, i, x, y, s, false, pulse)
    decreases 5 - i
  {
    if i < 5 {
      AfterColon(g, i + 1, NextX(g, i, x, s), y, s, pulse);
    }
  }

  /** A hidden colon removes exactly its two strokes (shadow, then the glyph
      at its cell) and moves nothing else: the minutes stay where a shown
      colon leaves them. */
  lemma {:induction false} ColonHidden(g: seq<int>, i: int, x: int, y: int, s: int, pulse: Pixel)
    requires |g| == 5 && 0 <= i <= 2 && g[2] == Colon
    ensures HidesColon(g, i, x, y, s, pulse)
    decreases 2 - i
  {
    if i == 2 {
      ColonCell(g, x, y, s, pulse);
    } else {
      ColonHidden(g, i + 1, NextX(g, i, x, s), y, s, pulse);
      ColonStep(g, i, x, y, s, pulse);
    }
  }

  /** Slots i.. with the colon hidden are slots i.. with the colon shown
      less the two colon strokes, whose glyph sits where the colon's cell
      starts. */
  predicate HidesColon(g: seq<int>, i: int, x: int, y: int, s: int, pulse: Pixel)
    requires |g| == 5 && 0 <= i <= 2
  {
    var shown := SlotStrokes(g, i, x, y, s, true, pulse);
    var k := 2 * (Cells(g, i) - Cells(g, 2));
    0 <= k && k + 2 <= |shown|
    && shown[k + 1] == Stroke(Colon, x + Extent(g, i, s) - Extent(g, 2, s), y, s, pulse)
    && SlotStrokes(g, i, x, y, s, false, pulse) == shown[..k] + shown[k + 2..]
  }

  lemma ColonStep(g: seq<int>, i: int, x: int, y: int, s: int, pulse: Pixel)
    requires |g| == 5 && 0 <= i < 2
    requires HidesColon(g, i + 1, NextX(g, i, x, s), y, s, pulse)
    ensures HidesColon(g, i, x, y, s, pulse)
  {
    var nx := NextX(g, i, x, s);
    var pair := SlotPair(g, i, x, y, s, true, pulse);
    var restT := SlotStrokes(g, i + 1, nx, y, s, true, pulse);
    assert SlotStrokes(g, i, x, y, s, true, pulse) == pair + restT;
    assert SlotStrokes(g, i, x, y, s, false, pulse) == pair + SlotStrokes(g, i + 1, nx, y, s, false, pulse);
    assert |pair| == 2 * (Cells(g, i) - Cells(g, i + 1));
    assert nx - x == Extent(g, i, s) - Extent(g, i + 1, s);
    DropPair(pair, restT, SlotStrokes(g, i + 1, nx, y, s, false, pulse), 2 * (Cells(g, i + 1) - Cells(g, 2)));
  }

  /** Dropping the two strokes at k of rest, after a prefix pair, drops the
      two at |pair| + k of the whole. */
  lemma DropPair(pair: seq<Stroke>, rest: seq<Stroke>, dropped: seq<Stroke>, k: int)
    requires 0 <= k && k + 2 <= |rest| && dropped == rest[..k] + rest[k + 2..]
    ensures var whole := pair + rest;
      |pair| + k + 2 <= |whole| && whole[|pair| + k + 1] == rest[k + 1]
      && pair + dropped == whole[..|pair| + k] + whole[|pair| + k + 2..]
  {
    var whole := pair + rest;
    assert whole[..|pair| + k] == pair + rest[..k];
    assert whole[|pair| + k + 2..] == rest[k + 2..];
  }

  /** The colon's own slot: shown, it is its two strokes before the minutes;
      hidden, only the minutes, in the same places. */
  lemma ColonCell(g: seq<int>, x: int, y: int, s: int, pulse: Pixel)
    requires |g| == 5 && g[2] == Colon
    ensures HidesColon(g, 2, x, y, s, pulse)
  {
    var nx := NextX(g, 2, x, s);
    var restT := SlotStrokes(g, 3, nx, y, s, true, pulse);
    assert SlotStrokes(g, 2, x, y, s, true, pulse) == SlotPair(g, 2, x, y, s, true, pulse) + restT;
    assert SlotStrokes(g, 2, x, y, s, false, pulse) == [] + SlotStrokes(g, 3, nx, y, s, false, pulse);
    AfterColon(g, 3, nx, y, s, pulse);
  }

  class Clock {
    const color: Pixel
    const scale: int
    const blinkColon: bool

    constructor (color: Pixel := OpaqueWhite, scale: int := 3, blinkColon: bool := true)
      ensures this.color == color && this.scale == scale && this.blinkColon == blinkColon
    {
      this.color := color;
      this.scale := scale;
      this.blinkColon := blinkColon;
    }

    /** Draws the time hour:minute (msec milliseconds into the second, all
        read from the wall clock by the caller): shadow then glyph for every
        shown slot, left to right. */
    method Render(fb: Framebuffer, audio: Audio.AudioData, hour: int, minute: int, msec: int)
      requires fb.Valid() && audio.DecaysInUnit() && 0 <= hour && 0 <= minute
      modifies fb.pixels
      ensures fb.pixels[..] == PaintStrokes(old(fb.pixels[..]), fb.width, fb.height,
        ClockStrokes(ClockLayout(fb.width, fb.height, hour, minute, msec, scale, blinkColon, audio.beatDecay),
          PulseColor(color, audio.beatDecay)))
    {
      var beat := audio.beatDecay;
      var glyphs, s, startX, startY, showColon := LayOut(fb.width, fb.height, hour, minute, msec, beat);
      var pulse := PulseColor(color, beat);
      DrawSlots(fb, glyphs, startX, startY, s, showColon, pulse);
    }

    /** The layout arithmetic of a render. */
    method LayOut(w: int, h: int, hour: int, minute: int, msec: int, beat: real)
      returns (glyphs: seq<int>, s: int, startX: int, startY: int, showColon: bool)
      requires 0 <= hour && 0 <= minute
      ensures Layout(glyphs, s, startX, startY, showColon) == ClockLayout(w, h, hour, minute, msec, scale, blinkColon, beat)
    {
      var h12 := hour % 12;
      if h12 == 0 {
        h12 := 12;
      }
      glyphs := [if h12 >= 10 then h12 / 10 else -1, h12 % 10, Colon, minute / 10, minute % 10];
      showColon := !blinkColon || msec < 500;
      s := scale + if beat > 0.4 then 1 else 0;
      var charW, charH, gap := 5 * s, 7 * s, s;
      var numChars := if glyphs[0] >= 0 then 5 else 4;
      var totalW := numChars * charW + (numChars - 1) * gap;
      startX := CDiv(w - totalW, 2);
      startY := CDiv(h - charH, 2);
    }

    /** The slot loop: x starts at startX and moves one cell per slot that
        takes one. */
    method DrawSlots(fb: Framebuffer, glyphs: seq<int>, startX: int, startY: int, s: int, showColon: bool, pulse: Pixel)
      requires fb.Valid() && |glyphs| == 5
      modifies fb.pixels
      ensures fb.pixels[..] == PaintStrokes(old(fb.pixels[..]), fb.width, fb.height,
        SlotStrokes(glyphs, 0, startX, startY, s, showColon, pulse))
    {
      ghost var w, h := fb.width, fb.height;
      ghost var target := PaintStrokes(fb.pixels[..], w, h, SlotStrokes(glyphs, 0, startX, startY, s, showColon, pulse));
      var x := startX;
      var i := 0;
      while i < 5
        invariant 0 <= i <= 5
        invariant PaintStrokes(fb.pixels[..], w, h, SlotStrokes(glyphs, i, x, startY, s, showColon, pulse)) == target
      {
        ghost var before := fb.pixels[..];
        var x' := DrawSlot(fb, glyphs, i, x, startY, s, showColon, pulse);
        PaintStrokesAppend(before, w, h, SlotPair(glyphs, i, x, startY, s, showColon, pulse),
          SlotStrokes(glyphs, i + 1, x', startY, s, showColon, pulse));
        x, i := x', i + 1;
      }
      assert SlotStrokes(glyphs, 5, x, startY, s, showColon, pulse) == [];
    }

    /** Slot i of the loop: skipped, a hidden colon's cell, or shadow and glyph. */
    method DrawSlot(fb: Framebuffer, glyphs: seq<int>, i: int, x: int, y: int, s: int, showColon: bool, pulse: Pixel)
      returns (x': int)
      requires fb.Valid() && |glyphs| == 5 && 0 <= i < 5
      modifies fb.pixels
      ensures x' == NextX(glyphs, i, x, s)
      ensures fb.pixels[..] == PaintStrokes(old(fb.pixels[..]), fb.width, fb.height, SlotPair(glyphs, i, x, y, s, showColon, pulse))
    {
      ghost var s0 := fb.pixels[..];
      assert PaintStrokes(s0, fb.width, fb.height, []) == s0;
      x' := x;
      if glyphs[i] < 0 {
        return;
      }
      var charW, gap := 5 * s, s;
      if i == 2 && !showColon {
        x' := x + charW + gap;
        return;
      }
      var shadow, main := Stroke(glyphs[i], x + 1, y + 1, s, OpaqueBlack), Stroke(glyphs[i], x, y, s, pulse);
      DrawStroke(fb, shadow);
      DrawStroke(fb, main);
      x' := x + charW + gap;
      PaintStrokesTwo(s0, fb.width, fb.height, shadow, main);
    }

    /** One drawGlyph call. */
    method DrawStroke(fb: Framebuffer, st: Stroke)
      requires fb.Valid()
      modifies fb.pixels
      ensures fb.pixels[..] == Paint(old(fb.pixels[..]), fb.width, fb.height, StrokePoints(st), st.col)
    {
      ghost var s0 := fb.pixels[..];
      DrawGlyph(fb, st.g, st.x, st.y, st.col, st.s);
      PaintedIsPaint(s0, fb.pixels[..], fb.width, fb.height, StrokePoints(st), st.col);
    }
  }
}

/** Bounds-checked single-pixel writes, as the rasterising effects (scope
    lines, rings, clock glyphs) perform them, and what a run of them paints. */
module Plotting {
  import opened Pixels

  type Point = (int, int)

  predicate InBounds(w: int, h: int, p: Point)
  {
    0 <= p.0 < w && 0 <= p.1 < h
  }

  /** t is s with every in-bounds point listed in pts set to col, and every
      other pixel as it was. */
  ghost predicate Painted(s: seq<Pixel>, t: seq<Pixel>, w: nat, h: nat, pts: seq<Point>, col: Pixel)
  {
    |s| == w * h && |t| == w * h &&
    forall x, y :: 0 <= x < w && 0 <= y < h ==>
      At(t, w, h, x, y) == if (x, y) in pts then col else At(s, w, h, x, y)
  }

  /** The image s with the in-bounds points of pts set to col. */
  function Paint(s: seq<Pixel>, w: nat, h: nat, pts: seq<Point>, col: Pixel): (t: seq<Pixel>)
    requires |s| == w * h
    ensures Painted(s, t, w, h, pts, col)
  {
    var t := seq(w * h, i requires 0 <= i < w * h =>
      IdxSplit(w, h, i);
      if (i % w, i / w) in pts then col else s[i]);
    forall x, y | 0 <= x < w && 0 <= y < h
      ensures At(t, w, h, x, y) == if (x, y) in pts then col else At(s, w, h, x, y)
    {
      IdxInBounds(w, h, x, y);
      var i := Idx(w, x, y);
      IdxSplit(w, h, i);
      IdxInjective(w, x, y, i % w, i / w);
    }
    t
  }

  /** Painting determines the result: it is exactly Paint's image. */
  lemma PaintedIsPaint(s: seq<Pixel>, t: seq<Pixel>, w: nat, h: nat, pts: seq<Point>, col: Pixel)
    requires Painted(s, t, w, h, pts, col)
    ensures t == Paint(s, w, h, pts, col)
  {
    ImageExt(t, Paint(s, w, h, pts, col), w, h);
  }

  /** Writes col at (x, y) when the point lies inside the w by h image, and
      does nothing otherwise. */
  method Plot(px: array<Pixel>, w: nat, h: nat, x: int, y: int, col: Pixel)
    requires px.Length == w * h
    modifies px
    ensures Painted(old(px[..]), px[..], w, h, [(x, y)], col)
  {
    if 0 <= x < w && 0 <= y < h {
      IdxInBounds(w, h, x, y);
      ghost var before := px[..];
      px[Idx(w, x, y)] := col;
      assert px[..] == before[Idx(w, x, y) := col];
      forall x', y' | 0 <= x' < w && 0 <= y' < h
        ensures At(px[..], w, h, x', y') == if (x', y') in [(x, y)] then col else At(before, w, h, x', y')
      {
        AtUpdate(before, w, h, x, y, col, x', y');
      }
    }
  }

  /** Painting a list of points, then another, paints their concatenation. */
  lemma PaintedThen(s: seq<Pixel>, t: seq<Pixel>, u: seq<Pixel>, w: nat, h: nat, p: seq<Point>, q: seq<Point>, col: Pixel)
    requires Painted(s, t, w, h, p, col) && Painted(t, u, w, h, q, col)
    ensures Painted(s, u, w, h, p + q, col)
  {
    forall x, y | 0 <= x < w && 0 <= y < h
      ensures At(u, w, h, x, y) == if (x, y) in p + q then col else At(s, w, h, x, y)
    {
      assert (x, y) in p + q <==> (x, y) in p || (x, y) in q;
    }
  }

  /** Painting no points leaves the image as it is. */
  lemma PaintedNothing(s: seq<Pixel>, w: nat, h: nat, col: Pixel)
    requires |s| == w * h
    ensures Painted(s, s, w, h, [], col)
  {
  }
}

/** Mosaic: tiles the image with square blocks and paints each block with
    the average colour of its pixels. */
module MosaicEffect {
  import opened Pixels
  import opened Regions
  import opened Framebuffers
  import Audio

  /** The block edge in use: doubled on a beat when beat-reactive, and never below 2. */
  function BlockSize(blockSize: int, beatReactive: bool, isBeat: bool): (bs: int)
    ensures bs >= 2
    ensures bs >= (if beatReactive && isBeat then blockSize * 2 else blockSize)
    ensures blockSize >= 2 && !(beatReactive && isBeat) ==> bs == blockSize
  {
    Max(if beatReactive && isBeat then blockSize * 2 else blockSize, 2)
  }

  /** The first coordinate of the block containing v. */
  function BlockStart(v: int, bs: int): (start: int)
    requires v >= 0 && bs > 0
    ensures 0 <= start <= v < start + bs && start % bs == 0
  {
    DivMod(v / bs, bs, 0);
    assert v - v % bs == (v / bs) * bs;
    v - v % bs
  }

  /** The average colour of the block whose corner is (bx, by), clipped at the
      right and bottom edges: opaque, each channel the floored mean. */
  function BlockColor(s: seq<Pixel>, w: nat, h: nat, bs: int, left: int, top: int): Pixel
    requires |s| == w * h && bs > 0 && 0 <= left < w && 0 <= top < h
  {
    var right, bottom := left + Min(bs, w - left), top + Min(bs, h - top);
    RectAverageChannel(s, w, h, R, left, right, top, bottom);
    RectAverageChannel(s, w, h, G, left, right, top, bottom);
    RectAverageChannel(s, w, h, B, left, right, top, bottom);
    var area := (right - left) * (bottom - top);
    Opaque(RectSum(s, w, h, R, left, right, top, bottom) / area,
           RectSum(s, w, h, G, left, right, top, bottom) / area,
           RectSum(s, w, h, B, left, right, top, bottom) / area)
  }

  /** Every coordinate of a block has that block's start as its BlockStart. */
  lemma SameBlock(v: int, start: int, bs: int)
    requires bs > 0 && start >= 0 && start % bs == 0 && start <= v < start + bs
    ensures BlockStart(v, bs) == start
  {
    DivMod(start / bs, bs, v - start);
    assert start == (start / bs) * bs;
  }

  /** The image a render produces: every pixel takes the colour of its block. */
  function Mosaicked(s: seq<Pixel>, w: nat, h: nat, bs: int): (r: seq<Pixel>)
    requires |s| == w * h && bs > 0
    ensures |r| == w * h
    ensures forall x, y :: 0 <= x < w && 0 <= y < h ==>
      At(r, w, h, x, y) == BlockColor(s, w, h, bs, BlockStart(x, bs), BlockStart(y, bs))
  {
    var r := seq(w * h, i requires 0 <= i < w * h =>
      IdxSplit(w, h, i);
      BlockColor(s, w, h, bs, BlockStart(i % w, bs), BlockStart(i / w, bs)));
    forall x, y | 0 <= x < w && 0 <= y < h
      ensures At(r, w, h, x, y) == BlockColor(s, w, h, bs, BlockStart(x, bs), BlockStart(y, bs))
    {
      IdxInBounds(w, h, x, y);
      var i := Idx(w, x, y);
      IdxSplit(w, h, i);
      IdxInjective(w, x, y, i % w, i / w);
    }
    r
  }

  /** A block whose pixels all equal one opaque colour keeps that colour. */
  lemma UniformBlockKept(s: seq<Pixel>, w: nat, h: nat, bs: int, left: int, top: int, p: Pixel)
    requires |s| == w * h && bs > 0 && 0 <= left < w && 0 <= top < h && Alpha(p) == 255
    requires forall x, y :: left <= x < left + Min(bs, w - left) && top <= y < top + Min(bs, h - top) ==>
      At(s, w, h, x, y) == p
    ensures BlockColor(s, w, h, bs, left, top) == p
  {
    var right, bottom := left + Min(bs, w - left), top + Min(bs, h - top);
    RectAverageBounds(s, w, h, R, left, right, top, bottom, Red(p), Red(p));
    RectAverageBounds(s, w, h, G, left, right, top, bottom, Green(p), Green(p));
    RectAverageBounds(s, w, h, B, left, right, top, bottom, Blue(p), Blue(p));
  }

  /** Each averaged channel lies between the smallest and the largest value
      of that channel in the block. */
  lemma BlockColorBetween(s: seq<Pixel>, w: nat, h: nat, bs: int, left: int, top: int, c: Chan, lo: int, hi: int)
    requires |s| == w * h && bs > 0 && 0 <= left < w && 0 <= top < h
    requires Between(s, w, h, c, left, left + Min(bs, w - left), top, top + Min(bs, h - top), lo, hi)
    ensures lo <= Ch(c, BlockColor(s, w, h, bs, left, top)) <= hi
    ensures Alpha(BlockColor(s, w, h, bs, left, top)) == 255
  {
    RectAverageBounds(s, w, h, c, left, left + Min(bs, w - left), top, top + Min(bs, h - top), lo, hi);
  }

  /** A second mosaic with the same block size changes nothing. */
  lemma MosaicIdempotent(s: seq<Pixel>, w: nat, h: nat, bs: int)
    requires |s| == w * h && bs > 0
    ensures Mosaicked(Mosaicked(s, w, h, bs), w, h, bs) == Mosaicked(s, w, h, bs)
  {
    var m := Mosaicked(s, w, h, bs);
    forall x, y | 0 <= x < w && 0 <= y < h
      ensures At(Mosaicked(m, w, h, bs), w, h, x, y) == At(m, w, h, x, y)
    {
      var left, top := BlockStart(x, bs), BlockStart(y, bs);
      var p := BlockColor(s, w, h, bs, left, top);
      forall x', y' | left <= x' < left + Min(bs, w - left) && top <= y' < top + Min(bs, h - top)
        ensures At(m, w, h, x', y') == p
      {
        SameBlock(x', left, bs);
        SameBlock(y', top, bs);
      }
      UniformBlockKept(m, w, h, bs, left, top, p);
    }
    ImageExt(Mosaicked(m, w, h, bs), m, w, h);
  }

  class Mosaic {
    const blockSize: int
    const beatReactive: bool

    constructor (blockSize: int := 4, beatReactive: bool := true)
      ensures this.blockSize == blockSize && this.beatReactive == beatReactive
    {
      this.blockSize := blockSize;
      this.beatReactive := beatReactive;
    }

    /** Averages the buffer block by block, in place. */
    method Render(fb: Framebuffer, audio: Audio.AudioData)
      requires fb.Valid()
      modifies fb.pixels
      ensures fb.pixels[..] == Mosaicked(old(fb.pixels[..]), fb.width, fb.height,
                                         BlockSize(blockSize, beatReactive, audio.isBeat))
    {
      var w, h, px := fb.width, fb.height, fb.pixels;
      var bs := blockSize;
      if beatReactive && audio.isBeat {
        bs := bs * 2;
      }
      bs := Max(bs, 2);
      ghost var s := px[..];
      var top := 0;
      while top < h
        invariant 0 <= top && top % bs == 0
        invariant Progress(px[..], s, w, h, bs, top, 0)
        decreases h - top
      {
        var left := 0;
        while left < w
          invariant 0 <= left && left % bs == 0
          invariant Progress(px[..], s, w, h, bs, top, left)
          decreases w - left
        {
          AverageBlock(px, w, h, bs, left, top, s);
          NextBlockStart(left, bs);
          left := left + bs;
        }
        assert Progress(px[..], s, w, h, bs, top + bs, 0);
        NextBlockStart(top, bs);
        top := top + bs;
      }
      ImageExt(px[..], Mosaicked(s, w, h, bs), w, h);
    }
  }

  /** Blocks before (left, top) in row-major block order hold their average
      colour; the rest still hold the original image s. */
  ghost predicate Progress(cur: seq<Pixel>, s: seq<Pixel>, w: nat, h: nat, bs: int, top: int, left: int)
    requires |cur| == w * h && |s| == w * h && bs > 0
  {
    forall x, y :: 0 <= x < w && 0 <= y < h ==>
      At(cur, w, h, x, y) ==
        if y < top || (y < top + bs && x < left) then At(Mosaicked(s, w, h, bs), w, h, x, y)
        else At(s, w, h, x, y)
  }

  /** The next block start is again a multiple of the block size. */
  lemma NextBlockStart(start: int, bs: int)
    requires bs > 0 && start >= 0 && start % bs == 0
    ensures (start + bs) % bs == 0
  {
    DivMod(start / bs, bs, 0);
    DivMod(start / bs + 1, bs, 0);
  }

  /** Averages the block at (left, top) and paints it with the result. */
  method AverageBlock(px: array<Pixel>, w: nat, h: nat, bs: int, left: nat, top: nat, ghost s: seq<Pixel>)
    requires px.Length == w * h && |s| == w * h && bs > 0
    requires left < w && top < h && left % bs == 0 && top % bs == 0
    requires Progress(px[..], s, w, h, bs, top, left)
    modifies px
    ensures Progress(px[..], s, w, h, bs, top, left + bs)
  {
    var bw, bh := Min(bs, w - left), Min(bs, h - top);
    var avg := BlockAverage(px, w, h, bs, left, top, s);
    ghost var before := px[..];
    FillRect(px, w, h, left, left + bw, top, top + bh, avg);
    PaintExtendsProgress(before, px[..], s, w, h, bs, left, top);
  }

  /** The colour of the block at (left, top), summed from px where px still
      agrees with s. */
  method BlockAverage(px: array<Pixel>, w: nat, h: nat, bs: int, left: nat, top: nat, ghost s: seq<Pixel>)
    returns (avg: Pixel)
    requires px.Length == w * h && |s| == w * h && bs > 0 && left < w && top < h
    requires forall x, y :: left <= x < left + Min(bs, w - left) && top <= y < top + Min(bs, h - top) ==>
      At(px[..], w, h, x, y) == At(s, w, h, x, y)
    ensures avg == BlockColor(s, w, h, bs, left, top)
  {
    var bw, bh := Min(bs, w - left), Min(bs, h - top);
    var r := AverageChannel(px, w, h, R, left, left + bw, top, top + bh, s);
    var g := AverageChannel(px, w, h, G, left, left + bw, top, top + bh, s);
    var b := AverageChannel(px, w, h, B, left, left + bw, top, top + bh, s);
    avg := Opaque(r, g, b);
  }

  /** The floor of the average of one channel over a rectangle of px that
      agrees with s. */
  method AverageChannel(px: array<Pixel>, w: nat, h: nat, c: Chan, x0: nat, x1: nat, y0: nat, y1: nat, ghost s: seq<Pixel>)
    returns (v: Channel)
    requires px.Length == w * h && |s| == w * h && x0 < x1 <= w && y0 < y1 <= h
    requires forall x, y :: x0 <= x < x1 && y0 <= y < y1 ==> At(px[..], w, h, x, y) == At(s, w, h, x, y)
    ensures (x1 - x0) * (y1 - y0) > 0
    ensures v == RectSum(s, w, h, c, x0, x1, y0, y1) / ((x1 - x0) * (y1 - y0))
  {
    var sum := SumRect(px, w, h, c, x0, x1, y0, y1);
    RectSumFrame(px[..], s, w, h, c, x0, x1, y0, y1);
    RectAverageChannel(s, w, h, c, x0, x1, y0, y1);
    v := sum / ((x1 - x0) * (y1 - y0));
  }

  /** Painting the next block with its average colour advances the progress by one block. */
  lemma PaintExtendsProgress(before: seq<Pixel>, after: seq<Pixel>, s: seq<Pixel>, w: nat, h: nat, bs: int, left: int, top: int)
    requires |before| == w * h && |after| == w * h && |s| == w * h && bs > 0
    requires 0 <= left < w && 0 <= top < h && left % bs == 0 && top % bs == 0
    requires Progress(before, s, w, h, bs, top, left)
    requires forall x, y :: 0 <= x < w && 0 <= y < h ==>
      At(after, w, h, x, y) ==
        if left <= x < left + Min(bs, w - left) && top <= y < top + Min(bs, h - top)
        then BlockColor(s, w, h, bs, left, top) else At(before, w, h, x, y)
    ensures Progress(after, s, w, h, bs, top, left + bs)
  {
    forall x, y | 0 <= x < w && 0 <= y < h
      ensures At(after, w, h, x, y) ==
        if y < top || (y < top + bs && x < left + bs) then At(Mosaicked(s, w, h, bs), w, h, x, y)
        else At(s, w, h, x, y)
    {
      if left <= x < left + Min(bs, w - left) && top <= y < top + Min(bs, h - top) {
        SameBlock(x, left, bs);
        SameBlock(y, top, bs);
      }
    }
  }
}

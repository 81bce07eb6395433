/** Mirror: copies the left half of each row onto the right half, the top
    half of the image onto the bottom half, or both in that order. */
module MirrorEffect {
  import opened Pixels
  import opened Framebuffers
  import Audio

  datatype Mode = Horizontal | Vertical | Both

  /** The column that column x of a mirrored row is copied from: the right
      half reflects the left half, the left half and any middle column stay. */
  function Reflect(n: int, x: int): (r: int)
    requires 0 <= x < n
    ensures 0 <= r < n && r <= x && r < n - n / 2
    ensures x < n - n / 2 ==> r == x
    ensures x >= n - n / 2 ==> r == n - 1 - x
  {
    if x >= n - n / 2 then n - 1 - x else x
  }

  /** The image after the horizontal pass. */
  function MirrorH(s: seq<Pixel>, w: nat, h: nat): (r: seq<Pixel>)
    requires |s| == w * h
    ensures |r| == w * h
    ensures forall x, y :: 0 <= x < w && 0 <= y < h ==>
      At(r, w, h, x, y) == At(s, w, h, Reflect(w, x), y)
  {
    var r := seq(w * h, i requires 0 <= i < w * h =>
      IdxSplit(w, h, i);
      At(s, w, h, Reflect(w, i % w), i / w));
    forall x, y | 0 <= x < w && 0 <= y < h
      ensures At(r, w, h, x, y) == At(s, w, h, Reflect(w, x), y)
    {
      IdxInBounds(w, h, x, y);
      var i := Idx(w, x, y);
      IdxSplit(w, h, i);
      IdxInjective(w, x, y, i % w, i / w);
    }
    r
  }

  /** The image after the vertical pass. */
  function MirrorV(s: seq<Pixel>, w: nat, h: nat): (r: seq<Pixel>)
    requires |s| == w * h
    ensures |r| == w * h
    ensures forall x, y :: 0 <= x < w && 0 <= y < h ==>
      At(r, w, h, x, y) == At(s, w, h, x, Reflect(h, y))
  {
    var r := seq(w * h, i requires 0 <= i < w * h =>
      IdxSplit(w, h, i);
      At(s, w, h, i % w, Reflect(h, i / w)));
    forall x, y | 0 <= x < w && 0 <= y < h
      ensures At(r, w, h, x, y) == At(s, w, h, x, Reflect(h, y))
    {
      IdxInBounds(w, h, x, y);
      var i := Idx(w, x, y);
      IdxSplit(w, h, i);
      IdxInjective(w, x, y, i % w, i / w);
    }
    r
  }

  /** The image a render in the given mode produces: the horizontal pass,
      when selected, runs before the vertical one. */
  function Mirrored(s: seq<Pixel>, w: nat, h: nat, mode: Mode): (r: seq<Pixel>)
    requires |s| == w * h
    ensures |r| == w * h
  {
    match mode
    case Horizontal => MirrorH(s, w, h)
    case Vertical => MirrorV(s, w, h)
    case Both => MirrorV(MirrorH(s, w, h), w, h)
  }

  /** Every output pixel is a copy of an input pixel, taken from the
      reflected column and/or row. */
  lemma MirroredSource(s: seq<Pixel>, w: nat, h: nat, mode: Mode, x: int, y: int)
    requires |s| == w * h && 0 <= x < w && 0 <= y < h
    ensures At(Mirrored(s, w, h, mode), w, h, x, y) == At(s, w, h,
      if mode == Vertical then x else Reflect(w, x),
      if mode == Horizontal then y else Reflect(h, y))
  {
  }

  /** The result is symmetric about the axes its mode mirrors. */
  lemma MirroredSymmetric(s: seq<Pixel>, w: nat, h: nat, mode: Mode, x: int, y: int)
    requires |s| == w * h && 0 <= x < w && 0 <= y < h
    ensures mode != Vertical ==>
      At(Mirrored(s, w, h, mode), w, h, w - 1 - x, y) == At(Mirrored(s, w, h, mode), w, h, x, y)
    ensures mode != Horizontal ==>
      At(Mirrored(s, w, h, mode), w, h, x, h - 1 - y) == At(Mirrored(s, w, h, mode), w, h, x, y)
  {
    MirroredSource(s, w, h, mode, x, y);
    MirroredSource(s, w, h, mode, w - 1 - x, y);
    MirroredSource(s, w, h, mode, x, h - 1 - y);
  }

  /** The left columns (the middle one too, for odd widths) and the top rows
      are the sources, so they keep their pixels. */
  lemma MirroredKeepsSources(s: seq<Pixel>, w: nat, h: nat, mode: Mode, x: int, y: int)
    requires |s| == w * h && 0 <= x < w && 0 <= y < h
    requires mode != Vertical ==> x < w - w / 2
    requires mode != Horizontal ==> y < h - h / 2
    ensures At(Mirrored(s, w, h, mode), w, h, x, y) == At(s, w, h, x, y)
  {
    MirroredSource(s, w, h, mode, x, y);
  }

  /** Mirroring a mirrored image changes nothing. */
  lemma MirroredIdempotent(s: seq<Pixel>, w: nat, h: nat, mode: Mode)
    requires |s| == w * h
    ensures Mirrored(Mirrored(s, w, h, mode), w, h, mode) == Mirrored(s, w, h, mode)
  {
    var m := Mirrored(s, w, h, mode);
    forall x, y | 0 <= x < w && 0 <= y < h
      ensures At(Mirrored(m, w, h, mode), w, h, x, y) == At(m, w, h, x, y)
    {
      MirroredSource(m, w, h, mode, x, y);
      var x1 := if mode == Vertical then x else Reflect(w, x);
      var y1 := if mode == Horizontal then y else Reflect(h, y);
      MirroredSource(s, w, h, mode, x1, y1);
      MirroredSource(s, w, h, mode, x, y);
    }
    ImageExt(Mirrored(m, w, h, mode), m, w, h);
  }

  class Mirror {
    const mode: Mode

    constructor (mode: Mode := Horizontal)
      ensures this.mode == mode
    {
      this.mode := mode;
    }

    /** Mirrors the buffer in place; the audio is not consulted. */
    method Render(fb: Framebuffer, audio: Audio.AudioData)
      requires fb.Valid()
      modifies fb.pixels
      ensures fb.pixels[..] == Mirrored(old(fb.pixels[..]), fb.width, fb.height, mode)
    {
      var w, h := fb.width, fb.height;
      if mode == Horizontal || mode == Both {
        MirrorRows(fb);
      }
      if mode == Vertical || mode == Both {
        MirrorColumns(fb);
      }
    }
  }

  /** The horizontal pass: row[w-1-x] := row[x] for x < w/2 in every row. */
  method MirrorRows(fb: Framebuffer)
    requires fb.Valid()
    modifies fb.pixels
    ensures fb.pixels[..] == MirrorH(old(fb.pixels[..]), fb.width, fb.height)
  {
    var px, w, h := fb.pixels, fb.width, fb.height;
    ghost var s := px[..];
    var halfW := w / 2;
    var y := 0;
    while y < h
      invariant 0 <= y <= h
      invariant forall x', y' :: 0 <= x' < w && 0 <= y' < h ==>
        At(px[..], w, h, x', y') == if y' < y then At(s, w, h, Reflect(w, x'), y') else At(s, w, h, x', y')
    {
      var x := 0;
      while x < halfW
        invariant 0 <= x <= halfW
        invariant forall x', y' :: 0 <= x' < w && 0 <= y' < h ==>
          At(px[..], w, h, x', y') ==
            if y' < y || (y' == y && x' >= w - x) then At(s, w, h, Reflect(w, x'), y') else At(s, w, h, x', y')
      {
        IdxInBounds(w, h, x, y);
        IdxInBounds(w, h, w - 1 - x, y);
        ghost var before := px[..];
        var v := px[Idx(w, x, y)];
        assert v == At(before, w, h, x, y);
        assert x < w - x;
        assert v == At(s, w, h, Reflect(w, w - 1 - x), y);
        px[Idx(w, w - 1 - x, y)] := v;
        assert px[..] == before[Idx(w, w - 1 - x, y) := v];
        forall x', y' | 0 <= x' < w && 0 <= y' < h
          ensures At(px[..], w, h, x', y') ==
            if y' < y || (y' == y && x' >= w - (x + 1)) then At(s, w, h, Reflect(w, x'), y') else At(s, w, h, x', y')
        {
          AtUpdate(before, w, h, w - 1 - x, y, v, x', y');
        }
        x := x + 1;
      }
      y := y + 1;
    }
    ImageExt(px[..], MirrorH(s, w, h), w, h);
  }

  /** The vertical pass: row h-1-y := row y for y < h/2. */
  method MirrorColumns(fb: Framebuffer)
    requires fb.Valid()
    modifies fb.pixels
    ensures fb.pixels[..] == MirrorV(old(fb.pixels[..]), fb.width, fb.height)
  {
    var px, w, h := fb.pixels, fb.width, fb.height;
    ghost var s := px[..];
    var halfH := h / 2;
    var y := 0;
    while y < halfH
      invariant 0 <= y <= halfH
      invariant forall x', y' :: 0 <= x' < w && 0 <= y' < h ==>
        At(px[..], w, h, x', y') == if y' >= h - y then At(s, w, h, x', Reflect(h, y')) else At(s, w, h, x', y')
    {
      var x := 0;
      while x < w
        invariant 0 <= x <= w
        invariant forall x', y' :: 0 <= x' < w && 0 <= y' < h ==>
          At(px[..], w, h, x', y') ==
            if y' >= h - y || (y' == h - 1 - y && x' < x) then At(s, w, h, x', Reflect(h, y')) else At(s, w, h, x', y')
      {
        IdxInBounds(w, h, x, y);
        IdxInBounds(w, h, x, h - 1 - y);
        ghost var before := px[..];
        var v := px[Idx(w, x, y)];
        assert v == At(before, w, h, x, y);
        assert y < h - y;
        assert v == At(s, w, h, x, Reflect(h, h - 1 - y));
        px[Idx(w, x, h - 1 - y)] := v;
        assert px[..] == before[Idx(w, x, h - 1 - y) := v];
        forall x', y' | 0 <= x' < w && 0 <= y' < h
          ensures At(px[..], w, h, x', y') ==
            if y' >= h - y || (y' == h - 1 - y && x' < x + 1) then At(s, w, h, x', Reflect(h, y')) else At(s, w, h, x', y')
        {
          AtUpdate(before, w, h, x, h - 1 - y, v, x', y');
        }
        x := x + 1;
      }
      y := y + 1;
    }
    ImageExt(px[..], MirrorV(s, w, h), w, h);
  }
}

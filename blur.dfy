/** Blur: repeated 3x3 box blur of the interior of the image. Each pass
    reads a copy of the buffer taken at the start of the pass. */
module BlurEffect {
  import opened Pixels
  import opened Regions
  import opened Framebuffers
  import Audio

  /** Pixels off the first and last row and column. */
  predicate Interior(w: int, h: int, x: int, y: int)
  {
    1 <= x < w - 1 && 1 <= y < h - 1
  }

  /** The floored mean of a 3x3 neighbourhood lies between the smallest and
      largest value in it. */
  lemma BoxMeanBetween(s: seq<Pixel>, w: nat, h: nat, c: Chan, x: int, y: int, lo: int, hi: int)
    requires |s| == w * h && Interior(w, h, x, y)
    requires Between(s, w, h, c, x - 1, x + 2, y - 1, y + 2, lo, hi)
    ensures lo <= RectSum(s, w, h, c, x - 1, x + 2, y - 1, y + 2) / 9 <= hi
  {
    RectAverageBounds(s, w, h, c, x - 1, x + 2, y - 1, y + 2, lo, hi);
    assert (x + 2 - (x - 1)) * (y + 2 - (y - 1)) == 9;
  }

  /** The blurred colour of an interior pixel: opaque, each channel the
      floored mean of its 3x3 neighbourhood. */
  function BoxColor(s: seq<Pixel>, w: nat, h: nat, x: int, y: int): Pixel
    requires |s| == w * h && Interior(w, h, x, y)
  {
    BoxMeanBetween(s, w, h, R, x, y, 0, 255);
    BoxMeanBetween(s, w, h, G, x, y, 0, 255);
    BoxMeanBetween(s, w, h, B, x, y, 0, 255);
    Opaque(RectSum(s, w, h, R, x - 1, x + 2, y - 1, y + 2) / 9,
           RectSum(s, w, h, G, x - 1, x + 2, y - 1, y + 2) / 9,
           RectSum(s, w, h, B, x - 1, x + 2, y - 1, y + 2) / 9)
  }

  /** One pass: interior pixels take their box colour, computed over s; the border stays. */
  function BlurPass(s: seq<Pixel>, w: nat, h: nat): (r: seq<Pixel>)
    requires |s| == w * h
    ensures |r| == w * h
    ensures forall x, y :: 0 <= x < w && 0 <= y < h ==>
      At(r, w, h, x, y) == if Interior(w, h, x, y) then BoxColor(s, w, h, x, y) else At(s, w, h, x, y)
  {
    var r := seq(w * h, i requires 0 <= i < w * h =>
      IdxSplit(w, h, i);
      if Interior(w, h, i % w, i / w) then BoxColor(s, w, h, i % w, i / w) else s[i]);
    forall x, y | 0 <= x < w && 0 <= y < h
      ensures At(r, w, h, x, y) == if Interior(w, h, x, y) then BoxColor(s, w, h, x, y) else At(s, w, h, x, y)
    {
      IdxInBounds(w, h, x, y);
      var i := Idx(w, x, y);
      IdxSplit(w, h, i);
      IdxInjective(w, x, y, i % w, i / w);
    }
    r
  }

  /** passes blur passes in a row; zero or fewer passes leave the image as it is. */
  function Blurred(s: seq<Pixel>, w: nat, h: nat, passes: int): (r: seq<Pixel>)
    requires |s| == w * h
    ensures |r| == w * h
    ensures passes <= 0 ==> r == s
    decreases passes
  {
    if passes <= 0 then s else BlurPass(Blurred(s, w, h, passes - 1), w, h)
  }

  /** However many passes run, the first and last row and column keep their pixels. */
  lemma {:induction false} BorderKept(s: seq<Pixel>, w: nat, h: nat, passes: int, x: int, y: int)
    requires |s| == w * h && 0 <= x < w && 0 <= y < h && !Interior(w, h, x, y)
    ensures At(Blurred(s, w, h, passes), w, h, x, y) == At(s, w, h, x, y)
    decreases passes
  {
    if passes > 0 {
      BorderKept(s, w, h, passes - 1, x, y);
    }
  }

  /** An image of one opaque colour is left as it is by a pass. */
  lemma UniformPassFixed(s: seq<Pixel>, w: nat, h: nat, p: Pixel)
    requires |s| == w * h && Alpha(p) == 255
    requires forall i :: 0 <= i < |s| ==> s[i] == p
    ensures BlurPass(s, w, h) == s
  {
    forall x, y | 0 <= x < w && 0 <= y < h
      ensures At(s, w, h, x, y) == p
    {
      IdxInBounds(w, h, x, y);
    }
    forall x, y | 0 <= x < w && 0 <= y < h && Interior(w, h, x, y)
      ensures BoxColor(s, w, h, x, y) == At(s, w, h, x, y)
    {
      BoxMeanBetween(s, w, h, R, x, y, Red(p), Red(p));
      BoxMeanBetween(s, w, h, G, x, y, Green(p), Green(p));
      BoxMeanBetween(s, w, h, B, x, y, Blue(p), Blue(p));
    }
    ImageExt(BlurPass(s, w, h), s, w, h);
  }

  /** ... and so by any number of passes. */
  lemma {:induction false} UniformFixed(s: seq<Pixel>, w: nat, h: nat, p: Pixel, passes: int)
    requires |s| == w * h && Alpha(p) == 255
    requires forall i :: 0 <= i < |s| ==> s[i] == p
    ensures Blurred(s, w, h, passes) == s
    decreases passes
  {
    if passes > 0 {
      UniformFixed(s, w, h, p, passes - 1);
      UniformPassFixed(s, w, h, p);
    }
  }

  class Blur {
    const passes: int
    /** The copy each pass reads from, sized for the engine's resolution. */
    const temp: Framebuffer

    ghost predicate Valid()
    {
      temp.Valid() && temp.width == Width && temp.height == Height
    }

    constructor (passes: int := 1)
      ensures Valid() && this.passes == passes && fresh(temp) && fresh(temp.pixels)
    {
      this.passes := passes;
      temp := new Framebuffer(Width, Height);
    }

    /** Blurs the buffer passes times; the audio is not consulted. */
    method Render(fb: Framebuffer, audio: Audio.AudioData)
      requires Valid() && fb.Valid() && fb.width == Width && fb.height == Height
      requires fb.pixels != temp.pixels
      modifies fb.pixels, temp.pixels
      ensures fb.pixels[..] == Blurred(old(fb.pixels[..]), fb.width, fb.height, passes)
    {
      var w, h := fb.width, fb.height;
      ghost var s := fb.pixels[..];
      var p := 0;
      while p < passes
        invariant 0 <= p <= if passes > 0 then passes else 0
        invariant fb.pixels[..] == Blurred(s, w, h, p)
      {
        temp.CopyFrom(fb);
        BlurInto(temp.pixels, fb.pixels, w, h);
        p := p + 1;
      }
      if passes <= 0 {
        assert p == 0 && Blurred(s, w, h, passes) == s;
      } else {
        assert p == passes;
      }
    }
  }

  /** Writes the box colour of every interior pixel of src into dst, which
      starts as a copy of src. */
  method BlurInto(src: array<Pixel>, dst: array<Pixel>, w: nat, h: nat)
    requires src.Length == w * h && dst.Length == w * h && src != dst
    requires dst[..] == src[..]
    modifies dst
    ensures dst[..] == BlurPass(src[..], w, h)
  {
    var y := 1;
    while y < h - 1
      invariant 1 <= y && (h >= 2 ==> y <= h - 1)
      invariant forall x', y' :: 0 <= x' < w && 0 <= y' < h ==>
        At(dst[..], w, h, x', y') ==
          if Interior(w, h, x', y') && y' < y then BoxColor(src[..], w, h, x', y') else At(src[..], w, h, x', y')
    {
      var x := 1;
      while x < w - 1
        invariant 1 <= x && (w >= 2 ==> x <= w - 1)
        invariant forall x', y' :: 0 <= x' < w && 0 <= y' < h ==>
          At(dst[..], w, h, x', y') ==
            if Interior(w, h, x', y') && (y' < y || (y' == y && x' < x)) then BoxColor(src[..], w, h, x', y')
            else At(src[..], w, h, x', y')
      {
        var c := BoxAverage(src, w, h, x, y);
        IdxInBounds(w, h, x, y);
        ghost var before := dst[..];
        dst[Idx(w, x, y)] := c;
        assert dst[..] == before[Idx(w, x, y) := c];
        forall x', y' | 0 <= x' < w && 0 <= y' < h
          ensures At(dst[..], w, h, x', y') ==
            if Interior(w, h, x', y') && (y' < y || (y' == y && x' < x + 1)) then BoxColor(src[..], w, h, x', y')
            else At(src[..], w, h, x', y')
        {
          AtUpdate(before, w, h, x, y, c, x', y');
        }
        x := x + 1;
      }
      y := y + 1;
    }
    ImageExt(dst[..], BlurPass(src[..], w, h), w, h);
  }

  /** The 3x3 neighbourhood sums of (x, y), divided by 9. */
  method BoxAverage(src: array<Pixel>, w: nat, h: nat, x: nat, y: nat) returns (c: Pixel)
    requires src.Length == w * h && Interior(w, h, x, y)
    ensures c == BoxColor(src[..], w, h, x, y)
  {
    var sumR := SumRect(src, w, h, R, x - 1, x + 2, y - 1, y + 2);
    var sumG := SumRect(src, w, h, G, x - 1, x + 2, y - 1, y + 2);
    var sumB := SumRect(src, w, h, B, x - 1, x + 2, y - 1, y + 2);
    BoxMeanBetween(src[..], w, h, R, x, y, 0, 255);
    BoxMeanBetween(src[..], w, h, G, x, y, 0, 255);
    BoxMeanBetween(src[..], w, h, B, x, y, 0, 255);
    c := Opaque(sumR / 9, sumG / 9, sumB / 9);
  }
}

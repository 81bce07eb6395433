/** Buffer blend (echo): the frame is mixed with an accumulator of earlier
    output, weighted by blendRatio, and the mix becomes both the output and
    the new accumulator. The first render only seeds the accumulator. */
module BufferBlendEffect {
  import opened Pixels
  import opened Framebuffers
  import Audio

  /** One blended channel: static_cast<int>(prev * ratio + cur * (1 - ratio)),
      clamped into 0..255. */
  function MixChannel(prev: Channel, cur: Channel, oldW: real, newW: real): (c: Channel)
    ensures 0.0 <= oldW <= 1.0 && newW == 1.0 - oldW ==> Min(prev, cur) <= c <= Max(prev, cur)
  {
    var v := prev as real * oldW + cur as real * newW;
    assert 0.0 <= oldW <= 1.0 && newW == 1.0 - oldW ==> Min(prev, cur) <= Clamp(Trunc(v), 0, 255) <= Max(prev, cur) by {
      if 0.0 <= oldW <= 1.0 && newW == 1.0 - oldW {
        MixBetween(prev, cur, oldW, newW);
      }
    }
    Clamp(Trunc(v), 0, 255)
  }

  /** For a ratio in [0, 1] the weighted sum lies between the two channels,
      so its truncation does too and the clamp changes nothing. */
  lemma MixBetween(prev: Channel, cur: Channel, ratio: real, q: real)
    requires 0.0 <= ratio <= 1.0 && q == 1.0 - ratio
    ensures var v := prev as real * ratio + cur as real * q;
      Min(prev, cur) as real <= v <= Max(prev, cur) as real
      && Min(prev, cur) <= Trunc(v) <= Max(prev, cur)
  {
    var lo, hi := Min(prev, cur), Max(prev, cur);
    MixAbove(prev as real, cur as real, lo as real, ratio, q);
    MixBelow(prev as real, cur as real, hi as real, ratio, q);
    TruncBetween(lo, hi, prev as real * ratio + cur as real * q);
  }

  /** A convex combination of two reals at or above lo is at or above lo. */
  lemma MixAbove(p: real, c: real, lo: real, ratio: real, q: real)
    requires 0.0 <= ratio && 0.0 <= q && ratio + q == 1.0 && lo <= p && lo <= c
    ensures lo <= p * ratio + c * q
  {
    assert p * ratio + c * q - lo == (p - lo) * ratio + (c - lo) * q by {
      assert lo * ratio + lo * q == lo;
    }
    ProductNonNeg(p - lo, ratio);
    ProductNonNeg(c - lo, q);
  }

  /** A convex combination of two reals at or below hi is at or below hi. */
  lemma MixBelow(p: real, c: real, hi: real, ratio: real, q: real)
    requires 0.0 <= ratio && 0.0 <= q && ratio + q == 1.0 && p <= hi && c <= hi
    ensures p * ratio + c * q <= hi
  {
    assert hi - (p * ratio + c * q) == (hi - p) * ratio + (hi - c) * q by {
      assert hi * ratio + hi * q == hi;
    }
    ProductNonNeg(hi - p, ratio);
    ProductNonNeg(hi - c, q);
  }

  /** A real between two integers truncates to a value between them. */
  lemma TruncBetween(lo: int, hi: int, v: real)
    requires 0 <= lo && lo as real <= v <= hi as real
    ensures lo <= Trunc(v) <= hi
  {
    TruncWhole(lo);
    TruncWhole(hi);
    TruncMono(lo as real, v);
    TruncMono(v, hi as real);
  }

  lemma ProductNonNeg(a: real, b: real)
    requires 0.0 <= a && 0.0 <= b
    ensures 0.0 <= a * b
  {
  }

  /** The blended pixel: opaque, each colour channel mixed separately. */
  function Blend(acc: Pixel, cur: Pixel, ratio: real): (p: Pixel)
    ensures Alpha(p) == 255
  {
    var newW := 1.0 - ratio;
    Opaque(MixChannel(Red(acc), Red(cur), ratio, newW), MixChannel(Green(acc), Green(cur), ratio, newW),
           MixChannel(Blue(acc), Blue(cur), ratio, newW))
  }

  /** Ratio 0 keeps only the current frame, ratio 1 only the accumulator
      (each made opaque). */
  lemma BlendEnds(acc: Pixel, cur: Pixel)
    ensures Blend(acc, cur, 0.0) == Opaque(Red(cur), Green(cur), Blue(cur))
    ensures Blend(acc, cur, 1.0) == Opaque(Red(acc), Green(acc), Blue(acc))
  {
    TruncWhole(Red(cur)); TruncWhole(Green(cur)); TruncWhole(Blue(cur));
    TruncWhole(Red(acc)); TruncWhole(Green(acc)); TruncWhole(Blue(acc));
  }

  /** An opaque pixel blended with itself stays the same for any ratio in
      [0, 1]: a still picture is not smeared. */
  lemma BlendSteady(p: Pixel, ratio: real)
    requires Alpha(p) == 255 && 0.0 <= ratio <= 1.0
    ensures Blend(p, p, ratio) == p
  {
  }

  /** A later render: the first n pixels become the blend of accumulator and
      frame, in both buffers. */
  function Blended(acc: seq<Pixel>, cur: seq<Pixel>, ratio: real): (r: seq<Pixel>)
    requires |cur| <= |acc|
    ensures |r| == |cur|
    ensures forall i :: 0 <= i < |cur| ==> r[i] == Blend(acc[i], cur[i], ratio) && Alpha(r[i]) == 255
  {
    seq(|cur|, i requires 0 <= i < |cur| => Blend(acc[i], cur[i], ratio))
  }

  /** With a ratio in [0, 1] every blended channel lies between the
      accumulator's and the frame's. */
  lemma BlendedBetween(acc: seq<Pixel>, cur: seq<Pixel>, ratio: real, i: int)
    requires |cur| <= |acc| && 0 <= i < |cur| && 0.0 <= ratio <= 1.0
    ensures var p := Blended(acc, cur, ratio)[i];
      Min(Red(acc[i]), Red(cur[i])) <= Red(p) <= Max(Red(acc[i]), Red(cur[i]))
      && Min(Green(acc[i]), Green(cur[i])) <= Green(p) <= Max(Green(acc[i]), Green(cur[i]))
      && Min(Blue(acc[i]), Blue(cur[i])) <= Blue(p) <= Max(Blue(acc[i]), Blue(cur[i]))
  {
  }

  class BufferBlend {
    var blendRatio: real
    const accumulator: Framebuffer
    var firstFrame: bool

    ghost predicate Valid()
    {
      accumulator.Valid() && accumulator.width == Width && accumulator.height == Height
    }

    /** A fresh echo with an all-black accumulator, waiting for its first frame. */
    constructor (blendRatio: real := 0.7)
      ensures Valid() && this.blendRatio == blendRatio && firstFrame
      ensures fresh(accumulator) && fresh(accumulator.pixels)
      ensures accumulator.pixels[..] == Filled(Width * Height, OpaqueBlack)
    {
      this.blendRatio := blendRatio;
      accumulator := new Framebuffer(Width, Height);
      firstFrame := true;
    }

    /** The first call copies the frame into the accumulator (when the sizes
        agree) and leaves the frame as it is; every later call blends. */
    method Render(fb: Framebuffer, audio: Audio.AudioData)
      requires Valid() && fb.Valid() && fb.pixels != accumulator.pixels
      requires fb.pixels.Length <= accumulator.pixels.Length
      modifies this, fb.pixels, accumulator.pixels
      ensures Valid() && !firstFrame && blendRatio == old(blendRatio)
      ensures old(firstFrame) ==>
        fb.pixels[..] == old(fb.pixels[..])
        && accumulator.pixels[..] ==
          if fb.width == Width && fb.height == Height then old(fb.pixels[..]) else old(accumulator.pixels[..])
      ensures !old(firstFrame) ==>
        var mixed := Blended(old(accumulator.pixels[..]), old(fb.pixels[..]), blendRatio);
        fb.pixels[..] == mixed
        && accumulator.pixels[..] == mixed + old(accumulator.pixels[fb.pixels.Length..])
    {
      if firstFrame {
        accumulator.CopyFrom(fb);
        firstFrame := false;
        return;
      }
      var count := fb.PixelCount();
      BlendInto(fb.pixels, accumulator.pixels, count, blendRatio, 1.0 - blendRatio);
    }
  }

  /** Blends the first count pixels of cur with acc, writing the result to both. */
  method BlendInto(cur: array<Pixel>, acc: array<Pixel>, count: int, oldW: real, newW: real)
    requires cur != acc && count == cur.Length <= acc.Length && newW == 1.0 - oldW
    modifies cur, acc
    ensures cur[..] == Blended(old(acc[..]), old(cur[..]), oldW)
    ensures acc[..] == cur[..] + old(acc[count..])
  {
    ghost var acc0, cur0 := acc[..], cur[..];
    ghost var mixed := Blended(acc0, cur0, oldW);
    var i := 0;
    while i < count
      invariant 0 <= i <= count
      invariant forall k :: 0 <= k < i ==> cur[k] == mixed[k] && acc[k] == mixed[k]
      invariant forall k :: i <= k < count ==> cur[k] == cur0[k]
      invariant forall k :: i <= k < acc.Length ==> acc[k] == acc0[k]
    {
      var blended := BlendPixel(acc[i], cur[i], oldW, newW);
      assert blended == mixed[i];
      acc[i] := blended;
      cur[i] := blended;
      i := i + 1;
    }
    assert acc[..] == acc[..count] + acc[count..];
  }

  /** The loop body's arithmetic for one pixel. */
  method BlendPixel(a: Pixel, c: Pixel, oldW: real, newW: real) returns (blended: Pixel)
    requires newW == 1.0 - oldW
    ensures blended == Blend(a, c, oldW)
  {
    var r := MixChannel(Red(a), Red(c), oldW, newW);
    var g := MixChannel(Green(a), Green(c), oldW, newW);
    var b := MixChannel(Blue(a), Blue(c), oldW, newW);
    blended := Opaque(r, g, b);
  }
}

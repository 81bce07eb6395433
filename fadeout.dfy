/** Fade Out: every colour channel drops by a fixed amount per frame, never below zero. */
module FadeOutEffect {
  import opened Pixels
  import opened Framebuffers
  import Audio

  /** One channel faded by speed, floored at zero. */
  function FadeChannel(c: Channel, speed: nat): (r: Channel)
    ensures r <= c
    ensures r == if c >= speed then c - speed else 0
  {
    Max(0, c - speed)
  }

  /** A pixel with each colour channel faded and its alpha kept. */
  function FadePixel(p: Pixel, speed: nat): (q: Pixel)
    ensures Alpha(q) == Alpha(p)
    ensures Red(q) == FadeChannel(Red(p), speed) && Green(q) == FadeChannel(Green(p), speed)
    ensures Blue(q) == FadeChannel(Blue(p), speed)
  {
    Pack(Alpha(p), FadeChannel(Red(p), speed), FadeChannel(Green(p), speed), FadeChannel(Blue(p), speed))
  }

  /** Every pixel faded independently. */
  function Faded(s: seq<Pixel>, speed: nat): (r: seq<Pixel>)
    ensures |r| == |s| && forall i :: 0 <= i < |s| ==> r[i] == FadePixel(s[i], speed)
  {
    seq(|s|, i requires 0 <= i < |s| => FadePixel(s[i], speed))
  }

  /** Speed zero changes nothing. */
  lemma FadeZero(s: seq<Pixel>)
    ensures Faded(s, 0) == s
  {
    forall i | 0 <= i < |s|
      ensures Faded(s, 0)[i] == s[i]
    {
    }
  }

  /** Fading by a and then by b is fading by a + b. */
  lemma FadeCompose(s: seq<Pixel>, a: nat, b: nat)
    ensures Faded(Faded(s, a), b) == Faded(s, a + b)
  {
    forall i | 0 <= i < |s|
      ensures Faded(Faded(s, a), b)[i] == Faded(s, a + b)[i]
    {
    }
  }

  /** No channel grows and a channel already at zero stays at zero. */
  lemma FadeNeverBrightens(p: Pixel, speed: nat)
    ensures Red(FadePixel(p, speed)) <= Red(p) && Green(FadePixel(p, speed)) <= Green(p)
    ensures Blue(FadePixel(p, speed)) <= Blue(p)
    ensures Red(p) == 0 ==> Red(FadePixel(p, speed)) == 0
    ensures Green(p) == 0 ==> Green(FadePixel(p, speed)) == 0
    ensures Blue(p) == 0 ==> Blue(FadePixel(p, speed)) == 0
  {
  }

  class FadeOut {
    const speed: nat

    constructor (speed: nat := 4)
      ensures this.speed == speed
    {
      this.speed := speed;
    }

    /** Fades the whole buffer in place; the audio is not consulted. */
    method Render(fb: Framebuffer, audio: Audio.AudioData)
      requires fb.Valid()
      modifies fb.pixels
      ensures fb.pixels[..] == Faded(old(fb.pixels[..]), speed)
    {
      var px := fb.pixels;
      var count := fb.PixelCount();
      var i := 0;
      while i < count
        invariant 0 <= i <= count
        invariant forall k :: 0 <= k < i ==> px[k] == FadePixel(old(px[k]), speed)
        invariant forall k :: i <= k < count ==> px[k] == old(px[k])
      {
        var p := px[i];
        var a, r, g, b := Alpha(p), Red(p), Green(p), Blue(p);
        r := Max(0, r - speed);
        g := Max(0, g - speed);
        b := Max(0, b - speed);
        px[i] := Pack(a, r, g, b);
        i := i + 1;
      }
    }
  }
}

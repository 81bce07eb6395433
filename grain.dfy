/** Grain: adds independent random noise to every colour channel, drawn
    from the effect's own xorshift generator. */
module GrainEffect {
  import opened Pixels
  import opened Framebuffers
  import opened Xorshift
  import Audio

  const InitialSeed: bv32 := 0xDEAD_BEEF

  /** The noise half-width for this frame: the configured amount, grown by
      up to twice itself with the beat envelope when beat-reactive, then
      truncated toward zero. */
  function Amplitude(amount: int, beatReactive: bool, beatDecay: real): (amt: int)
    ensures !beatReactive ==> amt == amount
  {
    if beatReactive then Trunc(amount as real + beatDecay * amount as real * 2.0) else amount
  }

  /** A generator output reduced modulo 2 amt and shifted to [-amt, amt). */
  function Noise(x: bv32, amt: int): (n: int)
    requires amt > 0
    ensures -amt <= n < amt
  {
    (x as int) % (amt * 2) - amt
  }

  /** One pixel with noise from the three generator outputs after state r
      added to red, green and blue in that order, clamped; alpha is kept. */
  function GrainPixel(p: Pixel, r: bv32, amt: int): Pixel
    requires amt > 0
  {
    Pack(Alpha(p),
      Clamp(Red(p) + Noise(NextN(r, 1), amt), 0, 255),
      Clamp(Green(p) + Noise(NextN(r, 2), amt), 0, 255),
      Clamp(Blue(p) + Noise(NextN(r, 3), amt), 0, 255))
  }

  /** The whole buffer after one pass: pixel i uses the generator state
      after the 3 i outputs drawn for the pixels before it. */
  function Grained(s: seq<Pixel>, seed: bv32, amt: int): (t: seq<Pixel>)
    requires amt > 0
    ensures |t| == |s|
  {
    seq(|s|, i requires 0 <= i < |s| => GrainPixel(s[i], NextN(seed, 3 * i), amt))
  }

  /** Each channel moves by less than amt (at most amt downward), and alpha is kept. */
  lemma GrainBounded(p: Pixel, r: bv32, amt: int)
    requires amt > 0
    ensures var q := GrainPixel(p, r, amt);
      Alpha(q) == Alpha(p) &&
      Red(p) - amt <= Red(q) < Red(p) + amt &&
      Green(p) - amt <= Green(q) < Green(p) + amt &&
      Blue(p) - amt <= Blue(q) < Blue(p) + amt
  {
  }

  /** Beat reactivity can only widen the noise, to at most three times the amount. */
  lemma AmplitudeGrowsWithBeat(amount: nat, beatDecay: real)
    requires 0.0 <= beatDecay <= 1.0
    ensures amount <= Amplitude(amount, true, beatDecay) <= 3 * amount
  {
    var x := amount as real + beatDecay * amount as real * 2.0;
    assert beatDecay * amount as real <= 1.0 * amount as real by {
      assert (1.0 - beatDecay) * amount as real >= 0.0;
    }
    assert amount as real <= x <= 3.0 * amount as real;
  }

  /** The generator state after n pixels is never zero when the seed was not. */
  lemma StateNeverZero(seed: bv32, n: nat)
    requires seed != 0
    ensures NextN(seed, 3 * n) != 0
  {
    NonZeroForever(seed, 3 * n);
  }

  lemma ThreeSteps(r: bv32, x1: bv32, x2: bv32, x3: bv32)
    requires x1 == Next(r) && x2 == Next(x1) && x3 == Next(x2)
    ensures x1 == NextN(r, 1) && x2 == NextN(r, 2) && x3 == NextN(r, 3)
  {
    assert NextN(r, 0) == r;
    assert NextN(r, 1) == Next(NextN(r, 0));
    assert NextN(r, 2) == Next(NextN(r, 1));
    assert NextN(r, 3) == Next(NextN(r, 2));
  }

  class Grain {
    const amount: int
    const beatReactive: bool
    /** The generator state, advanced by three outputs per pixel. */
    var rng: bv32

    constructor (amount: int := 8, beatReactive: bool := true)
      ensures this.amount == amount && this.beatReactive == beatReactive && rng == InitialSeed
    {
      this.amount := amount;
      this.beatReactive := beatReactive;
      rng := InitialSeed;
    }

    /** Advances the generator by one step and returns the new state. */
    method Xorshift32() returns (r: bv32)
      modifies this
      ensures rng == Next(old(rng)) && r == rng
    {
      rng := Step13(rng);
      rng := Step17(rng);
      rng := Step5(rng);
      r := rng;
    }

    /** Adds noise to every pixel; a non-positive amplitude leaves the
        buffer and the generator as they were. */
    method Render(fb: Framebuffer, audio: Audio.AudioData)
      requires fb.Valid()
      modifies this, fb.pixels
      ensures var amt := Amplitude(amount, beatReactive, old(audio.beatDecay));
        if amt <= 0 then
          fb.pixels[..] == old(fb.pixels[..]) && rng == old(rng)
        else
          fb.pixels[..] == Grained(old(fb.pixels[..]), old(rng), amt) &&
          rng == NextN(old(rng), 3 * fb.pixels.Length)
    {
      var amt := Amplitude(amount, beatReactive, audio.beatDecay);
      if amt <= 0 {
        return;
      }
      var px := fb.pixels;
      var count := fb.PixelCount();
      ghost var s := px[..];
      ghost var seed := rng;
      var i := 0;
      while i < count
        invariant 0 <= i <= count
        invariant rng == NextN(seed, 3 * i)
        invariant forall k :: 0 <= k < i ==> px[k] == GrainPixel(s[k], NextN(seed, 3 * k), amt)
        invariant forall k :: i <= k < count ==> px[k] == s[k]
      {
        GrainAt(px, i, amt, s, seed);
        i := i + 1;
      }
      assert px[..] == Grained(s, seed, amt);
    }

    /** Grains pixel i, the pixels before it already grained in order. */
    method GrainAt(px: array<Pixel>, i: int, amt: int, ghost s: seq<Pixel>, ghost seed: bv32)
      requires 0 <= i < px.Length && amt > 0 && |s| == px.Length
      requires rng == NextN(seed, 3 * i)
      requires forall k :: 0 <= k < i ==> px[k] == GrainPixel(s[k], NextN(seed, 3 * k), amt)
      requires forall k :: i <= k < px.Length ==> px[k] == s[k]
      modifies this, px
      ensures rng == NextN(seed, 3 * (i + 1))
      ensures forall k :: 0 <= k <= i ==> px[k] == GrainPixel(s[k], NextN(seed, 3 * k), amt)
      ensures forall k :: i < k < px.Length ==> px[k] == s[k]
    {
      var q := GrainOne(px[i], amt);
      px[i] := q;
      NextNAdd(seed, 3 * i, 3);
    }

    /** Draws the three outputs for one pixel and adds them to its channels. */
    method GrainOne(p: Pixel, amt: int) returns (q: Pixel)
      requires amt > 0
      modifies this
      ensures rng == NextN(old(rng), 3) && q == GrainPixel(p, old(rng), amt)
    {
      ghost var before := rng;
      var x1 := Xorshift32();
      var x2 := Xorshift32();
      var x3 := Xorshift32();
      ThreeSteps(before, x1, x2, x3);
      q := Pack(Alpha(p),
        Clamp(Red(p) + Noise(x1, amt), 0, 255),
        Clamp(Green(p) + Noise(x2, amt), 0, 255),
        Clamp(Blue(p) + Noise(x3, amt), 0, 255));
    }
  }
}

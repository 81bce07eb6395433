/** On Beat Clear: on a beat frame, fills the whole buffer with one colour. */
module OnBeatClearEffect {
  import opened Pixels
  import opened Framebuffers
  import opened Xorshift
  import Audio

  datatype Mode = ClearBlack | FlashWhite | FlashColor | RandomColor

  const InitialSeed: bv32 := 0x1234_5678

  /** An opaque colour whose red, green and blue are the low 24 bits of x. */
  function RandomOpaque(x: bv32): (p: Pixel)
    ensures Alpha(p) == 255
  {
    DivMod(255, 0x100_0000, (x as int) % 0x100_0000);
    FromWord(0xFF00_0000 + (x as int) % 0x100_0000)
  }

  /** The fill colour of a beat frame; for RandomColor, from the advanced state. */
  function FillColor(mode: Mode, flashColor: Pixel, state: bv32): Pixel
  {
    match mode
    case ClearBlack => OpaqueBlack
    case FlashWhite => OpaqueWhite
    case FlashColor => flashColor
    case RandomColor => RandomOpaque(Next(state))
  }

  /** Every fill colour but a configured flash colour is opaque. */
  lemma FillOpaque(mode: Mode, flashColor: Pixel, state: bv32)
    requires mode != FlashColor || Alpha(flashColor) == 255
    ensures Alpha(FillColor(mode, flashColor, state)) == 255
  {
    DivMod(255, 0x100_0000, 0);
    DivMod(255, 0x100_0000, 0xFF_FFFF);
  }

  /** From the initial seed the generator never reaches the all-zero state,
      which would make every later random flash black. */
  lemma RandomStateNeverZero(n: nat)
    ensures NextN(InitialSeed, n) != 0
  {
    NonZeroForever(InitialSeed, n);
  }

  class OnBeatClear {
    const mode: Mode
    const flashColor: Pixel
    var rngState: bv32

    constructor (mode: Mode := FlashWhite, flashColor: Pixel := OpaqueWhite)
      ensures this.mode == mode && this.flashColor == flashColor && rngState == InitialSeed
    {
      this.mode := mode;
      this.flashColor := flashColor;
      rngState := InitialSeed;
    }

    /** Without a beat nothing changes. On a beat the buffer becomes one
        colour, and only RandomColor advances the generator, by one step. */
    method Render(fb: Framebuffer, audio: Audio.AudioData)
      modifies this, fb.pixels
      ensures !old(audio.isBeat) ==> fb.pixels[..] == old(fb.pixels[..]) && rngState == old(rngState)
      ensures old(audio.isBeat) ==>
        fb.pixels[..] == Filled(fb.pixels.Length, FillColor(mode, flashColor, old(rngState))) &&
        rngState == if mode == RandomColor then Next(old(rngState)) else old(rngState)
    {
      if !audio.isBeat {
        return;
      }
      match mode
      case ClearBlack =>
        fb.Clear(OpaqueBlack);
      case FlashWhite =>
        fb.Clear(OpaqueWhite);
      case FlashColor =>
        fb.Clear(flashColor);
      case RandomColor =>
        rngState := Step13(rngState);
        rngState := Step17(rngState);
        rngState := Step5(rngState);
        fb.Clear(RandomOpaque(rngState));
    }
  }
}

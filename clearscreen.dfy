/** Clear Screen: fills the buffer with one colour every frame. */
module ClearScreenEffect {
  import opened Pixels
  import opened Framebuffers
  import Audio

  class ClearScreen {
    const color: Pixel

    /** The default colour is opaque black. */
    constructor (color: Pixel := OpaqueBlack)
      ensures this.color == color
    {
      this.color := color;
    }

    /** Every pixel becomes color, whatever the buffer and the audio held. */
    method Render(fb: Framebuffer, audio: Audio.AudioData)
      modifies fb.pixels
      ensures fb.pixels[..] == Filled(fb.pixels.Length, color)
    {
      fb.Clear(color);
    }
  }
}

/** The frame buffer: a fixed width-by-height grid of ARGB pixels, stored row-major. */
module Framebuffers {
  import opened Pixels

  /** The engine's resolution. */
  const Width: nat := 320
  const Height: nat := 100

  /** A sequence of n copies of one colour. */
  function Filled(n: nat, c: Pixel): (s: seq<Pixel>)
    ensures |s| == n && forall i :: 0 <= i < n ==> s[i] == c
  {
    seq(n, _ => c)
  }

  class Framebuffer {
    const width: nat
    const height: nat
    const pixels: array<Pixel>

    /** The pixel store holds exactly one entry per coordinate pair. */
    ghost predicate Valid()
    {
      pixels.Length == width * height
    }

    /** A new buffer of the given size, every pixel opaque black. */
    constructor (width: nat, height: nat)
      ensures Valid() && this.width == width && this.height == height
      ensures fresh(pixels)
      ensures pixels[..] == Filled(width * height, OpaqueBlack)
    {
      this.width := width;
      this.height := height;
      pixels := new Pixel[width * height](_ => OpaqueBlack);
    }

    /** The number of pixels, width times height. */
    function PixelCount(): (n: nat)
      requires Valid()
      ensures n == pixels.Length && n == width * height
    {
      pixels.Length
    }

    /** Sets every pixel to color (opaque black by default). */
    method Clear(color: Pixel := OpaqueBlack)
      modifies pixels
      ensures pixels[..] == Filled(pixels.Length, color)
    {
      var i := 0;
      while i < pixels.Length
        invariant 0 <= i <= pixels.Length
        invariant forall k :: 0 <= k < i ==> pixels[k] == color
      {
        pixels[i] := color;
        i := i + 1;
      }
    }

    /** Copies other's pixels into this buffer when both have the same
        dimensions; otherwise leaves this buffer as it is. */
    method CopyFrom(other: Framebuffer)
      requires Valid() && other.Valid()
      modifies pixels
      ensures width == other.width && height == other.height ==> pixels[..] == old(other.pixels[..])
      ensures width != other.width || height != other.height ==> pixels[..] == old(pixels[..])
      ensures other.pixels != pixels ==> other.pixels[..] == old(other.pixels[..])
    {
      if width == other.width && height == other.height {
        var i := 0;
        while i < pixels.Length
          invariant 0 <= i <= pixels.Length
          invariant other.pixels[..] == old(other.pixels[..]) || other.pixels == pixels
          invariant forall k :: 0 <= k < i ==> pixels[k] == old(other.pixels[k])
          invariant forall k :: i <= k < pixels.Length ==> pixels[k] == old(pixels[k])
        {
          pixels[i] := other.pixels[i];
          i := i + 1;
        }
      }
    }
  }

  /** Replaces every pixel p of px by f(p), in index order. */
  method MapPixels(px: array<Pixel>, f: Pixel -> Pixel)
    modifies px
    ensures forall i :: 0 <= i < px.Length ==> px[i] == f(old(px[i]))
  {
    var i := 0;
    while i < px.Length
      invariant 0 <= i <= px.Length
      invariant forall k :: 0 <= k < i ==> px[k] == f(old(px[k]))
      invariant forall k :: i <= k < px.Length ==> px[k] == old(px[k])
    {
      px[i] := f(px[i]);
      i := i + 1;
    }
  }
}

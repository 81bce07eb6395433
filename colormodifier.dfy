/** Color Modifier: a per-pixel colour transform chosen by mode. The hue
    shift goes through HSV, computed here on exact reals. */
module ColorModifierEffect {
  import opened Pixels
  import opened Framebuffers
  import Audio
  import Regions

  datatype Mode = Invert | Grayscale | HueShift | BrightnessBoost

  datatype Rgb = Rgb(r: Channel, g: Channel, b: Channel)

  /** C's fmodf on exact reals: x minus the multiple of y truncated toward zero. */
  function FMod(x: real, y: real): (r: real)
    requires y > 0.0
    ensures 0.0 <= x ==> 0.0 <= r < y
  {
    var q := x / y;
    var t := Trunc(q);
    QuotientBounds(x, y, q, t as real);
    x - y * t as real
  }

  lemma QuotientBounds(x: real, y: real, q: real, t: real)
    requires y > 0.0 && q == x / y
    requires 0.0 <= x ==> t <= q < t + 1.0
    ensures 0.0 <= x ==> 0.0 <= x - y * t < y
  {
    assert y * q == x;
    if 0.0 <= x {
      ScaleMono(t, q, y);
      ScaleMono(q, t + 1.0, y);
      assert y * t <= x;
      assert y * q < y * (t + 1.0);
      assert y * (t + 1.0) == y * t + y;
    }
  }

  function Abs(x: real): real { if x < 0.0 then -x else x }

  function Hi(c: Rgb): Channel { Max(c.r, Max(c.g, c.b)) }
  function Lo(c: Rgb): Channel { Min(c.r, Min(c.g, c.b)) }

  datatype Hsv = Hsv(h: real, s: real, v: real)

  /** RGB to hue in degrees, saturation and value. */
  function RgbToHsv(c: Rgb): Hsv
  {
    Hsv(Hue(c, (Hi(c) - Lo(c)) as real / 255.0), Saturation(c), Value(c))
  }

  /** The value is the largest channel, scaled to [0, 1]. */
  function Value(c: Rgb): (v: real)
    ensures 0.0 <= v <= 1.0 && v * 255.0 == Hi(c) as real
  {
    Hi(c) as real / 255.0
  }

  /** The saturation (max - min) / max, or 0 for black. */
  function Saturation(c: Rgb): (s: real)
    ensures 0.0 <= s <= 1.0
  {
    var maxc, minc := Value(c), Lo(c) as real / 255.0;
    var delta := maxc - minc;
    var s := if maxc > 0.0 then delta / maxc else 0.0;
    SaturationBounds(delta, maxc, s);
    s
  }

  /** v - v s == min when v s == v - min, scaled back to a channel. */
  lemma SmallestFromSaturation(maxc: real, minc: real, s: real, lo: Channel)
    requires maxc * s == maxc - minc && minc == lo as real / 255.0
    ensures (maxc - maxc * s) * 255.0 == lo as real
  {
    assert maxc - maxc * s == minc;
  }

  /** The hue in degrees, from whichever channel is largest. */
  function Hue(c: Rgb, delta: real): (h: real)
    requires delta == (Hi(c) - Lo(c)) as real / 255.0
    ensures 0.0 <= h
  {
    var rf, gf, bf := c.r as real / 255.0, c.g as real / 255.0, c.b as real / 255.0;
    HueBounds(c, rf, gf, bf, delta);
    if delta < 0.0001 then 0.0
    else if Hi(c) == c.r then 60.0 * FMod((gf - bf) / delta + 6.0, 6.0)
    else if Hi(c) == c.g then 60.0 * ((bf - rf) / delta + 2.0)
    else 60.0 * ((rf - gf) / delta + 4.0)
  }

  lemma SaturationBounds(delta: real, maxc: real, s: real)
    requires 0.0 <= delta <= maxc
    requires s == if maxc > 0.0 then delta / maxc else 0.0
    ensures 0.0 <= s <= 1.0
    ensures maxc * s == delta
  {
    if maxc > 0.0 {
      assert s * maxc == delta;
    }
  }

  lemma HueBounds(c: Rgb, rf: real, gf: real, bf: real, delta: real)
    requires rf == c.r as real / 255.0 && gf == c.g as real / 255.0 && bf == c.b as real / 255.0
    requires delta == (Hi(c) - Lo(c)) as real / 255.0
    ensures delta >= 0.0001 ==> (gf - bf) / delta + 6.0 >= 0.0
    ensures delta >= 0.0001 ==> (bf - rf) / delta + 2.0 >= 0.0
    ensures delta >= 0.0001 ==> (rf - gf) / delta + 4.0 >= 0.0
  {
    if delta >= 0.0001 {
      RatioAtLeast(gf - bf, delta);
      RatioAtLeast(bf - rf, delta);
      RatioAtLeast(rf - gf, delta);
    }
  }

  lemma RatioAtLeast(d: real, delta: real)
    requires delta > 0.0 && -delta <= d
    ensures d / delta >= -1.0
  {
    assert (d / delta) * delta == d;
  }

  /** The chroma c = v s and the second-largest component x of the hue sector. */
  function Chroma(h: real, s: real, v: real): (cx: (real, real))
    requires 0.0 <= h && 0.0 <= s <= 1.0 && 0.0 <= v <= 1.0
    ensures cx.0 == v * s && 0.0 <= cx.1 <= cx.0 <= v
  {
    var c := v * s;
    var f := 1.0 - Abs(FMod(h / 60.0, 2.0) - 1.0);
    ChromaBounds(s, v, c, f);
    (c, c * f)
  }

  lemma ChromaBounds(s: real, v: real, c: real, f: real)
    requires 0.0 <= s <= 1.0 && 0.0 <= v <= 1.0 && c == v * s && 0.0 <= f <= 1.0
    ensures 0.0 <= c * f <= c <= v
  {
    assert 0.0 <= c <= v by {
      ScaleMono(0.0, s, v);
      ScaleMono(s, 1.0, v);
    }
    assert 0.0 <= c * f <= c by {
      ScaleMono(0.0, f, c);
      ScaleMono(f, 1.0, c);
    }
  }

  /** A component in [0, 1] scaled to 0..255 and truncated. */
  function ToChannel(f: real): (n: Channel)
    requires 0.0 <= f <= 1.0
    ensures n == Trunc(f * 255.0)
  {
    ScaleMono(f, 1.0, 255.0);
    Trunc(f * 255.0)
  }

  /** HSV back to RGB by hue sector, each channel truncated toward zero. */
  function HsvToRgb(h: real, s: real, v: real): Rgb
    requires 0.0 <= h && 0.0 <= s <= 1.0 && 0.0 <= v <= 1.0
  {
    var (c, x) := Chroma(h, s, v);
    var m := v - c;
    var hi, mid, lo := ToChannel(c + m), ToChannel(x + m), ToChannel(m);
    if h < 60.0 then Rgb(hi, mid, lo)
    else if h < 120.0 then Rgb(mid, hi, lo)
    else if h < 180.0 then Rgb(lo, hi, mid)
    else if h < 240.0 then Rgb(lo, mid, hi)
    else if h < 300.0 then Rgb(mid, lo, hi)
    else Rgb(hi, lo, mid)
  }

  /** The colour with its hue rotated by offset degrees, through HSV and back. */
  function Rotate(c: Rgb, offset: real): Rgb
    requires 0.0 <= offset
  {
    var hsv := RgbToHsv(c);
    HsvToRgb(FMod(hsv.h + offset, 360.0), hsv.s, hsv.v)
  }

  /** Back from HSV, the brightest channel comes from v and the darkest from v - v s. */
  lemma HsvToRgbExtremes(h: real, s: real, v: real)
    requires 0.0 <= h && 0.0 <= s <= 1.0 && 0.0 <= v <= 1.0
    ensures Hi(HsvToRgb(h, s, v)) == Trunc(v * 255.0)
    ensures Lo(HsvToRgb(h, s, v)) == Trunc((v - v * s) * 255.0)
  {
    var (c, x) := Chroma(h, s, v);
    var m := v - c;
    var hi, mid, lo := ToChannel(c + m), ToChannel(x + m), ToChannel(m);
    assert lo <= mid <= hi by {
      ScaleMono(m, x + m, 255.0);
      ScaleMono(x + m, c + m, 255.0);
      TruncMono(m * 255.0, (x + m) * 255.0);
      TruncMono((x + m) * 255.0, (c + m) * 255.0);
    }
    SectorExtremes(lo, mid, hi, HsvToRgb(h, s, v));
    assert c + m == v;
  }

  /** Each of the six sector orders of three ordered channels has the same
      largest and smallest channel. */
  lemma SectorExtremes(lo: Channel, mid: Channel, hi: Channel, c: Rgb)
    requires lo <= mid <= hi
    requires c in {Rgb(hi, mid, lo), Rgb(mid, hi, lo), Rgb(lo, hi, mid), Rgb(lo, mid, hi), Rgb(mid, lo, hi), Rgb(hi, lo, mid)}
    ensures Hi(c) == hi && Lo(c) == lo
  {
  }

  /** v - v s is the smallest channel, scaled to [0, 1]. */
  lemma SaturationLo(c: Rgb, v: real, s: real)
    requires v == Value(c) && s == Saturation(c)
    ensures (v - v * s) * 255.0 == Lo(c) as real
  {
    var minc := Lo(c) as real / 255.0;
    SaturationBounds(v - minc, v, s);
    SmallestFromSaturation(v, minc, s, Lo(c));
  }

  /** Rotating the hue keeps the brightest and the darkest channel. */
  lemma RotateKeepsExtremes(c: Rgb, offset: real)
    requires 0.0 <= offset
    ensures Hi(Rotate(c, offset)) == Hi(c) && Lo(Rotate(c, offset)) == Lo(c)
  {
    var v, s := Value(c), Saturation(c);
    var h := FMod(Hue(c, (Hi(c) - Lo(c)) as real / 255.0) + offset, 360.0);
    assert Rotate(c, offset) == HsvToRgb(h, s, v);
    HsvToRgbExtremes(h, s, v);
    assert Trunc(v * 255.0) == Hi(c) by {
      TruncWhole(Hi(c));
    }
    assert Trunc((v - v * s) * 255.0) == Lo(c) by {
      SaturationLo(c, v, s);
      TruncWhole(Lo(c));
    }
  }

  /** Complements the colour bits and keeps alpha. */
  function InvertPixel(p: Pixel): (q: Pixel)
    ensures Alpha(q) == Alpha(p)
    ensures Red(q) == 255 - Red(p) && Green(q) == 255 - Green(p) && Blue(q) == 255 - Blue(p)
  {
    Pack(Alpha(p), 255 - Red(p), 255 - Green(p), 255 - Blue(p))
  }

  /** Integer luminance (77 r + 150 g + 29 b) >> 8; the weights add up to 256. */
  function Luma(r: Channel, g: Channel, b: Channel): (y: Channel)
    ensures Min(r, Min(g, b)) <= y <= Max(r, Max(g, b))
  {
    WeightedBetween(r, g, b);
    (r * 77 + g * 150 + b * 29) / 256
  }

  /** The weighted sum lies between 256 times the smallest and the largest channel. */
  lemma WeightedBetween(r: Channel, g: Channel, b: Channel)
    ensures Min(r, Min(g, b)) <= (r * 77 + g * 150 + b * 29) / 256 <= Max(r, Max(g, b))
  {
    var lo, hi := Min(r, Min(g, b)), Max(r, Max(g, b));
    var sum := r * 77 + g * 150 + b * 29;
    assert lo * 256 <= sum <= hi * 256;
    Regions.AverageBetween(sum, 256, lo, hi);
  }

  /** Sets all three colour channels to the luminance, keeping alpha. */
  function GrayPixel(p: Pixel): (q: Pixel)
    ensures Alpha(q) == Alpha(p)
    ensures Red(q) == Green(q) == Blue(q) == Luma(Red(p), Green(p), Blue(p))
  {
    var y := Luma(Red(p), Green(p), Blue(p));
    Pack(Alpha(p), y, y, y)
  }

  /** Raises each colour channel by 8, saturating at 255, keeping alpha. */
  function BrightenPixel(p: Pixel): (q: Pixel)
    ensures Alpha(q) == Alpha(p)
    ensures Red(q) == Min(255, Red(p) + 8) && Green(q) == Min(255, Green(p) + 8)
    ensures Blue(q) == Min(255, Blue(p) + 8)
  {
    Pack(Alpha(p), Min(255, Red(p) + 8), Min(255, Green(p) + 8), Min(255, Blue(p) + 8))
  }

  /** Rotates the hue of a pixel, except pure black, which is skipped; alpha is kept. */
  function HuePixel(p: Pixel, offset: real): (q: Pixel)
    requires 0.0 <= offset
    ensures Alpha(q) == Alpha(p)
    ensures Red(p) == 0 && Green(p) == 0 && Blue(p) == 0 ==> q == p
  {
    if Red(p) == 0 && Green(p) == 0 && Blue(p) == 0 then p
    else
      var c := Rotate(Rgb(Red(p), Green(p), Blue(p)), offset);
      Pack(Alpha(p), c.r, c.g, c.b)
  }

  /** The hue offset after a HueShift render: three degrees on, modulo 360. */
  function NextHueOffset(offset: real): (r: real)
    requires 0.0 <= offset < 360.0
    ensures 0.0 <= r < 360.0
    ensures r == offset + 3.0 || r == offset + 3.0 - 360.0
  {
    if offset + 3.0 >= 360.0 then offset + 3.0 - 360.0 else offset + 3.0
  }

  /** The transform a render applies to every pixel in the given mode. */
  function ModifyPixel(mode: Mode, p: Pixel, offset: real): Pixel
    requires 0.0 <= offset
  {
    match mode
    case Invert => InvertPixel(p)
    case Grayscale => GrayPixel(p)
    case HueShift => HuePixel(p, offset)
    case BrightnessBoost => BrightenPixel(p)
  }

  /** Inverting twice gives back the original pixel. */
  lemma InvertInvolution(p: Pixel)
    ensures InvertPixel(InvertPixel(p)) == p
  {
  }

  /** A gray pixel is its own luminance, so grayscale is idempotent. */
  lemma GrayIdempotent(p: Pixel)
    ensures GrayPixel(GrayPixel(p)) == GrayPixel(p)
  {
    var q := GrayPixel(p);
    var y: int := Red(q);
    assert y * 77 + y * 150 + y * 29 == y * 256;
    DivMod(y, 256, 0);
  }

  /** A hue shift keeps each pixel's brightest and darkest colour channel, and alpha. */
  lemma HueShiftKeepsExtremes(p: Pixel, offset: real)
    requires 0.0 <= offset
    ensures var q := HuePixel(p, offset);
      Alpha(q) == Alpha(p) &&
      Max(Red(q), Max(Green(q), Blue(q))) == Max(Red(p), Max(Green(p), Blue(p))) &&
      Min(Red(q), Min(Green(q), Blue(q))) == Min(Red(p), Min(Green(p), Blue(p)))
  {
    RotateKeepsExtremes(Rgb(Red(p), Green(p), Blue(p)), offset);
  }

  /** Gray pixels, black and white among them, have no hue and are left as they are. */
  lemma HueShiftKeepsGray(p: Pixel, offset: real)
    requires 0.0 <= offset && Red(p) == Green(p) == Blue(p)
    ensures HuePixel(p, offset) == p
  {
    HueShiftKeepsExtremes(p, offset);
  }

  class ColorModifier {
    const mode: Mode
    /** The accumulated hue rotation, in degrees. */
    var hueOffset: real

    ghost predicate Valid()
      reads this
    {
      0.0 <= hueOffset < 360.0
    }

    constructor (mode: Mode := Invert)
      ensures Valid() && this.mode == mode && hueOffset == 0.0
    {
      this.mode := mode;
      hueOffset := 0.0;
    }

    /** Transforms every pixel in place. A HueShift render first advances the
        offset by three degrees and uses the new value. */
    method Render(fb: Framebuffer, audio: Audio.AudioData)
      requires Valid() && fb.Valid()
      modifies this, fb.pixels
      ensures Valid()
      ensures hueOffset == if mode == HueShift then NextHueOffset(old(hueOffset)) else old(hueOffset)
      ensures |fb.pixels[..]| == |old(fb.pixels[..])|
      ensures forall i :: 0 <= i < fb.pixels.Length ==>
        fb.pixels[i] == ModifyPixel(mode, old(fb.pixels[i]), hueOffset)
    {
      if mode == HueShift {
        hueOffset := NextHueOffset(hueOffset);
      }
      var m, offset := mode, hueOffset;
      MapPixels(fb.pixels, p => ModifyPixel(m, p, offset));
    }
  }
}

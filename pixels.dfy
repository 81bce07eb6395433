/** 32-bit ARGB pixels, their byte channels, and the integer helpers every
    effect shares: C-style truncating conversions and row-major indexing. */
module Pixels {

  /** A 32-bit unsigned value. */
  type Word = x: int | 0 <= x < 0x1_0000_0000

  /** One 8-bit colour or alpha channel. */
  type Channel = x: int | 0 <= x < 256

  /** A 32-bit ARGB pixel, held as its four byte channels; ToWord gives the
      packed value (alpha in the top byte, blue in the low byte). */
  datatype Pixel = ARGB(a: Channel, r: Channel, g: Channel, b: Channel)

  /** 0xFF000000, the colour every buffer starts with. */
  const OpaqueBlack: Pixel := ARGB(255, 0, 0, 0)
  /** 0xFFFFFFFF. */
  const OpaqueWhite: Pixel := ARGB(255, 255, 255, 255)

  function Alpha(p: Pixel): Channel { p.a }
  function Red(p: Pixel): Channel { p.r }
  function Green(p: Pixel): Channel { p.g }
  function Blue(p: Pixel): Channel { p.b }

  /** (a << 24) | (r << 16) | (g << 8) | b for byte-sized channels; the
      shifted bytes do not overlap, so the or is their sum. */
  function Pack(a: Channel, r: Channel, g: Channel, b: Channel): (p: Pixel)
    ensures ToWord(p) == a * 0x100_0000 + r * 0x1_0000 + g * 0x100 + b
    ensures Alpha(p) == a && Red(p) == r && Green(p) == g && Blue(p) == b
  {
    ARGB(a, r, g, b)
  }

  /** 0xFF000000 | (r << 16) | (g << 8) | b: an opaque colour. */
  function Opaque(r: Channel, g: Channel, b: Channel): (p: Pixel)
    ensures ToWord(p) / 0x100_0000 == 255
    ensures ToWord(p) % 0x100_0000 == r * 0x1_0000 + g * 0x100 + b
    ensures Alpha(p) == 255 && Red(p) == r && Green(p) == g && Blue(p) == b
  {
    DivMod(255, 0x100_0000, r * 0x1_0000 + g * 0x100 + b);
    Pack(255, r, g, b)
  }

  /** The packed 32-bit value of a pixel. */
  function ToWord(p: Pixel): (w: Word)
    ensures w / 0x100_0000 == p.a && w / 0x1_0000 % 0x100 == p.r
    ensures w / 0x100 % 0x100 == p.g && w % 0x100 == p.b
  {
    var w := p.a * 0x100_0000 + p.r * 0x1_0000 + p.g * 0x100 + p.b;
    DivMod(p.a * 0x100 + p.r, 0x1_0000, p.g * 0x100 + p.b);
    DivMod(p.a, 0x100, p.r);
    DivMod(p.a * 0x1_0000 + p.r * 0x100 + p.g, 0x100, p.b);
    DivMod(p.a * 0x100 + p.r, 0x100, p.g);
    DivMod(p.a, 0x100_0000, p.r * 0x1_0000 + p.g * 0x100 + p.b);
    assert w == (p.a * 0x100 + p.r) * 0x1_0000 + (p.g * 0x100 + p.b);
    assert w == (p.a * 0x1_0000 + p.r * 0x100 + p.g) * 0x100 + p.b;
    w
  }

  /** The pixel a packed 32-bit value holds: w >> 24, (w >> 16) & 0xFF,
      (w >> 8) & 0xFF and w & 0xFF. */
  function FromWord(w: Word): Pixel
  {
    ARGB(w / 0x100_0000, w / 0x1_0000 % 0x100, w / 0x100 % 0x100, w % 0x100)
  }

  /** Unpacking a packed pixel gives the pixel back. */
  lemma FromToWord(p: Pixel)
    ensures FromWord(ToWord(p)) == p
  {
  }

  /** Packing an unpacked word gives the word back. */
  lemma ToFromWord(w: Word)
    ensures ToWord(FromWord(w)) == w
  {
    DivDiv(w, 0x100, 0x100);
    DivDiv(w, 0x1_0000, 0x100);
    var hi := w / 0x1_0000;
    var p := FromWord(w);
    assert p.a * 0x100 + p.r == hi;
    assert p.g * 0x100 + p.b == w % 0x1_0000;
    assert w == hi * 0x1_0000 + w % 0x1_0000;
  }

  /** Dividing by a and then by b is dividing by a * b; the remainder
      splits into the two digits. */
  lemma DivDiv(p: int, a: int, b: int)
    requires p >= 0 && a > 0 && b > 0
    ensures p / a / b == p / (a * b)
    ensures p % (a * b) == p / a % b * a + p % a
  {
    var q, r := p / a, p % a;
    var q2, r2 := q / b, q % b;
    assert p == q2 * (a * b) + (r2 * a + r) by {
      assert p == q * a + r;
      assert q * a == (q2 * b + r2) * a;
    }
    MulMono(r2, b - 1, a);
    assert r2 * a + r < a * b;
    DivMod(q2, a * b, r2 * a + r);
  }

  /** Euclidean division undoes q * m + r for a remainder below the divisor. */
  lemma DivMod(q: int, m: int, r: int)
    requires m > 0 && 0 <= r < m
    ensures (q * m + r) / m == q && (q * m + r) % m == r
  {
    var n := q * m + r;
    var d, s := n / m, n % m;
    assert d * m + s == n;
    assert (q - d) * m == s - r;
    if q - d >= 1 {
      MulAtLeast(q - d, m);
    } else if q - d <= -1 {
      MulAtLeast(d - q, m);
    }
  }

  lemma MulAtLeast(k: int, m: int)
    requires k >= 1 && m > 0
    ensures k * m >= m
  {
  }

  /** Multiplication by a non-negative factor keeps the order of its operands. */
  lemma MulMono(a: int, b: int, k: int)
    requires a <= b && k >= 0
    ensures a * k <= b * k
  {
  }

  /** static_cast<int> of a floating-point value: truncation toward zero. */
  function Trunc(x: real): (n: int)
    ensures 0.0 <= x ==> 0 <= n && n as real <= x < n as real + 1.0
    ensures x < 0.0 ==> n <= 0 && n as real - 1.0 < x <= n as real
  {
    if x >= 0.0 then x.Floor else -((-x).Floor)
  }

  /** Scaling by a non-negative factor keeps the order of two reals. */
  lemma ScaleMono(a: real, b: real, k: real)
    requires a <= b && 0.0 <= k
    ensures k * a <= k * b
    ensures a < b && 0.0 < k ==> k * a < k * b
  {
    assert k * b - k * a == k * (b - a);
  }

  /** Truncating an integer-valued real gives the integer back. */
  lemma TruncWhole(n: int)
    ensures Trunc(n as real) == n
  {
  }

  /** Truncation of non-negative reals is monotone. */
  lemma TruncMono(a: real, b: real)
    requires 0.0 <= a <= b
    ensures Trunc(a) <= Trunc(b)
  {
  }

  /** C and C++ integer division of a by a positive b: rounds toward zero,
      so the quotient has the dividend's sign and the remainder a - q * b
      is smaller than b in magnitude and has the dividend's sign too. */
  function CDiv(a: int, b: int): (q: int)
    requires b > 0
    ensures 0 <= a ==> 0 <= q && q * b <= a < q * b + b
    ensures a < 0 ==> q <= 0 && q * b - b < a <= q * b
  {
    if a >= 0 then a / b else -((-a) / b)
  }

  /** Rounding toward zero is symmetric: negating the dividend negates the
      quotient (unlike Euclidean or floored division). */
  lemma CDivNegate(a: int, b: int)
    requires b > 0
    ensures CDiv(-a, b) == -CDiv(a, b)
  {
    var q, q' := CDiv(a, b), CDiv(-a, b);
    if a > 0 {
      assert -q' * b <= a < -q' * b + b;
      QuotientUnique(a, b, q, -q');
    } else if a < 0 {
      assert q' * b <= -a < q' * b + b;
      assert -q * b <= -a < -q * b + b;
      QuotientUnique(-a, b, q', -q);
    }
  }

  /** At most one q has q * b <= a < q * b + b. */
  lemma QuotientUnique(a: int, b: int, q1: int, q2: int)
    requires b > 0
    requires q1 * b <= a < q1 * b + b && q2 * b <= a < q2 * b + b
    ensures q1 == q2
  {
    if q1 < q2 {
      MulMono(q1 + 1, q2, b);
    } else if q2 < q1 {
      MulMono(q2 + 1, q1, b);
    }
  }

  /** std::clamp(v, lo, hi) for lo <= hi. */
  function Clamp(v: int, lo: int, hi: int): (r: int)
    requires lo <= hi
    ensures lo <= r <= hi
    ensures lo <= v <= hi ==> r == v
    ensures v < lo ==> r == lo
    ensures hi < v ==> r == hi
  {
    if v < lo then lo else if hi < v then hi else v
  }

  function Min(a: int, b: int): int { if a <= b then a else b }
  function Max(a: int, b: int): int { if a >= b then a else b }

  /** Row-major index of pixel (x, y) in a buffer w pixels wide. */
  function Idx(w: int, x: int, y: int): int { y * w + x }

  /** An in-bounds coordinate pair has an in-bounds row-major index. */
  lemma IdxInBounds(w: int, h: int, x: int, y: int)
    requires 0 <= x < w && 0 <= y < h
    ensures 0 <= Idx(w, x, y) < w * h
  {
    MulMono(y, h - 1, w);
    assert (h - 1) * w + w == w * h;
  }

  /** Row-major indexing is one-to-one on in-bounds coordinates. */
  lemma IdxInjective(w: int, x1: int, y1: int, x2: int, y2: int)
    requires 0 <= x1 < w && 0 <= x2 < w && 0 <= y1 && 0 <= y2
    requires Idx(w, x1, y1) == Idx(w, x2, y2)
    ensures x1 == x2 && y1 == y2
  {
    DivMod(y1, w, x1);
    DivMod(y2, w, x2);
  }

  /** Pixel (x, y) of a row-major w-by-h image. */
  function At(s: seq<Pixel>, w: nat, h: nat, x: int, y: int): Pixel
    requires |s| == w * h && 0 <= x < w && 0 <= y < h
  {
    IdxInBounds(w, h, x, y);
    s[Idx(w, x, y)]
  }

  /** Writing pixel (x, y) changes that pixel and no other. */
  lemma AtUpdate(s: seq<Pixel>, w: nat, h: nat, x: int, y: int, v: Pixel, x': int, y': int)
    requires |s| == w * h && 0 <= x < w && 0 <= y < h && 0 <= x' < w && 0 <= y' < h
    ensures Idx(w, x, y) < |s|
    ensures At(s[Idx(w, x, y) := v], w, h, x', y') == if x' == x && y' == y then v else At(s, w, h, x', y')
  {
    IdxInBounds(w, h, x, y);
    IdxInBounds(w, h, x', y');
    if Idx(w, x', y') == Idx(w, x, y) {
      IdxInjective(w, x', y', x, y);
    }
  }

  /** Two w-by-h images that agree at every coordinate are equal. */
  lemma ImageExt(s: seq<Pixel>, t: seq<Pixel>, w: nat, h: nat)
    requires |s| == w * h && |t| == w * h
    requires forall x, y :: 0 <= x < w && 0 <= y < h ==> At(s, w, h, x, y) == At(t, w, h, x, y)
    ensures s == t
  {
    forall i | 0 <= i < w * h
      ensures s[i] == t[i]
    {
      IdxSplit(w, h, i);
      assert At(s, w, h, i % w, i / w) == At(t, w, h, i % w, i / w);
    }
  }

  /** Every index of a w-by-h buffer is the row-major index of one pixel. */
  lemma IdxSplit(w: int, h: int, i: int)
    requires 0 <= w && 0 <= h && 0 <= i < w * h
    ensures w > 0 && 0 <= i % w < w && 0 <= i / w < h
    ensures Idx(w, i % w, i / w) == i
  {
    assert w > 0;
    var y := i / w;
    assert y * w <= i;
    if y >= h {
      MulMono(h, y, w);
    }
  }
}

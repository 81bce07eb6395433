/** Ring: concentric midpoint circles around the buffer's centre, one per
    spectrum band, their radius and brightness swelling with its magnitude. */
module RingEffect {
  import opened Pixels
  import opened Framebuffers
  import opened Plotting
  import Audio

  function Abs(v: int): int { if v < 0 then -v else v }

  /** v squared, built up by odd numbers so that the loop's proofs see
      only its step rule and never a product of two unknowns. */
  function Sq(v: int): int
    decreases Abs(v), if v < 0 then 1 else 0
  {
    if v == 0 then 0 else if v < 0 then Sq(-v) else Sq(v - 1) + 2 * v - 1
  }

  lemma {:induction false} SqIsSquare(v: int)
    ensures Sq(v) == v * v
    decreases Abs(v), if v < 0 then 1 else 0
  {
    if v > 0 {
      SqIsSquare(v - 1);
    } else if v < 0 {
      SqIsSquare(-v);
    }
  }

  lemma SqSucc(v: int)
    ensures Sq(v + 1) == Sq(v) + 2 * v + 1
  {
    SqIsSquare(v);
    SqIsSquare(v + 1);
  }

  /** The midpoint decision term for offset (x, y) of a circle of radius r. */
  function Decision(r: int, x: int, y: int): int
  {
    Sq(x) - x + Sq(y) + 2 * y + 1 - Sq(r)
  }

  /** The plotted offset (x, y) lies within half a pixel of the circle:
      -x <= x^2 + y^2 - r^2 <= x. */
  predicate Near(r: int, x: int, y: int)
  {
    -x <= Sq(x) + Sq(y) - Sq(r) <= x
  }

  /** The loop state before plotting (x, y): y never passes x + 2 and x
      never grows past the radius. */
  predicate Walking(r: int, x: int, y: int)
  {
    0 <= y && x <= r && y <= x + 2
  }

  /** The error term tracks the decision term, and a point about to be
      plotted is near the circle. */
  predicate Tracks(r: int, x: int, y: int, err: int)
  {
    err == Decision(r, x, y) && (x >= y ==> Near(r, x, y))
  }

  /** One step: y grows; x shrinks when the midpoint lies on or outside the circle. */
  function StepX(x: int, err: int): int { if err < 0 then x else x - 1 }
  function StepErr(x: int, y: int, err: int): int
  {
    if err < 0 then err + 2 * (y + 1) + 1 else err + 2 * ((y + 1) - (x - 1)) + 1
  }

  lemma StepTracks(r: int, x: int, y: int, err: int)
    requires Walking(r, x, y) && Tracks(r, x, y, err) && x >= y
    ensures Tracks(r, StepX(x, err), y + 1, StepErr(x, y, err))
  {
    SqSucc(y);
    SqSucc(x - 1);
  }

  /** The octant offsets the loop plots from state (x, y, err) on. */
  function Offsets(r: int, x: int, y: int, err: int): (offs: seq<Point>)
    requires Walking(r, x, y)
    ensures forall o :: o in offs ==> 0 <= o.1 <= o.0 <= r
    decreases x - y + 2
  {
    if x < y then []
    else [(x, y)] + Offsets(r, StepX(x, err), y + 1, StepErr(x, y, err))
  }

  /** Every plotted offset lies within half a pixel of the circle. */
  lemma {:induction false} OffsetsNear(r: int, x: int, y: int, err: int)
    requires Walking(r, x, y) && Tracks(r, x, y, err)
    ensures forall o :: o in Offsets(r, x, y, err) ==> Near(r, o.0, o.1)
    decreases x - y + 2
  {
    if x >= y {
      StepTracks(r, x, y, err);
      OffsetsNear(r, StepX(x, err), y + 1, StepErr(x, y, err));
    }
  }

  /** The eight reflections of offset o about (cx, cy). */
  function Eight(cx: int, cy: int, o: Point): seq<Point>
  {
    var (x, y) := o;
    [(cx + x, cy + y), (cx - x, cy + y), (cx + x, cy - y), (cx - x, cy - y),
     (cx + y, cy + x), (cx - y, cy + x), (cx + y, cy - x), (cx - y, cy - x)]
  }

  function Octants(cx: int, cy: int, offs: seq<Point>): seq<Point>
  {
    if offs == [] then [] else Eight(cx, cy, offs[0]) + Octants(cx, cy, offs[1..])
  }

  lemma OctantsCons(cx: int, cy: int, o: Point, rest: seq<Point>)
    ensures Octants(cx, cy, [o] + rest) == Eight(cx, cy, o) + Octants(cx, cy, rest)
  {
    assert ([o] + rest)[1..] == rest;
  }

  lemma OctantsShift(cx: int, cy: int, drawn: seq<Point>, o: Point, rest: seq<Point>)
    ensures drawn + Octants(cx, cy, [o] + rest) == (drawn + Eight(cx, cy, o)) + Octants(cx, cy, rest)
  {
    OctantsCons(cx, cy, o, rest);
  }

  /** The points a circle of the given radius plots: none when radius <= 0. */
  function CirclePoints(cx: int, cy: int, radius: int): seq<Point>
  {
    if radius <= 0 then []
    else
      Octants(cx, cy, Offsets(radius, radius, 0, 1 - radius))
  }

  lemma {:induction false} InOctants(cx: int, cy: int, offs: seq<Point>, p: Point)
    ensures p in Octants(cx, cy, offs) <==> exists o :: o in offs && p in Eight(cx, cy, o)
    decreases |offs|
  {
    if offs != [] {
      InOctants(cx, cy, offs[1..], p);
      assert forall o :: o in offs <==> o == offs[0] || o in offs[1..];
    }
  }

  lemma SqAbs(v: int)
    ensures Sq(v) == Sq(Abs(v))
  {
  }

  /** A reflected point is the offset itself or the offset with its
      coordinates swapped, up to sign. */
  lemma EightAbs(cx: int, cy: int, o: Point, p: Point)
    requires 0 <= o.1 <= o.0 && p in Eight(cx, cy, o)
    ensures (Abs(p.0 - cx) == o.0 && Abs(p.1 - cy) == o.1) || (Abs(p.0 - cx) == o.1 && Abs(p.1 - cy) == o.0)
  {
  }

  /** Every point a circle plots is (cx + dx, cy + dy) with |dx|, |dy| <= radius
      and dx^2 + dy^2 within max(|dx|, |dy|) of radius^2. */
  lemma CircleNear(cx: int, cy: int, radius: int, p: Point)
    requires p in CirclePoints(cx, cy, radius)
    ensures var dx, dy := p.0 - cx, p.1 - cy;
      -radius <= dx <= radius && -radius <= dy <= radius &&
      -Max(Abs(dx), Abs(dy)) <= dx * dx + dy * dy - radius * radius <= Max(Abs(dx), Abs(dy))
  {
    CircleNearSq(cx, cy, radius, p);
    SqIsSquare(p.0 - cx);
    SqIsSquare(p.1 - cy);
    SqIsSquare(radius);
  }

  /** CircleNear with the squares kept as Sq terms. */
  lemma CircleNearSq(cx: int, cy: int, radius: int, p: Point)
    requires p in CirclePoints(cx, cy, radius)
    ensures var dx, dy := p.0 - cx, p.1 - cy;
      Abs(dx) <= radius && Abs(dy) <= radius &&
      -Max(Abs(dx), Abs(dy)) <= Sq(dx) + Sq(dy) - Sq(radius) <= Max(Abs(dx), Abs(dy))
  {
    var offs := Offsets(radius, radius, 0, 1 - radius);
    InOctants(cx, cy, offs, p);
    var o :| o in offs && p in Eight(cx, cy, o);
    assert Tracks(radius, radius, 0, 1 - radius);
    OffsetsNear(radius, radius, 0, 1 - radius);
    assert Near(radius, o.0, o.1) && 0 <= o.1 <= o.0 <= radius;
    EightAbs(cx, cy, o, p);
    SqAbs(p.0 - cx);
    SqAbs(p.1 - cy);
  }

  /** Each of the eight reflections maps the reflections of an offset to themselves. */
  lemma EightSymmetric(cx: int, cy: int, o: Point, p: Point)
    requires p in Eight(cx, cy, o)
    ensures (2 * cx - p.0, p.1) in Eight(cx, cy, o)
    ensures (p.0, 2 * cy - p.1) in Eight(cx, cy, o)
    ensures (cx + (p.1 - cy), cy + (p.0 - cx)) in Eight(cx, cy, o)
  {
  }

  /** The plotted set is symmetric under the eight reflections about the
      centre (generated by the two mirror images and the diagonal swap). */
  lemma CircleSymmetric(cx: int, cy: int, radius: int, p: Point)
    requires p in CirclePoints(cx, cy, radius)
    ensures (2 * cx - p.0, p.1) in CirclePoints(cx, cy, radius)
    ensures (p.0, 2 * cy - p.1) in CirclePoints(cx, cy, radius)
    ensures (cx + (p.1 - cy), cy + (p.0 - cx)) in CirclePoints(cx, cy, radius)
  {
    var offs := Offsets(radius, radius, 0, 1 - radius);
    InOctants(cx, cy, offs, p);
    var o :| o in offs && p in Eight(cx, cy, o);
    EightSymmetric(cx, cy, o, p);
    InOctants(cx, cy, offs, (2 * cx - p.0, p.1));
    InOctants(cx, cy, offs, (p.0, 2 * cy - p.1));
    InOctants(cx, cy, offs, (cx + (p.1 - cy), cy + (p.0 - cx)));
  }

  /** Ring i of n reads spectrum bin i * 256 / n, which is always a bin. */
  function Bin(i: int, n: int): (b: int)
    requires 0 <= i < n
    ensures 0 <= b < Audio.SpectrumSize
  {
    BinBound(i, n);
    i * Audio.SpectrumSize / n
  }

  lemma BinBound(i: int, n: int)
    requires 0 <= i < n
    ensures 0 <= i * Audio.SpectrumSize / n < Audio.SpectrumSize
  {
    MulMono(i, n - 1, Audio.SpectrumSize);
    var q := i * Audio.SpectrumSize / n;
    assert q * n <= i * Audio.SpectrumSize;
    if q >= Audio.SpectrumSize {
      MulMono(Audio.SpectrumSize, q, n);
    }
  }

  /** The ring's colour: each channel of the configured colour scaled by
      0.3 + 0.7 mag, truncated, capped at 255, fully opaque. */
  function RingColor(color: Pixel, mag: real): (c: Pixel)
    requires 0.0 <= mag
    ensures Alpha(c) == 255
  {
    var brightness := 0.3 + mag * 0.7;
    Opaque(Scale(Red(color), brightness), Scale(Green(color), brightness), Scale(Blue(color), brightness))
  }

  function Scale(c: Channel, brightness: real): (r: Channel)
    requires brightness >= 0.0
  {
    Min(Trunc(c as real * brightness), 255)
  }

  /** For a magnitude in [0, 1] the cap never binds: each channel is between
      30% of the configured channel (truncated) and the channel itself. */
  lemma RingColorDims(color: Pixel, mag: real)
    requires 0.0 <= mag <= 1.0
    ensures var c := RingColor(color, mag);
      Trunc(Red(color) as real * 0.3) <= Red(c) <= Red(color) &&
      Trunc(Green(color) as real * 0.3) <= Green(c) <= Green(color) &&
      Trunc(Blue(color) as real * 0.3) <= Blue(c) <= Blue(color)
  {
    var b := 0.3 + mag * 0.7;
    ScaleDims(Red(color), b);
    ScaleDims(Green(color), b);
    ScaleDims(Blue(color), b);
  }

  lemma ScaleDims(c: Channel, b: real)
    requires 0.3 <= b <= 1.0
    ensures Trunc(c as real * 0.3) <= Scale(c, b) <= c
  {
    ScaleAtLeast(c, b);
    ScaleAtMost(c, b);
  }

  /** The scaled channel is at least 30% of the channel, truncated. */
  lemma ScaleAtLeast(c: Channel, b: real)
    requires 0.3 <= b <= 1.0
    ensures Trunc(c as real * 0.3) <= Scale(c, b)
  {
    ProductAtLeast(c as real, b);
    CappedAtLeast(c as real * 0.3, c as real * b, c);
  }

  /** Scaling a non-negative x by b >= 0.3 gives at least 30% of x. */
  lemma ProductAtLeast(x: real, b: real)
    requires 0.0 <= x && 0.3 <= b
    ensures x * 0.3 <= x * b
  {
    ScaleMono(0.3, b, x);
  }

  /** Truncating and capping a real above lo, when lo is below a channel,
      stays at or above lo truncated. */
  lemma CappedAtLeast(lo: real, m: real, c: Channel)
    requires 0.0 <= lo <= m && lo <= c as real
    ensures Trunc(lo) <= Min(Trunc(m), 255)
  {
    TruncMono(lo, m);
    TruncMono(lo, c as real);
    TruncWhole(c);
  }

  /** A brightness of at most 1 never raises a channel. */
  lemma ScaleAtMost(c: Channel, b: real)
    requires 0.3 <= b <= 1.0
    ensures Scale(c, b) <= c
  {
    ProductAtMost(c as real, b);
    CappedAtMost(c as real * b, c);
  }

  /** Scaling a non-negative x by b in [0, 1] stays in [0, x]. */
  lemma ProductAtMost(x: real, b: real)
    requires 0.0 <= x && 0.0 <= b <= 1.0
    ensures 0.0 <= x * b <= x
  {
    ScaleMono(0.0, b, x);
    ScaleMono(b, 1.0, x);
  }

  /** Truncating and capping a real in [0, c] gives at most c. */
  lemma CappedAtMost(m: real, c: Channel)
    requires 0.0 <= m <= c as real
    ensures Min(Trunc(m), 255) <= c
  {
    TruncMono(m, c as real);
    TruncWhole(c);
  }

  /** Ring i's radius: its share (i + 1) / n of the maximum radius, plus
      the magnitude's swell, truncated. */
  function RingRadius(i: int, n: int, maxRadius: real, mag: real, scaleY: real): int
    requires n > 0
  {
    var baseRadius := (i + 1) as real * maxRadius / n as real;
    Trunc(baseRadius + mag * scaleY * maxRadius * 0.3)
  }

  /** The image after the first k rings, each painted over the ones before. */
  function Rings(s: seq<Pixel>, w: nat, h: nat, spectrum: seq<real>, k: nat, n: int, color: Pixel, scaleY: real): (t: seq<Pixel>)
    requires |s| == w * h && |spectrum| == Audio.SpectrumSize && k <= Max(n, 0)
    requires Audio.InUnit(spectrum)
    ensures |t| == w * h
  {
    if k == 0 then s
    else
      var mag := spectrum[Bin(k - 1, n)];
      var maxRadius := Min(w / 2, h / 2) as real * 0.9;
      Paint(Rings(s, w, h, spectrum, k - 1, n, color, scaleY), w, h,
        CirclePoints(w / 2, h / 2, RingRadius(k - 1, n, maxRadius, mag, scaleY)), RingColor(color, mag))
  }

  lemma RingsSucc(s: seq<Pixel>, w: nat, h: nat, spectrum: seq<real>, k: nat, n: int, color: Pixel, scaleY: real)
    requires |s| == w * h && |spectrum| == Audio.SpectrumSize && k < n && Audio.InUnit(spectrum)
    ensures var mag := spectrum[Bin(k, n)];
      Rings(s, w, h, spectrum, k + 1, n, color, scaleY) ==
      Paint(Rings(s, w, h, spectrum, k, n, color, scaleY), w, h,
        CirclePoints(w / 2, h / 2, RingRadius(k, n, Min(w / 2, h / 2) as real * 0.9, mag, scaleY)), RingColor(color, mag))
  {
  }

  class Ring {
    const color: Pixel
    const ringCount: int
    const scaleY: real

    constructor (color: Pixel := FromWord(0xFF00_FF80), ringCount: int := 16, scaleY: real := 0.5)
      ensures this.color == color && this.ringCount == ringCount && this.scaleY == scaleY
    {
      this.color := color;
      this.ringCount := ringCount;
      this.scaleY := scaleY;
    }

    /** Plots the eight reflections of offset (x, y) about (cx, cy). */
    method PlotEight(fb: Framebuffer, cx: int, cy: int, x: int, y: int, col: Pixel)
      requires fb.Valid()
      modifies fb.pixels
      ensures Painted(old(fb.pixels[..]), fb.pixels[..], fb.width, fb.height, Eight(cx, cy, (x, y)), col)
    {
      var px, w, h := fb.pixels, fb.width, fb.height;
      ghost var s := px[..];
      ghost var t := px[..];
      ghost var pts: seq<Point> := [];
      PaintedNothing(s, w, h, col);
      var k := 0;
      var targets := Eight(cx, cy, (x, y));
      while k < 8
        invariant 0 <= k <= 8 && pts == targets[..k]
        invariant Painted(s, px[..], w, h, pts, col)
      {
        ghost var before := px[..];
        Plot(px, w, h, targets[k].0, targets[k].1, col);
        PaintedThen(s, before, px[..], w, h, pts, [targets[k]], col);
        pts := pts + [targets[k]];
        k := k + 1;
      }
      assert pts == targets;
    }

    /** Extends a painting of the points drawn so far by the eight
        reflections of (x, y). */
    method PlotEightMore(fb: Framebuffer, ghost s: seq<Pixel>, ghost drawn: seq<Point>, cx: int, cy: int, x: int, y: int, col: Pixel)
      requires fb.Valid() && Painted(s, fb.pixels[..], fb.width, fb.height, drawn, col)
      modifies fb.pixels
      ensures Painted(s, fb.pixels[..], fb.width, fb.height, drawn + Eight(cx, cy, (x, y)), col)
    {
      ghost var before := fb.pixels[..];
      PlotEight(fb, cx, cy, x, y, col);
      PaintedThen(s, before, fb.pixels[..], fb.width, fb.height, drawn, Eight(cx, cy, (x, y)), col);
    }

    /** The midpoint circle of the given radius about (cx, cy); a radius of
        zero or less draws nothing. */
    method DrawCircle(fb: Framebuffer, cx: int, cy: int, radius: int, col: Pixel)
      requires fb.Valid()
      modifies fb.pixels
      ensures Painted(old(fb.pixels[..]), fb.pixels[..], fb.width, fb.height, CirclePoints(cx, cy, radius), col)
      ensures radius <= 0 ==> fb.pixels[..] == old(fb.pixels[..])
    {
      ghost var s := fb.pixels[..];
      PaintedNothing(s, fb.width, fb.height, col);
      if radius <= 0 {
        return;
      }
      var x := radius;
      var y := 0;
      var err := 1 - radius;
      ghost var drawn: seq<Point> := [];
      while x >= y
        invariant Walking(radius, x, y)
        invariant CirclePoints(cx, cy, radius) == drawn + Octants(cx, cy, Offsets(radius, x, y, err))
        invariant Painted(s, fb.pixels[..], fb.width, fb.height, drawn, col)
        decreases x - y + 2
      {
        x, y, err, drawn := CircleStep(fb, s, drawn, cx, cy, radius, x, y, err, col);
      }
    }

    /** One iteration of the circle loop: plots the reflections of (x, y)
        and moves on; the points still to come shrink by what was drawn. */
    method CircleStep(fb: Framebuffer, ghost s: seq<Pixel>, ghost drawn: seq<Point>, cx: int, cy: int,
                      ghost r: int, x: int, y: int, err: int, col: Pixel)
      returns (x': int, y': int, err': int, ghost drawn': seq<Point>)
      requires fb.Valid() && Walking(r, x, y) && x >= y
      requires Painted(s, fb.pixels[..], fb.width, fb.height, drawn, col)
      modifies fb.pixels
      ensures Walking(r, x', y') && x' - y' < x - y
      ensures Painted(s, fb.pixels[..], fb.width, fb.height, drawn', col)
      ensures drawn + Octants(cx, cy, Offsets(r, x, y, err)) == drawn' + Octants(cx, cy, Offsets(r, x', y', err'))
    {
      PlotEightMore(fb, s, drawn, cx, cy, x, y, col);
      x', y', err' := Advance(r, x, y, err);
      drawn' := drawn + Eight(cx, cy, (x, y));
      OctantsShift(cx, cy, drawn, (x, y), Offsets(r, x', y', err'));
    }

    /** One iteration's move: y grows, and x shrinks when err >= 0. */
    method Advance(ghost r: int, x: int, y: int, err: int) returns (x': int, y': int, err': int)
      requires Walking(r, x, y) && x >= y
      ensures x' == StepX(x, err) && y' == y + 1 && err' == StepErr(x, y, err)
      ensures Walking(r, x', y')
      ensures Offsets(r, x, y, err) == [(x, y)] + Offsets(r, x', y', err')
    {
      x', y', err' := x, y + 1, err;
      if err' < 0 {
        err' := err' + 2 * y' + 1;
      } else {
        x' := x' - 1;
        err' := err' + 2 * (y' - x') + 1;
      }
    }

    /** Draws ringCount circles about the centre, ring i from spectrum bin
        i * 256 / ringCount; later rings paint over earlier ones. */
    method Render(fb: Framebuffer, audio: Audio.AudioData)
      requires fb.Valid() && audio.Layout() && audio.SpectrumInUnit()
      modifies fb.pixels
      ensures fb.pixels[..] == Rings(old(fb.pixels[..]), fb.width, fb.height, audio.spectrumMono[..],
        Max(ringCount, 0), ringCount, color, scaleY)
    {
      ghost var w, h := fb.width, fb.height;
      ghost var s := fb.pixels[..];
      ghost var spectrum := audio.spectrumMono[..];
      var i := 0;
      while i < ringCount
        invariant 0 <= i <= Max(ringCount, 0)
        invariant spectrum == audio.spectrumMono[..]
        invariant fb.pixels[..] == Rings(s, w, h, spectrum, i, ringCount, color, scaleY)
      {
        DrawRing(fb, audio, s, i);
        i := i + 1;
      }
      assert i == Max(ringCount, 0);
    }

    /** Draws ring i in its colour, from its spectrum bin, over the first i rings. */
    method DrawRing(fb: Framebuffer, audio: Audio.AudioData, ghost s: seq<Pixel>, i: int)
      requires fb.Valid() && audio.Layout() && audio.SpectrumInUnit() && 0 <= i < ringCount
      requires |s| == fb.width * fb.height
      requires fb.pixels[..] == Rings(s, fb.width, fb.height, audio.spectrumMono[..], i, ringCount, color, scaleY)
      modifies fb.pixels
      ensures fb.pixels[..] == Rings(s, fb.width, fb.height, audio.spectrumMono[..], i + 1, ringCount, color, scaleY)
    {
      var w, h := fb.width, fb.height;
      var mag := audio.spectrumMono[Bin(i, ringCount)];
      var radius := RingRadius(i, ringCount, Min(w / 2, h / 2) as real * 0.9, mag, scaleY);
      var col := RingColor(color, mag);
      ghost var before := fb.pixels[..];
      DrawCircle(fb, w / 2, h / 2, radius, col);
      PaintedIsPaint(before, fb.pixels[..], w, h, CirclePoints(w / 2, h / 2, radius), col);
      RingsSucc(s, w, h, audio.spectrumMono[..], i, ringCount, color, scaleY);
    }
  }
}

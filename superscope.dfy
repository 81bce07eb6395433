/** SuperScope: plots 576 audio samples as points or as connected
    Bresenham lines, through one of four shapes. */
module SuperScopeEffect {
  import opened Pixels
  import opened Framebuffers
  import opened Plotting
  import Audio

  function Abs(v: int): int { if v < 0 then -v else v }

  /** A segment from (x0, y0) to (x1, y1). */
  datatype Segment = Segment(x0: int, y0: int, x1: int, y1: int)
  {
    function Dx(): int { Abs(x1 - x0) }
    function Dy(): int { Abs(y1 - y0) }
    /** The point a steps along x and b steps along y from the start, toward the end. */
    function PointAt(a: int, b: int): (int, int)
    {
      (if x0 < x1 then x0 + a else x0 - a, if y0 < y1 then y0 + b else y0 - b)
    }
  }

  /** The state of the rasteriser after a steps in x and b steps in y: the
      error term is dx (b + 1) - dy (a + 1), and neither count overshoots. */
  ghost predicate Tracing(l: Segment, a: int, b: int, err: int)
  {
    0 <= a <= l.Dx() && 0 <= b <= l.Dy() && err == l.Dx() * (b + 1) - l.Dy() * (a + 1)
  }

  function StepsX(l: Segment, err: int): bool { 2 * err >= -l.Dy() }
  function StepsY(l: Segment, err: int): bool { 2 * err <= l.Dx() }

  function NextErr(l: Segment, err: int): int
  {
    err + (if StepsX(l, err) then -l.Dy() else 0) + (if StepsY(l, err) then l.Dx() else 0)
  }

  /** Away from the end at least one coordinate steps, and neither passes the end. */
  lemma StepTracing(l: Segment, a: int, b: int, err: int)
    requires Tracing(l, a, b, err) && !(a == l.Dx() && b == l.Dy())
    ensures StepsX(l, err) || StepsY(l, err)
    ensures Tracing(l, if StepsX(l, err) then a + 1 else a, if StepsY(l, err) then b + 1 else b, NextErr(l, err))
  {
    ErrorStep(l.Dx(), l.Dy(), a, b, err);
  }

  /** The arithmetic of one step on dx, dy >= 0, with e the error term. */
  lemma ErrorStep(dx: int, dy: int, a: int, b: int, e: int)
    requires 0 <= a <= dx && 0 <= b <= dy && e == dx * (b + 1) - dy * (a + 1) && !(a == dx && b == dy)
    ensures 2 * e >= -dy || 2 * e <= dx
    ensures a == dx ==> 2 * e < -dy
    ensures b == dy ==> 2 * e > dx
    ensures var a', b' := if 2 * e >= -dy then a + 1 else a, if 2 * e <= dx then b + 1 else b;
      e + (if 2 * e >= -dy then -dy else 0) + (if 2 * e <= dx then dx else 0) == dx * (b' + 1) - dy * (a' + 1)
  {
    if a == dx {
      LastColumn(dx, dy, b);
    }
    if b == dy {
      LastColumn(dy, dx, a);
    }
    ErrorUpdate(dx, dy, a, b);
  }

  /** Once one coordinate has reached its end the error term leaves the
      other to move: dx * (b + 1) - dy * (dx + 1) <= -dy for b < dy. */
  lemma LastColumn(dx: int, dy: int, b: int)
    requires 0 <= dx && 0 <= b < dy
    ensures dx * (b + 1) - dy * (dx + 1) <= -dy
  {
    MulMono(b + 1, dy, dx);
    assert dy * (dx + 1) == dx * dy + dy;
  }

  /** Advancing a coordinate by one adds its step to the product. */
  lemma ErrorUpdate(dx: int, dy: int, a: int, b: int)
    ensures dx * (b + 2) == dx * (b + 1) + dx
    ensures dy * (a + 2) == dy * (a + 1) + dy
  {
  }

  /** The points the rasteriser plots from the state (a, b, err) on, the
      first of them the current one. */
  function Trace(l: Segment, a: int, b: int, err: int): (pts: seq<(int, int)>)
    requires Tracing(l, a, b, err)
    ensures |pts| >= 1 && pts[0] == l.PointAt(a, b)
    decreases l.Dx() - a + l.Dy() - b
  {
    if a == l.Dx() && b == l.Dy() then [l.PointAt(a, b)]
    else
      StepTracing(l, a, b, err);
      [l.PointAt(a, b)] + Trace(l, if StepsX(l, err) then a + 1 else a, if StepsY(l, err) then b + 1 else b, NextErr(l, err))
  }

  /** All the points of the segment, start first. */
  function LinePoints(l: Segment): (pts: seq<(int, int)>)
    ensures |pts| >= 1 && pts[0] == (l.x0, l.y0)
  {
    assert Tracing(l, 0, 0, l.Dx() - l.Dy());
    Trace(l, 0, 0, l.Dx() - l.Dy())
  }

  /** The last point plotted is the end point. */
  lemma {:induction false} TraceEnds(l: Segment, a: int, b: int, err: int)
    requires Tracing(l, a, b, err)
    ensures Trace(l, a, b, err)[|Trace(l, a, b, err)| - 1] == (l.x1, l.y1)
    decreases l.Dx() - a + l.Dy() - b
  {
    if !(a == l.Dx() && b == l.Dy()) {
      StepTracing(l, a, b, err);
      TraceEnds(l, if StepsX(l, err) then a + 1 else a, if StepsY(l, err) then b + 1 else b, NextErr(l, err));
    }
  }

  /** Every plotted point lies in the segment's bounding box. */
  lemma {:induction false} TraceInBox(l: Segment, a: int, b: int, err: int)
    requires Tracing(l, a, b, err)
    ensures forall p :: p in Trace(l, a, b, err) ==> Between(l.x0, l.x1, p.0) && Between(l.y0, l.y1, p.1)
    decreases l.Dx() - a + l.Dy() - b
  {
    PointInBox(l, a, b);
    if !(a == l.Dx() && b == l.Dy()) {
      StepTracing(l, a, b, err);
      TraceInBox(l, if StepsX(l, err) then a + 1 else a, if StepsY(l, err) then b + 1 else b, NextErr(l, err));
    }
  }

  lemma PointInBox(l: Segment, a: int, b: int)
    requires 0 <= a <= l.Dx() && 0 <= b <= l.Dy()
    ensures Between(l.x0, l.x1, l.PointAt(a, b).0) && Between(l.y0, l.y1, l.PointAt(a, b).1)
  {
  }

  /** p and q are equal or 8-neighbours. */
  predicate Adjacent(p: (int, int), q: (int, int))
  {
    Abs(q.0 - p.0) <= 1 && Abs(q.1 - p.1) <= 1
  }

  /** Each point after the first is adjacent to the one before it. */
  predicate Connected(pts: seq<(int, int)>)
  {
    forall k :: 0 < k < |pts| ==> Adjacent(pts[k - 1], pts[k])
  }

  lemma ConnectedCons(p: (int, int), rest: seq<(int, int)>)
    requires |rest| >= 1 && Connected(rest) && Adjacent(p, rest[0])
    ensures Connected([p] + rest)
  {
    var all := [p] + rest;
    forall k | 0 < k < |all|
      ensures Adjacent(all[k - 1], all[k])
    {
      if k > 1 {
        assert all[k - 1] == rest[k - 2] && all[k] == rest[k - 1];
      }
    }
  }

  /** Each plotted point after the first is an 8-neighbour of the one before it. */
  lemma {:induction false} TraceConnected(l: Segment, a: int, b: int, err: int)
    requires Tracing(l, a, b, err)
    ensures Connected(Trace(l, a, b, err))
    decreases l.Dx() - a + l.Dy() - b
  {
    if !(a == l.Dx() && b == l.Dy()) {
      StepTracing(l, a, b, err);
      var a', b' := if StepsX(l, err) then a + 1 else a, if StepsY(l, err) then b + 1 else b;
      TraceConnected(l, a', b', NextErr(l, err));
      var rest := Trace(l, a', b', NextErr(l, err));
      assert Adjacent(l.PointAt(a, b), rest[0]);
      ConnectedCons(l.PointAt(a, b), rest);
    }
  }

  /** v lies between u and u' (in either order). */
  predicate Between(u: int, u': int, v: int)
  {
    Min(u, u') <= v <= Max(u, u')
  }

  /** When x is the major axis, x steps on every iteration. */
  lemma {:induction false} TraceLengthX(l: Segment, a: int, b: int, err: int)
    requires Tracing(l, a, b, err) && l.Dy() <= l.Dx()
    requires -l.Dy() <= 2 * err <= 3 * l.Dx() - 2 * l.Dy()
    ensures |Trace(l, a, b, err)| == l.Dx() - a + 1
    decreases l.Dx() - a + l.Dy() - b
  {
    if !(a == l.Dx() && b == l.Dy()) {
      StepTracing(l, a, b, err);
      TraceLengthX(l, if StepsX(l, err) then a + 1 else a, if StepsY(l, err) then b + 1 else b, NextErr(l, err));
    }
  }

  /** When y is the major axis, y steps on every iteration. */
  lemma {:induction false} TraceLengthY(l: Segment, a: int, b: int, err: int)
    requires Tracing(l, a, b, err) && l.Dx() <= l.Dy()
    requires 2 * l.Dx() - 3 * l.Dy() <= 2 * err <= l.Dx()
    ensures |Trace(l, a, b, err)| == l.Dy() - b + 1
    decreases l.Dx() - a + l.Dy() - b
  {
    if !(a == l.Dx() && b == l.Dy()) {
      StepTracing(l, a, b, err);
      TraceLengthY(l, if StepsX(l, err) then a + 1 else a, if StepsY(l, err) then b + 1 else b, NextErr(l, err));
    }
  }

  /** A segment plots max(|dx|, |dy|) + 1 points, from its start to its end. */
  lemma LineShape(l: Segment)
    ensures |LinePoints(l)| == Max(l.Dx(), l.Dy()) + 1
    ensures LinePoints(l)[0] == (l.x0, l.y0)
    ensures LinePoints(l)[|LinePoints(l)| - 1] == (l.x1, l.y1)
  {
    TraceEnds(l, 0, 0, l.Dx() - l.Dy());
    if l.Dy() <= l.Dx() {
      TraceLengthX(l, 0, 0, l.Dx() - l.Dy());
    } else {
      TraceLengthY(l, 0, 0, l.Dx() - l.Dy());
    }
  }

  datatype DrawMode = Points | Lines
  datatype ShapePreset = Oscilloscope | Circle | Spiral | SpectrumBars
  datatype SourceType = Waveform | Spectrum

  /** The cosine and sine the shapes are drawn with. */
  datatype Trig = Trig(cos: real -> real, sin: real -> real)

  const Pi: real := 3.14159265358979323846
  const Cyan: Pixel := FromWord(0xFF00_FFFF)

  /** Sample i reads source slot min(i, size - 1), so a source shorter than
      the 576 samples repeats its last value. */
  function SourceIndex(i: nat, size: nat): (k: nat)
    requires size > 0
    ensures k < size && (i < size ==> k == i)
  {
    Min(i, size - 1)
  }

  /** The shape's point for parameter t in [0, 1) and sample value v, in
      normalised coordinates where [-1, 1] spans the buffer. */
  function ShapePoint(shape: ShapePreset, t: real, v: real, scaleY: real, trig: Trig): (real, real)
  {
    match shape
    case Oscilloscope => (t * 2.0 - 1.0, v * scaleY)
    case Circle =>
      var angle := t * 2.0 * Pi;
      var r := 0.5 + v * scaleY * 0.3;
      (trig.cos(angle) * r, trig.sin(angle) * r)
    case Spiral =>
      var r := t + v * scaleY * 0.2;
      var angle := r * 4.0 * Pi;
      (trig.cos(angle) * r, trig.sin(angle) * r)
    case SpectrumBars => (t * 2.0 - 1.0, -v * scaleY)
  }

  /** A normalised coordinate mapped to a pixel index and clamped into [0, n - 1]. */
  function ToPixel(u: real, n: nat): (k: int)
    requires n > 0
    ensures 0 <= k < n
  {
    Clamp(Trunc((u + 1.0) * 0.5 * n as real), 0, n - 1)
  }

  /** The pixel position of sample i. */
  function SamplePoint(src: seq<real>, i: nat, shape: ShapePreset, scaleY: real, trig: Trig, w: nat, h: nat): (p: Point)
    requires |src| > 0 && w > 0 && h > 0
    ensures InBounds(w, h, p)
  {
    var t := i as real / Audio.WaveformSize as real;
    var v := src[SourceIndex(i, |src|)];
    var (x, y) := ShapePoint(shape, t, v, scaleY, trig);
    (ToPixel(x, w), ToPixel(y, h))
  }

  /** What sample i plots: its point alone, or in Lines mode after the
      first sample, the line from the previous sample's point to it. */
  function Stroke(src: seq<real>, i: nat, mode: DrawMode, shape: ShapePreset, scaleY: real, trig: Trig, w: nat, h: nat): seq<Point>
    requires |src| > 0 && w > 0 && h > 0
  {
    var p := SamplePoint(src, i, shape, scaleY, trig, w, h);
    if mode == Lines && i > 0 then
      var q := SamplePoint(src, i - 1, shape, scaleY, trig, w, h);
      LinePoints(Segment(q.0, q.1, p.0, p.1))
    else [p]
  }

  /** The points the first n samples plot, in order. */
  function ScopePoints(src: seq<real>, n: nat, mode: DrawMode, shape: ShapePreset, scaleY: real, trig: Trig, w: nat, h: nat): seq<Point>
    requires |src| > 0 && w > 0 && h > 0
  {
    if n == 0 then []
    else ScopePoints(src, n - 1, mode, shape, scaleY, trig, w, h) + Stroke(src, n - 1, mode, shape, scaleY, trig, w, h)
  }

  /** Every point the scope plots is inside the buffer: the projected
      samples are clamped, and a line between two points inside stays inside. */
  lemma {:induction false} ScopeInBounds(src: seq<real>, n: nat, mode: DrawMode, shape: ShapePreset, scaleY: real, trig: Trig, w: nat, h: nat)
    requires |src| > 0 && w > 0 && h > 0
    ensures forall p :: p in ScopePoints(src, n, mode, shape, scaleY, trig, w, h) ==> InBounds(w, h, p)
  {
    if n > 0 {
      ScopeInBounds(src, n - 1, mode, shape, scaleY, trig, w, h);
      StrokeInBounds(src, n - 1, mode, shape, scaleY, trig, w, h);
      InBoundsConcat(ScopePoints(src, n - 1, mode, shape, scaleY, trig, w, h), Stroke(src, n - 1, mode, shape, scaleY, trig, w, h), w, h);
    }
  }

  lemma InBoundsConcat(a: seq<Point>, b: seq<Point>, w: int, h: int)
    requires forall p :: p in a ==> InBounds(w, h, p)
    requires forall p :: p in b ==> InBounds(w, h, p)
    ensures forall p :: p in a + b ==> InBounds(w, h, p)
  {
  }

  /** The points one sample plots are inside the buffer. */
  lemma StrokeInBounds(src: seq<real>, i: nat, mode: DrawMode, shape: ShapePreset, scaleY: real, trig: Trig, w: nat, h: nat)
    requires |src| > 0 && w > 0 && h > 0
    ensures forall p :: p in Stroke(src, i, mode, shape, scaleY, trig, w, h) ==> InBounds(w, h, p)
  {
    if mode == Lines && i > 0 {
      var p := SamplePoint(src, i, shape, scaleY, trig, w, h);
      var q := SamplePoint(src, i - 1, shape, scaleY, trig, w, h);
      var l := Segment(q.0, q.1, p.0, p.1);
      TraceInBox(l, 0, 0, l.Dx() - l.Dy());
    }
  }

  /** In Points mode each sample plots exactly one point. */
  lemma {:induction false} PointsModeCount(src: seq<real>, n: nat, shape: ShapePreset, scaleY: real, trig: Trig, w: nat, h: nat)
    requires |src| > 0 && w > 0 && h > 0
    ensures |ScopePoints(src, n, Points, shape, scaleY, trig, w, h)| == n
  {
    if n > 0 {
      PointsModeCount(src, n - 1, shape, scaleY, trig, w, h);
    }
  }

  class SuperScope {
    const drawMode: DrawMode
    const shapePreset: ShapePreset
    const sourceType: SourceType
    const color: Pixel
    const scaleY: real

    constructor (drawMode: DrawMode := Lines, shapePreset: ShapePreset := Oscilloscope,
                 sourceType: SourceType := Waveform, color: Pixel := Cyan, scaleY: real := 0.8)
      ensures this.drawMode == drawMode && this.shapePreset == shapePreset
      ensures this.sourceType == sourceType && this.color == color && this.scaleY == scaleY
    {
      this.drawMode := drawMode;
      this.shapePreset := shapePreset;
      this.sourceType := sourceType;
      this.color := color;
      this.scaleY := scaleY;
    }

    /** Bresenham's line from (x0, y0) to (x1, y1): plots the points of
        LinePoints, skipping those outside the buffer. */
    method DrawLine(fb: Framebuffer, x0: int, y0: int, x1: int, y1: int, col: Pixel)
      requires fb.Valid()
      modifies fb.pixels
      ensures Painted(old(fb.pixels[..]), fb.pixels[..], fb.width, fb.height, LinePoints(Segment(x0, y0, x1, y1)), col)
    {
      ghost var l := Segment(x0, y0, x1, y1);
      var dx := Abs(x1 - x0);
      var dy := -Abs(y1 - y0);
      var sx := if x0 < x1 then 1 else -1;
      var sy := if y0 < y1 then 1 else -1;
      var err := dx + dy;
      var x, y := x0, y0;
      ghost var a, b := 0, 0;
      ghost var drawn: seq<Point> := [];
      ghost var s := fb.pixels[..];
      PaintedNothing(s, fb.width, fb.height, col);
      while true
        invariant Tracing(l, a, b, err) && (x, y) == l.PointAt(a, b)
        invariant LinePoints(l) == drawn + Trace(l, a, b, err)
        invariant Painted(s, fb.pixels[..], fb.width, fb.height, drawn, col)
        decreases l.Dx() - a + l.Dy() - b
      {
        ghost var before := fb.pixels[..];
        Plot(fb.pixels, fb.width, fb.height, x, y, col);
        PaintedThen(s, before, fb.pixels[..], fb.width, fb.height, drawn, [(x, y)], col);
        if x == x1 && y == y1 {
          assert a == l.Dx() && b == l.Dy();
          break;
        }
        ghost var rest := Trace(l, a, b, err);
        x, y, err, a, b := Advance(l, dx, dy, sx, sy, x, y, err, a, b);
        ShiftPoint(LinePoints(l), drawn, rest[0], Trace(l, a, b, err));
        drawn := drawn + [rest[0]];
      }
    }

    /** Moving the first point of the rest to the end of the drawn part. */
    lemma ShiftPoint(all: seq<Point>, drawn: seq<Point>, p: Point, rest: seq<Point>)
      requires all == drawn + ([p] + rest)
      ensures all == (drawn + [p]) + rest
    {
    }

    /** One iteration's move: x steps when 2 err >= dy, y steps when
        2 err <= dx, both tests made on the error before either update. */
    method Advance(ghost l: Segment, dx: int, dy: int, sx: int, sy: int, x: int, y: int, err: int, ghost a: int, ghost b: int)
      returns (x': int, y': int, err': int, ghost a': int, ghost b': int)
      requires dx == l.Dx() && dy == -l.Dy()
      requires sx == (if l.x0 < l.x1 then 1 else -1) && sy == (if l.y0 < l.y1 then 1 else -1)
      requires Tracing(l, a, b, err) && (x, y) == l.PointAt(a, b) && !(a == l.Dx() && b == l.Dy())
      ensures a' == (if StepsX(l, err) then a + 1 else a) && b' == (if StepsY(l, err) then b + 1 else b)
      ensures err' == NextErr(l, err) && Tracing(l, a', b', err') && (x', y') == l.PointAt(a', b')
      ensures Trace(l, a, b, err) == [(x, y)] + Trace(l, a', b', err')
    {
      StepTracing(l, a, b, err);
      x', y', err', a', b' := x, y, err, a, b;
      var e2 := 2 * err;
      if e2 >= dy {
        err' := err' + dy;
        x' := x' + sx;
        a' := a' + 1;
      }
      if e2 <= dx {
        err' := err' + dx;
        y' := y' + sy;
        b' := b' + 1;
      }
    }

    /** Plots the 576 samples of the chosen source through the chosen shape.
        In Lines mode the first sample is a single point and every later one
        is joined to its predecessor. */
    method Render(fb: Framebuffer, audio: Audio.AudioData, trig: Trig)
      requires fb.Valid() && fb.width > 0 && fb.height > 0 && audio.Layout()
      modifies fb.pixels
      ensures var src := if sourceType == Spectrum then audio.spectrumMono[..] else audio.waveformMono[..];
        Painted(old(fb.pixels[..]), fb.pixels[..], fb.width, fb.height,
          ScopePoints(src, Audio.WaveformSize, drawMode, shapePreset, scaleY, trig, fb.width, fb.height), color)
    {
      var w, h := fb.width, fb.height;
      var source := if sourceType == Spectrum then audio.spectrumMono else audio.waveformMono;
      ghost var src := source[..];
      ghost var s := fb.pixels[..];
      var prevX, prevY := -1, -1;
      PaintedNothing(s, w, h, color);
      var i := 0;
      while i < Audio.WaveformSize
        invariant 0 <= i <= Audio.WaveformSize
        invariant i > 0 ==> (prevX, prevY) == SamplePoint(src, i - 1, shapePreset, scaleY, trig, w, h)
        invariant Painted(s, fb.pixels[..], w, h, ScopePoints(src, i, drawMode, shapePreset, scaleY, trig, w, h), color)
      {
        prevX, prevY := DrawSample(fb, source, i, prevX, prevY, trig, s);
        i := i + 1;
      }
    }

    /** Projects sample i and plots its stroke; returns its pixel position. */
    method DrawSample(fb: Framebuffer, source: array<real>, i: nat, prevX: int, prevY: int, trig: Trig, ghost s: seq<Pixel>)
      returns (px: int, py: int)
      requires fb.Valid() && fb.width > 0 && fb.height > 0 && source.Length > 0
      requires i > 0 ==> (prevX, prevY) == SamplePoint(source[..], i - 1, shapePreset, scaleY, trig, fb.width, fb.height)
      requires Painted(s, fb.pixels[..], fb.width, fb.height,
        ScopePoints(source[..], i, drawMode, shapePreset, scaleY, trig, fb.width, fb.height), color)
      modifies fb.pixels
      ensures (px, py) == SamplePoint(source[..], i, shapePreset, scaleY, trig, fb.width, fb.height)
      ensures Painted(s, fb.pixels[..], fb.width, fb.height,
        ScopePoints(source[..], i + 1, drawMode, shapePreset, scaleY, trig, fb.width, fb.height), color)
    {
      ghost var before := fb.pixels[..];
      px, py := DrawStroke(fb, source, i, prevX, prevY, trig);
      PaintedThen(s, before, fb.pixels[..], fb.width, fb.height,
        ScopePoints(source[..], i, drawMode, shapePreset, scaleY, trig, fb.width, fb.height),
        Stroke(source[..], i, drawMode, shapePreset, scaleY, trig, fb.width, fb.height), color);
    }

    /** The pixel position of sample i. */
    method SamplePointAt(fb: Framebuffer, source: array<real>, i: nat, trig: Trig) returns (px: int, py: int)
      requires fb.Valid() && fb.width > 0 && fb.height > 0 && source.Length > 0
      ensures (px, py) == SamplePoint(source[..], i, shapePreset, scaleY, trig, fb.width, fb.height)
    {
      var t := i as real / Audio.WaveformSize as real;
      var v := source[SourceIndex(i, source.Length)];
      var (x, y) := ShapePoint(shapePreset, t, v, scaleY, trig);
      px := ToPixel(x, fb.width);
      py := ToPixel(y, fb.height);
    }

    /** Projects sample i and plots its stroke. */
    method DrawStroke(fb: Framebuffer, source: array<real>, i: nat, prevX: int, prevY: int, trig: Trig)
      returns (px: int, py: int)
      requires fb.Valid() && fb.width > 0 && fb.height > 0 && source.Length > 0
      requires i > 0 ==> (prevX, prevY) == SamplePoint(source[..], i - 1, shapePreset, scaleY, trig, fb.width, fb.height)
      modifies fb.pixels
      ensures (px, py) == SamplePoint(source[..], i, shapePreset, scaleY, trig, fb.width, fb.height)
      ensures Painted(old(fb.pixels[..]), fb.pixels[..], fb.width, fb.height,
        Stroke(source[..], i, drawMode, shapePreset, scaleY, trig, fb.width, fb.height), color)
    {
      px, py := SamplePointAt(fb, source, i, trig);
      if drawMode == Lines && i > 0 && prevX >= 0 {
        DrawLine(fb, prevX, prevY, px, py, color);
      } else {
        Plot(fb.pixels, fb.width, fb.height, px, py, color);
      }
    }
  }
}

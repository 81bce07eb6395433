/** Water: a damped two-buffer ripple simulation over the frame. A beat
    drops a 3x3 splash at a random interior spot, the wave equation moves
    the ripples on by one step, and every interior pixel is then read from
    a copy of the frame at an offset given by the slope of the surface.
    Heights are single-precision floats in the program; here they are exact reals. */
module WaterEffect {
  import opened Pixels
  import opened Framebuffers
  import opened Xorshift
  import Audio

  const InitialSeed: bv32 := 0x1337_BEEF

  /** A surface of n cells at rest. */
  function Zeros(n: nat): (s: seq<real>)
    ensures |s| == n && forall i :: 0 <= i < n ==> s[i] == 0.0
  {
    seq(n, _ => 0.0)
  }

  /** Cell i of a w-wide grid lies off the first and last row and column. */
  predicate Interior(w: int, h: int, i: int)
  {
    w > 0 && 1 <= i % w < w - 1 && 1 <= i / w < h - 1
  }

  /** An interior cell has all four neighbours inside the grid. */
  lemma InteriorNeighbours(w: int, h: int, i: int)
    requires 0 <= i && Interior(w, h, i)
    ensures 1 <= i && w <= i && i + w < w * h
  {
    var q, r := i / w, i % w;
    assert i == q * w + r;
    MulMono(1, q, w);
    MulMono(q, h - 2, w);
    assert (h - 2) * w + w + w == w * h;
  }

  /** The splash centre along an axis of n cells: 2 + r % (n - 4). */
  function SplashCentre(r: bv32, n: int): (c: int)
    requires n > 4
    ensures 2 <= c <= n - 3
  {
    2 + (r as int) % (n - 4)
  }

  /** Whether cell i of a w-wide grid is in the 3x3 block around (cx, cy). */
  predicate InSplash(w: int, i: int, cx: int, cy: int)
  {
    w > 0 && cx - 1 <= i % w <= cx + 1 && cy - 1 <= i / w <= cy + 1
  }

  /** The surface with the 3x3 block around (cx, cy) set to v. */
  function Splash(hs: seq<real>, w: nat, cx: int, cy: int, v: real): (t: seq<real>)
    ensures |t| == |hs|
  {
    seq(|hs|, i requires 0 <= i < |hs| => if InSplash(w, i, cx, cy) then v else hs[i])
  }

  /** A splash centred at the positions the generator picks sets exactly the
      nine cells around the centre, all of them interior; the border and
      every other cell keep their height. */
  lemma SplashCells(hs: seq<real>, w: nat, h: nat, r1: bv32, r2: bv32, v: real, x: int, y: int)
    requires w > 4 && h > 4 && |hs| == w * h && 0 <= x < w && 0 <= y < h
    ensures Idx(w, x, y) < |hs|
    ensures var cx, cy := SplashCentre(r1, w), SplashCentre(r2, h);
      var t := Splash(hs, w, cx, cy, v);
      (t[Idx(w, x, y)] == if cx - 1 <= x <= cx + 1 && cy - 1 <= y <= cy + 1 then v else hs[Idx(w, x, y)])
      && (t[Idx(w, x, y)] != hs[Idx(w, x, y)] ==> Interior(w, h, Idx(w, x, y)))
  {
    IdxInBounds(w, h, x, y);
    DivMod(y, w, x);
  }

  /** One step of the wave equation at interior cell i: half the sum of the
      four neighbours' heights in prev, minus the cell's own older height
      here, times the damping. */
  function WaveAt(prev: seq<real>, here: real, w: nat, h: nat, i: int, damping: real): real
    requires |prev| == w * h && 0 <= i && Interior(w, h, i)
  {
    InteriorNeighbours(w, h, i);
    ((prev[i - 1] + prev[i + 1] + prev[i - w] + prev[i + w]) * 0.5 - here) * damping
  }

  /** The surface after one step: interior cells follow the wave equation
      from prev (the newer heights) and cur (the older ones); border cells
      keep their older height. */
  function Propagated(prev: seq<real>, cur: seq<real>, w: nat, h: nat, damping: real): (t: seq<real>)
    requires |prev| == w * h && |cur| == w * h
    ensures |t| == w * h
    ensures forall i :: 0 <= i < w * h && !Interior(w, h, i) ==> t[i] == cur[i]
  {
    seq(w * h, i requires 0 <= i < w * h =>
      if Interior(w, h, i) then WaveAt(prev, cur[i], w, h, i, damping) else cur[i])
  }

  /** A surface at rest stays at rest. */
  lemma StillWater(w: nat, h: nat, damping: real)
    ensures Propagated(Zeros(w * h), Zeros(w * h), w, h, damping) == Zeros(w * h)
  {
    var z := Zeros(w * h);
    forall i | 0 <= i < w * h
      ensures Propagated(z, z, w, h, damping)[i] == 0.0
    {
      if Interior(w, h, i) {
        InteriorNeighbours(w, h, i);
        assert WaveAt(z, 0.0, w, h, i, damping) == ((0.0 + 0.0 + 0.0 + 0.0) * 0.5 - 0.0) * damping;
      }
    }
  }

  /** Without damping a level surface at any height stays level: half of
      four neighbours equal to c, less c, is c again. */
  lemma LevelWater(w: nat, h: nat, c: real, s: seq<real>)
    requires |s| == w * h && forall i :: 0 <= i < |s| ==> s[i] == c
    ensures Propagated(s, s, w, h, 1.0) == s
  {
    forall i | 0 <= i < w * h
      ensures Propagated(s, s, w, h, 1.0)[i] == s[i]
    {
      if Interior(w, h, i) {
        InteriorNeighbours(w, h, i);
        assert WaveAt(s, c, w, h, i, 1.0) == ((c + c + c + c) * 0.5 - c) * 1.0;
      }
    }
  }

  /** The index interior cell i reads its pixel from: its own position moved
      by the truncated height differences across it, clamped into the frame. */
  function SourceIndex(hc: seq<real>, w: nat, h: nat, i: int): (j: int)
    requires |hc| == w * h && 0 <= i && Interior(w, h, i)
    ensures 0 <= j < w * h
  {
    InteriorNeighbours(w, h, i);
    var dx := Trunc(hc[i + 1] - hc[i - 1]);
    var dy := Trunc(hc[i + w] - hc[i - w]);
    var sx, sy := Clamp(i % w + dx, 0, w - 1), Clamp(i / w + dy, 0, h - 1);
    IdxInBounds(w, h, sx, sy);
    Idx(w, sx, sy)
  }

  /** The frame after the displacement: interior pixels are read from
      their source index, border pixels stay. */
  function Displaced(s: seq<Pixel>, hc: seq<real>, w: nat, h: nat): (t: seq<Pixel>)
    requires |s| == w * h && |hc| == w * h
    ensures |t| == w * h
  {
    seq(w * h, i requires 0 <= i < w * h => DisplacedAt(s, hc, w, h, i))
  }

  /** Pixel i of the displaced frame. */
  function DisplacedAt(s: seq<Pixel>, hc: seq<real>, w: nat, h: nat, i: int): Pixel
    requires |s| == w * h && |hc| == w * h && 0 <= i < w * h
  {
    if Interior(w, h, i) then s[SourceIndex(hc, w, h, i)] else s[i]
  }

  /** Every output pixel is a copy of an input pixel; border pixels are
      their own. */
  lemma DisplacedFromInput(s: seq<Pixel>, hc: seq<real>, w: nat, h: nat, i: int)
    requires |s| == w * h && |hc| == w * h && 0 <= i < w * h
    ensures exists j :: 0 <= j < |s| && Displaced(s, hc, w, h)[i] == s[j]
    ensures !Interior(w, h, i) ==> Displaced(s, hc, w, h)[i] == s[i]
  {
    if Interior(w, h, i) {
      var j := SourceIndex(hc, w, h, i);
      assert Displaced(s, hc, w, h)[i] == s[j];
    } else {
      assert Displaced(s, hc, w, h)[i] == s[i];
    }
  }

  /** A level surface, whatever its height, has no slope and moves no pixel. */
  lemma LevelSurfaceStill(s: seq<Pixel>, hc: seq<real>, w: nat, h: nat, c: real)
    requires |s| == w * h && |hc| == w * h
    requires forall i :: 0 <= i < |hc| ==> hc[i] == c
    ensures Displaced(s, hc, w, h) == s
  {
    forall i | 0 <= i < w * h
      ensures Displaced(s, hc, w, h)[i] == s[i]
    {
      if Interior(w, h, i) {
        LevelSource(hc, w, h, i, c);
      }
    }
  }

  /** On a level surface an interior cell reads its own pixel. */
  lemma LevelSource(hc: seq<real>, w: nat, h: nat, i: int, c: real)
    requires |hc| == w * h && 0 <= i && Interior(w, h, i)
    requires forall k :: 0 <= k < |hc| ==> hc[k] == c
    ensures SourceIndex(hc, w, h, i) == i
  {
    InteriorNeighbours(w, h, i);
    TruncWhole(0);
    assert hc[i + 1] - hc[i - 1] == 0.0 && hc[i + w] - hc[i - w] == 0.0;
  }

  /** From the initial seed the generator never reaches the all-zero state,
      in which every later splash would land on the same cell. */
  lemma SeedNeverZero(n: nat)
    ensures NextN(InitialSeed, n) != 0
  {
    NonZeroForever(InitialSeed, n);
  }

  class Water {
    var damping: real
    var beatInjection: real
    /** The newer surface, the one drawn from. */
    var heightCurrent: seq<real>
    /** The older surface. */
    var heightPrevious: seq<real>
    /** The copy of the frame the displacement reads from. */
    const backBuffer: Framebuffer
    /** The size the surfaces were made for; zero until the first render. */
    var width: nat
    var height: nat
    var rng: bv32

    ghost predicate Valid()
      reads this
    {
      |heightCurrent| == width * height && |heightPrevious| == width * height
      && backBuffer.Valid() && backBuffer.width == Width && backBuffer.height == Height
    }

    constructor (damping: real := 0.98, beatInjection: real := 50.0)
      ensures Valid() && this.damping == damping && this.beatInjection == beatInjection
      ensures width == 0 && height == 0 && heightCurrent == [] && heightPrevious == []
      ensures rng == InitialSeed
      ensures fresh(backBuffer) && fresh(backBuffer.pixels)
    {
      this.damping := damping;
      this.beatInjection := beatInjection;
      heightCurrent, heightPrevious := [], [];
      width, height := 0, 0;
      rng := InitialSeed;
      backBuffer := new Framebuffer(Width, Height);
    }

    /** Makes both surfaces w by h: nothing changes when they already are,
        otherwise both start again at rest. */
    method EnsureBuffers(w: nat, h: nat)
      requires Valid()
      modifies this
      ensures Valid() && width == w && height == h
      ensures old(width) == w && old(height) == h ==>
        heightCurrent == old(heightCurrent) && heightPrevious == old(heightPrevious)
      ensures !(old(width) == w && old(height) == h) ==>
        heightCurrent == Zeros(w * h) && heightPrevious == Zeros(w * h)
      ensures rng == old(rng) && damping == old(damping) && beatInjection == old(beatInjection)
    {
      if width == w && height == h {
        return;
      }
      width, height := w, h;
      heightCurrent := Zeros(w * h);
      heightPrevious := Zeros(w * h);
    }

    /** Advances the generator by one step. */
    method Xorshift32()
      modifies this
      ensures rng == Next(old(rng))
      ensures damping == old(damping) && beatInjection == old(beatInjection)
      ensures heightCurrent == old(heightCurrent) && heightPrevious == old(heightPrevious)
      ensures width == old(width) && height == old(height)
    {
      rng := Step13(rng);
      rng := Step17(rng);
      rng := Step5(rng);
    }

    /** The beat: two generator steps pick the column and the row of the
        centre, then the 3x3 block around it is set to the injection height. */
    method Inject()
      requires Valid() && width > 4 && height > 4
      modifies this
      ensures width == old(width) && height == old(height)
      ensures Valid() && rng == NextN(old(rng), 2)
      ensures heightCurrent ==
        Splash(old(heightCurrent), width, SplashCentre(NextN(old(rng), 1), width), SplashCentre(NextN(old(rng), 2), height), beatInjection)
      ensures heightPrevious == old(heightPrevious)
      ensures damping == old(damping) && beatInjection == old(beatInjection)
    {
      ghost var r0 := rng;
      assert NextN(r0, 2) == Next(Next(r0)) && NextN(r0, 1) == Next(r0);
      Xorshift32();
      var rx := 2 + (rng as int) % (width - 4);
      Xorshift32();
      var ry := 2 + (rng as int) % (height - 4);
      heightCurrent := SplashInto(heightCurrent, width, height, rx, ry, beatInjection);
    }

    /** Swaps the surfaces, then moves every interior cell of the newer one
        on by one step of the wave equation, in row-major order. */
    method Propagate()
      requires Valid()
      modifies this
      ensures Valid() && heightPrevious == old(heightCurrent)
      ensures heightCurrent == Propagated(old(heightCurrent), old(heightPrevious), width, height, damping)
      ensures width == old(width) && height == old(height) && rng == old(rng)
      ensures damping == old(damping) && beatInjection == old(beatInjection)
    {
      heightCurrent, heightPrevious := heightPrevious, heightCurrent;
      heightCurrent := PropagateInto(heightPrevious, heightCurrent, width, height, damping);
    }

    /** Copies the frame aside and reads every interior pixel from its
        displaced position in the copy. */
    method ApplyDisplacement(fb: Framebuffer)
      requires Valid() && fb.Valid() && fb.width == width == Width && fb.height == height == Height
      requires fb.pixels != backBuffer.pixels
      modifies fb.pixels, backBuffer.pixels
      ensures fb.pixels[..] == Displaced(old(fb.pixels[..]), heightCurrent, width, height)
    {
      backBuffer.CopyFrom(fb);
      DisplaceInto(backBuffer.pixels, fb.pixels, heightCurrent, width, height);
    }

    /** One frame: size the surfaces to the frame, splash on a beat, step the
        wave, displace the frame. */
    method Render(fb: Framebuffer, audio: Audio.AudioData)
      requires Valid() && fb.Valid() && fb.width == Width && fb.height == Height
      requires fb.pixels != backBuffer.pixels
      modifies this, fb.pixels, backBuffer.pixels
      ensures Valid() && width == Width && height == Height
      ensures damping == old(damping) && beatInjection == old(beatInjection)
      ensures rng == if audio.isBeat then NextN(old(rng), 2) else old(rng)
      ensures var same := old(width) == Width && old(height) == Height;
        var cur0 := if same then old(heightCurrent) else Zeros(Width * Height);
        var prev0 := if same then old(heightPrevious) else Zeros(Width * Height);
        var splashed := if audio.isBeat then
            Splash(cur0, Width, SplashCentre(NextN(old(rng), 1), Width), SplashCentre(NextN(old(rng), 2), Height), beatInjection)
          else cur0;
        heightPrevious == splashed
        && heightCurrent == Propagated(splashed, prev0, Width, Height, damping)
        && fb.pixels[..] == Displaced(old(fb.pixels[..]), heightCurrent, Width, Height)
    {
      EnsureBuffers(fb.width, fb.height);
      if audio.isBeat {
        Inject();
      }
      Propagate();
      ApplyDisplacement(fb);
    }
  }

  /** Writes v into the 3x3 block around (cx, cy), row by row. */
  method SplashInto(hs: seq<real>, w: nat, h: nat, cx: int, cy: int, v: real) returns (t: seq<real>)
    requires |hs| == w * h && 1 <= cx < w - 1 && 1 <= cy < h - 1
    ensures t == Splash(hs, w, cx, cy, v)
  {
    t := hs;
    var dy := -1;
    while dy <= 1
      invariant -1 <= dy <= 2 && |t| == |hs|
      invariant forall i :: 0 <= i < |t| ==>
        t[i] == if InSplash(w, i, cx, cy) && i / w < cy + dy then v else hs[i]
    {
      var dx := -1;
      while dx <= 1
        invariant -1 <= dx <= 2 && |t| == |hs|
        invariant forall i :: 0 <= i < |t| ==>
          t[i] == if InSplash(w, i, cx, cy) && (i / w < cy + dy || (i / w == cy + dy && i % w < cx + dx)) then v else hs[i]
      {
        var idx := (cy + dy) * w + (cx + dx);
        IdxInBounds(w, h, cx + dx, cy + dy);
        DivMod(cy + dy, w, cx + dx);
        t := t[idx := v];
        OnlyCell(w, cx + dx, cy + dy);
        dx := dx + 1;
      }
      dy := dy + 1;
    }
  }

  /** Computes the next surface into cur from prev, interior cell by
      interior cell in row-major order. */
  method PropagateInto(prev: seq<real>, cur: seq<real>, w: nat, h: nat, damping: real) returns (next: seq<real>)
    requires |prev| == w * h && |cur| == w * h
    ensures next == Propagated(prev, cur, w, h, damping)
  {
    next := cur;
    var y := 1;
    while y < h - 1
      invariant 1 <= y && (h >= 2 ==> y <= h - 1) && |next| == w * h
      invariant forall i :: 0 <= i < w * h ==>
        next[i] == if Interior(w, h, i) && i / w < y then WaveAt(prev, cur[i], w, h, i, damping) else cur[i]
    {
      next := PropagateRow(prev, cur, next, w, h, y, damping);
      y := y + 1;
    }
  }

  /** The inner loop of PropagateInto: the interior cells of row y. */
  method PropagateRow(prev: seq<real>, cur: seq<real>, next0: seq<real>, w: nat, h: nat, y: int, damping: real)
    returns (next: seq<real>)
    requires |prev| == w * h && |cur| == w * h && |next0| == w * h && 1 <= y < h - 1
    requires forall i :: 0 <= i < w * h ==>
      next0[i] == if Interior(w, h, i) && i / w < y then WaveAt(prev, cur[i], w, h, i, damping) else cur[i]
    ensures |next| == w * h
    ensures forall i :: 0 <= i < w * h ==>
      next[i] == if Interior(w, h, i) && i / w < y + 1 then WaveAt(prev, cur[i], w, h, i, damping) else cur[i]
  {
    next := next0;
    var x := 1;
    while x < w - 1
      invariant 1 <= x && (w >= 2 ==> x <= w - 1) && |next| == w * h
      invariant forall i :: 0 <= i < w * h ==>
        next[i] == if Interior(w, h, i) && (i / w < y || (i / w == y && i % w < x)) then WaveAt(prev, cur[i], w, h, i, damping) else cur[i]
    {
      var idx := y * w + x;
      IdxInBounds(w, h, x, y);
      DivMod(y, w, x);
      InteriorNeighbours(w, h, idx);
      var val := (prev[idx - 1] + prev[idx + 1] + prev[idx - w] + prev[idx + w]) * 0.5 - next[idx];
      val := val * damping;
      next := next[idx := val];
      OnlyCell(w, x, y);
      x := x + 1;
    }
  }

  /** Writes into dst, which starts as a copy of src, the displaced pixel of
      every interior cell, in row-major order. */
  method DisplaceInto(src: array<Pixel>, dst: array<Pixel>, hc: seq<real>, w: nat, h: nat)
    requires src != dst && src.Length == w * h && dst.Length == w * h && |hc| == w * h
    requires dst[..] == src[..]
    modifies dst
    ensures dst[..] == Displaced(src[..], hc, w, h)
  {
    ghost var s := src[..];
    var y := 1;
    while y < h - 1
      invariant 1 <= y && (h >= 2 ==> y <= h - 1)
      invariant forall i :: 0 <= i < w * h ==>
        dst[i] == if Interior(w, h, i) && i / w < y then DisplacedAt(s, hc, w, h, i) else s[i]
    {
      DisplaceRow(src, dst, hc, w, h, y);
      y := y + 1;
    }
  }

  /** The inner loop of DisplaceInto: the interior pixels of row y. */
  method DisplaceRow(src: array<Pixel>, dst: array<Pixel>, hc: seq<real>, w: nat, h: nat, y: int)
    requires src != dst && src.Length == w * h && dst.Length == w * h && |hc| == w * h && 1 <= y < h - 1
    requires forall i :: 0 <= i < w * h ==>
      dst[i] == if Interior(w, h, i) && i / w < y then DisplacedAt(src[..], hc, w, h, i) else src[i]
    modifies dst
    ensures forall i :: 0 <= i < w * h ==>
      dst[i] == if Interior(w, h, i) && i / w < y + 1 then DisplacedAt(src[..], hc, w, h, i) else src[i]
  {
    ghost var s := src[..];
    var x := 1;
    while x < w - 1
      invariant 1 <= x && (w >= 2 ==> x <= w - 1)
      invariant forall i :: 0 <= i < w * h ==>
        dst[i] == if Interior(w, h, i) && (i / w < y || (i / w == y && i % w < x)) then DisplacedAt(s, hc, w, h, i) else s[i]
    {
      var idx := y * w + x;
      IdxInBounds(w, h, x, y);
      DivMod(y, w, x);
      var p := DisplacedPixel(src, hc, w, h, x, y);
      dst[idx] := p;
      OnlyCell(w, x, y);
      x := x + 1;
    }
  }

  /** Cell (x, y) is the only index with column x and row y. */
  lemma OnlyCell(w: nat, x: int, y: int)
    requires 0 <= x < w
    ensures forall i :: 0 <= i && i / w == y && i % w == x ==> i == y * w + x
  {
  }

  /** The loop body of DisplaceRow: the pixel interior cell (x, y) reads. */
  method DisplacedPixel(src: array<Pixel>, hc: seq<real>, w: nat, h: nat, x: int, y: int) returns (p: Pixel)
    requires src.Length == w * h && |hc| == w * h && 1 <= x < w - 1 && 1 <= y < h - 1
    ensures 0 <= Idx(w, x, y) < w * h && Interior(w, h, Idx(w, x, y))
    ensures p == DisplacedAt(src[..], hc, w, h, Idx(w, x, y))
  {
    var idx := y * w + x;
    IdxInBounds(w, h, x, y);
    DivMod(y, w, x);
    InteriorNeighbours(w, h, idx);
    var dx := Trunc(hc[idx + 1] - hc[idx - 1]);
    var dy := Trunc(hc[idx + w] - hc[idx - w]);
    var srcX := Clamp(x + dx, 0, w - 1);
    var srcY := Clamp(y + dy, 0, h - 1);
    IdxInBounds(w, h, srcX, srcY);
    p := src[srcY * w + srcX];
  }
}

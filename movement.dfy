/** Movement: every pixel is replaced by the pixel a precomputed
    displacement table points it at, read from a copy of the frame; an
    entry pointing outside the frame yields opaque black. */
module MovementEffect {
  import opened Pixels
  import opened Framebuffers
  import Audio

  datatype MovementType = ZoomIn | ZoomOut | Swirl | SwirlOut | Tunnel | SuckIn

  /** One table entry: the source column and row of a destination pixel. */
  datatype Displace = Displace(srcX: int, srcY: int)

  /** The source point of the rotating and radial kinds, as computed from
      distances and angles (sqrt, atan2, cos and sin) for pixel (x, y). */
  type Polar = (MovementType, int, int) -> (real, real)

  /** The table entry of pixel (x, y) in a w by h frame: the source point
      around the centre (w/2, h/2), truncated toward zero. Zooming scales the
      offset from the centre by 1.02 (in) or 0.98 (out); the other kinds
      take their point from polar. */
  function Entry(kind: MovementType, w: nat, h: nat, polar: Polar, x: int, y: int): Displace
  {
    var cx, cy := w as real * 0.5, h as real * 0.5;
    var dx, dy := x as real - cx, y as real - cy;
    var src :=
      match kind
      case ZoomIn => (cx + dx * 1.02, cy + dy * 1.02)
      case ZoomOut => (cx + dx * 0.98, cy + dy * 0.98)
      case _ => polar(kind, x, y);
    Displace(Trunc(src.0), Trunc(src.1))
  }

  /** The entry stored at row-major index i. */
  function EntryAt(kind: MovementType, w: nat, h: nat, polar: Polar, i: int): Displace
    requires 0 <= i < w * h
  {
    IdxSplit(w, h, i);
    Entry(kind, w, h, polar, i % w, i / w)
  }

  /** The whole table: one entry per pixel, in row-major order. */
  function Table(kind: MovementType, w: nat, h: nat, polar: Polar): (t: seq<Displace>)
    ensures |t| == w * h
    ensures forall i :: 0 <= i < w * h ==> t[i] == EntryAt(kind, w, h, polar, i)
  {
    seq(w * h, i requires 0 <= i < w * h => EntryAt(kind, w, h, polar, i))
  }

  /** The entry at (x, y)'s index is (x, y)'s entry. */
  lemma TableAt(kind: MovementType, w: nat, h: nat, polar: Polar, x: int, y: int)
    requires 0 <= x < w && 0 <= y < h
    ensures 0 <= Idx(w, x, y) < w * h
    ensures Table(kind, w, h, polar)[Idx(w, x, y)] == Entry(kind, w, h, polar, x, y)
  {
    IdxInBounds(w, h, x, y);
    var i := Idx(w, x, y);
    IdxSplit(w, h, i);
    IdxInjective(w, x, y, i % w, i / w);
  }

  /** Whether an entry points inside a w by h frame. */
  predicate InFrame(d: Displace, w: nat, h: nat)
  {
    0 <= d.srcX < w && 0 <= d.srcY < h
  }

  /** What one destination pixel becomes: the source pixel the entry points
      at, or opaque black when it points outside. */
  function Gather(s: seq<Pixel>, w: nat, h: nat, d: Displace): Pixel
    requires |s| == w * h
  {
    if InFrame(d, w, h) then At(s, w, h, d.srcX, d.srcY) else OpaqueBlack
  }

  /** The frame after a render: every pixel gathered from s through its entry. */
  function Moved(s: seq<Pixel>, w: nat, h: nat, t: seq<Displace>): (r: seq<Pixel>)
    requires |s| == w * h && |t| == w * h
    ensures |r| == w * h && forall i :: 0 <= i < w * h ==> r[i] == Gather(s, w, h, t[i])
  {
    seq(w * h, i requires 0 <= i < w * h => Gather(s, w, h, t[i]))
  }

  /** Every output pixel is opaque black or a copy of some input pixel. */
  lemma MovedFromInput(s: seq<Pixel>, w: nat, h: nat, t: seq<Displace>, i: int)
    requires |s| == w * h && |t| == w * h && 0 <= i < w * h
    ensures Moved(s, w, h, t)[i] == OpaqueBlack || exists j :: 0 <= j < |s| && Moved(s, w, h, t)[i] == s[j]
  {
    var d := t[i];
    if InFrame(d, w, h) {
      IdxInBounds(w, h, d.srcX, d.srcY);
      assert Moved(s, w, h, t)[i] == s[Idx(w, d.srcX, d.srcY)];
    }
  }

  /** A table whose every entry points at its own pixel leaves the frame as it is. */
  lemma MovedIdentity(s: seq<Pixel>, w: nat, h: nat, t: seq<Displace>)
    requires |s| == w * h && |t| == w * h
    requires forall x, y :: 0 <= x < w && 0 <= y < h ==> Idx(w, x, y) < |t| && t[Idx(w, x, y)] == Displace(x, y)
    ensures Moved(s, w, h, t) == s
  {
    forall i | 0 <= i < w * h
      ensures Moved(s, w, h, t)[i] == s[i]
    {
      IdxSplit(w, h, i);
      assert t[Idx(w, i % w, i / w)] == Displace(i % w, i / w);
    }
  }

  /** A table whose entries all point outside blacks the whole frame. */
  lemma MovedAllOutside(s: seq<Pixel>, w: nat, h: nat, t: seq<Displace>)
    requires |s| == w * h && |t| == w * h
    requires forall i :: 0 <= i < |t| ==> !InFrame(t[i], w, h)
    ensures Moved(s, w, h, t) == Filled(w * h, OpaqueBlack)
  {
  }

  /** Zooming out reads from between a pixel and the centre, so every entry
      lies inside the frame and no pixel turns black. */
  lemma ZoomOutInside(w: nat, h: nat, polar: Polar, x: int, y: int)
    requires 0 <= x < w && 0 <= y < h
    ensures InFrame(Entry(ZoomOut, w, h, polar, x, y), w, h)
  {
    var cx, cy := w as real * 0.5, h as real * 0.5;
    var sx, sy := cx + (x as real - cx) * 0.98, cy + (y as real - cy) * 0.98;
    assert sx == 0.98 * x as real + 0.02 * cx;
    assert sy == 0.98 * y as real + 0.02 * cy;
    TruncMono(0.0, sx);
    TruncMono(0.0, sy);
  }

  /** At the engine's resolution zooming in reads the top-left corner from
      (-3, -1), outside the frame, so that corner turns black. */
  lemma ZoomInCornerOutside(polar: Polar)
    ensures Entry(ZoomIn, Width, Height, polar, 0, 0) == Displace(-3, -1)
    ensures !InFrame(Entry(ZoomIn, Width, Height, polar, 0, 0), Width, Height)
  {
    assert 160.0 + (0.0 - 160.0) * 1.02 == -3.2;
    assert 50.0 + (0.0 - 50.0) * 1.02 == -1.0;
  }

  /** For an even-sized frame a zoom maps the centre pixel onto itself. */
  lemma ZoomCentreFixed(kind: MovementType, w: nat, h: nat, polar: Polar)
    requires kind == ZoomIn || kind == ZoomOut
    requires w % 2 == 0 && h % 2 == 0
    ensures Entry(kind, w, h, polar, w / 2, h / 2) == Displace(w / 2, h / 2)
  {
    assert w as real * 0.5 == (w / 2) as real;
    assert h as real * 0.5 == (h / 2) as real;
    TruncWhole(w / 2);
    TruncWhole(h / 2);
  }

  class Movement {
    var kind: MovementType
    /** The displacement table, one entry per pixel of the engine's frame. */
    const table: array<Displace>
    /** The copy of the frame a render reads from. */
    const backBuffer: Framebuffer
    const width: nat
    const height: nat
    /** The floating-point source points of the rotating and radial kinds. */
    const polar: Polar

    ghost predicate Valid()
    {
      width == Width && height == Height && table.Length == width * height
      && backBuffer.Valid() && backBuffer.width == width && backBuffer.height == height
    }

    /** The table matches the current kind. */
    ghost predicate Built()
      reads this, table
    {
      table[..] == Table(kind, width, height, polar)
    }

    constructor (polar: Polar, kind: MovementType := ZoomIn)
      ensures Valid() && Built() && this.kind == kind && this.polar == polar
      ensures fresh(table) && fresh(backBuffer) && fresh(backBuffer.pixels)
    {
      this.kind := kind;
      this.polar := polar;
      width, height := Width, Height;
      table := new Displace[Width * Height];
      backBuffer := new Framebuffer(Width, Height);
      new;
      BuildTable();
    }

    /** Switches to another kind of movement and rebuilds the table for it. */
    method SetMovementType(kind: MovementType)
      requires Valid()
      modifies this, table
      ensures Valid() && Built() && this.kind == kind
    {
      this.kind := kind;
      BuildTable();
    }

    /** Fills the table row by row with the entries of the current kind. */
    method BuildTable()
      requires Valid()
      modifies table
      ensures Built()
    {
      var w, h := width, height;
      var y := 0;
      while y < h
        invariant 0 <= y <= h
        invariant forall k :: 0 <= k < Idx(w, 0, y) ==> table[k] == EntryAt(kind, w, h, polar, k)
      {
        var x := 0;
        while x < w
          invariant 0 <= x <= w
          invariant forall k :: 0 <= k < Idx(w, x, y) ==> table[k] == EntryAt(kind, w, h, polar, k)
        {
          var idx := y * w + x;
          IdxInBounds(w, h, x, y);
          DivMod(y, w, x);
          table[idx] := Entry(kind, w, h, polar, x, y);
          x := x + 1;
        }
        y := y + 1;
      }
      assert Idx(w, 0, h) == w * h;
    }

    /** Copies the frame aside, then gathers every pixel through the table;
        the audio is not consulted. */
    method Render(fb: Framebuffer, audio: Audio.AudioData)
      requires Valid() && Built() && fb.Valid() && fb.width == width && fb.height == height
      requires fb.pixels != backBuffer.pixels
      modifies fb.pixels, backBuffer.pixels
      ensures fb.pixels[..] == Moved(old(fb.pixels[..]), width, height, Table(kind, width, height, polar))
    {
      backBuffer.CopyFrom(fb);
      GatherInto(backBuffer.pixels, fb.pixels, width, height, table);
    }
  }

  /** Writes into dst, pixel by pixel, what the table gathers from src. */
  method GatherInto(src: array<Pixel>, dst: array<Pixel>, w: nat, h: nat, table: array<Displace>)
    requires src != dst && src.Length == w * h && dst.Length == w * h && table.Length == w * h
    modifies dst
    ensures dst[..] == Moved(src[..], w, h, table[..])
  {
    var i := 0;
    while i < w * h
      invariant 0 <= i <= w * h
      invariant forall k :: 0 <= k < i ==> dst[k] == Gather(src[..], w, h, table[k])
    {
      var p := GatherPixel(src, w, h, table[i]);
      dst[i] := p;
      i := i + 1;
    }
  }

  /** The pixel one entry gathers: the source pixel it points at, or black. */
  method GatherPixel(src: array<Pixel>, w: nat, h: nat, d: Displace) returns (p: Pixel)
    requires src.Length == w * h
    ensures p == Gather(src[..], w, h, d)
  {
    var sx, sy := d.srcX, d.srcY;
    if sx >= 0 && sx < w && sy >= 0 && sy < h {
      IdxInBounds(w, h, sx, sy);
      p := src[sy * w + sx];
    } else {
      p := OpaqueBlack;
    }
  }
}

/** The engine: the current preset, the chain of effects it built, the front
    buffer the chain renders into, and a cross-fade from the last frame of
    the previous preset that runs over the first frames of the new one. */
module Engine {
  import opened Pixels
  import opened Framebuffers
  import BufferBlendEffect
  import SuperScopeEffect
  import MovementEffect
  import MirrorEffect
  import ColorModifierEffect
  import OnBeatClearEffect

  /** The cross-fade lasts this many rendered frames. */
  const TransitionDuration: int := 30

  /** One effect of a preset's chain, with the settings its builder gives it. */
  datatype EffectSpec =
    | FadeOut(speed: nat)
    | ClearScreen(color: Pixel)
    | SuperScope(shape: SuperScopeEffect.ShapePreset, source: SuperScopeEffect.SourceType,
                 drawMode: SuperScopeEffect.DrawMode, color: Pixel)
    | Movement(kind: MovementEffect.MovementType)
    | ColorModifier(colorMode: ColorModifierEffect.Mode)
    | OnBeatClear(clearMode: OnBeatClearEffect.Mode)
    | Grain(amount: int, beatReactive: bool)
    | Mirror(mirrorMode: MirrorEffect.Mode)
    | Ring(color: Pixel, ringCount: int, scaleY: real)
    | Starfield(starCount: int, starSpeed: real)
    | Water
    | DynamicMovement
    | Blur(passes: int)
    | Mosaic(blockSize: int, beatReactive: bool)
    | BufferBlend(ratio: real)
    | Clock(color: Pixel, scale: int, blinkColon: bool)

  /** A named preset and the effects it adds, in order. */
  datatype Preset = Preset(name: string, chain: seq<EffectSpec>)

  /** A scope over the waveform. */
  function Scope(shape: SuperScopeEffect.ShapePreset, mode: SuperScopeEffect.DrawMode, color: Word): EffectSpec
  {
    SuperScope(shape, SuperScopeEffect.Waveform, mode, FromWord(color))
  }

  /** A scope drawing spectrum bars. */
  function Bars(color: Word): EffectSpec
  {
    SuperScope(SuperScopeEffect.SpectrumBars, SuperScopeEffect.Spectrum, SuperScopeEffect.Lines, FromWord(color))
  }

  /** The built-in presets, in the order the index selects them. */
  const Catalog: seq<Preset> := [
    Preset("Classic Scope", [FadeOut(4), Scope(SuperScopeEffect.Oscilloscope, SuperScopeEffect.Lines, 0xFF00_FFFF),
      Movement(MovementEffect.ZoomIn)]),
    Preset("Spiral Tunnel", [FadeOut(2), Scope(SuperScopeEffect.Spiral, SuperScopeEffect.Lines, 0xFF00_FF80),
      Movement(MovementEffect.Tunnel)]),
    Preset("Neon Ring", [FadeOut(6), Ring(FromWord(0xFFFF_00FF), 16, 0.5), Movement(MovementEffect.Swirl),
      ColorModifier(ColorModifierEffect.HueShift)]),
    Preset("Starfield", [FadeOut(3), Starfield(128, 0.02), Movement(MovementEffect.ZoomOut)]),
    Preset("Spectrum Fire", [ClearScreen(OpaqueBlack), Bars(0xFFFF_8800), Mirror(MirrorEffect.Vertical)]),
    Preset("Mirror Scope", [FadeOut(4), Scope(SuperScopeEffect.Oscilloscope, SuperScopeEffect.Lines, 0xFFFF_FFFF),
      Mirror(MirrorEffect.Horizontal), Movement(MovementEffect.ZoomIn)]),
    Preset("Water World", [FadeOut(3), Scope(SuperScopeEffect.Circle, SuperScopeEffect.Points, 0xFF00_FFFF), Water]),
    Preset("Grain Storm", [FadeOut(2), Grain(8, true), Scope(SuperScopeEffect.Oscilloscope, SuperScopeEffect.Lines, 0xFFFF_4444),
      Movement(MovementEffect.SwirlOut)]),
    Preset("Beat Pulse", [FadeOut(8), OnBeatClear(OnBeatClearEffect.FlashWhite),
      Scope(SuperScopeEffect.Circle, SuperScopeEffect.Lines, 0xFF00_FF00), Movement(MovementEffect.SuckIn)]),
    Preset("Dynamic Warp", [FadeOut(4), Scope(SuperScopeEffect.Oscilloscope, SuperScopeEffect.Lines, 0xFF00_FFFF),
      DynamicMovement]),
    Preset("Soft Dream", [FadeOut(2), Scope(SuperScopeEffect.Circle, SuperScopeEffect.Lines, 0xFFFF_00FF), Blur(1),
      Movement(MovementEffect.Swirl)]),
    Preset("LED Wall", [ClearScreen(OpaqueBlack), Bars(0xFF00_FF00), Mosaic(4, true)]),
    Preset("Echo Chamber", [BufferBlend(0.7), Scope(SuperScopeEffect.Oscilloscope, SuperScopeEffect.Lines, 0xFF00_FFFF),
      DynamicMovement]),
    Preset("Neon Stars", [FadeOut(4), Starfield(200, 0.02), Ring(FromWord(0xFF00_FFFF), 16, 0.5), Blur(1),
      ColorModifier(ColorModifierEffect.HueShift)]),
    Preset("Chaos", [FadeOut(3), OnBeatClear(OnBeatClearEffect.RandomColor),
      Scope(SuperScopeEffect.Spiral, SuperScopeEffect.Lines, 0xFFFF_FFFF), Grain(12, true), Movement(MovementEffect.Tunnel)]),
    Preset("Clockwork", [FadeOut(3), Movement(MovementEffect.ZoomIn), Starfield(60, 0.012), Clock(FromWord(0xFF00_FFFF), 3, true)])
  ]

  /** There are sixteen presets, each with a non-empty name of its own and a
      non-empty chain. */
  lemma CatalogShape()
    ensures |Catalog| == 16
    ensures forall i :: 0 <= i < |Catalog| ==> Catalog[i].name != "" && |Catalog[i].chain| > 0
    ensures forall i, j :: 0 <= i < j < |Catalog| ==> Catalog[i].name != Catalog[j].name
  {
  }

  /** The preset after i, wrapping to the first. */
  function NextIndex(i: int, n: int): (j: int)
    requires 0 <= i < n
    ensures 0 <= j < n
  {
    (i + 1) % n
  }

  /** The preset before i, wrapping to the last. */
  function PrevIndex(i: int, n: int): (j: int)
    requires 0 <= i < n
    ensures 0 <= j < n
  {
    (i - 1 + n) % n
  }

  /** Stepping forward then back, or back then forward, returns to the same
      preset; a step never stays put when there are two or more presets. */
  lemma NextPrevInverse(i: int, n: int)
    requires 0 <= i < n
    ensures PrevIndex(NextIndex(i, n), n) == i
    ensures NextIndex(PrevIndex(i, n), n) == i
    ensures n >= 2 ==> NextIndex(i, n) != i && PrevIndex(i, n) != i
  {
    ModOnce(i + 1, n);
    ModOnce(i - 1 + n, n);
    ModOnce(NextIndex(i, n) - 1 + n, n);
    ModOnce(PrevIndex(i, n) + 1, n);
  }

  /** x mod n for 0 <= x < 2n: x itself, or x - n. */
  lemma ModOnce(x: int, n: int)
    requires 0 <= x < 2 * n
    ensures x % n == if x < n then x else x - n
  {
    if x < n {
      DivMod(0, n, x);
    } else {
      DivMod(1, n, x - n);
    }
  }

  /** One effect in the engine's list: its state and its enabled flag. */
  datatype Slot<S> = Slot(state: S, enabled: bool)

  /** The list a preset's builder leaves: one enabled effect per entry of
      its chain, in order. */
  function Instantiate<S>(chain: seq<EffectSpec>, build: EffectSpec -> S): (slots: seq<Slot<S>>)
    ensures |slots| == |chain|
    ensures forall i :: 0 <= i < |chain| ==> slots[i] == Slot(build(chain[i]), true)
  {
    seq(|chain|, i requires 0 <= i < |chain| => Slot(build(chain[i]), true))
  }

  /** The first n effects of the list run in order over the frame px: each
      enabled one maps its state and the frame to new ones, each disabled
      one is passed over. */
  function Run<S(!new)>(slots: seq<Slot<S>>, n: nat, px: seq<Pixel>, step: (S, seq<Pixel>) -> (S, seq<Pixel>))
    : (r: (seq<Slot<S>>, seq<Pixel>))
    requires n <= |slots|
    ensures |r.0| == |slots|
    ensures KeepsSize(step) ==> |r.1| == |px|
  {
    if n == 0 then (slots, px)
    else
      var prior := Run(slots, n - 1, px, step);
      var k := prior.0[n - 1];
      if k.enabled then
        var out := step(k.state, prior.1);
        (prior.0[n - 1 := Slot(out.0, true)], out.1)
      else prior
  }

  /** Every effect hands back a frame of the size it was given. */
  ghost predicate KeepsSize<S(!new)>(step: (S, seq<Pixel>) -> (S, seq<Pixel>))
  {
    forall s, p :: |step(s, p).1| == |p|
  }

  /** Running n effects touches no slot at or after n, and never changes an
      enabled flag; a disabled slot keeps its state. */
  lemma {:induction false} RunFrame<S(!new)>(slots: seq<Slot<S>>, n: nat, px: seq<Pixel>, step: (S, seq<Pixel>) -> (S, seq<Pixel>))
    requires n <= |slots|
    ensures forall i :: n <= i < |slots| ==> Run(slots, n, px, step).0[i] == slots[i]
    ensures forall i :: 0 <= i < |slots| ==> Run(slots, n, px, step).0[i].enabled == slots[i].enabled
    ensures forall i :: 0 <= i < |slots| && !slots[i].enabled ==> Run(slots, n, px, step).0[i] == slots[i]
  {
    if n > 0 {
      RunFrame(slots, n - 1, px, step);
    }
  }

  /** A list whose effects are all disabled leaves the frame and the list
      as they are. */
  lemma {:induction false} RunAllDisabled<S(!new)>(slots: seq<Slot<S>>, n: nat, px: seq<Pixel>, step: (S, seq<Pixel>) -> (S, seq<Pixel>))
    requires n <= |slots|
    requires forall i :: 0 <= i < |slots| ==> !slots[i].enabled
    ensures Run(slots, n, px, step) == (slots, px)
  {
    if n > 0 {
      RunAllDisabled(slots, n - 1, px, step);
    }
  }

  /** One cross-faded channel: the old frame's weighted by remaining/30,
      the new one's by the rest, truncated. */
  function FadeChannel(o: Channel, n: Channel, remaining: int): (c: Channel)
    requires 0 < remaining <= TransitionDuration
    ensures Min(o, n) <= c <= Max(o, n)
  {
    var oldAlpha := remaining as real / TransitionDuration as real;
    var v := o as real * oldAlpha + n as real * (1.0 - oldAlpha);
    FadeMix(o, n, oldAlpha);
    Trunc(v)
  }

  /** A fade weight in (0, 1] keeps the truncated mix between the two channels. */
  lemma FadeMix(o: Channel, n: Channel, oldAlpha: real)
    requires 0.0 < oldAlpha <= 1.0
    ensures Min(o, n) <= Trunc(o as real * oldAlpha + n as real * (1.0 - oldAlpha)) <= Max(o, n)
  {
    BufferBlendEffect.MixBetween(o, n, oldAlpha, 1.0 - oldAlpha);
  }

  /** One cross-faded pixel: opaque, each colour channel faded separately. */
  function FadePixel(o: Pixel, n: Pixel, remaining: int): Pixel
    requires 0 < remaining <= TransitionDuration
  {
    Opaque(FadeChannel(o.r, n.r, remaining), FadeChannel(o.g, n.g, remaining), FadeChannel(o.b, n.b, remaining))
  }

  /** The new frame faded from the old one, pixel by pixel. */
  function CrossFaded(prev: seq<Pixel>, cur: seq<Pixel>, remaining: int): (r: seq<Pixel>)
    requires |cur| <= |prev| && 0 < remaining <= TransitionDuration
    ensures |r| == |cur|
    ensures forall i :: 0 <= i < |cur| ==> r[i] == FadePixel(prev[i], cur[i], remaining)
  {
    seq(|cur|, i requires 0 <= i < |cur| => FadePixel(prev[i], cur[i], remaining))
  }

  /** The first faded frame shows the old frame (made opaque), and every
      faded channel lies between the old and the new one. */
  lemma FadeBounds(o: Pixel, n: Pixel, remaining: int)
    requires 0 < remaining <= TransitionDuration
    ensures var p := FadePixel(o, n, remaining);
      p.a == 255 && Min(o.r, n.r) <= p.r <= Max(o.r, n.r)
      && Min(o.g, n.g) <= p.g <= Max(o.g, n.g) && Min(o.b, n.b) <= p.b <= Max(o.b, n.b)
    ensures remaining == TransitionDuration ==> FadePixel(o, n, remaining) == Opaque(o.r, o.g, o.b)
  {
    if remaining == TransitionDuration {
      TruncWhole(o.r);
      TruncWhole(o.g);
      TruncWhole(o.b);
    }
  }

  /** The cross-fade countdown after one rendered frame: while a fade runs,
      one frame fewer remains, and the fade stops when none is left. */
  function Tick(transitioning: bool, remaining: int): (r: (bool, int))
    ensures transitioning && remaining > 0 ==> r.1 == remaining - 1 && (r.0 <==> r.1 > 0)
    ensures !(transitioning && remaining > 0) ==> r == (transitioning, remaining)
  {
    if transitioning && remaining > 0 then (remaining - 1 > 0, remaining - 1) else (transitioning, remaining)
  }

  /** The countdown after k rendered frames. */
  function Ticks(transitioning: bool, remaining: int, k: nat): (bool, int)
  {
    if k == 0 then (transitioning, remaining)
    else var r := Ticks(transitioning, remaining, k - 1); Tick(r.0, r.1)
  }

  /** A fade started with r frames to go is still running after k < r
      frames and has stopped after r of them, for good. */
  lemma {:induction false} FadeLasts(r: int, k: nat)
    requires r > 0
    ensures Ticks(true, r, k) == if k < r then (true, r - k) else (false, 0)
  {
    if k > 0 {
      FadeLasts(r, k - 1);
    }
  }

  class Engine<S(!new)> {
    var presetIndex: int
    var slots: seq<Slot<S>>
    const frontBuffer: Framebuffer
    /** The last frame of the previous preset, faded out over the new one. */
    const transitionBuffer: Framebuffer
    var transitioning: bool
    var transitionFramesRemaining: int
    /** Set by the first render; until then a preset change does not fade. */
    var hasRenderedFrame: bool
    /** The effects' constructors: the state an effect starts with. */
    const build: EffectSpec -> S

    ghost predicate Valid()
      reads this
    {
      frontBuffer.Valid() && frontBuffer.width == Width && frontBuffer.height == Height
      && transitionBuffer.Valid() && transitionBuffer.width == Width && transitionBuffer.height == Height
      && frontBuffer.pixels != transitionBuffer.pixels
      && 0 <= presetIndex < |Catalog|
      && 0 <= transitionFramesRemaining <= TransitionDuration
      && (transitioning ==> transitionFramesRemaining > 0)
    }

    /** Two black buffers and the first preset, with no fade. */
    constructor (build: EffectSpec -> S)
      ensures Valid() && this.build == build && presetIndex == 0
      ensures slots == Instantiate(Catalog[0].chain, build)
      ensures !transitioning && !hasRenderedFrame
      ensures frontBuffer.pixels[..] == Filled(Width * Height, OpaqueBlack)
      ensures fresh(frontBuffer) && fresh(frontBuffer.pixels) && fresh(transitionBuffer) && fresh(transitionBuffer.pixels)
    {
      this.build := build;
      frontBuffer := new Framebuffer(Width, Height);
      transitionBuffer := new Framebuffer(Width, Height);
      presetIndex := 0;
      slots := [];
      transitioning := false;
      transitionFramesRemaining := 0;
      hasRenderedFrame := false;
      new;
      LoadPreset(0);
    }

    /** Appends an enabled effect to the list. */
    method AddEffect(state: S)
      requires Valid()
      modifies this
      ensures Valid() && slots == old(slots) + [Slot(state, true)]
      ensures presetIndex == old(presetIndex) && transitioning == old(transitioning)
      ensures transitionFramesRemaining == old(transitionFramesRemaining) && hasRenderedFrame == old(hasRenderedFrame)
    {
      slots := slots + [Slot(state, true)];
    }

    /** Empties the list. */
    method ClearEffects()
      requires Valid()
      modifies this
      ensures Valid() && slots == []
      ensures presetIndex == old(presetIndex) && transitioning == old(transitioning)
      ensures transitionFramesRemaining == old(transitionFramesRemaining) && hasRenderedFrame == old(hasRenderedFrame)
    {
      slots := [];
    }

    /** Switches to preset index: out of range nothing happens at all;
        otherwise, once a frame has been rendered, the current frame is kept
        for a 30-frame fade, and then the frame is cleared to black and the
        list replaced by the preset's chain. The current index is reloaded
        like any other. */
    method LoadPreset(index: int)
      requires Valid()
      modifies this, frontBuffer.pixels, transitionBuffer.pixels
      ensures Valid() && hasRenderedFrame == old(hasRenderedFrame)
      ensures !(0 <= index < |Catalog|) ==>
        presetIndex == old(presetIndex) && slots == old(slots)
        && transitioning == old(transitioning) && transitionFramesRemaining == old(transitionFramesRemaining)
        && frontBuffer.pixels[..] == old(frontBuffer.pixels[..])
        && transitionBuffer.pixels[..] == old(transitionBuffer.pixels[..])
      ensures 0 <= index < |Catalog| ==>
        presetIndex == index && slots == Instantiate(Catalog[index].chain, build)
        && frontBuffer.pixels[..] == Filled(Width * Height, OpaqueBlack)
      ensures 0 <= index < |Catalog| && old(hasRenderedFrame) ==>
        transitioning && transitionFramesRemaining == TransitionDuration
        && transitionBuffer.pixels[..] == old(frontBuffer.pixels[..])
      ensures 0 <= index < |Catalog| && !old(hasRenderedFrame) ==>
        transitioning == old(transitioning) && transitionFramesRemaining == old(transitionFramesRemaining)
        && transitionBuffer.pixels[..] == old(transitionBuffer.pixels[..])
    {
      if index < 0 || index >= |Catalog| {
        return;
      }
      if hasRenderedFrame {
        transitionBuffer.CopyFrom(frontBuffer);
        transitioning := true;
        transitionFramesRemaining := TransitionDuration;
      }
      presetIndex := index;
      ClearEffects();
      frontBuffer.Clear();
      BuildChain(Catalog[index].chain);
    }

    /** The preset's builder: adds one effect per entry of the chain. */
    method BuildChain(chain: seq<EffectSpec>)
      requires Valid() && slots == []
      modifies this
      ensures Valid() && slots == Instantiate(chain, build)
      ensures presetIndex == old(presetIndex) && transitioning == old(transitioning)
      ensures transitionFramesRemaining == old(transitionFramesRemaining) && hasRenderedFrame == old(hasRenderedFrame)
    {
      var i := 0;
      while i < |chain|
        invariant 0 <= i <= |chain| && Valid()
        invariant slots == Instantiate(chain[..i], build)
        invariant presetIndex == old(presetIndex) && transitioning == old(transitioning)
        invariant transitionFramesRemaining == old(transitionFramesRemaining) && hasRenderedFrame == old(hasRenderedFrame)
      {
        AddEffect(build(chain[i]));
        assert chain[..i + 1] == chain[..i] + [chain[i]];
        i := i + 1;
      }
      assert chain[..i] == chain;
    }

    /** Loads the preset after the current one, wrapping round. */
    method NextPreset()
      requires Valid()
      modifies this, frontBuffer.pixels, transitionBuffer.pixels
      ensures Valid() && presetIndex == NextIndex(old(presetIndex), |Catalog|)
      ensures hasRenderedFrame == old(hasRenderedFrame)
      ensures slots == Instantiate(Catalog[presetIndex].chain, build)
      ensures frontBuffer.pixels[..] == Filled(Width * Height, OpaqueBlack)
      ensures old(hasRenderedFrame) ==>
        transitioning && transitionFramesRemaining == TransitionDuration
        && transitionBuffer.pixels[..] == old(frontBuffer.pixels[..])
      ensures !old(hasRenderedFrame) ==>
        transitioning == old(transitioning) && transitionFramesRemaining == old(transitionFramesRemaining)
        && transitionBuffer.pixels[..] == old(transitionBuffer.pixels[..])
    {
      var next := (presetIndex + 1) % |Catalog|;
      LoadPreset(next);
    }

    /** Loads the preset before the current one, wrapping round. */
    method PrevPreset()
      requires Valid()
      modifies this, frontBuffer.pixels, transitionBuffer.pixels
      ensures Valid() && presetIndex == PrevIndex(old(presetIndex), |Catalog|)
      ensures hasRenderedFrame == old(hasRenderedFrame)
      ensures slots == Instantiate(Catalog[presetIndex].chain, build)
      ensures frontBuffer.pixels[..] == Filled(Width * Height, OpaqueBlack)
      ensures old(hasRenderedFrame) ==>
        transitioning && transitionFramesRemaining == TransitionDuration
        && transitionBuffer.pixels[..] == old(frontBuffer.pixels[..])
      ensures !old(hasRenderedFrame) ==>
        transitioning == old(transitioning) && transitionFramesRemaining == old(transitionFramesRemaining)
        && transitionBuffer.pixels[..] == old(transitionBuffer.pixels[..])
    {
      var count := |Catalog|;
      var prev := (presetIndex - 1 + count) % count;
      LoadPreset(prev);
    }

    /** The number of presets. */
    function PresetCount(): (n: int)
      ensures n == 16
    {
      CatalogShape();
      |Catalog|
    }

    /** The current preset's name; the empty string for an index outside
        the catalogue. */
    function PresetName(): (name: string)
      reads this
      ensures Valid() ==> name == Catalog[presetIndex].name && name != ""
      ensures !(0 <= presetIndex < |Catalog|) ==> name == ""
    {
      CatalogShape();
      if 0 <= presetIndex < |Catalog| then Catalog[presetIndex].name else ""
    }

    /** One frame: every enabled effect in list order, then, during a fade,
        the old frame faded over the new one, and the countdown ticks. The
        effects' renders, with this frame's audio bound in, are step. */
    method RenderFrame(step: (S, seq<Pixel>) -> (S, seq<Pixel>))
      requires Valid()
      requires KeepsSize(step)
      modifies this, frontBuffer.pixels
      ensures Valid() && hasRenderedFrame && presetIndex == old(presetIndex)
      ensures var ran := Run(old(slots), |old(slots)|, old(frontBuffer.pixels[..]), step);
        slots == ran.0
        && (transitioning, transitionFramesRemaining) == Tick(old(transitioning), old(transitionFramesRemaining))
        && frontBuffer.pixels[..] ==
          if old(transitioning) && old(transitionFramesRemaining) > 0
          then CrossFaded(transitionBuffer.pixels[..], ran.1, old(transitionFramesRemaining))
          else ran.1
      ensures transitionBuffer.pixels[..] == old(transitionBuffer.pixels[..])
    {
      var list := slots;
      var px := frontBuffer.pixels;
      ghost var px0 := px[..];
      var i := 0;
      while i < |list|
        invariant 0 <= i <= |list| && |list| == |old(slots)|
        invariant (list, px[..]) == Run(old(slots), i, px0, step)
        modifies px
      {
        RunFrame(old(slots), i, px0, step);
        var k := list[i];
        if k.enabled {
          var out := step(k.state, px[..]);
          Store(px, out.1);
          list := list[i := Slot(out.0, true)];
        }
        i := i + 1;
      }
      slots := list;
      hasRenderedFrame := true;
      if transitioning && transitionFramesRemaining > 0 {
        CrossFadeInto(transitionBuffer.pixels, px, transitionFramesRemaining);
        transitionFramesRemaining := transitionFramesRemaining - 1;
        if transitionFramesRemaining <= 0 {
          transitioning := false;
        }
      }
    }
  }

  /** Overwrites the array with the frame s. */
  method Store(a: array<Pixel>, s: seq<Pixel>)
    requires |s| == a.Length
    modifies a
    ensures a[..] == s
  {
    var i := 0;
    while i < a.Length
      invariant 0 <= i <= a.Length
      invariant forall k :: 0 <= k < i ==> a[k] == s[k]
    {
      a[i] := s[i];
      i := i + 1;
    }
  }

  /** Fades every pixel of cur from the matching pixel of prev. */
  method CrossFadeInto(prev: array<Pixel>, cur: array<Pixel>, remaining: int)
    requires prev != cur && cur.Length <= prev.Length && 0 < remaining <= TransitionDuration
    modifies cur
    ensures cur[..] == CrossFaded(prev[..], old(cur[..]), remaining)
  {
    ghost var cur0 := cur[..];
    var i := 0;
    while i < cur.Length
      invariant 0 <= i <= cur.Length
      invariant forall k :: 0 <= k < i ==> cur[k] == FadePixel(prev[k], cur0[k], remaining)
      invariant forall k :: i <= k < cur.Length ==> cur[k] == cur0[k]
    {
      var p := FadeOne(prev[i], cur[i], remaining);
      cur[i] := p;
      i := i + 1;
    }
  }

  /** The loop body's arithmetic for one pixel. */
  method FadeOne(o: Pixel, n: Pixel, remaining: int) returns (p: Pixel)
    requires 0 < remaining <= TransitionDuration
    ensures p == FadePixel(o, n, remaining)
  {
    var r := FadeChannel(o.r, n.r, remaining);
    var g := FadeChannel(o.g, n.g, remaining);
    var b := FadeChannel(o.b, n.b, remaining);
    p := Opaque(r, g, b);
  }
}

/** The audio analyser: decodes a block of interleaved PCM into fixed-size
    waveforms, derives a normalised spectrum, and runs one beat detector per
    frequency band (bass, mid, high). */
module Audio {
  import opened Pixels

  /** Waveform length, spectrum length and beat-history length. */
  const WaveformSize: nat := 576
  const SpectrumSize: nat := 256
  const HistorySize: nat := 10
  /** A band fires when its energy exceeds this multiple of its recent average. */
  const Threshold: real := 1.5
  /** Frames a band stays silent after firing (the firing frame included). */
  const CooldownFrames: int := 6
  /** The per-frame decay of a band's beat envelope. */
  const EnvelopeDecay: real := 0.92
  /** Samples fed to the FFT, which yields FftSize / 2 bins. */
  const FftSize: nat := 512

  type Byte = x: int | 0 <= x < 256

  /** The FFT's output: one magnitude per bin. */
  type Spectrum = s: seq<real> | |s| == SpectrumSize witness seq(256, _ => 0.0)

  datatype SampleFormat = Unknown | UInt8 | Int16 | Int32 | Float

  datatype AudioFormat = AudioFormat(sampleFormat: SampleFormat, channelCount: int)

  /** Bytes per sample of each format (zero for an unknown format). */
  function BytesPerSample(f: SampleFormat): nat
  {
    match f
    case Unknown => 0
    case UInt8 => 1
    case Int16 => 2
    case Int32 => 4
    case Float => 4
  }

  /** Bytes per interleaved frame: one sample per channel. */
  function BytesPerFrame(fmt: AudioFormat): int
  {
    BytesPerSample(fmt.sampleFormat) * fmt.channelCount
  }

  /** The unsigned little-endian value of the n bytes at offset off. */
  function LittleEndian(data: seq<Byte>, off: nat, n: nat): (v: nat)
    requires off + n <= |data|
    decreases n
  {
    if n == 0 then 0 else data[off] + 256 * LittleEndian(data, off + 1, n - 1)
  }

  lemma {:induction false} LittleEndianBound(data: seq<Byte>, off: nat, n: nat, p: nat)
    requires off + n <= |data|
    requires p == Pow256(n)
    ensures LittleEndian(data, off, n) < p
    decreases n
  {
    if n > 0 {
      LittleEndianBound(data, off + 1, n - 1, Pow256(n - 1));
    }
  }

  function Pow256(n: nat): (p: nat)
    ensures p >= 1
  {
    if n == 0 then 1 else 256 * Pow256(n - 1)
  }

  /** Two's-complement reading of an unsigned value of the given bit width. */
  function Signed(u: int, half: int): int
  {
    if u >= half then u - 2 * half else u
  }

  /** One sample decoded to a nominal [-1, 1] range. A Float sample's bit
      pattern is turned into a value by asFloat. */
  function ReadSample(data: seq<Byte>, off: nat, f: SampleFormat, asFloat: Word -> real): real
    requires off + BytesPerSample(f) <= |data|
  {
    match f
    case Int16 => Signed(LittleEndian(data, off, 2), 0x8000) as real / 32768.0
    case Int32 => Signed(LittleEndian(data, off, 4), 0x8000_0000) as real / 2147483648.0
    case Float =>
      LittleEndianBound(data, off, 4, Pow256(4));
      asFloat(LittleEndian(data, off, 4))
    case UInt8 => (data[off] as real - 128.0) / 128.0
    case Unknown => 0.0
  }

  /** The integer formats decode into [-1, 1); an 8-bit sample is centred on 128. */
  lemma ReadSampleRange(data: seq<Byte>, off: nat, f: SampleFormat, asFloat: Word -> real)
    requires off + BytesPerSample(f) <= |data|
    requires f != Float
    ensures -1.0 <= ReadSample(data, off, f, asFloat) < 1.0
    ensures f == UInt8 ==> ReadSample(data, off, f, asFloat) == (data[off] as int - 128) as real / 128.0
    ensures f == Unknown ==> ReadSample(data, off, f, asFloat) == 0.0
  {
    match f
    case Int16 =>
      LittleEndianBound(data, off, 2, Pow256(2));
    case Int32 =>
      LittleEndianBound(data, off, 4, Pow256(4));
    case UInt8 =>
    case Unknown =>
  }

  /** A Float sample is passed through unchanged. */
  lemma ReadSampleFloat(data: seq<Byte>, off: nat, asFloat: Word -> real)
    requires off + 4 <= |data|
    ensures LittleEndian(data, off, 4) < 0x1_0000_0000
    ensures ReadSample(data, off, Float, asFloat) == asFloat(LittleEndian(data, off, 4))
  {
    LittleEndianBound(data, off, 4, Pow256(4));
  }

  /** A block is processed only if its format is known, has at least one
      channel and one byte per sample and per frame, and holds a whole frame. */
  predicate Accepts(fmt: AudioFormat, size: nat)
  {
    fmt.sampleFormat != Unknown && fmt.channelCount >= 1
    && BytesPerSample(fmt.sampleFormat) >= 1 && BytesPerFrame(fmt) >= 1
    && size / BytesPerFrame(fmt) >= 1
  }

  /** The number of frames decoded: every whole frame, at most WaveformSize. */
  function FrameCount(fmt: AudioFormat, size: nat): (n: nat)
    requires Accepts(fmt, size)
    ensures 1 <= n <= WaveformSize
    ensures n * BytesPerFrame(fmt) <= size
  {
    var total := size / BytesPerFrame(fmt);
    var n := Min(total, WaveformSize);
    MulMono(n, total, BytesPerFrame(fmt));
    n
  }

  /** Frame i lies inside the block, right channel included. */
  lemma FrameInside(fmt: AudioFormat, size: nat, i: nat)
    requires Accepts(fmt, size) && i < FrameCount(fmt, size)
    ensures i * BytesPerFrame(fmt) + BytesPerFrame(fmt) <= size
    ensures fmt.channelCount >= 2 ==>
      i * BytesPerFrame(fmt) + 2 * BytesPerSample(fmt.sampleFormat) <= size
  {
    var bpf := BytesPerFrame(fmt);
    MulMono(i + 1, FrameCount(fmt, size), bpf);
    if fmt.channelCount >= 2 {
      MulMono(2, fmt.channelCount, BytesPerSample(fmt.sampleFormat));
    }
  }

  /** The left (first) sample of frame i. */
  function LeftSample(data: seq<Byte>, fmt: AudioFormat, asFloat: Word -> real, i: nat): real
    requires Accepts(fmt, |data|) && i < FrameCount(fmt, |data|)
  {
    FrameInside(fmt, |data|, i);
    ReadSample(data, i * BytesPerFrame(fmt), fmt.sampleFormat, asFloat)
  }

  /** The right sample of frame i: the second channel, or the left one again
      for a mono stream. */
  function RightSample(data: seq<Byte>, fmt: AudioFormat, asFloat: Word -> real, i: nat): real
    requires Accepts(fmt, |data|) && i < FrameCount(fmt, |data|)
  {
    FrameInside(fmt, |data|, i);
    if fmt.channelCount >= 2 then
      ReadSample(data, i * BytesPerFrame(fmt) + BytesPerSample(fmt.sampleFormat), fmt.sampleFormat, asFloat)
    else
      LeftSample(data, fmt, asFloat, i)
  }

  /** The average of the two sides. */
  function MonoSample(data: seq<Byte>, fmt: AudioFormat, asFloat: Word -> real, i: nat): real
    requires Accepts(fmt, |data|) && i < FrameCount(fmt, |data|)
  {
    (LeftSample(data, fmt, asFloat, i) + RightSample(data, fmt, asFloat, i)) * 0.5
  }

  /** The FFT input: the first FftSize mono samples, zero-padded. */
  function FftInput(mono: seq<real>, frames: nat): (s: seq<real>)
    requires frames <= |mono|
    ensures |s| == FftSize
    ensures forall i :: 0 <= i < FftSize ==> s[i] == (if i < frames then mono[i] else 0.0)
  {
    seq(FftSize, i requires 0 <= i < FftSize => if i < frames then mono[i] else 0.0)
  }

  /** std::clamp(v, 0, 1) on reals. */
  function ClampUnit(v: real): (r: real)
    ensures 0.0 <= r <= 1.0
    ensures 0.0 <= v <= 1.0 ==> r == v
  {
    if v < 0.0 then 0.0 else if 1.0 < v then 1.0 else v
  }

  /** The displayed spectrum: each FFT bin scaled by 5 and clamped into [0, 1]. */
  /** Every value lies in [0, 1]. */
  predicate InUnit(s: seq<real>)
  {
    forall k :: 0 <= k < |s| ==> 0.0 <= s[k] <= 1.0
  }

  function Normalize(raw: Spectrum): (s: seq<real>)
    ensures |s| == SpectrumSize
    ensures forall i :: 0 <= i < SpectrumSize ==> 0.0 <= s[i] <= 1.0 && s[i] == ClampUnit(raw[i] * 5.0)
  {
    seq(SpectrumSize, i requires 0 <= i < SpectrumSize => ClampUnit(raw[i] * 5.0))
  }

  /** The sum of a sequence, added front to back. */
  function Sum(s: seq<real>): real
  {
    if |s| == 0 then 0.0 else Sum(s[..|s| - 1]) + s[|s| - 1]
  }

  /** Values in [0, 1] add up to at most their count. */
  lemma {:induction false} SumUnit(s: seq<real>)
    requires forall i :: 0 <= i < |s| ==> 0.0 <= s[i] <= 1.0
    ensures 0.0 <= Sum(s) <= |s| as real
  {
    if |s| > 0 {
      SumUnit(s[..|s| - 1]);
    }
  }

  /** All-zero values add up to zero. */
  lemma {:induction false} SumZero(s: seq<real>)
    requires forall i :: 0 <= i < |s| ==> s[i] == 0.0
    ensures Sum(s) == 0.0
  {
    if |s| > 0 {
      SumZero(s[..|s| - 1]);
    }
  }

  /** The mean spectrum value over bins lo..hi-1. */
  function BandEnergy(spectrum: seq<real>, lo: nat, hi: nat): real
    requires lo < hi <= |spectrum|
  {
    Sum(spectrum[lo..hi]) / (hi - lo) as real
  }

  /** Over a normalised spectrum every band energy lies in [0, 1]. */
  lemma BandEnergyUnit(spectrum: seq<real>, lo: nat, hi: nat)
    requires lo < hi <= |spectrum|
    requires forall i :: 0 <= i < |spectrum| ==> 0.0 <= spectrum[i] <= 1.0
    ensures 0.0 <= BandEnergy(spectrum, lo, hi) <= 1.0
  {
    var slice := spectrum[lo..hi];
    assert forall i :: 0 <= i < |slice| ==> 0.0 <= slice[i] <= 1.0;
    SumUnit(slice);
    UnitQuotient(Sum(slice), (hi - lo) as real);
  }

  /** A value between zero and a positive n, divided by n, lies in [0, 1]. */
  lemma UnitQuotient(a: real, n: real)
    requires 0.0 <= a <= n && n > 0.0
    ensures 0.0 <= a / n <= 1.0
  {
    assert a / n * n == a;
  }

  /** The bass, mid and high bands: bins 0-7, 8-63 and 64-255. */
  function BassEnergy(spectrum: seq<real>): real requires |spectrum| == SpectrumSize { BandEnergy(spectrum, 0, 8) }
  function MidEnergy(spectrum: seq<real>): real requires |spectrum| == SpectrumSize { BandEnergy(spectrum, 8, 64) }
  function HighEnergy(spectrum: seq<real>): real requires |spectrum| == SpectrumSize { BandEnergy(spectrum, 64, 256) }

  /** Noise floors: a band's average must exceed this to fire. */
  const BassFloor: real := 0.01
  const MidFloor: real := 0.01
  const HighFloor: real := 0.005

  /** The state of one band's beat detector. */
  datatype BandState = BandState(history: seq<real>, pos: int, cooldown: int, envelope: real)

  /** The invariant each detector keeps. */
  predicate BandInv(s: BandState)
  {
    |s.history| == HistorySize && 0 <= s.pos < HistorySize
    && 0 <= s.cooldown <= CooldownFrames && 0.0 <= s.envelope <= 1.0
  }

  /** The mean of the history window. */
  function Average(history: seq<real>): real
  {
    Sum(history) / HistorySize as real
  }

  /** The outcome of one detector update: the new state and whether it fired. */
  datatype BandOutcome = BandOutcome(next: BandState, fired: bool)

  /** One detector update with this frame's energy: average the window, then
      overwrite the oldest slot, count the cooldown down, and fire on a
      strict threshold crossing above the noise floor. */
  function BandStep(s: BandState, energy: real, floor: real): (o: BandOutcome)
    requires |s.history| == HistorySize && 0 <= s.pos < HistorySize
    ensures |o.next.history| == HistorySize
  {
    var avg := Average(s.history);
    var cd := if s.cooldown > 0 then s.cooldown - 1 else s.cooldown;
    var fired := energy > avg * Threshold && cd == 0 && avg > floor;
    BandOutcome(
      BandState(s.history[s.pos := energy], (s.pos + 1) % HistorySize,
                if fired then CooldownFrames else cd,
                (if fired then 1.0 else s.envelope) * EnvelopeDecay),
      fired)
  }

  /** The detector invariant is preserved: the write position advances
      cyclically, only the slot it pointed at is overwritten, and the
      envelope stays in [0, 1]. */
  lemma BandStepInv(s: BandState, energy: real, floor: real)
    requires BandInv(s)
    ensures BandInv(BandStep(s, energy, floor).next)
    ensures BandStep(s, energy, floor).next.pos == (s.pos + 1) % HistorySize
    ensures BandStep(s, energy, floor).next.history[s.pos] == energy
    ensures forall k :: 0 <= k < HistorySize && k != s.pos ==>
      BandStep(s, energy, floor).next.history[k] == s.history[k]
    ensures BandStep(s, energy, floor).next.envelope <= EnvelopeDecay
  {
  }

  /** The firing rule: strictly above Threshold times the pre-write average,
      cooldown expiring on this frame or already zero, and average above the floor. */
  lemma BandFiresIff(s: BandState, energy: real, floor: real)
    requires BandInv(s)
    ensures BandStep(s, energy, floor).fired <==>
      energy > Average(s.history) * Threshold && s.cooldown <= 1 && Average(s.history) > floor
  {
  }

  /** Firing restarts the cooldown at 6 and leaves the envelope at 0.92. */
  lemma BandFireResets(s: BandState, energy: real, floor: real)
    requires BandInv(s) && BandStep(s, energy, floor).fired
    ensures BandStep(s, energy, floor).next.cooldown == CooldownFrames
    ensures BandStep(s, energy, floor).next.envelope == EnvelopeDecay
  {
  }

  /** An energy exactly at the threshold does not fire. */
  lemma BandThresholdStrict(s: BandState, floor: real)
    requires BandInv(s)
    ensures !BandStep(s, Average(s.history) * Threshold, floor).fired
  {
  }

  /** A band whose history is all zero (as on the very first frame) cannot fire. */
  lemma BandZeroHistoryQuiet(s: BandState, energy: real, floor: real)
    requires BandInv(s) && floor >= 0.0
    requires forall k :: 0 <= k < HistorySize ==> s.history[k] == 0.0
    ensures !BandStep(s, energy, floor).fired
  {
    SumZero(s.history);
  }

  /** The detector run over a sequence of frame energies; returns the firings. */
  function BandRun(s: BandState, energies: seq<real>, floor: real): (fires: seq<bool>)
    requires BandInv(s)
    ensures |fires| == |energies|
    decreases |energies|
  {
    if |energies| == 0 then []
    else
      BandStepInv(s, energies[0], floor);
      var o := BandStep(s, energies[0], floor);
      [o.fired] + BandRun(o.next, energies[1..], floor)
  }

  /** With c frames of cooldown left, the next c - 1 frames cannot fire. */
  lemma {:induction false} CooldownQuiet(s: BandState, energies: seq<real>, floor: real)
    requires BandInv(s)
    requires |energies| < s.cooldown
    ensures forall k :: 0 <= k < |energies| ==> !BandRun(s, energies, floor)[k]
    decreases |energies|
  {
    if |energies| > 0 {
      BandStepInv(s, energies[0], floor);
      var o := BandStep(s, energies[0], floor);
      CooldownQuiet(o.next, energies[1..], floor);
    }
  }

  /** After a band fires it stays silent for the next five frames, whatever their energies. */
  lemma QuietAfterFire(s: BandState, energy: real, later: seq<real>, floor: real)
    requires BandInv(s) && BandStep(s, energy, floor).fired
    requires |later| <= CooldownFrames - 1
    ensures forall k :: 0 <= k < |later| ==> !BandRun(BandStep(s, energy, floor).next, later, floor)[k]
  {
    BandStepInv(s, energy, floor);
    CooldownQuiet(BandStep(s, energy, floor).next, later, floor);
  }

  /** The sum of a[lo..hi], accumulated in a loop. */
  method SumRange(a: array<real>, lo: nat, hi: nat) returns (total: real)
    requires lo <= hi <= a.Length
    ensures total == Sum(a[lo..hi])
  {
    total := 0.0;
    var i := lo;
    while i < hi
      invariant lo <= i <= hi
      invariant total == Sum(a[lo..i])
    {
      assert a[lo..i + 1][..i - lo] == a[lo..i];
      total := total + a[i];
      i := i + 1;
    }
  }

  /** Averages bins lo..hi-1 of the spectrum and feeds the result to band. */
  method RunBand(band: BeatBand, spectrum: array<real>, lo: nat, hi: nat) returns (fired: bool)
    requires band.Valid() && band.history != spectrum && lo < hi <= spectrum.Length
    modifies band, band.history
    ensures band.Valid()
    ensures BandOutcome(band.State(), fired) == BandStep(old(band.State()), BandEnergy(spectrum[..], lo, hi), band.floor)
  {
    var total := SumRange(spectrum, lo, hi);
    assert spectrum[..][lo..hi] == spectrum[lo..hi];
    fired := band.Update(total / (hi - lo) as real);
  }

  /** A fresh array of n zeros. */
  method Zeros(n: nat) returns (a: array<real>)
    ensures fresh(a) && a[..] == seq(n, _ => 0.0)
  {
    a := new real[n](_ => 0.0);
  }

  /** One band's beat detector: a ring of recent energies, a cooldown
      counter and a decaying envelope. */
  class BeatBand {
    const history: array<real>
    var pos: int
    var cooldown: int
    var envelope: real
    const floor: real

    function State(): BandState
      reads this, history
    {
      BandState(history[..], pos, cooldown, envelope)
    }

    ghost predicate Valid()
      reads this, history
    {
      BandInv(State())
    }

    /** A quiet detector: zero history, position, cooldown and envelope. */
    constructor (floor: real)
      ensures Valid() && fresh(history) && this.floor == floor
      ensures State() == BandState(seq(HistorySize, _ => 0.0), 0, 0, 0.0)
    {
      history := new real[HistorySize](_ => 0.0);
      pos, cooldown, envelope := 0, 0, 0.0;
      this.floor := floor;
    }

    /** Feeds one frame's energy; reports whether the band fired. */
    method Update(energy: real) returns (fired: bool)
      requires Valid()
      modifies this, history
      ensures Valid()
      ensures BandOutcome(State(), fired) == BandStep(old(State()), energy, floor)
    {
      var avg := SumRange(history, 0, HistorySize);
      assert history[0..HistorySize] == history[..];
      avg := avg / HistorySize as real;
      history[pos] := energy;
      pos := (pos + 1) % HistorySize;
      if cooldown > 0 {
        cooldown := cooldown - 1;
      }
      if energy > avg * Threshold && cooldown == 0 && avg > floor {
        fired := true;
        cooldown := CooldownFrames;
        envelope := 1.0;
      } else {
        fired := false;
      }
      envelope := envelope * EnvelopeDecay;
      BandStepInv(old(State()), energy, floor);
    }
  }

  /** The analyser's public results and its three band detectors. */
  class AudioData {
    const waveformLeft: array<real>
    const waveformRight: array<real>
    const waveformMono: array<real>
    const spectrumMono: array<real>
    var isBeat: bool
    var beatDecay: real
    var isBeatBass: bool
    var isBeatMid: bool
    var isBeatHigh: bool
    var beatDecayBass: real
    var beatDecayMid: real
    var beatDecayHigh: real
    const bass: BeatBand
    const mid: BeatBand
    const high: BeatBand

    /** h is none of the four result arrays. */
    ghost predicate Outside(h: array<real>)
    {
      h != waveformLeft && h != waveformRight && h != waveformMono && h != spectrumMono
    }

    /** The fixed layout: array sizes, floors, and no two arrays shared. It
        mentions only constant fields, so no update can break it. */
    ghost predicate Layout()
    {
      waveformLeft.Length == WaveformSize && waveformRight.Length == WaveformSize
      && waveformMono.Length == WaveformSize && spectrumMono.Length == SpectrumSize
      && waveformLeft != waveformRight && waveformLeft != waveformMono && waveformRight != waveformMono
      && spectrumMono != waveformLeft && spectrumMono != waveformRight && spectrumMono != waveformMono
      && Outside(bass.history) && Outside(mid.history) && Outside(high.history)
      && bass.floor == BassFloor && mid.floor == MidFloor && high.floor == HighFloor
      && bass != mid && mid != high && bass != high
      && bass.history != mid.history && mid.history != high.history && bass.history != high.history
    }

    ghost predicate Valid()
      reads this, bass, bass.history, mid, mid.history, high, high.history
    {
      Layout() && bass.Valid() && mid.Valid() && high.Valid()
    }

    /** Every spectrum bin lies in [0, 1], as Normalize leaves it. */
    ghost predicate SpectrumInUnit()
      reads spectrumMono
    {
      InUnit(spectrumMono[..])
    }

    /** The four beat envelopes lie in [0, 1], as the detectors keep them. */
    ghost predicate DecaysInUnit()
      reads this
    {
      0.0 <= beatDecay <= 1.0 && 0.0 <= beatDecayBass <= 1.0
      && 0.0 <= beatDecayMid <= 1.0 && 0.0 <= beatDecayHigh <= 1.0
    }

    /** Silence: zero waveforms and spectrum, no beat, quiet detectors. */
    constructor ()
      ensures Valid()
      ensures fresh(waveformLeft) && fresh(waveformRight) && fresh(waveformMono) && fresh(spectrumMono)
      ensures fresh(bass) && fresh(bass.history) && fresh(mid) && fresh(mid.history)
      ensures fresh(high) && fresh(high.history)
      ensures waveformLeft[..] == waveformRight[..] == waveformMono[..] == seq(WaveformSize, _ => 0.0)
      ensures spectrumMono[..] == seq(SpectrumSize, _ => 0.0) && SpectrumInUnit()
      ensures !isBeat && !isBeatBass && !isBeatMid && !isBeatHigh
      ensures beatDecay == beatDecayBass == beatDecayMid == beatDecayHigh == 0.0 && DecaysInUnit()
    {
      var left := Zeros(WaveformSize);
      var right := Zeros(WaveformSize);
      var mono := Zeros(WaveformSize);
      var spectrum := Zeros(SpectrumSize);
      waveformLeft, waveformRight, waveformMono, spectrumMono := left, right, mono, spectrum;
      isBeat, beatDecay := false, 0.0;
      isBeatBass, isBeatMid, isBeatHigh := false, false, false;
      beatDecayBass, beatDecayMid, beatDecayHigh := 0.0, 0.0, 0.0;
      bass := new BeatBand(BassFloor);
      mid := new BeatBand(MidFloor);
      high := new BeatBand(HighFloor);
    }

    /** The first n waveform slots hold decoded frames and the rest are zero. */
    ghost predicate WaveformsHold(data: seq<Byte>, fmt: AudioFormat, asFloat: Word -> real)
      requires Accepts(fmt, |data|)
      requires waveformLeft.Length == waveformRight.Length == waveformMono.Length == WaveformSize
      reads waveformLeft, waveformRight, waveformMono
    {
      var n := FrameCount(fmt, |data|);
      (forall i :: 0 <= i < n ==>
        waveformLeft[i] == LeftSample(data, fmt, asFloat, i)
        && waveformRight[i] == RightSample(data, fmt, asFloat, i)
        && waveformMono[i] == MonoSample(data, fmt, asFloat, i))
      && (forall i :: n <= i < WaveformSize ==>
        waveformLeft[i] == 0.0 && waveformRight[i] == 0.0 && waveformMono[i] == 0.0)
    }

    /** Each detector has moved one step on its band's energy; the public
        flags and envelopes report the outcome, isBeat and beatDecay mirroring the bass band. */
    ghost predicate BandsStepped(oldBass: BandState, oldMid: BandState, oldHigh: BandState, spectrum: seq<real>)
      requires |oldBass.history| == |oldMid.history| == |oldHigh.history| == HistorySize
      requires 0 <= oldBass.pos < HistorySize && 0 <= oldMid.pos < HistorySize && 0 <= oldHigh.pos < HistorySize
      requires |spectrum| == SpectrumSize
      reads this, bass, bass.history, mid, mid.history, high, high.history
    {
      BandOutcome(bass.State(), isBeatBass) == BandStep(oldBass, BassEnergy(spectrum), BassFloor)
      && BandOutcome(mid.State(), isBeatMid) == BandStep(oldMid, MidEnergy(spectrum), MidFloor)
      && BandOutcome(high.State(), isBeatHigh) == BandStep(oldHigh, HighEnergy(spectrum), HighFloor)
      && isBeat == isBeatBass && beatDecay == beatDecayBass == bass.envelope
      && beatDecayMid == mid.envelope && beatDecayHigh == high.envelope
    }

    /** Decodes one PCM block. A rejected block changes nothing. Otherwise the
        first FrameCount frames fill the waveforms and the rest are zero, the
        spectrum is recomputed through fft, and each band detector is updated
        with its band's energy. */
    method ProcessFromPcm(data: seq<Byte>, fmt: AudioFormat, asFloat: Word -> real, fft: seq<real> -> Spectrum)
      requires Valid()
      modifies this, waveformLeft, waveformRight, waveformMono, spectrumMono
      modifies bass, bass.history, mid, mid.history, high, high.history
      ensures Valid()
      ensures old(DecaysInUnit()) ==> DecaysInUnit()
      ensures !Accepts(fmt, |data|) ==>
        unchanged(this, waveformLeft, waveformRight, waveformMono, spectrumMono)
        && unchanged(bass, bass.history, mid, mid.history, high, high.history)
      ensures Accepts(fmt, |data|) ==>
        WaveformsHold(data, fmt, asFloat)
        && spectrumMono[..] == Normalize(fft(FftInput(waveformMono[..], Min(FrameCount(fmt, |data|), FftSize))))
        && BandsStepped(old(bass.State()), old(mid.State()), old(high.State()), spectrumMono[..])
        && SpectrumInUnit()
    {
      if fmt.sampleFormat == Unknown { return; }
      if fmt.channelCount < 1 { return; }
      var bytesPerSample := BytesPerSample(fmt.sampleFormat);
      if bytesPerSample < 1 { return; }
      var bytesPerFrame := BytesPerFrame(fmt);
      if bytesPerFrame < 1 { return; }
      var totalFrames := |data| / bytesPerFrame;
      if totalFrames < 1 { return; }

      var frames := FrameCount(fmt, |data|);
      FillWaveforms(data, fmt, asFloat);
      var raw := fft(FftInput(waveformMono[..], Min(frames, FftSize)));
      FillSpectrum(raw);
      UpdateBands();
    }

    /** Decodes the frames into the three waveforms, then zero-pads them. */
    method FillWaveforms(data: seq<Byte>, fmt: AudioFormat, asFloat: Word -> real)
      requires Valid() && Accepts(fmt, |data|)
      modifies waveformLeft, waveformRight, waveformMono
      ensures WaveformsHold(data, fmt, asFloat)
    {
      var frames := FrameCount(fmt, |data|);
      var i := 0;
      while i < frames
        invariant 0 <= i <= frames
        invariant forall k :: 0 <= k < i ==>
          waveformLeft[k] == LeftSample(data, fmt, asFloat, k)
          && waveformRight[k] == RightSample(data, fmt, asFloat, k)
          && waveformMono[k] == MonoSample(data, fmt, asFloat, k)
      {
        var left := LeftSample(data, fmt, asFloat, i);
        var right := RightSample(data, fmt, asFloat, i);
        waveformLeft[i] := left;
        waveformRight[i] := right;
        waveformMono[i] := (left + right) * 0.5;
        i := i + 1;
      }
      while i < WaveformSize
        invariant frames <= i <= WaveformSize
        invariant forall k :: 0 <= k < frames ==>
          waveformLeft[k] == LeftSample(data, fmt, asFloat, k)
          && waveformRight[k] == RightSample(data, fmt, asFloat, k)
          && waveformMono[k] == MonoSample(data, fmt, asFloat, k)
        invariant forall k :: frames <= k < i ==>
          waveformLeft[k] == 0.0 && waveformRight[k] == 0.0 && waveformMono[k] == 0.0
      {
        waveformLeft[i] := 0.0;
        waveformRight[i] := 0.0;
        waveformMono[i] := 0.0;
        i := i + 1;
      }
    }

    /** Stores the normalised FFT output. */
    method FillSpectrum(raw: Spectrum)
      requires Valid()
      modifies spectrumMono
      ensures spectrumMono[..] == Normalize(raw)
    {
      var i := 0;
      while i < SpectrumSize
        invariant 0 <= i <= SpectrumSize
        invariant forall k :: 0 <= k < i ==> spectrumMono[k] == ClampUnit(raw[k] * 5.0)
      {
        spectrumMono[i] := ClampUnit(raw[i] * 5.0);
        i := i + 1;
      }
    }

    /** Runs the three band detectors on the current spectrum and publishes the results. */
    method UpdateBands()
      requires Valid()
      modifies this, bass, bass.history, mid, mid.history, high, high.history
      ensures Valid() && DecaysInUnit()
      ensures BandsStepped(old(bass.State()), old(mid.State()), old(high.State()), spectrumMono[..])
    {
      ghost var ob, om, oh, sp := bass.State(), mid.State(), high.State(), spectrumMono[..];
      var bassFired, midFired, highFired := StepBands();
      assert BandOutcome(bass.State(), bassFired) == BandStep(ob, BassEnergy(sp), BassFloor);
      assert BandOutcome(mid.State(), midFired) == BandStep(om, MidEnergy(sp), MidFloor);
      assert BandOutcome(high.State(), highFired) == BandStep(oh, HighEnergy(sp), HighFloor);
      Publish(bassFired, midFired, highFired);
    }

    /** Copies the detectors' outcomes and envelopes into the public fields. */
    method Publish(bassFired: bool, midFired: bool, highFired: bool)
      requires Valid()
      modifies this
      ensures Valid() && DecaysInUnit()
      ensures isBeatBass == isBeat == bassFired && isBeatMid == midFired && isBeatHigh == highFired
      ensures beatDecay == beatDecayBass == bass.envelope
      ensures beatDecayMid == mid.envelope && beatDecayHigh == high.envelope
    {
      isBeatBass, isBeat, beatDecay, beatDecayBass := bassFired, bassFired, bass.envelope, bass.envelope;
      isBeatMid, beatDecayMid, isBeatHigh, beatDecayHigh := midFired, mid.envelope, highFired, high.envelope;
    }

    /** Feeds each detector its band's energy, bass first. */
    method StepBands() returns (bassFired: bool, midFired: bool, highFired: bool)
      requires Valid()
      modifies bass, bass.history, mid, mid.history, high, high.history
      ensures bass.Valid() && mid.Valid() && high.Valid()
      ensures BandOutcome(bass.State(), bassFired) == BandStep(old(bass.State()), BassEnergy(spectrumMono[..]), BassFloor)
      ensures BandOutcome(mid.State(), midFired) == BandStep(old(mid.State()), MidEnergy(spectrumMono[..]), MidFloor)
      ensures BandOutcome(high.State(), highFired) == BandStep(old(high.State()), HighEnergy(spectrumMono[..]), HighFloor)
    {
      bassFired := RunBand(bass, spectrumMono, 0, 8);
      ghost var bassNext := bass.State();
      midFired := RunBand(mid, spectrumMono, 8, 64);
      ghost var midNext := mid.State();
      assert bass.State() == bassNext;
      highFired := RunBand(high, spectrumMono, 64, 256);
      assert bass.State() == bassNext && mid.State() == midNext;
    }
  }

  /** With one channel the right waveform repeats the left one. */
  lemma MonoStreamDuplicates(data: seq<Byte>, fmt: AudioFormat, asFloat: Word -> real, i: nat)
    requires Accepts(fmt, |data|) && i < FrameCount(fmt, |data|) && fmt.channelCount == 1
    ensures RightSample(data, fmt, asFloat, i) == LeftSample(data, fmt, asFloat, i)
    ensures MonoSample(data, fmt, asFloat, i) == LeftSample(data, fmt, asFloat, i)
  {
  }

  /** The decoded frame count is the number of whole frames, capped at the waveform size. */
  lemma FrameCountIsCapped(fmt: AudioFormat, size: nat)
    requires Accepts(fmt, size)
    ensures size / BytesPerFrame(fmt) <= WaveformSize ==> FrameCount(fmt, size) * BytesPerFrame(fmt) + BytesPerFrame(fmt) > size
    ensures size / BytesPerFrame(fmt) >= WaveformSize ==> FrameCount(fmt, size) == WaveformSize
  {
  }

  /** A block is rejected exactly when the format is unknown, there is no
      channel, or it holds less than one whole frame. */
  lemma AcceptsIff(fmt: AudioFormat, size: nat)
    ensures Accepts(fmt, size) <==>
      fmt.sampleFormat != Unknown && fmt.channelCount >= 1 && size >= BytesPerFrame(fmt)
  {
    if fmt.sampleFormat != Unknown && fmt.channelCount >= 1 {
      var bpf := BytesPerFrame(fmt);
      MulMono(1, fmt.channelCount, BytesPerSample(fmt.sampleFormat));
      assert bpf >= 1;
      DivAtLeastOne(size, bpf);
    }
  }

  /** A whole quotient of at least one means the divisor fits at least once. */
  lemma DivAtLeastOne(a: nat, b: int)
    requires b >= 1
    ensures a / b >= 1 <==> a >= b
  {
    var q, r := a / b, a % b;
    assert a == q * b + r && 0 <= r < b;
    if q >= 1 {
      MulMono(1, q, b);
    } else {
      MulMono(q, 0, b);
    }
  }
}

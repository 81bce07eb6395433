# linamp2 AVS engine — a Dafny model

This project models the audio-visualisation ("AVS") engine of linamp2.
That engine renders 320×100 frames of 32-bit ARGB pixels from a chain of
effects. An audio analyser feeds it waveforms, a spectrum and beat flags.
The model covers these parts:

- **Framebuffers** (`framebuffer.dfy`): the pixel buffer as a class over an
  `array<Pixel>`, with `Clear`, the size-guarded `CopyFrom` and the pixel count.
- **Pixels** (`pixels.dfy`): an ARGB pixel as four byte channels, packing to and
  from the 32-bit word, C truncation and division, and row-major indexing.
- **Plotting** (`plotting.dfy`): the bounds-checked single-pixel write that the
  scope, ring and clock rasterisers use, and what a run of such writes paints.
- **Regions** (`regions.dfy`): channel sums over rectangles, as Mosaic and Blur
  accumulate them, and bounds on their floored averages.
- **Xorshift** (`xorshift.dfy`): the 32-bit xorshift generator shared by Grain,
  On Beat Clear and Water.
- **Audio** (`audiodata.dfy`): `processFromPcm`. This covers the format guard,
  sample decoding, the waveform fill and zero-padding, the spectrum clamp, and
  the three band beat detectors (10-slot history ring, 6-frame cooldown,
  strict 1.5× threshold, noise floor, 0.92 envelope).
- **One module per effect**: Fade Out, Clear Screen, Mirror, Mosaic, Blur,
  Color Modifier, Grain, On Beat Clear, SuperScope (Bresenham lines), Ring
  (midpoint circles), Clock (5×7 bitmap font), Movement (displacement-table
  gather), Buffer Blend (echo accumulator) and Water (splash, wave
  propagation, clamped gather).
- **Engine** (`engine.dfy`): the preset catalogue as data, next/previous
  navigation, `loadPreset`, and `renderFrame`. `renderFrame` runs the enabled
  effects in list order and then applies the 30-frame cross-fade.

Each effect is a class with its settings and state as fields. Its `Render`
method changes the framebuffer in place, and its `ensures` ties the new pixels
to a specification function of the old pixels (`Faded`, `Mirrored`, `Mosaicked`,
`Blurred`, `Moved`, `Displaced`, `Blended`, `PaintStrokes`, `Rings`, and so on).
Lemmas then prove what the source promises about those functions. Examples are
idempotence, alpha preservation, which pixels may change, value bounds, the
symmetry of mirrored images and of circles, and the shape of Bresenham lines.

Floating-point values are exact reals. The model does not include calls it
cannot see: the FFT, `sinf`/`cosf`/`atan2f`/`sqrtf`, the bit reading of a
32-bit float sample and the wall clock. These are parameters instead:
- the FFT is `fft`;
- the trigonometry is `Trig` or `Polar`;
- a float sample's bits are read by `asFloat`;
- the time is `hour`, `minute` and `msec`.

## Model

| member | source | states |
|---|---|---|
| Pixels.Pack | src/view-avs/effects/avsfadeout.cpp:28 | the packed word is a·2^24 + r·2^16 + g·2^8 + b, the value of `(a << 24) \| (r << 16) \| (g << 8) \| b` for non-overlapping bytes, and each channel is read back from its own byte |
| Pixels.Opaque | src/view-avs/effects/avsbufferblend.cpp:39 | the word of `0xFF000000 \| (r << 16) \| (g << 8) \| b` has 0xFF in its top byte and the colour in its low 24 bits |
| Pixels.ToWord | src/view-avs/effects/avsfadeout.cpp:19-22 | in the packed word, alpha is bits 24-31, red bits 16-23, green bits 8-15 and blue bits 0-7 |
| Pixels.FromToWord | src/view-avs/effects/avsfadeout.cpp:19-28 | unpacking a packed pixel gives back the pixel |
| Pixels.ToFromWord | src/view-avs/effects/avsfadeout.cpp:19-28 | packing an unpacked word gives back the word, so the channel view loses nothing |
| Pixels.Trunc | src/view-avs/effects/avsbufferblend.cpp:31-33 | `static_cast<int>` of a real is its floor when non-negative and its ceiling when negative |
| Pixels.TruncMono | src/view-avs/effects/avsring.cpp:65 | truncation of non-negative values preserves order |
| Pixels.CDiv | src/view-avs/effects/avsclock.cpp:92-93 | C++ `/` by a positive divisor rounds toward zero: the quotient has the dividend's sign and q·b lies within b of the dividend on the dividend's side of it |
| Pixels.CDivNegate | src/view-avs/effects/avsclock.cpp:92-93 | negating the dividend negates the quotient, which Euclidean or floored division does not do |
| Pixels.QuotientUnique | src/view-avs/effects/avsclock.cpp:92-93 | at most one quotient q satisfies q·b ≤ a < q·b + b, so those bounds determine C division of a non-negative dividend |
| Pixels.Clamp | src/view-avs/effects/avsgrain.cpp:43-45 | `std::clamp` lands in `[lo, hi]`, keeps values inside and sends values outside to the nearer end |
| Pixels.IdxInBounds | src/view-avs/effects/avsmosaic.cpp:33 | `y * w + x` of an in-bounds coordinate is an in-bounds index |
| Pixels.IdxInjective | src/view-avs/effects/avsmosaic.cpp:33 | distinct in-bounds coordinates have distinct row-major indices |
| Pixels.IdxSplit | src/view-avs/effects/avsmirror.cpp:19 | every buffer index is the row-major index of exactly the pixel `(i % w, i / w)` |
| Pixels.AtUpdate | src/view-avs/effects/avsmirror.cpp:21 | writing pixel (x, y) changes that pixel and no other |
| Framebuffers.Framebuffer.constructor | src/view-avs/avsframebuffer.cpp:4-7 | a new buffer has width×height pixels, all opaque black |
| Framebuffers.Framebuffer.PixelCount | src/view-avs/avsframebuffer.cpp:29-32 | the count is width×height and equals the length of the pixel store |
| Framebuffers.Framebuffer.Clear | src/view-avs/avsframebuffer.cpp:34-37 | every pixel becomes the colour, which defaults to opaque black |
| Framebuffers.Framebuffer.CopyFrom | src/view-avs/avsframebuffer.cpp:39-44 | with equal sizes the pixels become the other buffer's; otherwise nothing changes; a distinct source buffer is never written |
| Framebuffers.MapPixels | src/view-avs/effects/avscolormodifier.cpp:57-61 | a per-pixel loop replaces each pixel by a function of its old value alone |
| Plotting.Paint | src/view-avs/effects/avssuperscope.cpp:15-20 | the image with exactly the in-bounds listed points set to the colour and every other pixel kept |
| Plotting.PaintedIsPaint | src/view-avs/effects/avssuperscope.cpp:15-20 | a painted image is fully determined by the start image and the point list |
| Plotting.Plot | src/view-avs/effects/avssuperscope.cpp:15-20 | `setPixel` writes the pixel only when it is in bounds, and is otherwise a no-op |
| Plotting.PaintedThen | src/view-avs/effects/avssuperscope.cpp:31-44 | painting one point list and then another paints their concatenation |
| Plotting.PaintedNothing | src/view-avs/effects/avsring.cpp:14-15 | painting no points leaves the image unchanged |
| Regions.RowSumBounds | src/view-avs/effects/avsmosaic.cpp:32-37 | a row sum lies between its count times the least and the greatest channel value |
| Regions.RectSumBounds | src/view-avs/effects/avsmosaic.cpp:31-38 | a rectangle's channel sum lies between its area times the least and the greatest value |
| Regions.AverageBetween | src/view-avs/effects/avsmosaic.cpp:41-43 | the floored average of such a sum stays within the value range |
| Regions.RectAverageBounds | src/view-avs/effects/avsmosaic.cpp:30-43 | a block's floored channel average lies between the block's minimum and maximum |
| Regions.RectAverageChannel | src/view-avs/effects/avsmosaic.cpp:40-43 | every floored average fits a byte channel, so the packed result cannot overflow |
| Regions.RowSumFrame | src/view-avs/effects/avsblur.cpp:26-33 | a row sum depends only on the pixels in that row span |
| Regions.RectSumFrame | src/view-avs/effects/avsblur.cpp:26-33 | a rectangle's sum depends only on the pixels inside it |
| Regions.SumRect | src/view-avs/effects/avsmosaic.cpp:31-38 | the nested accumulation loops compute the rectangle's channel sum |
| Regions.FillRect | src/view-avs/effects/avsmosaic.cpp:46-50 | every pixel inside the rectangle becomes the colour and every pixel outside is kept |
| Xorshift.Kernel13 | src/view-avs/effects/avsgrain.cpp:14 | `x ^= x << 13` sends only zero to zero |
| Xorshift.Kernel17 | src/view-avs/effects/avsgrain.cpp:15 | `x ^= x >> 17` sends only zero to zero |
| Xorshift.Kernel5 | src/view-avs/effects/avsgrain.cpp:16 | `x ^= x << 5` sends only zero to zero |
| Xorshift.NextZero | src/view-avs/effects/avsgrain.cpp:12-18 | a generator step yields zero exactly when the state was zero |
| Xorshift.NonZeroForever | src/view-avs/effects/avsgrain.cpp:12-18 | from a non-zero seed the state is never zero, however many steps run |
| Xorshift.NextNAdd | src/view-avs/effects/avsgrain.cpp:33-41 | m steps and then n steps are m + n steps |
| Audio.ReadSampleRange | src/view-avs/avsaudiodata.cpp:25-46 | integer samples decode into [-1, 1); UInt8 decodes as (v - 128) / 128; an unknown format decodes as 0 |
| Audio.ReadSampleFloat | src/view-avs/avsaudiodata.cpp:36-38 | a Float sample is its four bytes read as a float, unchanged |
| Audio.AcceptsIff | src/view-avs/avsaudiodata.cpp:50-68 | a block is processed exactly when the format is known, there is at least one channel and at least one whole frame |
| Audio.FrameCount | src/view-avs/avsaudiodata.cpp:66-70 | between 1 and 576 frames are decoded, and all of them lie inside the data |
| Audio.FrameCountIsCapped | src/view-avs/avsaudiodata.cpp:66-70 | the frame count is the number of whole frames, capped at 576 |
| Audio.FrameInside | src/view-avs/avsaudiodata.cpp:75-79 | every decoded frame, its right-channel sample included, lies inside the data |
| Audio.MonoStreamDuplicates | src/view-avs/avsaudiodata.cpp:77-84 | with one channel, right equals left and mono equals left |
| Audio.FftInput | src/view-avs/avsaudiodata.cpp:96-101 | the FFT input is 512 values: the first mono samples, then zeros |
| Audio.ClampUnit | src/view-avs/avsaudiodata.cpp:109 | the clamped value lies in [0, 1] and values already in [0, 1] are kept |
| Audio.Normalize | src/view-avs/avsaudiodata.cpp:107-110 | each of the 256 bins is five times the raw bin, clamped into [0, 1] |
| Audio.BandEnergyUnit | src/view-avs/avsaudiodata.cpp:112-117 | on a normalised spectrum every band energy lies in [0, 1] |
| Audio.BandStepInv | src/view-avs/avsaudiodata.cpp:119-142 | the energy is written at the current position and no other slot changes; the position advances mod 10; the envelope ends at most 0.92 |
| Audio.BandFiresIff | src/view-avs/avsaudiodata.cpp:127-130 | a band fires exactly when energy > 1.5 × the prior average, the cooldown reaches 0 after its decrement, and the average exceeds the floor |
| Audio.BandFireResets | src/view-avs/avsaudiodata.cpp:130-142 | a firing sets the cooldown to 6 and leaves the envelope at exactly 0.92 |
| Audio.BandThresholdStrict | src/view-avs/avsaudiodata.cpp:130 | an energy exactly at the threshold does not fire |
| Audio.BandZeroHistoryQuiet | src/view-avs/avsaudiodata.cpp:119-130 | a band whose history is all zeros, as on the first call, cannot fire |
| Audio.CooldownQuiet | src/view-avs/avsaudiodata.cpp:127-130 | with c frames of cooldown left, the next c - 1 frames cannot fire |
| Audio.QuietAfterFire | src/view-avs/avsaudiodata.cpp:127-134 | after a firing the band stays silent for the next five frames, whatever their energies |
| Audio.SumRange | src/view-avs/avsaudiodata.cpp:115-116 | the accumulation loop computes the sum of the bins |
| Audio.RunBand | src/view-avs/avsaudiodata.cpp:112-142 | the band's state and fired flag are one detector step on the band's mean energy |
| Audio.Zeros | src/view-avs/avsaudiodata.cpp:15-21 | a fresh zero-filled array, as `memset` leaves the member arrays |
| Audio.BeatBand.constructor | src/view-avs/avsaudiodata.cpp:7-13 | a quiet detector: zero history, position, cooldown and envelope |
| Audio.BeatBand.Update | src/view-avs/avsaudiodata.cpp:119-142 | the in-place update of one detector performs exactly one detector step |
| Audio.AudioData.constructor | src/view-avs/avsaudiodata.cpp:7-22 | all waveforms and the spectrum are zero, no band has a beat, and every envelope is 0 |
| Audio.AudioData.ProcessFromPcm | src/view-avs/avsaudiodata.cpp:48-201 | a rejected block changes nothing; an accepted block fills the waveforms, stores the normalised FFT of the zero-padded mono input, and steps all three bands |
| Audio.AudioData.FillWaveforms | src/view-avs/avsaudiodata.cpp:75-92 | the first n slots hold the decoded left, right and mono samples and every later slot is 0 |
| Audio.AudioData.FillSpectrum | src/view-avs/avsaudiodata.cpp:107-110 | the spectrum becomes the clamped, scaled FFT output |
| Audio.AudioData.UpdateBands | src/view-avs/avsaudiodata.cpp:112-200 | bass, mid and high each take one detector step on bins 0-7, 8-63 and 64-255, and every envelope stays in [0, 1] |
| Audio.AudioData.StepBands | src/view-avs/avsaudiodata.cpp:112-199 | each detector is fed its own band's energy with its own noise floor |
| Audio.AudioData.Publish | src/view-avs/avsaudiodata.cpp:131-142 | `isBeat` and `beatDecay` mirror the bass band, and each band's flag and envelope are published |
| ClearScreenEffect.ClearScreen.constructor | src/view-avs/effects/avsclearscreen.cpp:4-7 | the effect stores its colour, which defaults to opaque black |
| ClearScreenEffect.ClearScreen.Render | src/view-avs/effects/avsclearscreen.cpp:9-12 | every pixel becomes the colour, whatever the buffer and the audio held, so a second render changes nothing |
| FadeOutEffect.FadeChannel | src/view-avs/effects/avsfadeout.cpp:24-26 | a channel becomes max(0, c - speed) and never grows |
| FadeOutEffect.FadePixel | src/view-avs/effects/avsfadeout.cpp:18-28 | alpha is kept exactly and red, green and blue are each faded |
| FadeOutEffect.Faded | src/view-avs/effects/avsfadeout.cpp:17-29 | the pixel count is kept and each pixel is faded independently |
| FadeOutEffect.FadeZero | src/view-avs/effects/avsfadeout.cpp:24-26 | speed 0 changes nothing |
| FadeOutEffect.FadeCompose | src/view-avs/effects/avsfadeout.cpp:24-28 | fading by a and then by b is fading by a + b |
| FadeOutEffect.FadeNeverBrightens | src/view-avs/effects/avsfadeout.cpp:24-26 | no channel grows, and a channel at 0 stays at 0 |
| FadeOutEffect.FadeOut.constructor | src/view-avs/effects/avsfadeout.cpp:6-9 | the effect stores its speed |
| FadeOutEffect.FadeOut.Render | src/view-avs/effects/avsfadeout.cpp:11-30 | the buffer becomes the faded old buffer |
| OnBeatClearEffect.RandomOpaque | src/view-avs/effects/avsonbeatclear.cpp:30 | the random colour is always fully opaque |
| OnBeatClearEffect.FillOpaque | src/view-avs/effects/avsonbeatclear.cpp:15-33 | every fill colour is opaque, except a configured flash colour that is not |
| OnBeatClearEffect.RandomStateNeverZero | src/view-avs/effects/avsonbeatclear.cpp:27-29 | from the seed 0x12345678 the generator never reaches zero |
| OnBeatClearEffect.OnBeatClear.constructor | src/view-avs/effects/avsonbeatclear.cpp:5-8 | the effect stores its mode and flash colour and starts the generator at 0x12345678 |
| OnBeatClearEffect.OnBeatClear.Render | src/view-avs/effects/avsonbeatclear.cpp:10-35 | without a beat nothing changes; on a beat the whole buffer takes the mode's colour, and the generator advances one step only in RandomColor mode |
| MirrorEffect.Reflect | src/view-avs/effects/avsmirror.cpp:17-21 | columns (rows) in the first half keep their own index; the others read their mirror image w-1-x |
| MirrorEffect.MirrorH | src/view-avs/effects/avsmirror.cpp:15-24 | after the horizontal pass each pixel equals the old pixel at its reflected column in the same row |
| MirrorEffect.MirrorV | src/view-avs/effects/avsmirror.cpp:26-36 | after the vertical pass each pixel equals the old pixel at its reflected row in the same column |
| MirrorEffect.MirroredSource | src/view-avs/effects/avsmirror.cpp:15-36 | every output pixel is a copy of the input pixel at the reflected coordinates of the mode |
| MirrorEffect.MirroredSymmetric | src/view-avs/effects/avsmirror.cpp:15-36 | the result is symmetric about each axis the mode mirrors; Both is symmetric about both |
| MirrorEffect.MirroredKeepsSources | src/view-avs/effects/avsmirror.cpp:17-33 | the source half, including the middle column or row of an odd size, is unchanged |
| MirrorEffect.MirroredIdempotent | src/view-avs/effects/avsmirror.cpp:15-36 | mirroring a mirrored image changes nothing |
| MirrorEffect.Mirror.constructor | src/view-avs/effects/avsmirror.cpp:4-7 | the effect stores its mode |
| MirrorEffect.Mirror.Render | src/view-avs/effects/avsmirror.cpp:9-37 | the buffer becomes the mirrored old buffer |
| MirrorEffect.MirrorRows | src/view-avs/effects/avsmirror.cpp:15-24 | the in-place loops produce the horizontal pass |
| MirrorEffect.MirrorColumns | src/view-avs/effects/avsmirror.cpp:26-36 | the in-place loops produce the vertical pass |
| MosaicEffect.BlockSize | src/view-avs/effects/avsmosaic.cpp:18-21 | the block is at least 2, at least the doubled size on a reactive beat, and exactly blockSize otherwise when that is at least 2 |
| MosaicEffect.BlockStart | src/view-avs/effects/avsmosaic.cpp:23-24 | every coordinate lies in the block that starts at the multiple of bs just below it |
| MosaicEffect.SameBlock | src/view-avs/effects/avsmosaic.cpp:23-26 | all coordinates of a block map to that block's start |
| MosaicEffect.Mosaicked | src/view-avs/effects/avsmosaic.cpp:23-52 | every pixel takes the opaque average colour of its clipped block |
| MosaicEffect.UniformBlockKept | src/view-avs/effects/avsmosaic.cpp:29-49 | a block of one opaque colour keeps that colour |
| MosaicEffect.BlockColorBetween | src/view-avs/effects/avsmosaic.cpp:30-43 | each averaged channel lies between the block's extremes and the result is opaque |
| MosaicEffect.MosaicIdempotent | src/view-avs/effects/avsmosaic.cpp:12-53 | a second mosaic with the same block size changes nothing |
| MosaicEffect.Mosaic.constructor | src/view-avs/effects/avsmosaic.cpp:6-10 | the effect stores its block size and beat reactivity |
| MosaicEffect.Mosaic.Render | src/view-avs/effects/avsmosaic.cpp:12-53 | the buffer becomes the mosaic of the old buffer at the effective block size |
| MosaicEffect.AverageBlock | src/view-avs/effects/avsmosaic.cpp:25-50 | averaging and painting one block extends the processed prefix of blocks by that block |
| MosaicEffect.BlockAverage | src/view-avs/effects/avsmosaic.cpp:29-43 | the colour computed for a block is its average colour in the pre-render image |
| MosaicEffect.AverageChannel | src/view-avs/effects/avsmosaic.cpp:30-43 | one channel's computed average is the rectangle's floored mean |
| BlurEffect.BoxMeanBetween | src/view-avs/effects/avsblur.cpp:24-37 | the 3×3 mean lies between the neighbourhood's least and greatest value |
| BlurEffect.BlurPass | src/view-avs/effects/avsblur.cpp:22-40 | interior pixels take the opaque 3×3 average computed over the pass's input; border pixels are kept |
| BlurEffect.Blurred | src/view-avs/effects/avsblur.cpp:16 | zero or fewer passes leave the image unchanged |
| BlurEffect.BorderKept | src/view-avs/effects/avsblur.cpp:22-23 | the first and last row and column are never changed, whatever the number of passes |
| BlurEffect.UniformPassFixed | src/view-avs/effects/avsblur.cpp:24-38 | a uniform opaque image is a fixed point of one pass |
| BlurEffect.UniformFixed | src/view-avs/effects/avsblur.cpp:16-40 | a uniform opaque image is unchanged by any number of passes |
| BlurEffect.Blur.constructor | src/view-avs/effects/avsblur.cpp:5-9 | the effect stores its pass count and owns a fresh 320×100 copy buffer |
| BlurEffect.Blur.Render | src/view-avs/effects/avsblur.cpp:11-42 | the buffer becomes the old buffer blurred `passes` times |
| BlurEffect.BlurInto | src/view-avs/effects/avsblur.cpp:17-40 | writing into a copy while reading the original yields exactly one pass |
| BlurEffect.BoxAverage | src/view-avs/effects/avsblur.cpp:24-38 | the loop computes the box colour of the pixel |
| ColorModifierEffect.FMod | src/view-avs/effects/avscolormodifier.cpp:76 | `fmodf` of a non-negative value lands in [0, y) |
| ColorModifierEffect.Value | src/view-avs/effects/avscolormodifier.cpp:19 | the value is the largest channel scaled to [0, 1] |
| ColorModifierEffect.Saturation | src/view-avs/effects/avscolormodifier.cpp:20 | the saturation lies in [0, 1] |
| ColorModifierEffect.Hue | src/view-avs/effects/avscolormodifier.cpp:21-29 | the hue is never negative |
| ColorModifierEffect.SaturationLo | src/view-avs/effects/avscolormodifier.cpp:15-20 | v - v·s is the smallest channel, scaled to [0, 1] |
| ColorModifierEffect.Chroma | src/view-avs/effects/avscolormodifier.cpp:35-36 | the chroma is v·s and the secondary component lies between 0 and the chroma |
| ColorModifierEffect.ToChannel | src/view-avs/effects/avscolormodifier.cpp:45-47 | a component in [0, 1] scales to a byte channel by truncation |
| ColorModifierEffect.HsvToRgbExtremes | src/view-avs/effects/avscolormodifier.cpp:33-48 | converting back, the brightest channel comes from v and the darkest from v - v·s, in every hue sector |
| ColorModifierEffect.RotateKeepsExtremes | src/view-avs/effects/avscolormodifier.cpp:84-87 | a hue rotation keeps the brightest and the darkest channel |
| ColorModifierEffect.InvertPixel | src/view-avs/effects/avscolormodifier.cpp:56-62 | each colour channel becomes 255 - c and alpha is kept |
| ColorModifierEffect.Luma | src/view-avs/effects/avscolormodifier.cpp:70 | the luminance lies between the smallest and the largest channel, so it fits a byte |
| ColorModifierEffect.WeightedBetween | src/view-avs/effects/avscolormodifier.cpp:70 | (77r + 150g + 29b) >> 8 lies between the smallest and the largest channel |
| ColorModifierEffect.GrayPixel | src/view-avs/effects/avscolormodifier.cpp:64-73 | all three channels become the luminance and alpha is kept |
| ColorModifierEffect.BrightenPixel | src/view-avs/effects/avscolormodifier.cpp:92-100 | each channel becomes min(255, c + 8) and alpha is kept |
| ColorModifierEffect.HuePixel | src/view-avs/effects/avscolormodifier.cpp:77-89 | alpha is kept, and pure black is skipped unchanged |
| ColorModifierEffect.NextHueOffset | src/view-avs/effects/avscolormodifier.cpp:76 | the offset advances by 3 modulo 360 and stays in [0, 360) |
| ColorModifierEffect.InvertInvolution | src/view-avs/effects/avscolormodifier.cpp:56-62 | inverting twice gives back the pixel |
| ColorModifierEffect.GrayIdempotent | src/view-avs/effects/avscolormodifier.cpp:70-71 | a gray pixel is its own luminance, so grayscale is idempotent |
| ColorModifierEffect.HueShiftKeepsExtremes | src/view-avs/effects/avscolormodifier.cpp:75-90 | a hue shift keeps each pixel's alpha and its brightest and darkest channel |
| ColorModifierEffect.HueShiftKeepsGray | src/view-avs/effects/avscolormodifier.cpp:82-88 | gray pixels, black and white among them, are left unchanged by a hue shift |
| ColorModifierEffect.ColorModifier.constructor | src/view-avs/effects/avscolormodifier.cpp:7-10 | the effect stores its mode with the hue offset at 0 |
| ColorModifierEffect.ColorModifier.Render | src/view-avs/effects/avscolormodifier.cpp:50-102 | the offset advances only in HueShift mode, then every pixel is replaced by the mode's transform of it |
| GrainEffect.Amplitude | src/view-avs/effects/avsgrain.cpp:22-24 | without beat reactivity the amplitude is the configured amount |
| GrainEffect.AmplitudeGrowsWithBeat | src/view-avs/effects/avsgrain.cpp:23-24 | for an envelope in [0, 1] the reactive amplitude lies between the amount and three times it |
| GrainEffect.Noise | src/view-avs/effects/avsgrain.cpp:39-41 | each noise value lies in [-amt, amt - 1] |
| GrainEffect.GrainBounded | src/view-avs/effects/avsgrain.cpp:39-47 | alpha is kept and each channel moves by at most amt down and less than amt up |
| GrainEffect.StateNeverZero | src/view-avs/effects/avsgrain.cpp:12-18 | from a non-zero seed the generator is non-zero after every pixel |
| GrainEffect.Grain.constructor | src/view-avs/effects/avsgrain.cpp:7-10 | the effect stores its settings and starts the generator at 0xDEADBEEF |
| GrainEffect.Grain.Xorshift32 | src/view-avs/effects/avsgrain.cpp:12-18 | the state advances one xorshift step and the new state is returned |
| GrainEffect.Grain.Render | src/view-avs/effects/avsgrain.cpp:20-49 | an amplitude of 0 or less changes nothing; otherwise every pixel is grained in order and the generator advances exactly three steps per pixel |
| GrainEffect.Grain.GrainAt | src/view-avs/effects/avsgrain.cpp:33-48 | one loop iteration grains pixel i and leaves the later pixels untouched |
| GrainEffect.Grain.GrainOne | src/view-avs/effects/avsgrain.cpp:34-47 | one pixel's three draws and channel updates |
| BufferBlendEffect.MixChannel | src/view-avs/effects/avsbufferblend.cpp:31-37 | for weights w and 1 - w with w in [0, 1], the truncated mix lies between the two channels |
| BufferBlendEffect.MixBetween | src/view-avs/effects/avsbufferblend.cpp:31-37 | the real mix and its truncation both lie between the two channel values |
| BufferBlendEffect.Blend | src/view-avs/effects/avsbufferblend.cpp:31-39 | the blended pixel is fully opaque |
| BufferBlendEffect.BlendEnds | src/view-avs/effects/avsbufferblend.cpp:24-39 | a ratio of 0 gives the current colour and a ratio of 1 the accumulated colour, both opaque |
| BufferBlendEffect.BlendSteady | src/view-avs/effects/avsbufferblend.cpp:31-39 | blending an opaque pixel with itself gives it back |
| BufferBlendEffect.Blended | src/view-avs/effects/avsbufferblend.cpp:27-42 | every output pixel is the opaque blend of the matching pixels |
| BufferBlendEffect.BlendedBetween | src/view-avs/effects/avsbufferblend.cpp:31-37 | each blended channel lies between the accumulated and the current value |
| BufferBlendEffect.BufferBlend.constructor | src/view-avs/effects/avsbufferblend.cpp:5-9 | a black 320×100 accumulator, waiting for its first frame |
| BufferBlendEffect.BufferBlend.Render | src/view-avs/effects/avsbufferblend.cpp:11-43 | the first frame only seeds the accumulator; later frames write the same blend into both the frame and the accumulator; the first-frame flag stays cleared |
| BufferBlendEffect.BlendInto | src/view-avs/effects/avsbufferblend.cpp:27-42 | the loop writes the blend to the frame and the accumulator alike |
| BufferBlendEffect.BlendPixel | src/view-avs/effects/avsbufferblend.cpp:28-39 | one pixel's arithmetic is the blend |
| SuperScopeEffect.StepTracing | src/view-avs/effects/avssuperscope.cpp:35-43 | away from the end point at least one coordinate steps, and neither steps past the end |
| SuperScopeEffect.Trace | src/view-avs/effects/avssuperscope.cpp:31-44 | the loop plots at least one point, starting where it stands |
| SuperScopeEffect.LinePoints | src/view-avs/effects/avssuperscope.cpp:22-45 | a line plots at least one point, starting at (x0, y0) |
| SuperScopeEffect.TraceEnds | src/view-avs/effects/avssuperscope.cpp:33-34 | the last point plotted is (x1, y1) |
| SuperScopeEffect.TraceInBox | src/view-avs/effects/avssuperscope.cpp:25-44 | every plotted point lies in the segment's bounding box |
| SuperScopeEffect.TraceConnected | src/view-avs/effects/avssuperscope.cpp:35-43 | each point after the first is an 8-neighbour of the one before it |
| SuperScopeEffect.TraceLengthX | src/view-avs/effects/avssuperscope.cpp:25-44 | when x is the major axis, x steps on every iteration |
| SuperScopeEffect.TraceLengthY | src/view-avs/effects/avssuperscope.cpp:25-44 | when y is the major axis, y steps on every iteration |
| SuperScopeEffect.LineShape | src/view-avs/effects/avssuperscope.cpp:22-45 | a line plots max(\|dx\|, \|dy\|) + 1 points, from (x0, y0) to (x1, y1) |
| SuperScopeEffect.SourceIndex | src/view-avs/effects/avssuperscope.cpp:68 | min(i, size - 1) is always inside the source array and is i itself when i is in range |
| SuperScopeEffect.ToPixel | src/view-avs/effects/avssuperscope.cpp:101-105 | a projected coordinate is clamped into [0, n - 1] |
| SuperScopeEffect.SamplePoint | src/view-avs/effects/avssuperscope.cpp:64-105 | every sample's pixel position is inside the buffer |
| SuperScopeEffect.ScopeInBounds | src/view-avs/effects/avssuperscope.cpp:104-111 | every point a render plots is inside the buffer |
| SuperScopeEffect.StrokeInBounds | src/view-avs/effects/avssuperscope.cpp:107-111 | the points one sample plots are inside the buffer |
| SuperScopeEffect.PointsModeCount | src/view-avs/effects/avssuperscope.cpp:107-111 | in Points mode each sample plots exactly one point |
| SuperScopeEffect.SuperScope.constructor | src/view-avs/effects/avssuperscope.cpp:11-13 | the defaults: Lines, Oscilloscope, Waveform, cyan, scale 0.8 |
| SuperScopeEffect.SuperScope.DrawLine | src/view-avs/effects/avssuperscope.cpp:22-45 | the Bresenham loop terminates and paints exactly the line's points, clipped to the buffer |
| SuperScopeEffect.SuperScope.Advance | src/view-avs/effects/avssuperscope.cpp:35-43 | one iteration moves to the next traced point and updates the error term |
| SuperScopeEffect.SuperScope.Render | src/view-avs/effects/avssuperscope.cpp:47-116 | the buffer is painted with the points of all 576 samples in the scope colour |
| SuperScopeEffect.SuperScope.DrawSample | src/view-avs/effects/avssuperscope.cpp:66-114 | one iteration plots sample i's stroke and carries its position to the next |
| SuperScopeEffect.SuperScope.SamplePointAt | src/view-avs/effects/avssuperscope.cpp:67-105 | the pixel position of sample i |
| SuperScopeEffect.SuperScope.DrawStroke | src/view-avs/effects/avssuperscope.cpp:107-111 | a line from the previous position, or a single pixel for the first sample or in Points mode |
| RingEffect.StepTracks | src/view-avs/effects/avsring.cpp:40-46 | one step keeps the error term equal to the midpoint decision value |
| RingEffect.Offsets | src/view-avs/effects/avsring.cpp:31-47 | every plotted offset satisfies 0 ≤ y ≤ x ≤ radius |
| RingEffect.OffsetsNear | src/view-avs/effects/avsring.cpp:22-47 | every plotted offset lies within half a pixel of the circle |
| RingEffect.CircleNear | src/view-avs/effects/avsring.cpp:22-47 | every plotted point lies within the radius box and \|dx² + dy² - r²\| ≤ max(\|dx\|, \|dy\|) |
| RingEffect.EightSymmetric | src/view-avs/effects/avsring.cpp:32-39 | the eight reflections of an offset are closed under mirroring and swapping the axes |
| RingEffect.CircleSymmetric | src/view-avs/effects/avsring.cpp:32-39 | the plotted circle is symmetric under the reflections about (cx, cy) |
| RingEffect.Bin | src/view-avs/effects/avsring.cpp:60-61 | the bin of ring i is always a spectrum bin |
| RingEffect.RingColor | src/view-avs/effects/avsring.cpp:68-75 | each ring colour is fully opaque |
| RingEffect.RingColorDims | src/view-avs/effects/avsring.cpp:68-74 | each ring channel lies between 30% of the configured channel and the channel itself |
| RingEffect.ScaleDims | src/view-avs/effects/avsring.cpp:69-74 | a brightness in [0.3, 1] scales a channel to between 30% of it and itself |
| RingEffect.RingsSucc | src/view-avs/effects/avsring.cpp:58-78 | ring k + 1 paints over the first k rings with its own radius and colour |
| RingEffect.Ring.constructor | src/view-avs/effects/avsring.cpp:7-10 | the effect stores its colour, ring count and scale |
| RingEffect.Ring.PlotEight | src/view-avs/effects/avsring.cpp:32-39 | the eight plots paint the eight reflections of (x, y) |
| RingEffect.Ring.PlotEightMore | src/view-avs/effects/avsring.cpp:32-39 | the eight plots extend an earlier painting by the reflections |
| RingEffect.Ring.DrawCircle | src/view-avs/effects/avsring.cpp:12-48 | the loop terminates and paints exactly the circle's points, clipped; a radius of 0 or less changes nothing |
| RingEffect.Ring.CircleStep | src/view-avs/effects/avsring.cpp:31-46 | one iteration plots the reflections and moves on, and x - y strictly decreases |
| RingEffect.Ring.Advance | src/view-avs/effects/avsring.cpp:40-46 | y grows by one, and x shrinks exactly when err ≥ 0 |
| RingEffect.Ring.Render | src/view-avs/effects/avsring.cpp:50-79 | the buffer becomes the old buffer with all rings painted in order |
| RingEffect.Ring.DrawRing | src/view-avs/effects/avsring.cpp:58-78 | one iteration paints ring i from its spectrum bin in its colour |
| ClockEffect.ColonDots | src/view-avs/effects/avsclock.cpp:19 | the colon glyph is exactly two dots in the middle column, on rows 2 and 4 |
| ClockEffect.SpanMem | src/view-avs/effects/avsclock.cpp:41-46 | a scaled row span holds exactly its n pixels |
| ClockEffect.BlockMem | src/view-avs/effects/avsclock.cpp:40-47 | a scaled block holds exactly the points of its s×s square |
| ClockEffect.BlockInside | src/view-avs/effects/avsclock.cpp:40-47 | every point of a block lies in its square |
| ClockEffect.BlockCovers | src/view-avs/effects/avsclock.cpp:40-47 | every point of the square is drawn |
| ClockEffect.BlockRowsMem | src/view-avs/effects/avsclock.cpp:40-47 | the first k rows are the first k - 1 rows plus row k - 1 |
| ClockEffect.RowMem | src/view-avs/effects/avsclock.cpp:38-49 | a glyph row draws exactly the blocks of its lit pixels |
| ClockEffect.CellMem | src/view-avs/effects/avsclock.cpp:39-47 | a cell draws its block exactly when bit `0x10 >> col` is set |
| ClockEffect.GlyphMem | src/view-avs/effects/avsclock.cpp:36-50 | a glyph draws exactly the scaled blocks of its lit pixels |
| ClockEffect.GlyphUnscaled | src/view-avs/effects/avsclock.cpp:36-50 | at scale 1 a glyph draws exactly its lit font pixels |
| ClockEffect.GlyphBox | src/view-avs/effects/avsclock.cpp:36-50 | a glyph stays inside its 5s×7s cell |
| ClockEffect.DrawSpan | src/view-avs/effects/avsclock.cpp:41-46 | the innermost loop paints one scaled row span, clipped |
| ClockEffect.DrawSpanPixel | src/view-avs/effects/avsclock.cpp:42-45 | one iteration paints the next pixel of the span |
| ClockEffect.DrawSpanMore | src/view-avs/effects/avsclock.cpp:41-46 | a span extends an earlier painting |
| ClockEffect.DrawBlock | src/view-avs/effects/avsclock.cpp:40-47 | the two inner loops paint one s×s block, clipped |
| ClockEffect.DrawBlockRow | src/view-avs/effects/avsclock.cpp:40-46 | one iteration paints the next row of the block |
| ClockEffect.DrawBlockMore | src/view-avs/effects/avsclock.cpp:40-47 | a block extends an earlier painting |
| ClockEffect.DrawGlyphRow | src/view-avs/effects/avsclock.cpp:37-49 | a glyph row paints the blocks of its lit pixels, left to right |
| ClockEffect.DrawCell | src/view-avs/effects/avsclock.cpp:38-48 | one column paints its block only when its bit is set |
| ClockEffect.DrawGlyph | src/view-avs/effects/avsclock.cpp:27-51 | the glyph's points are painted, clipped; indices outside 0..10 change nothing |
| ClockEffect.Hour12 | src/view-avs/effects/avsclock.cpp:57-58 | the displayed hour lies in 1..12 and agrees with the hour modulo 12 |
| ClockEffect.GlyphsSpell | src/view-avs/effects/avsclock.cpp:63-68 | the five slots spell the hour (tens slot -1 exactly when the hour is below 10), the colon and the minutes |
| ClockEffect.PulseChannel | src/view-avs/effects/avsclock.cpp:80-82 | the beat pulse never darkens a channel and stays within a byte |
| ClockEffect.PulseColor | src/view-avs/effects/avsclock.cpp:77-83 | the pulse colour is opaque and at least as bright as the colour in each channel |
| ClockEffect.PulseEnds | src/view-avs/effects/avsclock.cpp:77-83 | a beat of 0 gives the opaque colour and a beat of 1 gives white |
| ClockEffect.PaintStrokesTwo | src/view-avs/effects/avsclock.cpp:105-108 | the shadow stroke is painted first and the glyph over it |
| ClockEffect.WidthOfCells | src/view-avs/effects/avsclock.cpp:86-90 | the cells of the shown slots span totalW plus one gap |
| ClockEffect.ClockFits | src/view-avs/effects/avsclock.cpp:85-111 | every painted point, shadow included, lies within the layout box starting at (startX, startY) |
| ClockEffect.ColonHidden | src/view-avs/effects/avsclock.cpp:100-103 | a hidden colon removes exactly its two strokes and still advances x by one cell, so the minutes do not move |
| ClockEffect.Clock.constructor | src/view-avs/effects/avsclock.cpp:22-25 | the effect stores its colour, scale and colon blinking |
| ClockEffect.Clock.Render | src/view-avs/effects/avsclock.cpp:53-112 | the buffer is painted with the layout's strokes for the given time, in order |
| ClockEffect.Clock.LayOut | src/view-avs/effects/avsclock.cpp:57-93 | the layout arithmetic gives the glyphs, scale, origin and colon flag |
| ClockEffect.Clock.DrawSlots | src/view-avs/effects/avsclock.cpp:95-111 | the slot loop paints the strokes of all five slots |
| ClockEffect.Clock.DrawSlot | src/view-avs/effects/avsclock.cpp:96-110 | one slot is skipped, advances past a hidden colon, or draws shadow and glyph |
| ClockEffect.Clock.DrawStroke | src/view-avs/effects/avsclock.cpp:106-108 | one `drawGlyph` call paints its glyph's points |
| MovementEffect.Table | src/view-avs/effects/avsmovement.cpp:13 | the table has exactly width×height entries, in row-major order |
| MovementEffect.TableAt | src/view-avs/effects/avsmovement.cpp:85-87 | the entry at (x, y)'s index is the entry computed for (x, y) |
| MovementEffect.Moved | src/view-avs/effects/avsmovement.cpp:100-109 | each pixel is gathered through its entry: the old pixel it points to, or opaque black outside |
| MovementEffect.MovedFromInput | src/view-avs/effects/avsmovement.cpp:104-108 | every output pixel is opaque black or a copy of some input pixel |
| MovementEffect.MovedIdentity | src/view-avs/effects/avsmovement.cpp:100-109 | a table that points every pixel at itself leaves the frame unchanged |
| MovementEffect.MovedAllOutside | src/view-avs/effects/avsmovement.cpp:106-107 | a table pointing everything outside turns the frame opaque black |
| MovementEffect.ZoomOutInside | src/view-avs/effects/avsmovement.cpp:46-51 | every ZoomOut entry points inside the frame |
| MovementEffect.ZoomInCornerOutside | src/view-avs/effects/avsmovement.cpp:39-45 | at 320×100 the ZoomIn corner entry is (-3, -1), outside the frame |
| MovementEffect.ZoomCentreFixed | src/view-avs/effects/avsmovement.cpp:39-51 | for an even-sized frame, a zoom maps the centre pixel to itself |
| MovementEffect.Movement.constructor | src/view-avs/effects/avsmovement.cpp:9-15 | a 320×100 table and back buffer, built for the kind, which defaults to ZoomIn |
| MovementEffect.Movement.SetMovementType | src/view-avs/effects/avsmovement.cpp:17-21 | stores the kind and rebuilds the table for it |
| MovementEffect.Movement.BuildTable | src/view-avs/effects/avsmovement.cpp:23-90 | after the loops the table matches the current kind |
| MovementEffect.Movement.Render | src/view-avs/effects/avsmovement.cpp:92-110 | the frame becomes the old frame gathered through the table, read from the copy |
| MovementEffect.GatherInto | src/view-avs/effects/avsmovement.cpp:100-109 | the loop writes the gathered frame |
| MovementEffect.GatherPixel | src/view-avs/effects/avsmovement.cpp:101-108 | one entry gathers the source pixel it points at, or black |
| WaterEffect.Zeros | src/view-avs/effects/avswater.cpp:20-21 | a surface of n cells at rest |
| WaterEffect.InteriorNeighbours | src/view-avs/effects/avswater.cpp:54-58 | an interior cell has all four neighbours inside the grid |
| WaterEffect.SplashCentre | src/view-avs/effects/avswater.cpp:35 | the splash centre lies in [2, n - 3] |
| WaterEffect.SplashCells | src/view-avs/effects/avswater.cpp:42-46 | exactly the 3×3 block around the centre is set, and every changed cell is interior |
| WaterEffect.Propagated | src/view-avs/effects/avswater.cpp:52-63 | border cells keep their height; only interior cells are updated |
| WaterEffect.StillWater | src/view-avs/effects/avswater.cpp:52-63 | a surface at rest stays at rest |
| WaterEffect.LevelWater | src/view-avs/effects/avswater.cpp:55-60 | without damping a level surface stays level |
| WaterEffect.SourceIndex | src/view-avs/effects/avswater.cpp:73-77 | the clamped source index is always inside the frame |
| WaterEffect.DisplacedFromInput | src/view-avs/effects/avswater.cpp:70-81 | every output pixel copies some input pixel, and border pixels are unchanged |
| WaterEffect.LevelSurfaceStill | src/view-avs/effects/avswater.cpp:73-79 | a level surface moves no pixel |
| WaterEffect.SeedNeverZero | src/view-avs/effects/avswater.cpp:32-38 | from the seed 0x1337BEEF the generator never reaches zero |
| WaterEffect.Water.constructor | src/view-avs/effects/avswater.cpp:7-11 | no height fields yet, the generator at 0x1337BEEF, and a fresh back buffer |
| WaterEffect.Water.EnsureBuffers | src/view-avs/effects/avswater.cpp:13-22 | same size: nothing changes; new size: both fields are reset to w×h zeros |
| WaterEffect.Water.Xorshift32 | src/view-avs/effects/avswater.cpp:32-34 | the generator advances one step and nothing else changes |
| WaterEffect.Water.Inject | src/view-avs/effects/avswater.cpp:31-47 | the generator advances two steps and the splash lands around the two derived centres |
| WaterEffect.Water.Propagate | src/view-avs/effects/avswater.cpp:50-63 | the fields swap and the current field becomes the propagated surface |
| WaterEffect.Water.ApplyDisplacement | src/view-avs/effects/avswater.cpp:66-81 | the frame becomes the displaced old frame |
| WaterEffect.Water.Render | src/view-avs/effects/avswater.cpp:24-82 | resize, splash on a beat only, propagate, then displace; the generator moves only on a beat |
| WaterEffect.SplashInto | src/view-avs/effects/avswater.cpp:42-46 | the loops write the 3×3 splash |
| WaterEffect.PropagateInto | src/view-avs/effects/avswater.cpp:52-63 | the loops compute the propagated surface |
| WaterEffect.PropagateRow | src/view-avs/effects/avswater.cpp:53-62 | one row's interior cells are updated |
| WaterEffect.DisplaceInto | src/view-avs/effects/avswater.cpp:70-81 | the loops write the displaced frame |
| WaterEffect.DisplaceRow | src/view-avs/effects/avswater.cpp:71-80 | one row's interior pixels are displaced |
| WaterEffect.DisplacedPixel | src/view-avs/effects/avswater.cpp:72-79 | one interior pixel reads from its clamped source |
| Engine.CatalogShape | src/view-avs/avsengine.cpp:124-296 | 16 presets, each with a non-empty name and chain, and no two names alike |
| Engine.NextIndex | src/view-avs/avsengine.cpp:94-98 | the next index stays in [0, count) |
| Engine.PrevIndex | src/view-avs/avsengine.cpp:100-105 | the previous index stays in [0, count) |
| Engine.NextPrevInverse | src/view-avs/avsengine.cpp:94-105 | previous undoes next and next undoes previous; with two or more presets both move |
| Engine.Instantiate | src/view-avs/avsengine.cpp:88-91 | a preset's builder adds one enabled effect per chain entry, in order |
| Engine.RunFrame | src/view-avs/avsengine.cpp:39-43 | the dispatch never changes enabled flags, touches only enabled effects, and leaves later effects as they were |
| Engine.RunAllDisabled | src/view-avs/avsengine.cpp:39-43 | with every effect disabled the frame and the effects are unchanged |
| Engine.FadeChannel | src/view-avs/avsengine.cpp:60-62 | a cross-faded channel lies between the old and the new value |
| Engine.FadeMix | src/view-avs/avsengine.cpp:49-62 | a weight in (0, 1] keeps the truncated mix between the two channels |
| Engine.CrossFaded | src/view-avs/avsengine.cpp:56-65 | each new pixel is faded from the matching snapshot pixel |
| Engine.FadeBounds | src/view-avs/avsengine.cpp:49-64 | faded pixels are opaque with channels between old and new; at 30 remaining the old frame shows |
| Engine.Tick | src/view-avs/avsengine.cpp:67-69 | while transitioning the countdown drops by one and the transition ends when it reaches 0 |
| Engine.FadeLasts | src/view-avs/avsengine.cpp:48-69 | a fade started at r lasts exactly r rendered frames |
| Engine.Engine.constructor | src/view-avs/avsengine.cpp:19-25 | black buffers and preset 0 loaded, with no cross-fade |
| Engine.Engine.AddEffect | src/view-avs/avsengine.cpp:27-30 | appends an enabled effect and nothing else changes |
| Engine.Engine.ClearEffects | src/view-avs/avsengine.cpp:32-35 | empties the list and nothing else changes |
| Engine.Engine.LoadPreset | src/view-avs/avsengine.cpp:76-92 | out-of-range: no-op; otherwise index, chain and black buffer, with a 30-frame fade from the old frame only after a render (reloading the current index included) |
| Engine.Engine.BuildChain | src/view-avs/avsengine.cpp:91 | the builder adds the preset's chain to an empty list |
| Engine.Engine.NextPreset | src/view-avs/avsengine.cpp:94-98 | loads the next preset cyclically: its chain and a black frame; after a render the old frame is snapshotted for a 30-frame fade, before any render the fade state is unchanged; the rendered flag is kept |
| Engine.Engine.PrevPreset | src/view-avs/avsengine.cpp:100-105 | loads the previous preset cyclically: its chain and a black frame; after a render the old frame is snapshotted for a 30-frame fade, before any render the fade state is unchanged; the rendered flag is kept |
| Engine.Engine.PresetCount | src/view-avs/avsengine.cpp:112-115 | there are 16 presets |
| Engine.Engine.PresetName | src/view-avs/avsengine.cpp:117-122 | the current preset's name, or "" when the index is out of range |
| Engine.Engine.RenderFrame | src/view-avs/avsengine.cpp:37-74 | runs the enabled effects in order, marks a frame rendered, cross-fades while the countdown is positive and ticks it |
| Engine.CrossFadeInto | src/view-avs/avsengine.cpp:56-65 | the loop fades every pixel |
| Engine.FadeOne | src/view-avs/avsengine.cpp:57-64 | one pixel's fade arithmetic |

## Left out

- Floating point: every `float` is an exact real. Rounding of float products, of `0.92f` and of `1.5f` is not modelled.
- The FFT (`calc_freq`, declared in `fft.h`) is not part of this model. It is a parameter `fft` returning 256 magnitudes.
- The bit reading of a 32-bit float sample is the parameter `asFloat`. Integer samples are decoded from their little-endian bytes.
- `sinf`, `cosf`, `atan2f` and `sqrtf` are parameters (`Trig` for SuperScope, `Polar` for the rotating and radial Movement kinds). The ZoomIn and ZoomOut table entries are computed exactly.
- `QTime::currentTime()` is replaced by the `hour`, `minute` and `msec` parameters of `ClockEffect.Clock.Render`.
- `AvsFramebuffer::toImage`, the `QImage` returned by `renderFrame`, and the trivial `pixels()`, `width()` and `height()` getters are left out (`width` and `height` are constant fields).
- Pixels are four byte channels, not one `uint32_t`. `ToWord`/`FromWord` prove this view is exact, and Invert is modelled as 255 - c per channel rather than `~p & 0x00FFFFFF`.
- On Beat Clear's `state & 0x00FFFFFF` is modelled as the state modulo 2^24, which is the same value.
- Xorshift: the model proves only that zero is the one state that steps to zero, not that the step is invertible. That is enough for "a non-zero seed never reaches zero".
- FadeOutEffect.FadeOut.constructor: speed is a `nat`. A negative speed, which the source accepts and which would brighten, is not modelled.
- MosaicEffect.Mosaic.Render: the 32-bit `sumR`/`sumG`/`sumB` accumulators and `bs *= 2` are unbounded integers. Their overflow for huge blocks is not modelled.
- GrainEffect.Grain.Render: `amt * 2` and `static_cast<int>(... % range)` are unbounded. Overflow for amounts near 2^30 is not modelled.
- BlurEffect.Blur.Render and WaterEffect.Water.Render require the engine's 320×100 frame, the size of their internal copy buffer. For another size `copyFrom` does nothing, so the source reads a stale copy: within bounds for a frame of at most 32000 pixels, out of bounds for a larger one. That stale-copy behaviour is not modelled.
- MovementEffect.Movement.Render requires a frame of the table's size, 320×100. The source loops over the table's size, so it writes past a smaller frame, and for a larger one it gathers only the first 32000 pixels from a stale copy. Neither case is modelled.
- BufferBlendEffect.BufferBlend.Render covers every frame no larger than its 320×100 accumulator, a first frame of another size included. A larger frame, which the source reads past the accumulator for, is not modelled.
- MovementEffect.Movement.constructor takes the `Polar` parameter first, so that the kind can keep its `ZoomIn` default as the last parameter.
- RingEffect.Ring.Render requires every spectrum bin in [0, 1], as `processFromPcm` leaves them (`Audio.AudioData.SpectrumInUnit`).
- ClockEffect.Clock.Render requires the beat envelopes in [0, 1], as the analyser keeps them (`Audio.AudioData.DecaysInUnit`).
- ColorModifierEffect.RgbToHsv: the hue branch compares integer channels instead of the float values `maxc == rf`; for exact reals these agree.
- ColorModifierEffect.HuePixel: the model proves that a hue shift keeps the brightest and darkest channels and skips black. It does not state the rotated hue itself.
- Starfield and Dynamic Movement are not modelled beyond their catalogue entries. Their rendering is float perspective and rotation.
- Engine.Engine.RenderFrame: effects are generic state `S` reached through a `step` function, not virtual `render` calls. `KeepsSize(step)` is required: every effect returns a frame of the size it was given.
- Engine.Instantiate: effects start enabled. The default of `AvsEffect::enabled` is in `avseffect.h`, which is not part of this model.
- Effect names (`name()`), `avsview.cpp` (widget, timers, input) and the rest of the repository are outside the engine core.

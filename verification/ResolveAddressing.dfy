/**
 * How a resolve reads its source: which samples of each pixel a copy averages, how the rectangle
 * is clamped to both images, and what the dispatch writes.
 */
module ResolveAddressing {

  import opened EdramFormats

  // ---------------------------------------------------------------- samples of a pixel

  function MsaaScaleX(msaa: nat): nat { if msaa >= 2 then 2 else 1 }
  function MsaaScaleY(msaa: nat): nat { if msaa >= 1 then 2 else 1 }

  /** Where a sample lies inside its pixel: 0 and 1 on the left, 2 and 3 on the right. */
  function SampleX(sample: nat): nat { sample / 2 % 2 }
  function SampleY(sample: nat): nat { sample % 2 }

  /**
   * The samples a copy averages. One-sample surfaces have only sample 0, two-sample surfaces no
   * samples 2 and 3, and depth is never averaged: it takes the first sample it is asked for.
   */
  function Selected(msaa: nat, select: nat, isDepth: bool): (samples: seq<nat>)
    ensures |samples| in {1, 2, 4}
  {
    var asked :=
      if msaa == 0 then [0]
      else if msaa == 1 then (if select < 4 then [select % 2] else [0, 1])
      else if select < 4 then [select]
      else if select == 4 then [0, 1]
      else if select == 5 then [2, 3]
      else [0, 1, 2, 3];
    if isDepth then [asked[0]] else asked
  }

  /** Samples are numbered down each column of a pixel's grid, and every place of the grid is one sample's. */
  lemma {:induction false} SamplesFillPixel(msaa: nat, x: nat, y: nat, s: nat)
    ensures MsaaScaleX(msaa) * MsaaScaleY(msaa) == Count(msaa)
    ensures x < MsaaScaleX(msaa) && y < MsaaScaleY(msaa) ==>
              2 * x + y < Count(msaa) && SampleX(2 * x + y) == x && SampleY(2 * x + y) == y
    ensures s < Count(msaa) ==>
              SampleX(s) < MsaaScaleX(msaa) && SampleY(s) < MsaaScaleY(msaa) && s == 2 * SampleX(s) + SampleY(s)
  {}

  /** How many samples a pixel has. */
  function Count(msaa: nat): nat {
    if msaa == 0 then 1 else if msaa == 1 then 2 else 4
  }

  /**
   * Which samples a colour copy averages, of those the surface has: the one a small selector names, the left
   * or the right column, or all; depth takes the first of them. They are in ascending order.
   */
  lemma {:induction false} SelectedSamples(msaa: nat, select: nat, isDepth: bool, s: nat)
    requires msaa < 4
    ensures var samples := Selected(msaa, select, false);
            && (s in samples <==>
                  s < Count(msaa)
                  && (if select < 4 then s == select % Count(msaa)
                      else if select == 4 then SampleX(s) == 0
                      else if select == 5 then SampleX(s) == MsaaScaleX(msaa) - 1
                      else true))
            && (forall i, j :: 0 <= i < j < |samples| ==> samples[i] < samples[j])
            && (isDepth ==> Selected(msaa, select, isDepth) == [samples[0]])
  {}

  datatype Sampling = Sampling(scaleX: nat, scaleY: nat, offsetX: nat, offsetY: nat, spanX: nat, spanY: nat)

  method DeriveResolveSampling(rbSurfaceInfo: nat, copySampleSelect: nat, isDepth: bool) returns (out: Sampling)
    ensures var msaa := rbSurfaceInfo / 0x1_0000 % 4;
            && out.scaleX == MsaaScaleX(msaa) && out.scaleY == MsaaScaleY(msaa)
            && Names(out, Selected(msaa, copySampleSelect, isDepth))
  {
    var msaa := rbSurfaceInfo / 0x1_0000 % 4;
    var scaleX, scaleY := MsaaScaleX(msaa), MsaaScaleY(msaa);
    var spanX, spanY := 0, 0;
    var sel := copySampleSelect;
    if msaa >= 2 {
      if sel > 6 {
        sel := 6;
      }
      if isDepth {
        if sel == 4 || sel == 6 {
          sel := 0;
        } else if sel == 5 {
          sel := 2;
        }
      }
    } else if msaa >= 1 {
      if sel == 2 {
        sel := 0;
      } else if sel == 3 {
        sel := 1;
      } else if sel > 4 {
        sel := 4;
      }
      if isDepth && sel == 4 {
        sel := 0;
      }
    } else {
      sel := 0;
    }
    var first := if sel <= 3 then sel else if sel == 5 then 2 else 0;
    if sel == 4 || sel == 5 {
      spanX, spanY := 0, 1;
    } else if sel == 6 {
      spanX, spanY := 1, 1;
    }
    if scaleX == 1 {
      spanX := 0;
    }
    if scaleY == 1 {
      spanY := 0;
    }
    out := Sampling(scaleX, scaleY, first / 2 % 2, first % 2, spanX, spanY);
  }

  /** The sampling starts at the first of the samples and spans to the last. */
  predicate Names(smp: Sampling, samples: seq<nat>)
    requires |samples| > 0
  {
    var first, last := samples[0], samples[|samples| - 1];
    && smp.offsetX == SampleX(first) && smp.offsetY == SampleY(first)
    && smp.offsetX + smp.spanX == SampleX(last) && smp.offsetY + smp.spanY == SampleY(last)
  }

  /** The span stays inside the pixel's own block of samples. */
  predicate InsidePixel(smp: Sampling) {
    && smp.scaleX > 0 && smp.scaleY > 0
    && smp.offsetX + smp.spanX < smp.scaleX && smp.offsetY + smp.spanY < smp.scaleY
  }

  lemma {:induction false} SelectedStaysInside(msaa: nat, select: nat, isDepth: bool, smp: Sampling)
    requires msaa < 4 && smp.scaleX == MsaaScaleX(msaa) && smp.scaleY == MsaaScaleY(msaa)
    requires Names(smp, Selected(msaa, select, isDepth))
    ensures InsidePixel(smp)
    ensures isDepth ==> smp.spanX == 0 && smp.spanY == 0
  {}

  // ---------------------------------------------------------------- images and taps

  datatype Image = Image(width: nat, height: nat, rows: seq<seq<Color>>)
  {
    ghost predicate Valid() {
      |rows| == height && forall y :: 0 <= y < height ==> |rows[y]| == width
    }

    predicate Has(x: int, y: int) {
      0 <= x < width && 0 <= y < height
    }

    function At(x: int, y: int): Color
      requires Valid() && Has(x, y)
    {
      rows[y][x]
    }
  }

  function Plus(a: Color, b: Color): Color {
    Color(a.r + b.r, a.g + b.g, a.b + b.b, a.a + b.a)
  }

  function Times(c: Color, k: real): Color {
    Color(c.r * k, c.g * k, c.b * k, c.a * k)
  }

  /** What the shader makes of a texel: the exponent bias as a factor, then the swap of red and blue. */
  function Converted(c: Color, scale: real, swapRB: bool): Color {
    var t := Times(c, scale);
    if swapRB then Color(t.b, t.g, t.r, t.a) else t
  }

  /** A copied texel, channel by channel: red and blue change places if the swap is asked for, green and alpha never do. */
  function Channels(taps: Color, scale: real, swapRB: bool): Color {
    Color(scale * (if swapRB then taps.b else taps.r), scale * taps.g, scale * (if swapRB then taps.r else taps.b), scale * taps.a)
  }

  lemma {:induction false} ConvertedChannels(taps: Color, scale: real, swapRB: bool)
    ensures Converted(taps, scale, swapRB) == Channels(taps, scale, swapRB)
  {}

  /** Every sample of every pixel of the surface is in its image. */
  predicate PixelInside(src: Image, smp: Sampling, px: int, py: int) {
    0 <= px && 0 <= py && (px + 1) * smp.scaleX <= src.width && (py + 1) * smp.scaleY <= src.height
  }

  lemma {:induction false} TapInside(src: Image, smp: Sampling, px: int, py: int, dx: nat, dy: nat)
    requires InsidePixel(smp) && PixelInside(src, smp, px, py)
    requires dx < smp.scaleX && dy < smp.scaleY
    ensures src.Has(px * smp.scaleX + dx, py * smp.scaleY + dy)
    ensures px * smp.scaleX <= px * smp.scaleX + dx < (px + 1) * smp.scaleX
    ensures py * smp.scaleY <= py * smp.scaleY + dy < (py + 1) * smp.scaleY
  {}

  /** The sum of the shader's four taps for one pixel, times its fixed weight. */
  function Tapped(src: Image, smp: Sampling, px: int, py: int): Color
    requires src.Valid() && InsidePixel(smp) && PixelInside(src, smp, px, py)
  {
    TapInside(src, smp, px, py, smp.offsetX, smp.offsetY);
    TapInside(src, smp, px, py, smp.offsetX + smp.spanX, smp.offsetY);
    TapInside(src, smp, px, py, smp.offsetX, smp.offsetY + smp.spanY);
    TapInside(src, smp, px, py, smp.offsetX + smp.spanX, smp.offsetY + smp.spanY);
    var x, y := px * smp.scaleX + smp.offsetX, py * smp.scaleY + smp.offsetY;
    var sum := Plus(Plus(Plus(src.At(x, y), src.At(x + smp.spanX, y)), src.At(x, y + smp.spanY)),
                    src.At(x + smp.spanX, y + smp.spanY));
    Times(sum, 0.25)
  }

  /** One sample of one pixel of a surface. */
  function SampleAt(src: Image, msaa: nat, px: int, py: int, sample: nat): Color
    requires src.Valid() && 0 <= px && 0 <= py
    requires (px + 1) * MsaaScaleX(msaa) <= src.width && (py + 1) * MsaaScaleY(msaa) <= src.height
    requires SampleX(sample) < MsaaScaleX(msaa) && SampleY(sample) < MsaaScaleY(msaa)
  {
    src.At(px * MsaaScaleX(msaa) + SampleX(sample), py * MsaaScaleY(msaa) + SampleY(sample))
  }

  /** The mean of the selected samples of a pixel. */
  function MeanOfSelected(src: Image, msaa: nat, select: nat, isDepth: bool, px: int, py: int): Color
    requires src.Valid() && msaa < 4 && 0 <= px && 0 <= py
    requires (px + 1) * MsaaScaleX(msaa) <= src.width && (py + 1) * MsaaScaleY(msaa) <= src.height
  {
    var samples := Selected(msaa, select, isDepth);
    if |samples| == 1 then SampleAt(src, msaa, px, py, samples[0])
    else if |samples| == 2 then
      Times(Plus(SampleAt(src, msaa, px, py, samples[0]), SampleAt(src, msaa, px, py, samples[1])), 1.0 / 2.0)
    else
      Times(Plus(Plus(SampleAt(src, msaa, px, py, samples[0]), SampleAt(src, msaa, px, py, samples[1])),
                 Plus(SampleAt(src, msaa, px, py, samples[2]), SampleAt(src, msaa, px, py, samples[3]))), 1.0 / 4.0)
  }

  lemma {:induction false} QuarterOfOne(c: Color)
    ensures Times(Plus(Plus(Plus(c, c), c), c), 0.25) == c
  {}

  lemma {:induction false} QuarterOfTwo(a: Color, b: Color)
    ensures Times(Plus(Plus(Plus(a, a), b), b), 0.25) == Times(Plus(a, b), 1.0 / 2.0)
  {}

  lemma {:induction false} QuarterOfFour(a: Color, b: Color, c: Color, d: Color)
    ensures Times(Plus(Plus(Plus(a, c), b), d), 0.25) == Times(Plus(Plus(a, b), Plus(c, d)), 1.0 / 4.0)
  {}

  /** Whether the copy picks one sample, a vertical pair or all four, and where the shader's taps then fall. */
  lemma {:induction false} SpanOfSelected(msaa: nat, select: nat, isDepth: bool, smp: Sampling)
    requires msaa < 4 && smp.scaleX == MsaaScaleX(msaa) && smp.scaleY == MsaaScaleY(msaa)
    requires Names(smp, Selected(msaa, select, isDepth))
    ensures var samples := Selected(msaa, select, isDepth);
            && SampleX(samples[0]) == smp.offsetX && SampleY(samples[0]) == smp.offsetY
            && (|samples| == 1 ==> smp.spanX == 0 && smp.spanY == 0)
            && (|samples| == 2 ==>
                  smp.spanX == 0 && smp.spanY == 1
                  && SampleX(samples[1]) == smp.offsetX && SampleY(samples[1]) == smp.offsetY + 1)
            && (|samples| == 4 ==>
                  samples == [0, 1, 2, 3] && smp.spanX == 1 && smp.spanY == 1 && smp.offsetX == 0 && smp.offsetY == 0)
  {}

  /** The four taps, always four, add up to the mean of the samples the copy selects. */
  lemma {:induction false} TapsAreMean(src: Image, msaa: nat, select: nat, isDepth: bool, smp: Sampling, px: int, py: int)
    requires src.Valid() && msaa < 4
    requires smp.scaleX == MsaaScaleX(msaa) && smp.scaleY == MsaaScaleY(msaa)
    requires Names(smp, Selected(msaa, select, isDepth))
    requires PixelInside(src, smp, px, py)
    ensures InsidePixel(smp)
    ensures Tapped(src, smp, px, py) == MeanOfSelected(src, msaa, select, isDepth, px, py)
  {
    SelectedStaysInside(msaa, select, isDepth, smp);
    SpanOfSelected(msaa, select, isDepth, smp);
    var samples := Selected(msaa, select, isDepth);
    if |samples| == 1 {
      QuarterOfOne(SampleAt(src, msaa, px, py, samples[0]));
    } else if |samples| == 2 {
      QuarterOfTwo(SampleAt(src, msaa, px, py, samples[0]), SampleAt(src, msaa, px, py, samples[1]));
    } else {
      QuarterOfFour(SampleAt(src, msaa, px, py, 0), SampleAt(src, msaa, px, py, 1),
                    SampleAt(src, msaa, px, py, 2), SampleAt(src, msaa, px, py, 3));
    }
  }

  // ---------------------------------------------------------------- the rectangle

  datatype Rect = Rect(x: int, y: int, width: nat, height: nat)

  /** The source pixel a dispatch starts at, and how many destination pixels it writes. */
  datatype Clip = Clip(x: int, y: int, width: nat, height: nat)

  function Clamped(v: int, lo: int, hi: int): int
    requires lo <= hi
  {
    if v < lo then lo else if v > hi then hi else v
  }

  function Least(a: int, b: int): int { if a < b then a else b }
  function Most(a: int, b: int): int { if a < b then b else a }

  /** One axis: where the clamped rectangle starts and how far it runs; nothing when it is empty. */
  function ClippedAxis(pixels: nat, start: int, length: nat, into: int, room: nat): (r: (int, nat)) {
    var s0 := Clamped(start, 0, pixels);
    var s1 := Clamped(start + length, s0, pixels);
    var end := Least(s1, s0 + Most(0, room - into));
    if into >= room || end <= s0 then (s0, 0) else (s0, end - s0)
  }

  /** A clipped axis holds exactly the pixels asked for that both images have. */
  lemma {:induction false} ClippedAxisIff(pixels: nat, start: int, length: nat, into: int, room: nat, p: int)
    ensures var (s0, n) := ClippedAxis(pixels, start, length, into, room);
            s0 <= p < s0 + n <==>
              0 <= p < pixels && start <= p < start + length && into + (p - Most(0, start)) < room
  {}

  method ClipRectangle(srcWidth: nat, srcHeight: nat, dstWidth: nat, dstHeight: nat, rect: Rect,
                       dstX: int, dstY: int, smp: Sampling)
    returns (clip: Clip)
    requires smp.scaleX > 0 && smp.scaleY > 0
    ensures var (x, w) := ClippedAxis(srcWidth / smp.scaleX, rect.x, rect.width, dstX, dstWidth);
            var (y, h) := ClippedAxis(srcHeight / smp.scaleY, rect.y, rect.height, dstY, dstHeight);
            && (clip.width == 0 || clip.height == 0 <==> w == 0 || h == 0)
            && (w != 0 && h != 0 ==> clip == Clip(x, y, w, h))
    ensures clip.width != 0 && clip.height != 0 ==>
              dstX + clip.width <= dstWidth && dstY + clip.height <= dstHeight
  {
    var pw, ph := srcWidth / smp.scaleX, srcHeight / smp.scaleY;
    var sx0, sy0 := Clamped(rect.x, 0, pw), Clamped(rect.y, 0, ph);
    var sx1 := Clamped(rect.x + rect.width, sx0, pw);
    var sy1 := Clamped(rect.y + rect.height, sy0, ph);
    if dstX >= dstWidth || dstY >= dstHeight {
      return Clip(sx0, sy0, 0, 0);
    }
    sx1 := Least(sx1, sx0 + Most(0, dstWidth - dstX));
    sy1 := Least(sy1, sy0 + Most(0, dstHeight - dstY));
    if sx1 <= sx0 || sy1 <= sy0 {
      return Clip(sx0, sy0, 0, 0);
    }
    return Clip(sx0, sy0, sx1 - sx0, sy1 - sy0);
  }

  // ---------------------------------------------------------------- the dispatch

  /** The source pixel a destination coordinate stands for: a rectangle cut off on the left is moved, not cropped. */
  function SourcePixel(at: int, into: int, start: int): int {
    at - into + Most(0, start)
  }

  /** Whether the copy writes one coordinate of the destination. */
  predicate Copied(pixels: nat, start: int, length: nat, into: int, at: int) {
    var p := SourcePixel(at, into, start);
    at >= into && 0 <= p < pixels && start <= p < start + length
  }

  lemma {:induction false} CopiedIsClipped(pixels: nat, start: int, length: nat, into: int, room: nat, at: int)
    requires at < room
    ensures var (s0, n) := ClippedAxis(pixels, start, length, into, room);
            && (Copied(pixels, start, length, into, at) <==> into <= at < into + n)
            && (Copied(pixels, start, length, into, at) ==> SourcePixel(at, into, start) == s0 + (at - into))
  {}

  lemma {:induction false} WholePixels(extent: nat, scale: nat, p: nat)
    requires scale > 0 && p < extent / scale
    ensures (p + 1) * scale <= extent
  {
    var q := extent / scale;
    assert q * scale <= extent;
    assert (q - (p + 1)) * scale >= 0;
  }

  /** A copy's constant inputs. */
  datatype Copy = Copy(src: Image, smp: Sampling, rect: Rect, dstX: nat, dstY: nat, scale: real, swapRB: bool)
  {
    ghost predicate Valid() {
      src.Valid() && InsidePixel(smp)
    }

    predicate Reaches(x: int, y: int)
      requires smp.scaleX > 0 && smp.scaleY > 0
    {
      && Copied(src.width / smp.scaleX, rect.x, rect.width, dstX, x)
      && Copied(src.height / smp.scaleY, rect.y, rect.height, dstY, y)
    }

    /** The weighed taps of the source pixel a texel stands for. */
    function Taps(x: int, y: int): Color
      requires Valid() && Reaches(x, y)
    {
      var px, py := SourcePixel(x, dstX, rect.x), SourcePixel(y, dstY, rect.y);
      WholePixels(src.width, smp.scaleX, px);
      WholePixels(src.height, smp.scaleY, py);
      Tapped(src, smp, px, py)
    }

    /** What the copy writes to a texel it reaches: the converted taps of the texel's own source pixel. */
    function Texel(x: int, y: int): Color
      requires Valid() && Reaches(x, y)
    {
      Converted(Taps(x, y), scale, swapRB)
    }

    /** What the blit writes there: one texel of the sample grid, at the pixel's coordinates and as it is. */
    function Raw(x: int, y: int): Color
      requires Valid() && Reaches(x, y)
    {
      var px, py := SourcePixel(x, dstX, rect.x), SourcePixel(y, dstY, rect.y);
      InsideGrid(src.width, smp.scaleX, px);
      InsideGrid(src.height, smp.scaleY, py);
      src.At(px, py)
    }
  }

  lemma {:induction false} InsideGrid(extent: nat, scale: nat, p: nat)
    requires scale > 0 && p < extent / scale
    ensures p < extent
  {
    WholePixels(extent, scale, p);
    ScaledUp(p + 1, scale);
  }

  lemma {:induction false} ScaledUp(n: nat, scale: nat)
    requires scale > 0
    ensures n * scale >= n
  {
    if n > 0 {
      ScaledUp(n - 1, scale);
      assert n * scale == (n - 1) * scale + scale;
    }
  }

  lemma {:induction false} ClipIsReached(c: Copy, clip: Clip, dstWidth: nat, dstHeight: nat, x: nat, y: nat)
    requires c.Valid() && x < dstWidth && y < dstHeight
    requires var (sx, w) := ClippedAxis(c.src.width / c.smp.scaleX, c.rect.x, c.rect.width, c.dstX, dstWidth);
             var (sy, h) := ClippedAxis(c.src.height / c.smp.scaleY, c.rect.y, c.rect.height, c.dstY, dstHeight);
             && (clip.width == 0 || clip.height == 0 <==> w == 0 || h == 0)
             && (w != 0 && h != 0 ==> clip == Clip(sx, sy, w, h))
    ensures c.Reaches(x, y) <==>
              clip.width != 0 && clip.height != 0
              && c.dstX <= x < c.dstX + clip.width && c.dstY <= y < c.dstY + clip.height
    ensures c.Reaches(x, y) ==>
              && SourcePixel(x, c.dstX, c.rect.x) == clip.x + (x - c.dstX)
              && SourcePixel(y, c.dstY, c.rect.y) == clip.y + (y - c.dstY)
  {
    CopiedIsClipped(c.src.width / c.smp.scaleX, c.rect.x, c.rect.width, c.dstX, dstWidth, x);
    CopiedIsClipped(c.src.height / c.smp.scaleY, c.rect.y, c.rect.height, c.dstY, dstHeight, y);
  }

  /** The block of constants a dispatch is given, as far as addresses go. */
  datatype PushConstants = PushConstants(srcX: int, srcY: int, dstX: int, dstY: int, width: nat, height: nat,
                                         scaleX: nat, scaleY: nat, sampleX: nat, sampleY: nat, tapX: nat, tapY: nat)

  function PushConstantsFor(c: Copy, clip: Clip): PushConstants {
    PushConstants(clip.x * c.smp.scaleX, clip.y * c.smp.scaleY, c.dstX, c.dstY, clip.width, clip.height,
                  c.smp.scaleX, c.smp.scaleY, c.smp.offsetX, c.smp.offsetY, c.smp.spanX, c.smp.spanY)
  }

  /** The texels that invocations write: one each, to the extent from the destination's offset. */
  predicate Writes(pc: PushConstants, x: int, y: int) {
    pc.dstX <= x < pc.dstX + pc.width && pc.dstY <= y < pc.dstY + pc.height
  }

  /** Where the first tap for a texel falls: the offset, the invocation's steps, and the first sample of its pixel. */
  function TapX(pc: PushConstants, x: int): int { pc.srcX + (x - pc.dstX) * pc.scaleX + pc.sampleX }
  function TapY(pc: PushConstants, y: int): int { pc.srcY + (y - pc.dstY) * pc.scaleY + pc.sampleY }

  /** The four taps for a texel are in the source. */
  predicate TapsInside(src: Image, pc: PushConstants, x: int, y: int) {
    && src.Has(TapX(pc, x), TapY(pc, y)) && src.Has(TapX(pc, x) + pc.tapX, TapY(pc, y))
    && src.Has(TapX(pc, x), TapY(pc, y) + pc.tapY) && src.Has(TapX(pc, x) + pc.tapX, TapY(pc, y) + pc.tapY)
  }

  /** One invocation: four reads, their sum weighed by a quarter, the scale and the swap. */
  function Invoked(src: Image, pc: PushConstants, scale: real, swapRB: bool, x: int, y: int): Color
    requires src.Valid() && TapsInside(src, pc, x, y)
  {
    var sx, sy := TapX(pc, x), TapY(pc, y);
    var sum := Plus(Plus(Plus(src.At(sx, sy), src.At(sx + pc.tapX, sy)), src.At(sx, sy + pc.tapY)),
                    src.At(sx + pc.tapX, sy + pc.tapY));
    Converted(Times(sum, 0.25), scale, swapRB)
  }

  lemma {:induction false} StepsFromOffset(start: int, i: nat, scale: nat)
    ensures start * scale + i * scale == (start + i) * scale
  {}

  /** The invocation's taps are those of the source pixel its texel stands for. */
  lemma {:induction false} InvocationIsTexel(c: Copy, clip: Clip, x: int, y: int)
    requires c.Valid() && c.Reaches(x, y) && c.dstX <= x && c.dstY <= y
    requires SourcePixel(x, c.dstX, c.rect.x) == clip.x + (x - c.dstX)
    requires SourcePixel(y, c.dstY, c.rect.y) == clip.y + (y - c.dstY)
    ensures TapsInside(c.src, PushConstantsFor(c, clip), x, y)
    ensures Invoked(c.src, PushConstantsFor(c, clip), c.scale, c.swapRB, x, y) == c.Texel(x, y)
  {
    var px, py := SourcePixel(x, c.dstX, c.rect.x), SourcePixel(y, c.dstY, c.rect.y);
    WholePixels(c.src.width, c.smp.scaleX, px);
    WholePixels(c.src.height, c.smp.scaleY, py);
    StepsFromOffset(clip.x, x - c.dstX, c.smp.scaleX);
    StepsFromOffset(clip.y, y - c.dstY, c.smp.scaleY);
    TapInside(c.src, c.smp, px, py, c.smp.offsetX, c.smp.offsetY);
    TapInside(c.src, c.smp, px, py, c.smp.offsetX + c.smp.spanX, c.smp.offsetY);
    TapInside(c.src, c.smp, px, py, c.smp.offsetX, c.smp.offsetY + c.smp.spanY);
    TapInside(c.src, c.smp, px, py, c.smp.offsetX + c.smp.spanX, c.smp.offsetY + c.smp.spanY);
  }

  /**
   * The colour copy. Each destination texel in reach holds the converted taps of its own source
   * pixel, all of them inside the source, and every other texel holds what it did. Without the images or
   * the pipeline a dispatch needs, a blit copies unconverted; without a descriptor set nothing is copied.
   */
  method ResolveSurfaceTo(c: Copy, canCompute: bool, sets: nat, used: nat, dst: array2<Color>) returns (usedNow: nat)
    requires c.Valid()
    modifies dst
    ensures forall y, x :: 0 <= y < dst.Length0 && 0 <= x < dst.Length1 ==>
              dst[y, x] == if !c.Reaches(x, y) then old(dst[y, x])
                           else if !canCompute then c.Raw(x, y)
                           else if used < sets then c.Texel(x, y)
                           else old(dst[y, x])
    ensures canCompute && used < sets ==>
              forall y, x :: 0 <= y < dst.Length0 && 0 <= x < dst.Length1 && c.Reaches(x, y) ==>
                dst[y, x] == Channels(c.Taps(x, y), c.scale, c.swapRB)
    ensures usedNow == if canCompute && used < sets
                          && exists y, x :: 0 <= y < dst.Length0 && 0 <= x < dst.Length1 && c.Reaches(x, y)
                       then used + 1 else used
  {
    var clip := ClipRectangle(c.src.width, c.src.height, dst.Length1, dst.Length0, c.rect, c.dstX, c.dstY, c.smp);
    var pc := PushConstantsFor(c, clip);
    forall y: nat, x: nat | y < dst.Length0 && x < dst.Length1
      ensures c.Reaches(x, y) <==> clip.width != 0 && clip.height != 0 && Writes(pc, x, y)
      ensures c.Reaches(x, y) ==>
                && SourcePixel(x, c.dstX, c.rect.x) == clip.x + (x - c.dstX)
                && SourcePixel(y, c.dstY, c.rect.y) == clip.y + (y - c.dstY)
      ensures c.Reaches(x, y) ==>
                TapsInside(c.src, pc, x, y) && Invoked(c.src, pc, c.scale, c.swapRB, x, y) == c.Texel(x, y)
    {
      ClipIsReached(c, clip, dst.Length1, dst.Length0, x, y);
      if c.Reaches(x, y) {
        InvocationIsTexel(c, clip, x, y);
      }
    }
    if clip.width == 0 || clip.height == 0 {
      return used;
    }
    assert c.Reaches(c.dstX, c.dstY);
    if !canCompute {
      Blit(c, clip, dst);
      return used;
    }
    if used >= sets {
      return used;
    }
    Dispatch(c.src, pc, c.scale, c.swapRB, dst);
    forall y: nat, x: nat | y < dst.Length0 && x < dst.Length1 && c.Reaches(x, y)
      ensures dst[y, x] == Channels(c.Taps(x, y), c.scale, c.swapRB)
    {
      ConvertedChannels(c.Taps(x, y), c.scale, c.swapRB);
    }
    return used + 1;
  }

  /** The rectangle copied to the destination offset, texel for texel. */
  method Blit(c: Copy, clip: Clip, dst: array2<Color>)
    requires c.Valid() && c.dstX + clip.width <= dst.Length1 && c.dstY + clip.height <= dst.Length0
    requires forall y: nat, x: nat :: y < dst.Length0 && x < dst.Length1 ==>
               (c.Reaches(x, y) <==> Writes(PushConstantsFor(c, clip), x, y))
    requires forall y: nat, x: nat :: y < dst.Length0 && x < dst.Length1 && c.Reaches(x, y) ==>
               && SourcePixel(x, c.dstX, c.rect.x) == clip.x + (x - c.dstX)
               && SourcePixel(y, c.dstY, c.rect.y) == clip.y + (y - c.dstY)
    modifies dst
    ensures forall y, x :: 0 <= y < dst.Length0 && 0 <= x < dst.Length1 ==>
              dst[y, x] == if c.Reaches(x, y) then c.Raw(x, y) else old(dst[y, x])
  {
    forall y: nat, x: nat | y < dst.Length0 && x < dst.Length1 && c.Reaches(x, y)
      ensures c.src.Has(clip.x + (x - c.dstX), clip.y + (y - c.dstY))
      ensures c.src.At(clip.x + (x - c.dstX), clip.y + (y - c.dstY)) == c.Raw(x, y)
    {
      InsideGrid(c.src.width, c.smp.scaleX, SourcePixel(x, c.dstX, c.rect.x));
      InsideGrid(c.src.height, c.smp.scaleY, SourcePixel(y, c.dstY, c.rect.y));
    }
    forall y, x | 0 <= y < dst.Length0 && 0 <= x < dst.Length1 && Writes(PushConstantsFor(c, clip), x, y) {
      dst[y, x] := c.src.At(clip.x + (x - c.dstX), clip.y + (y - c.dstY));
    }
  }

  /** One invocation for every destination texel of the extent. */
  method Dispatch(src: Image, pc: PushConstants, scale: real, swapRB: bool, dst: array2<Color>)
    requires src.Valid() && 0 <= pc.dstX && 0 <= pc.dstY
    requires pc.dstX + pc.width <= dst.Length1 && pc.dstY + pc.height <= dst.Length0
    requires forall y, x :: Writes(pc, x, y) ==> TapsInside(src, pc, x, y)
    modifies dst
    ensures forall y, x :: 0 <= y < dst.Length0 && 0 <= x < dst.Length1 ==>
              dst[y, x] == if Writes(pc, x, y) then Invoked(src, pc, scale, swapRB, x, y) else old(dst[y, x])
  {
    forall y, x | 0 <= y < dst.Length0 && 0 <= x < dst.Length1 && Writes(pc, x, y) {
      dst[y, x] := Invoked(src, pc, scale, swapRB, x, y);
    }
  }

  /**
   * With the sampling the registers ask for, what reaches the destination is, channel by channel, the scaled mean
   * of exactly the samples selected, of the one source pixel the destination texel stands for: red and blue
   * change places when a swap is asked for, and green and alpha never do.
   */
  lemma {:induction false} TexelIsMeanOfSelected(c: Copy, msaa: nat, select: nat, isDepth: bool, x: int, y: int)
    requires c.src.Valid() && msaa < 4
    requires c.smp.scaleX == MsaaScaleX(msaa) && c.smp.scaleY == MsaaScaleY(msaa)
    requires Names(c.smp, Selected(msaa, select, isDepth)) && c.Reaches(x, y)
    ensures c.Valid()
    ensures var px, py := SourcePixel(x, c.dstX, c.rect.x), SourcePixel(y, c.dstY, c.rect.y);
            && PixelInside(c.src, c.smp, px, py)
            && c.Texel(x, y) == Channels(MeanOfSelected(c.src, msaa, select, isDepth, px, py), c.scale, c.swapRB)
  {
    TapsAreMeanOf(c, msaa, select, isDepth, x, y);
    ConvertedChannels(c.Taps(x, y), c.scale, c.swapRB);
  }

  lemma {:induction false} TapsAreMeanOf(c: Copy, msaa: nat, select: nat, isDepth: bool, x: int, y: int)
    requires c.src.Valid() && msaa < 4
    requires c.smp.scaleX == MsaaScaleX(msaa) && c.smp.scaleY == MsaaScaleY(msaa)
    requires Names(c.smp, Selected(msaa, select, isDepth)) && c.Reaches(x, y)
    ensures c.Valid()
    ensures var px, py := SourcePixel(x, c.dstX, c.rect.x), SourcePixel(y, c.dstY, c.rect.y);
            PixelInside(c.src, c.smp, px, py) && c.Taps(x, y) == MeanOfSelected(c.src, msaa, select, isDepth, px, py)
  {
    SelectedStaysInside(msaa, select, isDepth, c.smp);
    var px, py := SourcePixel(x, c.dstX, c.rect.x), SourcePixel(y, c.dstY, c.rect.y);
    WholePixels(c.src.width, c.smp.scaleX, px);
    WholePixels(c.src.height, c.smp.scaleY, py);
    TapsAreMean(c.src, msaa, select, isDepth, c.smp, px, py);
  }
}

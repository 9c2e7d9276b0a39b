/**
 * Short frames, every conversion and pass of which succeeds, that end apart from the console.
 */
module EdramFailures {
  import opened Wrappers
  import opened EdramFormats
  import opened HostContainers
  import opened FrameRecording
  import opened EdramConsole
  import opened EdramRefinement
  import SurfaceTargets

  /** Source ONE, destination ZERO, ADD, on colour and alpha. */
  const Opaque: nat := 0x1_0001

  /** A draw that fills its surface with one colour and leaves its depth buffer alone. */
  function Fill(base: nat, colorFormat: nat, color: Color, depthBase: nat): Entry {
    Draw(Single(base), colorFormat, 15, true, Opaque, depthBase, true, (i: nat, c: Color, w: Word) => color, (i: nat, w: Word) => None)
  }

  /** A draw that fills its depth buffer with one word and draws no colour. */
  function FillDepth(base: nat, colorFormat: nat, depthBase: nat, word: Word): Entry {
    Draw(Single(base), colorFormat, 0, true, Opaque, depthBase, true, (i: nat, c: Color, w: Word) => c, (i: nat, w: Word) => Some(word))
  }

  function Copy(base: nat, sourceFormat: nat, colorClear: Option<Word>): Entry {
    Resolve(Single(base), sourceFormat, false, true, true, (i: nat) => true, colorClear, 0, None, true)
  }

  /** A surface filled with one colour, as the first draw of a frame. */
  ghost predicate FilledWith(cfg: Config, s: Recording, base: nat, format: nat, color: Color) {
    && SurfaceAt(cfg, s, Single(base)).begun
    && SurfaceAt(cfg, s, Single(base)).format == Some(format)
    && SurfaceAt(cfg, s, Single(base)).image == seq(cfg.pixels, _ => color)
    && s.counters == NoCounts && s.copies == []
  }

  lemma {:induction false} FirstFill(cfg: Config, base: nat, format: nat, color: Color, depthBase: nat)
    requires base != depthBase && format < 4 && StoreIn(cfg.hostOf(Single(base)), color) == color
    ensures FilledWith(cfg, AfterEntry(cfg, FrameStart, Fill(base, format, color, depthBase), 0), base, format, color)
  {
    var e := Fill(base, format, color, depthBase);
    assert StorageColorFormat(format) == format;
    assert AfterFormatChange(cfg, FrameStart, e) == FrameStart;
    var s2 := AfterBeginPass(cfg, FrameStart, Single(base), depthBase);
    assert AfterDraw(cfg, FrameStart, e, 0) == AfterDrawCall(cfg, s2, e, 0);
    var image := SurfaceAt(cfg, AfterDrawCall(cfg, s2, e, 0), Single(base)).image;
    assert |image| == cfg.pixels;
    assert image == seq(cfg.pixels, _ => color);
  }

  lemma {:induction false} TwoRecorded(cfg: Config, e0: Entry, e1: Entry)
    ensures Recorded(cfg, [e0, e1], 2) == AfterEntry(cfg, AfterEntry(cfg, FrameStart, e0, 0), e1, 1)
  {
    assert Recorded(cfg, [e0, e1], 1) == AfterEntry(cfg, FrameStart, e0, 0);
  }

  lemma {:induction false} TwoOnConsole(m: Memory, e0: Entry, e1: Entry)
    ensures ConsoleAfter(m, [e0, e1], 2) == ConsoleStep(ConsoleStep(m, e0), e1)
    ensures ConsoleAfter(m, [e0, e1], 1) == ConsoleStep(m, e0)
  {
    assert ConsoleAfter(m, [e0, e1], 1) == ConsoleStep(m, e0);
  }

  const RedOpaque := Color(1.0, 0.0, 0.0, 1.0)

  lemma {:induction false} RedOpaqueWord()
    ensures Pack(RedOpaque, 0) == 0xFF00_00FF
    ensures StoreIn(SurfaceTargets.R8G8B8A8Unorm, RedOpaque) == RedOpaque
  {
    assert ToUnorm(1.0, 255) == 255 && ToUnorm(0.0, 255) == 0;
  }

  /**
   * A surface filled with opaque red in format 0 and then copied with a zero colour clear: nothing is refused,
   * the host still holds the red, and the console holds zero.
   */
  lemma {:induction false} ClearedFrameFails(cfg: Config, m: Memory, base: nat, depthBase: nat)
    requires base != depthBase && cfg.pixels > 0 && |m(base)| == cfg.pixels
    requires cfg.hostOf(Single(base)) == SurfaceTargets.R8G8B8A8Unorm
    ensures var entries := [Fill(base, 0, RedOpaque, depthBase), Copy(base, 0, Some(0))];
            var s, surface := Recorded(cfg, entries, 2), SurfaceAt(cfg, Recorded(cfg, entries, 2), Single(base));
            && s.counters == NoCounts && surface.begun && surface.format == Some(0) && |surface.image| == cfg.pixels
            && Pack(surface.image[0], 0) == 0xFF00_00FF
            && |ConsoleAfter(m, entries, 2)(base)| == cfg.pixels && ConsoleAfter(m, entries, 2)(base)[0] == 0
  {
    var fill, copy := Fill(base, 0, RedOpaque, depthBase), Copy(base, 0, Some(0));
    RedOpaqueWord();
    FirstFill(cfg, base, 0, RedOpaque, depthBase);
    TwoRecorded(cfg, fill, copy);
    TwoOnConsole(m, fill, copy);
    var s1 := AfterEntry(cfg, FrameStart, fill, 0);
    assert CopiesColor(cfg, s1, copy);
    SplitWords(fill, m);
    ConsoleStepClears(ConsoleStep(m, fill), copy);
  }

  lemma {:induction false} ConsoleStepClears(m: Memory, e: Entry)
    requires e.Resolve? && e.colorClear.Some? && e.depthClear.None?
    ensures ConsoleStep(m, e)(e.key.base) == ClearedWords(e, e.colorClear.value, m(e.key.base))
  {}

  /** Red in full with three levels of green, whose word reads as 31.875 in the 7e3 format. */
  const Amber := Color(1.0, 3.0 / 255.0, 0.0, 0.0)

  lemma {:induction false} AmberWord()
    ensures Pack(Amber, 0) == 1023
    ensures StoreIn(SurfaceTargets.R8G8B8A8Unorm, Amber) == Amber
    ensures Reinterpret(Amber, 0, 3).r == 31.875
    ensures StoreIn(SurfaceTargets.R8G8B8A8Unorm, Reinterpret(Amber, 0, 3)).r == 1.0
  {
    assert ToUnorm(1.0, 255) == 255 && ToUnorm(0.0, 255) == 0 && ToUnorm(3.0 / 255.0, 255) == 3;
    assert Fields10(1023) == (1023, 0, 0, 0);
    TopOfFloat();
    assert ToUnorm(31.875, 255) == 255;
  }

  /**
   * A surface drawn in format 0 alone lives in an 8-bit image. A copy that reads it as 7e3 converts it there:
   * nothing is refused, the console's copy reads 31.875, and the host's reads one.
   */
  lemma {:induction false} NarrowCopyFails(cfg: Config, m: Memory, base: nat, depthBase: nat)
    requires base != depthBase && cfg.pixels > 0 && |m(base)| == cfg.pixels && cfg.convertSets > 0
    requires cfg.hostOf(Single(base)) == SurfaceTargets.HostFormatFor({0})
    ensures var entries := [Fill(base, 0, Amber, depthBase), Copy(base, 3, None)];
            var s := Recorded(cfg, entries, 2);
            && s.counters.refused == 0 && s.counters.outOfSets == 0
            && |s.copies| == 1 && s.copies[0].ColorCopied? && s.copies[0].format == 3
            && |s.copies[0].image| == cfg.pixels && s.copies[0].image[0].r == 1.0
            && |ConsoleAfter(m, entries, 1)(base)| == cfg.pixels
            && Unpack(ConsoleAfter(m, entries, 1)(base)[0], 3).r == 31.875
  {
    assert SurfaceTargets.IsSingle({0});
    var fill, copy := Fill(base, 0, Amber, depthBase), Copy(base, 3, None);
    AmberWord();
    FirstFill(cfg, base, 0, Amber, depthBase);
    TwoRecorded(cfg, fill, copy);
    TwoOnConsole(m, fill, copy);
    FillOnConsole(m, base, 0, Amber, depthBase);
    var s1 := AfterEntry(cfg, FrameStart, fill, 0);
    CopyAfterFill(cfg, s1, base, 3, None);
    NarrowCopy(cfg, AfterEndPass(s1), copy);
  }

  lemma {:induction false} NarrowCopy(cfg: Config, s: Recording, e: Entry)
    requires e.Resolve? && e.sourceFormat == 3 && cfg.convertSets > 0 && cfg.pixels > 0
    requires FilledWith(cfg, s, e.key.base, 0, Amber) && e.key == Single(e.key.base)
    requires cfg.hostOf(e.key) == SurfaceTargets.R8G8B8A8Unorm
    ensures var s' := AfterColorCopy(cfg, s, e, 1);
            && s'.counters.refused == 0 && s'.counters.outOfSets == 0
            && |s'.copies| == 1 && s'.copies[0].ColorCopied? && s'.copies[0].format == 3
            && |s'.copies[0].image| == cfg.pixels && s'.copies[0].image[0].r == 1.0
  {
    AmberWord();
    var s1 := AfterCopyFormat(cfg, s, e);
    assert SurfaceAt(cfg, s1, e.key).image
        == ConvertImage(SurfaceTargets.R8G8B8A8Unorm, SurfaceAt(cfg, s, e.key).image, 0, 3);
  }

  /**
   * A surface filled with opaque red at one base, then a draw elsewhere whose depth buffer starts at that base and
   * is filled with zero: the host still holds the red, and the console holds zero.
   */
  lemma {:induction false} CrossDepthFails(cfg: Config, m: Memory, base: nat, depthBase: nat, other: nat)
    requires base != depthBase && base != other && cfg.pixels > 0 && |m(base)| == cfg.pixels
    requires cfg.hostOf(Single(base)) == SurfaceTargets.R8G8B8A8Unorm
    ensures var entries := [Fill(base, 0, RedOpaque, depthBase), FillDepth(other, 0, base, 0)];
            var surface := SurfaceAt(cfg, Recorded(cfg, entries, 2), Single(base));
            && surface.begun && surface.format == Some(0) && |surface.image| == cfg.pixels
            && Pack(surface.image[0], 0) == 0xFF00_00FF
            && |ConsoleAfter(m, entries, 2)(base)| == cfg.pixels && ConsoleAfter(m, entries, 2)(base)[0] == 0
  {
    var fill, depth := Fill(base, 0, RedOpaque, depthBase), FillDepth(other, 0, base, 0);
    RedOpaqueWord();
    FirstFill(cfg, base, 0, RedOpaque, depthBase);
    TwoRecorded(cfg, fill, depth);
    TwoOnConsole(m, fill, depth);
    SplitWords(fill, m);
    SplitWords(depth, ConsoleStep(m, fill));
    var s1 := AfterEntry(cfg, FrameStart, fill, 0);
    OtherSurfaceStays(cfg, s1, depth, 1, Single(base));
  }

  lemma {:induction false} FormatChangeElsewhere(cfg: Config, s: Recording, e: Entry, key: Key)
    requires e.Draw? && key != e.key
    ensures SurfaceAt(cfg, AfterFormatChange(cfg, s, e), key) == SurfaceAt(cfg, s, key)
  {}

  lemma {:induction false} CallElsewhere(cfg: Config, s: Recording, e: Entry, index: nat, key: Key)
    requires e.Draw? && key != e.key
    ensures SurfaceAt(cfg, AfterDrawCall(cfg, s, e, index), key) == SurfaceAt(cfg, s, key)
    ensures SurfaceAt(cfg, AfterAlias(cfg, AfterEndPass(AfterDrawCall(cfg, s, e, index)), e), key) == SurfaceAt(cfg, s, key)
  {
    AliasPass(cfg, AfterDrawCall(cfg, s, e, index), e);
  }

  lemma {:induction false} PassElsewhere(cfg: Config, s: Recording, e: Entry, key: Key)
    requires e.Draw? && key != e.key
    ensures SurfaceAt(cfg, AfterBeginPass(cfg, AfterEndPass(s), e.key, e.depthBase), key) == SurfaceAt(cfg, s, key)
  {}

  lemma {:induction false} OtherSurfaceStays(cfg: Config, s: Recording, e: Entry, index: nat, key: Key)
    requires e.Draw? && key != e.key
    ensures SurfaceAt(cfg, AfterDraw(cfg, s, e, index), key) == SurfaceAt(cfg, s, key)
  {
    FormatChangeElsewhere(cfg, s, e, key);
    PassElsewhere(cfg, AfterFormatChange(cfg, s, e), e, key);
    CallElsewhere(cfg, BeforeCall(cfg, s, e), e, index, key);
  }

  lemma {:induction false} FillOnConsole(m: Memory, base: nat, format: nat, color: Color, depthBase: nat)
    requires base != depthBase && format < 4 && |m(base)| > 0
    ensures |ConsoleStep(m, Fill(base, format, color, depthBase))(base)| == |m(base)|
    ensures ConsoleStep(m, Fill(base, format, color, depthBase))(base)[0] == Pack(color, format)
  {
    var e := Fill(base, format, color, depthBase);
    SplitWords(e, m);
    assert DrawFormat(e) == format && WritesColor(e);
    assert DrawnWords(e, m(base), m(depthBase))[0]
        == Pack(e.effect(0, Unpack(m(base)[0], format), At(m(depthBase), 0)), format);
  }

  lemma {:induction false} CopyAfterFill(cfg: Config, s: Recording, base: nat, sourceFormat: nat, clear: Option<Word>)
    requires FilledWith(cfg, s, base, 0, Amber)
    ensures AfterEntry(cfg, s, Copy(base, sourceFormat, clear), 1)
         == AfterColorCopy(cfg, AfterEndPass(s), Copy(base, sourceFormat, clear), 1)
    ensures FilledWith(cfg, AfterEndPass(s), base, 0, Amber)
  {
    assert SurfaceAt(cfg, AfterEndPass(s), Single(base)) == SurfaceAt(cfg, s, Single(base));
  }

  // ---------------------------------------------------------------- depth

  /**
   * One draw of opaque red whose depth buffer shares its surface's base and which writes no depth: the alias pass
   * leaves the depth buffer's clear word, and the console has the red.
   */
  lemma {:induction false} AliasFails(cfg: Config, m: Memory, base: nat)
    requires cfg.aliasReady && cfg.aliasSets > 0 && cfg.pixels > 0 && |m(base)| == cfg.pixels
    requires cfg.hostOf(Single(base)) == SurfaceTargets.R8G8B8A8Unorm
    ensures var entries := [Fill(base, 0, RedOpaque, base)];
            var surface := SurfaceAt(cfg, Recorded(cfg, entries, 1), Single(base));
            && surface.begun && surface.format == Some(0) && |surface.image| == cfg.pixels
            && Pack(surface.image[0], 0) == cfg.depthClear
            && |ConsoleAfter(m, entries, 1)(base)| == cfg.pixels && ConsoleAfter(m, entries, 1)(base)[0] == 0xFF00_00FF
  {
    RedOpaqueWord();
    AliasedOnHost(cfg, base);
    FilledOnConsole(m, base);
  }

  lemma {:induction false} AliasedOnHost(cfg: Config, base: nat)
    requires cfg.aliasReady && cfg.aliasSets > 0 && cfg.pixels > 0
    requires cfg.hostOf(Single(base)) == SurfaceTargets.R8G8B8A8Unorm
    ensures var surface := SurfaceAt(cfg, Recorded(cfg, [Fill(base, 0, RedOpaque, base)], 1), Single(base));
            && surface.begun && surface.format == Some(0) && |surface.image| == cfg.pixels
            && Pack(surface.image[0], 0) == cfg.depthClear
  {
    var e := Fill(base, 0, RedOpaque, base);
    assert AfterFormatChange(cfg, FrameStart, e) == FrameStart;
    var s3 := AfterDrawCall(cfg, AfterBeginPass(cfg, FrameStart, Single(base), base), e, 0);
    FirstDepthIsClear(cfg, base);
    AliasPass(cfg, s3, e);
    assert Recorded(cfg, [e], 1) == AfterAlias(cfg, AfterEndPass(s3), e);
    ClearReadsBack(cfg);
  }

  lemma {:induction false} FirstDepthIsClear(cfg: Config, base: nat)
    ensures var s3 := AfterDrawCall(cfg, AfterBeginPass(cfg, FrameStart, Single(base), base), Fill(base, 0, RedOpaque, base), 0);
            Single(base) in s3.depths && s3.depths[Single(base)] == Filled(cfg, cfg.depthClear)
  {
    assert ShadeDepth(Fill(base, 0, RedOpaque, base), Filled(cfg, cfg.depthClear)) == Filled(cfg, cfg.depthClear);
  }

  lemma {:induction false} ClearReadsBack(cfg: Config)
    requires cfg.pixels > 0
    ensures var image := UnpackImage(SurfaceTargets.R8G8B8A8Unorm, Filled(cfg, cfg.depthClear), 0);
            |image| == cfg.pixels && Pack(image[0], 0) == cfg.depthClear
  {
    OwnContainerHolds(SurfaceTargets.R8G8B8A8Unorm, 0);
    PackInvertsUnpack(cfg.depthClear, 0);
  }

  lemma {:induction false} FilledOnConsole(m: Memory, base: nat)
    requires |m(base)| > 0
    ensures var after := ConsoleAfter(m, [Fill(base, 0, RedOpaque, base)], 1)(base);
            |after| == |m(base)| && after[0] == Pack(RedOpaque, 0)
  {
    var e := Fill(base, 0, RedOpaque, base);
    SharedWords(e, m);
    assert ConsoleAfter(m, [e], 1) == ConsoleStep(m, e);
    var drawn := DrawnWords(e, m(base), m(base));
    assert DrawFormat(e) == 0 && WritesColor(e);
    assert drawn[0] == Pack(e.effect(0, Unpack(m(base)[0], 0), At(m(base), 0)), 0);
    assert DepthOver(e, m(base), drawn)[0] == DepthLeft(e, 0, At(m(base), 0), drawn[0]);
  }

  /**
   * A depth buffer filled with a word, then a surface's first draw beside it: the surface's clearing pass leaves the
   * depth buffer's clear word, and the console has what was stored.
   */
  lemma {:induction false} WipedDepthFails(cfg: Config, m: Memory, base: nat, other: nat, depthBase: nat, word: Word)
    requires base != other && base != depthBase && other != depthBase && cfg.pixels > 0 && |m(depthBase)| == cfg.pixels
    ensures var entries := [FillDepth(other, 0, depthBase, word), Fill(base, 0, RedOpaque, depthBase)];
            var s := Recorded(cfg, entries, 2);
            && Single(depthBase) in s.depths && |s.depths[Single(depthBase)]| == cfg.pixels
            && s.depths[Single(depthBase)][0] == cfg.depthClear
            && |ConsoleAfter(m, entries, 2)(depthBase)| == cfg.pixels && ConsoleAfter(m, entries, 2)(depthBase)[0] == word
  {
    var depth, fill := FillDepth(other, 0, depthBase, word), Fill(base, 0, RedOpaque, depthBase);
    TwoRecorded(cfg, depth, fill);
    TwoOnConsole(m, depth, fill);
    SplitWords(depth, m);
    SplitWords(fill, ConsoleStep(m, depth));
    var s1 := AfterEntry(cfg, FrameStart, depth, 0);
    OtherSurfaceStays(cfg, FrameStart, depth, 0, Single(base));
    FirstPassClearsDepth(cfg, s1, fill, 1);
  }

  lemma {:induction false} FirstPassClearsDepth(cfg: Config, s: Recording, e: Entry, index: nat)
    requires e.Draw? && e.passAvailable && !SurfaceAt(cfg, s, e.key).begun && e.depthBase != e.key.base
    requires s.pass.Open? ==> s.pass.key != e.key
    requires forall i: nat, w :: e.depthEffect(i, w).None?
    ensures DepthKey(e) in AfterDraw(cfg, s, e, index).depths
    ensures AfterDraw(cfg, s, e, index).depths[DepthKey(e)] == Filled(cfg, cfg.depthClear)
  {
    UnbegunUnmet(cfg, s, e);
    var s2 := AfterBeginPass(cfg, AfterEndPass(s), e.key, e.depthBase);
    assert s2.depths[DepthKey(e)] == Filled(cfg, cfg.depthClear);
    assert ShadeDepth(e, Filled(cfg, cfg.depthClear)) == Filled(cfg, cfg.depthClear);
  }

  // ---------------------------------------------------------------- draws on a surface already drawn

  /** The image after a draw on a surface that has begun, and the format it is left in. */
  lemma {:induction false} DrawnOn(cfg: Config, s: Recording, e: Entry, index: nat)
    requires e.Draw? && e.passAvailable && SurfaceAt(cfg, s, e.key).begun && e.depthBase != e.key.base
    requires SurfaceAt(cfg, AfterFormatChange(cfg, s, e), e.key).begun
    requires SurfaceAt(cfg, AfterFormatChange(cfg, s, e), e.key).format.Some?
    ensures var now, met := SurfaceAt(cfg, AfterDraw(cfg, s, e, index), e.key), SurfaceAt(cfg, AfterFormatChange(cfg, s, e), e.key);
            && now.begun && now.format == met.format
            && now.image == Shade(cfg.hostOf(e.key), e, met.image, DepthAt(cfg, BeforeCall(cfg, s, e), DepthKey(e)))
  {
    var s1, s2 := AfterFormatChange(cfg, s, e), BeforeCall(cfg, s, e);
    assert SurfaceAt(cfg, s2, e.key) == SurfaceAt(cfg, s1, e.key);
  }

  /** Two draws on one base, with a depth buffer elsewhere that neither touches: the console's word of the first pixel. */
  lemma {:induction false} SecondOnConsole(m: Memory, base: nat, format: nat, color: Color, depthBase: nat, e: Entry)
    requires base != depthBase && format < 4 && |m(base)| > 0
    requires e.Draw? && e.key == Single(base) && e.depthBase == depthBase && WritesColor(e)
    ensures var after := ConsoleAfter(m, [Fill(base, format, color, depthBase), e], 2)(base);
            && |after| == |m(base)|
            && exists w :: after[0] == Pack(e.effect(0, Unpack(Pack(color, format), DrawFormat(e)), w), DrawFormat(e))
  {
    var fill := Fill(base, format, color, depthBase);
    TwoOnConsole(m, fill, e);
    FillOnConsole(m, base, format, color, depthBase);
    var m1 := ConsoleStep(m, fill);
    SplitWords(e, m1);
    assert DrawnWords(e, m1(base), m1(depthBase))[0]
        == Pack(e.effect(0, Unpack(m1(base)[0], DrawFormat(e)), At(m1(depthBase), 0)), DrawFormat(e));
  }

  /** The same two draws in the host's image, where the second converts nothing and leaves the surface in this format. */
  lemma {:induction false} SecondOnHost(cfg: Config, base: nat, format: nat, color: Color, depthBase: nat, e: Entry, kept: nat)
    requires base != depthBase && format < 4 && cfg.pixels > 0 && StoreIn(cfg.hostOf(Single(base)), color) == color
    requires e.Draw? && e.key == Single(base) && e.depthBase == depthBase && WritesColor(e) && e.passAvailable
    requires || kept == format == DrawFormat(e)
             || (format != DrawFormat(e) && if BlendIsIdentity(e.blend0) then kept == DrawFormat(e)
                                            else kept == format && cfg.convertSets == 0)
    ensures var surface := SurfaceAt(cfg, Recorded(cfg, [Fill(base, format, color, depthBase), e], 2), Single(base));
            && surface.begun && surface.format == Some(kept) && |surface.image| == cfg.pixels
            && exists w :: surface.image[0] == StoreIn(cfg.hostOf(Single(base)), e.effect(0, color, w))
  {
    var fill := Fill(base, format, color, depthBase);
    FirstFill(cfg, base, format, color, depthBase);
    TwoRecorded(cfg, fill, e);
    var s := AfterEntry(cfg, FrameStart, fill, 0);
    NothingConverted(cfg, s, base, format, color, e, kept);
    DrawnOn(cfg, s, e, 1);
    var depth := DepthAt(cfg, BeforeCall(cfg, s, e), DepthKey(e));
    assert Shade(cfg.hostOf(e.key), e, SurfaceAt(cfg, s, e.key).image, depth)[0]
        == StoreIn(cfg.hostOf(e.key), e.effect(0, color, At(depth, 0)));
  }

  lemma {:induction false} NothingConverted(cfg: Config, s: Recording, base: nat, format: nat, color: Color, e: Entry, kept: nat)
    requires e.Draw? && e.key == Single(base) && WritesColor(e) && FilledWith(cfg, s, base, format, color)
    requires || kept == format == DrawFormat(e)
             || (format != DrawFormat(e) && if BlendIsIdentity(e.blend0) then kept == DrawFormat(e)
                                            else kept == format && cfg.convertSets == 0)
    ensures SurfaceAt(cfg, AfterFormatChange(cfg, s, e), e.key) == SurfaceAt(cfg, s, e.key).(format := Some(kept))
  {}

  /** An opaque draw of another format that leaves the first pixel alone. */
  function AllButFirst(base: nat, colorFormat: nat, depthBase: nat): Entry {
    Draw(Single(base), colorFormat, 15, true, Opaque, depthBase, true,
         (i: nat, c: Color, w: Word) => if i == 0 then c else Black, (i: nat, w: Word) => None)
  }

  lemma {:induction false} RedOpaqueInTens()
    ensures Pack(RedOpaque, 2) == 0xC000_03FF
  {
    assert ToUnorm(1.0, 1023) == 1023 && ToUnorm(0.0, 1023) == 0 && ToUnorm(1.0, 3) == 3;
  }

  /**
   * A base drawn in two formats, red in the 8-bit one and then, all but its first pixel, opaquely in the 10-bit one:
   * the first pixel is relabelled, so that the host has red under the second format and the console what it had.
   */
  lemma {:induction false} RelabelFails(cfg: Config, m: Memory, base: nat, depthBase: nat)
    requires base != depthBase && cfg.pixels > 0 && |m(base)| == cfg.pixels
    requires cfg.hostOf(Single(base)) == SurfaceTargets.HostFormatFor({0, 2})
    ensures var entries := [Fill(base, 0, RedOpaque, depthBase), AllButFirst(base, 2, depthBase)];
            var surface := SurfaceAt(cfg, Recorded(cfg, entries, 2), Single(base));
            && surface.begun && surface.format == Some(2) && |surface.image| == cfg.pixels
            && Pack(surface.image[0], 2) == 0xC000_03FF
            && |ConsoleAfter(m, entries, 2)(base)| == cfg.pixels && ConsoleAfter(m, entries, 2)(base)[0] == 0xFF00_00FF
  {
    MixedImageIsFloat({0, 2}, 0, 2);
    RedOpaqueWord();
    RedOpaqueInTens();
    RelabelledOnHost(cfg, base, depthBase);
    LeftOnConsole(m, base, depthBase);
  }

  lemma {:induction false} RelabelledOnHost(cfg: Config, base: nat, depthBase: nat)
    requires base != depthBase && cfg.pixels > 0 && cfg.hostOf(Single(base)) == SurfaceTargets.R16G16B16A16Sfloat
    ensures var surface := SurfaceAt(cfg, Recorded(cfg, [Fill(base, 0, RedOpaque, depthBase), AllButFirst(base, 2, depthBase)], 2),
                                     Single(base));
            surface.begun && surface.format == Some(2) && |surface.image| == cfg.pixels && surface.image[0] == RedOpaque
  {
    var e := AllButFirst(base, 2, depthBase);
    LeavesFirst(e, base, depthBase);
    SecondOnHost(cfg, base, 0, RedOpaque, depthBase, e, 2);
  }

  lemma {:induction false} LeavesFirst(e: Entry, base: nat, depthBase: nat)
    requires e == AllButFirst(base, 2, depthBase)
    ensures DrawFormat(e) == 2 && WritesColor(e) && BlendIsIdentity(e.blend0) && e.passAvailable
    ensures e.key == Single(base) && e.depthBase == depthBase
    ensures forall c, w :: e.effect(0, c, w) == c
  {}

  lemma {:induction false} LeftOnConsole(m: Memory, base: nat, depthBase: nat)
    requires base != depthBase && |m(base)| > 0
    ensures var after := ConsoleAfter(m, [Fill(base, 0, RedOpaque, depthBase), AllButFirst(base, 2, depthBase)], 2)(base);
            |after| == |m(base)| && after[0] == Pack(RedOpaque, 0)
  {
    SecondOnConsole(m, base, 0, RedOpaque, depthBase, AllButFirst(base, 2, depthBase));
    PackInvertsUnpack(Pack(RedOpaque, 0), 2);
  }

  /** Source colour times zero, the destination's times a factor of three quarters, on every pixel. */
  function Fade(base: nat, colorFormat: nat, depthBase: nat): Entry {
    Draw(Single(base), colorFormat, 15, true, 0, depthBase, true,
         (i: nat, c: Color, w: Word) => Color(0.75 * c.r, 0.75 * c.g, 0.75 * c.b, 0.75 * c.a), (i: nat, w: Word) => None)
  }

  const HalfAlpha := Color(0.0, 0.0, 0.0, 0.5)

  lemma {:induction false} HalfAlphaWords()
    ensures Pack(HalfAlpha, 3) == 0x8000_0000
    ensures Unpack(0x8000_0000, 3) == Color(0.0, 0.0, 0.0, 2.0 / 3.0)
    ensures Pack(Color(0.0, 0.0, 0.0, 0.375), 3) == 0x4000_0000
    ensures Pack(Color(0.0, 0.0, 0.0, 0.5), 3) == 0x8000_0000
  {
    SelfTestFloat(0, 0.0);
    PackIsJoin(HalfAlpha);
    PackIsJoin(Color(0.0, 0.0, 0.0, 0.375));
    assert ToUnorm(0.5, 3) == 2 && ToUnorm(0.375, 3) == 1;
    assert Fields10(0x8000_0000) == (0, 0, 0, 2);
  }

  /**
   * A 7e3 surface, whose alpha has two bits, filled with alpha one half and then faded by three quarters: the
   * console rounds between the two draws and the host does not.
   */
  lemma {:induction false} RoundedReadFails(cfg: Config, m: Memory, base: nat, depthBase: nat)
    requires base != depthBase && cfg.pixels > 0 && |m(base)| == cfg.pixels
    requires cfg.hostOf(Single(base)) == SurfaceTargets.HostFormatFor({3})
    ensures var entries := [Fill(base, 3, HalfAlpha, depthBase), Fade(base, 3, depthBase)];
            var surface := SurfaceAt(cfg, Recorded(cfg, entries, 2), Single(base));
            && surface.begun && surface.format == Some(3) && |surface.image| == cfg.pixels
            && Pack(surface.image[0], 3) == 0x4000_0000
            && |ConsoleAfter(m, entries, 2)(base)| == cfg.pixels && ConsoleAfter(m, entries, 2)(base)[0] == 0x8000_0000
  {
    assert SurfaceTargets.IsSingle({3});
    HalfAlphaWords();
    FadedOnHost(cfg, base, depthBase);
    FadedOnConsole(m, base, depthBase);
  }

  lemma {:induction false} FadedOnHost(cfg: Config, base: nat, depthBase: nat)
    requires base != depthBase && cfg.pixels > 0 && cfg.hostOf(Single(base)) == SurfaceTargets.R16G16B16A16Sfloat
    ensures var surface := SurfaceAt(cfg, Recorded(cfg, [Fill(base, 3, HalfAlpha, depthBase), Fade(base, 3, depthBase)], 2),
                                     Single(base));
            && surface.begun && surface.format == Some(3) && |surface.image| == cfg.pixels
            && surface.image[0] == Color(0.0, 0.0, 0.0, 0.375)
  {
    SecondOnHost(cfg, base, 3, HalfAlpha, depthBase, Fade(base, 3, depthBase), 3);
  }

  lemma {:induction false} FadedOnConsole(m: Memory, base: nat, depthBase: nat)
    requires base != depthBase && |m(base)| > 0
    ensures var after := ConsoleAfter(m, [Fill(base, 3, HalfAlpha, depthBase), Fade(base, 3, depthBase)], 2)(base);
            |after| == |m(base)| && after[0] == Pack(Color(0.0, 0.0, 0.0, 0.5), 3)
  {
    HalfAlphaWords();
    SecondOnConsole(m, base, 3, HalfAlpha, depthBase, Fade(base, 3, depthBase));
  }

  /** A blended draw whose result is opaque red everywhere. */
  function BlendedRed(base: nat, colorFormat: nat, depthBase: nat): Entry {
    Draw(Single(base), colorFormat, 15, true, 0, depthBase, true, (i: nat, c: Color, w: Word) => RedOpaque, (i: nat, w: Word) => None)
  }

  /** With no descriptor set for a conversion, a draw of the second format goes on in the first. */
  lemma {:induction false} RefusedConversionFails(cfg: Config, m: Memory, base: nat, depthBase: nat)
    requires base != depthBase && cfg.pixels > 0 && |m(base)| == cfg.pixels && cfg.convertSets == 0
    requires cfg.hostOf(Single(base)) == SurfaceTargets.HostFormatFor({0, 2})
    ensures var entries := [Fill(base, 0, RedOpaque, depthBase), BlendedRed(base, 2, depthBase)];
            var surface := SurfaceAt(cfg, Recorded(cfg, entries, 2), Single(base));
            && surface.begun && surface.format == Some(0) && |surface.image| == cfg.pixels
            && Pack(surface.image[0], 0) == 0xFF00_00FF
            && |ConsoleAfter(m, entries, 2)(base)| == cfg.pixels && ConsoleAfter(m, entries, 2)(base)[0] == 0xC000_03FF
  {
    MixedImageIsFloat({0, 2}, 0, 2);
    var e := BlendedRed(base, 2, depthBase);
    RedOpaqueWord();
    RedOpaqueInTens();
    SecondOnConsole(m, base, 0, RedOpaque, depthBase, e);
    SecondOnHost(cfg, base, 0, RedOpaque, depthBase, e, 0);
  }
}

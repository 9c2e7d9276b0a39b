/**
 * Draws that meet a surface of another format, read nothing from it and do not replace all of it: the
 * recorder relabels the surface, and what the draw missed is read under a format it was not stored in.
 */
module EdramPartialWrites {
  import opened Wrappers
  import opened EdramFormats
  import opened HostContainers
  import opened FrameRecording
  import opened EdramConsole
  import opened EdramRefinement
  import SurfaceTargets

  datatype Channel = Red | Green | Blue | Alpha

  function Get(c: Color, channel: Channel): real {
    match channel
    case Red => c.r
    case Green => c.g
    case Blue => c.b
    case Alpha => c.a
  }

  /** One channel of a format, packed and read back. */
  function Quantized(v: real, format: nat, channel: Channel): real
    requires ReinterpretSupported(format)
  {
    if format < 2 then Unorm(v, 255)
    else if channel.Alpha? then Unorm(v, 3)
    else if format == 2 then Unorm(v, 1023)
    else From7e3(To7e3(v))
  }

  lemma {:induction false} SplitFixed(c: Color, format: nat)
    requires format < 3
    ensures Reinterpret(c, format, format) == Color(Quantized(c.r, format, Red), Quantized(c.g, format, Green),
                                                    Quantized(c.b, format, Blue), Quantized(c.a, format, Alpha))
  {
    var host := if format < 2 then SurfaceTargets.R8G8B8A8Unorm else SurfaceTargets.A2B10G10R10Unorm;
    OwnContainerFits(host, format, c);
  }

  lemma {:induction false} SplitFloat(c: Color)
    ensures Reinterpret(c, 3, 3) == Color(Quantized(c.r, 3, Red), Quantized(c.g, 3, Green),
                                          Quantized(c.b, 3, Blue), Quantized(c.a, 3, Alpha))
  {
    UnormInRange(c.a, 3);
    SplitTens(To7e3(c.r), To7e3(c.g), To7e3(c.b), ToUnorm(c.a, 3));
  }

  /** The four channels of a pixel are packed and read back independently. */
  lemma {:induction false} ChannelsSplit(c: Color, format: nat, channel: Channel)
    requires ReinterpretSupported(format)
    ensures Get(Reinterpret(c, format, format), channel) == Quantized(Get(c, channel), format, channel)
  {
    if format < 3 {
      SplitFixed(c, format);
    } else {
      SplitFloat(c);
    }
  }

  lemma {:induction false} SameChannels(c: Color, c': Color)
    requires forall channel :: Get(c, channel) == Get(c', channel)
    ensures c == c'
  {
    assert Get(c, Red) == Get(c', Red) && Get(c, Green) == Get(c', Green);
    assert Get(c, Blue) == Get(c', Blue) && Get(c, Alpha) == Get(c', Alpha);
  }

  /** The draw replaces the channels it covers of each pixel, whatever was there, and leaves the others. */
  ghost predicate Replaces(e: Entry, covers: (nat, Channel) -> bool, source: nat -> Color)
    requires e.Draw?
  {
    forall i: nat, c, w, channel ::
      Get(e.effect(i, c, w), channel) == if covers(i, channel) then Get(source(i), channel) else Get(c, channel)
  }

  /** What it writes, its format can hold. */
  ghost predicate SourceFits(e: Entry, covers: (nat, Channel) -> bool, source: nat -> Color)
    requires e.Draw? && ReinterpretSupported(DrawFormat(e))
  {
    forall i: nat, channel :: covers(i, channel) ==>
      Quantized(Get(source(i), channel), DrawFormat(e), channel) == Get(source(i), channel)
  }

  /** It meets a surface of another format and reads nothing from it, so nothing is converted. */
  predicate RelabelsOnly(cfg: Config, s: Recording, e: Entry)
    requires e.Draw?
  {
    && SurfaceAt(cfg, s, e.key).begun && SurfaceAt(cfg, s, e.key).format.Some?
    && SurfaceAt(cfg, s, e.key).format.value != DrawFormat(e)
    && WritesColor(e) && BlendIsIdentity(e.blend0)
  }

  /** What a value drawn over a word becomes on the console, channel by channel. */
  lemma {:induction false} DrawnChannel(e: Entry, covers: (nat, Channel) -> bool, source: nat -> Color,
                                        i: nat, w: Word, depth: Word, channel: Channel)
    requires e.Draw? && ReinterpretSupported(DrawFormat(e)) && Replaces(e, covers, source) && SourceFits(e, covers, source)
    ensures var f := DrawFormat(e);
            var drawn := Unpack(Pack(e.effect(i, Unpack(w, f), depth), f), f);
            Get(drawn, channel) == if covers(i, channel) then Get(source(i), channel) else Get(Unpack(w, f), channel)
  {
    var f := DrawFormat(e);
    var c := e.effect(i, Unpack(w, f), depth);
    ChannelsSplit(c, f, channel);
    assert Get(c, channel) == if covers(i, channel) then Get(source(i), channel) else Get(Unpack(w, f), channel);
    PackInvertsUnpack(w, f);
    ChannelsSplit(Unpack(w, f), f, channel);
  }

  /** One pixel: the image and the console agree exactly on the channels that read alike or were covered. */
  lemma {:induction false} PixelExactIff(e: Entry, covers: (nat, Channel) -> bool, source: nat -> Color,
                                         i: nat, w: Word, from: nat, depth: Word, depth': Word)
    requires e.Draw? && ReinterpretSupported(DrawFormat(e)) && Replaces(e, covers, source) && SourceFits(e, covers, source)
    ensures var to := DrawFormat(e);
            (e.effect(i, Unpack(w, from), depth) == Unpack(Pack(e.effect(i, Unpack(w, to), depth'), to), to)
             <==> forall channel :: covers(i, channel) || Get(Unpack(w, from), channel) == Get(Unpack(w, to), channel))
  {
    var to := DrawFormat(e);
    var image, console := e.effect(i, Unpack(w, from), depth), Unpack(Pack(e.effect(i, Unpack(w, to), depth'), to), to);
    forall channel
      ensures Get(image, channel) == Get(console, channel)
              <==> covers(i, channel) || Get(Unpack(w, from), channel) == Get(Unpack(w, to), channel)
    {
      DrawnChannel(e, covers, source, i, w, depth', channel);
      assert Get(image, channel) == if covers(i, channel) then Get(source(i), channel) else Get(Unpack(w, from), channel);
    }
    if forall channel :: Get(image, channel) == Get(console, channel) {
      SameChannels(image, console);
    }
  }

  /** The surface's image after the call, which no conversion preceded. */
  lemma {:induction false} RelabelledImage(cfg: Config, s: Recording, m: Memory, t: Trust, e: Entry, index: nat)
    requires e.Draw? && e.key == Single(e.key.base) && Sound(cfg, s, m, t) && RelabelsOnly(cfg, s, e)
    requires e.passAvailable && e.depthBase != e.key.base
    ensures var now, depth := SurfaceAt(cfg, AfterDraw(cfg, s, e, index), e.key),
                              DepthAt(cfg, BeforeCall(cfg, s, e), DepthKey(e));
            && now.format == Some(DrawFormat(e))
            && now.image == Shade(cfg.hostOf(e.key), e, SurfaceAt(cfg, s, e.key).image, depth)
  {
    var s1 := AfterFormatChange(cfg, s, e);
    assert SurfaceAt(cfg, s1, e.key) == SurfaceAt(cfg, s, e.key).(format := Some(DrawFormat(e)));
    var s2 := BeforeCall(cfg, s, e);
    assert SurfaceAt(cfg, s2, e.key) == SurfaceAt(cfg, s1, e.key);
  }

  lemma {:induction false} RelabelledReadsIff(cfg: Config, e: Entry, image: seq<Color>, depth: seq<Word>, words: seq<Word>,
                                              depth': seq<Word>, from: nat,
                                              covers: (nat, Channel) -> bool, source: nat -> Color)
    requires e.Draw? && WritesColor(e) && ReinterpretSupported(DrawFormat(e)) && ReadsAs(image, words, from)
    requires cfg.hostOf(e.key) == SurfaceTargets.R16G16B16A16Sfloat
    requires Replaces(e, covers, source) && SourceFits(e, covers, source)
    ensures ReadsAs(Shade(cfg.hostOf(e.key), e, image, depth), DrawnWords(e, words, depth'), DrawFormat(e))
        <==> forall i, channel :: 0 <= i < |words| && !covers(i, channel) ==>
               Get(Unpack(words[i], from), channel) == Get(Unpack(words[i], DrawFormat(e)), channel)
  {
    var to := DrawFormat(e);
    var shaded, drawn := Shade(cfg.hostOf(e.key), e, image, depth), DrawnWords(e, words, depth');
    forall i | 0 <= i < |words|
      ensures shaded[i] == Unpack(drawn[i], to) <==>
                forall channel :: covers(i, channel) || Get(Unpack(words[i], from), channel) == Get(Unpack(words[i], to), channel)
    {
      PixelExactIff(e, covers, source, i, words[i], from, At(depth, i), At(depth', i));
    }
  }

  /** One pixel, in bits: what it missed counts as the format it is relabelled to packs it. */
  lemma {:induction false} PixelBitsIff(e: Entry, covers: (nat, Channel) -> bool, source: nat -> Color,
                                        i: nat, c: Color, w: Word, depth: Word, depth': Word)
    requires e.Draw? && ReinterpretSupported(DrawFormat(e)) && Replaces(e, covers, source)
    ensures var to := DrawFormat(e);
            (Pack(e.effect(i, c, depth), to) == Pack(e.effect(i, Unpack(w, to), depth'), to)
             <==> forall channel :: covers(i, channel)
                                    || Quantized(Get(c, channel), to, channel) == Get(Unpack(w, to), channel))
  {
    var to := DrawFormat(e);
    var host, console := e.effect(i, c, depth), e.effect(i, Unpack(w, to), depth');
    PackInvertsUnpack(w, to);
    PackInvertsUnpack(Pack(host, to), to);
    PackInvertsUnpack(Pack(console, to), to);
    forall channel
      ensures Get(Reinterpret(host, to, to), channel) == Get(Reinterpret(console, to, to), channel)
              <==> covers(i, channel) || Quantized(Get(c, channel), to, channel) == Get(Unpack(w, to), channel)
    {
      ChannelsSplit(host, to, channel);
      ChannelsSplit(console, to, channel);
      ChannelsSplit(Unpack(w, to), to, channel);
      assert Get(host, channel) == if covers(i, channel) then Get(source(i), channel) else Get(c, channel);
      assert Get(console, channel) == if covers(i, channel) then Get(source(i), channel) else Get(Unpack(w, to), channel);
    }
    if forall channel :: Get(Reinterpret(host, to, to), channel) == Get(Reinterpret(console, to, to), channel) {
      SameChannels(Reinterpret(host, to, to), Reinterpret(console, to, to));
    }
  }

  lemma {:induction false} RelabelledBitsIff(cfg: Config, e: Entry, image: seq<Color>, depth: seq<Word>, words: seq<Word>,
                                             depth': seq<Word>, covers: (nat, Channel) -> bool, source: nat -> Color)
    requires e.Draw? && WritesColor(e) && ReinterpretSupported(DrawFormat(e)) && |image| == |words|
    requires cfg.hostOf(e.key) == SurfaceTargets.R16G16B16A16Sfloat && Replaces(e, covers, source)
    ensures PacksTo(Shade(cfg.hostOf(e.key), e, image, depth), DrawnWords(e, words, depth'), DrawFormat(e))
        <==> forall i, channel :: 0 <= i < |words| && !covers(i, channel) ==>
               Quantized(Get(image[i], channel), DrawFormat(e), channel) == Get(Unpack(words[i], DrawFormat(e)), channel)
  {
    var to := DrawFormat(e);
    var shaded, drawn := Shade(cfg.hostOf(e.key), e, image, depth), DrawnWords(e, words, depth');
    forall i | 0 <= i < |words|
      ensures Pack(shaded[i], to) == drawn[i] <==>
                forall channel :: covers(i, channel)
                                  || Quantized(Get(image[i], channel), to, channel) == Get(Unpack(words[i], to), channel)
    {
      PixelBitsIff(e, covers, source, i, image[i], words[i], At(depth, i), At(depth', i));
    }
  }

  /** A relabelling draw, on a trusted surface of its own in the four-channel float image. */
  ghost predicate Relabels(cfg: Config, s: Recording, m: Memory, t: Trust, e: Entry, covers: (nat, Channel) -> bool, source: nat -> Color) {
    && e.Draw? && e.key == Single(e.key.base) && e.depthBase != e.key.base && e.passAvailable
    && Sound(cfg, s, m, t) && RelabelsOnly(cfg, s, e)
    && cfg.hostOf(e.key) == SurfaceTargets.R16G16B16A16Sfloat && ReinterpretSupported(DrawFormat(e))
    && Replaces(e, covers, source)
  }

  lemma {:induction false} RelabelledSurface(cfg: Config, s: Recording, m: Memory, t: Trust, e: Entry, index: nat, exact: bool,
                                             covers: (nat, Channel) -> bool, source: nat -> Color)
    requires Relabels(cfg, s, m, t, e, covers, source)
    ensures var now, depth := SurfaceAt(cfg, AfterDraw(cfg, s, e, index), e.key), DepthAt(cfg, BeforeCall(cfg, s, e), DepthKey(e));
            ColorOk(now, ConsoleStep(m, e)(e.key.base), exact)
            <==> Shows(Shade(cfg.hostOf(e.key), e, SurfaceAt(cfg, s, e.key).image, depth),
                       DrawnWords(e, m(e.key.base), m(e.depthBase)), DrawFormat(e), exact)
  {
    RelabelledImage(cfg, s, m, t, e, index);
    SplitWords(e, m);
    assert SurfaceAt(cfg, AfterDraw(cfg, s, e, index), e.key).begun by {
      BeforeCallReadies(cfg, s, m, t, e);
      CallIsRight(cfg, s, BeforeCall(cfg, s, e), m, t, e, index);
    }
  }

  /**
   * Such a draw leaves the surface's bits right if and only if every channel it missed, of every pixel,
   * packs under the new format to what the console's word has there.
   */
  lemma {:induction false} PartialWriteRightIff(cfg: Config, s: Recording, m: Memory, t: Trust, e: Entry, index: nat,
                                                covers: (nat, Channel) -> bool, source: nat -> Color)
    requires Relabels(cfg, s, m, t, e, covers, source)
    ensures var (image, to, words) := (SurfaceAt(cfg, s, e.key).image, DrawFormat(e), m(e.key.base));
            && |image| == |words| == cfg.pixels
            && (ColorOk(SurfaceAt(cfg, AfterDraw(cfg, s, e, index), e.key), ConsoleStep(m, e)(e.key.base), false)
                <==> forall i, channel :: 0 <= i < cfg.pixels && !covers(i, channel) ==>
                       Quantized(Get(image[i], channel), to, channel) == Get(Unpack(words[i], to), channel))
  {
    assert SurfaceShaped(cfg, SurfaceAt(cfg, s, e.key));
    RelabelledSurface(cfg, s, m, t, e, index, false, covers, source);
    RelabelledBitsIff(cfg, e, SurfaceAt(cfg, s, e.key).image, DepthAt(cfg, BeforeCall(cfg, s, e), DepthKey(e)),
                      m(e.key.base), m(e.depthBase), covers, source);
  }

  /** From exact values to exact values: if and only if every missed channel means the same under both formats. */
  lemma {:induction false} PartialWriteExactIff(cfg: Config, s: Recording, m: Memory, t: Trust, e: Entry, index: nat,
                                                covers: (nat, Channel) -> bool, source: nat -> Color)
    requires Relabels(cfg, s, m, t, e, covers, source) && SourceFits(e, covers, source) && e.key.base in t.exact
    ensures var from, to, words := SurfaceAt(cfg, s, e.key).format.value, DrawFormat(e), m(e.key.base);
            (ColorOk(SurfaceAt(cfg, AfterDraw(cfg, s, e, index), e.key), ConsoleStep(m, e)(e.key.base), true)
             <==> forall i, channel :: 0 <= i < cfg.pixels && !covers(i, channel) ==>
                    Get(Unpack(words[i], from), channel) == Get(Unpack(words[i], to), channel))
  {
    RelabelledSurface(cfg, s, m, t, e, index, true, covers, source);
    TrustedOk(cfg, s, m, t, e.key.base, true);
    RelabelledReadsIff(cfg, e, SurfaceAt(cfg, s, e.key).image, DepthAt(cfg, BeforeCall(cfg, s, e), DepthKey(e)),
                       m(e.key.base), m(e.depthBase), SurfaceAt(cfg, s, e.key).format.value, covers, source);
  }
}

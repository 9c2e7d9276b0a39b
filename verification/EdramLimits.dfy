/**
 * Where the recorded frame stops being the console's: for each way a base loses its trust, exactly when
 * it really goes wrong, in terms of what is there before the command.
 */
module EdramLimits {
  import opened Wrappers
  import opened EdramFormats
  import opened HostContainers
  import opened FrameRecording
  import opened EdramConsole
  import opened EdramRefinement
  import SurfaceTargets

  /** An image that packs to some words packs to no others. */
  lemma {:induction false} ShowsOneOnly(image: seq<Color>, words: seq<Word>, words': seq<Word>, format: nat, exact: bool)
    requires ReinterpretSupported(format) && ReadsAs(image, words, format) && |words'| == |words|
    ensures Shows(image, words', format, exact) <==> words' == words
  {
    ReadsPack(image, words, format, exact);
    if Shows(image, words', format, exact) {
      if exact {
        ReadsPack(image, words', format, false);
      }
      ReadsPack(image, words, format, false);
      assert forall i :: 0 <= i < |words| ==> words'[i] == words[i];
    }
  }

  // ---------------------------------------------------------------- words change under an image

  /** A drawn surface whose image stays while the console's words change is right only if they did not. */
  lemma {:induction false} StaysRightIff(t: Surface, words: seq<Word>, words': seq<Word>)
    requires t.begun && ColorOk(t, words, false) && |words'| == |words|
    ensures ColorOk(t, words', false) <==> words' == words
  {
    if ColorOk(t, words', false) {
      assert forall i :: 0 <= i < |words| ==> words'[i] == words[i];
    }
  }

  /**
   * A copy that clears its colour source: the recorder has no such clear, so the surface stays
   * right exactly when every word the copy covers held the clear word already.
   */
  lemma {:induction false} ClearingCopyExactIff(cfg: Config, s: Recording, m: Memory, t: Trust, e: Entry, index: nat)
    requires e.Resolve? && e.key == Single(e.key.base) && e.colorClear.Some? && Sound(cfg, s, m, t)
    requires e.key.base in TrustAfterCopy(cfg, s, t, e).color && SurfaceAt(cfg, s, e.key).begun
    requires e.depthClear.Some? ==> e.depthBase != e.key.base
    ensures ColorOk(SurfaceAt(cfg, AfterResolve(cfg, s, e, index), e.key), ConsoleStep(m, e)(e.key.base), false)
        <==> forall i :: 0 <= i < cfg.pixels && e.covers(i) ==> m(e.key.base)[i] == e.colorClear.value
  {
    var b, words := e.key.base, m(e.key.base);
    CopySound(cfg, s, m, t, e, index);
    ResolveIsCopyThenClear(cfg, s, e, index);
    var s1, s' := AfterCopy(cfg, s, e, index), AfterResolve(cfg, s, e, index);
    assert SurfaceAt(cfg, s', e.key) == SurfaceAt(cfg, s1, e.key);
    TrustedOk(cfg, s1, m, TrustAfterCopy(cfg, s, t, e), b, false);
    var cleared := ClearedWords(e, e.colorClear.value, words);
    assert ConsoleStep(m, e)(b) == cleared;
    StaysRightIff(SurfaceAt(cfg, s1, e.key), words, cleared);
    assert cleared == words <==> forall i :: 0 <= i < cfg.pixels && e.covers(i) ==> words[i] == e.colorClear.value;
  }

  /**
   * A draw whose depth buffer starts at another colour surface's base: the console stores its depths in
   * that surface and the recorder does not, so the surface stays right exactly when no word changed.
   */
  lemma {:induction false} CrossDepthExactIff(cfg: Config, s: Recording, m: Memory, t: Trust, e: Entry, index: nat)
    requires e.Draw? && e.key == Single(e.key.base) && e.depthBase != e.key.base && Sound(cfg, s, m, t)
    requires !IsDropped(cfg, s, e) && e.depthBase in t.color && SurfaceAt(cfg, s, Single(e.depthBase)).begun
    ensures ColorOk(SurfaceAt(cfg, AfterDraw(cfg, s, e, index), Single(e.depthBase)), ConsoleStep(m, e)(e.depthBase), false)
        <==> DepthOver(e, m(e.depthBase), m(e.depthBase)) == m(e.depthBase)
  {
    var d := e.depthBase;
    BeforeCallReadies(cfg, s, m, t, e);
    CallIsRight(cfg, s, BeforeCall(cfg, s, e), m, t, e, index);
    SplitWords(e, m);
    assert SurfaceAt(cfg, AfterDraw(cfg, s, e, index), Single(d)) == SurfaceAt(cfg, s, Single(d));
    TrustedOk(cfg, s, m, t, d, false);
    StaysRightIff(SurfaceAt(cfg, s, Single(d)), m(d), ConsoleStep(m, e)(d));
  }

  // ---------------------------------------------------------------- what a draw meets

  /** The depth words the draw will test. */
  function DepthMet(cfg: Config, s: Recording, e: Entry): seq<Word>
    requires e.Draw?
  {
    DepthOnBegin(cfg, s.depths, DepthKey(e), SurfaceAt(cfg, s, e.key).begun)
  }

  /** The image the draw will shade: cleared, converted or as it was. */
  function ImageMet(cfg: Config, s: Recording, e: Entry): seq<Color>
    requires e.Draw?
  {
    if SurfaceAt(cfg, s, e.key).begun then SurfaceAt(cfg, AfterFormatChange(cfg, s, e), e.key).image else Blank(cfg, e.key)
  }

  lemma {:induction false} CallMeets(cfg: Config, s: Recording, m: Memory, t: Trust, e: Entry)
    requires e.Draw? && e.key == Single(e.key.base) && Sound(cfg, s, m, t)
    ensures DepthKey(e) in BeforeCall(cfg, s, e).depths
    ensures BeforeCall(cfg, s, e).depths[DepthKey(e)] == DepthMet(cfg, s, e)
    ensures SurfaceAt(cfg, BeforeCall(cfg, s, e), e.key).image == ImageMet(cfg, s, e)
    ensures |DepthMet(cfg, s, e)| == cfg.pixels == |ImageMet(cfg, s, e)|
  {
    BeforeCallReadies(cfg, s, m, t, e);
    if SurfaceAt(cfg, s, e.key).begun {
      FormatChangeMeets(cfg, s, m, t, e);
    } else {
      UnbegunUnmet(cfg, s, e);
    }
  }

  // ---------------------------------------------------------------- depth and colour at one base

  lemma {:induction false} SameDepthsIff(e: Entry, met: seq<Word>, words: seq<Word>, drawn: seq<Word>)
    requires e.Draw? && |met| == |words| == |drawn|
    ensures DepthOver(e, words, drawn) == ShadeDepth(e, met)
        <==> forall i :: 0 <= i < |met| ==> DepthLeft(e, i, met[i], met[i]) == DepthLeft(e, i, words[i], drawn[i])
  {
    var host, console := ShadeDepth(e, met), DepthOver(e, words, drawn);
    assert forall i :: 0 <= i < |met| ==> host[i] == DepthLeft(e, i, met[i], met[i]);
    assert forall i :: 0 <= i < |met| ==> console[i] == DepthLeft(e, i, words[i], drawn[i]);
    if forall i :: 0 <= i < |met| ==> DepthLeft(e, i, met[i], met[i]) == DepthLeft(e, i, words[i], drawn[i]) {
      assert console == host;
    }
  }

  /** The alias pass makes the surface the depth image the draw left. */
  lemma {:induction false} AliasedImage(cfg: Config, s: Recording, m: Memory, t: Trust, e: Entry, index: nat)
    requires e.Draw? && e.key == Single(e.key.base) && e.depthBase == e.key.base && Sound(cfg, s, m, t)
    requires !IsDropped(cfg, s, e) && WillAlias(cfg, s, e)
    ensures |DepthMet(cfg, s, e)| == cfg.pixels
    ensures var now := SurfaceAt(cfg, AfterDraw(cfg, s, e, index), e.key);
            && now.begun && now.format == LabelAfter(cfg, s, e)
            && now.image == UnpackImage(cfg.hostOf(e.key), ShadeDepth(e, DepthMet(cfg, s, e)), LabelAfter(cfg, s, e).value)
  {
    BeforeCallReadies(cfg, s, m, t, e);
    CallMeets(cfg, s, m, t, e);
    CallIsRight(cfg, s, BeforeCall(cfg, s, e), m, t, e, index);
    AliasesCounted(cfg, s, e, index);
    AliasPass(cfg, AfterDrawCall(cfg, BeforeCall(cfg, s, e), e, index), e);
  }

  /**
   * The alias pass, after a draw whose depth buffer shares its surface's base: right exactly when at every
   * pixel the depth word that the draw met leaves what the console's depth leaves over the console's colour.
   */
  lemma {:induction false} AliasExactIff(cfg: Config, s: Recording, m: Memory, t: Trust, e: Entry, index: nat, exact: bool)
    requires e.Draw? && e.key == Single(e.key.base) && e.depthBase == e.key.base && Sound(cfg, s, m, t)
    requires !IsDropped(cfg, s, e) && WillAlias(cfg, s, e) && Holds(cfg.hostOf(e.key), LabelAfter(cfg, s, e).value)
    ensures var b, met := e.key.base, DepthMet(cfg, s, e);
            var drawn := DrawnWords(e, m(b), m(b));
            |met| == |drawn| == |m(b)| == cfg.pixels
            && (ColorOk(SurfaceAt(cfg, AfterDraw(cfg, s, e, index), e.key), ConsoleStep(m, e)(b), exact)
                <==> forall i :: 0 <= i < cfg.pixels ==>
                       DepthLeft(e, i, met[i], met[i]) == DepthLeft(e, i, m(b)[i], drawn[i]))
  {
    AliasedImage(cfg, s, m, t, e, index);
    SharedWords(e, m);
    var b, depth := e.key.base, ShadeDepth(e, DepthMet(cfg, s, e));
    SameDepthsIff(e, DepthMet(cfg, s, e), m(b), DrawnWords(e, m(b), m(b)));
    AliasReadsAs(cfg.hostOf(e.key), depth, LabelAfter(cfg, s, e).value);
    ShowsOneOnly(UnpackImage(cfg.hostOf(e.key), depth, LabelAfter(cfg, s, e).value), depth, ConsoleStep(m, e)(b),
                 LabelAfter(cfg, s, e).value, exact);
  }

  /**
   * With a depth buffer that was right, or is written everywhere: right exactly when at every pixel the draw
   * writes depth, or leaves the word that was there.
   */
  lemma {:induction false} AliasOfRightDepthExactIff(cfg: Config, s: Recording, m: Memory, t: Trust, e: Entry, index: nat, exact: bool)
    requires e.Draw? && e.key == Single(e.key.base) && e.depthBase == e.key.base && Sound(cfg, s, m, t)
    requires !IsDropped(cfg, s, e) && WillAlias(cfg, s, e) && Holds(cfg.hostOf(e.key), LabelAfter(cfg, s, e).value)
    requires DepthSeen(cfg, s, t, e) || OverwritesDepth(cfg, e)
    ensures var b := e.key.base;
            (ColorOk(SurfaceAt(cfg, AfterDraw(cfg, s, e, index), e.key), ConsoleStep(m, e)(b), exact)
             <==> forall i :: 0 <= i < cfg.pixels ==>
                    e.depthEffect(i, m(b)[i]).Some? || DrawnWords(e, m(b), m(b))[i] == m(b)[i])
  {
    AliasExactIff(cfg, s, m, t, e, index, exact);
    BeforeCallReadies(cfg, s, m, t, e);
    CallMeets(cfg, s, m, t, e);
    var b, met := e.key.base, DepthMet(cfg, s, e);
    forall i | 0 <= i < cfg.pixels
      ensures DepthLeft(e, i, met[i], met[i]) == DepthLeft(e, i, m(b)[i], m(b)[i])
    {
      assert met == m(b) || e.depthEffect(i, met[i]) == e.depthEffect(i, m(b)[i]);
    }
  }

  /** When no alias pass runs, such a draw leaves the surface right only if its depths hide nothing it drew. */
  lemma {:induction false} UnaliasedExactIff(cfg: Config, s: Recording, m: Memory, t: Trust, e: Entry, index: nat)
    requires e.Draw? && e.key == Single(e.key.base) && e.depthBase == e.key.base && Sound(cfg, s, m, t)
    requires !IsDropped(cfg, s, e) && !WillAlias(cfg, s, e) && ColorDrawn(cfg, s, t, m, e, false)
    ensures var b, s' := e.key.base, AfterDraw(cfg, s, e, index);
            var drawn := DrawnWords(e, m(b), m(b));
            ColorOk(SurfaceAt(cfg, s', e.key), ConsoleStep(m, e)(b), false) <==> DepthOver(e, m(b), drawn) == drawn
  {
    BeforeCallReadies(cfg, s, m, t, e);
    CallIsRight(cfg, s, BeforeCall(cfg, s, e), m, t, e, index);
    AliasesCounted(cfg, s, e, index);
    var s3 := AfterDrawCall(cfg, BeforeCall(cfg, s, e), e, index);
    AliasPass(cfg, s3, e);
    SharedWords(e, m);
    var b := e.key.base;
    StaysRightIff(SurfaceAt(cfg, s3, e.key), DrawnWords(e, m(b), m(b)), ConsoleStep(m, e)(b));
  }

  /** A surface's first pass wipes a depth buffer already in use: harmless exactly when it held only the clear word. */
  lemma {:induction false} FirstPassWipesDepthIff(cfg: Config, s: Recording, m: Memory, t: Trust, e: Entry)
    requires e.Draw? && e.key == Single(e.key.base) && Sound(cfg, s, m, t) && !SurfaceAt(cfg, s, e.key).begun
    requires e.depthBase in t.depth && DepthKey(e) in s.depths
    ensures DepthKey(e) in BeforeCall(cfg, s, e).depths
    ensures BeforeCall(cfg, s, e).depths[DepthKey(e)] == m(e.depthBase) <==> AllAre(m(e.depthBase), cfg.depthClear)
  {
    UnbegunUnmet(cfg, s, e);
    assert s.pass.Open? ==> s.pass.key != e.key;
    assert BeforeCall(cfg, s, e).depths[DepthKey(e)] == Filled(cfg, cfg.depthClear);
    if AllAre(m(e.depthBase), cfg.depthClear) {
      assert m(e.depthBase) == Filled(cfg, cfg.depthClear);
    }
  }

  /**
   * A copy's depth clear. The recorder clears the whole depth image whatever the copy covers, or skips the
   * clear: right exactly when the words it clears too much, or too little, held the clear word already.
   */
  lemma {:induction false} DepthClearRightIff(cfg: Config, s: Recording, m: Memory, t: Trust, e: Entry, index: nat)
    requires e.Resolve? && e.key == Single(e.key.base) && Sound(cfg, s, m, t) && e.depthClear.Some?
    requires e.depthBase in t.depth && DepthKey(e) in s.depths && (e.colorClear.Some? ==> e.key.base != e.depthBase)
    ensures var s', words, word := AfterResolve(cfg, s, e, index), m(e.depthBase), e.depthClear.value;
            && DepthKey(e) in s'.depths && |words| == cfg.pixels
            && (s'.depths[DepthKey(e)] == ConsoleStep(m, e)(e.depthBase)
                <==> forall i :: 0 <= i < cfg.pixels && e.covers(i) != HostClears(cfg, s, e) ==> words[i] == word)
  {
    ResolveIsCopyThenClear(cfg, s, e, index);
    var words, word := m(e.depthBase), e.depthClear.value;
    assert DepthOk(cfg, s.depths, Single(e.depthBase), words);
    CopyKeepsDepths(cfg, s, e, index);
    var host := if HostClears(cfg, s, e) then Filled(cfg, word) else words;
    assert AfterResolve(cfg, s, e, index).depths[DepthKey(e)] == host;
    var console := ClearedWords(e, word, words);
    assert ConsoleStep(m, e)(e.depthBase) == console;
    if forall i :: 0 <= i < cfg.pixels && e.covers(i) != HostClears(cfg, s, e) ==> words[i] == word {
      assert host == console;
    } else {
      var i :| 0 <= i < cfg.pixels && e.covers(i) != HostClears(cfg, s, e) && words[i] != word;
      assert host[i] != console[i];
    }
  }

  lemma {:induction false} CopyKeepsDepths(cfg: Config, s: Recording, e: Entry, index: nat)
    requires e.Resolve?
    ensures AfterCopy(cfg, s, e, index).depths == s.depths
  {
    CopyFormatKeepsDepths(cfg, AfterEndPass(s), e);
  }

  lemma {:induction false} CopyFormatKeepsDepths(cfg: Config, s: Recording, e: Entry)
    requires e.Resolve?
    ensures AfterCopyFormat(cfg, s, e).depths == s.depths
  {}

  // ---------------------------------------------------------------- draws that are wrong in themselves

  /** What the host and the console make of one pixel. */
  function HostPixel(cfg: Config, s: Recording, e: Entry, i: nat): Color
    requires e.Draw? && i < |ImageMet(cfg, s, e)|
  {
    StoreIn(cfg.hostOf(e.key), e.effect(i, ImageMet(cfg, s, e)[i], At(DepthMet(cfg, s, e), i)))
  }

  function ConsolePixel(m: Memory, e: Entry, i: nat): Color
    requires e.Draw? && i < |m(e.key.base)|
  {
    e.effect(i, Unpack(m(e.key.base)[i], DrawFormat(e)), At(m(e.depthBase), i))
  }

  /** A draw with bases of its own that writes colour and is not dropped. */
  ghost predicate Shading(cfg: Config, s: Recording, m: Memory, t: Trust, e: Entry) {
    && e.Draw? && e.key == Single(e.key.base) && e.depthBase != e.key.base && WritesColor(e)
    && Sound(cfg, s, m, t) && !IsDropped(cfg, s, e)
  }

  lemma {:induction false} ShadedImage(cfg: Config, s: Recording, m: Memory, t: Trust, e: Entry, index: nat)
    requires Shading(cfg, s, m, t, e)
    ensures |ImageMet(cfg, s, e)| == |m(e.key.base)| == cfg.pixels
    ensures var now := SurfaceAt(cfg, AfterDraw(cfg, s, e, index), e.key);
            && now.begun && now.format == LabelAfter(cfg, s, e) && now.format.Some? && |now.image| == cfg.pixels
            && forall i :: 0 <= i < cfg.pixels ==> now.image[i] == HostPixel(cfg, s, e, i)
    ensures var words := ConsoleStep(m, e)(e.key.base);
            && |words| == cfg.pixels
            && forall i :: 0 <= i < cfg.pixels ==> words[i] == Pack(ConsolePixel(m, e, i), DrawFormat(e))
  {
    CallMeets(cfg, s, m, t, e);
    BeforeCallReadies(cfg, s, m, t, e);
    CallIsRight(cfg, s, BeforeCall(cfg, s, e), m, t, e, index);
    SplitWords(e, m);
    var s2 := BeforeCall(cfg, s, e);
    assert SurfaceAt(cfg, AfterDraw(cfg, s, e, index), e.key).image
        == Shade(cfg.hostOf(e.key), e, SurfaceAt(cfg, s2, e.key).image, s2.depths[DepthKey(e)]);
  }

  /**
   * Any such draw: right exactly when at every pixel what the host makes of what it met packs, under the
   * format the surface is left in, to what the console makes of its words, packed under the draw's.
   */
  lemma {:induction false} ShadingRightIff(cfg: Config, s: Recording, m: Memory, t: Trust, e: Entry, index: nat)
    requires Shading(cfg, s, m, t, e) && LabelAfter(cfg, s, e).Some? && ReinterpretSupported(LabelAfter(cfg, s, e).value)
    ensures |ImageMet(cfg, s, e)| == |m(e.key.base)| == cfg.pixels
    ensures ColorOk(SurfaceAt(cfg, AfterDraw(cfg, s, e, index), e.key), ConsoleStep(m, e)(e.key.base), false)
        <==> forall i :: 0 <= i < cfg.pixels ==>
               Pack(HostPixel(cfg, s, e, i), LabelAfter(cfg, s, e).value) == Pack(ConsolePixel(m, e, i), DrawFormat(e))
  {
    ShadedImage(cfg, s, m, t, e, index);
  }

  lemma {:induction false} StoredExactIff(host: SurfaceTargets.HostFormat, e: Entry, color: seq<Word>, depth: seq<Word>,
                                          image: seq<Color>, drawn: seq<Word>)
    requires e.Draw? && |image| == |drawn| == |color|
    requires forall i :: 0 <= i < |color| ==>
               image[i] == StoreIn(host, e.effect(i, Unpack(color[i], DrawFormat(e)), At(depth, i)))
    requires forall i :: 0 <= i < |color| ==>
               drawn[i] == Pack(e.effect(i, Unpack(color[i], DrawFormat(e)), At(depth, i)), DrawFormat(e))
    ensures ReadsAs(image, drawn, DrawFormat(e)) <==> DrawFits(host, e, color, depth)
  {
    forall i | 0 <= i < |color|
      ensures image[i] == Unpack(drawn[i], DrawFormat(e))
              <==> Fits(host, DrawFormat(e), e.effect(i, Unpack(color[i], DrawFormat(e)), At(depth, i)))
    {}
  }

  /** What is drawn over an exact surface stays exact if and only if the words hold every colour it leaves. */
  lemma {:induction false} UnrepresentableExactIff(cfg: Config, s: Recording, m: Memory, t: Trust, e: Entry, index: nat)
    requires Shading(cfg, s, m, t, e) && ReinterpretSupported(DrawFormat(e)) && LabelAfter(cfg, s, e) == Some(DrawFormat(e))
    requires ColorSeen(cfg, s, t, e, true) && (DepthSeen(cfg, s, t, e) || ColorIgnoresDepth(cfg, e))
    ensures ColorOk(SurfaceAt(cfg, AfterDraw(cfg, s, e, index), e.key), ConsoleStep(m, e)(e.key.base), true)
        <==> DrawFits(cfg.hostOf(e.key), e, m(e.key.base), m(e.depthBase))
  {
    ShadedImage(cfg, s, m, t, e, index);
    forall i | 0 <= i < cfg.pixels
      ensures HostPixel(cfg, s, e, i) == StoreIn(cfg.hostOf(e.key), ConsolePixel(m, e, i))
    {
      ExactPixel(cfg, s, m, t, e, i);
    }
    StoredExactIff(cfg.hostOf(e.key), e, m(e.key.base), m(e.depthBase),
                   SurfaceAt(cfg, AfterDraw(cfg, s, e, index), e.key).image, ConsoleStep(m, e)(e.key.base));
  }

  lemma {:induction false} ExactPixel(cfg: Config, s: Recording, m: Memory, t: Trust, e: Entry, i: nat)
    requires Shading(cfg, s, m, t, e) && LabelAfter(cfg, s, e) == Some(DrawFormat(e)) && i < cfg.pixels
    requires ColorSeen(cfg, s, t, e, true) && (DepthSeen(cfg, s, t, e) || ColorIgnoresDepth(cfg, e))
    requires |ImageMet(cfg, s, e)| == |m(e.key.base)| == cfg.pixels
    ensures HostPixel(cfg, s, e, i) == StoreIn(cfg.hostOf(e.key), ConsolePixel(m, e, i))
  {
    CallMeets(cfg, s, m, t, e);
    BeforeCallReadies(cfg, s, m, t, e);
    assert Shows(ImageMet(cfg, s, e), m(e.key.base), DrawFormat(e), true);
    SameEffect(cfg, e, i, ImageMet(cfg, s, e)[i], ImageMet(cfg, s, e)[i], At(DepthMet(cfg, s, e), i), At(m(e.depthBase), i));
  }

  /** A draw that reads a surface holding colours its words do not: right if and only if the rounding stays hidden. */
  lemma {:induction false} RoundedReadRightIff(cfg: Config, s: Recording, m: Memory, t: Trust, e: Entry, index: nat)
    requires Shading(cfg, s, m, t, e) && SurfaceAt(cfg, s, e.key).begun && e.key.base in t.color
    requires SurfaceAt(cfg, s, e.key).format == Some(DrawFormat(e)) && Holds(cfg.hostOf(e.key), DrawFormat(e))
    requires DepthSeen(cfg, s, t, e) || ColorIgnoresDepth(cfg, e)
    ensures |SurfaceAt(cfg, s, e.key).image| == |m(e.key.base)| == cfg.pixels
    ensures ColorOk(SurfaceAt(cfg, AfterDraw(cfg, s, e, index), e.key), ConsoleStep(m, e)(e.key.base), false)
        <==> forall i :: 0 <= i < cfg.pixels ==>
               DrawnAlike(e, i, SurfaceAt(cfg, s, e.key).image[i], m(e.key.base)[i], At(m(e.depthBase), i))
  {
    ShadingRightIff(cfg, s, m, t, e, index);
    BeforeCallReadies(cfg, s, m, t, e);
    CallMeets(cfg, s, m, t, e);
    TrustedOk(cfg, s, m, t, e.key.base, false);
    forall i | 0 <= i < cfg.pixels
      ensures Pack(HostPixel(cfg, s, e, i), DrawFormat(e))
           == Pack(e.effect(i, SurfaceAt(cfg, s, e.key).image[i], At(m(e.depthBase), i)), DrawFormat(e))
    {
      var c := SurfaceAt(cfg, s, e.key).image[i];
      SameEffect(cfg, e, i, c, c, At(DepthMet(cfg, s, e), i), At(m(e.depthBase), i));
      HoldingKeepsBits(cfg.hostOf(e.key), DrawFormat(e), e.effect(i, c, At(m(e.depthBase), i)));
    }
  }

  /**
   * A conversion that is refused or finds no descriptor set: the draw goes on in the old format, which is right
   * if and only if at every pixel both formats make the same word of it.
   */
  lemma {:induction false} RefusedConversionRightIff(cfg: Config, s: Recording, m: Memory, t: Trust, e: Entry, index: nat)
    requires Shading(cfg, s, m, t, e) && SurfaceAt(cfg, s, e.key).begun && e.key.base in t.exact
    requires DepthSeen(cfg, s, t, e) || ColorIgnoresDepth(cfg, e)
    requires !BlendIsIdentity(e.blend0) && LabelAfter(cfg, s, e) != Some(DrawFormat(e))
    requires SurfaceAt(cfg, s, e.key).format.Some? && Holds(cfg.hostOf(e.key), SurfaceAt(cfg, s, e.key).format.value)
    ensures LabelAfter(cfg, s, e) == SurfaceAt(cfg, s, e.key).format
    ensures var kept, f, b, d := SurfaceAt(cfg, s, e.key).format.value, DrawFormat(e), e.key.base, e.depthBase;
            |m(b)| == cfg.pixels
            && (ColorOk(SurfaceAt(cfg, AfterDraw(cfg, s, e, index), e.key), ConsoleStep(m, e)(b), false)
                <==> forall i :: 0 <= i < cfg.pixels ==>
                       Pack(e.effect(i, Unpack(m(b)[i], kept), At(m(d), i)), kept)
                       == Pack(e.effect(i, Unpack(m(b)[i], f), At(m(d), i)), f))
  {
    var kept, words := SurfaceAt(cfg, s, e.key).format.value, m(e.key.base);
    ConversionCases(cfg, s, e);
    ShadingRightIff(cfg, s, m, t, e, index);
    BeforeCallReadies(cfg, s, m, t, e);
    CallMeets(cfg, s, m, t, e);
    TrustedOk(cfg, s, m, t, e.key.base, true);
    forall i | 0 <= i < cfg.pixels
      ensures Pack(HostPixel(cfg, s, e, i), kept) == Pack(e.effect(i, Unpack(words[i], kept), At(m(e.depthBase), i)), kept)
    {
      var c := Unpack(words[i], kept);
      SameEffect(cfg, e, i, c, c, At(DepthMet(cfg, s, e), i), At(m(e.depthBase), i));
      HoldingKeepsBits(cfg.hostOf(e.key), kept, e.effect(i, c, At(m(e.depthBase), i)));
    }
  }

  /** Colour drawn by a depth test against words that are not the console's: right if and only if no pixel's word differs. */
  lemma {:induction false} WrongDepthRightIff(cfg: Config, s: Recording, m: Memory, t: Trust, e: Entry, index: nat)
    requires Shading(cfg, s, m, t, e) && ColorSeen(cfg, s, t, e, true) && LabelAfter(cfg, s, e) == Some(DrawFormat(e))
    requires Holds(cfg.hostOf(e.key), DrawFormat(e))
    ensures |m(e.key.base)| == cfg.pixels
    ensures var f, words := DrawFormat(e), m(e.key.base);
            (ColorOk(SurfaceAt(cfg, AfterDraw(cfg, s, e, index), e.key), ConsoleStep(m, e)(e.key.base), false)
             <==> forall i :: 0 <= i < cfg.pixels ==>
                    Pack(e.effect(i, Unpack(words[i], f), At(DepthMet(cfg, s, e), i)), f)
                    == Pack(e.effect(i, Unpack(words[i], f), At(m(e.depthBase), i)), f))
  {
    var f, words := DrawFormat(e), m(e.key.base);
    ShadingRightIff(cfg, s, m, t, e, index);
    BeforeCallReadies(cfg, s, m, t, e);
    CallMeets(cfg, s, m, t, e);
    assert Shows(ImageMet(cfg, s, e), words, f, true);
    forall i | 0 <= i < cfg.pixels
      ensures Pack(HostPixel(cfg, s, e, i), f) == Pack(e.effect(i, Unpack(words[i], f), At(DepthMet(cfg, s, e), i)), f)
    {
      HoldingKeepsBits(cfg.hostOf(e.key), f, e.effect(i, Unpack(words[i], f), At(DepthMet(cfg, s, e), i)));
    }
  }

  /** A draw whose pass cannot be opened, on a surface it met rightly: right if and only if it would have changed no word. */
  lemma {:induction false} DroppedRightIff(cfg: Config, s: Recording, m: Memory, t: Trust, e: Entry, index: nat)
    requires e.Draw? && e.key == Single(e.key.base) && e.depthBase != e.key.base && Sound(cfg, s, m, t)
    requires IsDropped(cfg, s, e) && SurfaceAt(cfg, s, e.key).begun && ColorSeen(cfg, s, t, e, false)
    ensures var b := e.key.base;
            (ColorOk(SurfaceAt(cfg, AfterDraw(cfg, s, e, index), e.key), ConsoleStep(m, e)(b), false)
             <==> DrawnWords(e, m(b), m(e.depthBase)) == m(b))
  {
    FormatChangeMeets(cfg, s, m, t, e);
    SplitWords(e, m);
    var s1 := AfterFormatChange(cfg, s, e);
    assert SurfaceAt(cfg, AfterDraw(cfg, s, e, index), e.key) == SurfaceAt(cfg, s1, e.key);
    StaysRightIff(SurfaceAt(cfg, s1, e.key), m(e.key.base), DrawnWords(e, m(e.key.base), m(e.depthBase)));
  }

  // ---------------------------------------------------------------- conversions the image cannot hold

  /** A conversion made in the image leaves what the word reads as in the other format. */
  predicate KeepsWord(host: SurfaceTargets.HostFormat, from: nat, to: nat, w: Word) {
    StoreIn(host, Reinterpret(Unpack(w, from), from, to)) == Unpack(w, to)
  }

  /** It does so for every word exactly when the image holds the format converted to. */
  lemma {:induction false} ConversionLosslessIff(host: SurfaceTargets.HostFormat, from: nat, to: nat)
    requires ReinterpretSupported(from) && ReinterpretSupported(to)
    ensures (forall w: Word :: KeepsWord(host, from, to, w))
        <==> host == SurfaceTargets.R16G16B16A16Sfloat || OwnContainer(host, to)
  {
    HoldsIff(host, to);
    forall w: Word
      ensures KeepsWord(host, from, to, w) <==> StoreIn(host, Unpack(w, to)) == Unpack(w, to)
    {
      WordReinterprets(w, from, to);
    }
    assert (forall w: Word :: KeepsWord(host, from, to, w)) ==> Holds(host, to);
  }

  lemma {:induction false} WordReinterprets(w: Word, from: nat, to: nat)
    requires ReinterpretSupported(from)
    ensures Reinterpret(Unpack(w, from), from, to) == Unpack(w, to)
  {
    PackInvertsUnpack(w, from);
  }

  /** An image of its own for one format holds another exactly when the two read alike. */
  lemma {:induction false} OwnContainerHoldsIff(host: SurfaceTargets.HostFormat, from: nat, to: nat)
    requires OwnContainer(host, from) && ReinterpretSupported(to)
    ensures Holds(host, to) <==> from == to || (from < 2 && to < 2)
  {
    HoldsIff(host, to);
  }

  /** What a converted copy read is the console's exactly when the image kept each of its words. */
  lemma {:induction false} ConvertedCopyExactIff(cfg: Config, s: Recording, m: Memory, t: Trust, e: Entry)
    requires e.Resolve? && e.key == Single(e.key.base) && Sound(cfg, s, m, t) && CopiesColor(cfg, s, e)
    requires e.key.base in t.color && CopyConverts(cfg, s, e)
    ensures var want := StorageColorFormat(e.sourceFormat);
            (ReadsAs(SurfaceAt(cfg, AfterCopyFormat(cfg, s, e), e.key).image, m(e.key.base), want)
             <==> forall i :: 0 <= i < cfg.pixels ==>
                    StoreIn(cfg.hostOf(e.key), Unpack(m(e.key.base)[i], want)) == Unpack(m(e.key.base)[i], want))
  {
    var was, words, want := SurfaceAt(cfg, s, e.key), m(e.key.base), StorageColorFormat(e.sourceFormat);
    TrustedOk(cfg, s, m, t, e.key.base, false);
    CopyFormatCases(cfg, s, e);
    var image := SurfaceAt(cfg, AfterCopyFormat(cfg, s, e), e.key).image;
    assert forall i :: 0 <= i < |words| ==> image[i] == StoreIn(cfg.hostOf(e.key), Unpack(words[i], want));
  }

  /** A copy whose conversion is refused: the bits it reads are right if and only if both formats make the same word of each value. */
  lemma {:induction false} RefusedCopyRightIff(cfg: Config, s: Recording, m: Memory, t: Trust, e: Entry)
    requires e.Resolve? && e.key == Single(e.key.base) && Sound(cfg, s, m, t) && CopiesColor(cfg, s, e)
    requires e.key.base in t.exact && !CopyConverts(cfg, s, e)
    ensures SurfaceAt(cfg, s, e.key).format.Some?
    ensures var kept, want := SurfaceAt(cfg, s, e.key).format.value, StorageColorFormat(e.sourceFormat);
            (PacksTo(SurfaceAt(cfg, AfterCopyFormat(cfg, s, e), e.key).image, m(e.key.base), want)
             <==> forall i :: 0 <= i < cfg.pixels ==> Pack(Unpack(m(e.key.base)[i], kept), want) == m(e.key.base)[i])
  {
    TrustedOk(cfg, s, m, t, e.key.base, true);
    CopyFormatCases(cfg, s, e);
  }
}

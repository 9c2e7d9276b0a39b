/**
 * The recorded frame against the console: whatever the guest issues, every image that can be trusted
 * packs to the console's words, or holds exactly the values they read as, and every copy of a trusted image
 * read what the console's copy reads.
 *
 * An image is finer than the words. A colour drawn is rounded on the console at once and on the host only when its
 * bits are taken, so the two part where a draw reads what the other has rounded.
 */
module EdramRefinement {
  import opened Wrappers
  import opened EdramFormats
  import opened HostContainers
  import opened FrameRecording
  import opened EdramConsole
  import SurfaceTargets

  // ---------------------------------------------------------------- the relation

  ghost predicate ReadsAs(image: seq<Color>, words: seq<Word>, format: nat) {
    |image| == |words| && forall i :: 0 <= i < |words| ==> image[i] == Unpack(words[i], format)
  }

  predicate AllAre(words: seq<Word>, word: Word) {
    forall i :: 0 <= i < |words| ==> words[i] == word
  }

  /** The image packs to the words, whatever finer values it holds. */
  ghost predicate PacksTo(image: seq<Color>, words: seq<Word>, format: nat) {
    |image| == |words| && forall i :: 0 <= i < |words| ==> Pack(image[i], format) == words[i]
  }

  /** The image shows the words: in its bits, or exactly in its values. */
  ghost predicate Shows(image: seq<Color>, words: seq<Word>, format: nat, exact: bool) {
    if exact then ReadsAs(image, words, format) else PacksTo(image, words, format)
  }

  lemma {:induction false} ReadsPack(image: seq<Color>, words: seq<Word>, format: nat, exact: bool)
    requires ReinterpretSupported(format) && ReadsAs(image, words, format)
    ensures Shows(image, words, format, exact)
  {
    forall i | 0 <= i < |words|
      ensures Pack(image[i], format) == words[i]
    {
      PackInvertsUnpack(words[i], format);
    }
  }

  /** A drawn surface shows the console's words; one not drawn this frame will be cleared to zero words. */
  ghost predicate ColorOk(t: Surface, words: seq<Word>, exact: bool) {
    if t.begun
    then t.format.Some? && ReinterpretSupported(t.format.value) && Shows(t.image, words, t.format.value, exact)
    else AllAre(words, 0)
  }

  ghost predicate DepthOk(cfg: Config, depths: map<Key, seq<Word>>, depth: Key, words: seq<Word>) {
    if depth in depths then depths[depth] == words else words == Filled(cfg, cfg.depthClear)
  }

  ghost predicate SurfaceShaped(cfg: Config, t: Surface) {
    |t.image| == cfg.pixels && (t.begun <==> t.format.Some?)
  }

  ghost predicate Shaped(cfg: Config, s: Recording, m: Memory) {
    && (forall b :: |m(b)| == cfg.pixels)
    && (forall k :: k in s.surfaces ==> SurfaceShaped(cfg, s.surfaces[k]))
    && (forall k :: k in s.depths ==> |s.depths[k]| == cfg.pixels)
    && (s.pass.Open? ==> SurfaceAt(cfg, s, s.pass.key).begun && Key(s.pass.depthBase, s.pass.key.multisample) in s.depths)
  }

  ghost predicate ColorSound(cfg: Config, s: Recording, m: Memory, bases: iset<nat>, exact: bool) {
    forall b :: b in bases ==> ColorOk(SurfaceAt(cfg, s, Single(b)), m(b), exact)
  }

  ghost predicate DepthSound(cfg: Config, s: Recording, m: Memory, bases: iset<nat>) {
    forall b :: b in bases ==> DepthOk(cfg, s.depths, Single(b), m(b))
  }

  ghost predicate Sound(cfg: Config, s: Recording, m: Memory, t: Trust) {
    && Shaped(cfg, s, m)
    && ColorSound(cfg, s, m, t.color, false) && ColorSound(cfg, s, m, t.exact, true)
    && DepthSound(cfg, s, m, t.depth)
  }

  // ---------------------------------------------------------------- values

  lemma {:induction false} ZeroReads(host: SurfaceTargets.HostFormat, words: seq<Word>, image: seq<Color>, format: nat)
    requires AllAre(words, 0) && |image| == |words| && Holds(host, format)
    requires forall i :: 0 <= i < |image| ==> image[i] == StoreIn(host, Black)
    ensures ReadsAs(image, words, format)
  {
    ZeroReadsBlack(format);
  }

  /** A conversion goes through the bits, so what comes out is exact even where what went in was not. */
  lemma {:induction false} ConvertReadsAs(host: SurfaceTargets.HostFormat, image: seq<Color>, words: seq<Word>, from: nat, to: nat)
    requires PacksTo(image, words, from) && Holds(host, to)
    ensures ReadsAs(ConvertImage(host, image, from, to), words, to)
  {}

  lemma {:induction false} SameEffect(cfg: Config, e: Entry, i: nat, c: Color, c': Color, w: Word, w': Word)
    requires e.Draw? && i < cfg.pixels
    requires c == c' || OverwritesColor(cfg, e)
    requires w == w' || ColorIgnoresDepth(cfg, e)
    ensures e.effect(i, c, w) == e.effect(i, c', w')
  {
    assert e.effect(i, c, w) == e.effect(i, c', w);
    assert e.effect(i, c', w) == e.effect(i, c', w');
  }

  /** What a draw of the console and of the host look at, in words and in an image. */
  ghost predicate SeesDepth(cfg: Config, e: Entry, depth: seq<Word>, words: seq<Word>)
    requires e.Draw?
  {
    depth == words || ColorIgnoresDepth(cfg, e)
  }

  /** Shading the image and shading the words agree, unless the draw looks at something that is not right. */
  lemma {:induction false} ShadeReadsAs(cfg: Config, e: Entry, image: seq<Color>, depth: seq<Word>,
                                        color: seq<Word>, words: seq<Word>)
    requires e.Draw? && WritesColor(e) && DrawFits(cfg.hostOf(e.key), e, color, words)
    requires |image| == |color| == cfg.pixels
    requires ReadsAs(image, color, DrawFormat(e)) || OverwritesColor(cfg, e)
    requires SeesDepth(cfg, e, depth, words)
    ensures ReadsAs(Shade(cfg.hostOf(e.key), e, image, depth), DrawnWords(e, color, words), DrawFormat(e))
  {
    var f := DrawFormat(e);
    forall i | 0 <= i < |color|
      ensures Shade(cfg.hostOf(e.key), e, image, depth)[i] == Unpack(DrawnWords(e, color, words)[i], f)
    {
      SameEffect(cfg, e, i, image[i], Unpack(color[i], f), At(depth, i), At(words, i));
      assert Fits(cfg.hostOf(e.key), f, e.effect(i, Unpack(color[i], f), At(words, i)));
    }
  }

  /** The bits agree whatever is drawn, if what the draw looks at is exact or its rounding stays hidden. */
  lemma {:induction false} ShadePacksTo(cfg: Config, e: Entry, image: seq<Color>, depth: seq<Word>,
                                        color: seq<Word>, words: seq<Word>)
    requires e.Draw? && WritesColor(e) && Holds(cfg.hostOf(e.key), DrawFormat(e))
    requires |image| == |color| == cfg.pixels
    requires || ReadsAs(image, color, DrawFormat(e)) || OverwritesColor(cfg, e)
             || (PacksTo(image, color, DrawFormat(e)) && HidesRounding(e, color, words))
    requires SeesDepth(cfg, e, depth, words)
    ensures PacksTo(Shade(cfg.hostOf(e.key), e, image, depth), DrawnWords(e, color, words), DrawFormat(e))
  {
    var f := DrawFormat(e);
    forall i | 0 <= i < |color|
      ensures Pack(Shade(cfg.hostOf(e.key), e, image, depth)[i], f) == DrawnWords(e, color, words)[i]
    {
      HoldingKeepsBits(cfg.hostOf(e.key), f, e.effect(i, image[i], At(depth, i)));
      SameEffect(cfg, e, i, image[i], image[i], At(depth, i), At(words, i));
      if ReadsAs(image, color, f) || OverwritesColor(cfg, e) {
        SameEffect(cfg, e, i, image[i], Unpack(color[i], f), At(words, i), At(words, i));
      } else {
        assert DrawnAlike(e, i, image[i], color[i], At(words, i));
      }
    }
  }

  lemma {:induction false} ShadeDepthIsRight(cfg: Config, e: Entry, depth: seq<Word>, words: seq<Word>)
    requires e.Draw? && |depth| == |words| == cfg.pixels
    requires depth == words || OverwritesDepth(cfg, e)
    ensures ShadeDepth(e, depth) == DepthOver(e, words, words)
  {
    forall i | 0 <= i < |words|
      ensures ShadeDepth(e, depth)[i] == DepthOver(e, words, words)[i]
    {
      assert depth == words || e.depthEffect(i, depth[i]) == e.depthEffect(i, words[i]);
    }
  }

  /** Over other words, depths that are written everywhere leave nothing of them. */
  lemma {:induction false} DepthHides(cfg: Config, e: Entry, depth: seq<Word>, words: seq<Word>, under: seq<Word>)
    requires e.Draw? && |under| == |words| == |depth| == cfg.pixels && (under == words || OverwritesDepth(cfg, e))
    ensures DepthOver(e, depth, under) == DepthOver(e, depth, words)
  {
    forall i | 0 <= i < |words|
      ensures DepthOver(e, depth, under)[i] == DepthOver(e, depth, words)[i]
    {
      if under != words {
        assert e.depthEffect(i, At(depth, i)).Some?;
      }
    }
  }

  lemma {:induction false} NoDepthKept(cfg: Config, e: Entry, depth: seq<Word>, under: seq<Word>)
    requires e.Draw? && KeepsDepth(cfg, e) && |under| == cfg.pixels
    ensures DepthOver(e, depth, under) == under
  {
    forall i | 0 <= i < |under|
      ensures DepthOver(e, depth, under)[i] == under[i]
    {
      assert e.depthEffect(i, At(depth, i)).None?;
    }
  }

  lemma {:induction false} AliasReadsAs(host: SurfaceTargets.HostFormat, words: seq<Word>, format: nat)
    requires Holds(host, format)
    ensures ReadsAs(UnpackImage(host, words, format), words, format)
  {}

  // ---------------------------------------------------------------- steps that touch two bases

  predicate SameDepth(s: Recording, s': Recording, k: Key) {
    && (k in s'.depths <==> k in s.depths)
    && (k in s.depths ==> s'.depths[k] == s.depths[k])
  }

  /** Nothing but what is kept for these two bases has changed. */
  ghost predicate TouchesOnly(cfg: Config, s: Recording, s': Recording, m: Memory, m': Memory, b: nat, d: nat) {
    forall k :: k != b && k != d ==>
      m'(k) == m(k) && SurfaceAt(cfg, s', Single(k)) == SurfaceAt(cfg, s, Single(k)) && SameDepth(s, s', Single(k))
  }

  lemma {:induction false} TrustedOk(cfg: Config, s: Recording, m: Memory, t: Trust, base: nat, exact: bool)
    requires Sound(cfg, s, m, t) && base in Colors(t, exact)
    ensures ColorOk(SurfaceAt(cfg, s, Single(base)), m(base), exact)
  {}

  lemma {:induction false} TwoBasesSound(cfg: Config, s: Recording, s': Recording, m: Memory, m': Memory,
                                         t: Trust, t': Trust, b: nat, d: nat)
    requires Sound(cfg, s, m, t) && Shaped(cfg, s', m') && TouchesOnly(cfg, s, s', m, m', b, d)
    requires forall x, k :: k in Colors(t', x) && k != b && k != d ==> k in Colors(t, x)
    requires forall k :: k in t'.depth && k != b && k != d ==> k in t.depth
    requires forall x :: b in Colors(t', x) ==> ColorOk(SurfaceAt(cfg, s', Single(b)), m'(b), x)
    requires forall x :: d in Colors(t', x) ==> ColorOk(SurfaceAt(cfg, s', Single(d)), m'(d), x)
    requires b in t'.depth ==> DepthOk(cfg, s'.depths, Single(b), m'(b))
    requires d in t'.depth ==> DepthOk(cfg, s'.depths, Single(d), m'(d))
    ensures Sound(cfg, s', m', t')
  {
    forall x, k | k in Colors(t', x)
      ensures ColorOk(SurfaceAt(cfg, s', Single(k)), m'(k), x)
    {
      if k != b && k != d {
        TrustedOk(cfg, s, m, t, k, x);
      }
    }
    assert forall k :: k in t'.color ==> k in Colors(t', false);
    assert forall k :: k in t'.exact ==> k in Colors(t', true);
    forall k | k in t'.depth
      ensures DepthOk(cfg, s'.depths, Single(k), m'(k))
    {
      if k != b && k != d {
        assert DepthOk(cfg, s.depths, Single(k), m(k));
      }
    }
  }

  // ---------------------------------------------------------------- a draw

  /** The surface has met the draw's format, and nothing else has changed. */
  ghost predicate Met(cfg: Config, s: Recording, s1: Recording, m: Memory, t: Trust, e: Entry)
    requires e.Draw?
  {
    var was, now := SurfaceAt(cfg, s, e.key), SurfaceAt(cfg, s1, e.key);
    && s1.depths == s.depths && s1.copies == s.copies && (s1.pass.Open? ==> s1.pass == s.pass)
    && (forall k :: k != e.key ==> SurfaceAt(cfg, s1, k) == SurfaceAt(cfg, s, k))
    && SurfaceShaped(cfg, now) && now.begun == was.begun
    && (was.begun ==> now.format == LabelAfter(cfg, s, e))
    && (forall x :: was.begun && ColorSeen(cfg, s, t, e, x) ==>
          ReinterpretSupported(now.format.value) && Shows(now.image, m(e.key.base), now.format.value, x))
  }

  lemma {:induction false} UnbegunUnmet(cfg: Config, s: Recording, e: Entry)
    requires e.Draw? && !SurfaceAt(cfg, s, e.key).begun
    ensures AfterFormatChange(cfg, s, e) == s
  {}

  /** A converting format change either converts and relabels, or leaves the surface as it was. */
  lemma {:induction false} ConversionCases(cfg: Config, s: Recording, e: Entry)
    requires e.Draw? && SurfaceAt(cfg, s, e.key).begun && SurfaceAt(cfg, s, e.key).format.Some?
    requires SurfaceAt(cfg, s, e.key).format != Some(DrawFormat(e)) && WritesColor(e) && !BlendIsIdentity(e.blend0)
    ensures var s1, was := AfterFormatChange(cfg, s, e), SurfaceAt(cfg, s, e.key);
            && s1.depths == s.depths && s1.copies == s.copies && s1.pass.Closed?
            && (forall k :: k != e.key ==> SurfaceAt(cfg, s1, k) == SurfaceAt(cfg, s, k))
            && (SurfaceAt(cfg, s1, e.key) == was
                || (&& ReinterpretSupported(was.format.value) && ReinterpretSupported(DrawFormat(e))
                    && SurfaceAt(cfg, s1, e.key)
                       == was.(format := Some(DrawFormat(e)),
                               image := ConvertImage(cfg.hostOf(e.key), was.image, was.format.value, DrawFormat(e)))))
  {}

  lemma {:induction false} ConversionMeets(cfg: Config, s: Recording, m: Memory, t: Trust, e: Entry)
    requires e.Draw? && e.key == Single(e.key.base) && Sound(cfg, s, m, t) && SurfaceAt(cfg, s, e.key).begun
    requires SurfaceAt(cfg, s, e.key).format != Some(DrawFormat(e)) && WritesColor(e) && !BlendIsIdentity(e.blend0)
    ensures Met(cfg, s, AfterFormatChange(cfg, s, e), m, t, e)
  {
    var was, host := SurfaceAt(cfg, s, e.key), cfg.hostOf(e.key);
    ConversionCases(cfg, s, e);
    if e.key.base in t.color && ConvertsTo(cfg, s, e) {
      TrustedOk(cfg, s, m, t, e.key.base, false);
      ConvertReadsAs(host, was.image, m(e.key.base), was.format.value, DrawFormat(e));
      ReadsPack(SurfaceAt(cfg, AfterFormatChange(cfg, s, e), e.key).image, m(e.key.base), DrawFormat(e), false);
    }
  }

  lemma {:induction false} FormatChangeMeets(cfg: Config, s: Recording, m: Memory, t: Trust, e: Entry)
    requires e.Draw? && e.key == Single(e.key.base) && Sound(cfg, s, m, t)
    ensures Met(cfg, s, AfterFormatChange(cfg, s, e), m, t, e)
  {
    var was := SurfaceAt(cfg, s, e.key);
    if !was.begun {
      UnbegunUnmet(cfg, s, e);
    } else if was.format != Some(DrawFormat(e)) && WritesColor(e) && !BlendIsIdentity(e.blend0) {
      ConversionMeets(cfg, s, m, t, e);
    } else {
      forall x | ColorSeen(cfg, s, t, e, x)
        ensures ColorOk(was, m(e.key.base), x)
      {
        TrustedOk(cfg, s, m, t, e.key.base, x);
      }
    }
  }

  function BeforeCall(cfg: Config, s: Recording, e: Entry): Recording
    requires e.Draw?
  {
    var s1 := AfterFormatChange(cfg, s, e);
    if NeedsPass(s1, e) then AfterBeginPass(cfg, AfterEndPass(s1), e.key, e.depthBase) else s1
  }

  /** A pass is open on the draw's own surface and depth buffer, and what it sees of them is right. */
  ghost predicate ReadyToCall(cfg: Config, s: Recording, s2: Recording, m: Memory, t: Trust, e: Entry)
    requires e.Draw?
  {
    var now := SurfaceAt(cfg, s2, e.key);
    && s2.pass == Open(e.key, e.depthBase) && s2.copies == s.copies
    && (forall k :: k != e.key ==> SurfaceAt(cfg, s2, k) == SurfaceAt(cfg, s, k))
    && (forall k :: k != DepthKey(e) ==> SameDepth(s, s2, k))
    && now.begun && |now.image| == cfg.pixels && LabelAfter(cfg, s, e).Some?
    && (now.format == LabelAfter(cfg, s, e) || (now.format.None? && !SurfaceAt(cfg, s, e.key).begun))
    && DepthKey(e) in s2.depths && |s2.depths[DepthKey(e)]| == cfg.pixels
    && (DepthSeen(cfg, s, t, e) ==> s2.depths[DepthKey(e)] == m(e.depthBase))
    && (forall x :: ColorSeen(cfg, s, t, e, x) ==>
          && ReinterpretSupported(LabelAfter(cfg, s, e).value)
          && Shows(now.image, m(e.key.base), LabelAfter(cfg, s, e).value, x))
  }

  lemma {:induction false} FirstPassReadies(cfg: Config, s: Recording, m: Memory, t: Trust, e: Entry)
    requires e.Draw? && e.key == Single(e.key.base) && Sound(cfg, s, m, t) && !SurfaceAt(cfg, s, e.key).begun
    ensures ReadyToCall(cfg, s, BeforeCall(cfg, s, e), m, t, e)
  {
    UnbegunUnmet(cfg, s, e);
    forall x | ColorSeen(cfg, s, t, e, x)
      ensures Shows(Blank(cfg, e.key), m(e.key.base), DrawFormat(e), x)
    {
      TrustedOk(cfg, s, m, t, e.key.base, x);
      ZeroReads(cfg.hostOf(e.key), m(e.key.base), Blank(cfg, e.key), DrawFormat(e));
      ReadsPack(Blank(cfg, e.key), m(e.key.base), DrawFormat(e), x);
    }
    if DepthSeen(cfg, s, t, e) {
      assert DepthOk(cfg, s.depths, Single(e.depthBase), m(e.depthBase));
    }
  }

  /** From a surface that has met the draw's format to the pass it is drawn in, new or open. */
  lemma {:induction false} OpenPassReadies(cfg: Config, s: Recording, s1: Recording, m: Memory, t: Trust, e: Entry)
    requires e.Draw? && e.key == Single(e.key.base) && Sound(cfg, s, m, t) && SurfaceAt(cfg, s, e.key).begun
    requires Met(cfg, s, s1, m, t, e) && !NeedsPass(s1, e)
    ensures ReadyToCall(cfg, s, s1, m, t, e)
  {
    if DepthSeen(cfg, s, t, e) {
      assert DepthOk(cfg, s.depths, Single(e.depthBase), m(e.depthBase));
    }
  }

  lemma {:induction false} NewPassReadies(cfg: Config, s: Recording, s1: Recording, m: Memory, t: Trust, e: Entry)
    requires e.Draw? && e.key == Single(e.key.base) && Sound(cfg, s, m, t) && SurfaceAt(cfg, s, e.key).begun
    requires Met(cfg, s, s1, m, t, e)
    ensures ReadyToCall(cfg, s, AfterBeginPass(cfg, AfterEndPass(s1), e.key, e.depthBase), m, t, e)
  {
    if DepthSeen(cfg, s, t, e) {
      assert DepthOk(cfg, s.depths, Single(e.depthBase), m(e.depthBase));
    }
  }

  lemma {:induction false} LaterPassReadies(cfg: Config, s: Recording, m: Memory, t: Trust, e: Entry)
    requires e.Draw? && e.key == Single(e.key.base) && Sound(cfg, s, m, t) && SurfaceAt(cfg, s, e.key).begun
    ensures ReadyToCall(cfg, s, BeforeCall(cfg, s, e), m, t, e)
  {
    FormatChangeMeets(cfg, s, m, t, e);
    if NeedsPass(AfterFormatChange(cfg, s, e), e) {
      NewPassReadies(cfg, s, AfterFormatChange(cfg, s, e), m, t, e);
    } else {
      OpenPassReadies(cfg, s, AfterFormatChange(cfg, s, e), m, t, e);
    }
  }

  /** The call has been made, and what it leaves is right where the trust says so. */
  ghost predicate Called(cfg: Config, s: Recording, s3: Recording, m: Memory, t: Trust, e: Entry)
    requires e.Draw?
  {
    var now := SurfaceAt(cfg, s3, e.key);
    && s3.pass == Open(e.key, e.depthBase) && s3.copies == s.copies
    && (forall k :: k != e.key ==> SurfaceAt(cfg, s3, k) == SurfaceAt(cfg, s, k))
    && (forall k :: k != DepthKey(e) ==> SameDepth(s, s3, k))
    && now.begun && |now.image| == cfg.pixels && now.format.Some? && now.format == LabelAfter(cfg, s, e)
    && DepthKey(e) in s3.depths && |s3.depths[DepthKey(e)]| == cfg.pixels
    && (DepthSeen(cfg, s, t, e) || OverwritesDepth(cfg, e) ==>
          s3.depths[DepthKey(e)] == DepthOver(e, m(e.depthBase), m(e.depthBase)))
    && (forall x :: ColorDrawn(cfg, s, t, m, e, x) ==>
          && ReinterpretSupported(now.format.value)
          && Shows(now.image, DrawnWords(e, m(e.key.base), m(e.depthBase)), now.format.value, x))
  }

  lemma {:induction false} CallColorIsRight(cfg: Config, s: Recording, s2: Recording, m: Memory, t: Trust, e: Entry, exact: bool)
    requires e.Draw? && ReadyToCall(cfg, s, s2, m, t, e) && ColorDrawn(cfg, s, t, m, e, exact)
    requires |m(e.key.base)| == cfg.pixels
    ensures ReinterpretSupported(LabelAfter(cfg, s, e).value)
    ensures Shows(Shade(cfg.hostOf(e.key), e, SurfaceAt(cfg, s2, e.key).image, s2.depths[DepthKey(e)]),
                  DrawnWords(e, m(e.key.base), m(e.depthBase)), LabelAfter(cfg, s, e).value, exact)
  {
    var image, depth, words := SurfaceAt(cfg, s2, e.key).image, s2.depths[DepthKey(e)], m(e.key.base);
    if WritesColor(e) {
      if ColorSeen(cfg, s, t, e, true) {
        assert Shows(image, words, DrawFormat(e), true);
      }
      if ExactlyDrawn(cfg, s, t, m, e) {
        ShadeReadsAs(cfg, e, image, depth, words, m(e.depthBase));
        ReadsPack(Shade(cfg.hostOf(e.key), e, image, depth), DrawnWords(e, words, m(e.depthBase)), DrawFormat(e), exact);
      } else {
        assert ColorSeen(cfg, s, t, e, false) ==> Shows(image, words, DrawFormat(e), false);
        ShadePacksTo(cfg, e, image, depth, words, m(e.depthBase));
      }
    } else {
      assert Shows(image, words, LabelAfter(cfg, s, e).value, exact);
    }
  }

  lemma {:induction false} CallDepthIsRight(cfg: Config, s: Recording, s2: Recording, m: Memory, t: Trust, e: Entry)
    requires e.Draw? && ReadyToCall(cfg, s, s2, m, t, e) && |m(e.depthBase)| == cfg.pixels
    requires DepthSeen(cfg, s, t, e) || OverwritesDepth(cfg, e)
    ensures ShadeDepth(e, s2.depths[DepthKey(e)]) == DepthOver(e, m(e.depthBase), m(e.depthBase))
  {
    ShadeDepthIsRight(cfg, e, s2.depths[DepthKey(e)], m(e.depthBase));
  }

  lemma {:induction false} CallIsRight(cfg: Config, s: Recording, s2: Recording, m: Memory, t: Trust, e: Entry, index: nat)
    requires e.Draw? && ReadyToCall(cfg, s, s2, m, t, e)
    requires |m(e.key.base)| == cfg.pixels && |m(e.depthBase)| == cfg.pixels
    ensures Called(cfg, s, AfterDrawCall(cfg, s2, e, index), m, t, e)
  {
    var s3 := AfterDrawCall(cfg, s2, e, index);
    var now := SurfaceAt(cfg, s2, e.key);
    assert SurfaceAt(cfg, s3, e.key).format == LabelAfter(cfg, s, e);
    assert SurfaceAt(cfg, s3, e.key).image == Shade(cfg.hostOf(e.key), e, now.image, s2.depths[DepthKey(e)]);
    forall k | k != DepthKey(e)
      ensures SameDepth(s, s3, k)
    {
      assert SameDepth(s, s2, k);
    }
    if DepthSeen(cfg, s, t, e) || OverwritesDepth(cfg, e) {
      CallDepthIsRight(cfg, s, s2, m, t, e);
    }
    forall x | ColorDrawn(cfg, s, t, m, e, x)
      ensures && ReinterpretSupported(LabelAfter(cfg, s, e).value)
              && Shows(SurfaceAt(cfg, s3, e.key).image, DrawnWords(e, m(e.key.base), m(e.depthBase)),
                       LabelAfter(cfg, s, e).value, x)
    {
      CallColorIsRight(cfg, s, s2, m, t, e, x);
    }
  }

  // ---------------------------------------------------------------- a draw, to its end

  /** What the alias pass reads and writes, when it runs. */
  ghost predicate Aliased(cfg: Config, s3: Recording, s4: Recording, e: Entry)
    requires e.Draw?
  {
    var was, now := SurfaceAt(cfg, s3, e.key), SurfaceAt(cfg, s4, e.key);
    && s4.depths == s3.depths && s4.copies == s3.copies && s4.pass.Closed?
    && (forall k :: k != e.key ==> SurfaceAt(cfg, s4, k) == SurfaceAt(cfg, s3, k))
    && (if CanAlias(cfg, s3, e)
        then now == was.(image := UnpackImage(cfg.hostOf(e.key), DepthAt(cfg, s3, DepthKey(e)), was.format.value))
        else now == was)
  }

  lemma {:induction false} AliasPass(cfg: Config, s3: Recording, e: Entry)
    requires e.Draw?
    ensures Aliased(cfg, s3, AfterAlias(cfg, AfterEndPass(s3), e), e)
  {
    var s4 := AfterEndPass(s3);
    assert forall k :: SurfaceAt(cfg, s4, k) == SurfaceAt(cfg, s3, k);
  }

  lemma {:induction false} SharedWords(e: Entry, m: Memory)
    requires e.Draw? && e.key.base == e.depthBase
    ensures ConsoleStep(m, e)(e.depthBase)
         == DepthOver(e, m(e.depthBase), DrawnWords(e, m(e.key.base), m(e.depthBase)))
    ensures forall k :: k != e.depthBase ==> ConsoleStep(m, e)(k) == m(k)
  {}

  lemma {:induction false} SplitWords(e: Entry, m: Memory)
    requires e.Draw? && e.key.base != e.depthBase
    ensures ConsoleStep(m, e)(e.key.base) == DrawnWords(e, m(e.key.base), m(e.depthBase))
    ensures ConsoleStep(m, e)(e.depthBase) == DepthOver(e, m(e.depthBase), m(e.depthBase))
    ensures forall k :: k != e.key.base && k != e.depthBase ==> ConsoleStep(m, e)(k) == m(k)
  {}

  lemma {:induction false} ConsoleKeepsLengths(cfg: Config, m: Memory, e: Entry)
    requires forall b :: |m(b)| == cfg.pixels
    ensures forall b :: |ConsoleStep(m, e)(b)| == cfg.pixels
  {}

  /** Colour and depth at two bases: each is right on its own, and each can be spoiled by the other. */
  lemma {:induction false} SplitDrawSound(cfg: Config, s: Recording, s3: Recording, m: Memory, t: Trust, e: Entry)
    requires e.Draw? && e.key == Single(e.key.base) && e.key.base != e.depthBase && !IsDropped(cfg, s, e)
    requires Sound(cfg, s, m, t) && Called(cfg, s, s3, m, t, e) && Shaped(cfg, s3, ConsoleStep(m, e))
    ensures Sound(cfg, s3, ConsoleStep(m, e), TrustAfterDraw(cfg, s, t, m, e))
  {
    var b, d, m' := e.key.base, e.depthBase, ConsoleStep(m, e);
    SplitWords(e, m);
    var t' := TrustAfterDraw(cfg, s, t, m, e);
    forall k | k != b && k != d
      ensures SameDepth(s, s3, Single(k))
    {
      assert SameDepth(s, s3, Single(k));
    }
    forall x | d in Colors(t', x)
      ensures ColorOk(SurfaceAt(cfg, s3, Single(d)), m'(d), x)
    {
      TrustedOk(cfg, s, m, t, d, x);
      NoDepthKept(cfg, e, m(d), m(d));
    }
    if b in t'.depth {
      assert DepthOk(cfg, s.depths, Single(b), m(b)) && SameDepth(s, s3, Single(b));
    }
    TwoBasesSound(cfg, s, s3, m, m', t, t', b, d);
  }

  lemma {:induction false} SharedDepthIsRight(cfg: Config, s: Recording, s3: Recording, m: Memory, t: Trust, e: Entry)
    requires e.Draw? && e.key.base == e.depthBase && Called(cfg, s, s3, m, t, e) && DepthDrawn(cfg, s, t, e)
    requires |m(e.depthBase)| == cfg.pixels
    ensures s3.depths[DepthKey(e)] == ConsoleStep(m, e)(e.depthBase)
  {
    SharedWords(e, m);
    var words := m(e.depthBase);
    DepthHides(cfg, e, words, words, DrawnWords(e, words, words));
  }

  /** One base for both: the alias pass makes the colour image the depth image. */
  lemma {:induction false} SharedDrawSound(cfg: Config, s: Recording, s3: Recording, s4: Recording, m: Memory, t: Trust, e: Entry)
    requires e.Draw? && e.key == Single(e.key.base) && e.key.base == e.depthBase && !IsDropped(cfg, s, e)
    requires Sound(cfg, s, m, t) && Called(cfg, s, s3, m, t, e) && s3.counters.aliased == s.counters.aliased
    requires Aliased(cfg, s3, s4, e) && Shaped(cfg, s4, ConsoleStep(m, e))
    ensures Sound(cfg, s4, ConsoleStep(m, e), TrustAfterDraw(cfg, s, t, m, e))
  {
    var b, m', t' := e.key.base, ConsoleStep(m, e), TrustAfterDraw(cfg, s, t, m, e);
    SharedWords(e, m);
    forall k | k != b
      ensures SameDepth(s, s4, Single(k))
    {
      assert SameDepth(s, s3, Single(k));
    }
    if DepthDrawn(cfg, s, t, e) {
      SharedDepthIsRight(cfg, s, s3, m, t, e);
    }
    forall x | b in Colors(t', x)
      ensures ColorOk(SurfaceAt(cfg, s4, Single(b)), m'(b), x)
    {
      if WillAlias(cfg, s, e) {
        AliasReadsAs(cfg.hostOf(e.key), m'(b), LabelAfter(cfg, s, e).value);
        ReadsPack(SurfaceAt(cfg, s4, Single(b)).image, m'(b), LabelAfter(cfg, s, e).value, x);
      } else {
        NoDepthKept(cfg, e, m(b), DrawnWords(e, m(b), m(b)));
      }
    }
    TwoBasesSound(cfg, s, s4, m, m', t, t', b, b);
  }

  lemma {:induction false} ShapedElsewhere(cfg: Config, s: Recording, s': Recording, m: Memory, m': Memory, key: Key, depth: Key)
    requires Shaped(cfg, s, m) && forall b :: |m'(b)| == cfg.pixels
    requires forall k :: k != key ==> SurfaceAt(cfg, s', k) == SurfaceAt(cfg, s, k)
    requires SurfaceShaped(cfg, SurfaceAt(cfg, s', key))
    requires forall k :: k != depth ==> SameDepth(s, s', k)
    requires depth in s'.depths ==> |s'.depths[depth]| == cfg.pixels
    requires s'.pass.Open? ==>
               SurfaceAt(cfg, s', s'.pass.key).begun && Key(s'.pass.depthBase, s'.pass.key.multisample) in s'.depths
    ensures Shaped(cfg, s', m')
  {
    forall k | k in s'.surfaces
      ensures SurfaceShaped(cfg, s'.surfaces[k])
    {
      assert s'.surfaces[k] == SurfaceAt(cfg, s', k);
      if k != key {
        assert SurfaceAt(cfg, s', k) == SurfaceAt(cfg, s, k);
        assert k in s.surfaces ==> SurfaceShaped(cfg, s.surfaces[k]);
      }
    }
    forall k | k in s'.depths
      ensures |s'.depths[k]| == cfg.pixels
    {
      if k != depth {
        assert SameDepth(s, s', k);
      }
    }
  }

  lemma {:induction false} AliasesCounted(cfg: Config, s: Recording, e: Entry, index: nat)
    requires e.Draw?
    ensures AfterDrawCall(cfg, BeforeCall(cfg, s, e), e, index).counters.aliased == s.counters.aliased
  {
    assert AfterFormatChange(cfg, s, e).counters.aliased == s.counters.aliased;
  }

  lemma {:induction false} BeforeCallReadies(cfg: Config, s: Recording, m: Memory, t: Trust, e: Entry)
    requires e.Draw? && e.key == Single(e.key.base) && Sound(cfg, s, m, t)
    ensures ReadyToCall(cfg, s, BeforeCall(cfg, s, e), m, t, e)
  {
    if SurfaceAt(cfg, s, e.key).begun {
      LaterPassReadies(cfg, s, m, t, e);
    } else {
      FirstPassReadies(cfg, s, m, t, e);
    }
  }

  lemma {:induction false} DroppedSound(cfg: Config, s: Recording, s1: Recording, m: Memory, t: Trust, e: Entry)
    requires e.Draw? && e.key == Single(e.key.base) && Sound(cfg, s, m, t) && IsDropped(cfg, s, e)
    requires Met(cfg, s, s1, m, t, e)
    ensures Sound(cfg, AfterEndPass(s1), ConsoleStep(m, e), TrustAfterDraw(cfg, s, t, m, e))
  {
    var s', m' := AfterEndPass(s1), ConsoleStep(m, e);
    assert forall k :: SurfaceAt(cfg, s', k) == SurfaceAt(cfg, s1, k);
    ConsoleKeepsLengths(cfg, m, e);
    ShapedElsewhere(cfg, s, s', m, m', e.key, DepthKey(e));
    if e.key.base == e.depthBase {
      SharedWords(e, m);
    } else {
      SplitWords(e, m);
    }
    TwoBasesSound(cfg, s, s', m, m', t, TrustAfterDraw(cfg, s, t, m, e), e.key.base, e.depthBase);
  }

  lemma {:induction false} CalledSound(cfg: Config, s: Recording, s3: Recording, m: Memory, t: Trust, e: Entry)
    requires e.Draw? && e.key == Single(e.key.base) && Sound(cfg, s, m, t) && !IsDropped(cfg, s, e)
    requires Called(cfg, s, s3, m, t, e) && s3.counters.aliased == s.counters.aliased
    ensures var s4 := if e.depthBase == e.key.base then AfterAlias(cfg, AfterEndPass(s3), e) else s3;
            Sound(cfg, s4, ConsoleStep(m, e), TrustAfterDraw(cfg, s, t, m, e)) && s4.copies == s.copies
  {
    ConsoleKeepsLengths(cfg, m, e);
    if e.depthBase == e.key.base {
      var s4 := AfterAlias(cfg, AfterEndPass(s3), e);
      AliasPass(cfg, s3, e);
      forall k | k != DepthKey(e)
        ensures SameDepth(s, s4, k)
      {
        assert SameDepth(s, s3, k);
      }
      ShapedElsewhere(cfg, s, s4, m, ConsoleStep(m, e), e.key, DepthKey(e));
      SharedDrawSound(cfg, s, s3, s4, m, t, e);
    } else {
      ShapedElsewhere(cfg, s, s3, m, ConsoleStep(m, e), e.key, DepthKey(e));
      SplitDrawSound(cfg, s, s3, m, t, e);
    }
  }

  /** One draw, whatever it is: what is trusted after it is right. */
  lemma {:induction false} DrawSound(cfg: Config, s: Recording, m: Memory, t: Trust, e: Entry, index: nat)
    requires e.Draw? && e.key == Single(e.key.base) && Sound(cfg, s, m, t)
    ensures Sound(cfg, AfterDraw(cfg, s, e, index), ConsoleStep(m, e), TrustAfterDraw(cfg, s, t, m, e))
    ensures AfterDraw(cfg, s, e, index).copies == s.copies
  {
    if IsDropped(cfg, s, e) {
      FormatChangeMeets(cfg, s, m, t, e);
      DroppedSound(cfg, s, AfterFormatChange(cfg, s, e), m, t, e);
    } else {
      BeforeCallReadies(cfg, s, m, t, e);
      CallIsRight(cfg, s, BeforeCall(cfg, s, e), m, t, e, index);
      AliasesCounted(cfg, s, e, index);
      CalledSound(cfg, s, AfterDrawCall(cfg, BeforeCall(cfg, s, e), e, index), m, t, e);
    }
  }

  // ---------------------------------------------------------------- a copy

  lemma {:induction false} OneBaseSound(cfg: Config, s: Recording, s': Recording, m: Memory, m': Memory,
                                        t: Trust, t': Trust, b: nat)
    requires Sound(cfg, s, m, t) && Shaped(cfg, s', m') && TouchesOnly(cfg, s, s', m, m', b, b)
    requires forall x, k :: k in Colors(t', x) && k != b ==> k in Colors(t, x)
    requires forall k :: k in t'.depth && k != b ==> k in t.depth
    requires forall x :: b in Colors(t', x) ==> ColorOk(SurfaceAt(cfg, s', Single(b)), m'(b), x)
    requires b in t'.depth ==> DepthOk(cfg, s'.depths, Single(b), m'(b))
    ensures Sound(cfg, s', m', t')
  {
    TwoBasesSound(cfg, s, s', m, m', t, t', b, b);
  }

  /** Ending a pass, recording a command and logging a copy change nothing that is stored. */
  lemma {:induction false} SameStoresSound(cfg: Config, s: Recording, s': Recording, m: Memory, t: Trust)
    requires Sound(cfg, s, m, t) && s'.surfaces == s.surfaces && s'.depths == s.depths
    requires s'.pass == s.pass || s'.pass.Closed?
    ensures Sound(cfg, s', m, t)
  {
    assert forall k :: SurfaceAt(cfg, s', k) == SurfaceAt(cfg, s, k);
  }

  /** What a copy's format change leaves: converted and relabelled, or as it was. */
  lemma {:induction false} CopyFormatCases(cfg: Config, s: Recording, e: Entry)
    requires e.Resolve? && SurfaceAt(cfg, s, e.key).begun && SurfaceAt(cfg, s, e.key).format.Some?
    ensures var s', was, want := AfterCopyFormat(cfg, s, e), SurfaceAt(cfg, s, e.key), StorageColorFormat(e.sourceFormat);
            && s'.depths == s.depths && s'.pass == s.pass && s'.copies == s.copies
            && (forall k :: k != e.key ==> SurfaceAt(cfg, s', k) == SurfaceAt(cfg, s, k))
            && (SurfaceAt(cfg, s', e.key) == was
                || (&& ReinterpretSupported(was.format.value) && ReinterpretSupported(want) && was.format != Some(want)
                    && SurfaceAt(cfg, s', e.key)
                       == was.(format := Some(want),
                               image := ConvertImage(cfg.hostOf(e.key), was.image, was.format.value, want))))
  {}

  lemma {:induction false} CopyFormatSound(cfg: Config, s: Recording, m: Memory, t: Trust, e: Entry)
    requires e.Resolve? && e.key == Single(e.key.base) && Sound(cfg, s, m, t) && CopiesColor(cfg, s, e)
    ensures Sound(cfg, AfterCopyFormat(cfg, s, e), m, TrustAfterCopy(cfg, s, t, e))
    ensures forall x :: ColorCopyRight(cfg, s, t, e, x) ==>
              Shows(SurfaceAt(cfg, AfterCopyFormat(cfg, s, e), e.key).image, m(e.key.base), StorageColorFormat(e.sourceFormat), x)
  {
    var s', t', b := AfterCopyFormat(cfg, s, e), TrustAfterCopy(cfg, s, t, e), e.key.base;
    var was, want := SurfaceAt(cfg, s, e.key), StorageColorFormat(e.sourceFormat);
    CopyFormatCases(cfg, s, e);
    forall x | b in Colors(t, x)
      ensures ColorOk(was, m(b), x)
    {
      TrustedOk(cfg, s, m, t, b, x);
    }
    if b in t.color && CopyConverts(cfg, s, e) && Holds(cfg.hostOf(e.key), want) {
      assert ColorOk(was, m(b), false);
      ConvertReadsAs(cfg.hostOf(e.key), was.image, m(b), was.format.value, want);
      ReadsPack(SurfaceAt(cfg, s', e.key).image, m(b), want, false);
    }
    ShapedElsewhere(cfg, s, s', m, m, e.key, e.key);
    OneBaseSound(cfg, s, s', m, m, t, t', b);
  }

  lemma {:induction false} CopyFormatBegins(cfg: Config, s: Recording, e: Entry)
    requires e.Resolve?
    ensures forall k :: SurfaceAt(cfg, AfterCopyFormat(cfg, s, e), k).begun == SurfaceAt(cfg, s, k).begun
  {}

  /** Every copy there was before, and at most this entry's beside them. */
  ghost predicate CopiedBy(s: Recording, s': Recording, index: nat) {
    || s'.copies == s.copies
    || (|s'.copies| == |s.copies| + 1 && s'.copies[..|s.copies|] == s.copies && s'.copies[|s.copies|].entry == index)
  }

  /** The copy itself: what it leaves stored, and what it read. */
  ghost predicate CopyDone(cfg: Config, s: Recording, s1: Recording, m: Memory, t: Trust, e: Entry, index: nat)
    requires e.Resolve?
  {
    && Sound(cfg, s1, m, TrustAfterCopy(cfg, s, t, e))
    && (forall k :: SurfaceAt(cfg, s1, k).begun == SurfaceAt(cfg, s, k).begun)
    && CopiedBy(s, s1, index)
    && (forall x :: s1.copies != s.copies && CopyRight(cfg, s, t, e, x) ==> CopyShows(s1.copies[|s.copies|], e, m, x))
    && (s1.copies != s.copies ==> IsCopyOf(s1.copies[|s.copies|], e) && (e.isDepth || CopiesColor(cfg, s, e)))
  }

  /** The logged copy is of the entry's own source, read as the entry asks. */
  ghost predicate IsCopyOf(c: Copied, e: Entry) {
    e.Resolve? &&
    match c
    case ColorCopied(_, key, format, _) => !e.isDepth && key == e.key && format == StorageColorFormat(e.sourceFormat)
    case DepthCopied(_, depth, _) => e.isDepth && depth == DepthKey(e)
  }

  /** It read what the console's copy reads: the same bits, or exactly the same values. */
  ghost predicate CopyShows(c: Copied, e: Entry, m: Memory, exact: bool) {
    && IsCopyOf(c, e)
    && match c
       case ColorCopied(_, key, format, image) => Shows(image, m(key.base), format, exact)
       case DepthCopied(_, depth, words) => words == m(depth.base)
  }

  lemma {:induction false} ColorCopyDone(cfg: Config, s: Recording, m: Memory, t: Trust, e: Entry, index: nat)
    requires e.Resolve? && e.key == Single(e.key.base) && Sound(cfg, s, m, t) && CopiesColor(cfg, s, e)
    ensures CopyDone(cfg, s, AfterColorCopy(cfg, s, e, index), m, t, e, index)
  {
    CopyFormatSound(cfg, s, m, t, e);
    CopyFormatBegins(cfg, s, e);
    CopyFormatCases(cfg, s, e);
    var s1, s2 := AfterCopyFormat(cfg, s, e), AfterColorCopy(cfg, s, e, index);
    SameStoresSound(cfg, s1, s2, m, TrustAfterCopy(cfg, s, t, e));
    assert forall k :: SurfaceAt(cfg, s2, k) == SurfaceAt(cfg, s1, k);
  }

  lemma {:induction false} DepthCopyDone(cfg: Config, s: Recording, m: Memory, t: Trust, e: Entry, index: nat)
    requires e.Resolve? && e.key == Single(e.key.base) && Sound(cfg, s, m, t) && e.isDepth
    ensures CopyDone(cfg, s, AfterDepthCopy(cfg, s, e, index), m, t, e, index)
  {
    SameStoresSound(cfg, s, AfterDepthCopy(cfg, s, e, index), m, t);
    if e.depthBase in t.depth {
      assert DepthOk(cfg, s.depths, Single(e.depthBase), m(e.depthBase));
    }
  }

  /** The recording once the copy is made, before its depth clear. */
  function AfterCopy(cfg: Config, s: Recording, e: Entry, index: nat): Recording
    requires e.Resolve?
  {
    if PassedOver(cfg, s, e) then s
    else
      var s1 := AfterEndPass(s);
      if e.isDepth then AfterDepthCopy(cfg, s1, e, index)
      else if e.copyIsServed then AfterColorCopy(cfg, s1, e, index)
      else s1
  }

  lemma {:induction false} EndedPassConverts(cfg: Config, s: Recording, e: Entry)
    requires e.Resolve?
    ensures SurfaceAt(cfg, AfterEndPass(s), e.key) == SurfaceAt(cfg, s, e.key)
    ensures SurfaceAt(cfg, AfterCopyFormat(cfg, AfterEndPass(s), e), e.key) == SurfaceAt(cfg, AfterCopyFormat(cfg, s, e), e.key)
  {}

  lemma {:induction false} EndedPassSame(cfg: Config, s: Recording, t: Trust, e: Entry)
    requires e.Resolve?
    ensures forall k :: SurfaceAt(cfg, AfterEndPass(s), k) == SurfaceAt(cfg, s, k)
    ensures TrustAfterCopy(cfg, AfterEndPass(s), t, e) == TrustAfterCopy(cfg, s, t, e)
    ensures forall x :: CopyRight(cfg, AfterEndPass(s), t, e, x) == CopyRight(cfg, s, t, e, x)
  {
    EndedPassConverts(cfg, s, e);
    assert CopyConverts(cfg, AfterEndPass(s), e) == CopyConverts(cfg, s, e);
  }

  lemma {:induction false} CopySound(cfg: Config, s: Recording, m: Memory, t: Trust, e: Entry, index: nat)
    requires e.Resolve? && e.key == Single(e.key.base) && Sound(cfg, s, m, t)
    ensures CopyDone(cfg, s, AfterCopy(cfg, s, e, index), m, t, e, index)
  {
    var s1 := AfterEndPass(s);
    if !PassedOver(cfg, s, e) {
      EndedPassSame(cfg, s, t, e);
      SameStoresSound(cfg, s, s1, m, t);
      if e.isDepth {
        DepthCopyDone(cfg, s1, m, t, e, index);
      } else if e.copyIsServed {
        ColorCopyDone(cfg, s1, m, t, e, index);
      }
    }
  }

  // ---------------------------------------------------------------- its clears

  lemma {:induction false} ClearedIsZero(cfg: Config, e: Entry, words: seq<Word>)
    requires e.Resolve? && |words| == cfg.pixels && (AllAre(words, 0) || CoversAll(cfg, e))
    ensures AllAre(ClearedWords(e, 0, words), 0)
  {}

  lemma {:induction false} ClearedAll(cfg: Config, e: Entry, word: Word, words: seq<Word>)
    requires e.Resolve? && |words| == cfg.pixels && CoversAll(cfg, e)
    ensures ClearedWords(e, word, words) == Filled(cfg, word)
  {}

  lemma {:induction false} ColorClearSound(cfg: Config, s: Recording, s1: Recording, m: Memory, t: Trust, e: Entry)
    requires e.Resolve? && Sound(cfg, s1, m, t)
    requires forall k :: SurfaceAt(cfg, s1, k).begun == SurfaceAt(cfg, s, k).begun
    ensures Sound(cfg, s1, AfterColorClear(m, e), TrustAfterColorClear(cfg, s, t, e))
  {
    if e.colorClear.Some? {
      var b, word := e.key.base, e.colorClear.value;
      var m', t' := AfterColorClear(m, e), TrustAfterColorClear(cfg, s, t, e);
      forall x | b in Colors(t', x)
        ensures ColorOk(SurfaceAt(cfg, s1, Single(b)), m'(b), x)
      {
        assert b in Colors(t, x) ==> ColorOk(SurfaceAt(cfg, s1, Single(b)), m(b), x);
        ClearedIsZero(cfg, e, m(b));
      }
      OneBaseSound(cfg, s1, s1, m, m', t, t', b);
    }
  }

  lemma {:induction false} DepthClearSound(cfg: Config, s: Recording, s1: Recording, m: Memory, t: Trust, e: Entry)
    requires e.Resolve? && e.key == Single(e.key.base) && Sound(cfg, s1, m, t) && e.depthClear.Some?
    requires forall k :: SurfaceAt(cfg, s1, k).begun == SurfaceAt(cfg, s, k).begun
    ensures var s2 := if HostClears(cfg, s, e) then AfterDepthClear(cfg, s1, e) else s1;
            Sound(cfg, s2, Put(m, e.depthBase, ClearedWords(e, e.depthClear.value, m(e.depthBase))),
                  TrustAfterDepthClear(cfg, s, t, e))
  {
    var d, word := e.depthBase, e.depthClear.value;
    var s2 := if HostClears(cfg, s, e) then AfterDepthClear(cfg, s1, e) else s1;
    var m', t' := Put(m, d, ClearedWords(e, word, m(d))), TrustAfterDepthClear(cfg, s, t, e);
    assert forall k :: SurfaceAt(cfg, s2, k) == SurfaceAt(cfg, s1, k);
    forall k | k != DepthKey(e)
      ensures SameDepth(s1, s2, k)
    {}
    ShapedElsewhere(cfg, s1, s2, m, m', DepthKey(e), DepthKey(e));
    forall x | d in Colors(t', x)
      ensures ColorOk(SurfaceAt(cfg, s2, Single(d)), m'(d), x)
    {
      assert d in Colors(t, x) ==> ColorOk(SurfaceAt(cfg, s1, Single(d)), m(d), x);
      ClearedIsZero(cfg, e, m(d));
    }
    if d in t'.depth {
      ClearedAll(cfg, e, word, m(d));
    }
    OneBaseSound(cfg, s1, s2, m, m', t, t', d);
  }

  lemma {:induction false} ResolveIsCopyThenClear(cfg: Config, s: Recording, e: Entry, index: nat)
    requires e.Resolve?
    ensures AfterResolve(cfg, s, e, index)
         == if HostClears(cfg, s, e) then AfterDepthClear(cfg, AfterCopy(cfg, s, e, index), e) else AfterCopy(cfg, s, e, index)
  {}

  /** One copy, whatever it is: what is trusted after it is right, and what it copied from a trusted source is too. */
  lemma {:induction false} ResolveSound(cfg: Config, s: Recording, m: Memory, t: Trust, e: Entry, index: nat)
    requires e.Resolve? && e.key == Single(e.key.base) && Sound(cfg, s, m, t)
    ensures Sound(cfg, AfterResolve(cfg, s, e, index), ConsoleStep(m, e), TrustAfter(cfg, s, t, m, e))
    ensures CopyDone(cfg, s, AfterCopy(cfg, s, e, index), m, t, e, index)
    ensures AfterResolve(cfg, s, e, index).copies == AfterCopy(cfg, s, e, index).copies
  {
    CopySound(cfg, s, m, t, e, index);
    ResolveIsCopyThenClear(cfg, s, e, index);
    var s1, t1 := AfterCopy(cfg, s, e, index), TrustAfterCopy(cfg, s, t, e);
    ColorClearSound(cfg, s, s1, m, t1, e);
    if e.depthClear.Some? {
      DepthClearSound(cfg, s, s1, AfterColorClear(m, e), TrustAfterColorClear(cfg, s, t1, e), e);
    }
  }

  // ---------------------------------------------------------------- what the preparation left out

  lemma {:induction false} UnpreparedSound(cfg: Config, s: Recording, m: Memory, t: Trust, e: Entry)
    requires e.Unprepared? && Sound(cfg, s, m, t)
    ensures Sound(cfg, s, ConsoleStep(m, e), TrustAfter(cfg, s, t, m, e))
  {
    ConsoleKeepsLengths(cfg, m, e);
    OneBaseSound(cfg, s, s, m, ConsoleStep(m, e), t, TrustAfter(cfg, s, t, m, e), e.base);
  }
}

/**
 * The console's EDRAM beside the recording, and which host images can be trusted to hold it.
 *
 * EDRAM is one memory. A colour surface and a depth buffer are only the base they start at, a format
 * change does nothing to the words, and whoever reads a base next finds what was stored there last,
 * colour, depth or clear. The recorder keeps a colour image and a depth image for each base instead.
 * The trust kept here is worked out from the guest's commands and the recorder's formats, counters and
 * refusals. It looks at the console's words for one thing only, whether a draw's results are rounded
 * there; it never looks at the host's images.
 */
module EdramConsole {
  import opened Wrappers
  import opened EdramFormats
  import opened HostContainers
  import opened FrameRecording
  import SurfaceTargets

  // ---------------------------------------------------------------- the console

  /** The words at each base. */
  type Memory = nat -> seq<Word>

  function Put(m: Memory, base: nat, words: seq<Word>): Memory {
    (b: nat) => if b == base then words else m(b)
  }

  function DrawFormat(e: Entry): nat
    requires e.Draw?
  {
    StorageColorFormat(e.colorFormat)
  }

  function DrawnWords(e: Entry, color: seq<Word>, depth: seq<Word>): (after: seq<Word>)
    requires e.Draw?
    ensures |after| == |color|
  {
    if WritesColor(e)
    then seq<Word>(|color|, i requires 0 <= i < |color| =>
           Pack(e.effect(i, Unpack(color[i], DrawFormat(e)), At(depth, i)), DrawFormat(e)))
    else color
  }

  /** Depth words stored over what is at their base, where the fragments write depth. */
  function DepthOver(e: Entry, depth: seq<Word>, words: seq<Word>): (after: seq<Word>)
    requires e.Draw?
    ensures |after| == |words|
  {
    seq<Word>(|words|, i requires 0 <= i < |words| => DepthLeft(e, i, At(depth, i), words[i]))
  }

  function ClearedWords(e: Entry, word: Word, words: seq<Word>): (after: seq<Word>)
    requires e.Resolve?
    ensures |after| == |words|
  {
    seq<Word>(|words|, i requires 0 <= i < |words| => if e.covers(i) then word else words[i])
  }

  function AfterColorClear(m: Memory, e: Entry): Memory
    requires e.Resolve?
  {
    match e.colorClear
    case Some(word) => Put(m, e.key.base, ClearedWords(e, word, m(e.key.base)))
    case None => m
  }

  /**
   * One command on the console. A draw's colour goes to its colour base and its depth to its depth
   * base, on top of the colour if they are the same; a copy reads, and then clears what it is told to.
   */
  function ConsoleStep(m: Memory, e: Entry): Memory {
    match e
    case Draw(key, _, _, _, _, depthBase, _, _, _) =>
      var drawn := Put(m, key.base, DrawnWords(e, m(key.base), m(depthBase)));
      Put(drawn, depthBase, DepthOver(e, m(depthBase), drawn(depthBase)))
    case Resolve(_, _, _, _, _, _, _, depthBase, depthClear, _) =>
      var cleared := AfterColorClear(m, e);
      (match depthClear
       case Some(word) => Put(cleared, depthBase, ClearedWords(e, word, cleared(depthBase)))
       case None => cleared)
    case Unprepared(base, writes, _) =>
      Put(m, base, seq<Word>(|m(base)|, i requires 0 <= i < |m(base)| => writes(i, m(base)[i])))
  }

  function ConsoleAfter(m: Memory, entries: seq<Entry>, n: nat): Memory
    requires n <= |entries|
  {
    if n == 0 then m else ConsoleStep(ConsoleAfter(m, entries, n - 1), entries[n - 1])
  }

  // ---------------------------------------------------------------- what a draw looks at

  /** Every pixel gets a colour that does not depend on what was there, in any channel. */
  ghost predicate OverwritesColor(cfg: Config, e: Entry)
    requires e.Draw?
  {
    WritesColor(e) && forall i: nat, c, c', w :: i < cfg.pixels ==> e.effect(i, c, w) == e.effect(i, c', w)
  }

  ghost predicate ColorIgnoresDepth(cfg: Config, e: Entry)
    requires e.Draw?
  {
    forall i: nat, c, w, w' :: i < cfg.pixels ==> e.effect(i, c, w) == e.effect(i, c, w')
  }

  ghost predicate OverwritesDepth(cfg: Config, e: Entry)
    requires e.Draw?
  {
    forall i: nat, w, w' :: i < cfg.pixels ==> e.depthEffect(i, w).Some? && e.depthEffect(i, w) == e.depthEffect(i, w')
  }

  ghost predicate KeepsDepth(cfg: Config, e: Entry)
    requires e.Draw?
  {
    forall i: nat, w :: i < cfg.pixels ==> e.depthEffect(i, w).None?
  }

  /** The image keeps every colour the draw leaves, over these words, as the console's bits keep it. */
  ghost predicate DrawFits(host: SurfaceTargets.HostFormat, e: Entry, color: seq<Word>, depth: seq<Word>)
    requires e.Draw?
  {
    forall i :: 0 <= i < |color| ==>
      Fits(host, DrawFormat(e), e.effect(i, Unpack(color[i], DrawFormat(e)), At(depth, i)))
  }

  /** A colour that packs to this word is drawn on as the word is. */
  predicate DrawnAlike(e: Entry, i: nat, c: Color, word: Word, depth: Word)
    requires e.Draw?
  {
    var f := DrawFormat(e);
    Pack(c, f) == word ==> Pack(e.effect(i, c, depth), f) == Pack(e.effect(i, Unpack(word, f), depth), f)
  }

  /**
   * Over these words, what rounding hides from the words the draw does not bring out. So it is with
   * pixels and channels that are left alone or replaced, but not with every blend.
   */
  ghost predicate HidesRounding(e: Entry, color: seq<Word>, depth: seq<Word>)
    requires e.Draw?
  {
    forall i: nat, c :: i < |color| ==> DrawnAlike(e, i, c, color[i], At(depth, i))
  }

  ghost predicate CoversAll(cfg: Config, e: Entry)
    requires e.Resolve?
  {
    forall i :: 0 <= i < cfg.pixels ==> e.covers(i)
  }

  // ---------------------------------------------------------------- trust

  /**
   * The bases whose colour image packs to the console's words, those whose colour image holds exactly
   * the values these words read as, and those whose depth image holds the console's words.
   */
  datatype Trust = Trust(color: iset<nat>, exact: iset<nat>, depth: iset<nat>)

  function Colors(t: Trust, exact: bool): iset<nat> {
    if exact then t.exact else t.color
  }

  function Single(base: nat): Key {
    Key(base, false)
  }

  /** The base's word set or left, as the flag says. */
  function With(bases: iset<nat>, base: nat, trusted: bool): iset<nat> {
    if trusted then bases + iset{base} else bases - iset{base}
  }

  /** The depth buffer is right when the draw tests it: no clearing pass has wiped it for the draw's sake. */
  predicate DepthSeen(cfg: Config, s: Recording, t: Trust, e: Entry)
    requires e.Draw?
  {
    e.depthBase in t.depth && (SurfaceAt(cfg, s, e.key).begun || DepthKey(e) !in s.depths)
  }

  /** The format the surface is left in once a draw has met it. */
  function LabelAfter(cfg: Config, s: Recording, e: Entry): Option<nat>
    requires e.Draw?
  {
    if SurfaceAt(cfg, s, e.key).begun then SurfaceAt(cfg, AfterFormatChange(cfg, s, e), e.key).format
    else Some(DrawFormat(e))
  }

  /** The draw converts the surface it meets, in an image that holds the result. */
  ghost predicate ConvertsTo(cfg: Config, s: Recording, e: Entry)
    requires e.Draw?
  {
    && SurfaceAt(cfg, s, e.key).begun && WritesColor(e) && !BlendIsIdentity(e.blend0)
    && SurfaceAt(cfg, s, e.key).format != Some(DrawFormat(e)) && LabelAfter(cfg, s, e) == Some(DrawFormat(e))
    && Holds(cfg.hostOf(e.key), DrawFormat(e))
  }

  /**
   * The colour is right when the draw meets it, under the format the surface is left in. A
   * conversion goes through the bits, so it makes values exact.
   */
  ghost predicate ColorSeen(cfg: Config, s: Recording, t: Trust, e: Entry, exact: bool)
    requires e.Draw?
  {
    var surface, b := SurfaceAt(cfg, s, e.key), e.key.base;
    if !surface.begun then b in Colors(t, exact) && cfg.clearColor == Black && Holds(cfg.hostOf(e.key), DrawFormat(e))
    else
      || (b in Colors(t, exact) && (!WritesColor(e) || surface.format == Some(DrawFormat(e))))
      || (b in t.color && ConvertsTo(cfg, s, e))
  }

  /** A draw's colours are those of the console: what it looks at is right there, and drawn under its own format. */
  ghost predicate ExactlyDrawn(cfg: Config, s: Recording, t: Trust, m: Memory, e: Entry)
    requires e.Draw?
  {
    && ReinterpretSupported(DrawFormat(e)) && LabelAfter(cfg, s, e) == Some(DrawFormat(e))
    && (DepthSeen(cfg, s, t, e) || ColorIgnoresDepth(cfg, e))
    && (ColorSeen(cfg, s, t, e, true) || OverwritesColor(cfg, e))
    && DrawFits(cfg.hostOf(e.key), e, m(e.key.base), m(e.depthBase))
  }

  /** They pack to the console's words, whether or not the words hold them exactly. */
  ghost predicate DrawnToBits(cfg: Config, s: Recording, t: Trust, m: Memory, e: Entry)
    requires e.Draw?
  {
    && Holds(cfg.hostOf(e.key), DrawFormat(e)) && LabelAfter(cfg, s, e) == Some(DrawFormat(e))
    && (DepthSeen(cfg, s, t, e) || ColorIgnoresDepth(cfg, e))
    && (|| ColorSeen(cfg, s, t, e, true) || OverwritesColor(cfg, e)
        || (ColorSeen(cfg, s, t, e, false) && HidesRounding(e, m(e.key.base), m(e.depthBase))))
  }

  /** The colour is right after the draw call. */
  ghost predicate ColorDrawn(cfg: Config, s: Recording, t: Trust, m: Memory, e: Entry, exact: bool)
    requires e.Draw?
  {
    if !WritesColor(e) then ColorSeen(cfg, s, t, e, exact)
    else ExactlyDrawn(cfg, s, t, m, e) || (!exact && DrawnToBits(cfg, s, t, m, e))
  }

  /** The depth image is right after a draw: on a shared base, only if no colour shows between its depths. */
  ghost predicate DepthDrawn(cfg: Config, s: Recording, t: Trust, e: Entry)
    requires e.Draw?
  {
    && (DepthSeen(cfg, s, t, e) || OverwritesDepth(cfg, e))
    && (e.depthBase == e.key.base && WritesColor(e) ==> OverwritesDepth(cfg, e))
  }

  /** The alias pass will write the depth buffer into the surface. */
  predicate WillAlias(cfg: Config, s: Recording, e: Entry)
    requires e.Draw?
  {
    && e.depthBase == e.key.base
    && cfg.aliasReady && s.counters.aliased < cfg.aliasSets
    && LabelAfter(cfg, s, e).Some? && ReinterpretSupported(LabelAfter(cfg, s, e).value)
  }

  predicate IsDropped(cfg: Config, s: Recording, e: Entry)
    requires e.Draw?
  {
    NeedsPass(AfterFormatChange(cfg, s, e), e) && !e.passAvailable
  }

  /** The surfaces' part of the trust, for a draw on bases of its own or on one shared with its depth buffer. */
  ghost function ColorsAfterDraw(cfg: Config, s: Recording, t: Trust, m: Memory, e: Entry, exact: bool): iset<nat>
    requires e.Draw?
  {
    var b, d, was := e.key.base, e.depthBase, Colors(t, exact);
    if IsDropped(cfg, s, e) then was - iset{b, d}
    else if b == d then
      With(was, b,
           if WillAlias(cfg, s, e)
           then DepthDrawn(cfg, s, t, e) && Holds(cfg.hostOf(e.key), LabelAfter(cfg, s, e).value)
           else ColorDrawn(cfg, s, t, m, e, exact) && KeepsDepth(cfg, e))
    else With(With(was, d, d in was && KeepsDepth(cfg, e)), b, ColorDrawn(cfg, s, t, m, e, exact))
  }

  ghost function DepthsAfterDraw(cfg: Config, s: Recording, t: Trust, e: Entry): iset<nat>
    requires e.Draw?
  {
    var b, d := e.key.base, e.depthBase;
    if IsDropped(cfg, s, e) then t.depth - iset{b, d}
    else With(With(t.depth, b, b in t.depth && !WritesColor(e)), d, DepthDrawn(cfg, s, t, e))
  }

  ghost function TrustAfterDraw(cfg: Config, s: Recording, t: Trust, m: Memory, e: Entry): Trust
    requires e.Draw?
  {
    Trust(ColorsAfterDraw(cfg, s, t, m, e, false), ColorsAfterDraw(cfg, s, t, m, e, true), DepthsAfterDraw(cfg, s, t, e))
  }

  /** A copy that meets another format converts the surface, in the image itself. */
  predicate CopyConverts(cfg: Config, s: Recording, e: Entry)
    requires e.Resolve?
  {
    SurfaceAt(cfg, AfterCopyFormat(cfg, s, e), e.key).format != SurfaceAt(cfg, s, e.key).format
  }

  /** The image reads under the copy's format when the copy is made. */
  ghost predicate ColorCopyRight(cfg: Config, s: Recording, t: Trust, e: Entry, exact: bool)
    requires e.Resolve?
  {
    var want := StorageColorFormat(e.sourceFormat);
    && ReinterpretSupported(want)
    && (|| (e.key.base in Colors(t, exact) && SurfaceAt(cfg, s, e.key).format == Some(want))
        || (e.key.base in t.color && CopyConverts(cfg, s, e) && Holds(cfg.hostOf(e.key), want)))
  }

  /** A conversion makes values exact, and one the image cannot hold spoils the surface for good. */
  ghost function TrustAfterCopy(cfg: Config, s: Recording, t: Trust, e: Entry): Trust
    requires e.Resolve?
  {
    var b := e.key.base;
    if !CopiesColor(cfg, s, e) || !CopyConverts(cfg, s, e) then t
    else
      var right := b in t.color && Holds(cfg.hostOf(e.key), StorageColorFormat(e.sourceFormat));
      t.(color := With(t.color, b, right), exact := With(t.exact, b, right))
  }

  /** A cleared base is right only where nothing has been drawn: a first pass starts from zero. */
  ghost predicate ClearIsZero(cfg: Config, s: Recording, bases: iset<nat>, e: Entry, base: nat, word: Word)
    requires e.Resolve?
  {
    !SurfaceAt(cfg, s, Single(base)).begun && word == 0 && (base in bases || CoversAll(cfg, e))
  }

  predicate HostClears(cfg: Config, s: Recording, e: Entry)
    requires e.Resolve?
  {
    e.depthClear.Some? && e.depthAvailable && !PassedOver(cfg, s, e)
  }

  ghost function ColorsAfterClear(cfg: Config, s: Recording, bases: iset<nat>, e: Entry, base: nat, word: Word): iset<nat>
    requires e.Resolve?
  {
    With(bases, base, ClearIsZero(cfg, s, bases, e, base, word))
  }

  ghost function TrustAfterColorClear(cfg: Config, s: Recording, t: Trust, e: Entry): Trust
    requires e.Resolve?
  {
    match e.colorClear
    case None => t
    case Some(word) =>
      Trust(ColorsAfterClear(cfg, s, t.color, e, e.key.base, word), ColorsAfterClear(cfg, s, t.exact, e, e.key.base, word),
            t.depth - iset{e.key.base})
  }

  ghost function TrustAfterDepthClear(cfg: Config, s: Recording, t: Trust, e: Entry): Trust
    requires e.Resolve?
  {
    match e.depthClear
    case None => t
    case Some(word) =>
      Trust(ColorsAfterClear(cfg, s, t.color, e, e.depthBase, word), ColorsAfterClear(cfg, s, t.exact, e, e.depthBase, word),
            With(t.depth, e.depthBase, HostClears(cfg, s, e) && CoversAll(cfg, e)))
  }

  ghost function Without(t: Trust, base: nat): Trust {
    Trust(t.color - iset{base}, t.exact - iset{base}, t.depth - iset{base})
  }

  ghost function TrustAfter(cfg: Config, s: Recording, t: Trust, m: Memory, e: Entry): Trust {
    match e
    case Draw(_, _, _, _, _, _, _, _, _) => TrustAfterDraw(cfg, s, t, m, e)
    case Resolve(_, _, _, _, _, _, _, _, _, _) =>
      TrustAfterDepthClear(cfg, s, TrustAfterColorClear(cfg, s, TrustAfterCopy(cfg, s, t, e), e), e)
    case Unprepared(base, _, _) => Without(t, base)
  }

  /** A copy whose source could be trusted. */
  ghost predicate CopyRight(cfg: Config, s: Recording, t: Trust, e: Entry, exact: bool)
    requires e.Resolve?
  {
    if e.isDepth then e.depthBase in t.depth && DepthKey(e) in s.depths
    else ColorCopyRight(cfg, s, t, e, exact)
  }

  // ---------------------------------------------------------------- over a frame

  /** What can be trusted after n commands of a frame, from what could be at its start. */
  ghost function TrustAt(cfg: Config, t: Trust, m: Memory, entries: seq<Entry>, n: nat): Trust
    requires n <= |entries|
  {
    if n == 0 then t
    else TrustAfter(cfg, Recorded(cfg, entries, n - 1), TrustAt(cfg, t, m, entries, n - 1),
                    ConsoleAfter(m, entries, n - 1), entries[n - 1])
  }

  /** The n-th command is a copy whose source can be trusted when it is made. */
  ghost predicate CopyRightAt(cfg: Config, t: Trust, m: Memory, entries: seq<Entry>, n: nat, exact: bool)
    requires n < |entries|
  {
    && entries[n].Resolve?
    && CopyRight(cfg, Recorded(cfg, entries, n), TrustAt(cfg, t, m, entries, n), entries[n], exact)
  }
}

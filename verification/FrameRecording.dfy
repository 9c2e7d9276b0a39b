/**
 * The recording loop: the commands a frame's prepared list becomes, when a render pass is
 * opened and ended, and when a surface's stored values are converted, relabelled or
 * overwritten by an aliasing depth buffer.
 *
 * A surface is one host image for an EDRAM base and a sample view. Its image holds values;
 * `format` is the storage format those values are in, or nothing before the frame's first
 * draw into it. The functions say what each step does to the whole recording; the class
 * at the end has the loop itself and is proved against them.
 */
module FrameRecording {
  import opened Wrappers
  import opened EdramFormats
  import opened HostContainers
  import SurfaceTargets

  /** An EDRAM base seen through the one-sample or the native two-sample view. */
  datatype Key = Key(base: nat, multisample: bool)

  datatype Surface = Surface(begun: bool, format: Option<nat>, image: seq<Color>)

  datatype Pass = Closed | Open(key: Key, depthBase: nat)

  /** `entry` is the index in the list of the entry that issued the command. */
  datatype Command =
    | BeginPass(key: Key, depthBase: nat, clear: bool)
    | EndPass
    | DrawCall(entry: nat, key: Key, depthBase: nat)
    | ConvertSurface(key: Key, from: nat, to: nat)
    | CopyColor(entry: nat, key: Key)
    | CopyDepth(entry: nat, depth: Key)
    | AliasDepth(key: Key)
    | ClearDepth(depth: Key)

  /**
   * What the guest issued. A draw's `effect` is the colour its fragments leave on a pixel, from the
   * colour and the depth word that were there; its `depthEffect` is the depth word they leave, if
   * they write one. A copy may clear, over the pixels it `covers`, the colour surface it names and
   * the depth buffer. An `Unprepared` command is one the preparation left out of its list: it does
   * something to the console's memory and nothing here, but a colour clear it programs is still seen.
   */
  datatype Entry =
    | Draw(key: Key, colorFormat: nat, colorMask: nat, hasFragmentStage: bool, blend0: nat,
           depthBase: nat, passAvailable: bool,
           effect: (nat, Color, Word) -> Color, depthEffect: (nat, Word) -> Option<Word>)
    | Resolve(key: Key, sourceFormat: nat, isDepth: bool, copyIsServed: bool, destinationReady: bool,
              covers: nat -> bool, colorClear: Option<Word>,
              depthBase: nat, depthClear: Option<Word>, depthAvailable: bool)
    | Unprepared(base: nat, writes: (nat, Word) -> Word, colorClear: Option<Word>)

  /**
   * What a frame fixes: the image each surface lives in, the colour and the depth word its clears
   * use, and what the depth images of the last frame still hold.
   */
  datatype Config = Config(
    pixels: nat,
    hostOf: Key -> SurfaceTargets.HostFormat,
    clearColor: Color,
    depthClear: Word,
    keptDepth: Key -> seq<Word>,
    convertSets: nat,   // descriptor sets for conversions, 0 when the pipeline is unavailable
    aliasSets: nat,
    aliasReady: bool)

  datatype Counters = Counters(
    converted: nat, refused: nat, outOfSets: nat, notRead: nat, noWrite: nat,
    aliased: nat, aliasRefused: nat, aliasOutOfSets: nat)

  /** What a copy read: the image, or the depth words, of its source at that point. */
  datatype Copied =
    | ColorCopied(entry: nat, key: Key, format: nat, image: seq<Color>)
    | DepthCopied(entry: nat, depth: Key, words: seq<Word>)

  /** `depths` holds the depth images used so far this frame. */
  datatype Recording = Recording(
    surfaces: map<Key, Surface>,
    depths: map<Key, seq<Word>>,
    pass: Pass,
    commands: seq<Command>,
    copies: seq<Copied>,
    counters: Counters)

  const NoCounts := Counters(0, 0, 0, 0, 0, 0, 0, 0)

  const FrameStart := Recording(map[], map[], Closed, [], [], NoCounts)

  // ---------------------------------------------------------------- draw state

  /** Source ONE, destination ZERO, ADD, on colour and on alpha. */
  predicate BlendIsIdentity(blend0: nat) {
    && blend0 % 32 == 1 && blend0 / 32 % 8 == 0 && blend0 / 256 % 32 == 0
    && blend0 / 0x1_0000 % 32 == 1 && blend0 / 0x20_0000 % 8 == 0 && blend0 / 0x100_0000 % 32 == 0
  }

  predicate WritesColor(e: Entry)
    requires e.Draw?
  {
    e.colorMask % 16 != 0 && e.hasFragmentStage
  }

  function DepthKey(e: Entry): Key
    requires !e.Unprepared?
  {
    Key(e.depthBase, e.key.multisample)
  }

  // ---------------------------------------------------------------- the frame's clear colour

  const Slate := Color(0.05, 0.05, 0.08, 1.0)

  /** The clear words of the copies that clear colour, in the order of the list. */
  function ColorClears(entries: seq<Entry>): seq<Word> {
    if entries == [] then []
    else
      var e := entries[|entries| - 1];
      ColorClears(entries[..|entries| - 1])
      + if !e.Draw? && e.colorClear.Some? then [e.colorClear.value] else []
  }

  predicate AllZero(words: seq<Word>) {
    forall i :: 0 <= i < |words| ==> words[i] == 0
  }

  function ClearColorOf(entries: seq<Entry>): Color {
    if ColorClears(entries) != [] && AllZero(ColorClears(entries)) then Black else Slate
  }

  /** The clear colour of a frame: zero if some copy clears colour and every such clear is zero. */
  method DeriveClearColor(entries: seq<Entry>) returns (color: Color)
    ensures color == ClearColorOf(entries)
    ensures color == Color(0.0, 0.0, 0.0, 0.0) <==> ColorClears(entries) != [] && AllZero(ColorClears(entries))
    ensures color == Color(0.0, 0.0, 0.0, 0.0) || color == Color(0.05, 0.05, 0.08, 1.0)
  {
    var have, unverifiable := false, 0;
    for i := 0 to |entries|
      invariant unverifiable == 0 <==> AllZero(ColorClears(entries[..i]))
      invariant have || unverifiable > 0 <==> ColorClears(entries[..i]) != []
    {
      ClearsOneMore(entries, i);
      if entries[i].Draw? || entries[i].colorClear.None? {
        continue;
      }
      if entries[i].colorClear.value != 0 {
        unverifiable := unverifiable + 1;
        continue;
      }
      have := true;
    }
    assert entries[..|entries|] == entries;
    color := if have && unverifiable == 0 then Black else Slate;
  }

  lemma {:induction false} ClearsOneMore(entries: seq<Entry>, i: nat)
    requires i < |entries|
    ensures ColorClears(entries[..i + 1]) == ColorClears(entries[..i])
         + if !entries[i].Draw? && entries[i].colorClear.Some? then [entries[i].colorClear.value] else []
    ensures AllZero(ColorClears(entries[..i + 1])) <==>
              AllZero(ColorClears(entries[..i]))
              && (!entries[i].Draw? && entries[i].colorClear.Some? ==> entries[i].colorClear.value == 0)
  {
    assert entries[..i + 1][..i] == entries[..i];
    var before, after := ColorClears(entries[..i]), ColorClears(entries[..i + 1]);
    assert forall k :: 0 <= k < |before| ==> after[k] == before[k];
    if |after| > |before| {
      assert after[|before|] == entries[i].colorClear.value;
    }
  }

  // ---------------------------------------------------------------- steps

  /** A surface's first pass stores the clear colour in every pixel of its image. */
  function Blank(cfg: Config, key: Key): seq<Color> {
    seq(cfg.pixels, _ => StoreIn(cfg.hostOf(key), cfg.clearColor))
  }

  function Filled(cfg: Config, word: Word): (words: seq<Word>)
    ensures |words| == cfg.pixels && forall i :: 0 <= i < |words| ==> words[i] == word
  {
    seq<Word>(cfg.pixels, _ => word)
  }

  function SurfaceIn(cfg: Config, surfaces: map<Key, Surface>, key: Key): Surface {
    if key in surfaces then surfaces[key] else Surface(false, None, Blank(cfg, key))
  }

  function SurfaceAt(cfg: Config, s: Recording, key: Key): Surface {
    SurfaceIn(cfg, s.surfaces, key)
  }

  function DepthIn(cfg: Config, depths: map<Key, seq<Word>>, depth: Key): seq<Word> {
    if depth in depths then depths[depth] else cfg.keptDepth(depth)
  }

  function DepthAt(cfg: Config, s: Recording, depth: Key): seq<Word> {
    DepthIn(cfg, s.depths, depth)
  }

  function At(words: seq<Word>, i: nat): Word {
    if i < |words| then words[i] else 0
  }

  function Emit(s: Recording, c: Command): Recording {
    s.(commands := s.commands + [c])
  }

  function AfterEndPass(s: Recording): Recording {
    if s.pass.Closed? then s else Emit(s, EndPass).(pass := Closed)
  }

  /** The pass that clears its surface clears the depth buffer with it, whatever that held. */
  function DepthOnBegin(cfg: Config, depths: map<Key, seq<Word>>, depth: Key, begun: bool): seq<Word> {
    if !begun || depth !in depths then Filled(cfg, cfg.depthClear) else depths[depth]
  }

  function AfterBeginPass(cfg: Config, s: Recording, key: Key, depthBase: nat): Recording {
    var t := SurfaceAt(cfg, s, key);
    var depth := Key(depthBase, key.multisample);
    var s1 := if depth !in s.depths && t.begun then Emit(s, ClearDepth(depth)) else s;
    Emit(s1, BeginPass(key, depthBase, !t.begun)).(
      depths := s.depths[depth := DepthOnBegin(cfg, s.depths, depth, t.begun)],
      surfaces := s.surfaces[key := t.(begun := true, image := if t.begun then t.image else Blank(cfg, key))],
      pass := Open(key, depthBase))
  }

  /** The conversion pass over an image, storing each result back into that image. */
  function ConvertImage(host: SurfaceTargets.HostFormat, image: seq<Color>, from: nat, to: nat): seq<Color> {
    seq(|image|, i requires 0 <= i < |image| => StoreIn(host, Reinterpret(image[i], from, to)))
  }

  /** `ReinterpretSurface` between two storage formats; the flag is its return value. */
  function AfterReinterpret(cfg: Config, s: Recording, key: Key, from: nat, to: nat): (Recording, bool) {
    var n := s.counters;
    if from == to then (s, true)
    else if !ReinterpretSupported(from) || !ReinterpretSupported(to) then
      (s.(counters := n.(refused := n.refused + 1)), false)
    else if n.converted >= cfg.convertSets then
      (s.(counters := n.(outOfSets := n.outOfSets + 1)), false)
    else
      var t := SurfaceAt(cfg, s, key);
      (Emit(s, ConvertSurface(key, from, to)).(
         surfaces := s.surfaces[key := t.(image := ConvertImage(cfg.hostOf(key), t.image, from, to))],
         counters := n.(converted := n.converted + 1)),
       true)
  }

  function Relabel(cfg: Config, s: Recording, key: Key, format: nat): Recording {
    s.(surfaces := s.surfaces[key := SurfaceAt(cfg, s, key).(format := Some(format))])
  }

  /** The format change a draw meets before it is recorded. */
  function AfterFormatChange(cfg: Config, s: Recording, e: Entry): Recording
    requires e.Draw?
  {
    var t := SurfaceAt(cfg, s, e.key);
    var want := StorageColorFormat(e.colorFormat);
    var n := s.counters;
    if !(t.begun && t.format.Some? && t.format.value != want) then s
    else if !WritesColor(e) then s.(counters := n.(noWrite := n.noWrite + 1))
    else if BlendIsIdentity(e.blend0) then
      Relabel(cfg, s.(counters := n.(notRead := n.notRead + 1)), e.key, want)
    else
      var (s', converted) := AfterReinterpret(cfg, AfterEndPass(s), e.key, t.format.value, want);
      if converted then Relabel(cfg, s', e.key, want) else s'
  }

  /** The fragments' colours, each stored in the surface's image. */
  function Shade(host: SurfaceTargets.HostFormat, e: Entry, image: seq<Color>, depth: seq<Word>): seq<Color>
    requires e.Draw?
  {
    if WritesColor(e)
    then seq(|image|, i requires 0 <= i < |image| => StoreIn(host, e.effect(i, image[i], At(depth, i))))
    else image
  }

  /** A depth buffer after the draw. */
  function ShadeDepth(e: Entry, words: seq<Word>): (after: seq<Word>)
    requires e.Draw?
    ensures |after| == |words|
  {
    seq<Word>(|words|, i requires 0 <= i < |words| => DepthLeft(e, i, words[i], words[i]))
  }

  /** What a pixel's fragments leave, where they saw one depth word, over another word. */
  function DepthLeft(e: Entry, i: nat, depth: Word, under: Word): Word
    requires e.Draw?
  {
    match e.depthEffect(i, depth)
    case Some(w) => w
    case None => under
  }

  /** The draw itself, in the pass that is open on its surface. */
  function AfterDrawCall(cfg: Config, s: Recording, e: Entry, index: nat): Recording
    requires e.Draw?
  {
    var t := SurfaceAt(cfg, s, e.key);
    var depth := DepthAt(cfg, s, DepthKey(e));
    var format := if t.format.None? then Some(StorageColorFormat(e.colorFormat)) else t.format;
    Emit(s, DrawCall(index, e.key, e.depthBase)).(
      surfaces := s.surfaces[e.key := t.(format := format, image := Shade(cfg.hostOf(e.key), e, t.image, depth))],
      depths := s.depths[DepthKey(e) := ShadeDepth(e, depth)])
  }

  function UnpackImage(host: SurfaceTargets.HostFormat, words: seq<Word>, format: nat): seq<Color> {
    seq(|words|, i requires 0 <= i < |words| => StoreIn(host, Unpack(words[i], format)))
  }

  /** Whether the depth buffer can be written into the colour surface that shares its base. */
  predicate CanAlias(cfg: Config, s: Recording, e: Entry)
    requires e.Draw?
  {
    var t := SurfaceAt(cfg, s, e.key);
    && cfg.aliasReady && !e.key.multisample && s.counters.aliased < cfg.aliasSets
    && t.format.Some? && ReinterpretSupported(t.format.value)
  }

  /** The depth buffer's bits, read under the format of the colour surface that shares its base. */
  function AfterAlias(cfg: Config, s: Recording, e: Entry): Recording
    requires e.Draw?
  {
    var t := SurfaceAt(cfg, s, e.key);
    var n := s.counters;
    // A native two-sample target has no storage view for the pass to write through.
    if !cfg.aliasReady || e.key.multisample then s
    else if n.aliased >= cfg.aliasSets then s.(counters := n.(aliasOutOfSets := n.aliasOutOfSets + 1))
    else if !CanAlias(cfg, s, e) then s.(counters := n.(aliasRefused := n.aliasRefused + 1))
    else
      var image := UnpackImage(cfg.hostOf(e.key), DepthAt(cfg, s, DepthKey(e)), t.format.value);
      Emit(s, AliasDepth(e.key)).(
        surfaces := s.surfaces[e.key := t.(image := image)],
        counters := n.(aliased := n.aliased + 1))
  }

  predicate NeedsPass(s: Recording, e: Entry)
    requires e.Draw?
  {
    s.pass != Open(e.key, e.depthBase)
  }

  function AfterDraw(cfg: Config, s: Recording, e: Entry, index: nat): Recording
    requires e.Draw?
  {
    var s1 := AfterFormatChange(cfg, s, e);
    if NeedsPass(s1, e) && !e.passAvailable then AfterEndPass(s1)
    else
      var s2 := if NeedsPass(s1, e) then AfterBeginPass(cfg, AfterEndPass(s1), e.key, e.depthBase) else s1;
      var s3 := AfterDrawCall(cfg, s2, e, index);
      if e.depthBase == e.key.base then AfterAlias(cfg, AfterEndPass(s3), e) else s3
  }

  /** The clear a copy carries covers the whole depth image here, whatever the copy covers. */
  function AfterDepthClear(cfg: Config, s: Recording, e: Entry): Recording
    requires e.Resolve?
  {
    if e.depthClear.None? || !e.depthAvailable then s
    else Emit(s, ClearDepth(DepthKey(e))).(depths := s.depths[DepthKey(e) := Filled(cfg, e.depthClear.value)])
  }

  /** A copy is a read: it meets a format change exactly as a blending draw does. */
  function AfterCopyFormat(cfg: Config, s: Recording, e: Entry): Recording
    requires e.Resolve?
  {
    var t := SurfaceAt(cfg, s, e.key);
    var want := StorageColorFormat(e.sourceFormat);
    if t.format.None? || t.format.value == want then s
    else
      var (s', converted) := AfterReinterpret(cfg, s, e.key, t.format.value, want);
      if converted then Relabel(cfg, s', e.key, want) else s'
  }

  function AfterDepthCopy(cfg: Config, s: Recording, e: Entry, index: nat): Recording
    requires e.Resolve?
  {
    if !e.destinationReady then s
    else
      Emit(s, CopyDepth(index, DepthKey(e))).(
        copies := s.copies + [DepthCopied(index, DepthKey(e), DepthAt(cfg, s, DepthKey(e)))])
  }

  function AfterColorCopy(cfg: Config, s: Recording, e: Entry, index: nat): Recording
    requires e.Resolve?
  {
    var s1 := AfterCopyFormat(cfg, s, e);
    var copied := ColorCopied(index, e.key, StorageColorFormat(e.sourceFormat), SurfaceAt(cfg, s1, e.key).image);
    Emit(s1, CopyColor(index, e.key)).(copies := s1.copies + [copied])
  }

  /** A colour copy happens when it is served and its source has been drawn this frame. */
  predicate CopiesColor(cfg: Config, s: Recording, e: Entry)
    requires e.Resolve?
  {
    !e.isDepth && e.copyIsServed && e.destinationReady && SurfaceAt(cfg, s, e.key).begun
  }

  /** A served colour copy with nothing to copy is passed over, and its depth clear with it. */
  predicate PassedOver(cfg: Config, s: Recording, e: Entry)
    requires e.Resolve?
  {
    !e.isDepth && e.copyIsServed && !CopiesColor(cfg, s, e)
  }

  function AfterResolve(cfg: Config, s: Recording, e: Entry, index: nat): Recording
    requires e.Resolve?
  {
    if PassedOver(cfg, s, e) then s
    else
      var s1 := AfterEndPass(s);
      AfterDepthClear(cfg,
        if e.isDepth then AfterDepthCopy(cfg, s1, e, index)
        else if e.copyIsServed then AfterColorCopy(cfg, s1, e, index)
        else s1, e)
  }

  function AfterEntry(cfg: Config, s: Recording, e: Entry, index: nat): Recording {
    match e
    case Draw(_, _, _, _, _, _, _, _, _) => AfterDraw(cfg, s, e, index)
    case Resolve(_, _, _, _, _, _, _, _, _, _) => AfterResolve(cfg, s, e, index)
    case Unprepared(_, _, _) => s
  }

  /** The recording of the first `n` entries. */
  function Recorded(cfg: Config, entries: seq<Entry>, n: nat): Recording
    requires n <= |entries|
  {
    if n == 0 then FrameStart else AfterEntry(cfg, Recorded(cfg, entries, n - 1), entries[n - 1], n - 1)
  }

  /** What holds at the start and is kept by every entry holds of every recording. */
  lemma {:induction false} RecordedInduction(cfg: Config, entries: seq<Entry>, n: nat, P: (Recording, nat) -> bool)
    requires n <= |entries| && P(FrameStart, 0)
    requires forall s, i {:trigger AfterEntry(cfg, s, entries[i], i)} ::
               0 <= i < n && P(s, i) ==> P(AfterEntry(cfg, s, entries[i], i), i + 1)
    ensures P(Recorded(cfg, entries, n), n)
  {
    if n > 0 {
      RecordedInduction(cfg, entries, n - 1, P);
    }
  }

  // ---------------------------------------------------------------- the loop itself

  class FrameRecorder {
    const cfg: Config
    var surfaces: map<Key, Surface>
    var depths: map<Key, seq<Word>>
    var inPass: bool
    var openSurface: Key
    var openDepthBase: nat
    var commands: seq<Command>
    var copies: seq<Copied>
    var counters: Counters

    ghost function State(): Recording
      reads this
    {
      Recording(surfaces, depths, if inPass then Open(openSurface, openDepthBase) else Closed,
                commands, copies, counters)
    }

    constructor (cfg: Config)
      ensures State() == FrameStart && this.cfg == cfg
    {
      this.cfg := cfg;
      surfaces, depths, inPass := map[], map[], false;
      openSurface, openDepthBase := Key(0, false), 0;
      commands, copies, counters := [], [], NoCounts;
    }

    method EndPass()
      modifies this
      ensures State() == AfterEndPass(old(State()))
    {
      if !inPass {
        return;
      }
      commands := commands + [Command.EndPass];
      inPass := false;
    }

    method BeginPassOn(key: Key, depthBase: nat)
      modifies this
      ensures State() == AfterBeginPass(cfg, old(State()), key, depthBase)
    {
      var t := SurfaceIn(cfg, surfaces, key);
      var depth := Key(depthBase, key.multisample);
      if depth !in depths && t.begun {
        commands := commands + [ClearDepth(depth)];
      }
      depths := depths[depth := DepthOnBegin(cfg, depths, depth, t.begun)];
      commands := commands + [BeginPass(key, depthBase, !t.begun)];
      surfaces := surfaces[key := t.(begun := true, image := if t.begun then t.image else Blank(cfg, key))];
      inPass, openSurface, openDepthBase := true, key, depthBase;
    }

    method ReinterpretSurface(key: Key, from: nat, to: nat) returns (converted: bool)
      modifies this
      ensures (State(), converted) == AfterReinterpret(cfg, old(State()), key, from, to)
    {
      if from == to {
        return true;
      }
      if !ReinterpretSupported(from) || !ReinterpretSupported(to) {
        counters := counters.(refused := counters.refused + 1);
        return false;
      }
      if counters.converted >= cfg.convertSets {
        counters := counters.(outOfSets := counters.outOfSets + 1);
        return false;
      }
      var t := SurfaceIn(cfg, surfaces, key);
      commands := commands + [ConvertSurface(key, from, to)];
      surfaces := surfaces[key := t.(image := ConvertImage(cfg.hostOf(key), t.image, from, to))];
      counters := counters.(converted := counters.converted + 1);
      return true;
    }

    method MeetFormatChange(e: Entry)
      requires e.Draw?
      modifies this
      ensures State() == AfterFormatChange(cfg, old(State()), e)
    {
      var t := SurfaceIn(cfg, surfaces, e.key);
      var want := StorageColorFormat(e.colorFormat);
      if !t.begun || t.format.None? || t.format.value == want {
        return;
      }
      if e.colorMask % 16 == 0 || !e.hasFragmentStage {
        counters := counters.(noWrite := counters.noWrite + 1);
      } else {
        var relabel := true;
        if !BlendIsIdentity(e.blend0) {
          EndPass();
          relabel := ReinterpretSurface(e.key, t.format.value, want);
        } else {
          counters := counters.(notRead := counters.notRead + 1);
        }
        if relabel {
          surfaces := surfaces[e.key := SurfaceIn(cfg, surfaces, e.key).(format := Some(want))];
        }
      }
    }

    method AliasDepthIntoSurface(e: Entry)
      requires e.Draw?
      modifies this
      ensures State() == AfterAlias(cfg, old(State()), e)
    {
      if !cfg.aliasReady || e.key.multisample {
        return;
      }
      if counters.aliased >= cfg.aliasSets {
        counters := counters.(aliasOutOfSets := counters.aliasOutOfSets + 1);
        return;
      }
      var t := SurfaceIn(cfg, surfaces, e.key);
      if t.format.None? || !ReinterpretSupported(t.format.value) {
        counters := counters.(aliasRefused := counters.aliasRefused + 1);
        return;
      }
      commands := commands + [AliasDepth(e.key)];
      var image := UnpackImage(cfg.hostOf(e.key), DepthIn(cfg, depths, DepthKey(e)), t.format.value);
      surfaces := surfaces[e.key := t.(image := image)];
      counters := counters.(aliased := counters.aliased + 1);
    }

    method RecordDraw(e: Entry, index: nat)
      requires e.Draw?
      modifies this
      ensures State() == AfterDraw(cfg, old(State()), e, index)
    {
      MeetFormatChange(e);
      if !inPass || openSurface != e.key || openDepthBase != e.depthBase {
        if inPass {
          EndPass();
        }
        if !e.passAvailable {
          return;
        }
        BeginPassOn(e.key, e.depthBase);
      }
      IssueDraw(e, index);
      if e.depthBase == e.key.base {
        EndPass();
        AliasDepthIntoSurface(e);
      }
    }

    method IssueDraw(e: Entry, index: nat)
      requires e.Draw?
      modifies this
      ensures State() == AfterDrawCall(cfg, old(State()), e, index)
    {
      var t := SurfaceIn(cfg, surfaces, e.key);
      var depth := DepthIn(cfg, depths, DepthKey(e));
      if t.format.None? {
        t := t.(format := Some(StorageColorFormat(e.colorFormat)));
      }
      commands := commands + [DrawCall(index, e.key, e.depthBase)];
      surfaces := surfaces[e.key := t.(image := Shade(cfg.hostOf(e.key), e, t.image, depth))];
      depths := depths[DepthKey(e) := ShadeDepth(e, depth)];
    }

    method DoDepthClear(e: Entry)
      requires e.Resolve?
      modifies this
      ensures State() == AfterDepthClear(cfg, old(State()), e)
    {
      if e.depthClear.None? || !e.depthAvailable {
        return;
      }
      depths := depths[DepthKey(e) := Filled(cfg, e.depthClear.value)];
      commands := commands + [ClearDepth(DepthKey(e))];
    }

    method CopyDepthOut(e: Entry, index: nat)
      requires e.Resolve?
      modifies this
      ensures State() == AfterDepthCopy(cfg, old(State()), e, index)
    {
      if e.destinationReady {
        commands := commands + [CopyDepth(index, DepthKey(e))];
        copies := copies + [DepthCopied(index, DepthKey(e), DepthIn(cfg, depths, DepthKey(e)))];
      }
    }

    method CopyColorOut(e: Entry, index: nat)
      requires e.Resolve?
      modifies this
      ensures State() == AfterColorCopy(cfg, old(State()), e, index)
    {
      var t := SurfaceIn(cfg, surfaces, e.key);
      var want := StorageColorFormat(e.sourceFormat);
      if t.format.Some? && t.format.value != want {
        var converted := ReinterpretSurface(e.key, t.format.value, want);
        if converted {
          surfaces := surfaces[e.key := SurfaceIn(cfg, surfaces, e.key).(format := Some(want))];
        }
      }
      commands := commands + [CopyColor(index, e.key)];
      copies := copies + [ColorCopied(index, e.key, want, SurfaceIn(cfg, surfaces, e.key).image)];
    }

    method RecordResolve(e: Entry, index: nat)
      requires e.Resolve?
      modifies this
      ensures State() == AfterResolve(cfg, old(State()), e, index)
    {
      if e.isDepth {
        EndPass();
        CopyDepthOut(e, index);
        DoDepthClear(e);
        return;
      }
      if !e.copyIsServed {
        EndPass();
        DoDepthClear(e);
        return;
      }
      if !e.destinationReady || !SurfaceIn(cfg, surfaces, e.key).begun {
        return;
      }
      EndPass();
      CopyColorOut(e, index);
      DoDepthClear(e);
    }

    method RecordFrame(entries: seq<Entry>)
      requires State() == FrameStart
      modifies this
      ensures State() == Recorded(cfg, entries, |entries|)
    {
      for i := 0 to |entries|
        invariant State() == Recorded(cfg, entries, i)
      {
        if entries[i].Resolve? {
          RecordResolve(entries[i], i);
        } else if entries[i].Draw? {
          RecordDraw(entries[i], i);
        }
      }
    }
  }
}

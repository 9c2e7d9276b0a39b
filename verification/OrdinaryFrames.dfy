/**
 * Frames as guests draw them, with colour and depth at bases of their own: everything drawn packs to the
 * console's words until a copy clears it there, whether or not the words hold the colours drawn.
 */
module OrdinaryFrames {
  import opened Wrappers
  import opened EdramFormats
  import opened HostContainers
  import opened FrameRecording
  import PassDiscipline
  import CopyDiscipline
  import opened EdramConsole
  import opened EdramRefinement
  import opened EdramFrames

  predicate IsDrawn(entries: seq<Entry>, base: nat) {
    exists i :: 0 <= i < |entries| && entries[i].Draw? && entries[i].key.base == base
  }

  /** No depth buffer, depth clear or command left out shares a base with a colour surface. */
  predicate Apart(entries: seq<Entry>) {
    forall i :: 0 <= i < |entries| ==>
      match entries[i]
      case Draw(_, _, _, _, _, depthBase, _, _, _) => !IsDrawn(entries, depthBase)
      case Resolve(_, _, _, _, _, _, _, depthBase, depthClear, _) => depthClear.Some? ==> !IsDrawn(entries, depthBase)
      case Unprepared(base, _, _) => !IsDrawn(entries, base)
  }

  /** The surface holds another format than this one. */
  predicate MeetsOther(cfg: Config, s: Recording, key: Key, format: nat) {
    SurfaceAt(cfg, s, key).begun && SurfaceAt(cfg, s, key).format != Some(format)
  }

  /** A conversion from what the surface holds would be made, and its result kept. */
  ghost predicate Convertible(cfg: Config, s: Recording, key: Key, format: nat) {
    && SurfaceAt(cfg, s, key).format.Some? && ReinterpretSupported(SurfaceAt(cfg, s, key).format.value)
    && s.counters.converted < cfg.convertSets && Holds(cfg.hostOf(key), format)
  }

  /** Where it meets another format a draw replaces the surface or can convert it; elsewhere it reads what is exact. */
  ghost predicate ReadsRight(cfg: Config, s: Recording, t: Trust, m: Memory, e: Entry)
    requires e.Draw?
  {
    if MeetsOther(cfg, s, e.key, DrawFormat(e))
    then if BlendIsIdentity(e.blend0) then OverwritesColor(cfg, e) else Convertible(cfg, s, e.key, DrawFormat(e))
    else
      e.key.base in t.color && e.key.base !in t.exact ==>
        OverwritesColor(cfg, e) || HidesRounding(e, m(e.key.base), m(e.depthBase))
  }

  /**
   * An ordinary command: its pass can be opened, its image holds its format, it tests no depth that has
   * gone wrong, and it reads rightly. With `exact`, the words hold what it leaves at this point of the frame.
   */
  ghost predicate Ordinary(cfg: Config, s: Recording, t: Trust, m: Memory, e: Entry, exact: bool) {
    match e
    case Draw(key, _, _, _, _, depthBase, passAvailable, _, _) =>
      && passAvailable && Holds(cfg.hostOf(key), DrawFormat(e))
      && (WritesColor(e) ==>
            && (ColorIgnoresDepth(cfg, e) || DepthSeen(cfg, s, t, e)) && ReadsRight(cfg, s, t, m, e)
            && (exact ==> DrawFits(cfg.hostOf(key), e, m(key.base), m(depthBase))))
    case Resolve(key, sourceFormat, _, _, _, _, _, _, _, _) =>
      CopiesColor(cfg, s, e) ==>
        && ReinterpretSupported(StorageColorFormat(sourceFormat))
        && (MeetsOther(cfg, s, key, StorageColorFormat(sourceFormat)) ==>
              Convertible(cfg, s, key, StorageColorFormat(sourceFormat)))
    case Unprepared(_, _, _) => true
  }

  // ---------------------------------------------------------------- what goes stale

  /** A copy clears to zero a base not drawn yet, which is what its first pass will do. */
  predicate ClearsUndrawn(cfg: Config, entries: seq<Entry>, n: nat)
    requires n < |entries| && entries[n].Resolve?
  {
    && cfg.clearColor == Black && entries[n].colorClear == Some(0)
    && !CopyDiscipline.DrawnBefore(entries, n, Single(entries[n].key.base))
  }

  /**
   * Bases whose words the host does not have: those not at zero when the frame begins, and those that a copy
   * has cleared on the console, until a draw replaces them whole.
   */
  ghost function Stale(cfg: Config, t: Trust, entries: seq<Entry>, n: nat): iset<nat>
    requires n <= |entries|
  {
    if n == 0 then iset b: nat | cfg.clearColor != Black || b !in t.color
    else
      var e, before := entries[n - 1], Stale(cfg, t, entries, n - 1);
      if e.Draw? then (if OverwritesColor(cfg, e) then before - iset{e.key.base} else before)
      else if e.Resolve? && e.colorClear.Some? then
        if !ClearsUndrawn(cfg, entries, n - 1) then before + iset{e.key.base}
        else if CoversAll(cfg, e) then before - iset{e.key.base}
        else before
      else before
  }

  /** A surface's first pass clears a depth buffer that is already in use. */
  predicate WipesDepth(cfg: Config, s: Recording, e: Entry)
    requires e.Draw?
  {
    !SurfaceAt(cfg, s, e.key).begun && DepthKey(e) in s.depths
  }

  /** Bases whose depth image does not have the console's words. */
  ghost function StaleDepth(cfg: Config, t: Trust, entries: seq<Entry>, n: nat): iset<nat>
    requires n <= |entries|
  {
    if n == 0 then iset b: nat | b !in t.depth
    else
      var e, s, before := entries[n - 1], Recorded(cfg, entries, n - 1), StaleDepth(cfg, t, entries, n - 1);
      match e
      case Draw(key, _, _, _, _, depthBase, _, _, _) =>
        var colored := if WritesColor(e) then before + iset{key.base} else before;
        if OverwritesDepth(cfg, e) then colored - iset{depthBase}
        else if WipesDepth(cfg, s, e) then colored + iset{depthBase}
        else colored
      case Resolve(key, _, _, _, _, _, colorClear, depthBase, depthClear, _) =>
        var cleared := if colorClear.Some? then before + iset{key.base} else before;
        if depthClear.None? then cleared
        else if HostClears(cfg, s, e) && CoversAll(cfg, e) then cleared - iset{depthBase}
        else cleared + iset{depthBase}
      case Unprepared(base, _, _) => before + iset{base}
  }

  // ---------------------------------------------------------------- ordinary frames

  /** The frame's clear colour is derived from its copies, and each of its commands is ordinary when it comes. */
  ghost predicate OrdinaryFrame(cfg: Config, m: Memory, t: Trust, entries: seq<Entry>, exact: bool) {
    && SingleSample(entries) && Apart(entries) && cfg.clearColor == ClearColorOf(entries)
    && forall i :: 0 <= i < |entries| ==>
         Ordinary(cfg, Recorded(cfg, entries, i), TrustAt(cfg, t, m, entries, i), ConsoleAfter(m, entries, i),
                  entries[i], exact)
  }

  lemma {:induction false} DrawnIsDrawn(entries: seq<Entry>, i: nat)
    requires i < |entries| && entries[i].Draw?
    ensures IsDrawn(entries, entries[i].key.base)
  {}

  lemma {:induction false} OrdinaryPasses(cfg: Config, m: Memory, t: Trust, entries: seq<Entry>, exact: bool, n: nat)
    requires n <= |entries| && OrdinaryFrame(cfg, m, t, entries, exact)
    ensures PassDiscipline.PassesAvailable(entries, n)
  {
    forall i | 0 <= i < n && entries[i].Draw?
      ensures entries[i].passAvailable
    {
      assert Ordinary(cfg, Recorded(cfg, entries, i), TrustAt(cfg, t, m, entries, i), ConsoleAfter(m, entries, i),
                      entries[i], exact);
    }
  }

  lemma {:induction false} BegunIffDrawn(cfg: Config, entries: seq<Entry>, n: nat, key: Key)
    requires n <= |entries| && PassDiscipline.PassesAvailable(entries, n)
    ensures SurfaceAt(cfg, Recorded(cfg, entries, n), key).begun <==> CopyDiscipline.DrawnBefore(entries, n, key)
  {
    CopyDiscipline.EveryCopyIsMade(cfg, entries, n);
    assert PassDiscipline.IsBegun(Recorded(cfg, entries, n), key) == SurfaceAt(cfg, Recorded(cfg, entries, n), key).begun;
  }

  /** What an ordinary frame keeps true of the trust, of one base. */
  ghost predicate KeepsColor(cfg: Config, t: Trust, entries: seq<Entry>, now: Trust, n: nat, exact: bool, b: nat)
    requires n <= |entries|
  {
    IsDrawn(entries, b) && b !in Stale(cfg, t, entries, n) ==>
      && b in now.color && (exact ==> b in now.exact)
      && (cfg.clearColor == Black || CopyDiscipline.DrawnBefore(entries, n, Single(b)))
  }

  lemma {:induction false} LabelOfOrdinary(cfg: Config, s: Recording, t: Trust, m: Memory, e: Entry, exact: bool)
    requires e.Draw? && Ordinary(cfg, s, t, m, e, exact) && WritesColor(e) && SurfaceShaped(cfg, SurfaceAt(cfg, s, e.key))
    ensures LabelAfter(cfg, s, e) == Some(DrawFormat(e))
    ensures MeetsOther(cfg, s, e.key, DrawFormat(e)) && !BlendIsIdentity(e.blend0) ==> ConvertsTo(cfg, s, e)
  {}

  /** An ordinary draw leaves its surface right, if it was right or is replaced. */
  lemma {:induction false} OrdinaryDrawKeeps(cfg: Config, s: Recording, t: Trust, m: Memory, e: Entry, exact: bool)
    requires e.Draw? && Ordinary(cfg, s, t, m, e, exact) && e.key.base != e.depthBase
    requires || OverwritesColor(cfg, e)
             || (&& e.key.base in t.color && (exact ==> e.key.base in t.exact)
                 && (cfg.clearColor == Black || SurfaceAt(cfg, s, e.key).begun))
    requires SurfaceShaped(cfg, SurfaceAt(cfg, s, e.key))
    ensures e.key.base in TrustAfterDraw(cfg, s, t, m, e).color
    ensures exact ==> e.key.base in TrustAfterDraw(cfg, s, t, m, e).exact
  {
    if WritesColor(e) {
      LabelOfOrdinary(cfg, s, t, m, e, exact);
      assert DrawnToBits(cfg, s, t, m, e);
      assert exact ==> ExactlyDrawn(cfg, s, t, m, e);
    }
    assert ColorDrawn(cfg, s, t, m, e, false);
    assert exact ==> ColorDrawn(cfg, s, t, m, e, true);
  }

  lemma {:induction false} OrdinaryCopyConverts(cfg: Config, s: Recording, t: Trust, m: Memory, e: Entry, exact: bool)
    requires e.Resolve? && Ordinary(cfg, s, t, m, e, exact) && CopiesColor(cfg, s, e) && e.key.base in t.color
    requires exact ==> e.key.base in t.exact
    requires SurfaceShaped(cfg, SurfaceAt(cfg, s, e.key))
    ensures ColorCopyRight(cfg, s, t, e, false) && (exact ==> ColorCopyRight(cfg, s, t, e, true))
    ensures e.key.base in TrustAfterCopy(cfg, s, t, e).color
    ensures exact ==> e.key.base in TrustAfterCopy(cfg, s, t, e).exact
  {}

  lemma {:induction false} CopyElsewhere(cfg: Config, s: Recording, t: Trust, e: Entry, b: nat)
    requires e.Resolve? && b != e.key.base
    ensures b in TrustAfterCopy(cfg, s, t, e).color <==> b in t.color
    ensures b in TrustAfterCopy(cfg, s, t, e).exact <==> b in t.exact
  {}

  lemma {:induction false} DrawKeepsColor(cfg: Config, t: Trust, entries: seq<Entry>, n: nat, s: Recording, now: Trust, m: Memory,
                                          exact: bool, b: nat)
    requires n < |entries| && Apart(entries) && entries[n].Draw? && entries[n].key == Single(entries[n].key.base)
    requires Ordinary(cfg, s, now, m, entries[n], exact)
    requires KeepsColor(cfg, t, entries, now, n, exact, b) && SurfaceShaped(cfg, SurfaceAt(cfg, s, entries[n].key))
    requires SurfaceAt(cfg, s, entries[n].key).begun <==> CopyDiscipline.DrawnBefore(entries, n, entries[n].key)
    ensures KeepsColor(cfg, t, entries, TrustAfter(cfg, s, now, m, entries[n]), n + 1, exact, b)
  {
    var e := entries[n];
    DrawnIsDrawn(entries, n);
    CopyDiscipline.DrawnOneMore(entries, n, Single(b));
    if b == e.key.base && b !in Stale(cfg, t, entries, n + 1) {
      OrdinaryDrawKeeps(cfg, s, now, m, e, exact);
    }
  }

  lemma {:induction false} CopyKeepsColor(cfg: Config, t: Trust, entries: seq<Entry>, n: nat, s: Recording, now: Trust, m: Memory,
                                          exact: bool, b: nat)
    requires n < |entries| && Apart(entries) && entries[n].Resolve? && entries[n].key == Single(entries[n].key.base)
    requires Ordinary(cfg, s, now, m, entries[n], exact)
    requires KeepsColor(cfg, t, entries, now, n, exact, b) && SurfaceShaped(cfg, SurfaceAt(cfg, s, entries[n].key))
    requires SurfaceAt(cfg, s, entries[n].key).begun <==> CopyDiscipline.DrawnBefore(entries, n, entries[n].key)
    ensures KeepsColor(cfg, t, entries, TrustAfter(cfg, s, now, m, entries[n]), n + 1, exact, b)
  {
    var e := entries[n];
    CopyDiscipline.DrawnOneMore(entries, n, Single(b));
    if IsDrawn(entries, b) && b !in Stale(cfg, t, entries, n + 1) {
      assert e.depthClear.Some? ==> b != e.depthBase;
      if b != e.key.base {
        CopyElsewhere(cfg, s, now, e, b);
      } else if CopiesColor(cfg, s, e) {
        OrdinaryCopyConverts(cfg, s, now, m, e, exact);
      }
    }
  }

  lemma {:induction false} DepthKeeps(cfg: Config, t: Trust, entries: seq<Entry>, n: nat, now: Trust, m: Memory, exact: bool, b: nat)
    requires n < |entries| && Apart(entries)
    requires Ordinary(cfg, Recorded(cfg, entries, n), now, m, entries[n], exact)
    requires b !in StaleDepth(cfg, t, entries, n) ==> b in now.depth
    ensures b !in StaleDepth(cfg, t, entries, n + 1) ==>
              b in TrustAfter(cfg, Recorded(cfg, entries, n), now, m, entries[n]).depth
  {
    var e, s := entries[n], Recorded(cfg, entries, n);
    if e.Draw? {
      DrawnIsDrawn(entries, n);
      assert !IsDrawn(entries, e.depthBase);
      assert TrustAfter(cfg, s, now, m, e).depth == DepthsAfterDraw(cfg, s, now, e);
    } else if e.Resolve? {
      assert TrustAfterCopy(cfg, s, now, e).depth == now.depth;
    }
  }

  ghost predicate KeepsAll(cfg: Config, m: Memory, t: Trust, entries: seq<Entry>, s: Recording, exact: bool, n: nat) {
    && Agrees(cfg, m, t, entries, s, n)
    && (forall b: nat :: KeepsColor(cfg, t, entries, TrustAt(cfg, t, m, entries, n), n, exact, b))
    && forall b: nat :: b !in StaleDepth(cfg, t, entries, n) ==> b in TrustAt(cfg, t, m, entries, n).depth
  }

  lemma {:induction false} ShapedSurface(cfg: Config, s: Recording, m: Memory, key: Key)
    requires Shaped(cfg, s, m)
    ensures SurfaceShaped(cfg, SurfaceAt(cfg, s, key))
  {}

  lemma {:induction false} StepKeepsColor(cfg: Config, t: Trust, entries: seq<Entry>, n: nat, s: Recording, now: Trust, m: Memory,
                                          exact: bool, b: nat)
    requires n < |entries| && SingleSample(entries) && Apart(entries)
    requires Ordinary(cfg, s, now, m, entries[n], exact) && KeepsColor(cfg, t, entries, now, n, exact, b) && Shaped(cfg, s, m)
    requires forall k :: SurfaceAt(cfg, s, k).begun <==> CopyDiscipline.DrawnBefore(entries, n, k)
    ensures KeepsColor(cfg, t, entries, TrustAfter(cfg, s, now, m, entries[n]), n + 1, exact, b)
  {
    if entries[n].Unprepared? {
      CopyDiscipline.DrawnOneMore(entries, n, Single(b));
    } else {
      ShapedSurface(cfg, s, m, entries[n].key);
      if entries[n].Draw? {
        DrawKeepsColor(cfg, t, entries, n, s, now, m, exact, b);
      } else {
        CopyKeepsColor(cfg, t, entries, n, s, now, m, exact, b);
      }
    }
  }

  lemma {:induction false} EntryKeepsColor(cfg: Config, m: Memory, t: Trust, entries: seq<Entry>, exact: bool, i: nat, b: nat)
    requires i < |entries| && OrdinaryFrame(cfg, m, t, entries, exact)
    requires KeepsAll(cfg, m, t, entries, Recorded(cfg, entries, i), exact, i)
    ensures KeepsColor(cfg, t, entries, TrustAt(cfg, t, m, entries, i + 1), i + 1, exact, b)
  {
    OrdinaryPasses(cfg, m, t, entries, exact, i);
    forall k
      ensures SurfaceAt(cfg, Recorded(cfg, entries, i), k).begun <==> CopyDiscipline.DrawnBefore(entries, i, k)
    {
      BegunIffDrawn(cfg, entries, i, k);
    }
    StepKeepsColor(cfg, t, entries, i, Recorded(cfg, entries, i), TrustAt(cfg, t, m, entries, i), ConsoleAfter(m, entries, i),
                   exact, b);
  }

  lemma {:induction false} EntryKeepsAll(cfg: Config, m: Memory, t: Trust, entries: seq<Entry>, s: Recording, exact: bool, i: nat)
    requires i < |entries| && OrdinaryFrame(cfg, m, t, entries, exact) && KeepsAll(cfg, m, t, entries, s, exact, i)
    ensures KeepsAll(cfg, m, t, entries, AfterEntry(cfg, s, entries[i], i), exact, i + 1)
  {
    EntryKeepsAgreeing(cfg, m, t, entries, s, i);
    var n := i + 1;
    forall b: nat
      ensures KeepsColor(cfg, t, entries, TrustAt(cfg, t, m, entries, n), n, exact, b)
    {
      EntryKeepsColor(cfg, m, t, entries, exact, i, b);
    }
    forall b: nat | b !in StaleDepth(cfg, t, entries, n)
      ensures b in TrustAt(cfg, t, m, entries, n).depth
    {
      DepthKeeps(cfg, t, entries, i, TrustAt(cfg, t, m, entries, i), ConsoleAfter(m, entries, i), exact, b);
    }
  }

  lemma {:induction false} StartKeepsAll(cfg: Config, m: Memory, t: Trust, entries: seq<Entry>, exact: bool)
    requires Trustable(cfg, m, t)
    ensures KeepsAll(cfg, m, t, entries, FrameStart, exact, 0)
  {
    StartSound(cfg, m, t);
  }

  lemma {:induction false} OrdinaryFrameKeeps(cfg: Config, m: Memory, t: Trust, entries: seq<Entry>, exact: bool, n: nat)
    requires n <= |entries| && OrdinaryFrame(cfg, m, t, entries, exact) && Trustable(cfg, m, t)
    ensures KeepsAll(cfg, m, t, entries, Recorded(cfg, entries, n), exact, n)
  {
    StartKeepsAll(cfg, m, t, entries, exact);
    forall s, i | 0 <= i < n && KeepsAll(cfg, m, t, entries, s, exact, i)
      ensures KeepsAll(cfg, m, t, entries, AfterEntry(cfg, s, entries[i], i), exact, i + 1)
    {
      EntryKeepsAll(cfg, m, t, entries, s, exact, i);
    }
    RecordedInduction(cfg, entries, n, (s: Recording, i: nat) => KeepsAll(cfg, m, t, entries, s, exact, i));
  }

  // ---------------------------------------------------------------- the results

  /** Every copy of a source that is not stale reads what the console's copy reads. */
  ghost predicate CopiedRightly(cfg: Config, m: Memory, t: Trust, entries: seq<Entry>, exact: bool, c: Copied) {
    && c.entry < |entries|
    && (c.ColorCopied? && c.key.base !in Stale(cfg, t, entries, c.entry) ==>
          CopyShows(c, entries[c.entry], ConsoleAfter(m, entries, c.entry), exact))
    && (c.DepthCopied? && c.depth.base !in StaleDepth(cfg, t, entries, c.entry)
        && c.depth in Recorded(cfg, entries, c.entry).depths ==>
          CopyShows(c, entries[c.entry], ConsoleAfter(m, entries, c.entry), exact))
  }

  lemma {:induction false} OrdinaryCopyIsRight(cfg: Config, m: Memory, t: Trust, entries: seq<Entry>, exact: bool, c: Copied)
    requires OrdinaryFrame(cfg, m, t, entries, exact) && Trustable(cfg, m, t)
    requires c in Recorded(cfg, entries, |entries|).copies
    ensures CopiedRightly(cfg, m, t, entries, exact, c)
  {
    var i := c.entry;
    TrustedMatchesConsole(cfg, m, t, entries, |entries|);
    assert CopyRightly(cfg, m, t, entries, c);
    OrdinaryFrameKeeps(cfg, m, t, entries, exact, i);
    if c.ColorCopied? && c.key.base !in Stale(cfg, t, entries, i) {
      ColorCopyIsRight(cfg, m, t, entries, exact, c);
    } else if c.DepthCopied? {
      assert c.depth.base !in StaleDepth(cfg, t, entries, i) ==> c.depth.base in TrustAt(cfg, t, m, entries, i).depth;
      assert c.depth.base !in StaleDepth(cfg, t, entries, i) && c.depth in Recorded(cfg, entries, i).depths ==>
               CopyRightAt(cfg, t, m, entries, i, exact);
    }
  }

  lemma {:induction false} ColorCopyIsRight(cfg: Config, m: Memory, t: Trust, entries: seq<Entry>, exact: bool, c: Copied)
    requires OrdinaryFrame(cfg, m, t, entries, exact) && CopyRightly(cfg, m, t, entries, c) && c.ColorCopied?
    requires KeepsAll(cfg, m, t, entries, Recorded(cfg, entries, c.entry), exact, c.entry)
    requires c.key.base !in Stale(cfg, t, entries, c.entry)
    ensures CopyShows(c, entries[c.entry], ConsoleAfter(m, entries, c.entry), exact)
  {
    var i := c.entry;
    var s, now, e := Recorded(cfg, entries, i), TrustAt(cfg, t, m, entries, i), entries[i];
    OrdinaryPasses(cfg, m, t, entries, exact, i);
    BegunIffDrawn(cfg, entries, i, e.key);
    var j :| 0 <= j < i && entries[j].Draw? && entries[j].key == e.key;
    DrawnIsDrawn(entries, j);
    assert KeepsColor(cfg, t, entries, now, i, exact, e.key.base);
    ShapedSurface(cfg, s, ConsoleAfter(m, entries, i), e.key);
    OrdinaryCopyConverts(cfg, s, now, ConsoleAfter(m, entries, i), e, exact);
    assert CopyRightAt(cfg, t, m, entries, i, exact);
  }

  lemma {:induction false} OrdinarySurfaceIsRight(cfg: Config, m: Memory, t: Trust, entries: seq<Entry>, exact: bool, base: nat)
    requires OrdinaryFrame(cfg, m, t, entries, exact) && Trustable(cfg, m, t)
    requires IsDrawn(entries, base) && base !in Stale(cfg, t, entries, |entries|)
    ensures var surface := SurfaceAt(cfg, Recorded(cfg, entries, |entries|), Single(base));
            surface.begun && ColorOk(surface, ConsoleAfter(m, entries, |entries|)(base), exact)
  {
    var n := |entries|;
    OrdinaryFrameKeeps(cfg, m, t, entries, exact, n);
    assert KeepsColor(cfg, t, entries, TrustAt(cfg, t, m, entries, n), n, exact, base);
    TrustedOk(cfg, Recorded(cfg, entries, n), ConsoleAfter(m, entries, n), TrustAt(cfg, t, m, entries, n), base, exact);
    OrdinaryPasses(cfg, m, t, entries, exact, n);
    BegunIffDrawn(cfg, entries, n, Single(base));
    var i :| 0 <= i < n && entries[i].Draw? && entries[i].key.base == base;
    assert entries[i].key == Single(entries[i].key.base);
  }

  /**
   * Ordinary frames, whatever they blend, mask, leave alone or cannot represent. Packing what a drawn
   * surface holds gives the console's words, unless it is stale; the copies made are exactly those the list
   * asks for; and every copy of a source that is not stale reads the console's words there. With `exact`, when the
   * words hold all that is drawn, images and copies have exactly the values the words read as.
   */
  lemma {:induction false} FrameMatchesConsole(cfg: Config, m: Memory, t: Trust, entries: seq<Entry>, exact: bool)
    requires OrdinaryFrame(cfg, m, t, entries, exact) && Trustable(cfg, m, t)
    ensures var s := Recorded(cfg, entries, |entries|);
            && (forall base :: IsDrawn(entries, base) && base !in Stale(cfg, t, entries, |entries|) ==>
                  && SurfaceAt(cfg, s, Single(base)).begun
                  && ColorOk(SurfaceAt(cfg, s, Single(base)), ConsoleAfter(m, entries, |entries|)(base), exact))
            && PassDiscipline.CallsOf(s.copies) == CopyDiscipline.CopiesWanted(entries, |entries|)
            && PassDiscipline.CopyCalls(s.commands) == CopyDiscipline.CopiesWanted(entries, |entries|)
            && forall c :: c in s.copies ==> CopiedRightly(cfg, m, t, entries, exact, c)
  {
    var s := Recorded(cfg, entries, |entries|);
    OrdinaryPasses(cfg, m, t, entries, exact, |entries|);
    CopyDiscipline.EveryCopyIsMade(cfg, entries, |entries|);
    forall base | IsDrawn(entries, base) && base !in Stale(cfg, t, entries, |entries|)
      ensures SurfaceAt(cfg, s, Single(base)).begun
      ensures ColorOk(SurfaceAt(cfg, s, Single(base)), ConsoleAfter(m, entries, |entries|)(base), exact)
    {
      OrdinarySurfaceIsRight(cfg, m, t, entries, exact, base);
    }
    forall c | c in s.copies
      ensures CopiedRightly(cfg, m, t, entries, exact, c)
    {
      OrdinaryCopyIsRight(cfg, m, t, entries, exact, c);
    }
  }
}

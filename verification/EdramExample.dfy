/**
 * The shape of a guest frame, over and over: a surface is filled in one format, partly drawn over with a colour its
 * words cannot hold, blended over in another format, copied, and cleared by the copy.
 */
module EdramExample {
  import opened Wrappers
  import opened EdramFormats
  import opened HostContainers
  import opened FrameRecording
  import CopyDiscipline
  import opened EdramConsole
  import opened EdramFrames
  import opened OrdinaryFrames
  import opened EdramRuns
  import opened EdramFailures
  import SurfaceTargets

  const Grey := Color(0.3, 0.3, 0.3, 1.0)

  /** An opaque draw that leaves the first pixel alone and draws a third of full on the others. */
  function Smudge(base: nat, depthBase: nat): Entry {
    Draw(Single(base), 0, 15, true, Opaque, depthBase, true,
         (i: nat, c: Color, w: Word) => if i == 0 then c else Grey, (i: nat, w: Word) => None)
  }

  function DrawnAndCopied(base: nat, depthBase: nat): seq<Entry> {
    [Fill(base, 0, RedOpaque, depthBase), Smudge(base, depthBase), Fade(base, 2, depthBase), Copy(base, 2, Some(0))]
  }

  /** The base's image is the one its two formats are given, and a conversion has a descriptor set. */
  ghost predicate Mixed(cfg: Config, base: nat) {
    cfg.hostOf(Single(base)) == SurfaceTargets.HostFormatFor({0, 2}) && cfg.convertSets > 0
  }

  /** The surface is drawn on, in this format, and this many conversions have been made. */
  predicate Holding(cfg: Config, s: Recording, base: nat, format: nat, converted: nat) {
    && SurfaceAt(cfg, s, Single(base)).begun && SurfaceAt(cfg, s, Single(base)).format == Some(format)
    && s.counters.converted == converted
  }

  lemma {:induction false} MixedHolds(cfg: Config, base: nat)
    requires Mixed(cfg, base)
    ensures Holds(cfg.hostOf(Single(base)), 0) && Holds(cfg.hostOf(Single(base)), 2)
    ensures StoreIn(cfg.hostOf(Single(base)), RedOpaque) == RedOpaque
  {
    MixedImageIsFloat({0, 2}, 0, 2);
  }

  lemma {:induction false} SmudgeHidesRounding(base: nat, depthBase: nat, color: seq<Word>, depth: seq<Word>)
    ensures HidesRounding(Smudge(base, depthBase), color, depth)
  {
    var e := Smudge(base, depthBase);
    forall i: nat, c | i < |color|
      ensures DrawnAlike(e, i, c, color[i], At(depth, i))
    {
      PackInvertsUnpack(color[i], 0);
    }
  }

  // ---------------------------------------------------------------- the four states

  lemma {:induction false} AfterSmudge(cfg: Config, s: Recording, base: nat, depthBase: nat)
    requires base != depthBase && Holding(cfg, s, base, 0, 0)
    ensures Holding(cfg, AfterDraw(cfg, s, Smudge(base, depthBase), 1), base, 0, 0)
  {
    assert AfterFormatChange(cfg, s, Smudge(base, depthBase)) == s;
    DrawnOn(cfg, s, Smudge(base, depthBase), 1);
  }

  lemma {:induction false} AfterFade(cfg: Config, s: Recording, base: nat, depthBase: nat)
    requires base != depthBase && Holding(cfg, s, base, 0, 0) && cfg.convertSets > 0
    ensures Holding(cfg, AfterDraw(cfg, s, Fade(base, 2, depthBase), 2), base, 2, 1)
  {
    DrawnOn(cfg, s, Fade(base, 2, depthBase), 2);
  }

  lemma {:induction false} States(cfg: Config, base: nat, depthBase: nat)
    requires base != depthBase && Mixed(cfg, base)
    ensures var entries := DrawnAndCopied(base, depthBase);
            && Recorded(cfg, entries, 0) == FrameStart
            && Holding(cfg, Recorded(cfg, entries, 1), base, 0, 0)
            && Holding(cfg, Recorded(cfg, entries, 2), base, 0, 0)
            && Holding(cfg, Recorded(cfg, entries, 3), base, 2, 1)
  {
    var entries := DrawnAndCopied(base, depthBase);
    MixedHolds(cfg, base);
    FirstFill(cfg, base, 0, RedOpaque, depthBase);
    assert Recorded(cfg, entries, 1) == AfterEntry(cfg, FrameStart, entries[0], 0);
    AfterSmudge(cfg, Recorded(cfg, entries, 1), base, depthBase);
    assert Recorded(cfg, entries, 2) == AfterDraw(cfg, Recorded(cfg, entries, 1), entries[1], 1);
    AfterFade(cfg, Recorded(cfg, entries, 2), base, depthBase);
    assert Recorded(cfg, entries, 3) == AfterDraw(cfg, Recorded(cfg, entries, 2), entries[2], 2);
  }

  // ---------------------------------------------------------------- each command is ordinary

  lemma {:induction false} FillIsOrdinary(cfg: Config, t: Trust, m: Memory, base: nat, depthBase: nat)
    requires Mixed(cfg, base)
    ensures Ordinary(cfg, FrameStart, t, m, Fill(base, 0, RedOpaque, depthBase), false)
  {
    MixedHolds(cfg, base);
    assert ColorIgnoresDepth(cfg, Fill(base, 0, RedOpaque, depthBase));
  }

  lemma {:induction false} SmudgeIsOrdinary(cfg: Config, s: Recording, t: Trust, m: Memory, base: nat, depthBase: nat)
    requires Mixed(cfg, base) && Holding(cfg, s, base, 0, 0)
    ensures Ordinary(cfg, s, t, m, Smudge(base, depthBase), false)
  {
    MixedHolds(cfg, base);
    SmudgeHidesRounding(base, depthBase, m(base), m(depthBase));
    assert ColorIgnoresDepth(cfg, Smudge(base, depthBase));
  }

  lemma {:induction false} FadeIsOrdinary(cfg: Config, s: Recording, t: Trust, m: Memory, base: nat, depthBase: nat)
    requires Mixed(cfg, base) && Holding(cfg, s, base, 0, 0)
    ensures Ordinary(cfg, s, t, m, Fade(base, 2, depthBase), false)
    ensures MeetsOther(cfg, s, Single(base), 2) && !BlendIsIdentity(Fade(base, 2, depthBase).blend0)
  {
    MixedHolds(cfg, base);
    assert ColorIgnoresDepth(cfg, Fade(base, 2, depthBase));
  }

  lemma {:induction false} EntriesAreOrdinary(cfg: Config, m: Memory, t: Trust, base: nat, depthBase: nat, i: nat)
    requires base != depthBase && Mixed(cfg, base) && i < 4
    ensures var entries := DrawnAndCopied(base, depthBase);
            Ordinary(cfg, Recorded(cfg, entries, i), TrustAt(cfg, t, m, entries, i), ConsoleAfter(m, entries, i), entries[i], false)
  {
    var entries := DrawnAndCopied(base, depthBase);
    var s, now, here := Recorded(cfg, entries, i), TrustAt(cfg, t, m, entries, i), ConsoleAfter(m, entries, i);
    States(cfg, base, depthBase);
    if i == 0 {
      FillIsOrdinary(cfg, now, here, base, depthBase);
    } else if i == 1 {
      SmudgeIsOrdinary(cfg, s, now, here, base, depthBase);
    } else if i == 2 {
      FadeIsOrdinary(cfg, s, now, here, base, depthBase);
    }
  }

  lemma {:induction false} BasesApart(base: nat, depthBase: nat)
    requires base != depthBase
    ensures SingleSample(DrawnAndCopied(base, depthBase)) && Apart(DrawnAndCopied(base, depthBase))
  {
    assert forall b :: IsDrawn(DrawnAndCopied(base, depthBase), b) ==> b == base;
  }

  lemma {:induction false} ClearsToZero(base: nat, depthBase: nat)
    ensures ClearColorOf(DrawnAndCopied(base, depthBase)) == Black
  {
    var entries := DrawnAndCopied(base, depthBase);
    assert ColorClears(entries[..3]) == [] by {
      assert entries[..3][..2] == entries[..2] && entries[..2][..1] == entries[..1] && entries[..1][..0] == [];
      assert ColorClears(entries[..1]) == [] && ColorClears(entries[..2]) == [];
    }
    assert ColorClears(entries) == [] + [0];
  }

  lemma {:induction false} FrameIsOrdinary(cfg: Config, m: Memory, t: Trust, base: nat, depthBase: nat)
    requires base != depthBase && Mixed(cfg, base) && cfg.clearColor == Black
    ensures OrdinaryFrame(cfg, m, t, DrawnAndCopied(base, depthBase), false)
  {
    var entries := DrawnAndCopied(base, depthBase);
    ClearsToZero(base, depthBase);
    BasesApart(base, depthBase);
    forall i | 0 <= i < |entries|
      ensures Ordinary(cfg, Recorded(cfg, entries, i), TrustAt(cfg, t, m, entries, i), ConsoleAfter(m, entries, i), entries[i], false)
    {
      EntriesAreOrdinary(cfg, m, t, base, depthBase, i);
    }
  }

  // ---------------------------------------------------------------- the run

  /** Any number of such frames is an ordinary run, and every copy is of a source that is not stale. */
  lemma {:induction false} ClearingRunIsOrdinary(m: Memory, known: Known, frames: seq<Frame>, cfg: Config, base: nat, depthBase: nat)
    requires base != depthBase && Mixed(cfg, base) && cfg.clearColor == Black
    requires forall k :: 0 <= k < |frames| ==> frames[k] == Frame(cfg, DrawnAndCopied(base, depthBase))
    ensures OrdinaryRun(m, known, frames, false)
    ensures forall k :: 0 <= k < |frames| ==>
              base !in Stale(cfg, TrustBefore(known, frames, k), DrawnAndCopied(base, depthBase), 3)
    ensures CopyDiscipline.CopiesWanted(DrawnAndCopied(base, depthBase), 4) == [CopyColor(3, Single(base))]
  {
    var entries := DrawnAndCopied(base, depthBase);
    forall k | 0 <= k < |frames|
      ensures OrdinaryFrame(frames[k].cfg, MemoryBefore(m, frames, k), TrustBefore(known, frames, k), frames[k].entries, false)
      ensures base !in Stale(cfg, TrustBefore(known, frames, k), entries, 3)
    {
      FrameIsOrdinary(cfg, MemoryBefore(m, frames, k), TrustBefore(known, frames, k), base, depthBase);
      NotStale(cfg, TrustBefore(known, frames, k), base, depthBase);
    }
    OneCopyWanted(base, depthBase);
  }

  /** Its first draw replaces the surface, so it need not be at zero when the frame begins. */
  lemma {:induction false} NotStale(cfg: Config, t: Trust, base: nat, depthBase: nat)
    ensures base !in Stale(cfg, t, DrawnAndCopied(base, depthBase), 3)
  {
    var entries := DrawnAndCopied(base, depthBase);
    assert OverwritesColor(cfg, entries[0]);
    assert base !in Stale(cfg, t, entries, 1);
    assert base !in Stale(cfg, t, entries, 2);
  }

  lemma {:induction false} OneCopyWanted(base: nat, depthBase: nat)
    ensures CopyDiscipline.CopiesWanted(DrawnAndCopied(base, depthBase), 4) == [CopyColor(3, Single(base))]
  {
    var entries := DrawnAndCopied(base, depthBase);
    assert CopyDiscipline.CopiesWanted(entries, 1) == [];
    assert CopyDiscipline.CopiesWanted(entries, 2) == [];
    assert CopyDiscipline.CopiesWanted(entries, 3) == [];
    assert entries[0].Draw? && entries[0].key == Single(base);
  }
}

/**
 * One frame after another. The console's memory outlives a frame and the host's images do not: each
 * frame's first pass over a surface starts it from zero. What makes the two meet is that the guest's
 * copies clear what they have read, so the words a frame finds are known before it begins.
 */
module EdramRuns {
  import opened Wrappers
  import opened EdramFormats
  import opened FrameRecording
  import opened EdramConsole
  import opened EdramRefinement
  import opened EdramFrames
  import opened OrdinaryFrames

  datatype Frame = Frame(cfg: Config, entries: seq<Entry>)

  /** The bases that hold one word everywhere, and that word. */
  type Known = imap<nat, Word>

  ghost function KnownAfterClear(cfg: Config, known: Known, e: Entry, base: nat, word: Word): Known
    requires e.Resolve?
  {
    if CoversAll(cfg, e) || (base in known && known[base] == word) then known[base := word] else known - {base}
  }

  /** What is known after one command on the console: a draw makes its base unknown, a clear known. */
  ghost function KnownAfter(cfg: Config, known: Known, e: Entry): Known {
    match e
    case Draw(key, _, _, _, _, depthBase, _, _, _) =>
      var drawn := if WritesColor(e) then known - {key.base} else known;
      if KeepsDepth(cfg, e) then drawn else drawn - {depthBase}
    case Resolve(key, _, _, _, _, _, colorClear, depthBase, depthClear, _) =>
      var cleared := if colorClear.Some? then KnownAfterClear(cfg, known, e, key.base, colorClear.value) else known;
      if depthClear.Some? then KnownAfterClear(cfg, cleared, e, depthBase, depthClear.value) else cleared
    case Unprepared(base, _, _) => known - {base}
  }

  ghost function KnownAt(cfg: Config, known: Known, entries: seq<Entry>, n: nat): Known
    requires n <= |entries|
  {
    if n == 0 then known else KnownAfter(cfg, KnownAt(cfg, known, entries, n - 1), entries[n - 1])
  }

  ghost predicate HoldsKnown(pixels: nat, m: Memory, known: Known) {
    && (forall b :: |m(b)| == pixels)
    && forall b :: b in known ==> AllAre(m(b), known[b])
  }

  lemma {:induction false} ClearKnown(cfg: Config, m: Memory, known: Known, e: Entry, base: nat, word: Word)
    requires e.Resolve? && HoldsKnown(cfg.pixels, m, known)
    ensures HoldsKnown(cfg.pixels, Put(m, base, ClearedWords(e, word, m(base))), KnownAfterClear(cfg, known, e, base, word))
  {}

  lemma {:induction false} DrawKnown(cfg: Config, m: Memory, known: Known, e: Entry)
    requires e.Draw? && HoldsKnown(cfg.pixels, m, known)
    ensures HoldsKnown(cfg.pixels, ConsoleStep(m, e), KnownAfter(cfg, known, e))
  {
    var drawn := Put(m, e.key.base, DrawnWords(e, m(e.key.base), m(e.depthBase)));
    if KeepsDepth(cfg, e) {
      NoDepthKept(cfg, e, m(e.depthBase), drawn(e.depthBase));
    }
  }

  lemma {:induction false} StepKnown(cfg: Config, m: Memory, known: Known, e: Entry)
    requires HoldsKnown(cfg.pixels, m, known)
    ensures HoldsKnown(cfg.pixels, ConsoleStep(m, e), KnownAfter(cfg, known, e))
  {
    if e.Draw? {
      DrawKnown(cfg, m, known, e);
    } else if e.Resolve? {
      var cleared := AfterColorClear(m, e);
      var after := if e.colorClear.Some? then KnownAfterClear(cfg, known, e, e.key.base, e.colorClear.value) else known;
      if e.colorClear.Some? {
        ClearKnown(cfg, m, known, e, e.key.base, e.colorClear.value);
      }
      if e.depthClear.Some? {
        ClearKnown(cfg, cleared, after, e, e.depthBase, e.depthClear.value);
      }
    }
  }

  lemma {:induction false} FrameKnown(cfg: Config, m: Memory, known: Known, entries: seq<Entry>, n: nat)
    requires n <= |entries| && HoldsKnown(cfg.pixels, m, known)
    ensures HoldsKnown(cfg.pixels, ConsoleAfter(m, entries, n), KnownAt(cfg, known, entries, n))
  {
    if n > 0 {
      FrameKnown(cfg, m, known, entries, n - 1);
      StepKnown(cfg, ConsoleAfter(m, entries, n - 1), KnownAt(cfg, known, entries, n - 1), entries[n - 1]);
    }
  }

  // ---------------------------------------------------------------- runs

  /** The console's memory when the k-th frame begins. */
  function MemoryBefore(m: Memory, frames: seq<Frame>, k: nat): Memory
    requires k <= |frames|
  {
    if k == 0 then m
    else ConsoleAfter(MemoryBefore(m, frames, k - 1), frames[k - 1].entries, |frames[k - 1].entries|)
  }

  ghost function KnownBefore(known: Known, frames: seq<Frame>, k: nat): Known
    requires k <= |frames|
  {
    if k == 0 then known
    else
      var f := frames[k - 1];
      KnownAt(f.cfg, KnownBefore(known, frames, k - 1), f.entries, |f.entries|)
  }

  /** What the k-th frame may trust when it begins: zero where it draws colour, its clear word where it tests depth. */
  ghost function TrustBefore(known: Known, frames: seq<Frame>, k: nat): Trust
    requires k < |frames|
  {
    var found := KnownBefore(known, frames, k);
    var zero := iset b: nat | b in found && found[b] == 0;
    Trust(zero, zero, iset b: nat | b in found && found[b] == frames[k].cfg.depthClear)
  }

  predicate SameSize(pixels: nat, frames: seq<Frame>) {
    forall k :: 0 <= k < |frames| ==> frames[k].cfg.pixels == pixels
  }

  lemma {:induction false} RunKnown(pixels: nat, m: Memory, known: Known, frames: seq<Frame>, k: nat)
    requires k <= |frames| && SameSize(pixels, frames) && HoldsKnown(pixels, m, known)
    ensures HoldsKnown(pixels, MemoryBefore(m, frames, k), KnownBefore(known, frames, k))
  {
    if k > 0 {
      RunKnown(pixels, m, known, frames, k - 1);
      var f := frames[k - 1];
      FrameKnown(f.cfg, MemoryBefore(m, frames, k - 1), KnownBefore(known, frames, k - 1), f.entries, |f.entries|);
    }
  }

  lemma {:induction false} KnownIsTrustable(pixels: nat, m: Memory, known: Known, frames: seq<Frame>, k: nat)
    requires k < |frames| && SameSize(pixels, frames) && HoldsKnown(pixels, m, known)
    ensures Trustable(frames[k].cfg, MemoryBefore(m, frames, k), TrustBefore(known, frames, k))
  {
    RunKnown(pixels, m, known, frames, k);
    var cfg, start, found := frames[k].cfg, MemoryBefore(m, frames, k), KnownBefore(known, frames, k);
    forall b | b in TrustBefore(known, frames, k).depth
      ensures start(b) == Filled(cfg, cfg.depthClear)
    {
      assert AllAre(start(b), found[b]);
    }
  }

  /**
   * Any run of single-sample frames, against one memory that is never reset: at every command of every frame,
   * what is trusted shows the console's words, and so do the copies of trusted sources.
   */
  lemma {:induction false} RunMatchesConsole(pixels: nat, m: Memory, known: Known, frames: seq<Frame>, k: nat, n: nat)
    requires k < |frames| && n <= |frames[k].entries| && SameSize(pixels, frames) && HoldsKnown(pixels, m, known)
    requires SingleSample(frames[k].entries)
    ensures var (cfg, entries) := (frames[k].cfg, frames[k].entries);
            var (start, t) := (MemoryBefore(m, frames, k), TrustBefore(known, frames, k));
            && Sound(cfg, Recorded(cfg, entries, n), ConsoleAfter(start, entries, n), TrustAt(cfg, t, start, entries, n))
            && forall c :: c in Recorded(cfg, entries, n).copies ==> CopyRightly(cfg, start, t, entries, c)
  {
    KnownIsTrustable(pixels, m, known, frames, k);
    TrustedMatchesConsole(frames[k].cfg, MemoryBefore(m, frames, k), TrustBefore(known, frames, k), frames[k].entries, n);
  }

  /** Nothing but clears of the same word is stored at the base. */
  ghost predicate Leaves(cfg: Config, e: Entry, base: nat, word: Word) {
    match e
    case Draw(key, _, _, _, _, depthBase, _, _, _) =>
      (key.base == base ==> !WritesColor(e)) && (depthBase == base ==> KeepsDepth(cfg, e))
    case Resolve(key, _, _, _, _, _, colorClear, depthBase, depthClear, _) =>
      && (key.base == base && colorClear.Some? ==> colorClear.value == word)
      && (depthBase == base && depthClear.Some? ==> depthClear.value == word)
    case Unprepared(b, _, _) => b != base
  }

  ghost predicate ClearsWhole(cfg: Config, e: Entry, base: nat, word: Word) {
    && e.Resolve? && CoversAll(cfg, e)
    && ((e.key.base == base && e.colorClear == Some(word)) || (e.depthBase == base && e.depthClear == Some(word)))
  }

  lemma {:induction false} LeftStaysKnown(cfg: Config, known: Known, e: Entry, base: nat, word: Word)
    requires Leaves(cfg, e, base, word) && base in known && known[base] == word
    ensures base in KnownAfter(cfg, known, e) && KnownAfter(cfg, known, e)[base] == word
  {}

  lemma {:induction false} ClearMakesKnown(cfg: Config, known: Known, e: Entry, base: nat, word: Word)
    requires ClearsWhole(cfg, e, base, word) && Leaves(cfg, e, base, word)
    ensures base in KnownAfter(cfg, known, e) && KnownAfter(cfg, known, e)[base] == word
  {}

  /** A base that a copy clears whole, and that is left alone afterwards, is known when the frame ends. */
  lemma {:induction false} ClearedIsKnown(cfg: Config, known: Known, entries: seq<Entry>, i: nat, n: nat, base: nat, word: Word)
    requires i < n <= |entries| && ClearsWhole(cfg, entries[i], base, word)
    requires forall j :: i <= j < n ==> Leaves(cfg, entries[j], base, word)
    ensures var found := KnownAt(cfg, known, entries, n); base in found && found[base] == word
  {
    if n == i + 1 {
      ClearMakesKnown(cfg, KnownAt(cfg, known, entries, i), entries[i], base, word);
    } else {
      ClearedIsKnown(cfg, known, entries, i, n - 1, base, word);
      LeftStaysKnown(cfg, KnownAt(cfg, known, entries, n - 1), entries[n - 1], base, word);
    }
  }

  /** The frame before ended by clearing this base. */
  ghost predicate ClearedBefore(frames: seq<Frame>, k: nat, base: nat, word: Word)
    requires 0 < k < |frames|
  {
    var f := frames[k - 1];
    exists i :: 0 <= i < |f.entries| && ClearsWhole(f.cfg, f.entries[i], base, word)
                && forall j :: i <= j < |f.entries| ==> Leaves(f.cfg, f.entries[j], base, word)
  }

  /** Such a clear is what lets the next frame begin from its own: colour from zero, depth from its clear word. */
  lemma {:induction false} ClearedIsTrusted(known: Known, frames: seq<Frame>, k: nat, base: nat, word: Word)
    requires 0 < k < |frames| && ClearedBefore(frames, k, base, word)
    ensures word == 0 ==> base in TrustBefore(known, frames, k).color
    ensures word == frames[k].cfg.depthClear ==> base in TrustBefore(known, frames, k).depth
  {
    var f := frames[k - 1];
    var i :| 0 <= i < |f.entries| && ClearsWhole(f.cfg, f.entries[i], base, word)
             && forall j :: i <= j < |f.entries| ==> Leaves(f.cfg, f.entries[j], base, word);
    ClearedIsKnown(f.cfg, KnownBefore(known, frames, k - 1), f.entries, i, |f.entries|, base, word);
  }

  ghost predicate OrdinaryRun(m: Memory, known: Known, frames: seq<Frame>, exact: bool) {
    forall k :: 0 <= k < |frames| ==>
      OrdinaryFrame(frames[k].cfg, MemoryBefore(m, frames, k), TrustBefore(known, frames, k), frames[k].entries, exact)
  }

  /**
   * A run of ordinary frames: in every one of them, every copy of a source that is not stale reads what the console's
   * copy reads, and every surface that is not stale at its end shows the console's words. A base that the
   * frame before cleared does not start stale.
   */
  lemma {:induction false} OrdinaryRunMatchesConsole(pixels: nat, m: Memory, known: Known, frames: seq<Frame>, exact: bool, k: nat)
    requires k < |frames| && SameSize(pixels, frames) && HoldsKnown(pixels, m, known) && OrdinaryRun(m, known, frames, exact)
    ensures var (cfg, entries) := (frames[k].cfg, frames[k].entries);
            var (start, t) := (MemoryBefore(m, frames, k), TrustBefore(known, frames, k));
            var s := Recorded(cfg, entries, |entries|);
            && (forall c :: c in s.copies ==> CopiedRightly(cfg, start, t, entries, exact, c))
            && (forall b :: IsDrawn(entries, b) && b !in Stale(cfg, t, entries, |entries|) ==>
                  ColorOk(SurfaceAt(cfg, s, Single(b)), ConsoleAfter(start, entries, |entries|)(b), exact))
            && (k > 0 && cfg.clearColor == Black ==>
                  forall b: nat :: ClearedBefore(frames, k, b, 0) ==> b !in Stale(cfg, t, entries, 0))
  {
    var f, t := frames[k], TrustBefore(known, frames, k);
    KnownIsTrustable(pixels, m, known, frames, k);
    FrameMatchesConsole(f.cfg, MemoryBefore(m, frames, k), t, f.entries, exact);
    if k > 0 && f.cfg.clearColor == Black {
      forall b: nat | ClearedBefore(frames, k, b, 0)
        ensures b !in Stale(f.cfg, t, f.entries, 0)
      {
        ClearedIsTrusted(known, frames, k, b, 0);
      }
    }
  }
}

/**
 * Whole frames against the console: the trust worked out from a list is right after every command of
 * it and at every copy.
 */
module EdramFrames {
  import opened FrameRecording
  import opened EdramConsole
  import opened EdramRefinement

  /** Every target is single-sample. */
  predicate SingleSample(entries: seq<Entry>) {
    forall i :: 0 <= i < |entries| ==> entries[i].Unprepared? || entries[i].key == Single(entries[i].key.base)
  }

  /**
   * What may be trusted before a frame: bases whose words are what the frame's first use of their
   * images will clear them to.
   */
  ghost predicate Trustable(cfg: Config, m: Memory, t: Trust) {
    && (forall b :: |m(b)| == cfg.pixels)
    && t.exact == t.color && (forall b :: b in t.color ==> AllAre(m(b), 0))
    && (forall b :: b in t.depth ==> m(b) == Filled(cfg, cfg.depthClear))
  }

  /** This entry's copy is logged, if it makes one; it is of its own source, and right if that was. */
  ghost predicate LoggedBy(cfg: Config, s: Recording, s': Recording, t: Trust, m: Memory, e: Entry, index: nat) {
    || s'.copies == s.copies
    || (&& |s'.copies| == |s.copies| + 1 && s'.copies[..|s.copies|] == s.copies
        && s'.copies[|s.copies|].entry == index && IsCopyOf(s'.copies[|s.copies|], e)
        && (e.isDepth || CopiesColor(cfg, s, e))
        && forall x :: CopyRight(cfg, s, t, e, x) ==> CopyShows(s'.copies[|s.copies|], e, m, x))
  }

  /** One entry, whatever it is. */
  lemma {:induction false} EntrySound(cfg: Config, s: Recording, m: Memory, t: Trust, e: Entry, index: nat)
    requires e.Unprepared? || e.key == Single(e.key.base)
    requires Sound(cfg, s, m, t)
    ensures Sound(cfg, AfterEntry(cfg, s, e, index), ConsoleStep(m, e), TrustAfter(cfg, s, t, m, e))
    ensures LoggedBy(cfg, s, AfterEntry(cfg, s, e, index), t, m, e, index)
  {
    if e.Draw? {
      DrawSound(cfg, s, m, t, e, index);
    } else if e.Resolve? {
      ResolveSound(cfg, s, m, t, e, index);
    } else {
      UnpreparedSound(cfg, s, m, t, e);
    }
  }

  ghost predicate CopyRightly(cfg: Config, m: Memory, t: Trust, entries: seq<Entry>, c: Copied) {
    && c.entry < |entries|
    && IsCopyOf(c, entries[c.entry])
    && (entries[c.entry].isDepth || CopiesColor(cfg, Recorded(cfg, entries, c.entry), entries[c.entry]))
    && (forall x :: CopyRightAt(cfg, t, m, entries, c.entry, x) ==>
          CopyShows(c, entries[c.entry], ConsoleAfter(m, entries, c.entry), x))
  }

  lemma {:induction false} StartSound(cfg: Config, m: Memory, t: Trust)
    requires Trustable(cfg, m, t)
    ensures Sound(cfg, FrameStart, m, t)
  {}

  lemma {:induction false} LoggedRightly(cfg: Config, m: Memory, t: Trust, entries: seq<Entry>, n: nat, s: Recording, s': Recording)
    requires n < |entries|
    requires forall c :: c in s.copies ==> CopyRightly(cfg, m, t, entries, c)
    requires s == Recorded(cfg, entries, n)
    requires LoggedBy(cfg, s, s', TrustAt(cfg, t, m, entries, n), ConsoleAfter(m, entries, n), entries[n], n)
    ensures forall c :: c in s'.copies ==> CopyRightly(cfg, m, t, entries, c)
  {
    forall c | c in s'.copies
      ensures CopyRightly(cfg, m, t, entries, c)
    {
      if s'.copies != s.copies {
        var i :| 0 <= i < |s'.copies| && s'.copies[i] == c;
        assert i < |s.copies| ==> s'.copies[..|s.copies|][i] in s.copies;
      }
    }
  }

  /** The recording so far agrees with the console as far as it is trusted, and so does its log. */
  ghost predicate Agrees(cfg: Config, m: Memory, t: Trust, entries: seq<Entry>, s: Recording, n: nat) {
    && n <= |entries| && s == Recorded(cfg, entries, n)
    && Sound(cfg, s, ConsoleAfter(m, entries, n), TrustAt(cfg, t, m, entries, n))
    && forall c :: c in s.copies ==> CopyRightly(cfg, m, t, entries, c)
  }

  lemma {:induction false} EntryKeepsAgreeing(cfg: Config, m: Memory, t: Trust, entries: seq<Entry>, s: Recording, i: nat)
    requires i < |entries| && SingleSample(entries) && Agrees(cfg, m, t, entries, s, i)
    ensures Agrees(cfg, m, t, entries, AfterEntry(cfg, s, entries[i], i), i + 1)
  {
    EntrySound(cfg, s, ConsoleAfter(m, entries, i), TrustAt(cfg, t, m, entries, i), entries[i], i);
    LoggedRightly(cfg, m, t, entries, i, s, AfterEntry(cfg, s, entries[i], i));
  }

  /**
   * The main result. Over every list of single-sample commands, with any conversions, refusals,
   * aliasing, clears and commands left out, from any memory of the console: every image the trust names
   * packs to the console's words, or holds exactly the values they read as, and so does every copy of a
   * source the trust named; every copy is of the source and format its command asks for.
   */
  lemma {:induction false} TrustedMatchesConsole(cfg: Config, m: Memory, t: Trust, entries: seq<Entry>, n: nat)
    requires n <= |entries| && SingleSample(entries) && Trustable(cfg, m, t)
    ensures Sound(cfg, Recorded(cfg, entries, n), ConsoleAfter(m, entries, n), TrustAt(cfg, t, m, entries, n))
    ensures forall c :: c in Recorded(cfg, entries, n).copies ==> CopyRightly(cfg, m, t, entries, c)
  {
    StartSound(cfg, m, t);
    forall s, i | 0 <= i < n && Agrees(cfg, m, t, entries, s, i)
      ensures Agrees(cfg, m, t, entries, AfterEntry(cfg, s, entries[i], i), i + 1)
    {
      EntryKeepsAgreeing(cfg, m, t, entries, s, i);
    }
    RecordedInduction(cfg, entries, n, (s: Recording, i: nat) => Agrees(cfg, m, t, entries, s, i));
  }
}

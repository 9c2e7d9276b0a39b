/**
 * Over any prepared list: which copies are made, and what each is a copy of. The commands and the
 * log agree, and both are exactly the copies the list asks for.
 */
module CopyDiscipline {
  import opened EdramFormats
  import opened FrameRecording
  import opened PassDiscipline

  predicate DrawnBefore(entries: seq<Entry>, n: nat, key: Key)
    requires n <= |entries|
  {
    exists i :: 0 <= i < n && entries[i].Draw? && entries[i].key == key
  }

  /**
   * One copy for each depth copy with a destination, and one for each served colour copy with a
   * destination whose source an earlier entry drew on.
   */
  function CopiesWanted(entries: seq<Entry>, n: nat): seq<Command>
    requires n <= |entries|
  {
    if n == 0 then []
    else
      var e := entries[n - 1];
      CopiesWanted(entries, n - 1) +
      (if !e.Resolve? || !e.destinationReady then []
       else if e.isDepth then [CopyDepth(n - 1, DepthKey(e))]
       else if e.copyIsServed && DrawnBefore(entries, n - 1, e.key) then [CopyColor(n - 1, e.key)]
       else [])
  }

  /** A surface has begun exactly when an entry so far drew on it, and the copies are those wanted. */
  ghost predicate CopiesOnCourse(entries: seq<Entry>, s: Recording, n: nat) {
    && n <= |entries| && Tracks(s)
    && (PassesAvailable(entries, n) ==>
          && (forall key :: IsBegun(s, key) <==> DrawnBefore(entries, n, key))
          && CallsOf(s.copies) == CopiesWanted(entries, n))
  }

  /** The step begins this surface and no other, and copies nothing. */
  ghost predicate BeginsOnly(s: Recording, s': Recording, key: Key) {
    s'.copies == s.copies && forall k :: IsBegun(s', k) <==> IsBegun(s, k) || k == key
  }

  lemma {:induction false} FormatChangeBegins(cfg: Config, s: Recording, e: Entry)
    requires e.Draw?
    ensures SameBegun(s, AfterFormatChange(cfg, s, e)) && AfterFormatChange(cfg, s, e).copies == s.copies
  {}

  lemma {:induction false} CallBegins(cfg: Config, s: Recording, e: Entry, index: nat)
    requires e.Draw? && IsBegun(s, e.key)
    ensures SameBegun(s, AfterDrawCall(cfg, s, e, index)) && AfterDrawCall(cfg, s, e, index).copies == s.copies
  {}

  lemma {:induction false} AliasBegins(cfg: Config, s: Recording, e: Entry)
    requires e.Draw?
    ensures SameBegun(s, AfterAlias(cfg, s, e)) && AfterAlias(cfg, s, e).copies == s.copies
  {}

  lemma {:induction false} PassBegins(cfg: Config, s: Recording, key: Key, depthBase: nat)
    ensures BeginsOnly(s, AfterBeginPass(cfg, s, key, depthBase), key)
  {}

  /** A draw that can have its pass begins its own surface, no other, and copies nothing. */
  lemma {:induction false} DrawBegins(cfg: Config, s: Recording, e: Entry, index: nat)
    requires e.Draw? && e.passAvailable && (s.pass.Open? ==> IsBegun(s, s.pass.key))
    ensures BeginsOnly(s, AfterDraw(cfg, s, e, index), e.key)
  {
    FormatChangeBegins(cfg, s, e);
    var s1 := AfterFormatChange(cfg, s, e);
    if NeedsPass(s1, e) {
      PassBegins(cfg, AfterEndPass(s1), e.key, e.depthBase);
      CallAndAliasBegin(cfg, AfterBeginPass(cfg, AfterEndPass(s1), e.key, e.depthBase), e, index);
    } else {
      CallAndAliasBegin(cfg, s1, e, index);
    }
  }

  lemma {:induction false} CallAndAliasBegin(cfg: Config, s: Recording, e: Entry, index: nat)
    requires e.Draw? && IsBegun(s, e.key)
    ensures var s' := AfterDrawCall(cfg, s, e, index);
            && SameBegun(s, s') && s'.copies == s.copies
            && SameBegun(s, AfterAlias(cfg, AfterEndPass(s'), e)) && AfterAlias(cfg, AfterEndPass(s'), e).copies == s.copies
  {
    CallBegins(cfg, s, e, index);
    AliasBegins(cfg, AfterEndPass(AfterDrawCall(cfg, s, e, index)), e);
  }

  function CopyMade(s: Recording, e: Entry, index: nat): seq<Command> {
    if !e.Resolve? || !e.destinationReady then []
    else if e.isDepth then [CopyDepth(index, DepthKey(e))]
    else if e.copyIsServed && IsBegun(s, e.key) then [CopyColor(index, e.key)]
    else []
  }

  lemma {:induction false} LoggedOneMore(copies: seq<Copied>, c: Copied)
    ensures CallsOf(copies + [c]) == CallsOf(copies) + [CallOf(c)]
  {}

  lemma {:induction false} ColorCopyBegins(cfg: Config, s: Recording, e: Entry, index: nat)
    requires e.Resolve?
    ensures SameBegun(s, AfterColorCopy(cfg, s, e, index))
    ensures CallsOf(AfterColorCopy(cfg, s, e, index).copies) == CallsOf(s.copies) + [CopyColor(index, e.key)]
  {
    var s1 := AfterCopyFormat(cfg, s, e);
    assert SameBegun(s, s1) && s1.copies == s.copies;
    LoggedOneMore(s.copies, ColorCopied(index, e.key, StorageColorFormat(e.sourceFormat), SurfaceAt(cfg, s1, e.key).image));
  }

  lemma {:induction false} DepthCopyBegins(cfg: Config, s: Recording, e: Entry, index: nat)
    requires e.Resolve? && e.destinationReady
    ensures SameBegun(s, AfterDepthCopy(cfg, s, e, index))
    ensures CallsOf(AfterDepthCopy(cfg, s, e, index).copies) == CallsOf(s.copies) + [CopyDepth(index, DepthKey(e))]
  {
    LoggedOneMore(s.copies, DepthCopied(index, DepthKey(e), DepthAt(cfg, s, DepthKey(e))));
  }

  lemma {:induction false} DepthClearBegins(cfg: Config, s: Recording, e: Entry)
    requires e.Resolve?
    ensures SameBegun(s, AfterDepthClear(cfg, s, e)) && AfterDepthClear(cfg, s, e).copies == s.copies
  {}

  lemma {:induction false} ResolveBeginsNothing(cfg: Config, s: Recording, e: Entry, index: nat)
    requires e.Resolve?
    ensures SameBegun(s, AfterResolve(cfg, s, e, index))
    ensures CallsOf(AfterResolve(cfg, s, e, index).copies) == CallsOf(s.copies) + CopyMade(s, e, index)
  {
    var s1 := AfterEndPass(s);
    if e.isDepth {
      if e.destinationReady {
        DepthCopyBegins(cfg, s1, e, index);
      }
      DepthClearBegins(cfg, AfterDepthCopy(cfg, s1, e, index), e);
    } else if CopiesColor(cfg, s, e) {
      ColorCopyBegins(cfg, s1, e, index);
      DepthClearBegins(cfg, AfterColorCopy(cfg, s1, e, index), e);
    } else if !PassedOver(cfg, s, e) {
      DepthClearBegins(cfg, s1, e);
    }
  }

  lemma {:induction false} DrawnOneMore(entries: seq<Entry>, n: nat, key: Key)
    requires n < |entries|
    ensures DrawnBefore(entries, n + 1, key) <==>
              DrawnBefore(entries, n, key) || (entries[n].Draw? && entries[n].key == key)
  {
    if DrawnBefore(entries, n, key) {
      var i :| 0 <= i < n && entries[i].Draw? && entries[i].key == key;
      assert 0 <= i < n + 1;
    }
  }

  /** A step that begins and copies what its entry asks for stays on course. */
  lemma {:induction false} StepKeepsCopiesOnCourse(entries: seq<Entry>, s: Recording, s': Recording, i: nat)
    requires i < |entries| && CopiesOnCourse(entries, s, i) && Tracks(s')
    requires PassesAvailable(entries, i + 1) ==>
               && (forall k :: IsBegun(s', k) <==> IsBegun(s, k) || (entries[i].Draw? && entries[i].key == k))
               && CallsOf(s'.copies) == CallsOf(s.copies) + CopyMade(s, entries[i], i)
    ensures CopiesOnCourse(entries, s', i + 1)
  {
    forall key
      ensures DrawnBefore(entries, i + 1, key) <==>
                DrawnBefore(entries, i, key) || (entries[i].Draw? && entries[i].key == key)
    {
      DrawnOneMore(entries, i, key);
    }
  }

  lemma {:induction false} EntryBegins(cfg: Config, s: Recording, e: Entry, i: nat)
    requires Tracks(s) && (e.Draw? ==> e.passAvailable)
    ensures forall k :: IsBegun(AfterEntry(cfg, s, e, i), k) <==> IsBegun(s, k) || (e.Draw? && e.key == k)
    ensures CallsOf(AfterEntry(cfg, s, e, i).copies) == CallsOf(s.copies) + CopyMade(s, e, i)
  {
    if e.Draw? {
      OpenIsBegun(s.commands);
      DrawBegins(cfg, s, e, i);
    } else if e.Resolve? {
      ResolveBeginsNothing(cfg, s, e, i);
    }
  }

  lemma {:induction false} EntryKeepsCopiesOnCourse(cfg: Config, entries: seq<Entry>, s: Recording, i: nat)
    requires i < |entries| && CopiesOnCourse(entries, s, i)
    ensures CopiesOnCourse(entries, AfterEntry(cfg, s, entries[i], i), i + 1)
  {
    EntryTracks(cfg, s, entries[i], i);
    if PassesAvailable(entries, i + 1) {
      EntryBegins(cfg, s, entries[i], i);
    }
    StepKeepsCopiesOnCourse(entries, s, AfterEntry(cfg, s, entries[i], i), i);
  }

  /** Which copies a frame makes: the copy commands are the log, and both are exactly the copies wanted, in order. */
  lemma {:induction false} EveryCopyIsMade(cfg: Config, entries: seq<Entry>, n: nat)
    requires n <= |entries|
    ensures var s := Recorded(cfg, entries, n);
            && CopyCalls(s.commands) == CallsOf(s.copies)
            && (PassesAvailable(entries, n) ==>
                  && CallsOf(s.copies) == CopiesWanted(entries, n)
                  && forall key :: IsBegun(s, key) <==> DrawnBefore(entries, n, key))
  {
    StartTracks();
    forall s, i | 0 <= i < n && CopiesOnCourse(entries, s, i)
      ensures CopiesOnCourse(entries, AfterEntry(cfg, s, entries[i], i), i + 1)
    {
      EntryKeepsCopiesOnCourse(cfg, entries, s, i);
    }
    RecordedInduction(cfg, entries, n, (s: Recording, i: nat) => CopiesOnCourse(entries, s, i));
  }
}

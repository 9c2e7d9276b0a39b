/**
 * What the recorder reports: over any list, each of its counters is the number of commands that met the case it
 * names, and the conversions and alias passes it counts are the ones it recorded.
 */
module RecordingCounts {
  import opened Wrappers
  import opened EdramFormats
  import opened FrameRecording
  import opened EdramConsole

  /** What became of a command that met its surface in another format. */
  datatype Change = Unmet | NoWrite | NotRead | Converted | Refused | OutOfSets

  datatype Aliasing = NotShared | Aliased | AliasRefused | AliasOutOfSets

  /** The format the surface is in and the one the command wants, when they differ. */
  function Met(cfg: Config, s: Recording, e: Entry): Option<(nat, nat)> {
    match e
    case Draw(key, colorFormat, _, _, _, _, _, _, _) => Differing(SurfaceAt(cfg, s, key), StorageColorFormat(colorFormat))
    case Resolve(key, sourceFormat, isDepth, copyIsServed, destinationReady, _, _, _, _, _) =>
      if !isDepth && copyIsServed && destinationReady then Differing(SurfaceAt(cfg, s, key), StorageColorFormat(sourceFormat))
      else None
    case Unprepared(_, _, _) => None
  }

  function Differing(t: Surface, want: nat): Option<(nat, nat)> {
    if t.begun && t.format.Some? && t.format.value != want then Some((t.format.value, want)) else None
  }

  /** Which case it is: only a draw may write nothing or read nothing, and only 32-bit colour formats convert. */
  function ChangeOf(cfg: Config, s: Recording, e: Entry): Change {
    match Met(cfg, s, e)
    case None => Unmet
    case Some(formats) =>
      if e.Draw? && (e.colorMask % 16 == 0 || !e.hasFragmentStage) then NoWrite
      else if e.Draw? && BlendIsIdentity(e.blend0) then NotRead
      else if formats.0 > 3 || formats.1 > 3 then Refused
      else if s.counters.converted >= cfg.convertSets then OutOfSets
      else Converted
  }

  /** A draw on one base with its depth buffer, through the one-sample view, that was not dropped. */
  function AliasingOf(cfg: Config, s: Recording, e: Entry): Aliasing {
    if !e.Draw? || e.depthBase != e.key.base || e.key.multisample || !cfg.aliasReady || IsDropped(cfg, s, e) then NotShared
    else if s.counters.aliased >= cfg.aliasSets then AliasOutOfSets
    else
      var kept := SurfaceAt(cfg, AfterFormatChange(cfg, s, e), e.key).format;
      if (if kept.Some? then kept.value else StorageColorFormat(e.colorFormat)) > 3 then AliasRefused else Aliased
  }

  function Changes(cfg: Config, entries: seq<Entry>, n: nat, c: Change): nat
    requires n <= |entries|
  {
    if n == 0 then 0
    else Changes(cfg, entries, n - 1, c) + if ChangeOf(cfg, Recorded(cfg, entries, n - 1), entries[n - 1]) == c then 1 else 0
  }

  function Aliasings(cfg: Config, entries: seq<Entry>, n: nat, a: Aliasing): nat
    requires n <= |entries|
  {
    if n == 0 then 0
    else Aliasings(cfg, entries, n - 1, a) + if AliasingOf(cfg, Recorded(cfg, entries, n - 1), entries[n - 1]) == a then 1 else 0
  }

  function Plus(n: Counters, c: Change, a: Aliasing): Counters {
    Counters(n.converted + (if c.Converted? then 1 else 0), n.refused + (if c.Refused? then 1 else 0),
             n.outOfSets + (if c.OutOfSets? then 1 else 0), n.notRead + (if c.NotRead? then 1 else 0),
             n.noWrite + (if c.NoWrite? then 1 else 0), n.aliased + (if a.Aliased? then 1 else 0),
             n.aliasRefused + (if a.AliasRefused? then 1 else 0), n.aliasOutOfSets + (if a.AliasOutOfSets? then 1 else 0))
  }

  // ---------------------------------------------------------------- one entry

  lemma {:induction false} ReinterpretCounts(cfg: Config, s: Recording, key: Key, from: nat, to: nat)
    requires from != to
    ensures AfterReinterpret(cfg, s, key, from, to).0.counters
         == Plus(s.counters, if from > 3 || to > 3 then Refused
                             else if s.counters.converted >= cfg.convertSets then OutOfSets else Converted, NotShared)
  {}

  lemma {:induction false} FormatChangeCounts(cfg: Config, s: Recording, e: Entry)
    requires e.Draw?
    ensures AfterFormatChange(cfg, s, e).counters == Plus(s.counters, ChangeOf(cfg, s, e), NotShared)
  {
    var met := Met(cfg, s, e);
    if met.Some? {
      ReinterpretCounts(cfg, AfterEndPass(s), e.key, met.value.0, met.value.1);
      assert AfterEndPass(s).counters == s.counters;
    }
  }

  lemma {:induction false} AliasCounts(cfg: Config, s: Recording, e: Entry)
    requires e.Draw?
    ensures AfterAlias(cfg, s, e).counters ==
              if !cfg.aliasReady || e.key.multisample then s.counters
              else if s.counters.aliased >= cfg.aliasSets then Plus(s.counters, Unmet, AliasOutOfSets)
              else if SurfaceAt(cfg, s, e.key).format.None? || SurfaceAt(cfg, s, e.key).format.value > 3 then Plus(s.counters, Unmet, AliasRefused)
              else Plus(s.counters, Unmet, Aliased)
  {}

  lemma {:induction false} CallLabels(cfg: Config, s: Recording, e: Entry, index: nat)
    requires e.Draw?
    ensures AfterDrawCall(cfg, s, e, index).counters == s.counters
    ensures var was := SurfaceAt(cfg, s, e.key).format;
            SurfaceAt(cfg, AfterDrawCall(cfg, s, e, index), e.key).format
            == if was.None? then Some(StorageColorFormat(e.colorFormat)) else was
  {}

  lemma {:induction false} PassKeepsCounts(cfg: Config, s: Recording, key: Key, depthBase: nat)
    ensures AfterBeginPass(cfg, AfterEndPass(s), key, depthBase).counters == s.counters
    ensures SurfaceAt(cfg, AfterBeginPass(cfg, AfterEndPass(s), key, depthBase), key).format == SurfaceAt(cfg, s, key).format
  {}

  /** From a surface that has met its format to the end of the draw. */
  lemma {:induction false} CallCounts(cfg: Config, s1: Recording, e: Entry, index: nat)
    requires e.Draw?
    ensures var s2 := if NeedsPass(s1, e) then AfterBeginPass(cfg, AfterEndPass(s1), e.key, e.depthBase) else s1;
            var s3, kept := AfterEndPass(AfterDrawCall(cfg, s2, e, index)), SurfaceAt(cfg, s1, e.key).format;
            && s3.counters == s1.counters
            && SurfaceAt(cfg, s3, e.key).format == (if kept.None? then Some(StorageColorFormat(e.colorFormat)) else kept)
  {
    PassKeepsCounts(cfg, s1, e.key, e.depthBase);
    var s2 := if NeedsPass(s1, e) then AfterBeginPass(cfg, AfterEndPass(s1), e.key, e.depthBase) else s1;
    CallLabels(cfg, s2, e, index);
    EndPassKeepsSurfaces(cfg, AfterDrawCall(cfg, s2, e, index), e.key);
  }

  lemma {:induction false} EndPassKeepsSurfaces(cfg: Config, s: Recording, key: Key)
    ensures SurfaceAt(cfg, AfterEndPass(s), key) == SurfaceAt(cfg, s, key) && AfterEndPass(s).counters == s.counters
  {}

  lemma {:induction false} DrawCounts(cfg: Config, s: Recording, e: Entry, index: nat)
    requires e.Draw?
    ensures AfterDraw(cfg, s, e, index).counters == Plus(s.counters, ChangeOf(cfg, s, e), AliasingOf(cfg, s, e))
  {
    var s1 := AfterFormatChange(cfg, s, e);
    FormatChangeCounts(cfg, s, e);
    CallCounts(cfg, s1, e, index);
    EndPassKeepsSurfaces(cfg, s1, e.key);
    var s2 := if NeedsPass(s1, e) then AfterBeginPass(cfg, AfterEndPass(s1), e.key, e.depthBase) else s1;
    AliasCounts(cfg, AfterEndPass(AfterDrawCall(cfg, s2, e, index)), e);
    DrawParts(cfg, s, s1, s2, e, index);
  }

  lemma {:induction false} DrawParts(cfg: Config, s: Recording, s1: Recording, s2: Recording, e: Entry, index: nat)
    requires e.Draw? && s1 == AfterFormatChange(cfg, s, e)
    requires s2 == if NeedsPass(s1, e) then AfterBeginPass(cfg, AfterEndPass(s1), e.key, e.depthBase) else s1
    ensures AfterDraw(cfg, s, e, index)
         == if IsDropped(cfg, s, e) then AfterEndPass(s1)
            else if e.depthBase == e.key.base then AfterAlias(cfg, AfterEndPass(AfterDrawCall(cfg, s2, e, index)), e)
            else AfterDrawCall(cfg, s2, e, index)
    ensures AfterDrawCall(cfg, s2, e, index).counters == s2.counters == s1.counters
  {}

  lemma {:induction false} CopyFormatCounts(cfg: Config, s: Recording, e: Entry)
    requires e.Resolve? && CopiesColor(cfg, s, e)
    ensures AfterCopyFormat(cfg, s, e).counters == Plus(s.counters, ChangeOf(cfg, s, e), NotShared)
  {}

  lemma {:induction false} ResolveCounts(cfg: Config, s: Recording, e: Entry, index: nat)
    requires e.Resolve?
    ensures AfterResolve(cfg, s, e, index).counters == Plus(s.counters, ChangeOf(cfg, s, e), NotShared)
  {
    var s1 := AfterEndPass(s);
    assert SurfaceAt(cfg, s1, e.key) == SurfaceAt(cfg, s, e.key) && s1.counters == s.counters;
    if CopiesColor(cfg, s, e) {
      CopyFormatCounts(cfg, s1, e);
    }
  }

  // ---------------------------------------------------------------- the whole list

  lemma {:induction false} EntryCounts(cfg: Config, s: Recording, e: Entry, index: nat)
    ensures AfterEntry(cfg, s, e, index).counters == Plus(s.counters, ChangeOf(cfg, s, e), AliasingOf(cfg, s, e))
  {
    if e.Draw? {
      DrawCounts(cfg, s, e, index);
    } else if e.Resolve? {
      ResolveCounts(cfg, s, e, index);
    }
  }

  ghost predicate Tallied(cfg: Config, entries: seq<Entry>, s: Recording, n: nat) {
    && n <= |entries| && s == Recorded(cfg, entries, n)
    && s.counters
       == Counters(Changes(cfg, entries, n, Converted), Changes(cfg, entries, n, Refused), Changes(cfg, entries, n, OutOfSets),
                   Changes(cfg, entries, n, NotRead), Changes(cfg, entries, n, NoWrite), Aliasings(cfg, entries, n, Aliased),
                   Aliasings(cfg, entries, n, AliasRefused), Aliasings(cfg, entries, n, AliasOutOfSets))
  }

  /** Every counter is the number of commands of its case; so each format change is counted once, under one name. */
  lemma {:induction false} CountersAreTallies(cfg: Config, entries: seq<Entry>, n: nat)
    requires n <= |entries|
    ensures Tallied(cfg, entries, Recorded(cfg, entries, n), n)
  {
    forall s, i | 0 <= i < n && Tallied(cfg, entries, s, i)
      ensures Tallied(cfg, entries, AfterEntry(cfg, s, entries[i], i), i + 1)
    {
      EntryCounts(cfg, s, entries[i], i);
    }
    RecordedInduction(cfg, entries, n, (s: Recording, i: nat) => Tallied(cfg, entries, s, i));
  }

  // ---------------------------------------------------------------- the commands

  function Conversions(cmds: seq<Command>): nat {
    if cmds == [] then 0 else Conversions(cmds[..|cmds| - 1]) + if cmds[|cmds| - 1].ConvertSurface? then 1 else 0
  }

  function AliasPasses(cmds: seq<Command>): nat {
    if cmds == [] then 0 else AliasPasses(cmds[..|cmds| - 1]) + if cmds[|cmds| - 1].AliasDepth? then 1 else 0
  }

  ghost predicate Reported(s: Recording) {
    Conversions(s.commands) == s.counters.converted && AliasPasses(s.commands) == s.counters.aliased
  }

  lemma {:induction false} OneMoreCommand(s: Recording, c: Command)
    ensures Conversions(Emit(s, c).commands) == Conversions(s.commands) + if c.ConvertSurface? then 1 else 0
    ensures AliasPasses(Emit(s, c).commands) == AliasPasses(s.commands) + if c.AliasDepth? then 1 else 0
  {
    var more := s.commands + [c];
    assert more[..|more| - 1] == s.commands;
  }

  lemma {:induction false} PlainStaysReported(s: Recording, s': Recording, c: Command)
    requires Reported(s) && s'.commands == Emit(s, c).commands && s'.counters == s.counters
    requires !c.ConvertSurface? && !c.AliasDepth?
    ensures Reported(s')
  {
    OneMoreCommand(s, c);
  }

  lemma {:induction false} EndPassReported(s: Recording)
    requires Reported(s)
    ensures Reported(AfterEndPass(s))
  {
    if s.pass.Open? {
      PlainStaysReported(s, AfterEndPass(s), EndPass);
    }
  }

  lemma {:induction false} BeginPassReported(cfg: Config, s: Recording, key: Key, depthBase: nat)
    requires Reported(s)
    ensures Reported(AfterBeginPass(cfg, s, key, depthBase))
  {
    var t, depth := SurfaceAt(cfg, s, key), Key(depthBase, key.multisample);
    var s1 := if depth !in s.depths && t.begun then Emit(s, ClearDepth(depth)) else s;
    if depth !in s.depths && t.begun {
      PlainStaysReported(s, s1, ClearDepth(depth));
    }
    PlainStaysReported(s1, AfterBeginPass(cfg, s, key, depthBase), BeginPass(key, depthBase, !t.begun));
  }

  lemma {:induction false} ReinterpretReported(cfg: Config, s: Recording, key: Key, from: nat, to: nat)
    requires Reported(s)
    ensures Reported(AfterReinterpret(cfg, s, key, from, to).0)
  {
    OneMoreCommand(s, ConvertSurface(key, from, to));
  }

  lemma {:induction false} FormatChangeReported(cfg: Config, s: Recording, e: Entry)
    requires e.Draw? && Reported(s)
    ensures Reported(AfterFormatChange(cfg, s, e))
  {
    EndPassReported(s);
    var t := SurfaceAt(cfg, s, e.key);
    if t.format.Some? {
      ReinterpretReported(cfg, AfterEndPass(s), e.key, t.format.value, StorageColorFormat(e.colorFormat));
    }
  }

  lemma {:induction false} CallReported(cfg: Config, s1: Recording, e: Entry, index: nat)
    requires e.Draw? && Reported(s1)
    ensures Reported(AfterEndPass(s1))
    ensures var s2 := if NeedsPass(s1, e) then AfterBeginPass(cfg, AfterEndPass(s1), e.key, e.depthBase) else s1;
            Reported(AfterDrawCall(cfg, s2, e, index)) && Reported(AfterEndPass(AfterDrawCall(cfg, s2, e, index)))
  {
    EndPassReported(s1);
    BeginPassReported(cfg, AfterEndPass(s1), e.key, e.depthBase);
    var s2 := if NeedsPass(s1, e) then AfterBeginPass(cfg, AfterEndPass(s1), e.key, e.depthBase) else s1;
    PlainStaysReported(s2, AfterDrawCall(cfg, s2, e, index), DrawCall(index, e.key, e.depthBase));
    EndPassReported(AfterDrawCall(cfg, s2, e, index));
  }

  lemma {:induction false} AliasReported(cfg: Config, s: Recording, e: Entry)
    requires e.Draw? && Reported(s)
    ensures Reported(AfterAlias(cfg, s, e))
  {
    OneMoreCommand(s, AliasDepth(e.key));
  }

  lemma {:induction false} DrawReported(cfg: Config, s: Recording, e: Entry, index: nat)
    requires e.Draw? && Reported(s)
    ensures Reported(AfterDraw(cfg, s, e, index))
  {
    var s1 := AfterFormatChange(cfg, s, e);
    FormatChangeReported(cfg, s, e);
    CallReported(cfg, s1, e, index);
    var s2 := if NeedsPass(s1, e) then AfterBeginPass(cfg, AfterEndPass(s1), e.key, e.depthBase) else s1;
    AliasReported(cfg, AfterEndPass(AfterDrawCall(cfg, s2, e, index)), e);
    DrawParts(cfg, s, s1, s2, e, index);
  }

  lemma {:induction false} ResolveReported(cfg: Config, s: Recording, e: Entry, index: nat)
    requires e.Resolve? && Reported(s)
    ensures Reported(AfterResolve(cfg, s, e, index))
  {
    if !PassedOver(cfg, s, e) {
      var s1 := AfterEndPass(s);
      EndPassReported(s);
      var s2 :=
        if e.isDepth then AfterDepthCopy(cfg, s1, e, index) else if e.copyIsServed then AfterColorCopy(cfg, s1, e, index) else s1;
      CopyReported(cfg, s1, e, index);
      if e.depthClear.Some? && e.depthAvailable {
        PlainStaysReported(s2, AfterDepthClear(cfg, s2, e), ClearDepth(DepthKey(e)));
      }
    }
  }

  lemma {:induction false} CopyReported(cfg: Config, s: Recording, e: Entry, index: nat)
    requires e.Resolve? && Reported(s)
    ensures Reported(AfterDepthCopy(cfg, s, e, index)) && Reported(AfterColorCopy(cfg, s, e, index))
  {
    if e.destinationReady {
      PlainStaysReported(s, AfterDepthCopy(cfg, s, e, index), CopyDepth(index, DepthKey(e)));
    }
    var t, s1 := SurfaceAt(cfg, s, e.key), AfterCopyFormat(cfg, s, e);
    if t.format.Some? {
      ReinterpretReported(cfg, s, e.key, t.format.value, StorageColorFormat(e.sourceFormat));
    }
    PlainStaysReported(s1, AfterColorCopy(cfg, s, e, index), CopyColor(index, e.key));
  }

  lemma {:induction false} EntryReported(cfg: Config, s: Recording, e: Entry, index: nat)
    requires Reported(s)
    ensures Reported(AfterEntry(cfg, s, e, index))
  {
    if e.Draw? {
      DrawReported(cfg, s, e, index);
    } else if e.Resolve? {
      ResolveReported(cfg, s, e, index);
    }
  }

  /** The conversions and alias passes counted are those among the commands. */
  lemma {:induction false} CountedIsRecorded(cfg: Config, entries: seq<Entry>, n: nat)
    requires n <= |entries|
    ensures Conversions(Recorded(cfg, entries, n).commands) == Recorded(cfg, entries, n).counters.converted
    ensures AliasPasses(Recorded(cfg, entries, n).commands) == Recorded(cfg, entries, n).counters.aliased
  {
    forall s, i | 0 <= i < n && Reported(s)
      ensures Reported(AfterEntry(cfg, s, entries[i], i))
    {
      EntryReported(cfg, s, entries[i], i);
    }
    RecordedInduction(cfg, entries, n, (s: Recording, i: nat) => Reported(s));
  }
}

/**
 * Over any prepared list: which render pass is open when a command is recorded.
 * Everything is stated about the command list alone, so nothing here depends on what the
 * recorder believes about itself.
 */
module PassDiscipline {
  import opened EdramFormats
  import opened FrameRecording

  /** The pass that the commands leave open. */
  function OpenAfter(cmds: seq<Command>): Pass {
    if cmds == [] then Closed
    else
      match cmds[|cmds| - 1] {
        case BeginPass(key, depthBase, _) => Open(key, depthBase)
        case EndPass => Closed
        case _ => OpenAfter(cmds[..|cmds| - 1])
      }
  }

  ghost predicate Begun(cmds: seq<Command>, key: Key) {
    exists i :: 0 <= i < |cmds| && cmds[i].BeginPass? && cmds[i].key == key
  }

  predicate ClearsDepth(c: Command, depth: Key) {
    || c == ClearDepth(depth)
    || (c.BeginPass? && c.clear && Key(c.depthBase, c.key.multisample) == depth)
  }

  ghost predicate DepthDefined(cmds: seq<Command>, depth: Key) {
    exists i :: 0 <= i < |cmds| && ClearsDepth(cmds[i], depth)
  }

  /**
   * `c` may follow `cmds`. Passes do not nest; a pass clears its surface exactly when it is the
   * frame's first on that surface; a draw runs in the pass of its own surface and depth base,
   * against a depth buffer that was cleared this frame; everything else runs outside a pass.
   */
  ghost predicate Legal(cmds: seq<Command>, c: Command) {
    match c
    case BeginPass(key, depthBase, clear) =>
      OpenAfter(cmds) == Closed && (clear <==> !Begun(cmds, key))
    case EndPass => OpenAfter(cmds) != Closed
    case DrawCall(_, key, depthBase) =>
      OpenAfter(cmds) == Open(key, depthBase) && DepthDefined(cmds, Key(depthBase, key.multisample))
    case _ => OpenAfter(cmds) == Closed
  }

  ghost predicate AllLegal(cmds: seq<Command>) {
    forall i :: 0 <= i < |cmds| ==> Legal(cmds[..i], cmds[i])
  }

  /** The copies among the commands. */
  function CopyCalls(cmds: seq<Command>): seq<Command> {
    if cmds == [] then []
    else
      var last := cmds[|cmds| - 1];
      CopyCalls(cmds[..|cmds| - 1]) + if last.CopyColor? || last.CopyDepth? then [last] else []
  }

  /** The command that a logged copy was made by. */
  function CallOf(c: Copied): Command {
    match c
    case ColorCopied(entry, key, _, _) => CopyColor(entry, key)
    case DepthCopied(entry, depth, _) => CopyDepth(entry, depth)
  }

  function CallsOf(copies: seq<Copied>): seq<Command> {
    seq(|copies|, i requires 0 <= i < |copies| => CallOf(copies[i]))
  }

  predicate IsBegun(s: Recording, key: Key) {
    key in s.surfaces && s.surfaces[key].begun
  }

  /** The recorder's own fields say what its command list says. */
  ghost predicate Tracks(s: Recording) {
    && AllLegal(s.commands)
    && CopyCalls(s.commands) == CallsOf(s.copies)
    && s.pass == OpenAfter(s.commands)
    && (forall key :: Begun(s.commands, key) <==> IsBegun(s, key))
    && (forall depth :: depth in s.depths ==> DepthDefined(s.commands, depth))
    && (s.pass.Open? ==> Key(s.pass.depthBase, s.pass.key.multisample) in s.depths)
  }

  /** The draw calls among the commands, each with the entry it came from. */
  function DrawCalls(cmds: seq<Command>): seq<Command> {
    if cmds == [] then []
    else
      var last := cmds[|cmds| - 1];
      DrawCalls(cmds[..|cmds| - 1]) + if last.DrawCall? then [last] else []
  }

  /** One call for each drawing entry, in order, on the entry's own surface and depth target. */
  function DrawCallsWanted(entries: seq<Entry>, n: nat): seq<Command>
    requires n <= |entries|
  {
    if n == 0 then []
    else
      var e := entries[n - 1];
      DrawCallsWanted(entries, n - 1)
      + if e.Draw? then [DrawCall(n - 1, e.key, e.depthBase)] else []
  }

  lemma {:induction false} Appended(cmds: seq<Command>, c: Command)
    ensures AllLegal(cmds) && Legal(cmds, c) ==> AllLegal(cmds + [c])
    ensures OpenAfter(cmds + [c]) ==
            match c { case BeginPass(k, d, _) => Open(k, d) case EndPass => Closed case _ => OpenAfter(cmds) }
    ensures forall key :: Begun(cmds + [c], key) <==> Begun(cmds, key) || (c.BeginPass? && c.key == key)
    ensures forall depth :: DepthDefined(cmds + [c], depth) <==> DepthDefined(cmds, depth) || ClearsDepth(c, depth)
    ensures DrawCalls(cmds + [c]) == DrawCalls(cmds) + if c.DrawCall? then [c] else []
    ensures CopyCalls(cmds + [c]) == CopyCalls(cmds) + if c.CopyColor? || c.CopyDepth? then [c] else []
  {
    var more := cmds + [c];
    assert more[..|cmds|] == cmds;
    if AllLegal(cmds) && Legal(cmds, c) {
      forall i | 0 <= i < |more|
        ensures Legal(more[..i], more[i])
      {
        if i < |cmds| {
          assert more[..i] == cmds[..i] && more[i] == cmds[i];
        }
      }
    }
    forall key
      ensures Begun(more, key) <==> Begun(cmds, key) || (c.BeginPass? && c.key == key)
    {
      if Begun(cmds, key) {
        var i :| 0 <= i < |cmds| && cmds[i].BeginPass? && cmds[i].key == key;
        assert more[i] == cmds[i];
      }
      assert more[|cmds|] == c;
    }
    forall depth
      ensures DepthDefined(more, depth) <==> DepthDefined(cmds, depth) || ClearsDepth(c, depth)
    {
      if DepthDefined(cmds, depth) {
        var i :| 0 <= i < |cmds| && ClearsDepth(cmds[i], depth);
        assert more[i] == cmds[i];
      }
      assert more[|cmds|] == c;
    }
  }

  /** A command that is neither a pass nor a draw, recorded outside a pass. */
  lemma {:induction false} PlainCommand(s: Recording, c: Command)
    requires Tracks(s) && s.pass.Closed?
    requires !c.BeginPass? && !c.EndPass? && !c.DrawCall? && !c.CopyColor? && !c.CopyDepth?
    ensures Tracks(Emit(s, c))
    ensures DrawCalls(Emit(s, c).commands) == DrawCalls(s.commands)
  {
    Appended(s.commands, c);
  }

  lemma {:induction false} EndPassTracks(s: Recording)
    requires Tracks(s)
    ensures Tracks(AfterEndPass(s)) && AfterEndPass(s).pass.Closed?
    ensures DrawCalls(AfterEndPass(s).commands) == DrawCalls(s.commands)
  {
    Appended(s.commands, EndPass);
  }

  /** The depth buffer's first use this frame, when the pass about to open will not clear it. */
  function DepthMadeReady(cfg: Config, s: Recording, key: Key, depthBase: nat): Recording {
    var depth := Key(depthBase, key.multisample);
    if depth !in s.depths && SurfaceAt(cfg, s, key).begun
    then Emit(s, ClearDepth(depth)).(depths := s.depths[depth := Filled(cfg, cfg.depthClear)])
    else s
  }

  lemma {:induction false} DepthMadeReadyTracks(cfg: Config, s: Recording, key: Key, depthBase: nat)
    requires Tracks(s) && s.pass.Closed?
    ensures Tracks(DepthMadeReady(cfg, s, key, depthBase))
    ensures DrawCalls(DepthMadeReady(cfg, s, key, depthBase).commands) == DrawCalls(s.commands)
  {
    Appended(s.commands, ClearDepth(Key(depthBase, key.multisample)));
  }

  /** Opening a pass that clears a surface exactly when it is its first keeps the fields in step. */
  lemma {:induction false} OpenedTracks(s: Recording, s': Recording, key: Key, depthBase: nat, clear: bool)
    requires Tracks(s) && s.pass.Closed? && (clear <==> !Begun(s.commands, key))
    requires clear || Key(depthBase, key.multisample) in s.depths
    requires s'.commands == s.commands + [BeginPass(key, depthBase, clear)] && s'.copies == s.copies
    requires s'.pass == Open(key, depthBase)
    requires s'.depths.Keys == s.depths.Keys + {Key(depthBase, key.multisample)}
    requires forall k :: IsBegun(s', k) <==> IsBegun(s, k) || k == key
    ensures Tracks(s') && DrawCalls(s'.commands) == DrawCalls(s.commands)
  {
    Appended(s.commands, BeginPass(key, depthBase, clear));
  }

  lemma {:induction false} BeginPassTracks(cfg: Config, s: Recording, key: Key, depthBase: nat)
    requires Tracks(s) && s.pass.Closed?
    ensures Tracks(AfterBeginPass(cfg, s, key, depthBase))
    ensures AfterBeginPass(cfg, s, key, depthBase).pass == Open(key, depthBase)
    ensures DrawCalls(AfterBeginPass(cfg, s, key, depthBase).commands) == DrawCalls(s.commands)
  {
    DepthMadeReadyTracks(cfg, s, key, depthBase);
    var s1 := DepthMadeReady(cfg, s, key, depthBase);
    OpenedTracks(s1, AfterBeginPass(cfg, s, key, depthBase), key, depthBase, !SurfaceAt(cfg, s, key).begun);
  }

  ghost predicate SameBegun(s: Recording, s': Recording) {
    forall key :: IsBegun(s', key) <==> IsBegun(s, key)
  }

  /** Changing what a surface holds, or a counter, records nothing. */
  lemma {:induction false} SameCommands(s: Recording, s': Recording)
    requires Tracks(s)
    requires s'.commands == s.commands && s'.copies == s.copies && s'.pass == s.pass && s'.depths.Keys == s.depths.Keys
    requires SameBegun(s, s')
    ensures Tracks(s')
  {}

  /** So does doing it beside one command that needs no pass. */
  lemma {:induction false} CommandTracks(s: Recording, s': Recording, c: Command)
    requires Tracks(s) && s.pass.Closed?
    requires !c.BeginPass? && !c.EndPass? && !c.DrawCall? && !c.CopyColor? && !c.CopyDepth?
    requires s'.commands == s.commands + [c] && s'.copies == s.copies && s'.pass == s.pass && s'.depths.Keys == s.depths.Keys
    requires SameBegun(s, s')
    ensures Tracks(s') && s'.pass.Closed? && DrawCalls(s'.commands) == DrawCalls(s.commands)
  {
    PlainCommand(s, c);
    SameCommands(Emit(s, c), s');
  }

  lemma {:induction false} ReplacedBegun(s: Recording, s': Recording, key: Key, t: Surface)
    requires s'.surfaces == s.surfaces[key := t]
    requires t.begun <==> key in s.surfaces && s.surfaces[key].begun
    ensures SameBegun(s, s')
  {}

  lemma {:induction false} ReinterpretTracks(cfg: Config, s: Recording, key: Key, from: nat, to: nat)
    requires Tracks(s) && s.pass.Closed?
    ensures var s' := AfterReinterpret(cfg, s, key, from, to).0; Tracks(s') && s'.pass.Closed?
    ensures DrawCalls(AfterReinterpret(cfg, s, key, from, to).0.commands) == DrawCalls(s.commands)
  {
    var (s', converted) := AfterReinterpret(cfg, s, key, from, to);
    if converted && from != to {
      ReplacedBegun(s, s', key, s'.surfaces[key]);
      CommandTracks(s, s', ConvertSurface(key, from, to));
    } else {
      SameCommands(s, s');
    }
  }

  lemma {:induction false} RelabelTracks(cfg: Config, s: Recording, key: Key, format: nat)
    requires Tracks(s)
    ensures Tracks(Relabel(cfg, s, key, format))
  {
    SameCommands(s, Relabel(cfg, s, key, format));
  }

  lemma {:induction false} FormatChangeTracks(cfg: Config, s: Recording, e: Entry)
    requires e.Draw? && Tracks(s)
    ensures Tracks(AfterFormatChange(cfg, s, e))
    ensures DrawCalls(AfterFormatChange(cfg, s, e).commands) == DrawCalls(s.commands)
  {
    var t := SurfaceAt(cfg, s, e.key);
    var want := StorageColorFormat(e.colorFormat);
    var n := s.counters;
    if !(t.begun && t.format.Some? && t.format.value != want) {
    } else if !WritesColor(e) {
      SameCommands(s, AfterFormatChange(cfg, s, e));
    } else if BlendIsIdentity(e.blend0) {
      var s1 := s.(counters := n.(notRead := n.notRead + 1));
      SameCommands(s, s1);
      RelabelTracks(cfg, s1, e.key, want);
    } else {
      EndPassTracks(s);
      ReinterpretTracks(cfg, AfterEndPass(s), e.key, t.format.value, want);
      RelabelTracks(cfg, AfterReinterpret(cfg, AfterEndPass(s), e.key, t.format.value, want).0, e.key, want);
    }
  }

  lemma {:induction false} DrawCallTracks(cfg: Config, s: Recording, e: Entry, index: nat)
    requires e.Draw? && Tracks(s) && s.pass == Open(e.key, e.depthBase)
    ensures Tracks(AfterDrawCall(cfg, s, e, index))
    ensures DrawCalls(AfterDrawCall(cfg, s, e, index).commands)
            == DrawCalls(s.commands) + [DrawCall(index, e.key, e.depthBase)]
  {
    var c := DrawCall(index, e.key, e.depthBase);
    Appended(s.commands, c);
    OpenIsBegun(s.commands);
    var s' := AfterDrawCall(cfg, s, e, index);
    assert s'.depths.Keys == s.depths.Keys;
    ReplacedBegun(s, s', e.key, s'.surfaces[e.key]);
    SameCommands(Emit(s, c), s');
  }

  lemma {:induction false} OpenIsBegun(cmds: seq<Command>)
    ensures OpenAfter(cmds).Open? ==> Begun(cmds, OpenAfter(cmds).key)
  {
    if cmds != [] {
      var n := |cmds| - 1;
      assert cmds == cmds[..n] + [cmds[n]];
      OpenIsBegun(cmds[..n]);
      Appended(cmds[..n], cmds[n]);
    }
  }

  lemma {:induction false} AliasTracks(cfg: Config, s: Recording, e: Entry)
    requires e.Draw? && Tracks(s) && s.pass.Closed?
    ensures Tracks(AfterAlias(cfg, s, e))
    ensures DrawCalls(AfterAlias(cfg, s, e).commands) == DrawCalls(s.commands)
  {
    var s' := AfterAlias(cfg, s, e);
    if CanAlias(cfg, s, e) {
      ReplacedBegun(s, s', e.key, s'.surfaces[e.key]);
      CommandTracks(s, s', AliasDepth(e.key));
    } else {
      SameCommands(s, s');
    }
  }

  lemma {:induction false} DrawTracks(cfg: Config, s: Recording, e: Entry, index: nat)
    requires e.Draw? && Tracks(s)
    ensures Tracks(AfterDraw(cfg, s, e, index))
    ensures e.passAvailable ==>
              DrawCalls(AfterDraw(cfg, s, e, index).commands)
              == DrawCalls(s.commands) + [DrawCall(index, e.key, e.depthBase)]
  {
    var s1 := AfterFormatChange(cfg, s, e);
    FormatChangeTracks(cfg, s, e);
    EndPassTracks(s1);
    if !(NeedsPass(s1, e) && !e.passAvailable) {
      var s2 := s1;
      if NeedsPass(s1, e) {
        BeginPassTracks(cfg, AfterEndPass(s1), e.key, e.depthBase);
        s2 := AfterBeginPass(cfg, AfterEndPass(s1), e.key, e.depthBase);
      }
      DrawCallTracks(cfg, s2, e, index);
      var s3 := AfterDrawCall(cfg, s2, e, index);
      if e.depthBase == e.key.base {
        EndPassTracks(s3);
        AliasTracks(cfg, AfterEndPass(s3), e);
      }
    }
  }

  lemma {:induction false} DepthClearTracks(cfg: Config, s: Recording, e: Entry)
    requires e.Resolve? && Tracks(s) && s.pass.Closed?
    ensures Tracks(AfterDepthClear(cfg, s, e))
    ensures DrawCalls(AfterDepthClear(cfg, s, e).commands) == DrawCalls(s.commands)
  {
    if e.depthClear.Some? && e.depthAvailable {
      PlainCommand(s, ClearDepth(DepthKey(e)));
      Appended(s.commands, ClearDepth(DepthKey(e)));
    }
  }

  lemma {:induction false} CopyFormatTracks(cfg: Config, s: Recording, e: Entry)
    requires e.Resolve? && Tracks(s) && s.pass.Closed?
    ensures var s' := AfterCopyFormat(cfg, s, e); Tracks(s') && s'.pass.Closed?
    ensures DrawCalls(AfterCopyFormat(cfg, s, e).commands) == DrawCalls(s.commands)
  {
    var t := SurfaceAt(cfg, s, e.key);
    var want := StorageColorFormat(e.sourceFormat);
    if t.format.Some? && t.format.value != want {
      var (s', converted) := AfterReinterpret(cfg, s, e.key, t.format.value, want);
      ReinterpretTracks(cfg, s, e.key, t.format.value, want);
      RelabelTracks(cfg, s', e.key, want);
    }
  }

  /** A copy and its entry in the log. */
  lemma {:induction false} CopyOutTracks(s: Recording, copied: Copied)
    requires Tracks(s) && s.pass.Closed?
    ensures var s' := Emit(s, CallOf(copied)).(copies := s.copies + [copied]);
            Tracks(s') && s'.pass.Closed? && DrawCalls(s'.commands) == DrawCalls(s.commands)
  {
    Appended(s.commands, CallOf(copied));
    assert CallsOf(s.copies + [copied]) == CallsOf(s.copies) + [CallOf(copied)];
  }

  lemma {:induction false} DepthCopyTracks(cfg: Config, s: Recording, e: Entry, index: nat)
    requires e.Resolve? && Tracks(s) && s.pass.Closed?
    ensures var s' := AfterDepthCopy(cfg, s, e, index);
            Tracks(s') && s'.pass.Closed? && DrawCalls(s'.commands) == DrawCalls(s.commands)
  {
    CopyOutTracks(s, DepthCopied(index, DepthKey(e), DepthAt(cfg, s, DepthKey(e))));
  }

  lemma {:induction false} ColorCopyTracks(cfg: Config, s: Recording, e: Entry, index: nat)
    requires e.Resolve? && Tracks(s) && s.pass.Closed?
    ensures var s' := AfterColorCopy(cfg, s, e, index);
            Tracks(s') && s'.pass.Closed? && DrawCalls(s'.commands) == DrawCalls(s.commands)
  {
    CopyFormatTracks(cfg, s, e);
    var s1 := AfterCopyFormat(cfg, s, e);
    CopyOutTracks(s1, ColorCopied(index, e.key, StorageColorFormat(e.sourceFormat), SurfaceAt(cfg, s1, e.key).image));
  }

  lemma {:induction false} ResolveTracks(cfg: Config, s: Recording, e: Entry, index: nat)
    requires e.Resolve? && Tracks(s)
    ensures Tracks(AfterResolve(cfg, s, e, index))
    ensures DrawCalls(AfterResolve(cfg, s, e, index).commands) == DrawCalls(s.commands)
  {
    EndPassTracks(s);
    var s1 := AfterEndPass(s);
    if e.isDepth {
      DepthCopyTracks(cfg, s1, e, index);
      DepthClearTracks(cfg, AfterDepthCopy(cfg, s1, e, index), e);
    } else if !e.copyIsServed {
      DepthClearTracks(cfg, s1, e);
    } else if CopiesColor(cfg, s, e) {
      ColorCopyTracks(cfg, s1, e, index);
      DepthClearTracks(cfg, AfterColorCopy(cfg, s1, e, index), e);
    }
  }

  lemma {:induction false} StartTracks()
    ensures Tracks(FrameStart)
  {}

  lemma {:induction false} EntryTracks(cfg: Config, s: Recording, e: Entry, index: nat)
    requires Tracks(s)
    ensures Tracks(AfterEntry(cfg, s, e, index))
    ensures (e.Draw? ==> e.passAvailable) ==>
              DrawCalls(AfterEntry(cfg, s, e, index).commands)
              == DrawCalls(s.commands) + if e.Draw? then [DrawCall(index, e.key, e.depthBase)] else []
  {
    if e.Draw? {
      DrawTracks(cfg, s, e, index);
    } else if e.Resolve? {
      ResolveTracks(cfg, s, e, index);
    }
  }

  predicate PassesAvailable(entries: seq<Entry>, n: nat)
    requires n <= |entries|
  {
    forall i :: 0 <= i < n && entries[i].Draw? ==> entries[i].passAvailable
  }

  /** The recorder's fields agree with its commands, and its draw calls so far are those wanted. */
  ghost predicate OnCourse(entries: seq<Entry>, s: Recording, n: nat) {
    && n <= |entries| && Tracks(s)
    && (PassesAvailable(entries, n) ==>
          DrawCalls(s.commands) == DrawCallsWanted(entries, n))
  }

  lemma {:induction false} EntryStaysOnCourse(cfg: Config, entries: seq<Entry>, s: Recording, i: nat)
    requires i < |entries| && OnCourse(entries, s, i)
    ensures OnCourse(entries, AfterEntry(cfg, s, entries[i], i), i + 1)
  {
    EntryTracks(cfg, s, entries[i], i);
  }

  /**
   * Pass discipline over any prepared list: every recorded command is legal where it stands. When
   * every pass could be opened, the frame's draw calls are its drawing entries, in order, each on
   * its own surface and depth target.
   */
  lemma {:induction false} EveryCommandIsLegal(cfg: Config, entries: seq<Entry>, n: nat)
    requires n <= |entries|
    ensures Tracks(Recorded(cfg, entries, n))
    ensures AllLegal(Recorded(cfg, entries, n).commands)
    ensures (forall i :: 0 <= i < n && entries[i].Draw? ==> entries[i].passAvailable) ==>
              DrawCalls(Recorded(cfg, entries, n).commands) == DrawCallsWanted(entries, n)
  {
    StartTracks();
    forall s, i | 0 <= i < n && OnCourse(entries, s, i)
      ensures OnCourse(entries, AfterEntry(cfg, s, entries[i], i), i + 1)
    {
      EntryStaysOnCourse(cfg, entries, s, i);
    }
    RecordedInduction(cfg, entries, n, (s: Recording, i: nat) => OnCourse(entries, s, i));
  }

  /** Each surface is cleared by its first pass of the frame and by no other. */
  lemma {:induction false} OneClearPerSurface(cmds: seq<Command>, i: nat, j: nat)
    requires AllLegal(cmds) && i < j < |cmds|
    requires cmds[i].BeginPass? && cmds[j].BeginPass? && cmds[i].key == cmds[j].key
    ensures !cmds[j].clear
    ensures (forall k :: 0 <= k < i && cmds[k].BeginPass? ==> cmds[k].key != cmds[i].key) ==> cmds[i].clear
  {
    assert Legal(cmds[..j], cmds[j]) && Legal(cmds[..i], cmds[i]);
    assert cmds[..j][i] == cmds[i];
    if Begun(cmds[..i], cmds[i].key) {
      var k :| 0 <= k < i && cmds[..i][k].BeginPass? && cmds[..i][k].key == cmds[i].key;
      assert cmds[k] == cmds[..i][k];
    }
  }
}

/**
 * What callers of the queue see, over every interleaving: each answer follows from the answers before it, and
 * what the consumer is handed is the last accepted frame itself, inputs and all.
 */
module FrameQueueTrace {
  import opened Wrappers
  import opened FrameQueues
  import opened FrameQueueProtocol

  /** A call that returned, or the passage of a wait that did not. */
  datatype Event =
    | Submitted(frame: QueuedFrame, answer: SubmitResult)
    | TookFrame(frame: QueuedFrame)
    | FoundDrained
    | FoundNothing
    | CompletedFrame(frameId: nat, ok: bool)
    | ClosedQueue
    | FoundIdle
    | FoundBusy

  function Observed(s: System, a: Action): seq<Event> {
    match a
    case Submit(frame, _) => [Submitted(frame, SubmitAnswer(s.q, frame))]
    case CheckTake =>
      (match TakeAnswer(s.q)
       case Took(frame) => [TookFrame(frame)]
       case Drained => [FoundDrained]
       case StillWaiting => [FoundNothing])
    case CheckIdle(_) => [if IdleReady(s.q) then FoundIdle else FoundBusy]
    case Complete(id) => [CompletedFrame(id, s.q.active == Some(id))]
    case Close => [ClosedQueue]
    case _ => []
  }

  function Trace(s: System, acts: seq<Action>): seq<Event>
    requires ValidRun(s, acts)
    decreases |acts|
  {
    if acts == [] then [] else Observed(s, acts[0]) + Trace(Next(s, acts[0]), acts[1..])
  }

  // ---------------------------------------------------------------- what a history of answers means

  ghost predicate AcceptedAt(trace: seq<Event>, i: int) {
    0 <= i < |trace| && trace[i].Submitted? && trace[i].answer.status in {Accepted, ReplacedPending}
  }

  ghost predicate WasClosed(trace: seq<Event>) {
    exists i :: 0 <= i < |trace| && trace[i] == ClosedQueue
  }

  /** Some accepted frame has this identity or a later one. */
  ghost predicate IsStale(trace: seq<Event>, frameId: nat) {
    exists i :: AcceptedAt(trace, i) && frameId <= trace[i].frame.frameId
  }

  /** The i-th event is the last acceptance, and nothing was taken since. */
  ghost predicate WaitsFrom(trace: seq<Event>, i: int) {
    AcceptedAt(trace, i) && forall j :: i < j < |trace| ==> !AcceptedAt(trace, j) && !trace[j].TookFrame?
  }

  ghost predicate Waits(trace: seq<Event>, frame: QueuedFrame) {
    exists i :: WaitsFrom(trace, i) && trace[i].frame == frame
  }

  ghost predicate NoneWaits(trace: seq<Event>) {
    forall i :: !WaitsFrom(trace, i)
  }

  /** The i-th event took a frame that has not been completed since. */
  ghost predicate RendersFrom(trace: seq<Event>, i: int) {
    && 0 <= i < |trace| && trace[i].TookFrame?
    && forall j :: i < j < |trace| ==> trace[j] != CompletedFrame(trace[i].frame.frameId, true)
  }

  ghost predicate Renders(trace: seq<Event>, frameId: nat) {
    exists i :: RendersFrom(trace, i) && trace[i].frame.frameId == frameId
  }

  ghost predicate NoneRenders(trace: seq<Event>) {
    forall i :: !RendersFrom(trace, i)
  }

  /** What a submission is told: refused as closed or stale, or accepted, and if it replaced a frame, which. */
  ghost predicate Told(before: seq<Event>, frame: QueuedFrame, answer: SubmitResult) {
    match answer.status
    case RejectedClosed => WasClosed(before) && answer.displacedFrameId.None? && answer.displacedFrameSequence.None?
    case RejectedStale =>
      && !WasClosed(before) && IsStale(before, frame.frameId)
      && answer.displacedFrameId.None? && answer.displacedFrameSequence.None?
    case Accepted =>
      && !WasClosed(before) && !IsStale(before, frame.frameId) && NoneWaits(before)
      && answer.displacedFrameId.None? && answer.displacedFrameSequence.None?
    case ReplacedPending =>
      && !WasClosed(before) && !IsStale(before, frame.frameId)
      && exists i :: WaitsFrom(before, i)
                  && answer.displacedFrameId == Some(before[i].frame.frameId)
                  && (before[i].frame.inputs.sequence >= 0 ==>
                        answer.displacedFrameSequence == Some(before[i].frame.inputs.sequence as nat))
                  && (before[i].frame.inputs.sequence < 0 ==> answer.displacedFrameSequence.None?)
  }

  /** The event is what the events before it call for. */
  ghost predicate Follows(before: seq<Event>, event: Event) {
    match event
    case Submitted(frame, answer) => Told(before, frame, answer)
    case TookFrame(frame) => Waits(before, frame) && NoneRenders(before)
    case FoundDrained => WasClosed(before) && NoneWaits(before) && NoneRenders(before)
    case FoundNothing => !NoneRenders(before) || (NoneWaits(before) && !WasClosed(before))
    case CompletedFrame(id, ok) => ok <==> Renders(before, id)
    case ClosedQueue => true
    case FoundIdle => NoneWaits(before) && NoneRenders(before)
    case FoundBusy => !(NoneWaits(before) && NoneRenders(before))
  }

  // ---------------------------------------------------------------- the queue holds what its history says

  ghost predicate Explains(q: QueueState, trace: seq<Event>) {
    && (q.closed <==> WasClosed(trace))
    && (forall id: nat :: IsStale(trace, id) <==> q.last.Some? && id <= q.last.value)
    && (q.pending.None? ==> NoneWaits(trace))
    && (q.pending.Some? ==> exists i :: WaitsFrom(trace, i) && trace[i].frame == q.pending.value)
    && (q.active.None? ==> NoneRenders(trace))
    && (q.active.Some? ==> exists i :: OnlyRenders(trace, i) && trace[i].frame.frameId == q.active.value)
  }

  ghost predicate OnlyRenders(trace: seq<Event>, i: int) {
    RendersFrom(trace, i) && forall j :: RendersFrom(trace, j) ==> j == i
  }

  lemma {:induction false} LastWaits(trace: seq<Event>, i: int, j: int)
    requires WaitsFrom(trace, i) && WaitsFrom(trace, j)
    ensures i == j
  {}

  lemma {:induction false} MoreAccepted(trace: seq<Event>, event: Event)
    ensures forall i :: i < |trace| ==> (AcceptedAt(trace + [event], i) <==> AcceptedAt(trace, i))
    ensures AcceptedAt(trace + [event], |trace|) <==> event.Submitted? && event.answer.status in {Accepted, ReplacedPending}
  {}

  lemma {:induction false} MoreClosed(trace: seq<Event>, event: Event)
    ensures WasClosed(trace + [event]) <==> WasClosed(trace) || event == ClosedQueue
  {
    if WasClosed(trace) {
      var i :| 0 <= i < |trace| && trace[i] == ClosedQueue;
      assert (trace + [event])[i] == ClosedQueue;
    }
    if event == ClosedQueue {
      assert (trace + [event])[|trace|] == ClosedQueue;
    }
  }

  lemma {:induction false} MoreStale(trace: seq<Event>, event: Event, id: nat)
    ensures IsStale(trace + [event], id) <==>
              IsStale(trace, id) || (AcceptedAt(trace + [event], |trace|) && id <= event.frame.frameId)
  {
    var more := trace + [event];
    MoreAccepted(trace, event);
    if IsStale(trace, id) {
      var i :| AcceptedAt(trace, i) && id <= trace[i].frame.frameId;
      assert AcceptedAt(more, i) && more[i] == trace[i];
    }
    if AcceptedAt(more, |trace|) && id <= event.frame.frameId {
      assert more[|trace|] == event;
    }
    if IsStale(more, id) {
      var i :| AcceptedAt(more, i) && id <= more[i].frame.frameId;
      assert i < |trace| ==> AcceptedAt(trace, i) && trace[i] == more[i];
    }
  }

  lemma {:induction false} MoreWaits(trace: seq<Event>, event: Event, i: int)
    requires i < |trace|
    ensures WaitsFrom(trace + [event], i) <==>
              WaitsFrom(trace, i) && !AcceptedAt(trace + [event], |trace|) && !event.TookFrame?
  {
    var more := trace + [event];
    MoreAccepted(trace, event);
    assert more[|trace|] == event && forall j :: 0 <= j < |trace| ==> more[j] == trace[j];
    if WaitsFrom(more, i) {
      forall j | i < j < |trace|
        ensures !AcceptedAt(trace, j) && !trace[j].TookFrame?
      {
        assert !AcceptedAt(more, j) && !more[j].TookFrame?;
      }
    }
  }

  lemma {:induction false} MoreRenders(trace: seq<Event>, event: Event, i: int)
    requires 0 <= i < |trace|
    ensures RendersFrom(trace + [event], i) <==>
              RendersFrom(trace, i) && event != CompletedFrame(trace[i].frame.frameId, true)
  {
    var more := trace + [event];
    assert more[|trace|] == event && forall j :: 0 <= j < |trace| ==> more[j] == trace[j];
    if RendersFrom(more, i) {
      forall j | i < j < |trace|
        ensures trace[j] != CompletedFrame(trace[i].frame.frameId, true)
      {
        assert more[j] != CompletedFrame(more[i].frame.frameId, true);
      }
    }
  }

  // ---------------------------------------------------------------- one event at a time

  /** The event neither accepts, takes, completes nor closes. */
  lemma {:induction false} NothingMoves(q: QueueState, trace: seq<Event>, event: Event)
    requires Explains(q, trace) && event != ClosedQueue && !event.TookFrame?
    requires !AcceptedAt(trace + [event], |trace|)
    requires event.CompletedFrame? ==> !event.ok
    ensures Explains(q, trace + [event])
  {
    var more := trace + [event];
    MoreClosed(trace, event);
    forall id: nat
      ensures IsStale(more, id) <==> IsStale(trace, id)
    {
      MoreStale(trace, event, id);
    }
    WaitsSame(q, trace, event);
    RendersSame(q, trace, event);
  }

  lemma {:induction false} WaitsSame(q: QueueState, trace: seq<Event>, event: Event)
    requires !event.TookFrame? && !AcceptedAt(trace + [event], |trace|)
    requires q.pending.None? ==> NoneWaits(trace)
    requires q.pending.Some? ==> exists i :: WaitsFrom(trace, i) && trace[i].frame == q.pending.value
    ensures q.pending.None? ==> NoneWaits(trace + [event])
    ensures q.pending.Some? ==> exists i :: WaitsFrom(trace + [event], i) && (trace + [event])[i].frame == q.pending.value
  {
    var more := trace + [event];
    forall i
      ensures WaitsFrom(more, i) <==> WaitsFrom(trace, i)
    {
      if i < |trace| {
        MoreWaits(trace, event, i);
      }
    }
    if q.pending.Some? {
      var i :| WaitsFrom(trace, i) && trace[i].frame == q.pending.value;
      assert WaitsFrom(more, i) && more[i] == trace[i];
    }
  }

  lemma {:induction false} RendersSame(q: QueueState, trace: seq<Event>, event: Event)
    requires !event.TookFrame? && (event.CompletedFrame? ==> !event.ok)
    requires q.active.None? ==> NoneRenders(trace)
    requires q.active.Some? ==> exists i :: OnlyRenders(trace, i) && trace[i].frame.frameId == q.active.value
    ensures q.active.None? ==> NoneRenders(trace + [event])
    ensures q.active.Some? ==> exists i :: OnlyRenders(trace + [event], i) && (trace + [event])[i].frame.frameId == q.active.value
  {
    var more := trace + [event];
    forall i
      ensures RendersFrom(more, i) <==> RendersFrom(trace, i)
    {
      if 0 <= i < |trace| {
        MoreRenders(trace, event, i);
      }
    }
    if q.active.Some? {
      var i :| OnlyRenders(trace, i) && trace[i].frame.frameId == q.active.value;
      assert OnlyRenders(more, i) && more[i] == trace[i];
    }
  }

  lemma {:induction false} SubmissionFollows(q: QueueState, trace: seq<Event>, frame: QueuedFrame)
    requires Explains(q, trace)
    ensures Told(trace, frame, SubmitAnswer(q, frame))
  {
    if !q.closed && !IsStale(trace, frame.frameId) && q.pending.Some? {
      var i :| WaitsFrom(trace, i) && trace[i].frame == q.pending.value;
      assert WaitsFrom(trace, i);
    }
  }

  lemma {:induction false} SubmissionExplains(q: QueueState, trace: seq<Event>, frame: QueuedFrame)
    requires Explains(q, trace)
    ensures Explains(AfterSubmit(q, frame), trace + [Submitted(frame, SubmitAnswer(q, frame))])
  {
    var event := Submitted(frame, SubmitAnswer(q, frame));
    if Refused(q, frame.frameId) {
      NothingMoves(q, trace, event);
    } else {
      AcceptanceExplains(q, trace, event);
    }
  }

  lemma {:induction false} AcceptanceExplains(q: QueueState, trace: seq<Event>, event: Event)
    requires Explains(q, trace) && event.Submitted? && event.answer == SubmitAnswer(q, event.frame)
    requires !Refused(q, event.frame.frameId)
    ensures Explains(AfterSubmit(q, event.frame), trace + [event])
  {
    var more, q' := trace + [event], AfterSubmit(q, event.frame);
    MoreAccepted(trace, event);
    MoreClosed(trace, event);
    forall id: nat
      ensures q'.last.Some? && id <= q'.last.value <==> IsStale(more, id)
    {
      MoreStale(trace, event, id);
      assert q.last.Some? && id <= q.last.value <==> IsStale(trace, id);
    }
    assert WaitsFrom(more, |trace|) && more[|trace|].frame == event.frame;
    RendersSame(q, trace, event);
  }

  lemma {:induction false} TakingExplains(q: QueueState, trace: seq<Event>)
    requires Explains(q, trace) && TakeAnswer(q).Took?
    ensures Explains(AfterTake(q), trace + [TookFrame(TakeAnswer(q).frame)])
  {
    var event := TookFrame(TakeAnswer(q).frame);
    var more := trace + [event];
    MoreAccepted(trace, event);
    MoreClosed(trace, event);
    forall id: nat
      ensures IsStale(more, id) <==> IsStale(trace, id)
    {
      MoreStale(trace, event, id);
    }
    forall i
      ensures !WaitsFrom(more, i)
    {
      if i < |trace| {
        MoreWaits(trace, event, i);
      }
    }
    forall i
      ensures RendersFrom(more, i) ==> i == |trace|
    {
      if 0 <= i < |trace| {
        MoreRenders(trace, event, i);
      }
    }
    assert more[|trace|] == event && OnlyRenders(more, |trace|);
  }

  lemma {:induction false} CompletionExplains(q: QueueState, trace: seq<Event>, id: nat)
    requires Explains(q, trace)
    ensures Explains(AfterComplete(q, id), trace + [CompletedFrame(id, q.active == Some(id))])
    ensures q.active == Some(id) <==> Renders(trace, id)
  {
    var event := CompletedFrame(id, q.active == Some(id));
    var more := trace + [event];
    if q.active == Some(id) {
      var at :| OnlyRenders(trace, at) && trace[at].frame.frameId == id;
      MoreClosed(trace, event);
      forall n: nat
        ensures IsStale(more, n) <==> IsStale(trace, n)
      {
        MoreStale(trace, event, n);
      }
      WaitsSame(q, trace, event);
      forall i
        ensures !RendersFrom(more, i)
      {
        if 0 <= i < |trace| {
          MoreRenders(trace, event, i);
        }
      }
    } else {
      NothingMoves(q, trace, event);
    }
  }

  lemma {:induction false} ClosingExplains(q: QueueState, trace: seq<Event>)
    requires Explains(q, trace)
    ensures Explains(AfterClose(q), trace + [ClosedQueue])
  {
    var more := trace + [ClosedQueue];
    MoreClosed(trace, ClosedQueue);
    forall id: nat
      ensures IsStale(more, id) <==> IsStale(trace, id)
    {
      MoreStale(trace, ClosedQueue, id);
    }
    WaitsSame(q, trace, ClosedQueue);
    RendersSame(q, trace, ClosedQueue);
  }

  // ---------------------------------------------------------------- over runs

  ghost predicate AllFollow(trace: seq<Event>) {
    forall k :: 0 <= k < |trace| ==> Follows(trace[..k], trace[k])
  }

  lemma {:induction false} OneMoreFollows(trace: seq<Event>, event: Event)
    requires AllFollow(trace) && Follows(trace, event)
    ensures AllFollow(trace + [event])
  {
    var more := trace + [event];
    forall k | 0 <= k < |more|
      ensures Follows(more[..k], more[k])
    {
      assert more[..k] == trace[..k];
      assert trace[..|trace|] == trace;
    }
  }

  lemma {:induction false} CheckFollows(s: System, trace: seq<Event>, a: Action)
    requires Explains(s.q, trace) && (a.CheckTake? || a.CheckIdle?)
    ensures Follows(trace, Observed(s, a)[0])
  {
    if s.q.pending.Some? {
      var i :| WaitsFrom(trace, i) && trace[i].frame == s.q.pending.value;
      assert !NoneWaits(trace);
    }
    if s.q.active.Some? {
      var i :| OnlyRenders(trace, i) && trace[i].frame.frameId == s.q.active.value;
      assert !NoneRenders(trace);
    }
  }

  lemma {:induction false} StepExplains(s: System, a: Action, trace: seq<Event>)
    requires Enabled(s, a) && Explains(s.q, trace) && AllFollow(trace)
    ensures Explains(Next(s, a).q, trace + Observed(s, a)) && AllFollow(trace + Observed(s, a))
  {
    match a
    case Submit(frame, _) =>
      SubmissionFollows(s.q, trace, frame);
      SubmissionExplains(s.q, trace, frame);
      OneMoreFollows(trace, Observed(s, a)[0]);
    case CheckTake =>
      CheckFollows(s, trace, a);
      OneMoreFollows(trace, Observed(s, a)[0]);
      if TakeAnswer(s.q).Took? {
        TakingExplains(s.q, trace);
      } else {
        NothingMoves(s.q, trace, Observed(s, a)[0]);
      }
    case CheckIdle(_) =>
      CheckFollows(s, trace, a);
      OneMoreFollows(trace, Observed(s, a)[0]);
      NothingMoves(s.q, trace, Observed(s, a)[0]);
    case Complete(id) =>
      CompletionExplains(s.q, trace, id);
      OneMoreFollows(trace, Observed(s, a)[0]);
    case Close =>
      ClosingExplains(s.q, trace);
      OneMoreFollows(trace, ClosedQueue);
    case _ => assert trace + [] == trace;
  }

  lemma {:induction false} RunExplains(s: System, acts: seq<Action>, trace: seq<Event>)
    requires ValidRun(s, acts) && Explains(s.q, trace) && AllFollow(trace)
    ensures Explains(Run(s, acts).q, trace + Trace(s, acts)) && AllFollow(trace + Trace(s, acts))
    decreases |acts|
  {
    if acts == [] {
      assert trace + [] == trace;
    } else {
      StepExplains(s, acts[0], trace);
      RunExplains(Next(s, acts[0]), acts[1..], trace + Observed(s, acts[0]));
      var seen, rest := Observed(s, acts[0]), Trace(Next(s, acts[0]), acts[1..]);
      assert (trace + seen) + rest == trace + (seen + rest);
    }
  }

  /**
   * Over every run from the empty queue, each answer is the one the earlier answers call for, and at its end the
   * queue's waiting frame is the last accepted one, whole, if nothing has been taken since.
   */
  lemma {:induction false} AnswersFollow(acts: seq<Action>)
    requires ValidRun(Start, acts)
    ensures AllFollow(Trace(Start, acts))
    ensures forall frame :: Run(Start, acts).q.pending == Some(frame) <==> Waits(Trace(Start, acts), frame)
  {
    RunExplains(Start, acts, []);
    var trace, q := Trace(Start, acts), Run(Start, acts).q;
    assert [] + trace == trace;
    forall frame
      ensures q.pending == Some(frame) <==> Waits(trace, frame)
    {
      if q.pending.Some? {
        var i :| WaitsFrom(trace, i) && trace[i].frame == q.pending.value;
        if Waits(trace, frame) {
          var j :| WaitsFrom(trace, j) && trace[j].frame == frame;
          LastWaits(trace, i, j);
        }
      }
    }
  }

  /** Every frame that is taken was accepted, with the inputs it is taken with, and nothing was accepted or taken in between. */
  lemma {:induction false} TakenIsLatestAccepted(acts: seq<Action>, k: nat) returns (i: nat)
    requires ValidRun(Start, acts) && k < |Trace(Start, acts)| && Trace(Start, acts)[k].TookFrame?
    ensures var trace := Trace(Start, acts);
            && i < k && AcceptedAt(trace, i) && trace[i].frame == trace[k].frame
            && forall j :: i < j < k ==> !AcceptedAt(trace, j) && !trace[j].TookFrame?
  {
    AnswersFollow(acts);
    var trace := Trace(Start, acts);
    assert Follows(trace[..k], trace[k]);
    var at :| WaitsFrom(trace[..k], at) && trace[..k][at].frame == trace[k].frame;
    forall j | at < j < k
      ensures !AcceptedAt(trace, j) && !trace[j].TookFrame?
    {
      assert !AcceptedAt(trace[..k], j) && trace[..k][j] == trace[j];
    }
    i := at;
  }
}

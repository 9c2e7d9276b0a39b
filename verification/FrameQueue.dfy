/**
 * The single-consumer, latest-wins frame handoff (`gears::FrameQueue`).
 *
 * `QueueState` is the state the mutex protects, and the functions on it say what
 * each critical section does. The class has the source's own fields and is proved
 * against those functions. How critical sections of different threads
 * interleave, and who is woken, is the subject of module FrameQueueProtocol.
 */
module FrameQueues {
  import opened Wrappers

  /** `sequence` is the one input field the queue itself looks at. */
  datatype FrameInputs = FrameInputs(sequence: int, draws: seq<nat>)

  datatype QueuedFrame = QueuedFrame(frameId: nat, retirementGeneration: nat, inputs: FrameInputs)

  datatype SubmitStatus = Accepted | ReplacedPending | RejectedStale | RejectedClosed

  datatype SubmitResult = SubmitResult(
    status: SubmitStatus,
    displacedFrameId: Option<nat>,
    displacedFrameSequence: Option<nat>)

  /** What one evaluation of the wait predicate of `WaitTake` leads to. */
  datatype TakeOutcome = StillWaiting | Drained | Took(frame: QueuedFrame)

  datatype QueueState = QueueState(
    pending: Option<QueuedFrame>,
    active: Option<nat>,
    last: Option<nat>,
    closed: bool)

  const EmptyQueue := QueueState(None, None, None, false)

  predicate Refused(q: QueueState, frameId: nat) {
    q.closed || (q.last.Some? && frameId <= q.last.value)
  }

  function AfterSubmit(q: QueueState, frame: QueuedFrame): QueueState {
    if Refused(q, frame.frameId) then q
    else q.(pending := Some(frame), last := Some(frame.frameId))
  }

  function SubmitAnswer(q: QueueState, frame: QueuedFrame): SubmitResult {
    if q.closed then SubmitResult(RejectedClosed, None, None)
    else if Refused(q, frame.frameId) then SubmitResult(RejectedStale, None, None)
    else if q.pending.None? then SubmitResult(Accepted, None, None)
    else
      var displaced := q.pending.value;
      SubmitResult(ReplacedPending, Some(displaced.frameId),
                   if displaced.inputs.sequence >= 0 then Some(displaced.inputs.sequence) else None)
  }

  /** The wait predicate of `WaitTake`. */
  predicate TakeReady(q: QueueState) {
    (q.active.None? && q.pending.Some?) || (q.closed && q.active.None?)
  }

  /** The wait predicate of `WaitIdle`. */
  predicate IdleReady(q: QueueState) {
    q.active.None? && q.pending.None?
  }

  function TakeAnswer(q: QueueState): TakeOutcome {
    if !TakeReady(q) then StillWaiting
    else if q.pending.None? then Drained
    else Took(q.pending.value)
  }

  function AfterTake(q: QueueState): QueueState {
    match TakeAnswer(q)
    case Took(frame) => q.(pending := None, active := Some(frame.frameId))
    case _ => q
  }

  function AfterComplete(q: QueueState, frameId: nat): QueueState {
    if q.active == Some(frameId) then q.(active := None) else q
  }

  function AfterClose(q: QueueState): QueueState {
    q.(closed := true)
  }

  class FrameQueue {
    var pending: Option<QueuedFrame>
    var activeFrameId: Option<nat>
    var lastSubmittedFrameId: Option<nat>
    var closed: bool

    ghost function State(): QueueState
      reads this
    {
      QueueState(pending, activeFrameId, lastSubmittedFrameId, closed)
    }

    constructor ()
      ensures State() == EmptyQueue
    {
      pending, activeFrameId, lastSubmittedFrameId, closed := None, None, None, false;
    }

    method Submit(frameId: nat, retirementGeneration: nat, inputs: FrameInputs)
      returns (result: SubmitResult)
      modifies this
      ensures result == SubmitAnswer(old(State()), QueuedFrame(frameId, retirementGeneration, inputs))
      ensures State() == AfterSubmit(old(State()), QueuedFrame(frameId, retirementGeneration, inputs))
    {
      if closed {
        return SubmitResult(RejectedClosed, None, None);
      }
      if lastSubmittedFrameId.Some? && frameId <= lastSubmittedFrameId.value {
        return SubmitResult(RejectedStale, None, None);
      }
      lastSubmittedFrameId := Some(frameId);
      var displacedFrameId: Option<nat> := None;
      var displacedFrameSequence: Option<nat> := None;
      if pending.Some? {
        displacedFrameId := Some(pending.value.frameId);
        if pending.value.inputs.sequence >= 0 {
          displacedFrameSequence := Some(pending.value.inputs.sequence);
        }
      }
      pending := Some(QueuedFrame(frameId, retirementGeneration, inputs));
      result := SubmitResult(if displacedFrameId.Some? then ReplacedPending else Accepted,
                             displacedFrameId, displacedFrameSequence);
    }

    /** One pass of `WaitTake` through its critical section: either it goes back to sleep or it returns. */
    method PollTake() returns (outcome: TakeOutcome)
      modifies this
      ensures outcome == TakeAnswer(old(State()))
      ensures State() == AfterTake(old(State()))
    {
      if !((activeFrameId.None? && pending.Some?) || (closed && activeFrameId.None?)) {
        return StillWaiting;
      }
      if pending.None? {
        return Drained;
      }
      var frame := pending.value;
      pending := None;
      activeFrameId := Some(frame.frameId);
      outcome := Took(frame);
    }

    method Complete(frameId: nat) returns (ok: bool)
      modifies this
      ensures ok <==> old(activeFrameId) == Some(frameId)
      ensures State() == AfterComplete(old(State()), frameId)
    {
      if activeFrameId.None? || activeFrameId.value != frameId {
        return false;
      }
      activeFrameId := None;
      ok := true;
    }

    method Close()
      modifies this
      ensures State() == AfterClose(old(State()))
    {
      closed := true;
    }

    method PollIdle() returns (idle: bool)
      ensures idle <==> IdleReady(State())
    {
      idle := activeFrameId.None? && pending.None?;
    }
  }
}

/**
 * `gears::FrameContract`: the identity contract between the renderer and the presenter.
 * Zero means "no frame".
 */
module FrameContracts {

  datatype FrameTransition =
    | Advanced | Repeated
    | RejectedInvalid | RejectedDuplicate | RejectedRegression | RejectedUnpublished | RejectedStale

  datatype Contract = Contract(published: nat, presented: nat)

  datatype Call = Publish(frame: nat) | Present(frame: nat)

  function Answer(c: Contract, call: Call): FrameTransition {
    match call
    case Publish(f) =>
      if f == 0 then RejectedInvalid
      else if f == c.published then RejectedDuplicate
      else if f < c.published then RejectedRegression
      else Advanced
    case Present(f) =>
      if f == 0 then RejectedInvalid
      else if c.published == 0 || f > c.published then RejectedUnpublished
      else if f < c.published then RejectedStale
      else if f == c.presented then Repeated
      else Advanced
  }

  function After(c: Contract, call: Call): Contract {
    if Answer(c, call) != Advanced then c
    else match call
      case Publish(f) => c.(published := f)
      case Present(f) => c.(presented := f)
  }

  class FrameContract {
    var published: nat
    var presented: nat

    constructor ()
      ensures published == presented == 0
    {
      published, presented := 0, 0;
    }

    method Publish(frame: nat) returns (t: FrameTransition)
      modifies this
      ensures t == Answer(old(Contract(published, presented)), Call.Publish(frame))
      ensures Contract(published, presented) == After(old(Contract(published, presented)), Call.Publish(frame))
    {
      if frame == 0 {
        return RejectedInvalid;
      }
      if frame == published {
        return RejectedDuplicate;
      }
      if frame < published {
        return RejectedRegression;
      }
      published := frame;
      return Advanced;
    }

    method Present(frame: nat) returns (t: FrameTransition)
      modifies this
      ensures t == Answer(old(Contract(published, presented)), Call.Present(frame))
      ensures Contract(published, presented) == After(old(Contract(published, presented)), Call.Present(frame))
    {
      if frame == 0 {
        return RejectedInvalid;
      }
      if published == 0 || frame > published {
        return RejectedUnpublished;
      }
      if frame < published {
        return RejectedStale;
      }
      if frame == presented {
        return Repeated;
      }
      presented := frame;
      return Advanced;
    }
  }

  function AfterAll(c: Contract, calls: seq<Call>): Contract
    decreases |calls|
  {
    if calls == [] then c else AfterAll(After(c, calls[0]), calls[1..])
  }

  function Answers(c: Contract, calls: seq<Call>): seq<FrameTransition>
    decreases |calls|
  {
    if calls == [] then [] else [Answer(c, calls[0])] + Answers(After(c, calls[0]), calls[1..])
  }

  /** The frames the display showed, in order: every accepted presentation, repeats included. */
  function Shown(c: Contract, calls: seq<Call>): seq<nat>
    decreases |calls|
  {
    if calls == [] then []
    else
      (if calls[0].Present? && Answer(c, calls[0]) in {Advanced, Repeated} then [calls[0].frame] else [])
      + Shown(After(c, calls[0]), calls[1..])
  }

  function Publications(calls: seq<Call>): set<nat> {
    set i | 0 <= i < |calls| && calls[i].Publish? :: calls[i].frame
  }

  /**
   * Over any interleaving of publishing and presenting calls, what is shown never goes back
   * and never shows a frame nobody published.
   */
  lemma {:induction false} ShownIsMonotoneAndPublished(c: Contract, calls: seq<Call>)
    requires c.presented <= c.published
    ensures forall i :: 0 <= i < |Shown(c, calls)| ==>
              Shown(c, calls)[i] >= c.published
              && (Shown(c, calls)[i] == c.published || Shown(c, calls)[i] in Publications(calls))
    ensures forall i, j :: 0 <= i < j < |Shown(c, calls)| ==> Shown(c, calls)[i] <= Shown(c, calls)[j]
    ensures AfterAll(c, calls).presented <= AfterAll(c, calls).published
    decreases |calls|
  {
    if calls != [] {
      var rest := calls[1..];
      ShownIsMonotoneAndPublished(After(c, calls[0]), rest);
      assert forall i :: 0 <= i < |rest| ==> rest[i] == calls[i + 1];
      assert Publications(rest) <= Publications(calls);
      if calls[0].Publish? {
        assert calls[0].frame in Publications(calls);
      }
    }
  }

  predicate StrictlyIncreasing(ids: seq<nat>) {
    forall i, j :: 0 <= i < j < |ids| ==> ids[i] < ids[j]
  }

  function PublishCalls(ids: seq<nat>): seq<Call> {
    seq(|ids|, i requires 0 <= i < |ids| => Publish(ids[i]))
  }

  lemma {:induction false} IncreasingCons(a: nat, ids: seq<nat>)
    requires ids != []
    ensures StrictlyIncreasing([a] + ids) <==> a < ids[0] && StrictlyIncreasing(ids)
  {
    var whole := [a] + ids;
    assert whole[1..] == ids;
    if StrictlyIncreasing(whole) {
      assert whole[0] < whole[1];
      forall i, j | 0 <= i < j < |ids|
        ensures ids[i] < ids[j]
      {
        assert whole[i + 1] < whole[j + 1];
      }
    }
    if a < ids[0] && StrictlyIncreasing(ids) {
      forall j | 0 <= j < |ids|
        ensures a < ids[j]
      {
        assert j > 0 ==> ids[0] < ids[j];
      }
    }
  }

  ghost predicate AllAdvanced(answers: seq<FrameTransition>) {
    forall t :: t in answers ==> t == Advanced
  }

  lemma {:induction false} AllAdvancedCons(first: FrameTransition, rest: seq<FrameTransition>)
    ensures AllAdvanced([first] + rest) <==> first == Advanced && AllAdvanced(rest)
  {
    var all := [first] + rest;
    assert first in all;
    forall t
      ensures t in all <==> t == first || t in rest
    {
      if t in rest {
        var i :| 0 <= i < |rest| && rest[i] == t;
        assert all[i + 1] == t;
      }
    }
  }

  lemma {:induction false} PublishCallsCons(ids: seq<nat>)
    requires ids != []
    ensures PublishCalls(ids)[0] == Publish(ids[0]) && PublishCalls(ids)[1..] == PublishCalls(ids[1..])
  {}

  /** Publishing succeeds throughout exactly when the identities strictly increase past the published one. */
  lemma {:induction false} PublishingAdvancesIffIncreasing(c: Contract, ids: seq<nat>)
    ensures AllAdvanced(Answers(c, PublishCalls(ids))) <==> StrictlyIncreasing([c.published] + ids)
    decreases |ids|
  {
    if ids == [] {
      assert PublishCalls(ids) == [] && Answers(c, []) == [];
      assert StrictlyIncreasing([c.published] + ids);
    } else {
      PublishingStep(c, ids);
      if c.published < ids[0] {
        PublishingAdvancesIffIncreasing(After(c, Publish(ids[0])), ids[1..]);
      }
    }
  }

  /** The first call advances when its frame is newer, and the rest go on from that frame. */
  lemma {:induction false} PublishingStep(c: Contract, ids: seq<nat>)
    requires ids != []
    ensures AllAdvanced(Answers(c, PublishCalls(ids)))
        <==> c.published < ids[0] && AllAdvanced(Answers(After(c, Publish(ids[0])), PublishCalls(ids[1..])))
    ensures StrictlyIncreasing([c.published] + ids)
        <==> c.published < ids[0] && StrictlyIncreasing([ids[0]] + ids[1..])
    ensures c.published < ids[0] ==> After(c, Publish(ids[0])).published == ids[0]
  {
    PublishCallsCons(ids);
    AllAdvancedCons(Answer(c, Publish(ids[0])), Answers(After(c, Publish(ids[0])), PublishCalls(ids[1..])));
    IncreasingCons(c.published, ids);
    assert [ids[0]] + ids[1..] == ids;
  }

  // ---------------------------------------------------------------- what the answers mean

  /** The greatest identity published so far, or zero. */
  ghost predicate IsNewest(calls: seq<Call>, n: nat) {
    (n == 0 || n in Publications(calls)) && forall m :: m in Publications(calls) ==> m <= n
  }

  /** The frame last shown, or zero. */
  function Showing(calls: seq<Call>): nat {
    var shown := Shown(Contract(0, 0), calls);
    if shown == [] then 0 else shown[|shown| - 1]
  }

  lemma {:induction false} OneMoreCall(c: Contract, calls: seq<Call>, call: Call)
    ensures AfterAll(c, calls + [call]) == After(AfterAll(c, calls), call)
    ensures Shown(c, calls + [call]) == Shown(c, calls) + Shown(AfterAll(c, calls), [call])
    decreases |calls|
  {
    if calls == [] {
      assert calls + [call] == [call] && [call][1..] == [];
      assert AfterAll(After(c, call), []) == After(c, call);
    } else {
      assert (calls + [call])[1..] == calls[1..] + [call];
      OneMoreCall(After(c, calls[0]), calls[1..], call);
    }
  }

  lemma {:induction false} OneMorePublished(calls: seq<Call>, call: Call)
    ensures Publications(calls + [call]) == Publications(calls) + if call.Publish? then {call.frame} else {}
  {
    var more := calls + [call];
    assert more[|calls|] == call && forall i :: 0 <= i < |calls| ==> more[i] == calls[i];
    forall f
      ensures f in Publications(more) <==> f in Publications(calls) || (call.Publish? && f == call.frame)
    {
      if f in Publications(calls) {
        var i :| 0 <= i < |calls| && calls[i].Publish? && calls[i].frame == f;
        assert more[i].Publish? && more[i].frame == f;
      }
      if call.Publish? && f == call.frame {
        assert more[|calls|].Publish? && more[|calls|].frame == f;
      }
    }
  }

  /** The contract's two fields are what its history says. */
  lemma {:induction false} FieldsAreHistory(calls: seq<Call>)
    ensures IsNewest(calls, AfterAll(Contract(0, 0), calls).published)
    ensures AfterAll(Contract(0, 0), calls).presented == Showing(calls)
    decreases |calls|
  {
    if calls != [] {
      var n := |calls| - 1;
      assert calls == calls[..n] + [calls[n]];
      FieldsAreHistory(calls[..n]);
      OneMoreCall(Contract(0, 0), calls[..n], calls[n]);
      OneMorePublished(calls[..n], calls[n]);
      LastShown(AfterAll(Contract(0, 0), calls[..n]), calls[n]);
    }
  }

  lemma {:induction false} LastShown(c: Contract, call: Call)
    ensures Shown(c, [call]) == if call.Present? && Answer(c, call) in {Advanced, Repeated} then [call.frame] else []
    ensures call.Present? && Answer(c, call) in {Advanced, Repeated} ==> After(c, call).presented == call.frame
    ensures !(call.Present? && Answer(c, call) in {Advanced, Repeated}) ==> After(c, call).presented == c.presented
  {
    assert Shown(After(c, call), [call][1..]) == [];
  }

  /**
   * Each answer in terms of what was called before: a publication is measured against the greatest identity
   * published, and only that very frame can be shown, as a repetition if it is showing already.
   */
  lemma {:induction false} AnswersMeanHistory(before: seq<Call>, call: Call, newest: nat)
    requires IsNewest(before, newest)
    ensures var answer := Answer(AfterAll(Contract(0, 0), before), call);
            && (answer == RejectedInvalid <==> call.frame == 0)
            && (call.Publish? ==>
                  && (answer == Advanced <==> call.frame > newest)
                  && (answer == RejectedDuplicate <==> call.frame == newest != 0)
                  && (answer == RejectedRegression <==> 0 != call.frame < newest))
            && (call.Present? ==>
                  && (answer == Advanced <==> call.frame == newest != 0 && Showing(before) != newest)
                  && (answer == Repeated <==> call.frame == newest != 0 && Showing(before) == newest)
                  && (answer == RejectedUnpublished <==> call.frame > newest)
                  && (answer == RejectedStale <==> 0 != call.frame < newest))
  {
    FieldsAreHistory(before);
  }
}

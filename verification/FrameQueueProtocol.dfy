/**
 * Every interleaving of the threads that share one `FrameQueue`.
 *
 * A thread inside a waiting call is `Runnable` (it will take the mutex and test its
 * predicate) or `Asleep` on the condition variable. One thread calls `WaitTake`; any
 * number of threads call `WaitIdle`, and any thread submits, completes or closes. An
 * action is one critical section, with the choice `notify_one` makes recorded in it;
 * a spurious wakeup is an action of its own.
 */
module FrameQueueProtocol {
  import opened Wrappers
  import opened FrameQueues
  import FrameContracts

  datatype Place = Outside | Runnable | Asleep

  datatype Waiter = Consumer | IdleCaller(thread: nat)

  /** What has happened so far, in order. A displacement records the submission that caused it. */
  datatype Displacement = Displacement(frameId: nat, successor: nat)

  datatype History = History(
    accepted: seq<nat>,
    displaced: seq<Displacement>,
    taken: seq<nat>,
    completed: seq<nat>)

  datatype System = System(
    q: QueueState,
    consumer: Place,
    idleRunnable: set<nat>,
    idleAsleep: set<nat>,
    log: History)

  datatype Action =
    | Submit(frame: QueuedFrame, woken: Option<Waiter>)
    | CallTake
    | CheckTake
    | CallIdle(thread: nat)
    | CheckIdle(thread: nat)
    | Complete(frameId: nat)
    | Close
    | SpuriousWake(waiter: Waiter)

  const Start := System(EmptyQueue, Outside, {}, {}, History([], [], [], []))

  predicate IsAsleep(s: System, w: Waiter) {
    match w
    case Consumer => s.consumer == Asleep
    case IdleCaller(t) => t in s.idleAsleep
  }

  predicate NobodyAsleep(s: System) {
    s.consumer != Asleep && s.idleAsleep == {}
  }

  predicate Enabled(s: System, a: Action) {
    match a
    case Submit(frame, woken) =>
      // `notify_one` runs only when the submission is accepted, and wakes some sleeper if there is one.
      if Refused(s.q, frame.frameId) then woken.None?
      else if woken.None? then NobodyAsleep(s) else IsAsleep(s, woken.value)
    case CallTake => s.consumer == Outside
    case CheckTake => s.consumer == Runnable
    case CallIdle(t) => t !in s.idleRunnable && t !in s.idleAsleep
    case CheckIdle(t) => t in s.idleRunnable
    case Complete(_) => true
    case Close => true
    case SpuriousWake(w) => IsAsleep(s, w)
  }

  function Wake(s: System, w: Waiter): System {
    match w
    case Consumer => s.(consumer := Runnable)
    case IdleCaller(t) => s.(idleAsleep := s.idleAsleep - {t}, idleRunnable := s.idleRunnable + {t})
  }

  function WakeAll(s: System): System {
    s.(consumer := if s.consumer == Asleep then Runnable else s.consumer,
       idleAsleep := {},
       idleRunnable := s.idleRunnable + s.idleAsleep)
  }

  function LogSubmit(log: History, id: nat, answer: SubmitResult): History {
    log.(accepted := log.accepted + [id],
         displaced := if answer.displacedFrameId.None? then log.displaced
                      else log.displaced + [Displacement(answer.displacedFrameId.value, id)])
  }

  function Next(s: System, a: Action): System
    requires Enabled(s, a)
  {
    match a
    case Submit(frame, woken) =>
      if Refused(s.q, frame.frameId) then s
      else
        var s' := s.(q := AfterSubmit(s.q, frame),
                     log := LogSubmit(s.log, frame.frameId, SubmitAnswer(s.q, frame)));
        if woken.None? then s' else Wake(s', woken.value)
    case CallTake => s.(consumer := Runnable)
    case CheckTake =>
      match TakeAnswer(s.q) {
        case StillWaiting => s.(consumer := Asleep)
        case Drained => s.(consumer := Outside)
        case Took(frame) =>
          s.(q := AfterTake(s.q), consumer := Outside, log := s.log.(taken := s.log.taken + [frame.frameId]))
      }
    case CallIdle(t) => s.(idleRunnable := s.idleRunnable + {t})
    case CheckIdle(t) =>
      if IdleReady(s.q) then s.(idleRunnable := s.idleRunnable - {t})
      else s.(idleRunnable := s.idleRunnable - {t}, idleAsleep := s.idleAsleep + {t})
    case Complete(id) =>
      if s.q.active != Some(id) then s
      else WakeAll(s.(q := AfterComplete(s.q, id), log := s.log.(completed := s.log.completed + [id])))
    case Close => WakeAll(s.(q := AfterClose(s.q)))
    case SpuriousWake(w) => Wake(s, w)
  }

  predicate ValidRun(s: System, acts: seq<Action>)
    decreases |acts|
  {
    acts == [] || (Enabled(s, acts[0]) && ValidRun(Next(s, acts[0]), acts[1..]))
  }

  function Run(s: System, acts: seq<Action>): System
    requires ValidRun(s, acts)
    decreases |acts|
  {
    if acts == [] then s else Run(Next(s, acts[0]), acts[1..])
  }

  ghost predicate Reachable(s: System) {
    exists acts :: ValidRun(Start, acts) && Run(Start, acts) == s
  }

  // ---------------------------------------------------------------- no lost wakeup

  /** Nobody sleeps through a predicate that is true. */
  predicate SleepersAreRight(s: System) {
    && (s.consumer == Asleep ==> !TakeReady(s.q))
    && (s.idleAsleep != {} ==> !IdleReady(s.q))
  }

  lemma {:induction false} StepKeepsSleepersRight(s: System, a: Action)
    requires SleepersAreRight(s) && Enabled(s, a)
    ensures SleepersAreRight(Next(s, a))
  {}

  // ---------------------------------------------------------------- conservation

  function PendingIds(q: QueueState): seq<nat> {
    if q.pending.None? then [] else [q.pending.value.frameId]
  }

  function ActiveIds(q: QueueState): seq<nat> {
    if q.active.None? then [] else [q.active.value]
  }

  function DisplacedIds(ds: seq<Displacement>): seq<nat> {
    seq(|ds|, i requires 0 <= i < |ds| => ds[i].frameId)
  }

  /** `d` was displaced by the very next accepted submission. */
  ghost predicate Adjacent(accepted: seq<nat>, d: Displacement) {
    exists i :: 0 <= i < |accepted| - 1 && accepted[i] == d.frameId && accepted[i + 1] == d.successor
  }

  /** Acceptance and taking both follow the order of the identities. */
  ghost predicate Ordered(q: QueueState, log: History) {
    && FrameContracts.StrictlyIncreasing(log.accepted)
    && FrameContracts.StrictlyIncreasing(log.taken + PendingIds(q))
    && (q.last == if log.accepted == [] then None else Some(log.accepted[|log.accepted| - 1]))
    && (forall id :: id in log.taken ==> q.last.Some? && id <= q.last.value)
    && (q.pending.Some? ==> q.last == Some(q.pending.value.frameId))
    && log.taken == log.completed + ActiveIds(q)
  }

  /** Nothing accepted is lost and nothing appears from nowhere. */
  ghost predicate Accounted(q: QueueState, log: History) {
    multiset(log.accepted)
    == multiset(DisplacedIds(log.displaced)) + multiset(log.taken) + multiset(PendingIds(q))
  }

  ghost predicate DisplacedByNext(log: History) {
    forall d :: d in log.displaced ==> Adjacent(log.accepted, d)
  }

  ghost predicate Conserved(s: System) {
    Ordered(s.q, s.log) && Accounted(s.q, s.log) && DisplacedByNext(s.log)
  }

  lemma {:induction false} SubmitKeepsOrder(q: QueueState, log: History, frame: QueuedFrame)
    requires Ordered(q, log) && !Refused(q, frame.frameId)
    ensures Ordered(AfterSubmit(q, frame), LogSubmit(log, frame.frameId, SubmitAnswer(q, frame)))
  {
    var q' := AfterSubmit(q, frame);
    var ids := log.taken + PendingIds(q');
    forall i, j | 0 <= i < j < |ids|
      ensures ids[i] < ids[j]
    {
      assert ids[i] == log.taken[i] && log.taken[i] in log.taken;
      if j < |log.taken| {
        assert (log.taken + PendingIds(q))[i] < (log.taken + PendingIds(q))[j];
      }
    }
  }

  lemma {:induction false} SubmitKeepsAccount(q: QueueState, log: History, frame: QueuedFrame)
    requires Accounted(q, log) && !Refused(q, frame.frameId)
    ensures Accounted(AfterSubmit(q, frame), LogSubmit(log, frame.frameId, SubmitAnswer(q, frame)))
  {
    var log' := LogSubmit(log, frame.frameId, SubmitAnswer(q, frame));
    assert DisplacedIds(log'.displaced) == DisplacedIds(log.displaced) + PendingIds(q);
  }

  lemma {:induction false} SubmitKeepsAdjacency(q: QueueState, log: History, frame: QueuedFrame)
    requires Ordered(q, log) && DisplacedByNext(log) && !Refused(q, frame.frameId)
    ensures DisplacedByNext(LogSubmit(log, frame.frameId, SubmitAnswer(q, frame)))
  {
    var id := frame.frameId;
    var log' := LogSubmit(log, id, SubmitAnswer(q, frame));
    forall d | d in log'.displaced
      ensures Adjacent(log'.accepted, d)
    {
      var n := |log.accepted|;
      if d in log.displaced {
        var i :| 0 <= i < n - 1 && log.accepted[i] == d.frameId && log.accepted[i + 1] == d.successor;
        assert log'.accepted[i] == d.frameId && log'.accepted[i + 1] == d.successor;
      } else {
        assert log'.accepted[n - 1] == d.frameId && log'.accepted[n] == d.successor;
      }
    }
  }

  lemma {:induction false} TakeConserves(s: System)
    requires Conserved(s) && Enabled(s, CheckTake)
    ensures Conserved(Next(s, CheckTake))
  {
    if TakeAnswer(s.q).Took? {
      var s' := Next(s, CheckTake);
      assert s'.log.taken + PendingIds(s'.q) == s.log.taken + PendingIds(s.q) == s'.log.taken;
      assert s'.log.taken == s.log.completed + ActiveIds(s'.q);
    }
  }

  lemma {:induction false} CompleteConserves(s: System, id: nat)
    requires Conserved(s)
    ensures Conserved(Next(s, Complete(id)))
  {
    if s.q.active == Some(id) {
      var s' := Next(s, Complete(id));
      assert s'.log.taken == s'.log.completed + ActiveIds(s'.q);
      assert s'.log.taken + PendingIds(s'.q) == s.log.taken + PendingIds(s.q);
    }
  }

  /** Closing, calling and waking move no frame. */
  lemma {:induction false} NoFrameMoved(s: System, s': System)
    requires Conserved(s) && s'.log == s.log
    requires s'.q.pending == s.q.pending && s'.q.active == s.q.active && s'.q.last == s.q.last
    ensures Conserved(s')
  {}

  lemma {:induction false} StepConserves(s: System, a: Action)
    requires Conserved(s) && Enabled(s, a)
    ensures Conserved(Next(s, a))
  {
    match a
    case Submit(frame, woken) =>
      if !Refused(s.q, frame.frameId) {
        var log' := LogSubmit(s.log, frame.frameId, SubmitAnswer(s.q, frame));
        SubmitKeepsOrder(s.q, s.log, frame);
        SubmitKeepsAccount(s.q, s.log, frame);
        SubmitKeepsAdjacency(s.q, s.log, frame);
        NoFrameMoved(s.(q := AfterSubmit(s.q, frame), log := log'), Next(s, a));
      }
    case CheckTake => TakeConserves(s);
    case Complete(id) => CompleteConserves(s, id);
    case CallTake => NoFrameMoved(s, Next(s, a));
    case CallIdle(_) => NoFrameMoved(s, Next(s, a));
    case CheckIdle(_) => NoFrameMoved(s, Next(s, a));
    case Close => NoFrameMoved(s, Next(s, a));
    case SpuriousWake(_) => NoFrameMoved(s, Next(s, a));
  }

  lemma {:induction false} RunKeepsInvariants(s: System, acts: seq<Action>)
    requires ValidRun(s, acts) && SleepersAreRight(s) && Conserved(s)
    ensures SleepersAreRight(Run(s, acts)) && Conserved(Run(s, acts))
    decreases |acts|
  {
    if acts != [] {
      StepKeepsSleepersRight(s, acts[0]);
      StepConserves(s, acts[0]);
      RunKeepsInvariants(Next(s, acts[0]), acts[1..]);
    }
  }

  lemma {:induction false} ReachableInvariants(s: System)
    requires Reachable(s)
    ensures SleepersAreRight(s) && Conserved(s)
  {
    var acts :| ValidRun(Start, acts) && Run(Start, acts) == s;
    RunKeepsInvariants(Start, acts);
  }

  // ---------------------------------------------------------------- main results

  /**
   * No lost wakeup, in every interleaving. A consumer asleep in `WaitTake` has nothing to take,
   * a caller asleep in `WaitIdle` still has a frame to wait for, and a submission that gives a
   * sleeping consumer something to take wakes that consumer and nobody else.
   */
  lemma {:induction false} NoLostWakeup(s: System)
    requires Reachable(s)
    ensures s.consumer == Asleep ==> !TakeReady(s.q)
    ensures s.idleAsleep != {} ==> s.q.active.Some? || s.q.pending.Some?
    ensures forall frame, woken ::
              Enabled(s, Submit(frame, woken)) && s.consumer == Asleep && TakeReady(AfterSubmit(s.q, frame))
              ==> woken == Some(Consumer)
  {
    ReachableInvariants(s);
  }

  /**
   * Once there is something for the consumer, only the consumer can take it away: until its own
   * next check it stays awake or is outside the queue, and that check returns instead of sleeping.
   */
  lemma {:induction false} ReadyConsumerReturns(s: System, acts: seq<Action>)
    requires Reachable(s) && TakeReady(s.q) && ValidRun(s, acts)
    requires forall i :: 0 <= i < |acts| ==> acts[i] != CheckTake
    ensures TakeReady(Run(s, acts).q) && Run(s, acts).consumer != Asleep
    ensures Run(s, acts).consumer == Runnable ==>
              Enabled(Run(s, acts), CheckTake) && Next(Run(s, acts), CheckTake).consumer == Outside
    decreases |acts|
  {
    ReachableInvariants(s);
    if acts != [] {
      var s' := Next(s, acts[0]);
      ReachableStep(s, acts[0]);
      assert acts[0] != CheckTake;
      forall i | 0 <= i < |acts[1..]|
        ensures acts[1..][i] != CheckTake
      {
        assert acts[1..][i] == acts[i + 1];
      }
      ReadyConsumerReturns(s', acts[1..]);
    }
  }

  lemma {:induction false} RunSnoc(s: System, acts: seq<Action>, a: Action)
    requires ValidRun(s, acts) && Enabled(Run(s, acts), a)
    ensures ValidRun(s, acts + [a]) && Run(s, acts + [a]) == Next(Run(s, acts), a)
    decreases |acts|
  {
    if acts == [] {
      assert acts + [a] == [a];
    } else {
      assert (acts + [a])[1..] == acts[1..] + [a];
      RunSnoc(Next(s, acts[0]), acts[1..], a);
    }
  }

  lemma {:induction false} ReachableStep(s: System, a: Action)
    requires Reachable(s) && Enabled(s, a)
    ensures Reachable(Next(s, a))
  {
    var acts :| ValidRun(Start, acts) && Run(Start, acts) == s;
    RunSnoc(Start, acts, a);
  }

  lemma {:induction false} IncreasingHasNoDuplicates(ids: seq<nat>, id: nat)
    requires FrameContracts.StrictlyIncreasing(ids)
    ensures multiset(ids)[id] <= 1
    ensures multiset(ids)[id] == 1 <==> id in ids
  {
    if ids != [] {
      var n := |ids| - 1;
      assert ids == ids[..n] + [ids[n]];
      IncreasingHasNoDuplicates(ids[..n], id);
    }
  }

  /**
   * Every accepted frame is in exactly one place: waiting, being rendered, completed, or displaced,
   * and a displacement is reported once, by the next accepted submission. Frames are
   * taken in strictly increasing order.
   */
  lemma {:induction false} FramesAreConserved(s: System, id: nat)
    requires Reachable(s)
    ensures multiset(PendingIds(s.q))[id] + multiset(ActiveIds(s.q))[id] + multiset(s.log.completed)[id]
            + multiset(DisplacedIds(s.log.displaced))[id]
            == if id in s.log.accepted then 1 else 0
    ensures forall d :: d in s.log.displaced ==> Adjacent(s.log.accepted, d)
    ensures FrameContracts.StrictlyIncreasing(s.log.accepted)
    ensures FrameContracts.StrictlyIncreasing(s.log.taken)
  {
    ReachableInvariants(s);
    IncreasingHasNoDuplicates(s.log.accepted, id);
    var ids := s.log.taken + PendingIds(s.q);
    forall i, j | 0 <= i < j < |s.log.taken|
      ensures s.log.taken[i] < s.log.taken[j]
    {
      assert ids[i] < ids[j];
    }
  }

  lemma {:induction false} LastIsNotDisplaced(log: History)
    requires FrameContracts.StrictlyIncreasing(log.accepted) && DisplacedByNext(log) && log.accepted != []
    ensures log.accepted[|log.accepted| - 1] !in DisplacedIds(log.displaced)
  {
    forall i | 0 <= i < |log.displaced|
      ensures log.displaced[i].frameId != log.accepted[|log.accepted| - 1]
    {
      assert log.displaced[i] in log.displaced;
      assert Adjacent(log.accepted, log.displaced[i]);
    }
  }

  /** When `WaitTake` returns nothing the queue is closed and the last accepted frame has been completed. */
  lemma {:induction false} DrainedMeansFinished(s: System)
    requires Reachable(s) && TakeAnswer(s.q) == Drained
    ensures s.q.closed
    ensures s.log.accepted != [] ==>
              s.log.completed != []
              && s.log.completed[|s.log.completed| - 1] == s.log.accepted[|s.log.accepted| - 1]
  {
    ReachableInvariants(s);
    var log := s.log;
    if log.accepted != [] {
      var last := log.accepted[|log.accepted| - 1];
      assert last in multiset(log.accepted);
      if last in multiset(DisplacedIds(log.displaced)) {
        LastIsNotDisplaced(log);
      }
      assert log.taken + PendingIds(s.q) == log.taken == log.completed;
      assert last in log.taken;
      assert log.taken[|log.taken| - 1] in log.taken;
    }
  }

  /** A frame the consumer took can be completed exactly once, and only by its own identity. */
  lemma {:induction false} CompletionIsExact(s: System, id: nat)
    requires Reachable(s)
    ensures s.q.active == Some(id) ==> id in s.log.taken && id !in s.log.completed
    ensures id in s.log.completed ==> Next(s, Complete(id)) == s
  {
    ReachableInvariants(s);
    FramesAreConserved(s, id);
    if s.q.active == Some(id) {
      assert s.log.taken[|s.log.completed|] == id;
    }
    if id in s.log.completed {
      assert multiset(s.log.completed)[id] >= 1;
    }
  }

  /** Publishing the taken frames in order, to a fresh contract, is never refused once zero is left out. */
  lemma {:induction false} TakenFramesPublish(s: System)
    requires Reachable(s)
    ensures (s.log.taken != [] ==> s.log.taken[0] != 0)
            <==> FrameContracts.AllAdvanced(
                   FrameContracts.Answers(FrameContracts.Contract(0, 0), FrameContracts.PublishCalls(s.log.taken)))
  {
    FramesAreConserved(s, 0);
    FrameContracts.PublishingAdvancesIffIncreasing(FrameContracts.Contract(0, 0), s.log.taken);
    var whole := [0] + s.log.taken;
    if s.log.taken != [] {
      assert whole[0] < whole[1] <==> s.log.taken[0] != 0;
    }
  }
}

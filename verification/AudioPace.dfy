/**
 * Pacing the audio pump: when the next callback is due, and how many missed slots are given up.
 */
module AudioPace {

  datatype PaceDecision = PaceDecision(nextSlotNanos: int, droppedSlots: int)

  /** Division that truncates toward zero. */
  function Truncated(a: int, b: int): int
    requires b > 0
  {
    if a >= 0 then a / b else -(-a / b)
  }

  function PaceAudioPump(now: int, due: int, period: int, maxBehind: int): PaceDecision {
    var next := due + period;
    if period <= 0 then PaceDecision(now, 0)
    else
      var behind := now - next;
      if behind <= maxBehind * period then PaceDecision(next, 0)
      else
        var dropped := Truncated(behind, period);
        PaceDecision(next + dropped * period, dropped)
  }

  // ---------------------------------------------------------------- one decision

  lemma {:induction false} TruncatedLeavesLess(a: int, b: int)
    requires b > 0
    ensures 0 <= a ==> 0 <= Truncated(a, b) && 0 <= a - Truncated(a, b) * b < b
    ensures a < 0 ==> Truncated(a, b) <= 0 && -b < a - Truncated(a, b) * b <= 0
  {
    if a >= 0 {
      DivisionLeavesLess(a, b);
    } else {
      DivisionLeavesLess(-a, b);
      Negated(-a / b, b);
    }
  }

  lemma {:induction false} DivisionLeavesLess(n: nat, d: int)
    requires d > 0
    ensures 0 <= n / d && 0 <= n - n / d * d < d
  {
    assert n == n / d * d + n % d;
  }

  lemma {:induction false} Negated(q: int, d: int)
    ensures (-q) * d == -(q * d)
  {}

  /**
   * A pump that has fallen too far behind is put on the last slot at or before now, so its next
   * callback may already be late, but by less than a period.
   */
  lemma {:induction false} RebaseIsLastSlotNotAfterNow(now: int, due: int, period: int, maxBehind: int)
    requires period > 0 && maxBehind >= 0 && now - (due + period) > maxBehind * period
    ensures var d := PaceAudioPump(now, due, period, maxBehind);
            d.nextSlotNanos <= now < d.nextSlotNanos + period && d.droppedSlots >= 0
  {
    Scaled(0, maxBehind, period);
    TruncatedLeavesLess(now - (due + period), period);
  }

  /**
   * The next callback is not in the past exactly when the pump is not behind, or is re-based from
   * a whole number of periods behind.
   */
  lemma {:induction false} NotInThePastIff(now: int, due: int, period: int, maxBehind: int)
    requires period > 0 && maxBehind >= 0
    ensures var behind := now - (due + period);
            PaceAudioPump(now, due, period, maxBehind).nextSlotNanos >= now
            <==> behind <= 0 || (behind > maxBehind * period && behind % period == 0)
  {
    Scaled(0, maxBehind, period);
    var behind := now - (due + period);
    if behind > maxBehind * period {
      assert behind == behind / period * period + behind % period;
    }
  }

  lemma {:induction false} Scaled(a: int, b: int, period: int)
    requires period > 0
    ensures a <= b ==> a * period <= b * period
    ensures a > b ==> a * period > b * period
  {}

  function Slack(maxBehind: int): int {
    if maxBehind > 1 then maxBehind else 1
  }

  /** A decision never leaves the schedule more than the slack behind the clock, nor stalls it. */
  lemma {:induction false} DecisionAdvances(now: int, due: int, period: int, maxBehind: int)
    requires period > 0 && maxBehind >= -1 && now >= due
    ensures var d := PaceAudioPump(now, due, period, maxBehind);
            d.nextSlotNanos >= due + period && d.droppedSlots >= 0
            && d.nextSlotNanos >= now - Slack(maxBehind) * period
  {
    var behind := now - (due + period);
    Scaled(-1, maxBehind, period);
    Scaled(maxBehind, Slack(maxBehind), period);
    Scaled(1, Slack(maxBehind), period);
    TruncatedLeavesLess(behind, period);
    if behind > maxBehind * period {
      var dropped := Truncated(behind, period);
      if dropped <= -1 {
        Scaled(dropped, -1, period);
      } else {
        Scaled(0, dropped, period);
      }
    }
  }

  // ---------------------------------------------------------------- runs

  /** When a callback started, and what the clock said after it returned. */
  datatype Callback = Callback(start: int, now: int)

  /** The pump's fixed settings. */
  datatype Pump = Pump(period: int, maxBehind: int)

  /** When the slot after these callbacks is due. */
  function DueAfter(pump: Pump, due0: int, calls: seq<Callback>): int
    decreases |calls|
  {
    if calls == [] then due0
    else
      var last := |calls| - 1;
      PaceAudioPump(calls[last].now, DueAfter(pump, due0, calls[..last]), pump.period, pump.maxBehind).nextSlotNanos
  }

  function DroppedAfter(pump: Pump, due0: int, calls: seq<Callback>): int
    decreases |calls|
  {
    if calls == [] then 0
    else
      var last := |calls| - 1;
      DroppedAfter(pump, due0, calls[..last])
      + PaceAudioPump(calls[last].now, DueAfter(pump, due0, calls[..last]), pump.period, pump.maxBehind).droppedSlots
  }

  /** No callback starts before it is due or before the last one returned. */
  predicate OnTime(pump: Pump, due0: int, calls: seq<Callback>, k: nat)
    requires k < |calls|
  {
    && DueAfter(pump, due0, calls[..k]) <= calls[k].start <= calls[k].now
    && (k > 0 ==> calls[k - 1].now <= calls[k].start)
  }

  ghost predicate Possible(pump: Pump, due0: int, calls: seq<Callback>) {
    forall k :: 0 <= k < |calls| ==> OnTime(pump, due0, calls, k)
  }

  lemma {:induction false} StepLaw(now: int, due: int, period: int, maxBehind: int)
    requires period > 0
    ensures var d := PaceAudioPump(now, due, period, maxBehind);
            d.nextSlotNanos == due + period + d.droppedSlots * period
  {}

  lemma {:induction false} Regroup(due0: int, n: int, dropped: int, more: int, period: int)
    ensures due0 + (n + dropped) * period + period + more * period == due0 + (n + 1 + (dropped + more)) * period
  {}

  /** Slot k is due k periods after the first, plus one period for every slot dropped on the way. */
  lemma {:induction false} SlotLaw(pump: Pump, due0: int, calls: seq<Callback>)
    requires pump.period > 0
    ensures DueAfter(pump, due0, calls) == due0 + (|calls| + DroppedAfter(pump, due0, calls)) * pump.period
    decreases |calls|
  {
    if calls != [] {
      var last := |calls| - 1;
      SlotLaw(pump, due0, calls[..last]);
      var due, dropped := DueAfter(pump, due0, calls[..last]), DroppedAfter(pump, due0, calls[..last]);
      StepLaw(calls[last].now, due, pump.period, pump.maxBehind);
      Regroup(due0, last, dropped,
              PaceAudioPump(calls[last].now, due, pump.period, pump.maxBehind).droppedSlots, pump.period);
    }
  }

  /** Each due time but the first is what the pacer decides from the one before it. */
  lemma {:induction false} DueSteps(pump: Pump, due0: int, calls: seq<Callback>, k: nat)
    requires k < |calls|
    ensures DueAfter(pump, due0, calls[..k + 1])
         == PaceAudioPump(calls[k].now, DueAfter(pump, due0, calls[..k]), pump.period, pump.maxBehind).nextSlotNanos
  {
    assert calls[..k + 1][..k] == calls[..k];
  }

  lemma {:induction false} PossibleAdvances(pump: Pump, due0: int, calls: seq<Callback>, k: nat)
    requires pump.period > 0 && pump.maxBehind >= -1 && Possible(pump, due0, calls) && k < |calls|
    ensures DueAfter(pump, due0, calls[..k + 1]) >= DueAfter(pump, due0, calls[..k]) + pump.period
    ensures DueAfter(pump, due0, calls[..k + 1]) >= calls[k].start - Slack(pump.maxBehind) * pump.period
  {
    assert OnTime(pump, due0, calls, k);
    DueSteps(pump, due0, calls, k);
    DecisionAdvances(calls[k].now, DueAfter(pump, due0, calls[..k]), pump.period, pump.maxBehind);
  }

  lemma {:induction false} OneMore(n: int, period: int)
    ensures n * period + period == (n + 1) * period
  {}

  function Periods(n: nat, period: int): int {
    if n == 0 then 0 else Periods(n - 1, period) + period
  }

  lemma {:induction false} PeriodsIsProduct(n: nat, period: int)
    ensures Periods(n, period) == n * period
  {
    if n > 0 {
      PeriodsIsProduct(n - 1, period);
      OneMore(n - 1, period);
    }
  }

  lemma {:induction false} StepsAddUp(times: seq<int>, period: int, i: nat, j: nat)
    requires i <= j < |times|
    requires forall k :: 0 <= k < |times| - 1 ==> times[k + 1] >= times[k] + period
    ensures times[j] >= times[i] + Periods(j - i, period)
    decreases j - i
  {
    if i < j {
      StepsAddUp(times, period, i, j - 1);
    }
  }

  /** Due times that advance by a period and are never late by more than this. */
  ghost predicate Paced(dues: seq<int>, calls: seq<Callback>, period: int, late: int) {
    && |dues| == |calls|
    && (forall k :: 0 <= k < |calls| ==> dues[k] <= calls[k].start)
    && (forall k :: 0 <= k < |dues| - 1 ==> dues[k + 1] >= dues[k] + period)
    && (forall k :: 0 <= k < |calls| - 1 ==> dues[k + 1] >= calls[k].start - late)
  }

  lemma {:induction false} DueTimes(pump: Pump, due0: int, calls: seq<Callback>, late: int) returns (dues: seq<int>)
    requires pump.period > 0 && pump.maxBehind >= -1 && Possible(pump, due0, calls)
    requires late == Slack(pump.maxBehind) * pump.period
    ensures Paced(dues, calls, pump.period, late)
  {
    dues := seq(|calls|, k requires 0 <= k < |calls| => DueAfter(pump, due0, calls[..k]));
    forall k | 0 <= k < |calls|
      ensures dues[k] <= calls[k].start
    {
      assert OnTime(pump, due0, calls, k);
    }
    forall k | 0 <= k < |calls| - 1
      ensures dues[k + 1] >= dues[k] + pump.period
      ensures dues[k + 1] >= calls[k].start - late
    {
      PossibleAdvances(pump, due0, calls, k);
    }
  }

  lemma {:induction false} PacedWindow(dues: seq<int>, calls: seq<Callback>, period: int, late: int, i: nat, j: nat)
    requires Paced(dues, calls, period, late) && i < j < |calls|
    ensures Periods(j - i - 1, period) <= calls[j].start - calls[i].start + late
  {
    StepsAddUp(dues, period, i + 1, j);
  }

  lemma {:induction false} CountFromPeriods(n: nat, slack: int, window: int, period: int, late: int)
    requires period > 0 && late == slack * period && Periods(n, period) <= window + late
    ensures n <= window / period + slack
  {
    PeriodsIsProduct(n, period);
    AtMostQuotient(n, slack, window, period);
  }

  /**
   * However the callbacks stall, those that start within any window of length T number at most
   * T / period plus the slack plus two.
   */
  lemma {:induction false} WindowBound(pump: Pump, due0: int, calls: seq<Callback>, i: nat, j: nat)
    requires pump.period > 0 && pump.maxBehind >= -1 && Possible(pump, due0, calls)
    requires i <= j < |calls|
    ensures var n := j - i + 1;
            n <= (calls[j].start - calls[i].start) / pump.period + Slack(pump.maxBehind) + 2
  {
    var late := Slack(pump.maxBehind) * pump.period;
    var dues := DueTimes(pump, due0, calls, late);
    if i < j {
      PacedWindow(dues, calls, pump.period, late, i, j);
      CountFromPeriods(j - i - 1, Slack(pump.maxBehind), calls[j].start - calls[i].start, pump.period, late);
    } else {
      NothingPerPeriod(pump.period);
    }
  }

  lemma {:induction false} NothingPerPeriod(period: int)
    requires period > 0
    ensures 0 / period == 0
  {}

  lemma {:induction false} AtMostQuotient(n: int, slack: int, window: int, period: int)
    requires period > 0 && n * period <= window + slack * period
    ensures n <= window / period + slack
  {
    var q := window / period;
    assert window < (q + 1) * period;
    assert (n - slack) * period < (q + 1) * period;
    Scaled(q + 1, n - slack, period);
  }

  // ---------------------------------------------------------------- the bound is met, and its limit

  /** count callbacks that all start and return at one instant. */
  function AtOnce(now: int, count: nat): seq<Callback> {
    seq(count, _ => Callback(now, now))
  }

  lemma {:induction false} LateEnoughIsServed(due0: int, now: int, k: int, period: int, maxBehind: int)
    requires period > 0 && 0 <= k && now == due0 + (maxBehind + 1) * period
    ensures PaceAudioPump(now, due0 + k * period, period, maxBehind).nextSlotNanos == due0 + (k + 1) * period
  {
    OneMore(k, period);
    Scaled(0, k, period);
    OneMore(maxBehind, period);
  }

  lemma {:induction false} AtOnceDue(pump: Pump, due0: int, now: int, k: nat)
    requires pump.period > 0 && now == due0 + (pump.maxBehind + 1) * pump.period
    ensures DueAfter(pump, due0, AtOnce(now, k)) == due0 + k * pump.period
    decreases k
  {
    if k > 0 {
      AtOnceDue(pump, due0, now, k - 1);
      assert AtOnce(now, k)[..k - 1] == AtOnce(now, k - 1);
      LateEnoughIsServed(due0, now, k - 1, pump.period, pump.maxBehind);
    }
  }

  /** A pump exactly as late as it may be serves maxBehind + 2 callbacks in one instant. */
  lemma {:induction false} BoundIsMet(pump: Pump, due0: int)
    requires pump.period > 0 && pump.maxBehind >= 1
    ensures var calls := AtOnce(due0 + (pump.maxBehind + 1) * pump.period, pump.maxBehind + 2);
            && Possible(pump, due0, calls)
            && |calls| == (calls[|calls| - 1].start - calls[0].start) / pump.period + Slack(pump.maxBehind) + 2
  {
    var now := due0 + (pump.maxBehind + 1) * pump.period;
    AtOnceIsPossible(pump, due0, now);
    NothingPerPeriod(pump.period);
  }

  lemma {:induction false} AtOnceIsPossible(pump: Pump, due0: int, now: int)
    requires pump.period > 0 && pump.maxBehind >= 1 && now == due0 + (pump.maxBehind + 1) * pump.period
    ensures Possible(pump, due0, AtOnce(now, pump.maxBehind + 2))
  {
    var calls := AtOnce(now, pump.maxBehind + 2);
    forall k | 0 <= k < |calls|
      ensures DueAfter(pump, due0, calls[..k]) <= now
    {
      assert calls[..k] == AtOnce(now, k);
      AtOnceDue(pump, due0, now, k);
      Scaled(k, pump.maxBehind + 1, pump.period);
    }
  }

  lemma {:induction false} InstantCallbackIsDueAgain(due: int, period: int, maxBehind: int)
    requires period > 0 && maxBehind < -1
    ensures PaceAudioPump(due, due, period, maxBehind).nextSlotNanos == due
  {
    Scaled(-1, maxBehind, period);
    assert period / period == 1;
  }

  lemma {:induction false} InstantDue(pump: Pump, due0: int, count: nat)
    requires pump.period > 0 && pump.maxBehind < -1
    ensures DueAfter(pump, due0, AtOnce(due0, count)) == due0
    decreases count
  {
    if count > 0 {
      InstantDue(pump, due0, count - 1);
      assert AtOnce(due0, count)[..count - 1] == AtOnce(due0, count - 1);
      InstantCallbackIsDueAgain(due0, pump.period, pump.maxBehind);
    }
  }

  /** Below -1 there is no bound at all: a callback that takes no time is due again at once. */
  lemma {:induction false} NoBoundBelowMinusOne(pump: Pump, due0: int, count: nat)
    requires pump.period > 0 && pump.maxBehind < -1
    ensures Possible(pump, due0, AtOnce(due0, count))
  {
    forall k | 0 <= k < count
      ensures DueAfter(pump, due0, AtOnce(due0, count)[..k]) == due0
    {
      assert AtOnce(due0, count)[..k] == AtOnce(due0, k);
      InstantDue(pump, due0, k);
    }
  }

  /** A period that is not positive schedules every callback for now and drops nothing. */
  lemma {:induction false} NoPeriodMeansNow(now: int, due: int, period: int, maxBehind: int)
    requires period <= 0
    ensures PaceAudioPump(now, due, period, maxBehind) == PaceDecision(now, 0)
  {}
}

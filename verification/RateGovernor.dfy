/** Paces the generation loop: how many events each batch owes, and when the next one is due. */
module RateGovernor {
  import opened PacingLog

  /** The whole events in a debt, as many as an int holds. */
  function WholeEvents(owed: real): (e: nat)
    requires owed >= 0.0
    ensures e <= INT_MAX && e as real <= owed
    ensures owed - e as real < 1.0 <==> owed < INT_MAX as real + 1.0
  {
    if owed >= 1.0 then
      if owed >= INT_MAX as real then INT_MAX else owed.Floor
    else 0
  }

  /** How far past a deadline `now` is. */
  function Late(now: int, deadline: int): nat {
    if now - deadline < 0 then 0 else now - deadline
  }

  function Min(a: nat, b: nat): nat {
    if a <= b then a else b
  }

  datatype Answer = RateRefused | Emit(events: nat)

  // ---- the pending fraction over whole runs ----

  /** What a run of batches leaves owed, from their rates and lengths alone. */
  ghost function OwedAfter(log: seq<Batch>, interval: nat): (owed: real)
    requires AllEarning(log)
    ensures owed >= 0.0
  {
    if log == [] then 0.0
    else
      var b := log[|log| - 1];
      EarnedIsNatural(b.rate, b.intervals, interval);
      Rest(OwedAfter(log[..|log| - 1], interval) + Earned(b.rate, b.intervals, interval))
  }

  /** What a debt leaves once its whole events are emitted. */
  ghost function Rest(debt: real): (r: real)
    requires debt >= 0.0
    ensures r >= 0.0
  {
    debt - WholeEvents(debt) as real
  }

  ghost predicate AllEarning(log: seq<Batch>) {
    forall i | 0 <= i < |log| :: log[i].rate >= 0.0
  }

  ghost predicate AllAt(log: seq<Batch>, rate: real) {
    forall i | 0 <= i < |log| :: log[i].rate == rate
  }

  ghost predicate AtMost(log: seq<Batch>, most: nat) {
    forall i | 0 <= i < |log| :: log[i].intervals <= most
  }

  ghost predicate NoFaster(log: seq<Batch>, rate: real) {
    forall i | 0 <= i < |log| :: log[i].rate <= rate
  }

  lemma OneMoreOwed(log: seq<Batch>, b: Batch, interval: nat)
    requires AllEarning(log) && b.rate >= 0.0
    ensures AllEarning(log + [b]) && Earned(b.rate, b.intervals, interval) >= 0.0
    ensures OwedAfter(log + [b], interval) == Rest(OwedAfter(log, interval) + Earned(b.rate, b.intervals, interval))
  {
    EarnedIsNatural(b.rate, b.intervals, interval);
    assert (log + [b])[..|log|] == log;
  }

  /** What is owed is what the log leaves owed, and no batch in it is longer than `most`. */
  ghost predicate Owes(log: seq<Batch>, interval: nat, owed: real, most: nat) {
    AllEarning(log) && owed == OwedAfter(log, interval) && AtMost(log, most)
  }

  lemma OwesMore(log: seq<Batch>, interval: nat, owed: real, most: nat, b: Batch)
    requires Owes(log, interval, owed, most) && b.rate >= 0.0 && b.intervals <= most
    requires b.due == owed + Earned(b.rate, b.intervals, interval) && b.due >= 0.0 && b.emitted == WholeEvents(b.due)
    ensures Owes(log + [b], interval, b.due - b.emitted as real, most)
  {
    OneMoreOwed(log, b, interval);
  }

  /** No batch earns more than the longest one at the highest rate. */
  lemma EarnedGrows(rate: real, intervals: nat, top: real, most: nat, interval: nat)
    requires 0.0 <= rate <= top && intervals <= most
    ensures Earned(rate, intervals, interval) <= Earned(top, most, interval)
  {
    var less, more := Seconds(interval * intervals), Seconds(interval * most);
    assert interval * intervals <= interval * most;
    assert less * rate <= more * rate <= more * top;
  }

  /** While no batch can earn more than an int holds, less than one event is ever left pending. */
  lemma {:induction false} PendingStaysBelowOne(log: seq<Batch>, top: real, most: nat, interval: nat)
    requires AllEarning(log) && NoFaster(log, top) && AtMost(log, most)
    requires top >= 0.0 && Earned(top, most, interval) <= INT_MAX as real
    ensures OwedAfter(log, interval) < 1.0
  {
    if log != [] {
      var b := log[|log| - 1];
      PendingStaysBelowOne(log[..|log| - 1], top, most, interval);
      EarnedGrows(b.rate, b.intervals, top, most, interval);
    }
  }

  function LongestBatch(top: real, most: nat): Batch {
    PacingLog.Batch(top, 0.0, 0, most, 0, 0)
  }

  /** Otherwise the longest batch at the highest rate, over and over, leaves a little more each time. */
  lemma {:induction false} PendingGrows(log: seq<Batch>, top: real, most: nat, interval: nat) returns (more: seq<Batch>)
    requires AllEarning(log) && NoFaster(log, top) && AtMost(log, most)
    requires top >= 0.0 && Earned(top, most, interval) > INT_MAX as real
    ensures AllEarning(more) && NoFaster(more, top) && AtMost(more, most) && OwedAfter(more, interval) >= 1.0
    decreases (1.0 - OwedAfter(log, interval)) / (Earned(top, most, interval) - INT_MAX as real)
  {
    if OwedAfter(log, interval) >= 1.0 {
      return log;
    }
    var b, owed, earned := LongestBatch(top, most), OwedAfter(log, interval), Earned(top, most, interval);
    OneMoreOwed(log, b, interval);
    RestOfLongest(owed, earned);
    OneStepNearer(owed, earned - INT_MAX as real);
    more := PendingGrows(log + [b], top, most, interval);
  }

  lemma RestOfLongest(owed: real, earned: real)
    requires 0.0 <= owed && earned > INT_MAX as real
    ensures Rest(owed + earned) == owed + (earned - INT_MAX as real)
  {
  }

  lemma OneStepNearer(owed: real, gain: real)
    requires gain > 0.0 && owed < 1.0
    ensures (1.0 - (owed + gain)) / gain == (1.0 - owed) / gain - 1.0 && (1.0 - owed) / gain >= 0.0
  {
    var x, y := (1.0 - owed) / gain, (1.0 - (owed + gain)) / gain;
    assert x * gain == 1.0 - owed && y * gain == 1.0 - (owed + gain);
    assert (y - (x - 1.0)) * gain == y * gain - x * gain + gain;
    SameFactor(y - (x - 1.0), gain);
    NoNegativeFactor(x, gain);
  }

  lemma NoNegativeFactor(x: real, gain: real)
    requires gain > 0.0 && x * gain >= 0.0
    ensures x >= 0.0
  {
  }

  lemma SameFactor(x: real, gain: real)
    requires gain > 0.0 && x * gain == 0.0
    ensures x == 0.0
  {
  }

  /** The pending fraction stays below one over every run at rates up to `top` if and only if the longest batch the
      governor makes up at that rate earns no more than an int holds. */
  lemma PendingBelowOneExactlyWhen(top: real, maxCatchUp: nat, interval: nat)
    requires top >= 0.0
    ensures (forall log | AllEarning(log) && NoFaster(log, top) && AtMost(log, 1 + maxCatchUp) ::
               OwedAfter(log, interval) < 1.0)
      <==> Earned(top, 1 + maxCatchUp, interval) <= INT_MAX as real
  {
    if Earned(top, 1 + maxCatchUp, interval) <= INT_MAX as real {
      forall log | AllEarning(log) && NoFaster(log, top) && AtMost(log, 1 + maxCatchUp)
        ensures OwedAfter(log, interval) < 1.0
      {
        PendingStaysBelowOne(log, top, 1 + maxCatchUp, interval);
      }
    } else {
      var log := PendingGrows([], top, 1 + maxCatchUp, interval);
      assert !(OwedAfter(log, interval) < 1.0);
    }
  }

  // ---- what time is worth ----

  /** What a batch emits and what it adds to the pending fraction are together the rate times the time of the
      intervals it accrues; time is in ticks of a ten-millionth of a second. */
  ghost predicate Adds(before: real, emit: nat, after: real, rate: real, intervals: nat, interval: nat) {
    (emit as real + after - before) * 10_000_000.0 == (interval * intervals) as real * rate
  }

  lemma EarnedAdds(before: real, emit: nat, after: real, rate: real, intervals: nat, interval: nat)
    requires emit as real + after - before == Earned(rate, intervals, interval)
    ensures Adds(before, emit, after, rate, intervals, interval)
  {
    EarnedIsRateTimesTime(rate, intervals, interval);
  }

  lemma CreditedIsRateTime(log: seq<Batch>, interval: nat, total: real)
    requires total == Credit(log, interval)
    ensures total * 10_000_000.0 == RateTime(log, interval)
  {
    CreditIsRateTime(log, interval);
  }

  class RateGovernor {
    const interval: nat
    const maxCatchUp: nat

    var started: bool
    var accruedThrough: int
    var nextDeadline: int
    var owed: real
    var totalScheduled: nat
    var lag: nat
    var totalDropped: nat

    ghost var start: int
    ghost var log: seq<Batch>

    /** The totals are those of the log: nothing scheduled is lost, and no time goes unaccounted for. */
    ghost predicate Balanced()
      reads this
    {
      && AllKept(log, interval)
      && totalScheduled == Emitted(log) && totalScheduled as real + owed == Credit(log, interval)
      && totalDropped == Dropped(log)
      && accruedThrough - (start - interval) == interval * Intervals(log) + Abandoned(log)
      && nextDeadline == accruedThrough + interval
      && Owes(log, interval, owed, 1 + maxCatchUp)
    }

    ghost predicate Valid()
      reads this
    {
      && interval > 0 && owed >= 0.0
      && (if started then Balanced() else log == [] && owed == 0.0 && totalScheduled == 0 && totalDropped == 0)
      && (owed < 1.0 <==> log == [] || log[|log| - 1].due < INT_MAX as real + 1.0)
    }

    constructor (batchIntervalMs: nat, maxCatchUpBatches: nat)
      requires batchIntervalMs >= 1
      ensures Valid() && !started && log == []
      ensures interval == batchIntervalMs * 10_000 && maxCatchUp == maxCatchUpBatches
    {
      interval, maxCatchUp := batchIntervalMs * 10_000, maxCatchUpBatches;
      started, owed, totalScheduled, lag, totalDropped := false, 0.0, 0, 0, 0;
      log := [];
    }

    /** How many batches after the one due should have gone out by now as well. */
    function Behind(now: int): nat
      requires interval > 0
      reads this
    {
      Late(now, nextDeadline) / interval
    }

    /** What a batch scheduled at `now` accrues, drops and abandons. */
    ghost function Due(rate: real, now: int): (b: Batch)
      requires interval > 0 && rate >= 0.0 && owed >= 0.0
      reads this
    {
      var behind := Behind(now);
      var intervals := 1 + Min(behind, maxCatchUp);
      var abandoned := if behind > maxCatchUp then now - nextDeadline - interval * maxCatchUp else 0;
      EarnedIsNatural(rate, intervals, interval);
      var debt := owed + Earned(rate, intervals, interval);
      PacingLog.Batch(rate, debt, WholeEvents(debt), intervals, behind - Min(behind, maxCatchUp), abandoned)
    }

    lemma DueIsKept(rate: real, now: int)
      requires interval > 0 && rate >= 0.0 && owed >= 0.0
      ensures Kept(Due(rate, now), interval)
    {
      var behind := Behind(now);
      if behind > maxCatchUp {
        BehindBounds(Late(now, nextDeadline), interval, behind);
        Distribute(behind - maxCatchUp, maxCatchUp, interval);
        Distribute(behind - maxCatchUp, 1, interval);
      }
    }

    /** Adds to the debt and emits the whole events in it. */
    method Settle(earned: real) returns (emit: nat)
      requires owed >= 0.0 && earned >= 0.0
      modifies this`owed, this`totalScheduled
      ensures emit == WholeEvents(old(owed) + earned) && owed == old(owed) + earned - emit as real
      ensures totalScheduled == old(totalScheduled) + emit
    {
      owed := owed + earned;
      emit := 0;
      if owed >= 1.0 {
        emit := if owed >= INT_MAX as real then INT_MAX else owed.Floor;
        owed := owed - emit as real;
      }
      totalScheduled := totalScheduled + emit;
    }

    /** Moves the schedule on by the intervals accrued, or restarts it from the clock when the cap cut them short. */
    method MoveOn(behind: nat, accrueTo: int, now: int)
      modifies this`accruedThrough, this`nextDeadline, this`totalDropped
      ensures accruedThrough == (if behind > maxCatchUp then now else accrueTo)
      ensures nextDeadline == accruedThrough + interval
      ensures totalDropped == old(totalDropped) + behind - Min(behind, maxCatchUp)
    {
      if behind > maxCatchUp {
        var dropped := behind - maxCatchUp;
        totalDropped := totalDropped + dropped;
        accruedThrough := now;
        nextDeadline := now + interval;
      } else {
        accruedThrough := accrueTo;
        nextDeadline := accrueTo + interval;
      }
    }

    /** The arithmetic of one batch, on the counters alone. */
    method Account(rate: real, now: int, ghost due: Batch) returns (emit: nat)
      requires interval > 0 && rate >= 0.0 && owed >= 0.0 && due == Due(rate, now)
      requires nextDeadline == accruedThrough + interval
      modifies this`accruedThrough, this`nextDeadline, this`owed, this`totalScheduled, this`lag, this`totalDropped
      ensures emit == due.emitted && owed == due.due - emit as real
      ensures totalScheduled == old(totalScheduled) + emit && totalDropped == old(totalDropped) + due.dropped
      ensures accruedThrough == old(accruedThrough) + interval * due.intervals + due.abandoned
      ensures nextDeadline == accruedThrough + interval && lag == Late(now, old(nextDeadline))
      ensures Adds(old(owed), emit, owed, rate, 1 + Min(old(Behind(now)), maxCatchUp), interval)
      ensures nextDeadline == (if old(Behind(now)) > maxCatchUp then now + interval
                               else old(nextDeadline) + interval * (1 + old(Behind(now))))
      ensures nextDeadline > now
    {
      EarnedIsNatural(rate, due.intervals, interval);
      lag := Late(now, nextDeadline);
      var behind := lag / interval;
      var batchesToAccrue := 1 + (if behind > maxCatchUp then maxCatchUp else behind);
      assert behind == Behind(now) && batchesToAccrue == due.intervals;

      var accrued := interval * batchesToAccrue;
      var accrueTo := accruedThrough + accrued;
      var earned := Earned(rate, batchesToAccrue, interval);
      ScheduleFacts(lag, interval, maxCatchUp, behind);
      emit := Settle(earned);
      EarnedAdds(old(owed), emit, owed, rate, due.intervals, interval);
      MoveOn(behind, accrueTo, now);
    }

    /** The accounting step: what the batch due at the deadline owes when it arrives at `now`, and when the next
        one is due. */
    method ScheduleBatch(rate: real, now: int) returns (emit: nat)
      requires Valid() && started && rate >= 0.0
      modifies this`accruedThrough, this`nextDeadline, this`owed, this`totalScheduled, this`lag, this`totalDropped,
        this`log
      ensures Valid() && log == old(log) + [old(Due(rate, now))]
      ensures emit == old(Due(rate, now)).emitted && owed == old(Due(rate, now)).due - emit as real
      ensures Adds(old(owed), emit, owed, rate, 1 + Min(old(Behind(now)), maxCatchUp), interval)
      ensures nextDeadline == (if old(Behind(now)) > maxCatchUp then now + interval
                               else old(nextDeadline) + interval * (1 + old(Behind(now))))
      ensures nextDeadline > now && lag == Late(now, old(nextDeadline))
    {
      DueIsKept(rate, now);
      ghost var due := Due(rate, now);
      Extended(log, due, interval);
      OwesMore(log, interval, owed, 1 + maxCatchUp, due);
      emit := Account(rate, now, due);
      log := log + [due];
    }

    /** Starts the schedule one interval back, so the first batch is due at once. */
    method Start(first: int)
      requires Valid() && !started
      modifies this`started, this`accruedThrough, this`nextDeadline, this`start
      ensures Valid() && started && start == first && nextDeadline == first
    {
      started, start := true, first;
      accruedThrough := first - interval;
      nextDeadline := first;
    }

    /** The clock reading a batch is scheduled at. */
    function At(now: int, woken: int): int
      reads this
    {
      if now >= nextDeadline then now else woken
    }

    /** Waits for the deadline and schedules the batch due there. `first` is the clock when the schedule starts,
        `now` when the deadline is looked at, and `woken` after a wait for it, if there is one. */
    method WaitForNextBatch(rate: real, first: int, now: int, woken: int) returns (answer: Answer)
      requires Valid()
      modifies this
      ensures rate < 0.0 ==> answer.RateRefused? && unchanged(this)
      ensures rate >= 0.0 ==> Valid() && started && log != [] && answer == Emit(log[|log| - 1].emitted)
      ensures rate >= 0.0 ==> Paid(old(owed), rate) && log[..|log| - 1] == old(log)
      ensures rate >= 0.0 && old(started) ==>
        start == old(start) && log == old(log) + [old(Due(rate, At(now, woken)))]
      ensures rate >= 0.0 && !old(started) ==> FirstBatch(rate, first, if now >= first then now else woken)
    {
      if rate < 0.0 {
        return RateRefused;
      }
      if !started {
        Start(first);
      }
      var at := At(now, woken);
      var emit := ScheduleBatch(rate, at);
      answer := Emit(emit);
    }

    /** The last batch paid the whole events of the debt before it and of what it earned, and carried the rest. */
    ghost predicate Paid(owedBefore: real, rate: real)
      reads this
    {
      && log != [] && interval > 0
      && var b := log[|log| - 1];
      && b.rate == rate && b.intervals <= 1 + maxCatchUp && b.due == owedBefore + Earned(rate, b.intervals, interval)
      && b.due >= 0.0 && b.emitted == WholeEvents(b.due) && owed == b.due - b.emitted as real
    }

    /** The first batch starts the schedule and is worth one interval, plus any missed since. */
    ghost predicate FirstBatch(rate: real, first: int, at: int)
      requires interval > 0
      reads this
    {
      && start == first && |log| == 1 && log[0].rate == rate
      && log[0].intervals == 1 + Min(Late(at, first) / interval, maxCatchUp)
      && log[0].due == Earned(rate, log[0].intervals, interval)
    }

    /** Over any run, everything scheduled and what is still pending are together the sum of rate times time over its
        batches. */
    lemma ScheduledIsRateTimesTime()
      requires Valid() && started
      ensures (totalScheduled as real + owed) * 10_000_000.0 == RateTime(log, interval)
    {
      CreditedIsRateTime(log, interval, totalScheduled as real + owed);
    }

    /** At one rate throughout that is the rate times all the time accrued. */
    lemma ScheduledAtOneRate(rate: real)
      requires Valid() && started && AllAt(log, rate)
      ensures (totalScheduled as real + owed) * 10_000_000.0 == (interval * Intervals(log)) as real * rate
    {
      CreditedIsRateTime(log, interval, totalScheduled as real + owed);
      RateTimeAtOneRate(log, interval, rate);
    }

    /** Until something is capped every deadline lies on the lattice the first one started. */
    lemma DeadlinesStayOnTheLattice()
      requires Valid() && started && totalDropped == 0
      ensures nextDeadline == start + interval * Intervals(log)
    {
      AbandonedMatchesDropped(log, interval);
      NoneDropped(log);
    }

    /** A governor no faster than `top` keeps less than one event pending when its options say so. */
    lemma PendingIsAFraction(top: real)
      requires Valid() && started && NoFaster(log, top)
      requires top >= 0.0 && Earned(top, 1 + maxCatchUp, interval) <= INT_MAX as real
      ensures owed < 1.0
    {
      PendingStaysBelowOne(log, top, 1 + maxCatchUp, interval);
    }

    /** The clock time behind the schedule is what was accrued and what was given up, and the drop counter says
        how much was given up to within one interval for each reset. */
    lemma TimeIsAccountedFor()
      requires Valid() && started
      ensures accruedThrough - (start - interval) == interval * Intervals(log) + Abandoned(log)
      ensures totalDropped * interval <= Abandoned(log)
      ensures Resets(log) > 0 ==> Abandoned(log) < (totalDropped + Resets(log)) * interval
      ensures Resets(log) == 0 ==> Abandoned(log) == 0
    {
      AbandonedMatchesDropped(log, interval);
    }
  }

  lemma ScheduleFacts(late: nat, interval: nat, maxCatchUp: nat, behind: nat)
    requires interval > 0 && behind == late / interval
    ensures late < interval * (1 + behind)
    ensures interval * (1 + maxCatchUp) == interval + interval * maxCatchUp
  {
    Distribute(1, maxCatchUp, interval);
  }

  lemma BehindBounds(lag: nat, interval: nat, behind: nat)
    requires interval > 0 && behind == lag / interval
    ensures behind * interval <= lag < (behind + 1) * interval
  {
  }

  /** The pending fraction is not always one: at 100,000,000 events per second, an interval of 100 ms and 1,000
      intervals to catch up on, a batch owes more than an int holds. */
  method PendingFractionCanExceedOne() returns (pending: real)
    ensures pending > 1.0
  {
    var governor := new RateGovernor(100, 1_000);
    var interval := governor.interval;
    BehindBounds(1_000 * interval, interval, 1_000);
    var answer := governor.WaitForNextBatch(100_000_000.0, 0, 1_000 * interval, 0);
    pending := governor.owed;
  }
}

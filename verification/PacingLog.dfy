/** The log of batches a rate governor has scheduled, and what its totals say. Time is in 100 ns ticks. */
module PacingLog {
  const TICKS_PER_SECOND: real := 10_000_000.0
  const INT_MAX: nat := 0x7fff_ffff

  /** One scheduled batch: the rate in force, the debt it found due, what it emitted, how many intervals it
      accrued, and what it gave up. */
  datatype Batch = Batch(rate: real, due: real, emitted: nat, intervals: nat, dropped: nat, abandoned: nat)

  function Seconds(ticks: int): real {
    ticks as real / TICKS_PER_SECOND
  }

  /** What a rate earns over some intervals. */
  function Earned(rate: real, intervals: nat, interval: nat): real {
    Seconds(interval * intervals) * rate
  }

  /** What is earned is the rate times the time: ten million ticks to the second. */
  lemma EarnedIsRateTimesTime(rate: real, intervals: nat, interval: nat)
    ensures Earned(rate, intervals, interval) * 10_000_000.0 == (interval * intervals) as real * rate
  {
    var seconds := Seconds(interval * intervals);
    assert seconds * 10_000_000.0 == (interval * intervals) as real;
  }

  /** Rate times time, summed over the batches of a log. */
  ghost function RateTime(log: seq<Batch>, interval: nat): real {
    if log == [] then 0.0
    else
      var b := log[|log| - 1];
      RateTime(log[..|log| - 1], interval) + (interval * b.intervals) as real * b.rate
  }

  lemma {:induction false} CreditIsRateTime(log: seq<Batch>, interval: nat)
    ensures Credit(log, interval) * 10_000_000.0 == RateTime(log, interval)
  {
    if log != [] {
      var b := log[|log| - 1];
      CreditIsRateTime(log[..|log| - 1], interval);
      EarnedIsRateTimesTime(b.rate, b.intervals, interval);
    }
  }

  lemma {:induction false} RateTimeAtOneRate(log: seq<Batch>, interval: nat, rate: real)
    requires forall i | 0 <= i < |log| :: log[i].rate == rate
    ensures RateTime(log, interval) == (interval * Intervals(log)) as real * rate
  {
    if log != [] {
      var init, b := log[..|log| - 1], log[|log| - 1];
      RateTimeAtOneRate(init, interval, rate);
      SumOfSpans(interval, Intervals(init), b.intervals, rate);
    }
  }

  lemma SumOfSpans(interval: nat, a: nat, b: nat, rate: real)
    ensures (interval * (a + b)) as real * rate == (interval * a) as real * rate + (interval * b) as real * rate
  {
    assert interval * (a + b) == interval * a + interval * b;
  }

  ghost function Credit(log: seq<Batch>, interval: nat): real {
    if log == [] then 0.0
    else Credit(log[..|log| - 1], interval) + Earned(log[|log| - 1].rate, log[|log| - 1].intervals, interval)
  }

  ghost function Emitted(log: seq<Batch>): nat {
    if log == [] then 0 else Emitted(log[..|log| - 1]) + log[|log| - 1].emitted
  }

  ghost function Intervals(log: seq<Batch>): nat {
    if log == [] then 0 else Intervals(log[..|log| - 1]) + log[|log| - 1].intervals
  }

  ghost function Dropped(log: seq<Batch>): nat {
    if log == [] then 0 else Dropped(log[..|log| - 1]) + log[|log| - 1].dropped
  }

  ghost function Abandoned(log: seq<Batch>): nat {
    if log == [] then 0 else Abandoned(log[..|log| - 1]) + log[|log| - 1].abandoned
  }

  /** How often the schedule was reset. */
  ghost function Resets(log: seq<Batch>): nat {
    if log == [] then 0 else Resets(log[..|log| - 1]) + (if log[|log| - 1].dropped > 0 then 1 else 0)
  }

  /** A batch gives up time exactly when it drops intervals, and less than one interval more than it drops. */
  ghost predicate Kept(b: Batch, interval: nat) {
    && b.intervals >= 1 && b.rate >= 0.0
    && (if b.dropped == 0 then b.abandoned == 0
        else b.dropped * interval <= b.abandoned < (b.dropped + 1) * interval)
  }

  ghost predicate AllKept(log: seq<Batch>, interval: nat) {
    forall i | 0 <= i < |log| :: Kept(log[i], interval)
  }

  /** Over any run the time given up is the dropped intervals and, for each reset, less than one more. */
  lemma {:induction false} AbandonedMatchesDropped(log: seq<Batch>, interval: nat)
    requires AllKept(log, interval) && interval > 0
    ensures Dropped(log) * interval <= Abandoned(log)
    ensures if Resets(log) == 0 then Abandoned(log) == 0 && Dropped(log) == 0
            else Abandoned(log) < (Dropped(log) + Resets(log)) * interval
  {
    if log != [] {
      var init, b := log[..|log| - 1], log[|log| - 1];
      AbandonedMatchesDropped(init, interval);
      assert Kept(b, interval);
      Distribute(Dropped(init), b.dropped, interval);
      Distribute(Dropped(init) + Resets(init), b.dropped + 1, interval);
    }
  }

  lemma {:induction false} NoneDropped(log: seq<Batch>)
    requires Dropped(log) == 0
    ensures Resets(log) == 0
  {
    if log != [] {
      NoneDropped(log[..|log| - 1]);
    }
  }

  lemma Distribute(a: nat, b: nat, k: nat)
    ensures (a + b) * k == a * k + b * k
  {
  }

  lemma Extended(log: seq<Batch>, b: Batch, interval: nat)
    ensures Credit(log + [b], interval) == Credit(log, interval) + Earned(b.rate, b.intervals, interval)
    ensures Emitted(log + [b]) == Emitted(log) + b.emitted && Dropped(log + [b]) == Dropped(log) + b.dropped
    ensures interval * Intervals(log + [b]) == interval * Intervals(log) + interval * b.intervals
    ensures Abandoned(log + [b]) == Abandoned(log) + b.abandoned
    ensures AllKept(log, interval) && Kept(b, interval) ==> AllKept(log + [b], interval)
  {
    assert (log + [b])[..|log|] == log;
    Distribute(Intervals(log), b.intervals, interval);
  }

  lemma EarnedIsNatural(rate: real, intervals: nat, interval: nat)
    requires rate >= 0.0
    ensures Earned(rate, intervals, interval) >= 0.0
  {
    assert Seconds(interval * intervals) >= 0.0;
  }
}

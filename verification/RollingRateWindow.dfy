/** The achieved rate, from a ring of per-bucket counts that stands for the log of everything ever added. */
module RollingRateWindow {
  import opened Divisibility

  const TICKS_PER_SECOND: nat := 10_000_000

  datatype Entry = Entry(bucket: nat, count: int)

  /** Everything logged in buckets `from` up to, but not including, `until`. */
  ghost function Logged(log: seq<Entry>, from: int, until: int): int {
    if log == [] then 0
    else
      var e := log[|log| - 1];
      Logged(log[..|log| - 1], from, until) + (if from <= e.bucket < until then e.count else 0)
  }

  /** What was logged in one bucket. */
  ghost function At(log: seq<Entry>, bucket: nat): int {
    Logged(log, bucket, bucket + 1)
  }

  ghost predicate NoneAfter(log: seq<Entry>, head: nat) {
    forall i | 0 <= i < |log| :: log[i].bucket <= head
  }

  lemma {:induction false} NothingLogged(log: seq<Entry>, head: nat, from: int, until: int)
    requires NoneAfter(log, head) && (from > head || from >= until)
    ensures Logged(log, from, until) == 0
  {
    if log != [] {
      NothingLogged(log[..|log| - 1], head, from, until);
    }
  }

  lemma {:induction false} OneMoreBucket(log: seq<Entry>, from: int, until: int)
    requires from <= until
    ensures Logged(log, from, until + 1) == Logged(log, from, until) + Logged(log, until, until + 1)
  {
    if log != [] {
      OneMoreBucket(log[..|log| - 1], from, until);
    }
  }

  lemma AppendLogs(log: seq<Entry>, e: Entry, from: int, until: int)
    ensures Logged(log + [e], from, until)
         == Logged(log, from, until) + (if from <= e.bucket < until then e.count else 0)
  {
    assert (log + [e])[..|log|] == log;
  }

  function Slot(bucket: nat, length: nat): (s: nat)
    requires length > 0
    ensures s < length
  {
    bucket % length
  }

  /** Buckets less than one lap apart have slots of their own. */
  lemma SlotsDiffer(a: nat, b: nat, length: nat)
    requires length > 0 && a != b && a - b < length && b - a < length
    ensures Slot(a, length) != Slot(b, length)
  {
    if Slot(a, length) == Slot(b, length) {
      assert a - b == (a / length - b / length) * length;
      NonzeroMultiple(a / length - b / length, length);
    }
  }

  /** The slot of a bucket that has left the ring belongs to one that is still in it. */
  lemma SlotReused(bucket: nat, head: nat, length: nat) returns (current: nat)
    requires length > 0 && bucket <= head - length
    ensures head - length < current <= head && current != bucket && Slot(current, length) == Slot(bucket, length)
  {
    var laps := (head - bucket) / length;
    LapsBounds(head - bucket, length, laps);
    current := bucket + laps * length;
    SameSlot(bucket, laps, length);
  }

  lemma LapsBounds(distance: nat, length: nat, laps: nat)
    requires 0 < length <= distance && laps == distance / length
    ensures laps * length <= distance < laps * length + length && laps * length >= length
  {
    assert (laps - 1) * length >= 0;
  }

  lemma SameSlot(bucket: nat, laps: nat, length: nat)
    requires length > 0
    ensures Slot(bucket + laps * length, length) == Slot(bucket, length)
  {
    var q, r := bucket / length, bucket % length;
    assert bucket + laps * length == (q + laps) * length + r;
    ModUnique(bucket + laps * length, length, q + laps, r);
  }

  /** The ring holds, for every bucket of its last lap, what was logged there. */
  ghost predicate Refines(counts: seq<int>, head: nat, log: seq<Entry>) {
    && |counts| > 0 && NoneAfter(log, head)
    && forall b: nat | head - |counts| < b <= head :: counts[Slot(b, |counts|)] == At(log, b)
  }

  /** Adding to a bucket keeps the ring true to the log exactly when the bucket is still in it, or nothing is added. */
  lemma AddRefinesExactlyWhen(counts: seq<int>, head: nat, log: seq<Entry>, bucket: nat, count: int)
    requires Refines(counts, head, log) && bucket <= head
    ensures var s := Slot(bucket, |counts|); var after := counts[s := counts[s] + count];
      Refines(after, head, log + [Entry(bucket, count)]) <==> (bucket > head - |counts| || count == 0)
  {
    var n, s := |counts|, Slot(bucket, |counts|);
    var after, log' := counts[s := counts[s] + count], log + [Entry(bucket, count)];
    forall b: nat | head - n < b <= head
      ensures At(log', b) == At(log, b) + (if b == bucket then count else 0)
    {
      AppendLogs(log, Entry(bucket, count), b, b + 1);
    }
    if bucket > head - n || count == 0 {
      forall b: nat | head - n < b <= head
        ensures after[Slot(b, n)] == At(log', b)
      {
        if b != bucket && count != 0 {
          SlotsDiffer(b, bucket, n);
        }
      }
    } else {
      var current := SlotReused(bucket, head, n);
      assert after[Slot(current, n)] != At(log', current);
    }
  }

  /** The slots of the buckets passed over, up to `until`, are cleared; those of buckets still in the ring are not
      touched. */
  ghost predicate Passed(was: seq<int>, now: seq<int>, head: nat, bucket: nat, until: nat) {
    && |was| == |now| > 0
    && (forall b: nat | head < b < until && bucket - |now| < b :: now[Slot(b, |now|)] == 0)
    && (forall b: nat | bucket - |now| < b <= head :: now[Slot(b, |now|)] == was[Slot(b, |now|)])
  }

  lemma PassOne(was: seq<int>, now: seq<int>, head: nat, bucket: nat, b: nat)
    requires Passed(was, now, head, bucket, b) && head < b <= bucket
    ensures Passed(was, now[Slot(b, |now|) := 0], head, bucket, b + 1)
  {
    var n := |now|;
    forall x: nat | bucket - n < x < b ensures Slot(x, n) != Slot(b, n) {
      SlotsDiffer(x, b, n);
    }
  }

  /** Moving the head on keeps the ring true when it has passed all slots up to the new head. */
  lemma Advanced(was: seq<int>, head: nat, now: seq<int>, bucket: nat, log: seq<Entry>)
    requires head < bucket && Passed(was, now, head, bucket, bucket + 1)
    ensures Refines(was, head, log) ==> Refines(now, bucket, log)
  {
    if Refines(was, head, log) {
      forall b: nat | bucket - |now| < b <= bucket ensures now[Slot(b, |now|)] == At(log, b) {
        if b > head {
          NothingLogged(log, head, b, b + 1);
        }
      }
    }
  }

  lemma RateTimesTime(total: real, ticks: real)
    requires ticks > 0.0
    ensures total / (ticks / TICKS_PER_SECOND as real) * ticks == total * 10_000_000.0
  {
    var seconds := ticks / 10_000_000.0;
    assert seconds * 10_000_000.0 == ticks;
    assert total / seconds * seconds == total;
    assert total / seconds * (seconds * 10_000_000.0) == total / seconds * seconds * 10_000_000.0;
  }

  lemma QuotientBounds(n: nat, d: nat, q: nat)
    requires d > 0 && q == n / d
    ensures q * d <= n < (q + 1) * d
  {
    assert n == q * d + n % d;
  }

  class RollingRateWindow {
    const buckets: nat
    const bucketTicks: nat
    const startBucket: nat
    const counts: array<int>
    var headBucket: nat
    ghost var log: seq<Entry>

    ghost predicate Valid()
      reads this
    {
      buckets >= 1 && bucketTicks >= 1 && counts.Length == buckets + 1 && headBucket >= startBucket
    }

    /** The ring agrees with the log. */
    ghost predicate Refined()
      reads this, counts
    {
      Refines(counts[..], headBucket, log)
    }

    constructor (windowTicks: nat, buckets: nat, now: nat)
      requires windowTicks > 0 && buckets >= 1
      ensures Valid() && Refined() && fresh(counts) && log == []
      ensures this.buckets == buckets && startBucket == headBucket == BucketOf(now)
      ensures bucketTicks == 1 || bucketTicks * buckets <= windowTicks
      ensures windowTicks < (bucketTicks + 1) * buckets
    {
      this.buckets := buckets;
      bucketTicks := if windowTicks / buckets < 1 then 1 else windowTicks / buckets;
      counts := new int[buckets + 1](_ => 0);
      QuotientBounds(windowTicks, buckets, windowTicks / buckets);
      startBucket := now / (if windowTicks / buckets < 1 then 1 else windowTicks / buckets);
      headBucket := startBucket;
      log := [];
    }

    /** The bucket a reading falls in: they follow each other, each as long as `bucketTicks`. */
    function BucketOf(now: nat): (b: nat)
      requires bucketTicks >= 1
      ensures b * bucketTicks <= now < (b + 1) * bucketTicks
    {
      QuotientBounds(now, bucketTicks, now / bucketTicks);
      now / bucketTicks
    }

    /** Clears what has left the ring as the head moves on; a gap of a whole lap clears everything. */
    method AdvanceTo(bucket: nat)
      requires Valid()
      modifies this`headBucket, counts
      ensures Valid() && headBucket == (if bucket > old(headBucket) then bucket else old(headBucket))
      ensures old(Refined()) ==> Refined()
    {
      if bucket <= headBucket {
        return;
      }
      var steps := bucket - headBucket;
      if steps >= counts.Length {
        ClearAll();
      } else {
        ClearPassed(bucket);
      }
      Advanced(old(counts[..]), old(headBucket), counts[..], bucket, log);
      headBucket := bucket;
    }

    method ClearAll()
      modifies counts
      ensures forall i | 0 <= i < counts.Length :: counts[i] == 0
    {
      for i := 0 to counts.Length
        invariant forall j | 0 <= j < i :: counts[j] == 0
      {
        counts[i] := 0;
      }
    }

    method ClearPassed(bucket: nat)
      requires Valid() && headBucket < bucket < headBucket + counts.Length
      modifies counts
      ensures Passed(old(counts[..]), counts[..], headBucket, bucket, bucket + 1)
    {
      ghost var was := counts[..];
      var b := headBucket + 1;
      while b <= bucket
        invariant headBucket < b <= bucket + 1
        invariant Passed(was, counts[..], headBucket, bucket, b)
      {
        PassOne(was, counts[..], headBucket, bucket, b);
        counts[Slot(b, counts.Length)] := 0;
        b := b + 1;
      }
    }

    /** Logs some events in the bucket of `now`. On a clock that has not stepped back past the ring the refinement is
        kept; once it has, adding anything breaks it. */
    method Add(count: int, now: nat)
      requires Valid()
      modifies this`headBucket, this`log, counts
      ensures Valid()
      ensures count == 0 ==> unchanged(this) && unchanged(counts)
      ensures count != 0 ==> log == old(log) + [Entry(BucketOf(now), count)]
      ensures count != 0 ==> headBucket == (if BucketOf(now) > old(headBucket) then BucketOf(now) else old(headBucket))
      ensures old(Refined()) ==> (Refined() <==> BucketOf(now) > headBucket - counts.Length || count == 0)
    {
      if count == 0 {
        return;
      }
      var bucket := BucketOf(now);
      AdvanceTo(bucket);
      ghost var was := counts[..];
      counts[Slot(bucket, counts.Length)] := counts[Slot(bucket, counts.Length)] + count;
      log := log + [Entry(bucket, count)];
      if old(Refined()) {
        AddRefinesExactlyWhen(was, headBucket, old(log), bucket, count);
      }
    }

    /** Adds up the slots of a run of buckets; while they are all in the ring that is what was logged there. */
    method Total(from: nat, until: nat) returns (total: int)
      requires Valid()
      ensures Refined() && headBucket - counts.Length < from <= until <= headBucket + 1 ==>
        total == Logged(log, from, until)
    {
      total := 0;
      var bucket := from;
      if Refined() {
        NothingLogged(log, headBucket, from, from);
      }
      while bucket < until
        invariant from <= until ==> from <= bucket <= until
        invariant Refined() && headBucket - counts.Length < from <= until <= headBucket + 1 ==>
          total == Logged(log, from, bucket)
      {
        total := total + counts[Slot(bucket, counts.Length)];
        if from <= bucket {
          OneMoreBucket(log, from, bucket);
          assert Refined() && headBucket - counts.Length < bucket <= headBucket ==>
            counts[..][Slot(bucket, counts.Length)] == At(log, bucket);
        }
        bucket := bucket + 1;
      }
    }

    /** The rate over the complete buckets: everything logged in the last whole ones, over their length. The reading
        may be older than the head, when an add with a later one came first: the rate is right as long as the buckets
        it looks at are still in the ring, which a reading at or past the head always finds. */
    method EventsPerSecond(now: nat) returns (rate: real)
      requires Valid()
      modifies this`headBucket, counts
      ensures Valid() && (old(Refined()) ==> Refined())
      ensures headBucket == (if BucketOf(now) > old(headBucket) then BucketOf(now) else old(headBucket))
      ensures BucketOf(now) <= startBucket ==> rate == 0.0
      ensures old(Refined()) && BucketOf(now) >= startBucket && InRing(BucketOf(now)) ==>
        rate == Rate(log, BucketOf(now))
      ensures BucketOf(now) >= old(headBucket) ==> InRing(BucketOf(now))
    {
      var current := BucketOf(now);
      AdvanceTo(current);
      var complete := Complete(current);
      var total := Total(current - complete, current);
      if complete <= 0 {
        return 0.0;
      }
      var seconds := (complete * bucketTicks) as real / TICKS_PER_SECOND as real;
      rate := total as real / seconds;
    }

    /** How many whole buckets there are to look at; none before the first is over. */
    function Complete(current: nat): (n: int)
      ensures n <= buckets && n <= current - startBucket && (n == buckets || n == current - startBucket)
    {
      if buckets < current - startBucket then buckets else current - startBucket
    }

    /** The buckets a reading at `current` looks at are all in the ring. */
    predicate InRing(current: nat)
      reads this
    {
      current - Complete(current) > headBucket - counts.Length
    }

    /** The rate times the length of the whole buckets looked at, ten million ticks to the second, is what was logged
        in them. */
    lemma RateIsEventsOverTime(log: seq<Entry>, current: nat)
      requires Valid() && current > startBucket
      ensures Complete(current) > 0
      ensures Rate(log, current) * (Complete(current) * bucketTicks) as real
           == Logged(log, current - Complete(current), current) as real * 10_000_000.0
    {
      var ticks, total := Complete(current) * bucketTicks, Logged(log, current - Complete(current), current) as real;
      assert ticks > 0;
      RateTimesTime(total, ticks as real);
    }

    /** What the rate stands for: the log's events in the last whole buckets, as many as there have been. */
    ghost function Rate(log: seq<Entry>, current: nat): real
      requires Valid() && current >= startBucket
      reads this
    {
      var complete := Complete(current);
      if complete == 0 then 0.0
      else
        var ticks := complete * bucketTicks;
        Logged(log, current - complete, current) as real / (ticks as real / TICKS_PER_SECOND as real)
    }
  }
}

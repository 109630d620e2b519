/** The generation loop: asks for the rate, waits for the batch, and emits exactly what the batch owes. */
module FeedPublisherService {
  import opened Bytes
  import opened FeedRecords
  import opened PacingLog
  import Clock = MarketSessionClock
  import Governor = RateGovernor

  const MIN_BATCH_CAPACITY: nat := 64
  const MAX_BATCH_CAPACITY: nat := 262_144
  const AUCTION_PRINT_FLAG: uint16 := 1

  datatype SessionOptions = SessionOptions(
    maxEventsPerSecond: real, baseEventsPerSecond: real, batchIntervalMs: nat, maxCatchUpBatches: nat)
  {
    predicate Valid() {
      maxEventsPerSecond >= 1.0 && baseEventsPerSecond >= 1.0 && batchIntervalMs >= 1
    }

    /** The larger of the ceiling and the base rate. */
    function Peak(): (r: real)
      ensures r >= maxEventsPerSecond && r >= baseEventsPerSecond
      ensures r == maxEventsPerSecond || r == baseEventsPerSecond
    {
      if maxEventsPerSecond >= baseEventsPerSecond then maxEventsPerSecond else baseEventsPerSecond
    }

    /** The most one batch can accrue: the peak rate over the interval and every one it may catch up on. */
    function WithCatchUp(): real {
      Peak() * batchIntervalMs as real / 1000.0 * (1 + maxCatchUpBatches) as real
    }
  }

  function Ceiling(x: real): (n: int)
    ensures x <= n as real < x + 1.0
  {
    -((-x).Floor)
  }

  function BatchCapacity(o: SessionOptions): (n: nat)
    ensures MIN_BATCH_CAPACITY <= n <= MAX_BATCH_CAPACITY
    ensures o.WithCatchUp() <= MAX_BATCH_CAPACITY as real ==> o.WithCatchUp() <= n as real
    ensures n == MIN_BATCH_CAPACITY || n as real < o.WithCatchUp() + 1.0
  {
    var withCatchUp := o.WithCatchUp();
    if withCatchUp <= MIN_BATCH_CAPACITY as real then MIN_BATCH_CAPACITY
    else if withCatchUp >= MAX_BATCH_CAPACITY as real then MAX_BATCH_CAPACITY
    else Ceiling(withCatchUp)
  }

  /** What a batch of the configured governor earns is at most what the buffer was sized for. */
  lemma EarnedWithinCatchUp(o: SessionOptions, rate: real, intervals: nat)
    requires o.Valid() && 0.0 <= rate <= o.maxEventsPerSecond && intervals <= 1 + o.maxCatchUpBatches
    ensures Earned(rate, intervals, o.batchIntervalMs * 10_000) <= o.WithCatchUp()
  {
    var ms, n, all := o.batchIntervalMs as real, intervals as real, (1 + o.maxCatchUpBatches) as real;
    assert (o.batchIntervalMs * 10_000 * intervals) as real == ms * 10_000.0 * n;
    assert Earned(rate, intervals, o.batchIntervalMs * 10_000) == ms * n * rate / 1000.0;
    MonotoneProduct(rate, o.Peak(), n, all);
    assert ms * n * rate == ms * (rate * n);
    assert o.WithCatchUp() == ms * (o.Peak() * all) / 1000.0;
    MonotoneProduct(ms, ms, rate * n, o.Peak() * all);
  }

  /** It is what the longest batch at the peak rate earns, no more. */
  lemma WithCatchUpIsEarned(o: SessionOptions)
    ensures Earned(o.Peak(), 1 + o.maxCatchUpBatches, o.batchIntervalMs * 10_000) == o.WithCatchUp()
  {
    var ms, peak, all := o.batchIntervalMs as real, o.Peak(), (1 + o.maxCatchUpBatches) as real;
    assert (o.batchIntervalMs * 10_000 * (1 + o.maxCatchUpBatches)) as real == ms * 10_000.0 * all;
    assert Earned(peak, 1 + o.maxCatchUpBatches, o.batchIntervalMs * 10_000) == ms * all * peak / 1000.0;
    assert ms * all * peak == peak * ms * all;
  }

  lemma MonotoneProduct(a: real, a': real, b: real, b': real)
    requires 0.0 <= a <= a' && 0.0 <= b <= b'
    ensures 0.0 <= a * b <= a' * b'
  {
    assert a * b <= a' * b <= a' * b';
  }

  /** A debt that starts below one event and grows by no more than the buffer was sized for fits the buffer and
      leaves less than one event behind. */
  lemma DebtFitsOnePass(o: SessionOptions, owed: real, earned: real)
    requires 0.0 <= owed < 1.0 && 0.0 <= earned <= o.WithCatchUp() <= MAX_BATCH_CAPACITY as real
    ensures Governor.WholeEvents(owed + earned) <= BatchCapacity(o)
    ensures owed + earned - Governor.WholeEvents(owed + earned) as real < 1.0
  {
  }

  // ---- auction prints ----

  predicate IsAuctionPhase(phase: Clock.Phase) {
    phase.OpeningAuction? || phase.ClosingAuction?
  }

  /** The record with its low flag bit set. */
  function Flagged(r: FeedRecord): FeedRecord {
    r.(flags := if r.flags % 2 == AUCTION_PRINT_FLAG then r.flags else r.flags + AUCTION_PRINT_FLAG)
  }

  /** In an auction the trades are marked and the quotes left alone. */
  function Stamped(r: FeedRecord, auction: bool): FeedRecord {
    if auction && r.messageType == TRADE then Flagged(r) else r
  }

  /** A trade made while the session crosses carries the low flag bit and keeps the others; nothing else about it, and
      nothing at all about any other record, is changed. */
  lemma StampIsAPrint(r: FeedRecord, phase: Clock.Phase)
    ensures var s := Stamped(r, IsAuctionPhase(phase));
      && s == r.(flags := s.flags) && s.flags / 2 == r.flags / 2
      && s.flags % 2 == (if r.messageType == TRADE && phase in {Clock.OpeningAuction, Clock.ClosingAuction} then 1
                         else r.flags % 2)
  {
  }

  method StampAuctionPrints(batch: array<FeedRecord>, take: nat)
    requires take <= batch.Length
    modifies batch
    ensures forall i | 0 <= i < take :: batch[i] == Stamped(old(batch[i]), true)
    ensures forall i | take <= i < batch.Length :: batch[i] == old(batch[i])
  {
    for i := 0 to take
      invariant forall j | 0 <= j < i :: batch[j] == Stamped(old(batch[j]), true)
      invariant forall j | i <= j < batch.Length :: batch[j] == old(batch[j])
    {
      if batch[i].messageType == TRADE {
        batch[i] := Flagged(batch[i]);
      }
    }
  }

  // ---- the loop ----

  /** `count` records of the generator's tape from `first` on, as they are published. */
  ghost function Stretch(tape: nat -> FeedRecord, first: nat, count: nat, auction: bool): (s: seq<FeedRecord>)
    ensures |s| == count
  {
    seq(count, i requires 0 <= i => Stamped(tape(first + i), auction))
  }

  /** All passes but the last fill the buffer, and none starts once the count is reached. */
  ghost predicate Covered(emitted: nat, passes: nat, capacity: nat, count: nat) {
    && emitted == (if passes * capacity <= count then passes * capacity else count)
    && (passes > 0 ==> (passes - 1) * capacity < count)
  }

  lemma OneMorePass(emitted: nat, passes: nat, capacity: nat, count: nat)
    requires Covered(emitted, passes, capacity, count) && emitted < count
    ensures Covered(if count - emitted < capacity then count else emitted + capacity, passes + 1, capacity, count)
  {
    assert (passes + 1) * capacity == passes * capacity + capacity;
  }

  lemma StretchesJoin(tape: nat -> FeedRecord, first: nat, a: nat, b: nat, auction: bool)
    ensures Stretch(tape, first, a + b, auction)
         == Stretch(tape, first, a, auction) + Stretch(tape, first + a, b, auction)
  {
    var left, right := Stretch(tape, first, a, auction), Stretch(tape, first + a, b, auction);
    assert forall i | 0 <= i < a + b :: Stretch(tape, first, a + b, auction)[i] == (left + right)[i];
  }

  /** A base rate times a multiplier, held between nothing and the ceiling; nothing comes of a base of zero. */
  function ClampedRate(base: real, multiplier: real, ceiling: real): real {
    if base <= 0.0 || base * multiplier < 0.0 then 0.0
    else if base * multiplier > ceiling then ceiling
    else base * multiplier
  }

  class FeedPublisherService {
    const options: SessionOptions
    const clock: Clock.MarketSessionClock
    const governor: Governor.RateGovernor
    const tape: nat -> FeedRecord
    const batch: array<FeedRecord>
    var generated: nat
    var published: seq<FeedRecord>

    /** The clock's ceiling and the governor's cap are the ones the buffer was sized for. */
    ghost predicate Valid()
      reads this, governor
    {
      && options.Valid() && clock.Valid() && governor.Valid()
      && clock.maxEventsPerSecond == options.maxEventsPerSecond
      && governor.interval == options.batchIntervalMs * 10_000 && governor.maxCatchUp == options.maxCatchUpBatches
      && batch.Length == BatchCapacity(options)
      && (options.WithCatchUp() <= MAX_BATCH_CAPACITY as real ==> governor.owed < 1.0)
    }

    constructor (options: SessionOptions, clock: Clock.MarketSessionClock, tape: nat -> FeedRecord)
      requires options.Valid() && clock.Valid() && clock.maxEventsPerSecond == options.maxEventsPerSecond
      ensures Valid() && fresh(governor) && fresh(batch) && published == [] && generated == 0
    {
      this.options, this.clock, this.tape := options, clock, tape;
      governor := new Governor.RateGovernor(options.batchIntervalMs, options.maxCatchUpBatches);
      batch := new FeedRecord[BatchCapacity(options)](_ => tape(0));
      generated, published := 0, [];
    }

    /** Fills the front of the buffer with the tape's next records. */
    method Generate(take: nat)
      requires take <= batch.Length
      modifies this`generated, batch
      ensures generated == old(generated) + take
      ensures forall i | 0 <= i < take :: batch[i] == tape(old(generated) + i)
    {
      for i := 0 to take
        invariant generated == old(generated)
        invariant forall j | 0 <= j < i :: batch[j] == tape(generated + j)
      {
        batch[i] := tape(generated + i);
      }
      generated := generated + take;
    }

    /** One pass over the buffer. */
    method Pass(take: nat, auction: bool)
      requires take <= batch.Length
      modifies this`generated, this`published, batch
      ensures generated == old(generated) + take
      ensures published == old(published) + Stretch(tape, old(generated), take, auction)
    {
      Generate(take);
      if auction {
        StampAuctionPrints(batch, take);
      }
      published := published + batch[..take];
      assert forall i | 0 <= i < take :: batch[i] == Stamped(tape(old(generated) + i), auction);
      assert batch[..take] == Stretch(tape, old(generated), take, auction);
    }

    /** Emits exactly `count` records in as few passes as the buffer allows. */
    method EmitBatch(count: nat, auction: bool) returns (passes: nat)
      requires batch.Length > 0
      modifies this`generated, this`published, batch
      ensures generated == old(generated) + count
      ensures published == old(published) + Stretch(tape, old(generated), count, auction)
      ensures Covered(count, passes, batch.Length, count)
    {
      var emitted := 0;
      passes := 0;
      while emitted < count
        invariant emitted <= count && generated == old(generated) + emitted
        invariant Covered(emitted, passes, batch.Length, count)
        invariant published == old(published) + Stretch(tape, old(generated), emitted, auction)
      {
        var take := if count - emitted < batch.Length then count - emitted else batch.Length;
        Pass(take, auction);
        StretchesJoin(tape, old(generated), emitted, take, auction);
        OneMorePass(emitted, passes, batch.Length, count);
        emitted := emitted + take;
        passes := passes + 1;
      }
    }

    /** Moves the clock on and asks it for the rate. */
    method RateAt(now: int, zonedTimeOfDay: int) returns (rate: real)
      requires Valid()
      modifies clock
      ensures Valid() && 0.0 <= rate <= options.maxEventsPerSecond
      ensures clock.InForce(now, zonedTimeOfDay, clock.currentPhase, clock.currentMultiplier)
      ensures rate == ClampedRate(options.baseEventsPerSecond, clock.currentMultiplier, options.maxEventsPerSecond)
    {
      var changed := clock.Advance(now, zonedTimeOfDay);
      rate := clock.EffectiveEventsPerSecond(options.baseEventsPerSecond);
    }

    /** One turn of the loop: publishes exactly the records the governor says are due, and in a single pass unless
        the buffer's size was cut short by its ceiling. */
    method RunOnce(now: int, zonedTimeOfDay: int, first: int, reading: int, woken: int)
      returns (count: nat, passes: nat)
      requires Valid()
      modifies this`generated, this`published, batch, governor, clock
      ensures Valid() && governor.log != [] && governor.log[..|governor.log| - 1] == old(governor.log)
      ensures count == governor.log[|governor.log| - 1].emitted
      ensures clock.InForce(now, zonedTimeOfDay, clock.currentPhase, clock.currentMultiplier)
      ensures governor.log[|governor.log| - 1].rate
           == ClampedRate(options.baseEventsPerSecond, clock.currentMultiplier, options.maxEventsPerSecond)
      ensures generated == old(generated) + count
      ensures published == old(published) + Stretch(tape, old(generated), count, IsAuctionPhase(clock.currentPhase))
      ensures options.WithCatchUp() <= MAX_BATCH_CAPACITY as real ==> passes <= 1
    {
      var rate := RateAt(now, zonedTimeOfDay);
      count := Due(rate, first, reading, woken);
      passes := 0;
      if count == 0 {
        return;
      }
      passes := EmitBatch(count, IsAuctionPhase(clock.currentPhase));
      if count <= batch.Length {
        OnePass(passes, batch.Length, count);
      }
    }

    /** Asks the governor for the batch and keeps its debt below one event. */
    method Due(rate: real, first: int, reading: int, woken: int) returns (count: nat)
      requires Valid() && 0.0 <= rate <= options.maxEventsPerSecond
      modifies governor
      ensures Valid() && governor.log != [] && governor.log[..|governor.log| - 1] == old(governor.log)
      ensures count == governor.log[|governor.log| - 1].emitted && governor.log[|governor.log| - 1].rate == rate
      ensures options.WithCatchUp() <= MAX_BATCH_CAPACITY as real ==> count <= batch.Length
    {
      ghost var owed := governor.owed;
      var answer := governor.WaitForNextBatch(rate, first, reading, woken);
      BatchFitsBuffer(options, governor.interval, owed, governor.log[|governor.log| - 1]);
      count := answer.events;
    }
  }

  lemma BatchFitsBuffer(o: SessionOptions, interval: nat, owed: real, b: Batch)
    requires o.Valid() && interval == o.batchIntervalMs * 10_000
    requires 0.0 <= b.rate <= o.maxEventsPerSecond && b.intervals <= 1 + o.maxCatchUpBatches
    requires owed >= 0.0 && b.due == owed + Earned(b.rate, b.intervals, interval) && b.due >= 0.0
    requires b.emitted == Governor.WholeEvents(b.due)
    ensures o.WithCatchUp() <= MAX_BATCH_CAPACITY as real && owed < 1.0 ==>
      b.emitted <= BatchCapacity(o) && b.due - b.emitted as real < 1.0
  {
    EarnedIsNatural(b.rate, b.intervals, interval);
    EarnedWithinCatchUp(o, b.rate, b.intervals);
    if o.WithCatchUp() <= MAX_BATCH_CAPACITY as real && owed < 1.0 {
      DebtFitsOnePass(o, owed, Earned(b.rate, b.intervals, interval));
    }
  }

  lemma OnePass(passes: nat, capacity: nat, count: nat)
    requires 0 < count <= capacity && Covered(count, passes, capacity, count)
    ensures passes <= 1
  {
    if passes > 1 {
      MonotoneNat(1, passes - 1, capacity);
    }
  }

  lemma MonotoneNat(a: nat, b: nat, k: nat)
    requires a <= b
    ensures a * k <= b * k
  {
  }
}

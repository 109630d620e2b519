/** Which phase of the day is in force, and the rate it asks for. Time is in 100 ns ticks. */
module MarketSessionClock {
  import opened Divisibility

  datatype Phase = Closed | PreOpen | OpeningAuction | ContinuousMorning | MiddayLull | ContinuousAfternoon
    | ClosingAuction

  datatype Window = Window(phase: Phase, start: int, end: int, multiplier: real)

  datatype Mode = Continuous | CompressedDay | RealTime

  predicate Covers(w: Window, timeOfDay: int) {
    w.start <= timeOfDay < w.end
  }

  /** The first window that covers the time, if any. */
  ghost predicate FirstCovering(windows: seq<Window>, timeOfDay: int, i: nat) {
    i < |windows| && Covers(windows[i], timeOfDay) && forall j | 0 <= j < i :: !Covers(windows[j], timeOfDay)
  }

  ghost predicate Resolves(windows: seq<Window>, timeOfDay: int, phase: Phase, multiplier: real) {
    || (exists i: nat :: FirstCovering(windows, timeOfDay, i)
          && phase == windows[i].phase && multiplier == windows[i].multiplier)
    || ((forall j | 0 <= j < |windows| :: !Covers(windows[j], timeOfDay)) && phase == Closed && multiplier == 0.0)
  }

  method LookUp(windows: seq<Window>, timeOfDay: int) returns (phase: Phase, multiplier: real)
    ensures Resolves(windows, timeOfDay, phase, multiplier)
  {
    for i := 0 to |windows|
      invariant forall j | 0 <= j < i :: !Covers(windows[j], timeOfDay)
    {
      if timeOfDay >= windows[i].start && timeOfDay < windows[i].end {
        assert FirstCovering(windows, timeOfDay, i);
        return windows[i].phase, windows[i].multiplier;
      }
    }
    return Closed, 0.0;
  }

  /** The remainder that takes the sign of the dividend. */
  function TruncatedRem(a: int, b: nat): int
    requires b > 0
  {
    if a >= 0 then a % b else -((-a) % b)
  }

  /** A part of a whole scaled to another length, in whole ticks. */
  function Scaled(part: nat, whole: nat, span: nat): int
    requires whole > 0
  {
    (part as real / whole as real * span as real).Floor
  }

  /** The largest whole number that is no more of `span` than `part` is of `whole`. */
  predicate IsShare(t: int, part: nat, whole: nat, span: nat) {
    t * whole <= part * span < (t + 1) * whole
  }

  /** The session's opening and length, and how one compressed cycle is divided. */
  datatype Cycle = Cycle(sessionStart: int, sessionSpan: nat, length: nat, closed: nat) {
    predicate Valid() { closed < length }

    /** Where `elapsed` ticks after the anchor fall in the session; one tick before it opens when it is closed. */
    function TimeAt(elapsed: int): int
      requires Valid()
    {
      var position := elapsed % length;
      if position < closed then sessionStart - 1
      else sessionStart + Scaled(position - closed, length - closed, sessionSpan)
    }

    /** How far into the session a reading is said to be: the largest whole number of ticks that is no more of the
        session's length than the reading is of the open stretch. */
    lemma MapIsLinear(elapsed: int)
      requires Valid() && elapsed % length >= closed
      ensures IsShare(TimeAt(elapsed) - sessionStart, elapsed % length - closed, length - closed, sessionSpan)
    {
      ScaledIsShare(elapsed % length - closed, length - closed, sessionSpan);
    }

    /** The session opens with the stretch, and later readings of a cycle never give earlier times. */
    lemma MapIsMonotone(earlier: int, later: int)
      requires Valid() && closed <= earlier % length <= later % length
      ensures TimeAt(earlier) <= TimeAt(later)
      ensures earlier % length == closed ==> TimeAt(earlier) == sessionStart
    {
      MapIsLinear(earlier);
      MapIsLinear(later);
      SharesInOrder(earlier % length - closed, later % length - closed, length - closed, sessionSpan,
                    TimeAt(earlier) - sessionStart, TimeAt(later) - sessionStart);
      if earlier % length == closed {
        NoShare(length - closed, sessionSpan, TimeAt(earlier) - sessionStart);
      }
    }

    /** A stretch of the session that is worth at least one tick of the cycle is met by some reading of it. */
    lemma StretchIsMet(from: int, until: int) returns (elapsed: nat)
      requires Valid() && sessionStart <= from < until <= sessionStart + sessionSpan
      requires WorthATick(until - from, length - closed, sessionSpan)
      ensures closed <= elapsed < length && from <= TimeAt(elapsed) < until
    {
      var open := FirstShare(from - sessionStart, until - sessionStart, until - from, length - closed, sessionSpan);
      elapsed := closed + open;
      SmallRemainder(elapsed, length);
      MapIsLinear(elapsed);
      ShareBetween(open, length - closed, sessionSpan, from - sessionStart, until - sessionStart,
                   TimeAt(elapsed) - sessionStart);
    }

    lemma TimeIsInTheSession(elapsed: int)
      requires Valid() && elapsed % length >= closed
      ensures sessionStart <= TimeAt(elapsed)
      ensures sessionSpan > 0 ==> TimeAt(elapsed) < sessionStart + sessionSpan
    {
      var part, whole := (elapsed % length - closed) as real, (length - closed) as real;
      var through := part / whole;
      assert through * whole == part;
      FractionOf(through, whole, part, sessionSpan as real);
    }

    lemma Repeats(elapsed: int)
      requires Valid()
      ensures TimeAt(elapsed + length) == TimeAt(elapsed)
    {
      SameRemainder(elapsed, length);
    }
  }

  lemma ScaledIsShare(part: nat, whole: nat, span: nat)
    requires whole > 0
    ensures IsShare(Scaled(part, whole, span), part, whole, span)
  {
    var share := part as real / whole as real;
    assert share * whole as real == part as real;
    Reordered(share, whole as real, part as real, span as real);
    WholeProduct(part, span);
    BetweenProducts(Scaled(part, whole, span), share * span as real, whole, part * span);
  }

  lemma Reordered(share: real, whole: real, part: real, span: real)
    requires share * whole == part
    ensures share * span * whole == part * span
  {
    assert share * span * whole == share * whole * span;
  }

  lemma BetweenProducts(t: int, x: real, whole: nat, product: nat)
    requires t as real <= x < t as real + 1.0 && whole > 0 && x * whole as real == product as real
    ensures t * whole <= product < (t + 1) * whole
  {
    TimesPositive(t as real, x, whole as real);
    TimesPositive(x, (t + 1) as real, whole as real);
    WholeProduct(t, whole);
    WholeProduct(t + 1, whole);
  }

  lemma TimesPositive(a: real, b: real, k: real)
    requires a <= b && k > 0.0
    ensures a * k <= b * k && (a < b ==> a * k < b * k)
  {
    assert (b - a) * k == b * k - a * k;
    if a < b {
      assert (b - a) * k > 0.0;
    }
  }

  lemma WholeProduct(a: int, b: int)
    ensures (a * b) as real == a as real * b as real
  {
  }

  lemma SharesInOrder(a: nat, b: nat, whole: nat, span: nat, t: int, u: int)
    requires whole > 0 && a <= b && IsShare(t, a, whole, span) && IsShare(u, b, whole, span)
    ensures t <= u
  {
    MultiplesInOrder(a, b, span);
    if u + 1 <= t {
      MultiplesInOrder(u + 1, t, whole);
    }
  }

  lemma NoShare(whole: nat, span: nat, t: int)
    requires whole > 0 && IsShare(t, 0, whole, span)
    ensures t == 0
  {
    if t >= 1 {
      MultiplesInOrder(1, t, whole);
    }
    if t + 1 <= 0 {
      MultiplesInOrder(t + 1, 0, whole);
    }
  }

  /** A stretch of that width takes up at least one part of the whole. */
  predicate WorthATick(width: nat, whole: nat, span: nat) {
    width * whole >= span
  }

  predicate Reaches(from: nat, until: nat, part: nat, whole: nat, span: nat) {
    from * whole <= part * span < until * whole
  }

  /** The first part whose share reaches `from`. */
  lemma FirstShare(from: nat, until: nat, width: nat, whole: nat, span: nat) returns (part: nat)
    requires whole > 0 && from < until <= span && width == until - from && WorthATick(width, whole, span)
    ensures part < whole && Reaches(from, until, part, whole, span)
  {
    part := (from * whole + span - 1) / span;
    var rest := (from * whole + span - 1) % span;
    assert from * whole + span - 1 == part * span + rest;
    assert until * whole == from * whole + width * whole;
    MultiplesInOrder(until, span, whole);
    if part >= whole {
      MultiplesInOrder(whole, part, span);
    }
  }

  lemma ShareBetween(part: nat, whole: nat, span: nat, from: nat, until: nat, t: int)
    requires whole > 0 && IsShare(t, part, whole, span) && Reaches(from, until, part, whole, span)
    ensures from <= t < until
  {
    if t + 1 <= from {
      MultiplesInOrder(t + 1, from, whole);
    }
    if until <= t {
      MultiplesInOrder(until, t, whole);
    }
  }

  lemma SmallRemainder(a: nat, n: nat)
    requires a < n
    ensures a % n == a
  {
  }

  lemma SameRemainder(a: int, n: nat)
    requires n > 0
    ensures (a + n) % n == a % n
  {
    var q, r := (a + n) / n, (a + n) % n;
    assert (q - a / n - 1) * n == a % n - r;
    if q != a / n + 1 {
      NonzeroMultiple(q - a / n - 1, n);
    }
  }

  lemma FractionOf(through: real, whole: real, part: real, span: real)
    requires whole > 0.0 && through * whole == part && 0.0 <= part < whole && span >= 0.0
    ensures 0.0 <= through * span && (span > 0.0 ==> through * span < span)
  {
    assert 0.0 <= through < 1.0;
  }

  class MarketSessionClock {
    const mode: Mode
    const windows: seq<Window>
    const cycle: Cycle
    const anchor: int
    const maxEventsPerSecond: real

    var currentPhase: Phase
    var currentMultiplier: real
    var clampLogged: bool

    /** The ceiling is positive, and the session runs from the first window to the last one to end. */
    predicate Valid() {
      && cycle.Valid() && maxEventsPerSecond >= 1.0
      && (forall i | 0 <= i < |windows| :: cycle.sessionStart <= windows[i].start)
    }

    /** The phase and multiplier that are right at `now`; in real time the zone's time of day comes from the
        platform. */
    ghost predicate InForce(now: int, zonedTimeOfDay: int, phase: Phase, multiplier: real)
      requires Valid()
    {
      match mode
      case Continuous => phase == ContinuousMorning && multiplier == 1.0
      case CompressedDay => Resolves(windows, cycle.TimeAt(now - anchor), phase, multiplier)
      case RealTime => Resolves(windows, zonedTimeOfDay, phase, multiplier)
    }

    /** A new clock is already in the phase of its anchor. */
    constructor (mode: Mode, windows: seq<Window>, cycle: Cycle, anchor: int, zonedTimeOfDay: int,
                 maxEventsPerSecond: real)
      requires cycle.Valid() && maxEventsPerSecond >= 1.0
      requires forall i | 0 <= i < |windows| :: cycle.sessionStart <= windows[i].start
      ensures Valid() && this.maxEventsPerSecond == maxEventsPerSecond && !clampLogged
      ensures InForce(anchor, zonedTimeOfDay, currentPhase, currentMultiplier)
    {
      this.mode, this.windows, this.cycle, this.anchor := mode, windows, cycle, anchor;
      this.maxEventsPerSecond := maxEventsPerSecond;
      clampLogged := false;
      new;
      currentPhase, currentMultiplier := Resolve(anchor, zonedTimeOfDay);
    }

    method Resolve(now: int, zonedTimeOfDay: int) returns (phase: Phase, multiplier: real)
      requires Valid()
      ensures InForce(now, zonedTimeOfDay, phase, multiplier)
    {
      match mode {
        case Continuous =>
          return ContinuousMorning, 1.0;
        case CompressedDay =>
          var t := CompressedTimeOfDay(now);
          phase, multiplier := LookUp(windows, t);
        case RealTime =>
          phase, multiplier := LookUp(windows, zonedTimeOfDay);
      }
    }

    /** Maps a clock reading onto the compressed cycle. */
    method CompressedTimeOfDay(now: int) returns (t: int)
      requires Valid()
      ensures t == cycle.TimeAt(now - anchor)
    {
      var position := TruncatedRem(now - anchor, cycle.length);
      TruncatedIsFloored(now - anchor, cycle.length);
      if position < 0 {
        position := position + cycle.length;
      }
      if position < cycle.closed {
        return cycle.sessionStart - 1;
      }
      var through := (position - cycle.closed) as real / (cycle.length - cycle.closed) as real;
      t := cycle.sessionStart + (through * cycle.sessionSpan as real).Floor;
    }

    /** Moves the session to `now`, and says whether that changed its phase. */
    method Advance(now: int, zonedTimeOfDay: int) returns (changed: bool)
      requires Valid()
      modifies this`currentPhase, this`currentMultiplier, this`clampLogged
      ensures InForce(now, zonedTimeOfDay, currentPhase, currentMultiplier)
      ensures mode.Continuous? ==> currentPhase == ContinuousMorning && currentMultiplier == 1.0
      ensures changed <==> currentPhase != old(currentPhase)
      ensures clampLogged == (old(clampLogged) && !changed)
    {
      var phase, multiplier := Resolve(now, zonedTimeOfDay);
      currentMultiplier := multiplier;
      changed := phase != currentPhase;
      if changed {
        currentPhase := phase;
        clampLogged := false;
      }
    }

    /** What a base rate comes to under the multiplier in force, between zero and the ceiling whatever is asked for. */
    method EffectiveEventsPerSecond(baseRate: real) returns (rate: real)
      requires Valid()
      modifies this`clampLogged
      ensures 0.0 <= rate <= maxEventsPerSecond
      ensures baseRate <= 0.0 || baseRate * currentMultiplier < 0.0 ==> rate == 0.0
      ensures baseRate > 0.0 && 0.0 <= baseRate * currentMultiplier <= maxEventsPerSecond ==>
        rate == baseRate * currentMultiplier
      ensures baseRate > 0.0 && baseRate * currentMultiplier > maxEventsPerSecond ==>
        rate == maxEventsPerSecond && clampLogged
    {
      if baseRate <= 0.0 {
        return 0.0;
      }
      var requested := baseRate * currentMultiplier;
      if requested > maxEventsPerSecond {
        clampLogged := true;
        return maxEventsPerSecond;
      }
      rate := if requested < 0.0 then 0.0 else requested;
    }

    /** A window of the session that is worth at least one tick of the cycle, and that no earlier window overlaps, is in
        force at some reading of it. */
    lemma WindowIsInForce(i: nat) returns (now: int)
      requires Valid() && mode == CompressedDay && i < |windows| && windows[i].start < windows[i].end
      requires windows[i].end <= cycle.sessionStart + cycle.sessionSpan
      requires WorthATick(windows[i].end - windows[i].start, cycle.length - cycle.closed, cycle.sessionSpan)
      requires forall j | 0 <= j < i :: windows[j].end <= windows[i].start || windows[i].end <= windows[j].start
      ensures anchor + cycle.closed <= now < anchor + cycle.length
      ensures forall phase, multiplier, zoned ::
        InForce(now, zoned, phase, multiplier) ==> phase == windows[i].phase && multiplier == windows[i].multiplier
    {
      var elapsed := cycle.StretchIsMet(windows[i].start, windows[i].end);
      now := anchor + elapsed;
      assert now - anchor == elapsed;
      assert FirstCovering(windows, cycle.TimeAt(elapsed), i);
    }

    /** The leading stretch of every compressed cycle reads as closed. */
    lemma ClosedStretchIsClosed(now: int, phase: Phase, multiplier: real)
      requires Valid() && (now - anchor) % cycle.length < cycle.closed
      requires Resolves(windows, cycle.TimeAt(now - anchor), phase, multiplier)
      ensures phase == Closed && multiplier == 0.0
    {
      assert forall i | 0 <= i < |windows| :: !Covers(windows[i], cycle.TimeAt(now - anchor));
    }
  }

  /** A truncated remainder brought up by the divisor when negative is the floored one. */
  lemma TruncatedIsFloored(a: int, b: nat)
    requires b > 0
    ensures TruncatedRem(a, b) + (if TruncatedRem(a, b) < 0 then b else 0) == a % b
  {
    if a < 0 {
      var t := TruncatedRem(a, b);
      var r := if t < 0 then t + b else t;
      var k := (-a) / b + (if t < 0 then 1 else 0);
      assert (-a) == (-a) / b * b - t;
      assert a == (-k) * b + r;
      assert (a / b + k) * b == r - a % b;
      if a / b + k != 0 {
        NonzeroMultiple(a / b + k, b);
      }
    }
  }
}

/** One instrument's walk: the state it carries, a session reset, one event, and what every event keeps. */
module SymbolWalk {
  import opened BoundedDraw
  import opened Bytes
  import opened Divisibility

  const COIN_HALF: nat := 0x8000_0000
  const LONG_MAX: nat := 0x7fff_ffff_ffff_ffff
  const BASIS_POINTS: nat := 10_000

  // ---- configuration and state ----

  /** The generator's options, with probabilities already in units of 2^-32. */
  datatype Settings = Settings(
    maxTickMove: nat, bandBasisPoints: nat, reversionStrength: nat,
    minSpreadTicks: nat, maxSpreadTicks: nat,
    minLots: nat, maxLots: nat, blockMinLots: nat, blockMaxLots: nat,
    blockThreshold: nat, tradeThreshold: nat, bidThreshold: nat)
  {
    /** What the options are checked for before a generator is built. */
    predicate Validated() {
      && maxTickMove < 0x7fff_ffff && 1 <= bandBasisPoints <= BASIS_POINTS
      && reversionStrength <= TWO_32 && blockThreshold <= TWO_32
      && 1 <= minSpreadTicks <= maxSpreadTicks
      && 1 <= minLots <= maxLots && 1 <= blockMinLots <= blockMaxLots
    }
  }

  /** Reference data, already scaled. */
  datatype Definition = Definition(tick: nat, price: nat, lotSize: nat)

  datatype SymbolState = SymbolState(
    mid: int, lastTrade: int, bid: int, ask: int,
    reference: int, lower: int, upper: int,
    span: int, multiplier: nat,
    tick: nat, lotSize: nat, tradesToday: uint32)

  /** The 32-bit halves of the draws one event makes; `step` is used by trades alone. */
  datatype Draws = Draws(move: uint32, coin: uint32, width: uint32, kind: uint32, lots: uint32, block: uint32,
                         step: uint32)

  datatype Kind = Trade | BidQuote | AskQuote

  datatype TapeEvent = TapeEvent(kind: Kind, price: int, quantity: uint32)

  predicate AllOnGrid(s: SymbolState) {
    && s.tick >= 1
    && OnGrid(s.mid, s.tick) && OnGrid(s.reference, s.tick) && OnGrid(s.lower, s.tick) && OnGrid(s.upper, s.tick)
  }

  /** The mid and the anchor lie in a band wide enough for any quote; the anchor is its centre unless the band
      was pushed up to stay positive. */
  predicate Banded(s: SymbolState, o: Settings) {
    && 1 <= s.tick <= s.lower <= s.mid <= s.upper && s.lower <= s.reference <= s.lower + s.span
    && s.upper == s.lower + 2 * s.span && s.span > 0 && s.span >= o.maxSpreadTicks * s.tick
    && (s.reference == s.lower + s.span || s.lower == s.tick)
    && s.multiplier == LONG_MAX / s.span
  }

  /** What every reset establishes and every event keeps. */
  predicate Sound(s: SymbolState, o: Settings) {
    o.Validated() && AllOnGrid(s) && Banded(s, o)
  }

  // ---- arithmetic ----

  function Max(a: int, b: int): int {
    if a >= b then a else b
  }

  function Min(a: int, b: int): int {
    if a <= b then a else b
  }

  function Clamp(x: int, low: int, high: int): int {
    Max(low, Min(x, high))
  }

  /** Rounds a price to the nearest tick, never below one tick. */
  function SnapToTick(price: nat, tick: nat): (r: int)
    requires tick > 0
    ensures r >= tick
    ensures price + tick / 2 < tick ==> r == tick
    ensures price + tick / 2 >= tick ==> price + tick / 2 - tick < r <= price + tick / 2
  {
    var ticks := (price + tick / 2) / tick;
    assert ticks >= 1 ==> ticks * tick >= tick;
    Max(1, ticks) * tick
  }

  lemma SnapIsOnGrid(price: nat, tick: nat)
    requires tick > 0
    ensures OnGrid(SnapToTick(price, tick), tick)
  {
    MultipleOnGrid(Max(1, (price + tick / 2) / tick), tick);
  }

  // ---- opening a session ----

  /** Half the band: the given share of the anchor in whole ticks, but never narrower than the widest quote. */
  function Span(anchor: nat, tick: nat, o: Settings): nat
    requires tick > 0
  {
    Max(anchor * o.bandBasisPoints / BASIS_POINTS / tick * tick, o.maxSpreadTicks * tick)
  }

  /** The state a reset leaves: a band of twice the half-width around the anchor, pushed up if it would reach
      below one tick. */
  function Opened(d: Definition, anchor: nat, o: Settings): SymbolState
    requires d.tick > 0 && o.Validated()
  {
    var span := Span(anchor, d.tick, o);
    assert o.maxSpreadTicks * d.tick > 0;
    var lower := Max(anchor - span, d.tick);
    SymbolState(anchor, anchor, anchor - d.tick, anchor + d.tick, anchor, lower, lower + 2 * span, span,
                LONG_MAX / span, d.tick, d.lotSize, 0)
  }

  /** The half-width is the share of the anchor in basis points, cut to whole ticks, unless the widest quote needs more
      than that. */
  lemma SpanIsTheShare(anchor: nat, tick: nat, o: Settings)
    requires tick > 0
    ensures var span, widest := Span(anchor, tick, o), o.maxSpreadTicks * tick;
      && span >= widest && OnGrid(span, tick)
      && (span > widest ==> span * 10_000 <= anchor * o.bandBasisPoints < (span + tick) * 10_000)
      && (span == widest ==> anchor * o.bandBasisPoints < (span + tick) * 10_000)
  {
    SpanOnGrid(anchor, tick, o);
    CutTwice(anchor * o.bandBasisPoints, tick);
  }

  lemma CutTwice(product: nat, tick: nat)
    requires tick > 0
    ensures var cut := product / BASIS_POINTS / tick * tick;
      cut * 10_000 <= product < (cut + tick) * 10_000
  {
    var share := product / BASIS_POINTS;
    assert share == share / tick * tick + share % tick;
  }

  lemma SpanOnGrid(anchor: nat, tick: nat, o: Settings)
    requires tick > 0
    ensures OnGrid(Span(anchor, tick, o), tick) && Span(anchor, tick, o) >= o.maxSpreadTicks * tick
  {
    MultipleOnGrid(anchor * o.bandBasisPoints / BASIS_POINTS / tick, tick);
    MultipleOnGrid(o.maxSpreadTicks, tick);
  }

  lemma BandOnGrid(anchor: nat, span: nat, tick: nat)
    requires tick > 0 && OnGrid(anchor, tick) && OnGrid(span, tick)
    ensures OnGrid(Max(anchor - span, tick), tick) && OnGrid(Max(anchor - span, tick) + 2 * span, tick)
  {
    MultipleOnGrid(1, tick);
    OnGridSum(anchor, span, tick);
    OnGridSum(span, span, tick);
    OnGridSum(Max(anchor - span, tick), span + span, tick);
  }

  lemma OpenedIsOnGrid(d: Definition, anchor: nat, o: Settings)
    requires d.tick > 0 && o.Validated() && OnGrid(anchor, d.tick)
    ensures AllOnGrid(Opened(d, anchor, o))
  {
    SpanOnGrid(anchor, d.tick, o);
    BandOnGrid(anchor, Span(anchor, d.tick, o), d.tick);
  }

  lemma OpenedIsBanded(d: Definition, anchor: nat, o: Settings)
    requires d.tick > 0 && o.Validated() && anchor >= d.tick
    ensures Banded(Opened(d, anchor, o), o)
  {
    SpanOnGrid(anchor, d.tick, o);
    AtLeastOneTick(o.maxSpreadTicks, d.tick);
    BandHolds(anchor, Span(anchor, d.tick, o), d.tick);
  }

  lemma AtLeastOneTick(ticks: nat, tick: nat)
    requires ticks >= 1
    ensures ticks * tick >= tick
  {
    assert (ticks - 1) * tick >= 0;
  }

  /** A band around an anchor of at least one tick, pushed up where it must be. */
  lemma BandHolds(anchor: nat, span: nat, tick: nat)
    requires anchor >= tick >= 1
    ensures var lower := Max(anchor - span, tick);
      tick <= lower <= anchor <= lower + span && (anchor == lower + span || lower == tick)
  {
  }

  lemma OpenedIsSound(d: Definition, anchor: nat, o: Settings)
    requires d.tick > 0 && o.Validated() && OnGrid(anchor, d.tick) && anchor >= d.tick
    ensures Sound(Opened(d, anchor, o), o)
  {
    OpenedIsOnGrid(d, anchor, o);
    OpenedIsBanded(d, anchor, o);
  }

  // ---- mean reversion in fixed point ----

  function Abs(x: int): nat {
    if x >= 0 then x else -x
  }

  function Deviation(s: SymbolState): int {
    s.mid - s.reference
  }

  /** The deviation as a fraction of the span, in units of 2^-31, at most one. */
  function Pull(deviation: nat, multiplier: nat): nat {
    Min(deviation * multiplier / TWO_32, COIN_HALF)
  }

  /** How many of the 2^32 coins move the price back towards its anchor. */
  function TowardThreshold(deviation: nat, multiplier: nat, strength: nat): nat {
    COIN_HALF + Pull(deviation, multiplier) * strength / TWO_32
  }

  function Toward(s: SymbolState, o: Settings): nat {
    TowardThreshold(Abs(Deviation(s)), s.multiplier, o.reversionStrength)
  }

  /** The deviation may be twice the span, and even then no product leaves 64 bits. */
  lemma ReversionNeverOverflows(s: SymbolState, o: Settings)
    requires Sound(s, o)
    ensures Abs(Deviation(s)) <= 2 * s.span
    ensures Abs(Deviation(s)) * s.multiplier < 0x1_0000_0000_0000_0000
    ensures Pull(Abs(Deviation(s)), s.multiplier) * o.reversionStrength < 0x1_0000_0000_0000_0000
    ensures COIN_HALF <= Toward(s, o) <= TWO_32
  {
    TwiceTheSpanFits(Abs(Deviation(s)), s.span);
    CoinsInRange(Abs(Deviation(s)), s.multiplier, o.reversionStrength);
  }

  lemma TwiceTheSpanFits(deviation: nat, span: nat)
    requires 0 < span && deviation <= 2 * span
    ensures deviation * (LONG_MAX / span) < 0x1_0000_0000_0000_0000
  {
    var m := LONG_MAX / span;
    SmallProduct(deviation, m, 2 * span, m);
    assert span * m <= LONG_MAX;
    assert 2 * span * m == 2 * (span * m);
  }

  lemma CoinsInRange(deviation: nat, multiplier: nat, strength: nat)
    requires strength <= TWO_32
    ensures Pull(deviation, multiplier) * strength <= COIN_HALF * TWO_32
    ensures COIN_HALF <= TowardThreshold(deviation, multiplier, strength) <= TWO_32
  {
    var p := Pull(deviation, multiplier);
    SmallProduct(p, strength, COIN_HALF, TWO_32);
    HighWordBound(p * strength, COIN_HALF);
  }

  lemma HighWordBound(x: nat, bound: nat)
    requires x <= bound * TWO_32
    ensures x / TWO_32 <= bound
  {
  }

  lemma SmallProduct(a: nat, b: nat, maxA: nat, maxB: nat)
    requires a <= maxA && b <= maxB
    ensures a * b <= maxA * maxB
  {
    assert a * b <= maxA * b <= maxA * maxB;
  }

  /** The further the price has gone, the likelier it comes back. */
  lemma ReversionGrows(near: nat, far: nat, multiplier: nat, strength: nat)
    requires near <= far
    ensures TowardThreshold(near, multiplier, strength) <= TowardThreshold(far, multiplier, strength)
  {
    SmallProduct(near, multiplier, far, multiplier);
    assert Pull(near, multiplier) <= Pull(far, multiplier);
    SmallProduct(Pull(near, multiplier), strength, Pull(far, multiplier), strength);
  }

  /** The reciprocal never pulls harder than the exact fraction, and on prices below 2^32 falls short of it by
      at most two units of 2^-31. */
  lemma PullIsTheFraction(deviation: nat, span: nat)
    requires 0 < span <= LONG_MAX && deviation <= span
    ensures Pull(deviation, LONG_MAX / span) * span <= deviation * COIN_HALF
    ensures deviation < TWO_32 ==> deviation * COIN_HALF <= (Pull(deviation, LONG_MAX / span) + 2) * span
    ensures Pull(deviation, LONG_MAX / span) < COIN_HALF
  {
    var m := LONG_MAX / span;
    var p := deviation * m / TWO_32;
    SmallProduct(deviation, m, span, m);
    assert p < COIN_HALF;
    ScaledPull(deviation, span, m, p, deviation * m % TWO_32);
  }

  lemma ScaledPull(deviation: nat, span: nat, m: nat, p: nat, rest: nat)
    requires 0 < span <= LONG_MAX && LONG_MAX - span < m * span <= LONG_MAX
    requires deviation * m == p * TWO_32 + rest && rest < TWO_32
    ensures p * span <= deviation * COIN_HALF
    ensures deviation < TWO_32 ==> deviation * COIN_HALF <= (p + 2) * span
  {
    ScaledSides(deviation, span, m, p, rest);
    SmallProduct(rest, span, TWO_32, span);
    PulledProduct(deviation, span, m * span);
    Unscale(deviation * COIN_HALF, deviation * span, deviation * (m * span), p * span, rest * span, span);
    if deviation < TWO_32 {
      SmallProduct(deviation, span, TWO_32, span);
    }
  }

  lemma PulledProduct(deviation: nat, span: nat, whole: nat)
    requires span <= LONG_MAX && LONG_MAX - span < whole <= LONG_MAX
    ensures deviation * COIN_HALF * TWO_32 - deviation * span <= deviation * whole <= deviation * COIN_HALF * TWO_32
  {
    SmallProduct(deviation, whole, deviation, LONG_MAX + 1);
    SmallProduct(deviation, LONG_MAX + 1 - span, deviation, whole);
    assert deviation * (LONG_MAX + 1 - span) == deviation * (LONG_MAX + 1) - deviation * span;
  }

  lemma Unscale(ideal: nat, slack: nat, product: nat, pulled: nat, rest: nat, span: nat)
    requires ideal * TWO_32 - slack <= product <= ideal * TWO_32 && product == pulled * TWO_32 + rest
    requires rest <= TWO_32 * span && span > 0
    ensures pulled <= ideal
    ensures slack <= TWO_32 * span ==> ideal <= pulled + 2 * span
  {
  }

  lemma ScaledSides(deviation: nat, span: nat, m: nat, p: nat, rest: nat)
    requires deviation * m == p * TWO_32 + rest
    ensures deviation * (m * span) == p * span * TWO_32 + rest * span
  {
    assert deviation * (m * span) == (deviation * m) * span;
    assert (p * TWO_32 + rest) * span == p * TWO_32 * span + rest * span;
  }
}

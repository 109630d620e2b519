/** One event of the walk, as a function of the state and the draws, and what holds of every event. */
module WalkStep {
  import opened BoundedDraw
  import opened Divisibility
  import opened Bytes
  import opened SymbolWalk

  // ---- the walk ----

  /** At or below the anchor, back towards it is up; above it, down. */
  predicate MovesUp(s: SymbolState, o: Settings, coin: uint32) {
    (coin < Toward(s, o)) != (Deviation(s) > 0)
  }

  function Move(s: SymbolState, o: Settings, d: Draws): (m: nat)
    ensures m <= o.maxTickMove
  {
    Lemire(d.move, o.maxTickMove + 1)
  }

  /** Where the walk would go with no band. */
  function Unbanded(s: SymbolState, o: Settings, d: Draws): int {
    if MovesUp(s, o, d.coin) then s.mid + Move(s, o, d) * s.tick else s.mid - Move(s, o, d) * s.tick
  }

  function NextMid(s: SymbolState, o: Settings, d: Draws): int {
    Clamp(Unbanded(s, o, d), s.lower, s.upper)
  }

  // ---- the quote ----

  function SpreadTicks(o: Settings, d: Draws): (t: nat)
    requires o.Validated()
    ensures o.minSpreadTicks <= t <= o.maxSpreadTicks
  {
    o.minSpreadTicks + Lemire(d.width, o.maxSpreadTicks - o.minSpreadTicks + 1)
  }

  /** The nearest bid to "half the spread, rounded up, below the mid" that leaves both sides in the band. */
  function NextBid(s: SymbolState, mid: int, spread: nat): int {
    Clamp(mid - (spread + 1) / 2 * s.tick, s.lower, s.upper - spread * s.tick)
  }

  // ---- what is emitted ----

  function Lots(o: Settings, d: Draws): (lots: nat)
    requires o.Validated()
    ensures if d.block < o.blockThreshold then o.blockMinLots <= lots <= o.blockMaxLots
            else o.minLots <= lots <= o.maxLots
  {
    if d.block < o.blockThreshold then o.blockMinLots + Lemire(d.lots, o.blockMaxLots - o.blockMinLots + 1)
    else o.minLots + Lemire(d.lots, o.maxLots - o.minLots + 1)
  }

  /** The quantity as the record's 32-bit field holds it. */
  function Quantity(s: SymbolState, o: Settings, d: Draws): uint32
    requires o.Validated()
  {
    Lots(o, d) * s.lotSize % TWO_32
  }

  /** The quantity is the drawn number of lots exactly when the order fits the field; when it wraps, it is still a
      whole number of lots exactly when what wrapped away is. */
  lemma QuantityIsWholeLotsExactlyWhen(s: SymbolState, o: Settings, d: Draws)
    requires o.Validated() && s.lotSize > 0
    ensures var order := Lots(o, d) * s.lotSize;
      && (Quantity(s, o, d) == order <==> order < TWO_32)
      && (OnGrid(Quantity(s, o, d), s.lotSize) <==> OnGrid(order / TWO_32 * TWO_32, s.lotSize))
  {
    var order := Lots(o, d) * s.lotSize;
    MultipleOnGrid(Lots(o, d), s.lotSize);
    WrappedOnGrid(order, order / TWO_32 * TWO_32, Quantity(s, o, d), s.lotSize);
  }

  lemma WrappedOnGrid(order: nat, wrapped: nat, left: nat, lot: nat)
    requires lot > 0 && OnGrid(order, lot) && order == wrapped + left
    ensures OnGrid(left, lot) <==> OnGrid(wrapped, lot)
  {
    if OnGrid(left, lot) {
      OnGridSum(order, left, lot);
    }
    if OnGrid(wrapped, lot) {
      OnGridSum(order, wrapped, lot);
    }
  }

  function KindOf(o: Settings, coin: uint32): Kind {
    if coin < o.tradeThreshold then Trade else if coin < o.bidThreshold then BidQuote else AskQuote
  }

  function Emitted(s: SymbolState, o: Settings, d: Draws): TapeEvent
    requires o.Validated()
  {
    var spread := SpreadTicks(o, d);
    var bid := NextBid(s, NextMid(s, o, d), spread);
    var kind := KindOf(o, d.kind);
    var price := match kind
      case Trade => bid + Lemire(d.step, spread + 1) * s.tick
      case BidQuote => bid
      case AskQuote => bid + spread * s.tick;
    TapeEvent(kind, price, Quantity(s, o, d))
  }

  function After(s: SymbolState, o: Settings, d: Draws): SymbolState
    requires o.Validated()
  {
    var mid, spread := NextMid(s, o, d), SpreadTicks(o, d);
    var bid := NextBid(s, mid, spread);
    var e := Emitted(s, o, d);
    s.(mid := mid, bid := bid, ask := bid + spread * s.tick,
       lastTrade := if e.kind.Trade? then e.price else s.lastTrade,
       tradesToday := if e.kind.Trade? then (s.tradesToday + 1) % TWO_32 else s.tradesToday)
  }

  // ---- what every event keeps ----

  lemma ClampKeepsGrid(x: int, low: int, high: int, mid: int, tick: nat)
    requires tick > 0 && OnGrid(x, tick) && OnGrid(low, tick) && OnGrid(high, tick) && low <= mid <= high
    ensures OnGrid(Clamp(x, low, high), tick) && low <= Clamp(x, low, high) <= high
    ensures Abs(Clamp(x, low, high) - mid) <= Abs(x - mid)
  {
  }

  /** The mid stays in the band and on the grid, and moves by at most the configured number of ticks. */
  lemma MidIsContinuous(s: SymbolState, o: Settings, d: Draws)
    requires Sound(s, o)
    ensures s.lower <= NextMid(s, o, d) <= s.upper && OnGrid(NextMid(s, o, d), s.tick)
    ensures Abs(NextMid(s, o, d) - s.mid) <= o.maxTickMove * s.tick
  {
    var m := Move(s, o, d);
    OnGridMoved(s.mid, m, s.tick);
    SmallProduct(m, s.tick, o.maxTickMove, s.tick);
    ClampKeepsGrid(Unbanded(s, o, d), s.lower, s.upper, s.mid, s.tick);
  }

  /** A two-sided quote inside the band, with the spread that was drawn. */
  lemma QuoteFitsTheBand(s: SymbolState, o: Settings, mid: int, spread: nat)
    requires Sound(s, o) && s.lower <= mid <= s.upper && OnGrid(mid, s.tick) && 1 <= spread <= o.maxSpreadTicks
    ensures var bid := NextBid(s, mid, spread);
      s.lower <= bid < bid + spread * s.tick <= s.upper && OnGrid(bid, s.tick)
  {
    SmallProduct(spread, s.tick, o.maxSpreadTicks, s.tick);
    SmallProduct(1, s.tick, spread, s.tick);
    OnGridMoved(mid, (spread + 1) / 2, s.tick);
    OnGridMoved(s.upper, spread, s.tick);
  }

  /** The quote is always around the mid. Where the band has room for it the mid is in its middle, the odd tick
      below; where it has not, the quote stands at the edge. */
  lemma QuoteSurroundsMid(s: SymbolState, o: Settings, mid: int, spread: nat)
    requires Sound(s, o) && s.lower <= mid <= s.upper && 1 <= spread <= o.maxSpreadTicks
    ensures var bid := NextBid(s, mid, spread);
      var ask := bid + spread * s.tick;
      && bid <= mid <= ask
      && (bid > s.lower && ask < s.upper ==>
            (mid - bid) - (ask - mid) == if spread % 2 == 0 then 0 else s.tick)
      && (bid == s.lower ==> mid - bid <= (spread + 1) / 2 * s.tick)
      && (ask == s.upper ==> ask - mid <= spread / 2 * s.tick)
  {
    SmallProduct(spread, s.tick, o.maxSpreadTicks, s.tick);
    Halves(spread, s.tick);
  }

  lemma Halves(spread: nat, tick: nat)
    ensures spread * tick == (spread + 1) / 2 * tick + spread / 2 * tick
    ensures (spread + 1) / 2 * tick - spread / 2 * tick == if spread % 2 == 0 then 0 else tick
  {
    var up, down := (spread + 1) / 2, spread / 2;
    assert spread == up + down && (up == down || up == down + 1);
    TicksApart(up, down, tick);
  }

  lemma TicksApart(up: nat, down: nat, tick: nat)
    requires up == down || up == down + 1
    ensures (up + down) * tick == up * tick + down * tick
    ensures up * tick - down * tick == if up == down then 0 else tick
  {
  }

  /** What a consumer may rely on about every event. */
  ghost predicate Fair(s: SymbolState, e: TapeEvent, bid: int, ask: int) {
    && s.lower <= bid < ask <= s.upper
    && bid <= e.price <= ask && e.price > 0
    && (s.tick > 0 ==> OnGrid(e.price, s.tick))
    && (e.kind.BidQuote? ==> e.price == bid) && (e.kind.AskQuote? ==> e.price == ask)
  }

  lemma EventIsFair(s: SymbolState, o: Settings, d: Draws)
    requires Sound(s, o)
    ensures Fair(s, Emitted(s, o, d), After(s, o, d).bid, After(s, o, d).ask)
  {
    var mid, spread := NextMid(s, o, d), SpreadTicks(o, d);
    MidIsContinuous(s, o, d);
    QuoteFitsTheBand(s, o, mid, spread);
    var bid, k := NextBid(s, mid, spread), Lemire(d.step, spread + 1);
    OnGridMoved(bid, k, s.tick);
    OnGridMoved(bid, spread, s.tick);
    SmallProduct(k, s.tick, spread, s.tick);
  }

  lemma EventKeepsSound(s: SymbolState, o: Settings, d: Draws)
    requires Sound(s, o)
    ensures Sound(After(s, o, d), o)
  {
    MidIsContinuous(s, o, d);
  }

  /** A fair event, and a step of the mid no longer than allowed. */
  ghost predicate FairStep(s: SymbolState, o: Settings, e: TapeEvent, t: SymbolState) {
    Fair(s, e, t.bid, t.ask) && Abs(t.mid - s.mid) <= o.maxTickMove * s.tick
  }

  lemma StepIsFair(s: SymbolState, o: Settings, d: Draws)
    requires Sound(s, o)
    ensures FairStep(s, o, Emitted(s, o, d), After(s, o, d))
  {
    EventIsFair(s, o, d);
    MidIsContinuous(s, o, d);
  }
}

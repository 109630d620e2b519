/** Whole runs of one instrument's walk, over any draws and any number of session resets. */
module WalkRuns {
  import opened BoundedDraw
  import opened Divisibility
  import opened Bytes
  import opened SymbolWalk
  import opened WalkStep

  datatype Input = Reset | Draw(d: Draws)

  /** The first session is anchored at the reference price, later ones where the last one closed. */
  function Step(s: SymbolState, def: Definition, o: Settings, input: Input): (r: SymbolState)
    requires Sound(s, o) && s.tick == def.tick
    ensures Sound(r, o) && r.tick == def.tick
  {
    match input
    case Reset =>
      OpenedIsSound(def, s.mid, o);
      Opened(def, s.mid, o)
    case Draw(d) =>
      EventKeepsSound(s, o, d);
      After(s, o, d)
  }

  function StateAfter(def: Definition, o: Settings, inputs: seq<Input>): (r: SymbolState)
    requires def.tick >= 1 && o.Validated()
    ensures Sound(r, o) && r.tick == def.tick
  {
    if inputs == [] then
      SnapIsOnGrid(def.price, def.tick);
      OpenedIsSound(def, SnapToTick(def.price, def.tick), o);
      Opened(def, SnapToTick(def.price, def.tick), o)
    else
      Step(StateAfter(def, o, inputs[..|inputs| - 1]), def, o, inputs[|inputs| - 1])
  }

  function StateAt(def: Definition, o: Settings, inputs: seq<Input>, k: nat): (r: SymbolState)
    requires def.tick >= 1 && o.Validated() && k <= |inputs|
    ensures Sound(r, o) && r.tick == def.tick
  {
    StateAfter(def, o, inputs[..k])
  }

  function MidAt(def: Definition, o: Settings, inputs: seq<Input>, k: nat): int
    requires def.tick >= 1 && o.Validated() && k <= |inputs|
  {
    StateAt(def, o, inputs, k).mid
  }

  lemma StateAtNext(def: Definition, o: Settings, inputs: seq<Input>, k: nat)
    requires def.tick >= 1 && o.Validated() && k < |inputs|
    ensures StateAt(def, o, inputs, k + 1) == Step(StateAt(def, o, inputs, k), def, o, inputs[k])
  {
    assert inputs[..k + 1][..k] == inputs[..k];
  }

  /** No step, reset or not, moves the mid further than allowed. */
  lemma StepIsShort(s: SymbolState, def: Definition, o: Settings, input: Input, reach: nat)
    requires Sound(s, o) && s.tick == def.tick && reach == o.maxTickMove * def.tick
    ensures Abs(Step(s, def, o, input).mid - s.mid) <= reach
  {
    if input.Draw? {
      MidIsContinuous(s, o, input.d);
    }
  }

  /** Every event of every run is fair. */
  lemma EveryEventIsFair(def: Definition, o: Settings, inputs: seq<Input>, k: nat)
    requires def.tick >= 1 && o.Validated() && k < |inputs| && inputs[k].Draw?
    ensures var s, t := StateAt(def, o, inputs, k), StateAt(def, o, inputs, k + 1);
      Fair(s, Emitted(s, o, inputs[k].d), t.bid, t.ask)
  {
    StateAtNext(def, o, inputs, k);
    EventIsFair(StateAt(def, o, inputs, k), o, inputs[k].d);
  }

  /** A distance that many moves can cover. */
  predicate WithinMoves(first: int, last: int, moves: nat, reach: nat) {
    Abs(last - first) <= moves * reach
  }

  lemma MomentIsShort(def: Definition, o: Settings, inputs: seq<Input>, k: nat, reach: nat)
    requires def.tick >= 1 && o.Validated() && k < |inputs| && reach == o.maxTickMove * def.tick
    ensures Abs(MidAt(def, o, inputs, k + 1) - MidAt(def, o, inputs, k)) <= reach
  {
    StateAtNext(def, o, inputs, k);
    StepIsShort(StateAt(def, o, inputs, k), def, o, inputs[k], reach);
  }

  lemma {:induction false} MovesAddUp(mids: seq<int>, i: nat, j: nat, reach: nat)
    requires i <= j < |mids| && forall k | 0 <= k < |mids| - 1 :: Abs(mids[k + 1] - mids[k]) <= reach
    ensures WithinMoves(mids[i], mids[j], j - i, reach)
    decreases j
  {
    if i < j {
      MovesAddUp(mids, i, j - 1, reach);
      assert Abs(mids[j - 1 + 1] - mids[j - 1]) <= reach;
      OneMoreMove(mids[i], mids[j - 1], mids[j], j - 1 - i, reach);
    }
  }

  lemma OneMoreMove(first: int, middle: int, last: int, n: nat, reach: nat)
    requires WithinMoves(first, middle, n, reach) && Abs(last - middle) <= reach
    ensures WithinMoves(first, last, n + 1, reach)
  {
    assert (n + 1) * reach == n * reach + reach;
  }

  /** Prices walk: between any two moments of a run the mid is at most the configured move per step away. */
  lemma PricesWalk(def: Definition, o: Settings, inputs: seq<Input>, i: nat, j: nat, reach: nat)
    requires def.tick >= 1 && o.Validated() && i <= j <= |inputs| && reach == o.maxTickMove * def.tick
    ensures WithinMoves(MidAt(def, o, inputs, i), MidAt(def, o, inputs, j), j - i, reach)
  {
    var mids := seq(|inputs| + 1, k requires 0 <= k <= |inputs| => MidAt(def, o, inputs, k));
    forall k | 0 <= k < |mids| - 1 ensures Abs(mids[k + 1] - mids[k]) <= reach {
      MomentIsShort(def, o, inputs, k, reach);
    }
    MovesAddUp(mids, i, j, reach);
  }

  // ---- when the band limit is needed ----

  predicate ClampFires(s: SymbolState, o: Settings, d: Draws) {
    Unbanded(s, o, d) < s.lower || Unbanded(s, o, d) > s.upper
  }

  /** Some coin moves the price up. */
  predicate MayRise(s: SymbolState, o: Settings) {
    Deviation(s) <= 0 || Toward(s, o) < TWO_32
  }

  predicate MayFall(s: SymbolState, o: Settings) {
    Deviation(s) > 0 || Toward(s, o) < TWO_32
  }

  /** An edge the coin may move towards is nearer than the largest move. */
  predicate EdgeInReach(s: SymbolState, o: Settings) {
    || (MayRise(s, o) && s.mid + o.maxTickMove * s.tick > s.upper)
    || (MayFall(s, o) && s.mid - o.maxTickMove * s.tick < s.lower)
  }

  lemma HighestDraw(outcomes: nat)
    requires 0 < outcomes <= TWO_32
    ensures Lemire(0xffff_ffff, outcomes) == outcomes - 1
  {
    assert 0xffff_ffff * outcomes == (outcomes - 1) * TWO_32 + (TWO_32 - outcomes);
  }

  lemma RiseCoin(s: SymbolState, o: Settings) returns (coin: uint32)
    requires Sound(s, o) && MayRise(s, o)
    ensures MovesUp(s, o, coin)
  {
    ReversionNeverOverflows(s, o);
    coin := if Deviation(s) <= 0 then 0 else 0xffff_ffff;
  }

  lemma FallCoin(s: SymbolState, o: Settings) returns (coin: uint32)
    requires Sound(s, o) && MayFall(s, o)
    ensures !MovesUp(s, o, coin)
  {
    ReversionNeverOverflows(s, o);
    coin := if Deviation(s) > 0 then 0 else 0xffff_ffff;
  }

  lemma ClampNeedsReach(s: SymbolState, o: Settings, d: Draws)
    requires Sound(s, o) && ClampFires(s, o, d)
    ensures EdgeInReach(s, o)
  {
    SmallProduct(Move(s, o, d), s.tick, o.maxTickMove, s.tick);
  }

  /** Some draws take the walk to the band limit exactly when an edge is in reach. */
  lemma ClampFiresExactlyWhen(s: SymbolState, o: Settings)
    requires Sound(s, o)
    ensures (exists d :: ClampFires(s, o, d)) <==> EdgeInReach(s, o)
  {
    forall d | ClampFires(s, o, d) ensures EdgeInReach(s, o) {
      ClampNeedsReach(s, o, d);
    }
    HighestDraw(o.maxTickMove + 1);
    if MayRise(s, o) && s.mid + o.maxTickMove * s.tick > s.upper {
      var coin := RiseCoin(s, o);
      assert ClampFires(s, o, Draws(0xffff_ffff, coin, 0, 0, 0, 0, 0));
    }
    if MayFall(s, o) && s.mid - o.maxTickMove * s.tick < s.lower {
      var coin := FallCoin(s, o);
      assert ClampFires(s, o, Draws(0xffff_ffff, coin, 0, 0, 0, 0, 0));
    }
  }

  lemma TowardBelowCertain(deviation: nat, multiplier: nat, strength: nat)
    requires Pull(deviation, multiplier) < COIN_HALF && strength <= TWO_32
    ensures TowardThreshold(deviation, multiplier, strength) < TWO_32
  {
    var p := Pull(deviation, multiplier);
    SmallProduct(p, strength, COIN_HALF - 1, TWO_32);
    HighWordBound(p * strength, COIN_HALF - 1);
  }

  /** Inside the span the price may always still move away, at any strength: the reciprocal rounds down. */
  lemma AwayIsAlwaysPossible(s: SymbolState, o: Settings)
    requires Sound(s, o) && s.span <= LONG_MAX && Abs(Deviation(s)) <= s.span
    ensures MayRise(s, o) && MayFall(s, o)
  {
    PullIsTheFraction(Abs(Deviation(s)), s.span);
    TowardBelowCertain(Abs(Deviation(s)), s.multiplier, o.reversionStrength);
  }

  /** The default options, at reversion strength `strength` units of 2^-32. */
  function Defaults(strength: nat): Settings {
    Settings(3, 1_000, strength, 1, 4, 1, 20, 50, 200, 42_949_673, 1_717_986_918, 3_006_477_107)
  }

  const UP_AT_ANCHOR := Draws(0xffff_ffff, 0, 0, 0, 0, 0, 0)
  const AWAY := Draws(0xffff_ffff, 0xffff_ffff, 0, 0, 0, 0, 0)

  /** At full strength the band limit is not dead code: an instrument at 40 ticks hits it on its second event. */
  lemma FullStrengthStillClamps()
    ensures var def, o := Definition(1, 40, 1), Defaults(TWO_32);
      o.Validated() && ClampFires(StateAfter(def, o, [Draw(UP_AT_ANCHOR)]), o, AWAY)
  {
    var def, o := Definition(1, 40, 1), Defaults(TWO_32);
    assert [Draw(UP_AT_ANCHOR)][..0] == [];
    var s := StateAfter(def, o, []);
    assert s.mid == 40 && s.lower == 36 && s.upper == 44;
    HighestDraw(4);
    var t := After(s, o, UP_AT_ANCHOR);
    assert StateAfter(def, o, [Draw(UP_AT_ANCHOR)]) == t;
    assert t.mid == 43;
    AwayIsAlwaysPossible(t, o);
    assert Unbanded(t, o, AWAY) == 46;
  }

  // ---- how far the walk strays from its anchor ----

  /** The state after some events of one session. */
  function Walked(s: SymbolState, o: Settings, draws: seq<Draws>): (r: SymbolState)
    requires Sound(s, o)
    ensures Sound(r, o) && SameBand(s, r)
    decreases |draws|
  {
    if draws == [] then s
    else
      EventKeepsSound(s, o, draws[0]);
      Walked(After(s, o, draws[0]), o, draws[1..])
  }

  /** Events move nothing a reset fixed. */
  predicate SameBand(s: SymbolState, t: SymbolState) {
    && t.reference == s.reference && t.span == s.span && t.lower == s.lower && t.upper == s.upper && t.tick == s.tick
  }

  /** How many of some events are trades. */
  function TradesIn(s: SymbolState, o: Settings, draws: seq<Draws>): nat
    requires Sound(s, o)
    decreases |draws|
  {
    if draws == [] then 0
    else
      EventKeepsSound(s, o, draws[0]);
      (if Emitted(s, o, draws[0]).kind.Trade? then 1 else 0) + TradesIn(After(s, o, draws[0]), o, draws[1..])
  }

  /** The price of the last of them, or the one there was. */
  function LastTradeIn(s: SymbolState, o: Settings, draws: seq<Draws>, before: int): int
    requires Sound(s, o)
    decreases |draws|
  {
    if draws == [] then before
    else
      EventKeepsSound(s, o, draws[0]);
      var e := Emitted(s, o, draws[0]);
      LastTradeIn(After(s, o, draws[0]), o, draws[1..], if e.kind.Trade? then e.price else before)
  }

  /** Over any events of a session the day's trades are counted, in 32 bits, and the last one's price is kept. */
  lemma {:induction false} TradesAreKept(s: SymbolState, o: Settings, draws: seq<Draws>)
    requires Sound(s, o)
    ensures Walked(s, o, draws).tradesToday == (s.tradesToday + TradesIn(s, o, draws)) % TWO_32
    ensures Walked(s, o, draws).lastTrade == LastTradeIn(s, o, draws, s.lastTrade)
    decreases |draws|
  {
    if draws != [] {
      EventKeepsSound(s, o, draws[0]);
      var t := After(s, o, draws[0]);
      TradesAreKept(t, o, draws[1..]);
      TradeStep(s, o, draws[0]);
      CountOn(s.tradesToday, t.tradesToday, TradesIn(s, o, draws) - TradesIn(t, o, draws[1..]),
              TradesIn(t, o, draws[1..]));
    }
  }

  lemma TradeStep(s: SymbolState, o: Settings, d: Draws)
    requires o.Validated()
    ensures var e, t := Emitted(s, o, d), After(s, o, d);
      && t.tradesToday == (s.tradesToday + (if e.kind.Trade? then 1 else 0)) % TWO_32
      && t.lastTrade == (if e.kind.Trade? then e.price else s.lastTrade)
  {
  }

  lemma CountOn(before: uint32, after: uint32, first: nat, rest: nat)
    requires after == (before + first) % TWO_32 && first <= 1
    ensures (after + rest) % TWO_32 == (before + (first + rest)) % TWO_32
  {
  }

  lemma {:induction false} NoMoveNoDeviation(s: SymbolState, o: Settings, draws: seq<Draws>)
    requires Sound(s, o) && o.maxTickMove == 0
    ensures Walked(s, o, draws).mid == s.mid
    decreases |draws|
  {
    if draws != [] {
      EventKeepsSound(s, o, draws[0]);
      MidIsContinuous(s, o, draws[0]);
      NoMoveNoDeviation(After(s, o, draws[0]), o, draws[1..]);
    }
  }

  /** A draw of the largest move on a rising coin goes up by as much as the band leaves room for. */
  lemma RiseBy(s: SymbolState, o: Settings, coin: uint32)
    requires Sound(s, o) && MovesUp(s, o, coin)
    ensures NextMid(s, o, Draws(0xffff_ffff, coin, 0, 0, 0, 0, 0)) == Min(s.mid + o.maxTickMove * s.tick, s.upper)
  {
    HighestDraw(o.maxTickMove + 1);
    SmallProduct(0, s.tick, o.maxTickMove, s.tick);
  }

  /** Where the band reaches further above the anchor than the span, some draws take the mid there. */
  lemma {:induction false} Climb(s: SymbolState, o: Settings) returns (draws: seq<Draws>)
    requires Sound(s, o) && s.span <= LONG_MAX && o.maxTickMove > 0
    requires s.upper > s.reference + s.span && Deviation(s) >= 0
    ensures Deviation(Walked(s, o, draws)) > s.span
    decreases s.reference + s.span - s.mid
  {
    if Deviation(s) > s.span {
      return [];
    }
    AwayIsAlwaysPossible(s, o);
    var coin := RiseCoin(s, o);
    var d := Draws(0xffff_ffff, coin, 0, 0, 0, 0, 0);
    RiseBy(s, o, coin);
    SmallProduct(1, s.tick, o.maxTickMove, s.tick);
    EventKeepsSound(s, o, d);
    var rest := Climb(After(s, o, d), o);
    draws := [d] + rest;
    assert draws[1..] == rest;
  }

  /** Every event of every session, from wherever a reset left it, stays within the span of the anchor if and only if
      the walk cannot move at all or the reset did not have to push the band up. */
  lemma DeviationWithinSpanExactlyWhen(def: Definition, anchor: nat, o: Settings)
    requires def.tick >= 1 && o.Validated() && OnGrid(anchor, def.tick) && anchor >= def.tick
    requires Span(anchor, def.tick, o) <= LONG_MAX
    ensures Sound(Opened(def, anchor, o), o)
    ensures (forall draws :: Abs(Deviation(Walked(Opened(def, anchor, o), o, draws))) <= Span(anchor, def.tick, o))
      <==> (o.maxTickMove == 0 || anchor - Span(anchor, def.tick, o) >= def.tick)
  {
    OpenedIsSound(def, anchor, o);
    StrayFrom(Opened(def, anchor, o), o, def.tick);
  }

  lemma StrayFrom(s: SymbolState, o: Settings, tick: nat)
    requires Sound(s, o) && s.mid == s.reference && s.span <= LONG_MAX && s.lower == Max(s.reference - s.span, tick)
    requires tick == s.tick
    ensures (forall draws :: Abs(Deviation(Walked(s, o, draws))) <= s.span)
      <==> (o.maxTickMove == 0 || s.reference - s.span >= tick)
  {
    forall draws | o.maxTickMove == 0 || s.reference - s.span >= tick
      ensures Abs(Deviation(Walked(s, o, draws))) <= s.span
    {
      if o.maxTickMove == 0 {
        NoMoveNoDeviation(s, o, draws);
      }
    }
    if o.maxTickMove > 0 && s.reference - s.span < tick {
      var draws := Climb(s, o);
      assert Abs(Deviation(Walked(s, o, draws))) > s.span;
    }
  }

  // ---- whether the band limit is ever needed ----

  /** The event drawn by `d` hits the band limit once the others have happened. */
  ghost predicate FiresAfter(s: SymbolState, o: Settings, draws: seq<Draws>, d: Draws)
    requires Sound(s, o)
  {
    ClampFires(Walked(s, o, draws), o, d)
  }

  /** A draw of the largest move on a falling coin aims that far below the mid. */
  lemma FallBy(s: SymbolState, o: Settings, coin: uint32)
    requires Sound(s, o) && !MovesUp(s, o, coin)
    ensures Unbanded(s, o, Draws(0xffff_ffff, coin, 0, 0, 0, 0, 0)) == s.mid - o.maxTickMove * s.tick
  {
    HighestDraw(o.maxTickMove + 1);
  }

  /** Falling from the anchor by the largest move, some event aims below the band. */
  lemma {:induction false} Descend(s: SymbolState, o: Settings) returns (draws: seq<Draws>, d: Draws)
    requires Sound(s, o) && s.span <= LONG_MAX && o.maxTickMove > 0 && Deviation(s) <= 0
    ensures FiresAfter(s, o, draws, d)
    decreases s.mid - s.lower
  {
    AwayIsAlwaysPossible(s, o);
    var coin := FallCoin(s, o);
    d := Draws(0xffff_ffff, coin, 0, 0, 0, 0, 0);
    FallBy(s, o, coin);
    if s.mid - o.maxTickMove * s.tick < s.lower {
      return [], d;
    }
    SmallProduct(1, s.tick, o.maxTickMove, s.tick);
    EventKeepsSound(s, o, d);
    var rest, last := Descend(After(s, o, d), o);
    draws, d := [d] + rest, last;
    assert draws[1..] == rest;
  }

  /** From wherever a reset leaves the walk, and at whatever reversion strength, no event of any session hits the
      band limit if and only if the walk cannot move at all. */
  lemma ClampIsDeadExactlyWhen(def: Definition, anchor: nat, o: Settings)
    requires def.tick >= 1 && o.Validated() && OnGrid(anchor, def.tick) && anchor >= def.tick
    requires Span(anchor, def.tick, o) <= LONG_MAX
    ensures Sound(Opened(def, anchor, o), o)
    ensures (forall draws, d :: !FiresAfter(Opened(def, anchor, o), o, draws, d)) <==> o.maxTickMove == 0
  {
    OpenedIsSound(def, anchor, o);
    DeadFrom(Opened(def, anchor, o), o);
  }

  lemma DeadFrom(s: SymbolState, o: Settings)
    requires Sound(s, o) && s.mid == s.reference && s.span <= LONG_MAX
    ensures (forall draws, d :: !FiresAfter(s, o, draws, d)) <==> o.maxTickMove == 0
  {
    forall draws, d | o.maxTickMove == 0 ensures !FiresAfter(s, o, draws, d) {
      if FiresAfter(s, o, draws, d) {
        ClampNeedsReach(Walked(s, o, draws), o, d);
        assert false;
      }
    }
    if o.maxTickMove > 0 {
      var draws, d := Descend(s, o);
      assert FiresAfter(s, o, draws, d);
    }
  }

  /** An instrument at one tick strays past its span on its second event. */
  lemma DeviationCanExceedSpan()
    ensures var def, o := Definition(1, 1, 1), Defaults(0);
      o.Validated() && Abs(Deviation(StateAfter(def, o, [Draw(UP_AT_ANCHOR), Draw(AWAY)]))) > Span(1, 1, o)
  {
    var def, o := Definition(1, 1, 1), Defaults(0);
    assert [Draw(UP_AT_ANCHOR), Draw(AWAY)][..1] == [Draw(UP_AT_ANCHOR)] && [Draw(UP_AT_ANCHOR)][..0] == [];
    var s := StateAfter(def, o, []);
    assert s.mid == 1 && s.lower == 1 && s.upper == 9 && s.span == 4;
    HighestDraw(4);
    var t := After(s, o, UP_AT_ANCHOR);
    assert t.mid == 4;
    AwayIsAlwaysPossible(t, o);
    assert Unbanded(t, o, AWAY) == 7;
    assert After(t, o, AWAY).mid == 7;
    assert StateAfter(def, o, [Draw(UP_AT_ANCHOR)]) == t;
    assert StateAfter(def, o, [Draw(UP_AT_ANCHOR), Draw(AWAY)]) == After(t, o, AWAY);
  }

  /** Within the options an order can wrap to a quantity that is no multiple of the lot: the most lots there may be,
      of a hundred each. */
  lemma QuantityCanBreakTheLot()
    ensures var def, o := Definition(1, 40, 100), Defaults(0).(maxLots := 0x7fff_ffff);
      var quantity := Emitted(StateAfter(def, o, []), o, Draws(0, 0, 0, 0, 0xffff_ffff, 0xffff_ffff, 0)).quantity;
      o.Validated() && quantity == 4_294_967_196 && !OnGrid(quantity, def.lotSize)
  {
    HighestDraw(0x7fff_ffff);
  }
}

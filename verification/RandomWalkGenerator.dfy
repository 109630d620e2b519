/** The tape generator: every instrument's state in one array, changed in place by resets and events. */
module RandomWalkGenerator {
  import opened AliasTable
  import opened BoundedDraw
  import opened Divisibility
  import opened Bytes
  import opened SymbolWalk
  import opened WalkStep
  import Picker = WeightedSymbolPicker
  import Alone = WalkRuns
  import Whole = PickedDraws

  /** The draw that picks the instrument, and the draws of its event. */
  datatype EventDraws = EventDraws(pickHigh: uint32, pickLow: uint32, walk: Draws)

  /** Builds the band and the opening quote around an anchor. */
  method OpenSession(d: Definition, anchor: nat, o: Settings) returns (s: SymbolState)
    requires d.tick >= 1 && o.Validated()
    ensures s == Opened(d, anchor, o)
  {
    var tick := d.tick;
    SpanOnGrid(anchor, tick, o);
    SmallProduct(1, tick, o.maxSpreadTicks, tick);
    var span := anchor * o.bandBasisPoints / BASIS_POINTS;
    span := span / tick * tick;
    var minimumSpan := o.maxSpreadTicks * tick;
    if span < minimumSpan {
      span := minimumSpan;
    }
    var lower := anchor - span;
    var upper := anchor + span;
    if lower < tick {
      lower := tick;
      upper := lower + 2 * span;
    }
    s := SymbolState(anchor, anchor, anchor - tick, anchor + tick, anchor, lower, upper, span,
                     LONG_MAX / span, tick, d.lotSize, 0);
  }

  /** Moves the mid by the drawn ticks, in the drawn direction, and holds it in the band. */
  method Walk(s: SymbolState, o: Settings, d: Draws) returns (mid: int)
    requires Sound(s, o)
    ensures mid == NextMid(s, o, d)
  {
    var move := Lemire(d.move, o.maxTickMove + 1);
    var deviation := s.mid - s.reference;
    var pull := Abs(deviation) * s.multiplier / TWO_32;
    if pull > COIN_HALF {
      pull := COIN_HALF;
    }
    var towardThreshold := COIN_HALF + pull * o.reversionStrength / TWO_32;
    var moveToward := d.coin < towardThreshold;
    var moveUp := moveToward != (deviation > 0);
    mid := if moveUp then s.mid + move * s.tick else s.mid - move * s.tick;
    if mid > s.upper {
      mid := s.upper;
    } else if mid < s.lower {
      mid := s.lower;
    }
  }

  /** Puts the quote around the mid and slides it whole back into the band. */
  method Quote(s: SymbolState, o: Settings, mid: int, spread: nat) returns (bid: int, ask: int)
    requires Sound(s, o) && s.lower <= mid <= s.upper && 1 <= spread <= o.maxSpreadTicks
    ensures bid == NextBid(s, mid, spread) && ask == bid + spread * s.tick
  {
    SmallProduct(spread, s.tick, o.maxSpreadTicks, s.tick);
    bid := mid - (spread + 1) / 2 * s.tick;
    ask := bid + spread * s.tick;
    if ask > s.upper {
      var shift := ask - s.upper;
      bid := bid - shift;
      ask := ask - shift;
    } else if bid < s.lower {
      var shift := s.lower - bid;
      bid := bid + shift;
      ask := ask + shift;
    }
  }

  /** One event on one instrument's state. */
  method Advance(s0: SymbolState, o: Settings, d: Draws) returns (s: SymbolState, e: TapeEvent)
    requires Sound(s0, o)
    ensures s == After(s0, o, d) && e == Emitted(s0, o, d)
  {
    MidIsContinuous(s0, o, d);
    var mid := Walk(s0, o, d);
    var spread := o.minSpreadTicks + Lemire(d.width, o.maxSpreadTicks - o.minSpreadTicks + 1);
    var bid, ask := Quote(s0, o, mid, spread);
    s := s0.(mid := mid, bid := bid, ask := ask);

    var lots := if d.block < o.blockThreshold
                then o.blockMinLots + Lemire(d.lots, o.blockMaxLots - o.blockMinLots + 1)
                else o.minLots + Lemire(d.lots, o.maxLots - o.minLots + 1);
    var quantity := lots * s0.lotSize % TWO_32;

    if d.kind < o.tradeThreshold {
      var price := bid + Lemire(d.step, spread + 1) * s0.tick;
      s := s.(lastTrade := price, tradesToday := (s0.tradesToday + 1) % TWO_32);
      e := TapeEvent(Trade, price, quantity);
    } else if d.kind < o.bidThreshold {
      e := TapeEvent(BidQuote, bid, quantity);
    } else {
      e := TapeEvent(AskQuote, ask, quantity);
    }
  }

  // ---- the tape as a function of draws and resets ----

  /** What drives the generator: the draws of one event, or a session reopening. */
  datatype TapeInput = Reset | Event(d: EventDraws)

  ghost predicate Walking(defs: seq<Definition>, states: seq<SymbolState>, o: Settings) {
    && o.Validated() && |defs| == |states|
    && forall i | 0 <= i < |states| :: Sound(states[i], o) && states[i].tick == defs[i].tick
  }

  ghost predicate Picks(t: seq<Bucket>, n: nat) {
    n > 0 && |t| == n && Picker.Finished(t)
  }

  ghost function Picked(t: seq<Bucket>, n: nat, d: EventDraws): (i: nat)
    requires Picks(t, n)
    ensures i < n
  {
    Picker.Outcome(t, Lemire(d.pickHigh, n), d.pickLow)
  }

  /** A reset reopens every instrument where it stands; an event moves the one it picks. */
  ghost function Stepped(defs: seq<Definition>, states: seq<SymbolState>, o: Settings, t: seq<Bucket>,
                         input: TapeInput): (r: seq<SymbolState>)
    requires Walking(defs, states, o) && Picks(t, |states|)
    ensures |r| == |states| && Walking(defs, r, o)
  {
    match input
    case Reset =>
      seq(|states|, i requires 0 <= i < |states| => Alone.Step(states[i], defs[i], o, Alone.Reset))
    case Event(d) =>
      var i := Picked(t, |states|, d);
      states[i := Alone.Step(states[i], defs[i], o, Alone.Draw(d.walk))]
  }

  /** Every instrument's state once the inputs have been spent. */
  ghost function StatesAfter(defs: seq<Definition>, states: seq<SymbolState>, o: Settings, t: seq<Bucket>,
                             inputs: seq<TapeInput>): (r: seq<SymbolState>)
    requires Walking(defs, states, o) && Picks(t, |states|)
    ensures |r| == |states| && Walking(defs, r, o)
    decreases |inputs|
  {
    if inputs == [] then states
    else Stepped(defs, StatesAfter(defs, states, o, t, inputs[..|inputs| - 1]), o, t, inputs[|inputs| - 1])
  }

  /** The event an input produces, if it does. */
  ghost function Produced(states: seq<SymbolState>, o: Settings, t: seq<Bucket>, input: TapeInput): seq<TapeEvent>
    requires o.Validated() && (forall i | 0 <= i < |states| :: Sound(states[i], o)) && Picks(t, |states|)
  {
    if input.Reset? then [] else [Emitted(states[Picked(t, |states|, input.d)], o, input.d.walk)]
  }

  /** The events the inputs produce. */
  ghost function Tape(defs: seq<Definition>, states: seq<SymbolState>, o: Settings, t: seq<Bucket>,
                      inputs: seq<TapeInput>): seq<TapeEvent>
    requires Walking(defs, states, o) && Picks(t, |states|)
    decreases |inputs|
  {
    if inputs == [] then []
    else
      var earlier := inputs[..|inputs| - 1];
      Tape(defs, states, o, t, earlier)
      + Produced(StatesAfter(defs, states, o, t, earlier), o, t, inputs[|inputs| - 1])
  }

  lemma OneMoreInput(defs: seq<Definition>, states: seq<SymbolState>, o: Settings, t: seq<Bucket>,
                     inputs: seq<TapeInput>, k: nat)
    requires Walking(defs, states, o) && Picks(t, |states|) && k < |inputs|
    ensures var before := StatesAfter(defs, states, o, t, inputs[..k]);
      && StatesAfter(defs, states, o, t, inputs[..k + 1]) == Stepped(defs, before, o, t, inputs[k])
      && Tape(defs, states, o, t, inputs[..k + 1])
        == Tape(defs, states, o, t, inputs[..k]) + Produced(before, o, t, inputs[k])
  {
    assert inputs[..k + 1][..k] == inputs[..k];
  }

  lemma {:induction false} TapeGrows(defs: seq<Definition>, states: seq<SymbolState>, o: Settings, t: seq<Bucket>,
                                     inputs: seq<TapeInput>, k: nat)
    requires Walking(defs, states, o) && Picks(t, |states|) && k <= |inputs|
    ensures Tape(defs, states, o, t, inputs[..k]) <= Tape(defs, states, o, t, inputs)
    decreases |inputs|
  {
    if k == |inputs| {
      assert inputs[..k] == inputs;
    } else {
      var n := |inputs| - 1;
      TapeGrows(defs, states, o, t, inputs[..n], k);
      assert inputs[..n][..k] == inputs[..k];
    }
  }

  /** One event, among the instruments' states. */
  ghost predicate FairAmong(before: seq<SymbolState>, o: Settings, i: nat, e: TapeEvent, after: seq<SymbolState>)
    requires i < |before| == |after|
  {
    FairStep(before[i], o, e, after[i]) && forall j | 0 <= j < |before| && j != i :: after[j] == before[j]
  }

  lemma EventIsFairAmong(defs: seq<Definition>, states: seq<SymbolState>, o: Settings, t: seq<Bucket>, d: EventDraws)
    requires Walking(defs, states, o) && Picks(t, |states|)
    ensures var i := Picked(t, |states|, d);
      FairAmong(states, o, i, Emitted(states[i], o, d.walk), Stepped(defs, states, o, t, Event(d)))
  {
    StepIsFair(states[Picked(t, |states|, d)], o, d.walk);
  }

  lemma ResetMovesNoMid(defs: seq<Definition>, states: seq<SymbolState>, o: Settings, t: seq<Bucket>)
    requires Walking(defs, states, o) && Picks(t, |states|)
    ensures var after := Stepped(defs, states, o, t, Reset);
      forall j | 0 <= j < |states| :: after[j].mid == states[j].mid == after[j].reference
  {
  }

  /** Whatever events and resets come before it, every event of a tape over many instruments is fair to the one it
      belongs to, in the state that one had reached, and moves no other; a reset produces none and moves no mid. */
  lemma EveryTapeEventIsFair(defs: seq<Definition>, states: seq<SymbolState>, o: Settings, t: seq<Bucket>,
                             inputs: seq<TapeInput>, k: nat)
    requires Walking(defs, states, o) && Picks(t, |states|) && k < |inputs|
    ensures var before := StatesAfter(defs, states, o, t, inputs[..k]);
      var after := StatesAfter(defs, states, o, t, inputs[..k + 1]);
      var tape, e := Tape(defs, states, o, t, inputs), |Tape(defs, states, o, t, inputs[..k])|;
      if inputs[k].Event? then
        e < |tape| && FairAmong(before, o, Picked(t, |states|, inputs[k].d), tape[e], after)
      else
        && |Tape(defs, states, o, t, inputs[..k + 1])| == e
        && forall j | 0 <= j < |states| :: after[j].mid == before[j].mid == after[j].reference
  {
    var before := StatesAfter(defs, states, o, t, inputs[..k]);
    OneMoreInput(defs, states, o, t, inputs, k);
    match inputs[k] {
      case Event(d) =>
        TapeGrows(defs, states, o, t, inputs, k + 1);
        EventIsFairAmong(defs, before, o, t, d);
      case Reset =>
        ResetMovesNoMid(defs, before, o, t);
    }
  }

  method Store(destination: array<TapeEvent>, k: nat, e: TapeEvent)
    requires k < destination.Length
    modifies destination
    ensures destination[..k + 1] == old(destination[..k]) + [e]
  {
    destination[k] := e;
  }

  // ---- which instrument an event is for ----

  /** The halves of a draw that pick instrument `i`. */
  ghost function PicksOf(t: seq<Bucket>, n: nat, d: EventDraws, i: nat): set<(int, int)>
    requires Picks(t, n)
  {
    set high, low | 0 <= high < TWO_32 && 0 <= low < TWO_32 && IsPicked(t, n, d, high, low, i) :: (high, low)
  }

  ghost predicate IsPicked(t: seq<Bucket>, n: nat, d: EventDraws, high: uint32, low: uint32, i: nat)
    requires Picks(t, n)
  {
    Picked(t, n, d.(pickHigh := high, pickLow := low)) == i
  }

  /** Over all 2^64 draws instruments come up on a tape in proportion to the mass of their weights. */
  lemma TapeFollowsWeights(t: seq<Bucket>, d: EventDraws, i: nat)
    requires Picks(t, |t|) && i < |t| <= TWO_32
    ensures PicksOf(t, |t|, d, i) == Whole.DrawsGiving(t, i)
    ensures Whole.Follows(|PicksOf(t, |t|, d, i)|, Picker.COINS / |t| as real, Picker.Mass(t, i) * Picker.COINS,
                          Picker.Shared(t, |t|, i) as real)
  {
    Whole.DrawsFollowMass(t, i);
    forall high, low | 0 <= high < TWO_32 && 0 <= low < TWO_32
      ensures IsPicked(t, |t|, d, high, low, i) <==> Whole.Gives(t, high, low, i)
    {
    }
  }

  // ---- each instrument by itself ----

  /** The inputs that concern instrument `i`: the draws that pick it, and every reset. */
  ghost function Own(t: seq<Bucket>, n: nat, inputs: seq<TapeInput>, i: nat): seq<Alone.Input>
    requires Picks(t, n)
  {
    if inputs == [] then []
    else
      var earlier, input := Own(t, n, inputs[..|inputs| - 1], i), inputs[|inputs| - 1];
      match input
      case Reset => earlier + [Alone.Reset]
      case Event(d) => if Picked(t, n, d) == i then earlier + [Alone.Draw(d.walk)] else earlier
  }

  /** On a tape over many instruments each one walks as it would alone on its own inputs, so all that is proved of
      one walk holds of every instrument of every tape. */
  lemma {:induction false} EachWalksAlone(defs: seq<Definition>, states: seq<SymbolState>, o: Settings, t: seq<Bucket>,
                                          inputs: seq<TapeInput>, i: nat)
    requires Walking(defs, states, o) && Picks(t, |states|) && i < |states|
    requires defs[i].tick >= 1 && states[i] == Alone.StateAfter(defs[i], o, [])
    ensures StatesAfter(defs, states, o, t, inputs)[i] == Alone.StateAfter(defs[i], o, Own(t, |states|, inputs, i))
    decreases |inputs|
  {
    if inputs != [] {
      var init, input := inputs[..|inputs| - 1], inputs[|inputs| - 1];
      EachWalksAlone(defs, states, o, t, init, i);
      var earlier := Own(t, |states|, init, i);
      match input {
        case Reset => OneMoreStep(defs[i], o, earlier, Alone.Reset);
        case Event(d) => OneMoreStep(defs[i], o, earlier, Alone.Draw(d.walk));
      }
    }
  }

  lemma OneMoreStep(def: Definition, o: Settings, inputs: seq<Alone.Input>, input: Alone.Input)
    requires def.tick >= 1 && o.Validated()
    ensures Alone.StateAfter(def, o, inputs + [input]) == Alone.Step(Alone.StateAfter(def, o, inputs), def, o, input)
  {
    assert (inputs + [input])[..|inputs|] == inputs;
  }

  function Events(draws: seq<EventDraws>): (inputs: seq<TapeInput>)
    ensures |inputs| == |draws| && forall k | 0 <= k < |draws| :: inputs[k] == Event(draws[k])
  {
    seq(|draws|, k requires 0 <= k < |draws| => Event(draws[k]))
  }

  /** A session that starts at its anchor: nothing traded yet, the last trade and the mid at the anchor, and a quote
      one tick to either side. */
  predicate OpensAt(s: SymbolState, anchor: int, d: Definition) {
    && s.mid == s.reference == s.lastTrade == anchor && s.tradesToday == 0
    && s.bid == anchor - d.tick && s.ask == anchor + d.tick && s.tick == d.tick && s.lotSize == d.lotSize
  }

  class RandomWalkGenerator {
    const settings: Settings
    const definitions: seq<Definition>
    const picker: Picker.WeightedSymbolPicker
    const states: array<SymbolState>
    var hasOpened: bool

    ghost predicate Configured()
      reads picker.alias, picker.threshold
    {
      && settings.Validated() && picker.Valid() && |picker.table| == |definitions| == states.Length
      && forall i | 0 <= i < |definitions| :: definitions[i].tick >= 1
    }

    ghost predicate Valid()
      reads this, states, picker.alias, picker.threshold
    {
      Configured() && (hasOpened ==> Walking(definitions, states[..], settings))
    }

    /** Where a reset anchors instrument `i`. */
    function Anchor(i: nat): (a: int)
      requires i < |definitions| && i < states.Length && definitions[i].tick >= 1
      reads this, states
    {
      if hasOpened then states[i].mid else SnapToTick(definitions[i].price, definitions[i].tick)
    }

    lemma AnchorIsOnGrid(i: nat)
      requires Valid() && i < states.Length
      ensures Anchor(i) >= definitions[i].tick && OnGrid(Anchor(i), definitions[i].tick)
    {
      SnapIsOnGrid(definitions[i].price, definitions[i].tick);
    }

    constructor (o: Settings, universe: seq<Definition>, weights: seq<real>)
      requires o.Validated() && |universe| == |weights| && Picker.AllPositive(weights)
      requires forall i | 0 <= i < |universe| :: universe[i].tick >= 1
      ensures Valid() && hasOpened && settings == o && definitions == universe
      ensures fresh(states) && fresh(picker.alias) && fresh(picker.threshold)
      ensures forall i | 0 <= i < |universe| ::
        Picker.Mass(picker.table, i) == Picker.ScaledWeight(weights, i)
      ensures forall i | 0 <= i < |universe| ::
        states[i] == Opened(universe[i], SnapToTick(universe[i].price, universe[i].tick), o)
    {
      settings, definitions, hasOpened := o, universe, false;
      picker := new Picker.WeightedSymbolPicker(weights);
      states := new SymbolState[|universe|](_ => SymbolState(0, 0, 0, 0, 0, 0, 0, 0, 0, 0, 0, 0));
      new;
      ResetSession();
    }

    /** Opens a session on every instrument. */
    method ResetSession()
      requires Valid()
      modifies this`hasOpened, states
      ensures Valid() && hasOpened
      ensures forall i | 0 <= i < states.Length ::
        old(Anchor(i)) >= 0 && states[i] == Opened(definitions[i], old(Anchor(i)), settings)
      ensures forall i | 0 <= i < states.Length :: OpensAt(states[i], old(Anchor(i)), definitions[i])
      ensures old(hasOpened) && states.Length > 0 ==>
        states[..] == Stepped(definitions, old(states[..]), settings, picker.table, Reset)
    {
      forall i | 0 <= i < states.Length
        ensures Anchor(i) >= definitions[i].tick && OnGrid(Anchor(i), definitions[i].tick)
      {
        AnchorIsOnGrid(i);
      }
      var i := 0;
      while i < states.Length
        invariant 0 <= i <= states.Length && hasOpened == old(hasOpened)
        invariant forall j | i <= j < states.Length :: states[j] == old(states[j])
        invariant forall j | 0 <= j < i ::
          && old(Anchor(j)) >= 0 && states[j] == Opened(definitions[j], old(Anchor(j)), settings)
          && Sound(states[j], settings) && states[j].tick == definitions[j].tick
      {
        var d := definitions[i];
        var anchor := if hasOpened then states[i].mid else SnapToTick(d.price, d.tick);
        assert anchor == old(Anchor(i));
        OpenedIsSound(d, anchor, settings);
        states[i] := OpenSession(d, anchor, settings);
        i := i + 1;
      }
      hasOpened := true;
    }

    /** Draws one event and moves the instrument it belongs to, and no other. */
    method Next(d: EventDraws) returns (index: nat, e: TapeEvent)
      requires Valid() && hasOpened
      modifies states
      ensures Valid() && index == Picked(picker.table, states.Length, d)
      ensures [e] == Produced(old(states[..]), settings, picker.table, Event(d))
      ensures states[..] == Stepped(definitions, old(states[..]), settings, picker.table, Event(d))
    {
      index := picker.Next(d.pickHigh, d.pickLow);
      var s := states[index];
      EventKeepsSound(s, settings, d.walk);
      var t;
      t, e := Advance(s, settings, d.walk);
      states[index] := t;
    }

    /** The tape so far is what the draws so far produce. */
    ghost predicate Written(start: seq<SymbolState>, destination: array<TapeEvent>, inputs: seq<TapeInput>, k: nat)
      reads this, states, destination, picker.alias, picker.threshold
    {
      && Valid() && hasOpened && k <= destination.Length == |inputs|
      && |start| == states.Length && Walking(definitions, start, settings)
      && states[..] == StatesAfter(definitions, start, settings, picker.table, inputs[..k])
      && destination[..k] == Tape(definitions, start, settings, picker.table, inputs[..k])
    }

    method GenerateOne(destination: array<TapeEvent>, d: EventDraws, k: nat, ghost start: seq<SymbolState>,
                       ghost inputs: seq<TapeInput>)
      requires k < destination.Length && Written(start, destination, inputs, k) && inputs[k] == Event(d)
      modifies states, destination
      ensures Written(start, destination, inputs, k + 1)
    {
      OneMoreInput(definitions, start, settings, picker.table, inputs, k);
      var index, e := Next(d);
      Store(destination, k, e);
    }

    /** Fills the destination, one event after another. */
    method Generate(destination: array<TapeEvent>, draws: seq<EventDraws>)
      requires Valid() && hasOpened && |draws| == destination.Length
      modifies states, destination
      ensures Valid()
      ensures states[..] == StatesAfter(definitions, old(states[..]), settings, picker.table, Events(draws))
      ensures destination[..] == Tape(definitions, old(states[..]), settings, picker.table, Events(draws))
    {
      ghost var start := states[..];
      var k := 0;
      while k < destination.Length
        invariant Written(start, destination, Events(draws), k)
      {
        GenerateOne(destination, draws[k], k, start, Events(draws));
        k := k + 1;
      }
      assert Events(draws)[..k] == Events(draws) && destination[..k] == destination[..];
    }
  }
}

/** The coins an event may toss, counted: how many bring the price back towards its anchor, and how many make it a
    trade or a quote. */
module WalkCoins {
  import opened BoundedDraw
  import opened Bytes
  import opened SymbolWalk
  import opened WalkStep

  // ---- the pull against the exact fraction, for any span ----

  /** The pull in coins, at whatever deviation and span: never more than the exact fraction, capped at one, and less
      by at most one coin and one for every 2^32 of deviation. */
  lemma PullNearFraction(deviation: nat, span: nat)
    requires span > 0
    ensures var pull, capped := Pull(deviation, LONG_MAX / span), Min(deviation, span);
      && pull * span <= capped * 0x8000_0000
      && capped * 0x8000_0000 * TWO_32 <= ((pull + 1) * TWO_32 + deviation) * span
  {
    var m := LONG_MAX / span;
    var p, rest := deviation * m / TWO_32, deviation * m % TWO_32;
    assert m * span <= LONG_MAX < m * span + span;
    ScaledSides(deviation, span, m, p, rest);
    PulledBounds(deviation, span, m * span);
    UncappedPull(deviation, span, deviation * (m * span), p, rest);
    CappedPull(deviation, span, p);
  }

  lemma PulledBounds(deviation: nat, span: nat, whole: nat)
    requires LONG_MAX - span < whole <= LONG_MAX
    ensures deviation * 0x8000_0000 * TWO_32 - deviation * span <= deviation * whole
    ensures deviation * whole <= deviation * 0x8000_0000 * TWO_32
  {
    Ordered(deviation, whole, 0x8000_0000 * TWO_32);
    Ordered(deviation, 0x8000_0000 * TWO_32 - span, whole);
    assert deviation * (0x8000_0000 * TWO_32 - span) == deviation * (0x8000_0000 * TWO_32) - deviation * span;
  }

  lemma Ordered(k: nat, a: int, b: int)
    requires a <= b
    ensures k * a <= k * b
  {
    assert k * (b - a) >= 0;
    assert k * (b - a) == k * b - k * a;
  }

  lemma UncappedPull(deviation: nat, span: nat, product: nat, p: nat, rest: nat)
    requires product == p * span * TWO_32 + rest * span && rest < TWO_32 && span > 0
    requires deviation * 0x8000_0000 * TWO_32 - deviation * span <= product <= deviation * 0x8000_0000 * TWO_32
    ensures p * span <= deviation * 0x8000_0000
    ensures deviation * 0x8000_0000 * TWO_32 <= ((p + 1) * TWO_32 + deviation) * span
  {
    Ordered(span, rest, TWO_32);
    assert ((p + 1) * TWO_32 + deviation) * span == p * span * TWO_32 + TWO_32 * span + deviation * span;
    Ordered(span, 0, rest);
  }

  lemma CappedPull(deviation: nat, span: nat, p: nat)
    requires span > 0 && p * span <= deviation * 0x8000_0000
    requires deviation * 0x8000_0000 * TWO_32 <= ((p + 1) * TWO_32 + deviation) * span
    ensures var pull, capped := Min(p, COIN_HALF), Min(deviation, span);
      && pull * span <= capped * 0x8000_0000
      && capped * 0x8000_0000 * TWO_32 <= ((pull + 1) * TWO_32 + deviation) * span
  {
    var pull := Min(p, COIN_HALF);
    Ordered(span, pull, p);
    Ordered(span, pull, COIN_HALF);
    if p > COIN_HALF {
      assert ((pull + 1) * TWO_32 + deviation) * span >= COIN_HALF * TWO_32 * span by {
        Ordered(span, COIN_HALF * TWO_32, (pull + 1) * TWO_32 + deviation);
      }
    }
  }

  // ---- coins ----

  /** How far beyond one half a count of coins is, against half of the coins times the strength times the share of the
      span that has been gone: never above it, and below by less than two coins and one for every 2^32 of deviation. */
  ghost predicate Reverts(coins: nat, deviation: nat, span: nat, strength: nat) {
    var beyond, ideal := coins - 0x8000_0000, Min(deviation, span) * 0x8000_0000 * strength;
    0 <= beyond && beyond * TWO_32 * span <= ideal <= ((beyond + 2) * TWO_32 + deviation) * span
  }

  lemma CoinsNearFraction(deviation: nat, span: nat, strength: nat)
    requires span > 0 && strength <= TWO_32
    ensures Reverts(TowardThreshold(deviation, LONG_MAX / span, strength), deviation, span, strength)
  {
    var pull, capped := Pull(deviation, LONG_MAX / span), Min(deviation, span);
    var beyond, rest := pull * strength / TWO_32, pull * strength % TWO_32;
    PullNearFraction(deviation, span);
    FromPull(pull, capped, deviation, span, strength, beyond, rest);
  }

  lemma FromPull(pull: nat, capped: nat, deviation: nat, span: nat, strength: nat, beyond: nat, rest: nat)
    requires pull * strength == beyond * TWO_32 + rest && rest < TWO_32 && strength <= TWO_32 && span > 0
    requires pull * span <= capped * 0x8000_0000
    requires capped * 0x8000_0000 * TWO_32 <= ((pull + 1) * TWO_32 + deviation) * span
    ensures beyond * TWO_32 * span <= capped * 0x8000_0000 * strength <= ((beyond + 2) * TWO_32 + deviation) * span
  {
    BeyondFromAbove(pull, capped, span, strength, beyond, rest);
    BeyondFromBelow(pull, capped, deviation, span, strength, beyond, rest);
  }

  lemma BeyondFromAbove(pull: nat, capped: nat, span: nat, strength: nat, beyond: nat, rest: nat)
    requires pull * strength == beyond * TWO_32 + rest && pull * span <= capped * 0x8000_0000
    ensures beyond * TWO_32 * span <= capped * 0x8000_0000 * strength
  {
    Ordered(strength, pull * span, capped * 0x8000_0000);
    Ordered(span, beyond * TWO_32, pull * strength);
    assert strength * (pull * span) == span * (pull * strength);
  }

  lemma BeyondFromBelow(pull: nat, capped: nat, deviation: nat, span: nat, strength: nat, beyond: nat, rest: nat)
    requires pull * strength == beyond * TWO_32 + rest && rest < TWO_32 && strength <= TWO_32
    requires capped * 0x8000_0000 * TWO_32 <= ((pull + 1) * TWO_32 + deviation) * span
    ensures capped * 0x8000_0000 * strength <= ((beyond + 2) * TWO_32 + deviation) * span
  {
    var x, y := (pull + 1) * TWO_32 + deviation, (beyond + 2) * TWO_32 + deviation;
    Ordered(strength, capped * 0x8000_0000 * TWO_32, x * span);
    Strengthen(pull, deviation, strength, beyond, rest);
    Ordered(span, strength * x, TWO_32 * y);
    assert strength * (x * span) == span * (strength * x);
    assert strength * (capped * 0x8000_0000 * TWO_32) == TWO_32 * (capped * 0x8000_0000 * strength);
    assert span * (TWO_32 * y) == TWO_32 * (y * span);
  }

  lemma Strengthen(pull: nat, deviation: nat, strength: nat, beyond: nat, rest: nat)
    requires pull * strength == beyond * TWO_32 + rest && rest < TWO_32 && strength <= TWO_32
    ensures strength * ((pull + 1) * TWO_32 + deviation) <= TWO_32 * ((beyond + 2) * TWO_32 + deviation)
  {
    Ordered(deviation, strength, TWO_32);
    assert strength * ((pull + 1) * TWO_32 + deviation)
        == TWO_32 * (pull * strength) + TWO_32 * strength + strength * deviation;
  }

  // ---- what the coins do to the mid ----

  /** The mid moved by `k` ticks and held in the band. */
  function Stepped(s: SymbolState, up: bool, k: nat): int {
    Clamp(if up then s.mid + k * s.tick else s.mid - k * s.tick, s.lower, s.upper)
  }

  /** The coins that, with everything else drawn as in `d`, leave the mid above where it was; or below. */
  ghost function CoinsUp(s: SymbolState, o: Settings, d: Draws): set<int> {
    set coin | 0 <= coin < TWO_32 && NextMid(s, o, d.(coin := coin)) > s.mid
  }

  ghost function CoinsDown(s: SymbolState, o: Settings, d: Draws): set<int> {
    set coin | 0 <= coin < TWO_32 && NextMid(s, o, d.(coin := coin)) < s.mid
  }

  /** The coins that move the price towards its anchor. */
  ghost function CoinsBack(s: SymbolState, o: Settings, d: Draws): set<int> {
    if s.mid < s.reference then CoinsUp(s, o, d) else CoinsDown(s, o, d)
  }

  lemma TowardIsBack(s: SymbolState, o: Settings, d: Draws, k: nat, coin: uint32)
    requires Sound(s, o) && s.mid != s.reference && k == Lemire(d.move, o.maxTickMove + 1) > 0
    ensures coin in CoinsBack(s, o, d) <==> coin < Toward(s, o)
    ensures NextMid(s, o, d.(coin := coin)) == Stepped(s, (s.mid < s.reference) == (coin < Toward(s, o)), k)
  {
    SmallProduct(1, s.tick, k, s.tick);
  }

  lemma CountBack(s: SymbolState, o: Settings, d: Draws)
    requires Sound(s, o) && s.mid != s.reference && Lemire(d.move, o.maxTickMove + 1) > 0
    ensures |CoinsBack(s, o, d)| == Toward(s, o)
  {
    ReversionNeverOverflows(s, o);
    forall coin | 0 <= coin < TWO_32 ensures coin in CoinsBack(s, o, d) <==> coin < Toward(s, o) {
      TowardIsBack(s, o, d, Lemire(d.move, o.maxTickMove + 1), coin);
    }
    CountBelow(CoinsBack(s, o, d), 0, Toward(s, o));
  }

  lemma CountBelow(coins: set<int>, from: nat, until: nat)
    requires from <= until <= TWO_32
    requires forall coin | coin in coins :: 0 <= coin < TWO_32
    requires forall coin | 0 <= coin < TWO_32 :: coin in coins <==> from <= coin < until
    ensures |coins| == until - from
  {
    assert coins == Between(from, until);
  }

  /** Off its anchor, when the drawn move is not zero, a price goes back on that many coins. */
  lemma PriceReverts(s: SymbolState, o: Settings, d: Draws)
    requires Sound(s, o) && s.mid != s.reference && Lemire(d.move, o.maxTickMove + 1) > 0
    ensures Reverts(|CoinsBack(s, o, d)|, Abs(s.mid - s.reference), s.span, o.reversionStrength)
  {
    CountBack(s, o, d);
    CoinsNearFraction(Abs(Deviation(s)), s.span, o.reversionStrength);
  }

  /** It then goes the whole drawn move towards the anchor, and on every other coin as far away from it; either way
      the band alone stops it. */
  lemma CoinDecidesDirection(s: SymbolState, o: Settings, d: Draws, coin: uint32)
    requires Sound(s, o) && s.mid != s.reference && Lemire(d.move, o.maxTickMove + 1) > 0
    ensures var up := (s.mid < s.reference) == (coin in CoinsBack(s, o, d));
      NextMid(s, o, d.(coin := coin)) == Stepped(s, up, Lemire(d.move, o.maxTickMove + 1))
  {
    TowardIsBack(s, o, d, Lemire(d.move, o.maxTickMove + 1), coin);
  }

  lemma AnchorCoin(s: SymbolState, o: Settings, d: Draws, coin: uint32)
    requires Sound(s, o) && s.mid == s.reference && Lemire(d.move, o.maxTickMove + 1) > 0
    ensures coin in CoinsUp(s, o, d) <==> coin < 0x8000_0000
    ensures NextMid(s, o, d.(coin := coin)) == Stepped(s, coin < 0x8000_0000, Lemire(d.move, o.maxTickMove + 1))
    ensures coin in CoinsDown(s, o, d) <==> s.mid > s.lower && coin >= 0x8000_0000
  {
    NoPull(s.multiplier, o.reversionStrength);
    SmallProduct(1, s.tick, Lemire(d.move, o.maxTickMove + 1), s.tick);
  }

  lemma NoPull(multiplier: nat, strength: nat)
    ensures TowardThreshold(0, multiplier, strength) == 0x8000_0000
  {
  }

  /** At its anchor it goes up on half of the coins and down, where the band has room below, on the other half. */
  lemma AnchorIsFair(s: SymbolState, o: Settings, d: Draws)
    requires Sound(s, o) && s.mid == s.reference && Lemire(d.move, o.maxTickMove + 1) > 0
    ensures |CoinsUp(s, o, d)| == 0x8000_0000
    ensures |CoinsDown(s, o, d)| == if s.mid > s.lower then 0x8000_0000 else 0
  {
    UpAtAnchor(s, o, d);
    DownAtAnchor(s, o, d);
  }

  lemma UpAtAnchor(s: SymbolState, o: Settings, d: Draws)
    requires Sound(s, o) && s.mid == s.reference && Lemire(d.move, o.maxTickMove + 1) > 0
    ensures |CoinsUp(s, o, d)| == 0x8000_0000
  {
    forall coin | 0 <= coin < TWO_32 ensures coin in CoinsUp(s, o, d) <==> coin < 0x8000_0000 {
      AnchorCoin(s, o, d, coin);
    }
    CountBelow(CoinsUp(s, o, d), 0, 0x8000_0000);
  }

  lemma DownAtAnchor(s: SymbolState, o: Settings, d: Draws)
    requires Sound(s, o) && s.mid == s.reference && Lemire(d.move, o.maxTickMove + 1) > 0
    ensures |CoinsDown(s, o, d)| == if s.mid > s.lower then 0x8000_0000 else 0
  {
    var from := if s.mid > s.lower then 0x8000_0000 else TWO_32;
    forall coin | 0 <= coin < TWO_32 ensures coin in CoinsDown(s, o, d) <==> from <= coin {
      AnchorCoin(s, o, d, coin);
    }
    CountBelow(CoinsDown(s, o, d), from, TWO_32);
  }

  // ---- what kind of event ----

  /** The coins, of the 2^32 there are, that make an event of a kind. */
  ghost function CoinsOfKind(o: Settings, kind: Kind): set<int> {
    set coin | 0 <= coin < TWO_32 && KindOf(o, coin) == kind
  }

  /** Each kind has the share of the coins its thresholds say. */
  lemma KindsHaveTheirShare(o: Settings)
    requires o.tradeThreshold <= o.bidThreshold <= TWO_32
    ensures |CoinsOfKind(o, Trade)| == o.tradeThreshold
    ensures |CoinsOfKind(o, BidQuote)| == o.bidThreshold - o.tradeThreshold
    ensures |CoinsOfKind(o, AskQuote)| == TWO_32 - o.bidThreshold
  {
    CountBelow(CoinsOfKind(o, Trade), 0, o.tradeThreshold);
    CountBelow(CoinsOfKind(o, BidQuote), o.tradeThreshold, o.bidThreshold);
    CountBelow(CoinsOfKind(o, AskQuote), o.bidThreshold, TWO_32);
  }

  // ---- how wide, how many, at what price, how far ----

  /** The floor or the ceiling of an equal part of the 2^32 draws. */
  ghost predicate FairShare(draws: nat, outcomes: nat)
    requires outcomes > 0
  {
    TWO_32 / outcomes <= draws <= CeilDiv(TWO_32, outcomes)
  }

  lemma OffsetShare(draws: set<int>, outcomes: nat, k: nat)
    requires k < outcomes
    requires forall x | x in draws :: 0 <= x < TWO_32
    requires forall x: uint32 :: x in draws <==> Lemire(x, outcomes) == k
    ensures FairShare(|draws|, outcomes)
  {
    LemireIsNearlyUniform(outcomes, k);
    assert draws == DrawsOf(outcomes, k);
  }

  ghost function MovesOf(s: SymbolState, o: Settings, d: Draws, ticks: nat): set<int> {
    set x | 0 <= x < TWO_32 && Move(s, o, d.(move := x)) == ticks
  }

  ghost function WidthsOf(o: Settings, d: Draws, ticks: nat): set<int>
    requires o.Validated()
  {
    set x | 0 <= x < TWO_32 && SpreadTicks(o, d.(width := x)) == ticks
  }

  ghost function LotDrawsOf(o: Settings, d: Draws, lots: nat): set<int>
    requires o.Validated()
  {
    set x | 0 <= x < TWO_32 && Lots(o, d.(lots := x)) == lots
  }

  /** Every move from none to the largest has its share of the draws, and every spread from the narrowest to the
      widest. */
  lemma MovesAndSpreadsAreFair(s: SymbolState, o: Settings, d: Draws, move: nat, spread: nat)
    requires o.Validated() && move <= o.maxTickMove && o.minSpreadTicks <= spread <= o.maxSpreadTicks
    ensures FairShare(|MovesOf(s, o, d, move)|, o.maxTickMove + 1)
    ensures FairShare(|WidthsOf(o, d, spread)|, o.maxSpreadTicks - o.minSpreadTicks + 1)
  {
    OffsetShare(MovesOf(s, o, d, move), o.maxTickMove + 1, move);
    OffsetShare(WidthsOf(o, d, spread), o.maxSpreadTicks - o.minSpreadTicks + 1, spread - o.minSpreadTicks);
  }

  /** On a block coin every size of block has its share of the draws, on any other every ordinary size. */
  lemma LotsAreFair(o: Settings, d: Draws, lots: nat)
    requires o.Validated()
    ensures d.block < o.blockThreshold && o.blockMinLots <= lots <= o.blockMaxLots ==>
      FairShare(|LotDrawsOf(o, d, lots)|, o.blockMaxLots - o.blockMinLots + 1)
    ensures d.block >= o.blockThreshold && o.minLots <= lots <= o.maxLots ==>
      FairShare(|LotDrawsOf(o, d, lots)|, o.maxLots - o.minLots + 1)
  {
    if d.block < o.blockThreshold && o.blockMinLots <= lots <= o.blockMaxLots {
      OffsetShare(LotDrawsOf(o, d, lots), o.blockMaxLots - o.blockMinLots + 1, lots - o.blockMinLots);
    }
    if d.block >= o.blockThreshold && o.minLots <= lots <= o.maxLots {
      OffsetShare(LotDrawsOf(o, d, lots), o.maxLots - o.minLots + 1, lots - o.minLots);
    }
  }

  /** The draws that make a trade at a price. */
  ghost function StepsTo(s: SymbolState, o: Settings, d: Draws, price: int): set<int>
    requires o.Validated()
  {
    set x | 0 <= x < TWO_32 && Emitted(s, o, d.(step := x)).price == price
  }

  /** A trade is made at every tick from the bid to the ask with its share of the draws. */
  lemma TradePricesAreFair(s: SymbolState, o: Settings, d: Draws, k: nat)
    requires Sound(s, o) && KindOf(o, d.kind).Trade? && k <= SpreadTicks(o, d)
    ensures var t := After(s, o, d);
      && t.bid + SpreadTicks(o, d) * s.tick == t.ask
      && FairShare(|StepsTo(s, o, d, t.bid + k * s.tick)|, SpreadTicks(o, d) + 1)
  {
    var bid, n := After(s, o, d).bid, SpreadTicks(o, d) + 1;
    forall x: uint32 ensures x in StepsTo(s, o, d, bid + k * s.tick) <==> Lemire(x, n) == k {
      PriceAtStep(s, o, d, x);
      SameMultiple(Lemire(x, n), k, s.tick);
    }
    OffsetShare(StepsTo(s, o, d, bid + k * s.tick), n, k);
  }

  lemma PriceAtStep(s: SymbolState, o: Settings, d: Draws, x: uint32)
    requires o.Validated() && KindOf(o, d.kind).Trade?
    ensures Emitted(s, o, d.(step := x)).price == After(s, o, d).bid + Lemire(x, SpreadTicks(o, d) + 1) * s.tick
  {
  }

  lemma SameMultiple(a: nat, b: nat, tick: nat)
    requires tick > 0
    ensures a * tick == b * tick <==> a == b
  {
    if a < b {
      assert (b - a) * tick > 0;
    } else if b < a {
      assert (a - b) * tick > 0;
    }
  }
}

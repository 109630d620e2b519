/** The client's per-symbol view store: what a tick, a snapshot and the universe write into it. */
module MarketStore {
  import D = Decimals

  /** Decimal text, as the wire carries it. */
  type Price = string

  datatype Stream = Live | Delayed

  datatype Tick = Tick(symbol: string, price: Price, quantity: int, id: string, stream: Stream)

  datatype Option<+T> = None | Some(value: T)

  datatype Snapshot = Snapshot(symbol: string, price: Price, open: Price,
                               previousClose: Option<Price>, volume: int, stream: Stream)

  datatype Definition = Definition(symbol: string, name: string, referencePrice: Price)

  datatype Meta = Meta(name: string, referencePrice: Price, baseline: Price)

  /** What a row shows; its change and change in percent are those of the price from the baseline. */
  datatype View = View(symbol: string, name: string, price: Price, baseline: Price, volume: int, stream: Stream) {
    function Change(): D.DecimalString
      requires D.IsDecimal(price) && D.IsDecimal(baseline)
    {
      D.Subtract(price, baseline)
    }
  }

  /** The store, leaving aside when each view was written. */
  datatype StoreState = StoreState(meta: map<string, Meta>, views: map<string, View>)

  function VolumeIn(s: StoreState, symbol: string): int {
    if symbol in s.views then s.views[symbol].volume else 0
  }

  /** A view of a symbol at a price, measured from its current baseline. */
  function ViewAt(m: Meta, symbol: string, price: Price, volume: int, stream: Stream): View {
    View(symbol, m.name, price, m.baseline, volume, stream)
  }

  /** Ticks for symbols outside the universe are dropped. */
  function AfterTick(s: StoreState, t: Tick): StoreState {
    if t.symbol !in s.meta then s
    else s.(views := s.views[t.symbol :=
      ViewAt(s.meta[t.symbol], t.symbol, t.price, VolumeIn(s, t.symbol) + t.quantity, t.stream)])
  }

  /** A snapshot replaces the view and moves the baseline. */
  function AfterSnapshot(s: StoreState, snap: Snapshot): StoreState {
    if snap.symbol !in s.meta then s
    else
      var baseline := if snap.previousClose.Some? then snap.previousClose.value else snap.open;
      var m := s.meta[snap.symbol].(baseline := baseline);
      StoreState(s.meta[snap.symbol := m],
            s.views[snap.symbol := ViewAt(m, snap.symbol, snap.price, snap.volume, snap.stream)])
  }

  function AfterPriming(s: StoreState, d: Definition): StoreState {
    var baseline := if d.symbol in s.meta then s.meta[d.symbol].baseline else d.referencePrice;
    s.(meta := s.meta[d.symbol := Meta(d.name, d.referencePrice, baseline)])
  }

  function AfterPrimingAll(s: StoreState, ds: seq<Definition>): StoreState {
    if ds == [] then s else AfterPriming(AfterPrimingAll(s, ds[..|ds| - 1]), ds[|ds| - 1])
  }

  // ---- volume over whole histories ----

  datatype Write = Ticked(tick: Tick) | Snapped(snap: Snapshot) | Primed(def: Definition)

  function AfterWrite(s: StoreState, w: Write): StoreState {
    match w
    case Ticked(t) => AfterTick(s, t)
    case Snapped(snap) => AfterSnapshot(s, snap)
    case Primed(d) => AfterPriming(s, d)
  }

  function AfterAll(s: StoreState, ws: seq<Write>): StoreState {
    if ws == [] then s else AfterWrite(AfterAll(s, ws[..|ws| - 1]), ws[|ws| - 1])
  }

  /** The change a view shows is exactly its price less its symbol's baseline, after a tick and after a snapshot. */
  lemma ChangeIsFromBaseline(s: StoreState, w: Write, symbol: string)
    requires symbol in s.meta && !w.Primed?
    requires symbol == if w.Ticked? then w.tick.symbol else w.snap.symbol
    ensures var r := AfterWrite(s, w);
      && symbol in r.views && r.views[symbol].baseline == r.meta[symbol].baseline
      && var v := r.views[symbol];
      && v.symbol == symbol && v.name == s.meta[symbol].name
      && v.price == (if w.Ticked? then w.tick.price else w.snap.price)
      && v.stream == (if w.Ticked? then w.tick.stream else w.snap.stream)
      && (D.IsDecimal(v.price) && D.IsDecimal(v.baseline) ==>
            D.ToScaledInt(v.Change()) == D.ToScaledInt(v.price) - D.ToScaledInt(v.baseline))
  {
    var v := AfterWrite(s, w).views[symbol];
    if D.IsDecimal(v.price) && D.IsDecimal(v.baseline) {
      D.SubtractIsExact(v.price, v.baseline);
    }
  }

  /** The last snapshot's volume and everything ticked since. */
  function SinceSnapshot(start: int, ws: seq<Write>, symbol: string): int {
    if ws == [] then start
    else
      var before, w := SinceSnapshot(start, ws[..|ws| - 1], symbol), ws[|ws| - 1];
      match w
      case Ticked(t) => if t.symbol == symbol then before + t.quantity else before
      case Snapped(snap) => if snap.symbol == symbol then snap.volume else before
      case Primed(_) => before
  }

  lemma {:induction false} PrimedStays(s: StoreState, ws: seq<Write>, symbol: string)
    requires symbol in s.meta
    ensures symbol in AfterAll(s, ws).meta
  {
    if ws != [] {
      PrimedStays(s, ws[..|ws| - 1], symbol);
    }
  }

  /** Over any history of writes a known symbol's volume is the last snapshot's plus all quantity since. */
  lemma {:induction false} VolumeSinceSnapshot(s: StoreState, ws: seq<Write>, symbol: string)
    requires symbol in s.meta
    ensures VolumeIn(AfterAll(s, ws), symbol) == SinceSnapshot(VolumeIn(s, symbol), ws, symbol)
  {
    if ws != [] {
      VolumeSinceSnapshot(s, ws[..|ws| - 1], symbol);
      PrimedStays(s, ws[..|ws| - 1], symbol);
    }
  }

  /** The previous close of the last snapshot, or its open where it names none; before the first snapshot the baseline
      there was, or for a symbol new to the universe its reference price. */
  function BaselineSince(start: Option<Price>, ws: seq<Write>, symbol: string): Option<Price> {
    if ws == [] then start
    else
      var before, w := BaselineSince(start, ws[..|ws| - 1], symbol), ws[|ws| - 1];
      match w
      case Ticked(_) => before
      case Snapped(snap) =>
        if snap.symbol != symbol || before.None? then before
        else if snap.previousClose.Some? then snap.previousClose
        else Some(snap.open)
      case Primed(d) => if d.symbol == symbol && before.None? then Some(d.referencePrice) else before
  }

  function BaselineIn(s: StoreState, symbol: string): Option<Price> {
    if symbol in s.meta then Some(s.meta[symbol].baseline) else None
  }

  /** Over any history that is what a symbol's changes are measured from. */
  lemma {:induction false} BaselineSinceSnapshot(s: StoreState, ws: seq<Write>, symbol: string)
    ensures BaselineIn(AfterAll(s, ws), symbol) == BaselineSince(BaselineIn(s, symbol), ws, symbol)
  {
    if ws != [] {
      BaselineSinceSnapshot(s, ws[..|ws| - 1], symbol);
    }
  }

  /** The name and reference price of the last definition that came for a symbol. */
  function DefinedIn(start: Option<Definition>, ws: seq<Write>, symbol: string): Option<Definition> {
    if ws == [] then start
    else
      var before, w := DefinedIn(start, ws[..|ws| - 1], symbol), ws[|ws| - 1];
      if w.Primed? && w.def.symbol == symbol then Some(w.def) else before
  }

  function DefinitionOf(s: StoreState, symbol: string): Option<Definition> {
    if symbol in s.meta then Some(Definition(symbol, s.meta[symbol].name, s.meta[symbol].referencePrice)) else None
  }

  lemma {:induction false} DefinitionIsTheLast(s: StoreState, ws: seq<Write>, symbol: string)
    ensures DefinitionOf(AfterAll(s, ws), symbol) == DefinedIn(DefinitionOf(s, symbol), ws, symbol)
  {
    if ws != [] {
      DefinitionIsTheLast(s, ws[..|ws| - 1], symbol);
    }
  }

  /** A symbol outside the universe never gets a view, whatever arrives for it. */
  lemma {:induction false} UnknownSymbolsLeaveNoTrace(s: StoreState, ws: seq<Write>, symbol: string)
    requires symbol !in s.meta && symbol !in s.views
    requires forall i | 0 <= i < |ws| && ws[i].Primed? :: ws[i].def.symbol != symbol
    ensures symbol !in AfterAll(s, ws).meta && symbol !in AfterAll(s, ws).views
  {
    if ws != [] {
      UnknownSymbolsLeaveNoTrace(s, ws[..|ws| - 1], symbol);
    }
  }

  class MarketStore {
    var meta: map<string, Meta>
    var views: map<string, View>
    var updated: map<string, int>
    var symbols: seq<string>

    ghost function Contents(): StoreState
      reads this`meta, this`views
    {
      StoreState(meta, views)
    }

    constructor ()
      ensures Contents() == StoreState(map[], map[]) && symbols == []
    {
      meta, views, updated, symbols := map[], map[], map[], [];
    }

    /** Registers the universe; a baseline already tracked is kept. */
    method PrimeUniverse(defs: seq<Definition>)
      modifies this`meta, this`symbols
      ensures Contents() == AfterPrimingAll(old(Contents()), defs)
      ensures |symbols| == |defs| && forall i | 0 <= i < |defs| :: symbols[i] == defs[i].symbol
    {
      var nextList := [];
      for i := 0 to |defs|
        invariant Contents() == AfterPrimingAll(old(Contents()), defs[..i])
        invariant |nextList| == i && forall j | 0 <= j < i :: nextList[j] == defs[j].symbol
      {
        var d := defs[i];
        assert defs[..i + 1][..i] == defs[..i];
        meta := meta[d.symbol := Meta(d.name, d.referencePrice,
                                      if d.symbol in meta then meta[d.symbol].baseline else d.referencePrice)];
        nextList := nextList + [d.symbol];
      }
      assert defs[..|defs|] == defs;
      if nextList != symbols {
        symbols := nextList;
      }
    }

    method ApplySnapshot(snap: Snapshot, now: int)
      modifies this`meta, this`views, this`updated
      ensures Contents() == AfterSnapshot(old(Contents()), snap)
      ensures updated == if snap.symbol in old(meta) then old(updated)[snap.symbol := now] else old(updated)
    {
      if snap.symbol !in meta {
        return;
      }
      var baseline := if snap.previousClose.Some? then snap.previousClose.value else snap.open;
      var existing := meta[snap.symbol];
      meta := meta[snap.symbol := Meta(existing.name, existing.referencePrice, baseline)];
      views := views[snap.symbol :=
        View(snap.symbol, existing.name, snap.price, baseline, snap.volume, snap.stream)];
      updated := updated[snap.symbol := now];
    }

    method ApplyTick(tick: Tick, now: int)
      modifies this`views, this`updated
      ensures Contents() == AfterTick(old(Contents()), tick)
      ensures updated == if tick.symbol in meta then old(updated)[tick.symbol := now] else old(updated)
    {
      if tick.symbol !in meta {
        return;
      }
      var m := meta[tick.symbol];
      var previousVolume := if tick.symbol in views then views[tick.symbol].volume else 0;
      views := views[tick.symbol :=
        View(tick.symbol, m.name, tick.price, m.baseline, previousVolume + tick.quantity, tick.stream)];
      updated := updated[tick.symbol := now];
    }
  }
}

/** Coalesces ticks between frames, and what that leaves unchanged about the store they are flushed into. */
module TickDispatcher {
  import opened MarketStore

  // ---- the pending ticks, in the order their symbols first came ----

  predicate OnePerSymbol(pending: seq<Tick>) {
    forall i, j | 0 <= i < j < |pending| :: pending[i].symbol != pending[j].symbol
  }

  /** Where a symbol's pending tick is, or the length when it has none. */
  function IndexOf(pending: seq<Tick>, symbol: string): (n: nat)
    ensures n <= |pending|
    ensures forall i | 0 <= i < n :: pending[i].symbol != symbol
    ensures n < |pending| ==> pending[n].symbol == symbol
  {
    if pending == [] || pending[0].symbol == symbol then 0 else 1 + IndexOf(pending[1..], symbol)
  }

  /** The newest tick wins, and carries the quantity of those it replaces. */
  function Merged(older: Tick, newer: Tick): Tick {
    newer.(quantity := older.quantity + newer.quantity)
  }

  function Pushed(pending: seq<Tick>, t: Tick): seq<Tick> {
    var i := IndexOf(pending, t.symbol);
    if i < |pending| then pending[i := Merged(pending[i], t)] else pending + [t]
  }

  function Flushed(s: StoreState, pending: seq<Tick>): StoreState {
    if pending == [] then s else AfterTick(Flushed(s, pending[..|pending| - 1]), pending[|pending| - 1])
  }

  lemma PushedOnePerSymbol(pending: seq<Tick>, t: Tick)
    requires OnePerSymbol(pending)
    ensures OnePerSymbol(Pushed(pending, t))
  {
  }

  // ---- what a flush does, symbol by symbol ----

  /** A symbol's view after a flush, from its own pending tick alone. */
  ghost predicate FlushedView(s: StoreState, pending: seq<Tick>, symbol: string, r: StoreState) {
    var i := IndexOf(pending, symbol);
    if symbol in s.meta && i < |pending|
    then symbol in r.views
      && r.views[symbol]
        == ViewAt(s.meta[symbol], symbol, pending[i].price, VolumeIn(s, symbol) + pending[i].quantity,
                  pending[i].stream)
    else (symbol in r.views <==> symbol in s.views) && (symbol in s.views ==> r.views[symbol] == s.views[symbol])
  }

  lemma {:induction false} IndexOfInit(pending: seq<Tick>, symbol: string)
    requires OnePerSymbol(pending) && pending != []
    ensures var n := |pending| - 1;
      var k := IndexOf(pending[..n], symbol);
      IndexOf(pending, symbol) == if pending[n].symbol == symbol then n else if k < n then k else n + 1
    ensures pending[|pending| - 1].symbol == symbol ==> IndexOf(pending[..|pending| - 1], symbol) == |pending| - 1
  {
    var n := |pending| - 1;
    var i, k := IndexOf(pending, symbol), IndexOf(pending[..n], symbol);
    if k < n {
      assert pending[k].symbol == symbol;
    }
  }

  lemma {:induction false} FlushBySymbol(s: StoreState, pending: seq<Tick>, symbol: string)
    requires OnePerSymbol(pending)
    ensures Flushed(s, pending).meta == s.meta && FlushedView(s, pending, symbol, Flushed(s, pending))
    decreases |pending|
  {
    if pending != [] {
      var init := pending[..|pending| - 1];
      FlushBySymbol(s, init, symbol);
      IndexOfInit(pending, symbol);
    }
  }

  ghost predicate SameAt(a: StoreState, b: StoreState, symbol: string) {
    (symbol in a.views <==> symbol in b.views) && (symbol in a.views ==> a.views[symbol] == b.views[symbol])
  }

  lemma SameViews(a: StoreState, b: StoreState)
    requires a.meta == b.meta && forall x :: SameAt(a, b, x)
    ensures a == b
  {
    assert forall x | x in a.views :: SameAt(a, b, x);
    assert forall x | x in b.views :: SameAt(a, b, x);
    assert a.views == b.views;
  }

  /** Pushing then flushing is flushing then applying: one more tick makes no difference to where the store ends. */
  lemma PushThenFlush(s: StoreState, pending: seq<Tick>, t: Tick)
    requires OnePerSymbol(pending)
    ensures Flushed(s, Pushed(pending, t)) == AfterTick(Flushed(s, pending), t)
  {
    var a, b := Flushed(s, Pushed(pending, t)), AfterTick(Flushed(s, pending), t);
    PushedOnePerSymbol(pending, t);
    FlushBySymbol(s, pending, t.symbol);
    FlushBySymbol(s, Pushed(pending, t), t.symbol);
    forall x ensures SameAt(a, b, x) {
      FlushBySymbol(s, pending, x);
      FlushBySymbol(s, Pushed(pending, t), x);
      PushedIndex(pending, t, x);
    }
    SameViews(a, b);
  }

  lemma PushedIndex(pending: seq<Tick>, t: Tick, x: string)
    requires OnePerSymbol(pending)
    ensures var i, after := IndexOf(pending, x), Pushed(pending, t);
      if x == t.symbol
      then IndexOf(after, x) == i < |after| && after[i] == (if i < |pending| then Merged(pending[i], t) else t)
      else if i < |pending| then IndexOf(after, x) == i < |after| && after[i] == pending[i]
      else IndexOf(after, x) == |after|
  {
    PushedOnePerSymbol(pending, t);
    var i, after := IndexOf(pending, x), Pushed(pending, t);
    if x == t.symbol || i < |pending| {
      IndexIs(after, x, i);
    } else {
      assert forall j | 0 <= j < |after| :: after[j].symbol != x;
    }
  }

  lemma IndexIs(pending: seq<Tick>, symbol: string, i: nat)
    requires OnePerSymbol(pending) && i < |pending| && pending[i].symbol == symbol
    ensures IndexOf(pending, symbol) == i
  {
  }

  /** The order pending ticks are flushed in does not matter. */
  lemma FlushOrderIsIrrelevant(s: StoreState, p: seq<Tick>, q: seq<Tick>)
    requires OnePerSymbol(p) && OnePerSymbol(q) && forall t :: t in p <==> t in q
    ensures Flushed(s, p) == Flushed(s, q)
  {
    var a, b := Flushed(s, p), Flushed(s, q);
    FlushBySymbol(s, p, "");
    FlushBySymbol(s, q, "");
    forall x ensures SameAt(a, b, x) {
      FlushBySymbol(s, p, x);
      FlushBySymbol(s, q, x);
      SamePending(p, q, x);
    }
    SameViews(a, b);
  }

  lemma SamePending(p: seq<Tick>, q: seq<Tick>, x: string)
    requires OnePerSymbol(p) && OnePerSymbol(q) && forall t :: t in p <==> t in q
    ensures var i, j := IndexOf(p, x), IndexOf(q, x);
      (i < |p| <==> j < |q|) && (i < |p| ==> p[i] == q[j])
  {
    var i, j := IndexOf(p, x), IndexOf(q, x);
    if j < |q| {
      assert q[j] in p;
    }
    if i < |p| {
      assert p[i] in q;
      var k :| 0 <= k < |q| && q[k] == p[i];
      IndexIs(q, x, k);
    }
  }

  // ---- snapshots and the universe arriving between flushes ----

  function PendingQuantity(pending: seq<Tick>, symbol: string): int {
    var i := IndexOf(pending, symbol);
    if i < |pending| then pending[i].quantity else 0
  }

  /** A snapshot applied over a pending tick counts that tick's quantity on top of its own volume; applied after
      the flush it does not. The two volumes agree exactly when nothing is pending, or what is adds up to zero. */
  lemma SnapshotOverPendingOvercounts(s: StoreState, pending: seq<Tick>, snap: Snapshot)
    requires OnePerSymbol(pending) && snap.symbol in s.meta
    ensures VolumeIn(Flushed(AfterSnapshot(s, snap), pending), snap.symbol)
         == snap.volume + PendingQuantity(pending, snap.symbol)
    ensures VolumeIn(AfterSnapshot(Flushed(s, pending), snap), snap.symbol) == snap.volume
  {
    FlushBySymbol(AfterSnapshot(s, snap), pending, snap.symbol);
    FlushBySymbol(s, pending, snap.symbol);
  }

  /** A snapshot for a symbol with nothing pending commutes with the flush. */
  lemma SnapshotCommutesWhenNothingPending(s: StoreState, pending: seq<Tick>, snap: Snapshot)
    requires OnePerSymbol(pending) && IndexOf(pending, snap.symbol) == |pending|
    ensures Flushed(AfterSnapshot(s, snap), pending) == AfterSnapshot(Flushed(s, pending), snap)
  {
    var a, b := Flushed(AfterSnapshot(s, snap), pending), AfterSnapshot(Flushed(s, pending), snap);
    FlushBySymbol(AfterSnapshot(s, snap), pending, snap.symbol);
    FlushBySymbol(s, pending, snap.symbol);
    forall x ensures SameAt(a, b, x) {
      FlushBySymbol(AfterSnapshot(s, snap), pending, x);
      FlushBySymbol(s, pending, x);
    }
    SameViews(a, b);
  }

  /** So does priming one: a pending tick would take the new name, or a place in the universe it did not have. */
  lemma PrimingCommutesWhenNothingPending(s: StoreState, pending: seq<Tick>, d: Definition)
    requires OnePerSymbol(pending) && IndexOf(pending, d.symbol) == |pending|
    ensures Flushed(AfterPriming(s, d), pending) == AfterPriming(Flushed(s, pending), d)
  {
    var a, b := Flushed(AfterPriming(s, d), pending), AfterPriming(Flushed(s, pending), d);
    FlushBySymbol(AfterPriming(s, d), pending, d.symbol);
    FlushBySymbol(s, pending, d.symbol);
    forall x ensures SameAt(a, b, x) {
      FlushBySymbol(AfterPriming(s, d), pending, x);
      FlushBySymbol(s, pending, x);
    }
    SameViews(a, b);
  }

  // ---- whole runs ----

  datatype Action = Push(t: Tick) | Flush | Snap(snap: Snapshot) | Prime(def: Definition)

  datatype Coalesced = Coalesced(store: StoreState, pending: seq<Tick>)

  /** Ticks wait for the frame; snapshots and definitions go straight into the store. */
  function After(c: Coalesced, a: Action): Coalesced {
    match a
    case Push(t) => c.(pending := Pushed(c.pending, t))
    case Flush => Coalesced(Flushed(c.store, c.pending), [])
    case Snap(snap) => c.(store := AfterSnapshot(c.store, snap))
    case Prime(d) => c.(store := AfterPriming(c.store, d))
  }

  function AfterRun(c: Coalesced, run: seq<Action>): Coalesced {
    if run == [] then c else After(AfterRun(c, run[..|run| - 1]), run[|run| - 1])
  }

  /** Everything that arrived, in order, as the store would have been written without a dispatcher. */
  function Arrivals(run: seq<Action>): seq<Write> {
    if run == [] then []
    else
      var before, a := Arrivals(run[..|run| - 1]), run[|run| - 1];
      match a
      case Push(t) => before + [Ticked(t)]
      case Flush => before
      case Snap(snap) => before + [Snapped(snap)]
      case Prime(d) => before + [Primed(d)]
  }

  /** The action does not overtake a pending tick of its own symbol. */
  predicate Settled(pending: seq<Tick>, a: Action) {
    match a
    case Snap(snap) => IndexOf(pending, snap.symbol) == |pending|
    case Prime(d) => IndexOf(pending, d.symbol) == |pending|
    case _ => true
  }

  predicate Quiet(s: StoreState, run: seq<Action>) {
    run == [] || (var init := run[..|run| - 1];
                  Quiet(s, init) && Settled(AfterRun(Coalesced(s, []), init).pending, run[|run| - 1]))
  }

  lemma {:induction false} PendingStaysOnePerSymbol(s: StoreState, run: seq<Action>)
    ensures OnePerSymbol(AfterRun(Coalesced(s, []), run).pending)
  {
    if run != [] {
      PendingStaysOnePerSymbol(s, run[..|run| - 1]);
      if run[|run| - 1].Push? {
        PushedOnePerSymbol(AfterRun(Coalesced(s, []), run[..|run| - 1]).pending, run[|run| - 1].t);
      }
    }
  }

  lemma AppendWrite(s: StoreState, ws: seq<Write>, w: Write)
    ensures AfterAll(s, ws + [w]) == AfterWrite(AfterAll(s, ws), w)
  {
    assert (ws + [w])[..|ws|] == ws;
  }

  /** However pushes, frames, snapshots and definitions fall, flushing what is pending gives the store that writing
      everything as it came would have given, provided nothing overtakes a pending tick of its own symbol. */
  lemma {:induction false} CoalescingIsInvisible(s: StoreState, run: seq<Action>)
    requires Quiet(s, run)
    ensures var c := AfterRun(Coalesced(s, []), run);
      Flushed(c.store, c.pending) == AfterAll(s, Arrivals(run))
    decreases |run|
  {
    if run != [] {
      var init, a := run[..|run| - 1], run[|run| - 1];
      var before := AfterRun(Coalesced(s, []), init);
      CoalescingIsInvisible(s, init);
      PendingStaysOnePerSymbol(s, init);
      match a {
        case Push(t) =>
          PushThenFlush(before.store, before.pending, t);
          AppendWrite(s, Arrivals(init), Ticked(t));
        case Flush =>
        case Snap(snap) =>
          SnapshotCommutesWhenNothingPending(before.store, before.pending, snap);
          AppendWrite(s, Arrivals(init), Snapped(snap));
        case Prime(d) =>
          PrimingCommutesWhenNothingPending(before.store, before.pending, d);
          AppendWrite(s, Arrivals(init), Primed(d));
      }
    }
  }

  // ---- volume over any run ----

  /** A symbol's volume in the store, what of it is still waiting, and what was waiting at its last snapshot. */
  datatype Volume = Volume(stored: int, waiting: int, overtaken: int)

  function VolumeStep(v: Volume, a: Action, symbol: string): Volume {
    match a
    case Push(t) => if t.symbol == symbol then v.(waiting := v.waiting + t.quantity) else v
    case Flush => v.(stored := v.stored + v.waiting, waiting := 0)
    case Snap(snap) => if snap.symbol == symbol then Volume(snap.volume, v.waiting, v.waiting) else v
    case Prime(_) => v
  }

  function VolumeAfter(start: int, run: seq<Action>, symbol: string): Volume {
    if run == [] then Volume(start, 0, 0)
    else VolumeStep(VolumeAfter(start, run[..|run| - 1], symbol), run[|run| - 1], symbol)
  }

  lemma {:induction false} KnownStays(s: StoreState, run: seq<Action>, symbol: string)
    requires symbol in s.meta
    ensures symbol in AfterRun(Coalesced(s, []), run).store.meta
  {
    if run != [] {
      var init := run[..|run| - 1];
      KnownStays(s, init, symbol);
      PendingStaysOnePerSymbol(s, init);
      var before := AfterRun(Coalesced(s, []), init);
      FlushBySymbol(before.store, before.pending, symbol);
    }
  }

  /** A coalesced state whose volumes for a symbol are these. */
  ghost predicate Holds(c: Coalesced, v: Volume, symbol: string) {
    VolumeIn(c.store, symbol) == v.stored && PendingQuantity(c.pending, symbol) == v.waiting
  }

  lemma HoldsStep(c: Coalesced, v: Volume, a: Action, symbol: string)
    requires OnePerSymbol(c.pending) && symbol in c.store.meta && Holds(c, v, symbol)
    ensures Holds(After(c, a), VolumeStep(v, a, symbol), symbol)
  {
    match a
    case Push(t) => PushedIndex(c.pending, t, symbol);
    case Flush => FlushBySymbol(c.store, c.pending, symbol);
    case Snap(_) =>
    case Prime(_) =>
  }

  /** Over any run at all the store holds the last snapshot's volume and all quantity flushed since. */
  lemma {:induction false} StoredVolume(s: StoreState, run: seq<Action>, symbol: string)
    requires symbol in s.meta
    ensures Holds(AfterRun(Coalesced(s, []), run), VolumeAfter(VolumeIn(s, symbol), run, symbol), symbol)
  {
    if run != [] {
      var init := run[..|run| - 1];
      StoredVolume(s, init, symbol);
      PendingStaysOnePerSymbol(s, init);
      KnownStays(s, init, symbol);
      HoldsStep(AfterRun(Coalesced(s, []), init), VolumeAfter(VolumeIn(s, symbol), init, symbol), run[|run| - 1],
                symbol);
    }
  }

  lemma {:induction false} VolumeOffByOvertaken(start: int, run: seq<Action>, symbol: string)
    ensures var v := VolumeAfter(start, run, symbol);
      v.stored + v.waiting == SinceSnapshot(start, Arrivals(run), symbol) + v.overtaken
  {
    if run != [] {
      VolumeOffByOvertaken(start, run[..|run| - 1], symbol);
      var before, after := Arrivals(run[..|run| - 1]), Arrivals(run);
      assert |after| > |before| ==> after[..|after| - 1] == before;
    }
  }

  /** Once everything is flushed a symbol's volume is that of the arrivals exactly when its last snapshot overtook
      no quantity, and is otherwise too large by what it overtook. */
  lemma VolumeRightExactlyWhen(s: StoreState, run: seq<Action>, symbol: string)
    requires symbol in s.meta
    ensures var c := AfterRun(Coalesced(s, []), run);
      var overtaken := VolumeAfter(VolumeIn(s, symbol), run, symbol).overtaken;
      var shown, right := VolumeIn(Flushed(c.store, c.pending), symbol), VolumeIn(AfterAll(s, Arrivals(run)), symbol);
      shown == right + overtaken && (shown == right <==> overtaken == 0)
  {
    var c := AfterRun(Coalesced(s, []), run);
    StoredVolume(s, run, symbol);
    VolumeOffByOvertaken(VolumeIn(s, symbol), run, symbol);
    VolumeSinceSnapshot(s, Arrivals(run), symbol);
    PendingStaysOnePerSymbol(s, run);
    KnownStays(s, run, symbol);
    FlushBySymbol(c.store, c.pending, symbol);
  }

  // ---- what waits ----

  function PushedStep(newest: Option<Tick>, a: Action, symbol: string): Option<Tick> {
    match a
    case Push(t) => if t.symbol == symbol then Some(t) else newest
    case Flush => None
    case _ => newest
  }

  /** The tick of a symbol pushed last since the last flush. */
  function LastPushed(run: seq<Action>, symbol: string): Option<Tick> {
    if run == [] then None else PushedStep(LastPushed(run[..|run| - 1], symbol), run[|run| - 1], symbol)
  }

  /** A symbol's pending tick is the newest, with all of the waiting quantity. */
  ghost predicate Waits(pending: seq<Tick>, symbol: string, newest: Option<Tick>, quantity: int) {
    var i := IndexOf(pending, symbol);
    if newest.None? then i == |pending| && quantity == 0
    else i < |pending| && pending[i] == newest.value.(quantity := quantity)
  }

  lemma WaitsStep(c: Coalesced, newest: Option<Tick>, v: Volume, a: Action, symbol: string)
    requires OnePerSymbol(c.pending) && Waits(c.pending, symbol, newest, v.waiting)
    requires newest.Some? ==> newest.value.symbol == symbol
    ensures Waits(After(c, a).pending, symbol, PushedStep(newest, a, symbol), VolumeStep(v, a, symbol).waiting)
  {
    if a.Push? {
      PushedIndex(c.pending, a.t, symbol);
    }
  }

  /** What waits for a symbol is the tick that came last, with the quantity of all that came since the flush. */
  lemma {:induction false} NewestWaits(s: StoreState, run: seq<Action>, symbol: string, start: int)
    ensures LastPushed(run, symbol).Some? ==> LastPushed(run, symbol).value.symbol == symbol
    ensures Waits(AfterRun(Coalesced(s, []), run).pending, symbol, LastPushed(run, symbol),
                  VolumeAfter(start, run, symbol).waiting)
  {
    if run != [] {
      var init := run[..|run| - 1];
      NewestWaits(s, init, symbol, start);
      PendingStaysOnePerSymbol(s, init);
      WaitsStep(AfterRun(Coalesced(s, []), init), LastPushed(init, symbol), VolumeAfter(start, init, symbol),
                run[|run| - 1], symbol);
    }
  }

  // ---- price and stream over any run ----

  datatype Quote = Quote(price: Price, stream: Stream)

  function QuoteIn(s: StoreState, symbol: string): Option<Quote> {
    if symbol in s.views then Some(Quote(s.views[symbol].price, s.views[symbol].stream)) else None
  }

  function PendingQuote(pending: seq<Tick>, symbol: string): Option<Quote> {
    var i := IndexOf(pending, symbol);
    if i < |pending| then Some(Quote(pending[i].price, pending[i].stream)) else None
  }

  /** A symbol's quote in the store, the one waiting, and the one its last snapshot overtook, until the next tick. */
  datatype Quotes = Quotes(stored: Option<Quote>, waiting: Option<Quote>, overtaken: Option<Quote>) {
    function Shown(): Option<Quote> {
      if waiting.Some? then waiting else stored
    }
  }

  function QuotesStep(q: Quotes, a: Action, symbol: string): Quotes {
    match a
    case Push(t) =>
      if t.symbol == symbol then q.(waiting := Some(Quote(t.price, t.stream)), overtaken := None) else q
    case Flush => q.(stored := q.Shown(), waiting := None)
    case Snap(snap) =>
      if snap.symbol == symbol then Quotes(Some(Quote(snap.price, snap.stream)), q.waiting, q.waiting) else q
    case Prime(_) => q
  }

  function QuotesAfter(start: Option<Quote>, run: seq<Action>, symbol: string): Quotes {
    if run == [] then Quotes(start, None, None)
    else QuotesStep(QuotesAfter(start, run[..|run| - 1], symbol), run[|run| - 1], symbol)
  }

  /** The coalesced state and the store written in order of arrival, seen through a symbol's quotes. */
  ghost predicate Quoted(c: Coalesced, arrived: StoreState, q: Quotes, symbol: string) {
    && QuoteIn(c.store, symbol) == q.stored && PendingQuote(c.pending, symbol) == q.waiting
    && q.Shown() == (if q.overtaken.Some? then q.overtaken else QuoteIn(arrived, symbol))
  }

  function Arrived(arrived: StoreState, a: Action): StoreState {
    match a
    case Push(t) => AfterTick(arrived, t)
    case Flush => arrived
    case Snap(snap) => AfterSnapshot(arrived, snap)
    case Prime(d) => AfterPriming(arrived, d)
  }

  lemma QuotedStep(c: Coalesced, arrived: StoreState, q: Quotes, a: Action, symbol: string)
    requires OnePerSymbol(c.pending) && symbol in c.store.meta && symbol in arrived.meta
    requires Quoted(c, arrived, q, symbol)
    ensures Quoted(After(c, a), Arrived(arrived, a), QuotesStep(q, a, symbol), symbol)
  {
    match a
    case Push(t) => PushedIndex(c.pending, t, symbol);
    case Flush => FlushBySymbol(c.store, c.pending, symbol);
    case Snap(_) =>
    case Prime(_) =>
  }

  lemma ArrivalsStep(s: StoreState, run: seq<Action>)
    requires run != []
    ensures AfterAll(s, Arrivals(run)) == Arrived(AfterAll(s, Arrivals(run[..|run| - 1])), run[|run| - 1])
  {
    var before := Arrivals(run[..|run| - 1]);
    match run[|run| - 1]
    case Push(t) => AppendWrite(s, before, Ticked(t));
    case Flush =>
    case Snap(snap) => AppendWrite(s, before, Snapped(snap));
    case Prime(d) => AppendWrite(s, before, Primed(d));
  }

  lemma {:induction false} QuotedAfter(s: StoreState, run: seq<Action>, symbol: string)
    requires symbol in s.meta
    ensures Quoted(AfterRun(Coalesced(s, []), run), AfterAll(s, Arrivals(run)),
                   QuotesAfter(QuoteIn(s, symbol), run, symbol), symbol)
  {
    if run != [] {
      var init := run[..|run| - 1];
      QuotedAfter(s, init, symbol);
      PendingStaysOnePerSymbol(s, init);
      KnownStays(s, init, symbol);
      PrimedStays(s, Arrivals(init), symbol);
      ArrivalsStep(s, run);
      QuotedStep(AfterRun(Coalesced(s, []), init), AfterAll(s, Arrivals(init)),
                 QuotesAfter(QuoteIn(s, symbol), init, symbol), run[|run| - 1], symbol);
    }
  }

  /** Once everything is flushed a symbol shows the price and stream of its last arrival exactly when its last
      snapshot overtook no tick, or one that says the same, or a tick has come since; otherwise it shows those of
      the older tick that was overtaken. */
  lemma QuoteRightExactlyWhen(s: StoreState, run: seq<Action>, symbol: string)
    requires symbol in s.meta
    ensures var c := AfterRun(Coalesced(s, []), run);
      var overtaken := QuotesAfter(QuoteIn(s, symbol), run, symbol).overtaken;
      var shown, right := QuoteIn(Flushed(c.store, c.pending), symbol), QuoteIn(AfterAll(s, Arrivals(run)), symbol);
      && shown == (if overtaken.Some? then overtaken else right)
      && (shown == right <==> overtaken.None? || overtaken == right)
  {
    var c := AfterRun(Coalesced(s, []), run);
    QuotedAfter(s, run, symbol);
    PendingStaysOnePerSymbol(s, run);
    KnownStays(s, run, symbol);
    FlushBySymbol(c.store, c.pending, symbol);
  }

  // ---- the dispatcher ----

  class TickDispatcher {
    const store: MarketStore
    var pending: seq<Tick>
    var frameRequested: bool
    var received: nat
    var flushed: nat
    var coalesced: nat

    /** Every tick received has been flushed, merged into another, or is waiting for the frame. */
    ghost predicate Valid()
      reads this
    {
      && OnePerSymbol(pending) && received == flushed + coalesced + |pending|
      && (pending != [] ==> frameRequested)
    }

    constructor (store: MarketStore)
      ensures Valid() && pending == [] && this.store == store
    {
      this.store := store;
      pending, frameRequested, received, flushed, coalesced := [], false, 0, 0, 0;
    }

    method Push(tick: Tick) returns (schedule: bool)
      requires Valid()
      modifies this
      ensures Valid() && pending == Pushed(old(pending), tick)
      ensures received == old(received) + 1 && flushed == old(flushed)
      ensures schedule == !old(frameRequested) && frameRequested
    {
      PushedOnePerSymbol(pending, tick);
      received := received + 1;
      var i := IndexOf(pending, tick.symbol);
      if i < |pending| {
        coalesced := coalesced + 1;
        pending := pending[i := tick.(quantity := pending[i].quantity + tick.quantity)];
      } else {
        pending := pending + [tick];
      }
      schedule := !frameRequested;
      frameRequested := true;
    }

    /** Hands every pending tick to the store, once each; the clock is read for each one. */
    method FlushNow(clock: seq<int>)
      requires Valid() && |clock| == |pending|
      modifies this, store
      ensures Valid() && pending == [] && !frameRequested
      ensures store.Contents() == Flushed(old(store.Contents()), old(pending))
      ensures flushed == old(flushed) + |old(pending)| && received == old(received) && coalesced == old(coalesced)
    {
      frameRequested := false;
      if |pending| == 0 {
        return;
      }
      var batch := pending;
      pending := [];
      for i := 0 to |batch|
        invariant flushed == old(flushed) + i && pending == [] && !frameRequested
        invariant received == old(received) && coalesced == old(coalesced)
        invariant store.Contents() == Flushed(old(store.Contents()), batch[..i])
      {
        assert batch[..i + 1][..i] == batch[..i];
        flushed := flushed + 1;
        store.ApplyTick(batch[i], clock[i]);
      }
      assert batch[..|batch|] == batch;
    }
  }
}

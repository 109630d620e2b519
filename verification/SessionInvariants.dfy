/** Every step of a session keeps its invariants. */
module SessionInvariants {
  import opened FeedRecords
  import opened FeedFrameWriter
  import opened SequenceLedger
  import opened SessionProtocol

  // ---- lists of items ----

  lemma NumbersOfFirst(items: seq<Item>)
    requires items != []
    ensures Numbers(items) == Numbers([items[0]]) + Numbers(items[1..])
  {
    assert [items[0]][1..] == [];
  }

  lemma {:induction false} NumbersConcat(a: seq<Item>, b: seq<Item>)
    ensures Numbers(a + b) == Numbers(a) + Numbers(b)
  {
    if a == [] {
      assert a + b == b;
    } else {
      assert (a + b)[1..] == a[1..] + b && (a + b)[0] == a[0];
      NumbersConcat(a[1..], b);
      NumbersOfFirst(a);
      NumbersOfFirst(a + b);
    }
  }

  lemma {:induction false} OpeningsConcat(a: seq<Item>, b: seq<Item>)
    ensures Openings(a + b) == Openings(a) + Openings(b)
  {
    if a == [] {
      assert a + b == b;
    } else {
      assert (a + b)[1..] == a[1..] + b;
      OpeningsConcat(a[1..], b);
    }
  }

  lemma {:induction false} BytesConcat(a: seq<Item>, b: seq<Item>)
    ensures ByteLength(a + b) == ByteLength(a) + ByteLength(b)
  {
    if a == [] {
      assert a + b == b;
    } else {
      assert (a + b)[1..] == a[1..] + b;
      BytesConcat(a[1..], b);
    }
  }

  lemma {:induction false} TicksOnly(items: seq<Item>)
    requires forall i | 0 <= i < |items| :: items[i].Numbered?
    ensures ByteLength(items) == |Numbers(items)| * TICK_FRAME_SIZE && Openings(items) == 0
    ensures |Numbers(items)| == |items|
    ensures forall i | 0 <= i < |items| :: Numbers(items)[i] == items[i].number
  {
    if items != [] {
      TicksOnly(items[1..]);
    }
  }

  lemma BatchNumbers(batch: seq<FeedRecord>, first: nat)
    ensures var items := NumberBatch(batch, first);
      && Numbers(items) == UpFrom(first, |batch|)
      && ByteLength(items) == |batch| * TICK_FRAME_SIZE && Openings(items) == 0
  {
    var items := NumberBatch(batch, first);
    TicksOnly(items);
    IsUpFrom(Numbers(items), first);
  }

  lemma IsUpFrom(s: seq<nat>, first: nat)
    requires forall i | 0 <= i < |s| :: s[i] == first + i
    ensures s == UpFrom(first, |s|)
  {
  }

  /** Dividing a buffer's length by the tick frame size counts its ticks, whether or not the shorter
      opening frame is in front of them. */
  lemma DivisionCountsTicks(items: seq<Item>)
    requires PipeShape(items)
    ensures ByteLength(items) / TICK_FRAME_SIZE == |Numbers(items)|
  {
    if items == [] {
    } else if items[0].Opening? {
      TicksOnly(items[1..]);
    } else {
      TicksOnly(items);
    }
  }

  // ---- what each flow operation does to the stream ----

  lemma QueueStream(f: Flow, items: seq<Item>)
    requires f.Ranges()
    ensures f.Queue(items).Stream() == f.Stream() + items && f.Queue(items).Ranges()
  {
    assert f.Queue(items).Unsent() == f.Unsent() + items;
  }

  lemma SendStream(f: Flow)
    requires f.reader.Sending? && f.reader.sent < f.reader.held <= |f.pipe|
    ensures f.Send().Stream() == f.Stream()
  {
    var k := f.reader.sent;
    assert f.pipe[k..] == [f.pipe[k]] + f.pipe[k + 1..];
    assert f.delivered + [f.pipe[k]] + f.pipe[k + 1..] == f.delivered + ([f.pipe[k]] + f.pipe[k + 1..]);
  }

  lemma BeatIsSilent(a: seq<Item>, beat: Item, b: seq<Item>)
    requires beat.Beat?
    ensures Numbers(a + [beat] + b) == Numbers(a + b) && Openings(a + [beat] + b) == Openings(a + b)
  {
    assert Numbers([beat]) == [] && Openings([beat]) == 0;
    assert a + [beat] + b == a + ([beat] + b);
    NumbersConcat(a, [beat] + b);
    NumbersConcat([beat], b);
    NumbersConcat(a, b);
    OpeningsConcat(a, [beat] + b);
    OpeningsConcat([beat], b);
    OpeningsConcat(a, b);
  }

  lemma BeatStream(f: Flow, number: nat)
    requires f.reader == Beating
    ensures f.SendBeat(number).Stream() == f.delivered + [Beat(number)] + f.pipe
    ensures Numbers(f.SendBeat(number).Stream()) == Numbers(f.Stream())
    ensures Openings(f.SendBeat(number).Stream()) == Openings(f.Stream())
  {
    BeatIsSilent(f.delivered, Beat(number), f.pipe);
  }

  /** The three runs a stream falls into while the reader is discarding. */
  lemma DropStream(f: Flow)
    requires f.reader.Discarding? && f.reader.held <= |f.pipe|
    ensures var held, rest := f.pipe[..f.reader.held], f.pipe[f.reader.held..];
      && f.Stream() == f.delivered + (held + rest)
      && f.DropHeld().Stream() == f.delivered + rest
      && f.pipe == held + f.DropHeld().pipe
  {
  }

  // ---- the accounts ----

  lemma AssignAccounts(b: Books, stream: seq<Item>, f: Fate, count: nat)
    requires Accounts(b, stream) && f != Queued && f != Discarded
    ensures var t := b.Assign(f, count);
      && t.nextSequence == t.ledger.Length() + 1
      && Numbers(stream) == t.ledger.Survivors()
      && t.ledger.Total(Skipped) == b.skipped + b.burning + (if f == Skipped then count else 0)
      && t.ledger.Total(Discarded) == b.discarded
  {
    AssignTotal(b.ledger, f, count, Skipped);
    AssignTotal(b.ledger, f, count, Discarded);
    AssignSurvivors(b.ledger, f, count);
  }

  lemma WriteAccounts(b: Books, stream: seq<Item>, batch: seq<FeedRecord>)
    requires Accounts(b, stream) && batch != []
    ensures Accounts(BooksAfterWrite(b, |batch|), stream + NumberBatch(batch, b.nextSequence))
  {
    NumbersConcat(stream, NumberBatch(batch, b.nextSequence));
    BatchNumbers(batch, b.nextSequence);
    AssignSurvivors(b.ledger, Queued, |batch|);
    AssignTotal(b.ledger, Queued, |batch|, Skipped);
    AssignTotal(b.ledger, Queued, |batch|, Discarded);
  }

  /** Survivors laid out as three runs, with the middle run discarded. */
  lemma DiscardMiddle(l: Ledger, a: seq<nat>, b: seq<nat>, c: seq<nat>)
    requires l.Survivors() == a + b + c
    ensures var t := l.Discard(|a|, |a| + |b|);
      && t.Survivors() == a + c
      && t.Total(Discarded) == l.Total(Discarded) + |b|
      && t.Total(Skipped) == l.Total(Skipped)
  {
    DiscardTotals(l, |a|, |a| + |b|);
    DiscardRemovesSurvivors(l, |a|, |a| + |b|);
    var s := l.Survivors();
    assert s[..|a|] == a && s[|a| + |b|..] == c;
  }

  lemma ThreeRuns(a: seq<Item>, b: seq<Item>, c: seq<Item>)
    ensures Numbers(a + (b + c)) == Numbers(a) + Numbers(b) + Numbers(c)
    ensures Numbers(a + c) == Numbers(a) + Numbers(c)
  {
    NumbersConcat(a, b + c);
    NumbersConcat(b, c);
    NumbersConcat(a, c);
  }

  lemma DropBooks(b: Books, x: seq<nat>, y: seq<nat>, z: seq<nat>, t: Books)
    requires b.ledger.Survivors() == x + y + z && b.ledger.Total(Discarded) == b.discarded
    requires t == b.(discarded := b.discarded + |y|, ledger := b.ledger.Discard(|x|, |x| + |y|))
    ensures t.ledger.Survivors() == x + z && t.ledger.Total(Discarded) == t.discarded
    ensures t.ledger.Total(Skipped) == b.ledger.Total(Skipped) && t.ledger.Length() == b.ledger.Length()
  {
    DiscardMiddle(b.ledger, x, y, z);
  }

  /** A discard removes whole frames from the front of the pipe, counts exactly the ticks among them, and
      leaves the rest of the stream as it was. */
  lemma DropAccounts(b: Books, f: Flow)
    requires PipeShape(f.pipe) && Accounts(b, f.Stream()) && f.reader.Discarding? && f.reader.held <= |f.pipe|
    ensures Accounts(BooksAfterDrop(b, f), f.DropHeld().Stream())
    ensures BooksAfterDrop(b, f).discarded == b.discarded + |Numbers(f.pipe[..f.reader.held])|
  {
    var held, rest := f.pipe[..f.reader.held], f.pipe[f.reader.held..];
    DropStream(f);
    ThreeRuns(f.delivered, held, rest);
    DivisionCountsTicks(held);
    DropBooks(b, Numbers(f.delivered), Numbers(held), Numbers(rest), BooksAfterDrop(b, f));
  }

  lemma PublisherAccounts(cfg: Config, s: Session, step: PublisherStep)
    requires s.flow.Ranges() && Accounts(s.books, s.flow.Stream()) && PublisherMay(s, step)
    ensures var t := ApplyPublisher(cfg, s, step); Accounts(t.books, t.flow.Stream())
  {
    var stream := s.flow.Stream();
    match step
    case Start =>
      QueueStream(s.flow, [Opening]);
      NumbersConcat(stream, [Opening]);
      assert Numbers([Opening]) == [];
    case Burn(count) => AssignAccounts(s.books, stream, Skipped, count);
    case SkipGated(count) => AssignAccounts(s.books, stream, Skipped, count);
    case PublishFault(batch) => AssignAccounts(s.books, stream, Voided, |batch|);
    case Publish(batch) =>
      QueueStream(s.flow, NumberBatch(batch, s.books.nextSequence));
      WriteAccounts(s.books, stream, batch);
    case _ =>
  }

  lemma ReaderAccounts(s: Session, step: ReaderStep)
    requires s.flow.Ranges() && PipeShape(s.flow.pipe) && Accounts(s.books, s.flow.Stream()) && ReaderMay(s, step)
    ensures var t := ApplyReader(s, step); Accounts(t.books, t.flow.Stream())
  {
    match step
    case SendItem => SendStream(s.flow);
    case FinishDiscard => DropAccounts(s.books, s.flow);
    case SendHeartbeat => BeatStream(s.flow, s.books.lastQueued);
    case _ =>
  }

  // ---- the pipe and its opening frame ----

  lemma OpeningAfterQueue(f: Flow, started: bool, items: seq<Item>)
    requires f.Ranges() && OpeningPlaced(f, started) && started && Openings(items) == 0
    ensures OpeningPlaced(f.Queue(items), started)
  {
    QueueStream(f, items);
    OpeningsConcat(f.Stream(), items);
    assert f.Stream() == [] ==> f.Stream() + items == items;
  }

  lemma OpeningAtStart(f: Flow)
    requires f.Ranges() && OpeningPlaced(f, false)
    ensures OpeningPlaced(f.Queue([Opening]), true) && PipeShape(f.Queue([Opening]).pipe)
  {
    QueueStream(f, [Opening]);
    assert f.Queue([Opening]).Stream() == [Opening];
  }

  /** Taking the middle of a stream takes its opening frame along exactly when that is where it was. */
  lemma OpeningAfterDrop(a: seq<Item>, b: seq<Item>, c: seq<Item>)
    requires StartsOpen(a + (b + c)) <==> Openings(a + (b + c)) == 1
    requires Openings(a + (b + c)) <= 1
    ensures StartsOpen(a + c) <==> StartsOpen(a + (b + c)) && Openings(b) == 0
    ensures Openings(a + c) == Openings(a + (b + c)) - Openings(b)
  {
    OpeningsConcat(a, b + c);
    OpeningsConcat(b, c);
    OpeningsConcat(a, c);
    var all := a + (b + c);
    if a != [] {
      assert all[0] == a[0] && (a + c)[0] == a[0];
    } else {
      assert all == b + c && a + c == c;
      if b != [] {
        assert all[0] == b[0];
      } else {
        assert all == c;
      }
    }
  }

  lemma OpeningKeptByDrop(f: Flow, started: bool)
    requires OpeningPlaced(f, started) && f.reader.Discarding? && f.reader.held <= |f.pipe|
    ensures OpeningPlaced(f.DropHeld(), started)
  {
    var held, rest := f.pipe[..f.reader.held], f.pipe[f.reader.held..];
    DropStream(f);
    OpeningAfterDrop(f.delivered, held, rest);
  }

  lemma OpeningKeptByBeat(f: Flow, started: bool, number: nat)
    requires OpeningPlaced(f, started) && f.reader == Beating
    ensures OpeningPlaced(f.SendBeat(number), started)
  {
    BeatStream(f, number);
    if f.delivered == [] {
      assert f.SendBeat(number).Stream()[0] == Beat(number);
    } else {
      assert f.SendBeat(number).Stream()[0] == f.delivered[0] == f.Stream()[0];
    }
  }

  ghost predicate FlowInv(f: Flow, started: bool) {
    f.Ranges() && PipeShape(f.pipe) && OpeningPlaced(f, started)
  }

  lemma PublisherFlow(cfg: Config, s: Session, step: PublisherStep)
    requires FlowInv(s.flow, s.gate.started) && PublisherMay(s, step)
    ensures var t := ApplyPublisher(cfg, s, step); FlowInv(t.flow, t.gate.started)
  {
    match step
    case Start => OpeningAtStart(s.flow);
    case Publish(batch) =>
      var items := NumberBatch(batch, s.books.nextSequence);
      BatchNumbers(batch, s.books.nextSequence);
      OpeningAfterQueue(s.flow, true, items);
    case _ =>
  }

  lemma ReaderShape(s: Session, step: ReaderStep)
    requires s.flow.Ranges() && PipeShape(s.flow.pipe) && ReaderMay(s, step)
    ensures var f := ApplyReader(s, step).flow; f.Ranges() && PipeShape(f.pipe)
  {
  }

  lemma ReaderOpening(s: Session, step: ReaderStep)
    requires s.flow.Ranges() && OpeningPlaced(s.flow, s.gate.started) && ReaderMay(s, step)
    ensures OpeningPlaced(ApplyReader(s, step).flow, s.gate.started)
  {
    match step
    case SendItem => SendStream(s.flow);
    case FinishDiscard => OpeningKeptByDrop(s.flow, s.gate.started);
    case SendHeartbeat => OpeningKeptByBeat(s.flow, s.gate.started, s.books.lastQueued);
    case _ => assert ApplyReader(s, step).flow.Stream() == s.flow.Stream();
  }

  lemma ReaderFlow(s: Session, step: ReaderStep)
    requires FlowInv(s.flow, s.gate.started) && ReaderMay(s, step)
    ensures var t := ApplyReader(s, step); FlowInv(t.flow, t.gate.started)
  {
    ReaderShape(s, step);
    ReaderOpening(s, step);
  }

  // ---- control and marks ----

  lemma PublisherControl(cfg: Config, s: Session, step: PublisherStep)
    requires Control(cfg, s.gate, s.books, s.flow.reader) && PublisherMay(s, step)
    ensures var t := ApplyPublisher(cfg, s, step); Control(cfg, t.gate, t.books, t.flow.reader)
  {
  }

  lemma HandlerControl(cfg: Config, s: Session, step: HandlerStep)
    requires Control(cfg, s.gate, s.books, s.flow.reader) && HandlerMay(cfg, s, step)
    ensures Control(cfg, ApplyHandler(cfg, s.gate, s.books.skipped, step), s.books, s.flow.reader)
  {
  }

  lemma ReaderControl(cfg: Config, s: Session, step: ReaderStep)
    requires Control(cfg, s.gate, s.books, s.flow.reader) && ReaderMay(s, step)
    ensures var t := ApplyReader(s, step); Control(cfg, t.gate, t.books, t.flow.reader)
  {
  }

  lemma MarksAfterQueue(f: Flow, items: seq<Item>, last: nat, newLast: nat)
    requires f.Ranges() && Marks(f, last) && last <= newLast && NumberedUpTo(items, newLast)
    ensures Marks(f.Queue(items), newLast)
  {
    var pipe := f.pipe + items;
    forall i | 0 <= i < |pipe| && pipe[i].Numbered? ensures pipe[i].number <= newLast {
      if i < |f.pipe| {
        assert pipe[i] == f.pipe[i];
      } else {
        assert pipe[i] == items[i - |f.pipe|];
      }
    }
    if f.reader.Discarding? {
      assert pipe[..f.reader.held] == f.pipe[..f.reader.held];
    }
  }

  lemma PublisherMarks(cfg: Config, s: Session, step: PublisherStep)
    requires s.flow.Ranges() && Marks(s.flow, s.books.lastQueued) && s.books.lastQueued < s.books.nextSequence
    requires PublisherMay(s, step)
    ensures var t := ApplyPublisher(cfg, s, step); Marks(t.flow, t.books.lastQueued)
  {
    match step
    case Start => MarksAfterQueue(s.flow, [Opening], s.books.lastQueued, s.books.lastQueued);
    case Publish(batch) =>
      var last := s.books.nextSequence + |batch| - 1;
      MarksAfterQueue(s.flow, NumberBatch(batch, s.books.nextSequence), s.books.lastQueued, last);
    case _ =>
  }

  lemma ReaderMarks(cfg: Config, s: Session, step: ReaderStep)
    requires s.flow.Ranges() && Marks(s.flow, s.books.lastQueued)
    requires Control(cfg, s.gate, s.books, s.flow.reader) && ReaderMay(s, step)
    ensures var t := ApplyReader(s, step); Marks(t.flow, t.books.lastQueued)
  {
  }

  lemma InvKept(cfg: Config, s: Session, step: Step)
    requires Inv(cfg, s) && Enabled(cfg, s, step)
    ensures Inv(cfg, Apply(cfg, s, step))
  {
    match step
    case ByPublisher(p) =>
      PublisherFlow(cfg, s, p);
      PublisherAccounts(cfg, s, p);
      PublisherControl(cfg, s, p);
      PublisherMarks(cfg, s, p);
    case ByHandler(h) => HandlerControl(cfg, s, h);
    case ByReader(r) =>
      ReaderFlow(s, r);
      ReaderAccounts(s, r);
      ReaderControl(cfg, s, r);
      ReaderMarks(cfg, s, r);
    case ByCloser(_) =>
  }

  // ---- runs ----

  /** `t` is where the steps lead from `s`, each enabled where it is taken. */
  ghost predicate Reaches(cfg: Config, s: Session, steps: seq<Step>, t: Session)
    decreases |steps|
  {
    if steps == [] then s == t
    else Enabled(cfg, s, steps[0]) && Reaches(cfg, Apply(cfg, s, steps[0]), steps[1..], t)
  }

  lemma {:induction false} ReachesConcat(cfg: Config, s: Session, first: seq<Step>, m: Session, second: seq<Step>,
                                         t: Session)
    requires Reaches(cfg, s, first, m) && Reaches(cfg, m, second, t)
    ensures Reaches(cfg, s, first + second, t)
    decreases |first|
  {
    if first == [] {
      assert first + second == second;
    } else {
      ReachesConcat(cfg, Apply(cfg, s, first[0]), first[1..], m, second, t);
      assert (first + second)[1..] == first[1..] + second;
    }
  }

  lemma OneStep(cfg: Config, s: Session, step: Step)
    requires Enabled(cfg, s, step)
    ensures Reaches(cfg, s, [step], Apply(cfg, s, step))
  {
    assert [step][1..] == [];
    assert Reaches(cfg, Apply(cfg, s, step), [], Apply(cfg, s, step));
  }

  /** One more step at the end of a run. */
  lemma Then(cfg: Config, s: Session, steps: seq<Step>, t: Session, step: Step)
    requires Reaches(cfg, s, steps, t) && Enabled(cfg, t, step)
    ensures Reaches(cfg, s, steps + [step], Apply(cfg, t, step))
  {
    OneStep(cfg, t, step);
    ReachesConcat(cfg, s, steps, t, [step], Apply(cfg, t, step));
  }

  /** The `k`th step leads from the `k`th state to the next. */
  ghost predicate Leads(cfg: Config, steps: seq<Step>, states: seq<Session>, k: nat)
    requires k < |steps| && |states| == |steps| + 1
  {
    Enabled(cfg, states[k], steps[k]) && states[k + 1] == Apply(cfg, states[k], steps[k])
  }

  /** The states a run from a new session goes through. */
  ghost predicate IsTrace(cfg: Config, steps: seq<Step>, states: seq<Session>) {
    && |states| == |steps| + 1 && states[0] == Init()
    && forall k | 0 <= k < |steps| :: Leads(cfg, steps, states, k)
  }

  lemma TraceExtends(cfg: Config, steps: seq<Step>, states: seq<Session>, step: Step)
    requires IsTrace(cfg, steps, states) && Enabled(cfg, states[|steps|], step)
    ensures IsTrace(cfg, steps + [step], states + [Apply(cfg, states[|steps|], step)])
  {
    var more, on := steps + [step], states + [Apply(cfg, states[|steps|], step)];
    forall k | 0 <= k < |steps| ensures Leads(cfg, more, on, k) {
      assert Leads(cfg, steps, states, k);
    }
  }

  lemma TracePrefix(cfg: Config, steps: seq<Step>, states: seq<Session>, n: nat)
    requires IsTrace(cfg, steps, states) && n <= |steps|
    ensures IsTrace(cfg, steps[..n], states[..n + 1])
  {
    var fewer, first := steps[..n], states[..n + 1];
    forall k | 0 <= k < n ensures Leads(cfg, fewer, first, k) {
      assert Leads(cfg, steps, states, k);
    }
  }

  lemma {:induction false} TraceReaches(cfg: Config, steps: seq<Step>, states: seq<Session>)
    requires IsTrace(cfg, steps, states)
    ensures Reaches(cfg, Init(), steps, states[|steps|])
    decreases |steps|
  {
    if steps != [] {
      var n := |steps| - 1;
      TracePrefix(cfg, steps, states, n);
      TraceReaches(cfg, steps[..n], states[..n + 1]);
      assert Leads(cfg, steps, states, n) && steps == steps[..n] + [steps[n]];
      Then(cfg, Init(), steps[..n], states[n], steps[n]);
    }
  }

  lemma EmptyFlow(f: Flow)
    requires f == Flow([], Idle, [], false)
    ensures f.Stream() == [] && Numbers(f.Stream()) == []
  {
    assert f.Stream() == [];
  }

  lemma EmptyOpening(f: Flow)
    requires f == Flow([], Idle, [], false)
    ensures f.Ranges() && PipeShape(f.pipe) && OpeningPlaced(f, false)
  {
    EmptyFlow(f);
  }

  lemma EmptyAccounts(b: Books, stream: seq<Item>)
    requires b == Books(1, 0, 0, 0, 0, 0, Empty) && Numbers(stream) == []
    ensures Accounts(b, stream)
  {
  }

  lemma EmptyControl(cfg: Config, g: Gate, b: Books)
    requires g == Gate(Running, false, false, NoHandler, false, 0, 0) && b == Books(1, 0, 0, 0, 0, 0, Empty)
    ensures Control(cfg, g, b, Idle)
  {
  }

  lemma EmptyMarks(f: Flow)
    requires f == Flow([], Idle, [], false)
    ensures Marks(f, 0)
  {
  }

  lemma InvFresh(cfg: Config, s: Session)
    requires s.gate == Gate(Running, false, false, NoHandler, false, 0, 0)
    requires s.flow == Flow([], Idle, [], false) && s.books == Books(1, 0, 0, 0, 0, 0, Empty)
    ensures Inv(cfg, s)
  {
    EmptyFlow(s.flow);
    EmptyOpening(s.flow);
    EmptyAccounts(s.books, s.flow.Stream());
    EmptyControl(cfg, s.gate, s.books);
    EmptyMarks(s.flow);
  }

  lemma InvInitially(cfg: Config)
    ensures Inv(cfg, Init())
  {
    InvFresh(cfg, Init());
  }

  lemma {:induction false} InvAlongRun(cfg: Config, s: Session, steps: seq<Step>, t: Session)
    requires Inv(cfg, s) && Reaches(cfg, s, steps, t)
    ensures Inv(cfg, t)
    decreases |steps|
  {
    if steps != [] {
      InvKept(cfg, s, steps[0]);
      InvAlongRun(cfg, Apply(cfg, s, steps[0]), steps[1..], t);
    }
  }

  lemma InvReachable(cfg: Config, steps: seq<Step>, t: Session)
    requires Reaches(cfg, Init(), steps, t)
    ensures Inv(cfg, t)
  {
    InvInitially(cfg);
    InvAlongRun(cfg, Init(), steps, t);
  }
}

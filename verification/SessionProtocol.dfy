/** One consumer's session as a step system: any number of publishers, the pipe reader and the
    backpressure handler, interleaved at every point where the implementation lets them. */
module SessionProtocol {
  import opened FeedRecords
  import opened FeedFrameWriter
  import opened SequenceLedger

  datatype Policy = Disconnect | DropOldest

  datatype Config = Config(policy: Policy, bufferBytes: nat) {
    predicate Valid() { bufferBytes >= 2 * TICK_FRAME_SIZE }

    /** The pipe resumes its writer below this many unread bytes. */
    function ResumeBytes(): nat { bufferBytes / 2 }
  }

  // ---- what travels ----

  /** What the session puts on its stream; heartbeats bypass the pipe. */
  datatype Item = Opening | Numbered(number: nat, record: FeedRecord) | Beat(number: nat)

  function Size(item: Item): nat {
    match item
    case Opening => SESSION_START_FRAME_SIZE
    case Numbered(_, _) => TICK_FRAME_SIZE
    case Beat(_) => HEARTBEAT_FRAME_SIZE
  }

  function ByteLength(items: seq<Item>): nat {
    if items == [] then 0 else Size(items[0]) + ByteLength(items[1..])
  }

  function Numbers(items: seq<Item>): seq<nat> {
    if items == [] then []
    else (if items[0].Numbered? then [items[0].number] else []) + Numbers(items[1..])
  }

  function Openings(items: seq<Item>): nat {
    if items == [] then 0 else (if items[0].Opening? then 1 else 0) + Openings(items[1..])
  }

  predicate StartsOpen(items: seq<Item>) {
    items != [] && items[0].Opening?
  }

  /** A batch under the numbers `first`, `first + 1`, ... */
  function NumberBatch(batch: seq<FeedRecord>, first: nat): (items: seq<Item>)
    ensures |items| == |batch|
    ensures forall i | 0 <= i < |batch| :: items[i] == Numbered(first + i, batch[i])
  {
    seq(|batch|, i requires 0 <= i < |batch| => Numbered(first + i, batch[i]))
  }

  predicate AllTicks(batch: seq<FeedRecord>) {
    forall i | 0 <= i < |batch| :: IsTickType(batch[i].messageType)
  }

  // ---- the pipe, its reader, and the socket behind it ----

  /** `Holding` is a buffer read but not yet looked at; `Sending` has handed `sent` of its items to the
      socket; `Discarding` carries the last number queued when the request it obeys was raised. */
  datatype Reader =
    | Idle
    | Holding(held: nat)
    | Sending(held: nat, sent: nat)
    | Discarding(held: nat, mark: nat)
    | Beating
    | Finished

  datatype Flow = Flow(pipe: seq<Item>, reader: Reader, delivered: seq<Item>, openingLost: bool) {

    /** The reader works on a prefix of the pipe. */
    predicate Ranges() {
      match reader
      case Holding(held) => held <= |pipe|
      case Sending(held, sent) => sent <= held <= |pipe|
      case Discarding(held, _) => held <= |pipe|
      case _ => true
    }

    /** What the reader has yet to hand to the socket. */
    function Unsent(): seq<Item> {
      if reader.Sending? && reader.sent <= |pipe| then pipe[reader.sent..] else pipe
    }

    function Stream(): seq<Item> {
      delivered + Unsent()
    }

    function Queue(items: seq<Item>): Flow {
      this.(pipe := pipe + items)
    }

    function Send(): Flow
      requires reader.Sending? && reader.sent < reader.held <= |pipe|
    {
      this.(delivered := delivered + [pipe[reader.sent]], reader := Sending(reader.held, reader.sent + 1))
    }

    function DropSent(): Flow
      requires reader.Sending? && reader.sent == reader.held <= |pipe|
    {
      this.(pipe := pipe[reader.held..], reader := Idle)
    }

    function DropHeld(): Flow
      requires reader.Discarding? && reader.held <= |pipe|
    {
      this.(pipe := pipe[reader.held..], reader := Idle,
            openingLost := openingLost || Openings(pipe[..reader.held]) > 0)
    }

    function SendBeat(number: nat): Flow {
      this.(delivered := delivered + [Beat(number)], reader := Idle)
    }

    function Stop(): Flow {
      this.(pipe := Unsent(), reader := Finished)
    }
  }

  // ---- the numbers ----

  /** `observed` and `burning` total the records of publishers caught between reading the state, taking the
      numbers of what they skip, and counting it; `ledger` is history. */
  datatype Books = Books(
    nextSequence: nat, lastQueued: nat, skipped: nat, discarded: nat,
    observed: nat, burning: nat, ledger: Ledger)
  {
    ghost function Assign(f: Fate, count: nat): Books {
      this.(nextSequence := nextSequence + count, ledger := ledger.Assign(f, count))
    }
  }

  // ---- the state word ----

  datatype Phase = Running | Backpressured | Closing

  /** Where the backpressure handler is; `Recovering` holds the write gate. */
  datatype Handler = NoHandler | Waiting | Resumed | Cleared | Recovering | Evicting

  datatype Gate = Gate(
    phase: Phase, started: bool, closeRequested: bool, handler: Handler,
    discardRequested: bool, skippedAtOnset: nat, onsetMark: nat)
  {
    predicate Free() {
      handler != Recovering
    }

    function Close(): Gate {
      this.(phase := Closing)
    }
  }

  datatype Session = Session(gate: Gate, flow: Flow, books: Books)

  ghost function Init(): Session {
    Session(Gate(Running, false, false, NoHandler, false, 0, 0), Flow([], Idle, [], false),
            Books(1, 0, 0, 0, 0, 0, Empty))
  }

  // ---- steps ----

  /** TryPublish: outside the gate it reads the state, takes the numbers and counts the loss one by one. */
  datatype PublisherStep =
    | Start
    | Observe(count: nat)
    | Burn(count: nat)
    | Count(count: nat)
    | SkipGated(count: nat)
    | Publish(batch: seq<FeedRecord>)
    | PublishFault(batch: seq<FeedRecord>)

  /** HandleBackpressureAsync. */
  datatype HandlerStep =
    | FlushResumes
    | ClearRequest
    | DecideRecovery
    | CompleteRecovery
    | FlushTimesOut
    | Evict
    | FlushDies

  /** RunWriteLoopAsync. */
  datatype ReaderStep =
    | ReadPipe
    | TakeBuffer
    | SendItem
    | FinishSend
    | FinishDiscard
    | ReadEmpty
    | SendHeartbeat
    | Finish

  datatype CloserStep = BeginClose | MarkClosing

  datatype Step =
    | ByPublisher(p: PublisherStep)
    | ByHandler(h: HandlerStep)
    | ByReader(r: ReaderStep)
    | ByCloser(c: CloserStep)

  predicate PublisherMay(s: Session, step: PublisherStep) {
    match step
    case Start => !s.gate.started && s.gate.Free()
    case Observe(count) => s.gate.started && s.gate.phase == Backpressured && count > 0
    case Burn(count) => count <= s.books.observed
    case Count(count) => count <= s.books.burning
    case SkipGated(count) => s.gate.started && s.gate.Free() && s.gate.phase == Backpressured && count > 0
    case Publish(batch) => MayWrite(s.gate) && batch != [] && AllTicks(batch)
    case PublishFault(batch) => MayWrite(s.gate) && batch != [] && !AllTicks(batch)
  }

  predicate MayWrite(g: Gate) {
    g.started && g.Free() && g.phase == Running
  }

  predicate HandlerMay(cfg: Config, s: Session, step: HandlerStep) {
    match step
    case FlushResumes => s.gate.handler == Waiting && ByteLength(s.flow.pipe) < cfg.ResumeBytes()
    case ClearRequest => s.gate.handler == Resumed
    case DecideRecovery => s.gate.handler == Cleared
    case CompleteRecovery => s.gate.handler == Recovering
    case FlushTimesOut => s.gate.handler == Waiting
    case Evict => s.gate.handler == Evicting
    case FlushDies => s.gate.handler == Waiting && (s.gate.closeRequested || s.flow.reader == Finished)
  }

  predicate ReaderMay(s: Session, step: ReaderStep) {
    var f := s.flow;
    match step
    case ReadPipe => f.reader == Idle && f.pipe != []
    case TakeBuffer => f.reader.Holding?
    case SendItem => f.reader.Sending? && f.reader.sent < f.reader.held <= |f.pipe|
    case FinishSend => f.reader.Sending? && f.reader.sent == f.reader.held <= |f.pipe|
    case FinishDiscard => f.reader.Discarding? && f.reader.held <= |f.pipe|
    case ReadEmpty => f.reader == Idle && f.pipe == [] && s.gate.started && !s.gate.closeRequested
    case SendHeartbeat => f.reader == Beating
    case Finish => s.gate.started && f.reader != Finished
  }

  predicate Enabled(cfg: Config, s: Session, step: Step) {
    match step
    case ByPublisher(p) => PublisherMay(s, p)
    case ByHandler(h) => HandlerMay(cfg, s, h)
    case ByReader(r) => ReaderMay(s, r)
    case ByCloser(_) => s.gate.Free()
  }

  // WriteBatchLocked: number the batch, queue it, flush, and fall behind if the pipe is full.
  ghost function BooksAfterWrite(b: Books, count: nat): Books
    requires count > 0
  {
    b.Assign(Queued, count).(lastQueued := b.nextSequence + count - 1)
  }

  function GateAfterWrite(cfg: Config, g: Gate, f: Flow, skipped: nat, last: nat): Gate {
    if f.reader == Finished then g.Close()
    else if ByteLength(f.pipe) < cfg.bufferBytes then g
    else g.(phase := Backpressured, handler := Waiting, skippedAtOnset := skipped,
            discardRequested := cfg.policy == DropOldest, onsetMark := last)
  }

  ghost function Write(cfg: Config, s: Session, batch: seq<FeedRecord>): Session
    requires batch != []
  {
    var flow := s.flow.Queue(NumberBatch(batch, s.books.nextSequence));
    var books := BooksAfterWrite(s.books, |batch|);
    Session(GateAfterWrite(cfg, s.gate, flow, s.books.skipped, books.lastQueued), flow, books)
  }

  ghost function ApplyPublisher(cfg: Config, s: Session, step: PublisherStep): Session
    requires PublisherMay(s, step)
  {
    var b := s.books;
    match step
    case Start => s.(gate := s.gate.(started := true), flow := s.flow.Queue([Opening]))
    case Observe(count) => s.(books := b.(observed := b.observed + count))
    case Burn(count) =>
      s.(books := b.Assign(Skipped, count).(observed := b.observed - count, burning := b.burning + count))
    case Count(count) => s.(books := b.(burning := b.burning - count, skipped := b.skipped + count))
    case SkipGated(count) => s.(books := b.Assign(Skipped, count).(skipped := b.skipped + count))
    case Publish(batch) => Write(cfg, s, batch)
    case PublishFault(batch) => s.(books := b.Assign(Voided, |batch|), gate := s.gate.Close())
  }

  function Decide(cfg: Config, g: Gate, skipped: nat): Gate {
    if g.phase != Backpressured then g.(handler := NoHandler)
    else if cfg.policy == Disconnect && skipped > g.skippedAtOnset then g.(handler := Evicting)
    else g.(handler := Recovering)
  }

  function ApplyHandler(cfg: Config, g: Gate, skipped: nat, step: HandlerStep): Gate {
    match step
    case FlushResumes => g.(handler := Resumed)
    case ClearRequest => g.(discardRequested := false, handler := Cleared)
    case DecideRecovery => Decide(cfg, g, skipped)
    case CompleteRecovery => g.(phase := Running, handler := NoHandler)
    case FlushTimesOut => g.(handler := Evicting)
    case Evict => g.(handler := NoHandler, closeRequested := true, phase := Closing)
    case FlushDies => g.(handler := NoHandler, phase := Closing)
  }

  function Take(s: Session): Session
    requires s.flow.reader.Holding?
  {
    var held := s.flow.reader.held;
    if s.gate.discardRequested
    then s.(gate := s.gate.(discardRequested := false), flow := s.flow.(reader := Discarding(held, s.gate.onsetMark)))
    else s.(flow := s.flow.(reader := Sending(held, 0)))
  }

  /** The discard counter grows by the buffer's length over the size of a tick frame. */
  ghost function BooksAfterDrop(b: Books, f: Flow): Books
    requires f.reader.Discarding? && f.reader.held <= |f.pipe|
  {
    var from := |Numbers(f.delivered)|;
    var held := f.pipe[..f.reader.held];
    b.(discarded := b.discarded + ByteLength(held) / TICK_FRAME_SIZE,
       ledger := b.ledger.Discard(from, from + |Numbers(held)|))
  }

  ghost function ApplyReader(s: Session, step: ReaderStep): Session
    requires ReaderMay(s, step)
  {
    match step
    case ReadPipe => s.(flow := s.flow.(reader := Holding(|s.flow.pipe|)))
    case TakeBuffer => Take(s)
    case SendItem => s.(flow := s.flow.Send())
    case FinishSend => s.(flow := s.flow.DropSent())
    case FinishDiscard => s.(flow := s.flow.DropHeld(), books := BooksAfterDrop(s.books, s.flow))
    case ReadEmpty => s.(flow := s.flow.(reader := Beating))
    case SendHeartbeat => s.(flow := s.flow.SendBeat(s.books.lastQueued))
    case Finish => s.(flow := s.flow.Stop(), gate := s.gate.Close())
  }

  function ApplyCloser(g: Gate, step: CloserStep): Gate {
    match step
    case BeginClose => g.(closeRequested := true, phase := Closing)
    case MarkClosing => g.Close()
  }

  ghost function Apply(cfg: Config, s: Session, step: Step): Session
    requires Enabled(cfg, s, step)
  {
    match step
    case ByPublisher(p) => ApplyPublisher(cfg, s, p)
    case ByHandler(h) => s.(gate := ApplyHandler(cfg, s.gate, s.books.skipped, h))
    case ByReader(r) => ApplyReader(s, r)
    case ByCloser(c) => s.(gate := ApplyCloser(s.gate, c))
  }

  // ---- invariants ----

  /** The pipe holds records, behind at most one opening frame. */
  predicate PipeShape(pipe: seq<Item>) {
    && (pipe != [] ==> !pipe[0].Beat?)
    && (forall i | 1 <= i < |pipe| :: pipe[i].Numbered?)
  }

  /** A started session's stream begins with its one opening frame unless a discard took it. */
  ghost predicate OpeningPlaced(f: Flow, started: bool) {
    && (!started ==> f.pipe == [] && f.delivered == [] && !f.openingLost && f.reader != Beating)
    && (StartsOpen(f.Stream()) <==> started && !f.openingLost)
    && Openings(f.Stream()) == (if started && !f.openingLost then 1 else 0)
    && (f.reader == Beating ==> f.openingLost || f.delivered != [])
  }

  /** Every number handed out is accounted for, and the stream carries exactly the survivors. */
  ghost predicate Accounts(b: Books, stream: seq<Item>) {
    && b.nextSequence == b.ledger.Length() + 1
    && Numbers(stream) == b.ledger.Survivors()
    && b.ledger.Total(Skipped) == b.skipped + b.burning
    && b.ledger.Total(Discarded) == b.discarded
  }

  /** How the state word, the handler and the discard flag hang together. */
  ghost predicate Control(cfg: Config, g: Gate, b: Books, reader: Reader) {
    && (g.phase == Running ==> g.handler == NoHandler && !g.discardRequested && !g.closeRequested)
    && (g.phase == Backpressured ==> g.handler != NoHandler && !g.closeRequested)
    && (g.handler == Cleared || g.handler == Recovering ==> !g.discardRequested)
    && (g.handler == Recovering ==> !g.closeRequested)
    && (g.discardRequested ==> cfg.policy == DropOldest && b.lastQueued == g.onsetMark)
    && (reader.Discarding? ==> cfg.policy == DropOldest && reader.mark <= b.lastQueued)
    && b.lastQueued < b.nextSequence
    && g.skippedAtOnset <= b.skipped
  }

  predicate NumberedUpTo(items: seq<Item>, limit: nat) {
    forall i | 0 <= i < |items| && items[i].Numbered? :: items[i].number <= limit
  }

  /** Nothing in the pipe is numbered above the last number queued, nor anything in a buffer marked for
      discard above the number its request was raised at. */
  predicate Marks(f: Flow, lastQueued: nat) {
    && NumberedUpTo(f.pipe, lastQueued)
    && (f.reader.Discarding? && f.reader.held <= |f.pipe| ==> NumberedUpTo(f.pipe[..f.reader.held], f.reader.mark))
  }

  ghost predicate Inv(cfg: Config, s: Session) {
    && s.flow.Ranges()
    && PipeShape(s.flow.pipe)
    && OpeningPlaced(s.flow, s.gate.started)
    && Accounts(s.books, s.flow.Stream())
    && Control(cfg, s.gate, s.books, s.flow.reader)
    && Marks(s.flow, s.books.lastQueued)
  }
}

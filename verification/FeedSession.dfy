/** The session object: its fields, and one method for each stretch of code that the session protocol takes in one
    step. The object is valid while it is where its history of steps leads, so every theorem about the runs of a
    session is one about the object. */
module FeedSession {
  import opened FeedRecords
  import opened FeedFrameWriter
  import opened SequenceLedger
  import opened SessionProtocol
  import opened SessionGuarantees
  import opened SessionInvariants
  import opened SessionTheorems

  /** Where the write loop is; `held` and `sent` below belong to the buffer it has in hand. */
  datatype Stage = AtRead | HasBuffer | IsSending | IsDiscarding | IsBeating | HasFinished

  class FeedSession {
    const policy: Policy
    const bufferBytes: nat

    var phase: Phase
    var started: bool
    var closeRequested: bool
    var handler: Handler
    var discardRequested: bool
    var nextSequence: nat
    var lastQueued: nat
    var skippedRecords: nat
    var discardedRecords: nat
    var skippedAtOnset: nat
    var pipe: seq<Item>
    var stage: Stage
    var held: nat
    var sent: nat
    var sentToSocket: seq<Item>

    // History and the publishers caught between two of the methods below.
    ghost var observed: nat
    ghost var burning: nat
    ghost var ledger: Ledger
    ghost var openingLost: bool
    ghost var onsetMark: nat
    ghost var mark: nat
    ghost var history: seq<Step>
    ghost var trace: seq<Session>

    ghost function Cfg(): Config {
      Config(policy, bufferBytes)
    }

    ghost function ReaderView(): Reader
      reads this`stage, this`held, this`sent, this`mark
    {
      match stage
      case AtRead => Idle
      case HasBuffer => Holding(held)
      case IsSending => Sending(held, sent)
      case IsDiscarding => Discarding(held, mark)
      case IsBeating => Beating
      case HasFinished => Finished
    }

    ghost function GateView(): Gate
      reads this`phase, this`started, this`closeRequested, this`handler, this`discardRequested,
            this`skippedAtOnset, this`onsetMark
    {
      Gate(phase, started, closeRequested, handler, discardRequested, skippedAtOnset, onsetMark)
    }

    ghost function FlowView(): Flow
      reads this`pipe, this`stage, this`held, this`sent, this`mark, this`sentToSocket, this`openingLost
    {
      Flow(pipe, ReaderView(), sentToSocket, openingLost)
    }

    ghost function BooksView(): Books
      reads this`nextSequence, this`lastQueued, this`skippedRecords, this`discardedRecords,
            this`observed, this`burning, this`ledger
    {
      Books(nextSequence, lastQueued, skippedRecords, discardedRecords, observed, burning, ledger)
    }

    ghost function View(): Session
      reads this
    {
      Session(GateView(), FlowView(), BooksView())
    }

    ghost predicate Valid()
      reads this
    {
      IsTrace(Cfg(), history, trace) && trace[|history|] == View()
    }

    /** The object is valid and in this state. */
    ghost predicate IsIn(s: Session)
      reads this
    {
      Valid() && View() == s
    }

    constructor (policy: Policy, bufferBytes: nat)
      ensures this.policy == policy && this.bufferBytes == bufferBytes
      ensures View() == Init() && history == [] && Valid()
    {
      this.policy, this.bufferBytes := policy, bufferBytes;
      phase, started, closeRequested, handler := Running, false, false, NoHandler;
      discardRequested, skippedAtOnset, onsetMark := false, 0, 0;
      nextSequence, lastQueued, skippedRecords, discardedRecords := 1, 0, 0, 0;
      pipe, stage, held, sent, mark, sentToSocket, openingLost := [], AtRead, 0, 0, 0, [], false;
      observed, burning, ledger, history, trace := 0, 0, Empty, [], [Init()];
    }

    /** The history grows by a step that led here from `was`. */
    ghost method Took(was: Session, step: Step)
      requires IsTrace(Cfg(), history, trace) && trace[|history|] == was
      requires Enabled(Cfg(), was, step) && View() == Apply(Cfg(), was, step)
      modifies this`history, this`trace
      ensures Valid() && history == old(history) + [step]
    {
      TraceExtends(Cfg(), history, trace, step);
      history, trace := history + [step], trace + [View()];
    }

    /** Every invariant of the protocol is one of the object. */
    lemma IsSound()
      requires Valid()
      ensures Reaches(Cfg(), Init(), history, View()) && Inv(Cfg(), View())
    {
      TraceReaches(Cfg(), history, trace);
      InvReachable(Cfg(), history, View());
    }

    function DroppedRecords(): nat
      reads this`skippedRecords, this`discardedRecords
    {
      skippedRecords + discardedRecords
    }

    /** The public counter, and what is between burning and counting, is all that was skipped and discarded; with
        what was sent, what is waiting and what an encoding fault took, it is every number handed out. */
    lemma DropsAreAccountedFor()
      requires Valid()
      ensures DroppedRecords() + burning == ledger.Total(Skipped) + ledger.Total(Discarded)
      ensures nextSequence - 1 == |Numbers(sentToSocket)| + |Numbers(FlowView().Unsent())|
                                  + DroppedRecords() + burning + ledger.Total(Voided)
    {
      IsSound();
      EveryNumberAccountedFor(Cfg(), history, View());
    }

    // ---- publish path ----

    method Start()
      requires Valid() && !started && handler != Recovering
      modifies this`pipe, this`started, this`history, this`trace
      ensures Valid() && history == old(history) + [ByPublisher(PublisherStep.Start)]
      ensures started && pipe == [Opening]
    {
      ghost var was := View();
      IsSound();
      pipe := pipe + [Opening];
      started := true;
      Took(was, ByPublisher(PublisherStep.Start));
    }

    /** The unlocked read of the state word; `behind` sends the caller on to burn and count. */
    method ReadState(count: nat) returns (behind: bool)
      requires Valid() && started && count > 0
      modifies this`observed, this`history, this`trace
      ensures Valid() && behind == (phase == Backpressured)
      ensures observed == old(observed) + (if behind then count else 0)
      ensures View() == old(View()).(books := BooksView())
    {
      ghost var was := View();
      behind := phase == Backpressured;
      if behind {
        observed := observed + count;
        Took(was, ByPublisher(Observe(count)));
      }
    }

    /** Takes numbers from the shared counter. */
    method Reserve(count: nat, ghost fate: Fate)
      modifies this`nextSequence, this`ledger
      ensures BooksView() == old(BooksView()).Assign(fate, count)
    {
      nextSequence := nextSequence + count;
      ledger := ledger.Assign(fate, count);
    }

    /** Takes the numbers of what is being skipped; nothing is reported dropped yet. */
    method BurnNumbers(count: nat)
      requires Valid() && count <= observed
      modifies this`nextSequence, this`observed, this`burning, this`ledger, this`history, this`trace
      ensures Valid() && nextSequence == old(nextSequence) + count && ledger == old(ledger).Assign(Skipped, count)
      ensures history == old(history) + [ByPublisher(Burn(count))]
      ensures observed == old(observed) - count && burning == old(burning) + count
      ensures View() == old(View()).(books := BooksView())
    {
      ghost var was := View();
      Reserve(count, Skipped);
      observed := observed - count;
      burning := burning + count;
      Took(was, ByPublisher(Burn(count)));
    }

    /** Reports them. */
    method CountSkipped(count: nat)
      requires Valid() && count <= burning
      modifies this`skippedRecords, this`burning, this`history, this`trace
      ensures Valid() && DroppedRecords() == old(DroppedRecords()) + count && burning == old(burning) - count
      ensures history == old(history) + [ByPublisher(Count(count))]
      ensures View() == old(View()).(books := BooksView())
    {
      ghost var was := View();
      skippedRecords := skippedRecords + count;
      burning := burning - count;
      Took(was, ByPublisher(Count(count)));
    }

    /** Skip under the write gate: a session that is closing burns nothing. */
    method SkipLocked(count: nat)
      requires Valid() && started && handler != Recovering && phase != Running && count > 0
      modifies this`nextSequence, this`skippedRecords, this`ledger, this`history, this`trace
      ensures Valid()
      ensures var lost := if phase == Backpressured then count else 0;
        && DroppedRecords() == old(DroppedRecords()) + lost && nextSequence == old(nextSequence) + lost
        && ledger == old(ledger).Assign(Skipped, lost)
    {
      if phase != Backpressured {
        return;
      }
      ghost var was := View();
      Reserve(count, Skipped);
      skippedRecords := skippedRecords + count;
      Took(was, ByPublisher(SkipGated(count)));
    }

    /** A session that is behind loses the batch; one that is closing is left as it is. */
    ghost function AfterSkip(was: Session, count: nat): Session {
      var b := was.books;
      if was.gate.phase == Backpressured then was.(books := b.Assign(Skipped, count).(skipped := b.skipped + count))
      else was
    }

    /** The skip made without the gate by a publisher that no other thread cuts into. */
    method SkipUnlocked(count: nat)
      requires Valid() && started && phase != Running && count > 0
      modifies this`nextSequence, this`skippedRecords, this`observed, this`burning, this`ledger, this`history,
        this`trace
      ensures Valid() && View() == AfterSkip(old(View()), count)
    {
      var behind := ReadState(count);
      if behind {
        BurnNumbers(count);
        CountSkipped(count);
      }
    }

    /** Numbers a batch from a reserved range, record by record. */
    method NumberRecords(batch: seq<FeedRecord>, first: nat) returns (items: seq<Item>, next: nat)
      ensures items == NumberBatch(batch, first) && next == first + |batch|
      ensures |items| == |batch| && forall k | 0 <= k < |batch| :: items[k] == Numbered(first + k, batch[k])
    {
      items, next := [], first;
      for i := 0 to |batch|
        invariant next == first + i && |items| == i
        invariant forall k | 0 <= k < i :: items[k] == Numbered(first + k, batch[k])
      {
        items := items + [Numbered(next, batch[i])];
        next := next + 1;
      }
    }

    method QueueBatch(batch: seq<FeedRecord>)
      requires batch != []
      modifies this`nextSequence, this`pipe, this`lastQueued, this`ledger
      ensures FlowView() == old(FlowView()).Queue(NumberBatch(batch, old(nextSequence)))
      ensures BooksView() == BooksAfterWrite(old(BooksView()), |batch|)
    {
      var items, next := NumberRecords(batch, nextSequence);
      nextSequence := next;
      pipe := pipe + items;
      lastQueued := next - 1;
      ledger := ledger.Assign(Queued, |batch|);
    }

    /** The flush: complete while the pipe is below its threshold, pending once it is full, and dead when the
        reader has gone. */
    method Flush()
      modifies this`phase, this`handler, this`skippedAtOnset, this`discardRequested, this`onsetMark
      ensures GateView() == GateAfterWrite(Cfg(), old(GateView()), FlowView(), skippedRecords, lastQueued)
    {
      if stage == HasFinished {
        phase := Closing;
      } else if ByteLength(pipe) >= bufferBytes {
        skippedAtOnset := skippedRecords;
        phase, handler := Backpressured, Waiting;
        discardRequested := policy == DropOldest;
        onsetMark := lastQueued;
      }
    }

    method QueueAndFlush(batch: seq<FeedRecord>)
      requires batch != []
      modifies this`nextSequence, this`pipe, this`lastQueued, this`ledger,
        this`phase, this`handler, this`skippedAtOnset, this`discardRequested, this`onsetMark
      ensures View() == Write(Cfg(), old(View()), batch)
      ensures pipe == old(pipe) + NumberBatch(batch, old(nextSequence))
    {
      QueueBatch(batch);
      Flush();
    }

    /** Queues the batch under the next numbers and nothing else; the session falls behind exactly when that fills
        its buffer, and then asks for a discard exactly under DropOldest. */
    method WriteBatchLocked(batch: seq<FeedRecord>)
      requires Valid() && PublisherMay(View(), Publish(batch))
      modifies this
      ensures Valid() && View() == Write(Cfg(), old(View()), batch)
      ensures history == old(history) + [ByPublisher(Publish(batch))]
      ensures pipe == old(pipe) + NumberBatch(batch, old(nextSequence)) && DroppedRecords() == old(DroppedRecords())
      ensures phase == Backpressured <==> stage != HasFinished && ByteLength(pipe) >= bufferBytes
      ensures phase == Backpressured ==>
        && (discardRequested <==> policy == DropOldest) && handler == Waiting
        && skippedAtOnset == skippedRecords && onsetMark == lastQueued
      ensures phase != Backpressured ==> discardRequested == old(discardRequested)
    {
      ghost var was := View();
      QueueAndFlush(batch);
      Took(was, ByPublisher(Publish(batch)));
    }

    /** A record that is not a tick throws after its batch's numbers are taken. */
    method FailBatch(batch: seq<FeedRecord>)
      requires Valid() && PublisherMay(View(), PublishFault(batch))
      modifies this`nextSequence, this`ledger, this`phase, this`history, this`trace
      ensures Valid() && phase == Closing && nextSequence == old(nextSequence) + |batch|
      ensures history == old(history) + [ByPublisher(PublishFault(batch))]
      ensures ledger == old(ledger).Assign(Voided, |batch|)
    {
      ghost var was := View();
      Reserve(|batch|, Voided);
      phase := Closing;
      Took(was, ByPublisher(PublishFault(batch)));
    }

    ghost function AfterFault(was: Session, count: nat): Session {
      was.(books := was.books.Assign(Voided, count), gate := was.gate.(phase := Closing, closeRequested := true))
    }

    /** The failed batch and the close its caller asks for. */
    method FailAndClose(batch: seq<FeedRecord>)
      requires Valid() && PublisherMay(View(), PublishFault(batch)) && handler != Recovering
      modifies this`nextSequence, this`ledger, this`phase, this`closeRequested, this`history, this`trace
      ensures Valid() && View() == AfterFault(old(View()), |batch|)
    {
      FailBatch(batch);
      var initiated := BeginClose();
    }

    predicate Ticks(batch: seq<FeedRecord>) {
      AllTicks(batch)
    }

    /** What an uninterrupted TryPublish does, for every state it can find the session in. */
    ghost function AfterTryPublish(was: Session, batch: seq<FeedRecord>): Session {
      if batch == [] || !was.gate.started then was
      else if was.gate.phase != Running then AfterSkip(was, |batch|)
      else if AllTicks(batch) then Write(Cfg(), was, batch)
      else AfterFault(was, |batch|)
    }

    /** Queues the whole batch or none of it. While the session is behind, the batch takes its numbers all the same
        and is reported dropped in full; in every other case nothing is. */
    method TryPublish(batch: seq<FeedRecord>) returns (queued: bool)
      requires Valid()
      modifies this
      ensures Valid() && View() == AfterTryPublish(old(View()), batch)
      ensures queued <==> batch != [] && old(started) && old(phase) == Running && AllTicks(batch)
      ensures queued ==> pipe == old(pipe) + NumberBatch(batch, old(nextSequence))
      ensures DroppedRecords()
           == old(DroppedRecords()) + (if old(started) && old(phase) == Backpressured then |batch| else 0)
    {
      if batch == [] || !started {
        return false;
      }
      if phase != Running {
        SkipUnlocked(|batch|);
        return false;
      }
      IsSound();
      if Ticks(batch) {
        WriteBatchLocked(batch);
        queued := true;
      } else {
        FailAndClose(batch);
        queued := false;
      }
    }

    // ---- backpressure handler ----

    method FlushCompletes()
      requires Valid() && HandlerMay(Cfg(), View(), FlushResumes)
      modifies this`handler, this`history, this`trace
      ensures Valid() && handler == Resumed && history == old(history) + [ByHandler(FlushResumes)]
    {
      ghost var was := View();
      handler := Resumed;
      Took(was, ByHandler(FlushResumes));
    }

    method ClearDiscardRequest()
      requires Valid() && handler == Resumed
      modifies this`discardRequested, this`handler, this`history, this`trace
      ensures Valid() && handler == Cleared && !discardRequested
      ensures history == old(history) + [ByHandler(ClearRequest)]
    {
      ghost var was := View();
      discardRequested := false;
      handler := Cleared;
      Took(was, ByHandler(ClearRequest));
    }

    /** Takes the gate, compares the counters, and decides whether the session may run again: never, under
        Disconnect, when anything was reported dropped since it fell behind. */
    method DecideRecovery()
      requires Valid() && handler == Cleared
      modifies this`handler, this`history, this`trace
      ensures Valid() && history == old(history) + [ByHandler(HandlerStep.DecideRecovery)]
      ensures handler == NoHandler <==> phase == Closing
      ensures handler == Evicting <==> phase == Backpressured && policy == Disconnect && skippedRecords > skippedAtOnset
      ensures handler in {NoHandler, Evicting, Recovering}
    {
      ghost var was := View();
      IsSound();
      if phase != Backpressured {
        handler := NoHandler;
      } else {
        var skipped := skippedRecords - skippedAtOnset;
        if policy != DropOldest && skipped > 0 {
          handler := Evicting;
        } else {
          handler := Recovering;
        }
      }
      Took(was, ByHandler(HandlerStep.DecideRecovery));
    }

    method CompleteRecovery()
      requires Valid() && handler == Recovering
      modifies this`phase, this`handler, this`history, this`trace
      ensures Valid() && phase == Running && handler == NoHandler && !discardRequested
      ensures history == old(history) + [ByHandler(HandlerStep.CompleteRecovery)]
    {
      ghost var was := View();
      IsSound();
      phase := Running;
      handler := NoHandler;
      Took(was, ByHandler(HandlerStep.CompleteRecovery));
    }

    method DisconnectSlow()
      requires Valid() && handler == Evicting
      modifies this`phase, this`handler, this`closeRequested, this`history, this`trace
      ensures Valid() && phase == Closing && closeRequested && handler == NoHandler
      ensures history == old(history) + [ByHandler(Evict)]
    {
      ghost var was := View();
      handler := NoHandler;
      phase, closeRequested := Closing, true;
      Took(was, ByHandler(Evict));
    }

    // ---- socket path ----

    method ReadPipe()
      requires Valid() && stage == AtRead && pipe != []
      modifies this`stage, this`held, this`history, this`trace
      ensures Valid() && stage == HasBuffer && held == |pipe|
      ensures history == old(history) + [ByReader(ReaderStep.ReadPipe)]
    {
      ghost var was := View();
      stage, held := HasBuffer, |pipe|;
      Took(was, ByReader(ReaderStep.ReadPipe));
    }

    /** The exchange of the discard flag, which settles what becomes of the buffer in hand. A buffer marked for
        discard holds nothing queued since the session fell behind. */
    method TakeBuffer()
      requires Valid() && stage == HasBuffer
      modifies this`discardRequested, this`stage, this`mark, this`sent, this`history, this`trace
      ensures Valid() && !discardRequested
      ensures history == old(history) + [ByReader(ReaderStep.TakeBuffer)]
      ensures stage == if old(discardRequested) then IsDiscarding else IsSending
      ensures stage == IsDiscarding ==> policy == DropOldest && mark == onsetMark == lastQueued
      ensures stage == IsSending ==> sent == 0
    {
      ghost var was := View();
      IsSound();
      if discardRequested {
        discardRequested := false;
        stage, mark := IsDiscarding, onsetMark;
      } else {
        stage, sent := IsSending, 0;
      }
      Took(was, ByReader(ReaderStep.TakeBuffer));
    }

    method SendItem()
      requires Valid() && stage == IsSending && sent < held <= |pipe|
      modifies this`sentToSocket, this`sent, this`history, this`trace
      ensures Valid() && sentToSocket == old(sentToSocket) + [pipe[old(sent)]] && sent == old(sent) + 1
      ensures history == old(history) + [ByReader(ReaderStep.SendItem)]
    {
      ghost var was := View();
      sentToSocket := sentToSocket + [pipe[sent]];
      sent := sent + 1;
      Took(was, ByReader(ReaderStep.SendItem));
    }

    /** Sends what is left of the buffer in hand, in order, then releases it. */
    method SendAll()
      requires Valid() && stage == IsSending && sent <= held <= |pipe|
      modifies this`sentToSocket, this`sent, this`pipe, this`stage, this`history, this`trace
      ensures Valid() && stage == AtRead
      ensures sentToSocket == old(sentToSocket) + old(pipe[sent..held]) && pipe == old(pipe[held..])
    {
      while sent < held
        invariant Valid() && stage == IsSending && old(sent) <= sent <= held && pipe == old(pipe)
        invariant sentToSocket == old(sentToSocket) + pipe[old(sent)..sent]
      {
        assert pipe[old(sent)..sent + 1] == pipe[old(sent)..sent] + [pipe[sent]];
        SendItem();
      }
      ghost var was := View();
      pipe := pipe[held..];
      stage := AtRead;
      Took(was, ByReader(ReaderStep.FinishSend));
    }

    /** Drops the buffer in hand and counts the records in it by its length. */
    method DropBuffer()
      requires stage == IsDiscarding && held <= |pipe|
      modifies this`discardedRecords, this`pipe, this`stage, this`openingLost, this`ledger
      ensures View()
           == old(View()).(flow := old(FlowView()).DropHeld(),
                           books := BooksAfterDrop(old(BooksView()), old(FlowView())))
    {
      ghost var from := |Numbers(sentToSocket)|;
      ghost var gone := pipe[..held];
      var length := ByteLength(pipe[..held]);
      discardedRecords := discardedRecords + length / TICK_FRAME_SIZE;
      pipe := pipe[held..];
      stage := AtRead;
      openingLost := openingLost || Openings(gone) > 0;
      ledger := ledger.Discard(from, from + |Numbers(gone)|);
    }

    /** The public counter grows by exactly the ticks in the buffer, although it is computed from the buffer's
        length alone. */
    method DiscardAll()
      requires Valid() && stage == IsDiscarding && held <= |pipe|
      modifies this`discardedRecords, this`pipe, this`stage, this`openingLost, this`ledger, this`history, this`trace
      ensures Valid() && stage == AtRead && pipe == old(pipe[held..])
      ensures history == old(history) + [ByReader(ReaderStep.FinishDiscard)]
      ensures DroppedRecords() == old(DroppedRecords()) + |Numbers(old(pipe[..held]))|
    {
      ghost var was := View();
      TicksInHand();
      DropBuffer();
      Took(was, ByReader(ReaderStep.FinishDiscard));
    }

    lemma TicksInHand()
      requires Valid() && held <= |pipe|
      ensures ByteLength(pipe[..held]) / TICK_FRAME_SIZE == |Numbers(pipe[..held])|
    {
      IsSound();
      DivisionCountsTicks(pipe[..held]);
    }

    method SeeEmptyPipe()
      requires Valid() && stage == AtRead && pipe == [] && started && !closeRequested
      modifies this`stage, this`history, this`trace
      ensures Valid() && stage == IsBeating
      ensures history == old(history) + [ByReader(ReaderStep.ReadEmpty)]
    {
      ghost var was := View();
      stage := IsBeating;
      Took(was, ByReader(ReaderStep.ReadEmpty));
    }

    method SendHeartbeat()
      requires Valid() && stage == IsBeating
      modifies this`sentToSocket, this`stage, this`history, this`trace
      ensures Valid() && stage == AtRead && sentToSocket == old(sentToSocket) + [Beat(lastQueued)]
      ensures history == old(history) + [ByReader(ReaderStep.SendHeartbeat)]
      ensures forall n | n in Numbers(sentToSocket) :: n <= lastQueued
    {
      ghost var was := View();
      NothingAboveLastQueued();
      BeatIsSilent(sentToSocket, Beat(lastQueued), []);
      assert sentToSocket + [Beat(lastQueued)] + [] == sentToSocket + [Beat(lastQueued)];
      assert sentToSocket + [] == sentToSocket;
      sentToSocket := sentToSocket + [Beat(lastQueued)];
      stage := AtRead;
      Took(was, ByReader(ReaderStep.SendHeartbeat));
    }

    /** No number above the last one queued has been sent. */
    lemma NothingAboveLastQueued()
      requires Valid()
      ensures forall n | n in Numbers(sentToSocket) :: n <= lastQueued
    {
      IsSound();
      SentUpTo(Cfg(), history, View());
    }

    // ---- lifecycle ----

    /** The reader stops; what it has not sent stays unsent. */
    method Finish()
      requires Valid() && started && stage != HasFinished && (stage == IsSending ==> sent <= |pipe|)
      modifies this`phase, this`pipe, this`stage, this`history, this`trace
      ensures Valid() && phase == Closing && stage == HasFinished && pipe == old(FlowView().Unsent())
      ensures history == old(history) + [ByReader(ReaderStep.Finish)]
    {
      ghost var was := View();
      phase := Closing;
      if stage == IsSending {
        pipe := pipe[sent..];
      }
      stage := HasFinished;
      Took(was, ByReader(ReaderStep.Finish));
    }

    /** The first call initiates the close; later ones change nothing and say so. */
    method BeginClose() returns (initiated: bool)
      requires Valid() && handler != Recovering
      modifies this`closeRequested, this`phase, this`history, this`trace
      ensures Valid() && initiated == !old(closeRequested) && closeRequested
      ensures initiated ==> phase == Closing
      ensures !initiated ==> View() == old(View())
    {
      if closeRequested {
        return false;
      }
      ghost var was := View();
      closeRequested := true;
      phase := Closing;
      initiated := true;
      Took(was, ByCloser(CloserStep.BeginClose));
    }

    method MarkClosing()
      requires Valid() && handler != Recovering
      modifies this`phase, this`history, this`trace
      ensures Valid() && phase == Closing
    {
      ghost var was := View();
      phase := Closing;
      Took(was, ByCloser(CloserStep.MarkClosing));
    }
  }
}

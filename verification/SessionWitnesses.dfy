/** Concrete runs of a session: what its comments promise that its code does not quite keep. */
module SessionWitnesses {
  import opened FeedRecords
  import opened SequenceLedger
  import opened SessionProtocol
  import opened SessionInvariants

  const SMALLEST_BUFFER: nat := 88

  const PRINT: FeedRecord := FeedRecord(TRADE, 0, 100, 0, 0, 850000, Symbol8(0x2020_2020_4D4F_4321))

  function Small(policy: Policy): Config {
    Config(policy, SMALLEST_BUFFER)
  }

  function TwoPrints(): seq<Item> {
    [Opening, Numbered(1, PRINT), Numbered(2, PRINT)]
  }

  function TwoQueued(): Books {
    Books(3, 2, 0, 0, 0, 0, Entry(Entry(Empty, Queued), Queued))
  }

  /** Start, then a batch of two: enough to fill the smallest buffer the server accepts. */
  function FellBehind(policy: Policy): Session {
    Session(Gate(Backpressured, true, false, Waiting, policy == DropOldest, 0, 2),
            Flow(TwoPrints(), Idle, [], false), TwoQueued())
  }

  lemma FallBehind(policy: Policy) returns (steps: seq<Step>)
    ensures Reaches(Small(policy), Init(), steps, FellBehind(policy))
  {
    var cfg := Small(policy);
    var s0 := Init();
    var s1 := Session(Gate(Running, true, false, NoHandler, false, 0, 0), Flow([Opening], Idle, [], false),
                      Books(1, 0, 0, 0, 0, 0, Empty));
    assert Apply(cfg, s0, ByPublisher(Start)) == s1;
    OneStep(cfg, s0, ByPublisher(Start));
    var batch := [PRINT, PRINT];
    var publish := ByPublisher(Publish(batch));
    assert Empty.Assign(Queued, 2) == Entry(Entry(Empty, Queued), Queued) by {
      assert Empty.Assign(Queued, 1) == Entry(Empty, Queued);
    }
    assert [Opening] + NumberBatch(batch, 1) == TwoPrints();
    assert ByteLength(TwoPrints()) == 124 by {
      assert TwoPrints()[1..] == [Numbered(1, PRINT), Numbered(2, PRINT)];
      TicksOnly(TwoPrints()[1..]);
    }
    assert Apply(cfg, s1, publish) == FellBehind(policy);
    Then(cfg, s0, [ByPublisher(Start)], s1, publish);
    steps := [ByPublisher(Start)] + [publish];
  }

  /** The reader sends the whole pipe and the flush completes. */
  function Drained(handler: Handler): Session {
    Session(Gate(Backpressured, true, false, handler, false, 0, 2), Flow([], Idle, TwoPrints(), false), TwoQueued())
  }

  function SendingAt(k: nat): Session
    requires k <= 3
  {
    FellBehind(Disconnect).(flow := Flow(TwoPrints(), Sending(3, k), TwoPrints()[..k], false))
  }

  lemma SendAt(k: nat)
    requires k < 3
    ensures Enabled(Small(Disconnect), SendingAt(k), ByReader(SendItem))
    ensures Apply(Small(Disconnect), SendingAt(k), ByReader(SendItem)) == SendingAt(k + 1)
  {
    assert TwoPrints()[..k + 1] == TwoPrints()[..k] + [TwoPrints()[k]];
  }

  lemma DrainPipe() returns (steps: seq<Step>)
    ensures Reaches(Small(Disconnect), FellBehind(Disconnect), steps, Drained(Waiting))
  {
    var cfg, s := Small(Disconnect), FellBehind(Disconnect);
    OneStep(cfg, s, ByReader(ReadPipe));
    var holding := s.(flow := s.flow.(reader := Holding(3)));
    Then(cfg, s, [ByReader(ReadPipe)], holding, ByReader(TakeBuffer));
    assert Apply(cfg, holding, ByReader(TakeBuffer)) == SendingAt(0);
    steps := [ByReader(ReadPipe)] + [ByReader(TakeBuffer)];
    SendAt(0);
    Then(cfg, s, steps, SendingAt(0), ByReader(SendItem));
    steps := steps + [ByReader(SendItem)];
    SendAt(1);
    Then(cfg, s, steps, SendingAt(1), ByReader(SendItem));
    steps := steps + [ByReader(SendItem)];
    SendAt(2);
    Then(cfg, s, steps, SendingAt(2), ByReader(SendItem));
    steps := steps + [ByReader(SendItem)];
    Then(cfg, s, steps, SendingAt(3), ByReader(FinishSend));
    steps := steps + [ByReader(FinishSend)];
    assert TwoPrints()[..3] == TwoPrints() && TwoPrints()[3..] == [];
    assert Apply(cfg, SendingAt(3), ByReader(FinishSend)) == Drained(Waiting);
  }

  lemma RecoverUpTo() returns (steps: seq<Step>)
    ensures Reaches(Small(Disconnect), Drained(Waiting), steps, Drained(Cleared))
  {
    var cfg := Small(Disconnect);
    OneStep(cfg, Drained(Waiting), ByHandler(FlushResumes));
    Then(cfg, Drained(Waiting), [ByHandler(FlushResumes)], Drained(Resumed), ByHandler(ClearRequest));
    steps := [ByHandler(FlushResumes)] + [ByHandler(ClearRequest)];
  }

  lemma ReachCleared() returns (steps: seq<Step>)
    ensures Reaches(Small(Disconnect), Init(), steps, Drained(Cleared))
  {
    var cfg := Small(Disconnect);
    var a := FallBehind(Disconnect);
    var b := DrainPipe();
    var c := RecoverUpTo();
    ReachesConcat(cfg, Init(), a, FellBehind(Disconnect), b, Drained(Waiting));
    ReachesConcat(cfg, Init(), a + b, Drained(Waiting), c, Drained(Cleared));
    steps := a + b + c;
  }

  /** Running again with number 3 burned and nothing lost on record when the handler looked. */
  function RanWithHole(): Session {
    Session(Gate(Running, true, false, NoHandler, false, 0, 2), Flow([], Idle, TwoPrints(), false),
            Books(4, 2, 1, 0, 0, 0, Entry(TwoQueued().ledger, Skipped)))
  }

  /** The late skip: a publisher reads Backpressured, the session recovers, and only then are the numbers
      burned. */
  lemma LateSkip() returns (steps: seq<Step>)
    ensures Reaches(Small(Disconnect), Drained(Cleared), steps, RanWithHole())
    ensures |steps| > 2 && steps[0] == ByPublisher(Observe(1)) && steps[1] == ByHandler(DecideRecovery)
  {
    var cfg, s := Small(Disconnect), Drained(Cleared);
    var watched := TwoQueued().(observed := 1);
    var burned := TwoQueued().(nextSequence := 4, burning := 1, ledger := Entry(TwoQueued().ledger, Skipped));
    assert TwoQueued().ledger.Assign(Skipped, 1) == Entry(TwoQueued().ledger, Skipped);
    OneStep(cfg, s, ByPublisher(Observe(1)));
    var s1 := s.(books := watched);
    Then(cfg, s, [ByPublisher(Observe(1))], s1, ByHandler(DecideRecovery));
    var s2 := Drained(Recovering).(books := watched);
    assert Apply(cfg, s1, ByHandler(DecideRecovery)) == s2;
    steps := [ByPublisher(Observe(1))] + [ByHandler(DecideRecovery)];
    Then(cfg, s, steps, s2, ByHandler(CompleteRecovery));
    steps := steps + [ByHandler(CompleteRecovery)];
    var s3 := RanWithHole().(books := watched);
    assert Apply(cfg, s2, ByHandler(CompleteRecovery)) == s3;
    Then(cfg, s, steps, s3, ByPublisher(Burn(1)));
    steps := steps + [ByPublisher(Burn(1))];
    var s4 := RanWithHole().(books := burned);
    assert Apply(cfg, s3, ByPublisher(Burn(1))) == s4;
    Then(cfg, s, steps, s4, ByPublisher(Count(1)));
    steps := steps + [ByPublisher(Count(1))];
  }

  /** The same hole with read, burn and count back to back, inside the window between the handler's
      comparison of the counters and its write of the state. */
  lemma SkipInsideDecision() returns (steps: seq<Step>)
    ensures Reaches(Small(Disconnect), Drained(Cleared), steps, RanWithHole())
    ensures steps == [ByHandler(DecideRecovery), ByPublisher(Observe(1)), ByPublisher(Burn(1)), ByPublisher(Count(1)),
                      ByHandler(CompleteRecovery)]
  {
    var cfg, s := Small(Disconnect), Drained(Cleared);
    var watched := TwoQueued().(observed := 1);
    var burned := TwoQueued().(nextSequence := 4, burning := 1, ledger := Entry(TwoQueued().ledger, Skipped));
    assert TwoQueued().ledger.Assign(Skipped, 1) == Entry(TwoQueued().ledger, Skipped);
    OneStep(cfg, s, ByHandler(DecideRecovery));
    var r := Drained(Recovering);
    Then(cfg, s, [ByHandler(DecideRecovery)], r, ByPublisher(Observe(1)));
    steps := [ByHandler(DecideRecovery)] + [ByPublisher(Observe(1))];
    Then(cfg, s, steps, r.(books := watched), ByPublisher(Burn(1)));
    steps := steps + [ByPublisher(Burn(1))];
    assert Apply(cfg, r.(books := watched), ByPublisher(Burn(1))) == r.(books := burned);
    Then(cfg, s, steps, r.(books := burned), ByPublisher(Count(1)));
    steps := steps + [ByPublisher(Count(1))];
    Then(cfg, s, steps, r.(books := RanWithHole().books), ByHandler(CompleteRecovery));
    steps := steps + [ByHandler(CompleteRecovery)];
  }

  function AfterHole(reader: Reader, sent: nat): Session
    requires sent <= 1
  {
    Session(Gate(Running, true, false, NoHandler, false, 0, 2),
            Flow([Numbered(4, PRINT)], reader, TwoPrints() + [Numbered(4, PRINT)][..sent], false),
            Books(5, 4, 1, 0, 0, 0, Entry(Entry(TwoQueued().ledger, Skipped), Queued)))
  }

  lemma PublishAfterHole() returns (steps: seq<Step>)
    ensures Reaches(Small(Disconnect), RanWithHole(), steps, AfterHole(Sending(1, 1), 1))
  {
    var cfg, s := Small(Disconnect), RanWithHole();
    var publish := ByPublisher(Publish([PRINT]));
    var item := Numbered(4, PRINT);
    assert s.flow.pipe + NumberBatch([PRINT], 4) == [item];
    assert ByteLength([item]) == 44;
    assert s.books.ledger.Assign(Queued, 1) == Entry(s.books.ledger, Queued);
    assert TwoPrints() + [item][..0] == TwoPrints();
    OneStep(cfg, s, publish);
    assert Apply(cfg, s, publish) == AfterHole(Idle, 0);
    Then(cfg, s, [publish], AfterHole(Idle, 0), ByReader(ReadPipe));
    steps := [publish] + [ByReader(ReadPipe)];
    Then(cfg, s, steps, AfterHole(Holding(1), 0), ByReader(TakeBuffer));
    steps := steps + [ByReader(TakeBuffer)];
    Then(cfg, s, steps, AfterHole(Sending(1, 0), 0), ByReader(SendItem));
    steps := steps + [ByReader(SendItem)];
    assert TwoPrints() + [item][..1] == TwoPrints() + [item];
  }

  lemma HoleIsVisible(reader: Reader)
    ensures Numbers(AfterHole(reader, 1).flow.delivered) == [1, 2, 4]
  {
    var item := Numbered(4, PRINT);
    assert [item][..1] == [item];
    NumbersConcat(TwoPrints(), [item]);
    assert TwoPrints()[1..] == [Numbered(1, PRINT), Numbered(2, PRINT)];
    TicksOnly(TwoPrints()[1..]);
    TicksOnly([item]);
  }

  /** Under Disconnect a consumer can be sent 1, 2, 4 on a session that stays open, although one that has
      lost a record is meant to be closed: the skip landed after the recovery that should have seen it. */
  lemma DisconnectCanLeakAGap() returns (steps: seq<Step>, s: Session)
    ensures Reaches(Small(Disconnect), Init(), steps, s)
    ensures Numbers(s.flow.delivered) == [1, 2, 4] && s.gate.phase == Running && s.books.skipped == 1
  {
    var cfg := Small(Disconnect);
    var a := ReachCleared();
    var b := LateSkip();
    var c := PublishAfterHole();
    s := AfterHole(Sending(1, 1), 1);
    ReachesConcat(cfg, Init(), a, Drained(Cleared), b, RanWithHole());
    ReachesConcat(cfg, Init(), a + b, RanWithHole(), c, s);
    HoleIsVisible(Sending(1, 1));
    steps := a + b + c;
  }

  /** Making the read and the skip one indivisible step would not be enough: the same gap appears when they
      fall between the handler's comparison and its write. */
  lemma ReadAndSkipTogetherStillLeaks() returns (before: seq<Step>, after: seq<Step>, s: Session)
    ensures Reaches(Small(Disconnect), Init(),
      before + [ByHandler(DecideRecovery), ByPublisher(Observe(1)), ByPublisher(Burn(1)), ByPublisher(Count(1)),
                ByHandler(CompleteRecovery)] + after, s)
    ensures Numbers(s.flow.delivered) == [1, 2, 4] && s.gate.phase == Running
  {
    var cfg := Small(Disconnect);
    before := ReachCleared();
    var b := SkipInsideDecision();
    after := PublishAfterHole();
    s := AfterHole(Sending(1, 1), 1);
    ReachesConcat(cfg, Init(), before, Drained(Cleared), b, RanWithHole());
    ReachesConcat(cfg, Init(), before + b, RanWithHole(), after, s);
    HoleIsVisible(Sending(1, 1));
  }

  ghost function Discarded(reader: Reader, sent: seq<Item>): Session {
    var f := FellBehind(DropOldest);
    Session(f.gate.(discardRequested := false), Flow([], reader, sent, true),
            Books(3, 2, 0, 2, 0, 0, TwoQueued().ledger.Discard(0, 2)))
  }

  function Taken(): Session {
    var f := FellBehind(DropOldest);
    f.(gate := f.gate.(discardRequested := false), flow := f.flow.(reader := Discarding(3, 2)))
  }

  lemma DroppedAll()
    ensures Enabled(Small(DropOldest), Taken(), ByReader(FinishDiscard))
    ensures Apply(Small(DropOldest), Taken(), ByReader(FinishDiscard)) == Discarded(Idle, [])
  {
    assert TwoPrints()[..3] == TwoPrints() && TwoPrints()[3..] == [];
    assert TwoPrints()[1..] == [Numbered(1, PRINT), Numbered(2, PRINT)];
    TicksOnly(TwoPrints()[1..]);
    assert ByteLength(TwoPrints()) == 124;
  }

  /** Under DropOldest the discard can take the opening frame with it, and the heartbeat that follows
      vouches for record 2 although no record ever left. */
  lemma DiscardCanTakeTheOpening() returns (steps: seq<Step>, s: Session)
    ensures Reaches(Small(DropOldest), Init(), steps, s)
    ensures s.flow.delivered == [Beat(2)] && s.flow.openingLost && s.books.discarded == 2
  {
    var cfg, f := Small(DropOldest), FellBehind(DropOldest);
    var a := FallBehind(DropOldest);
    OneStep(cfg, f, ByReader(ReadPipe));
    var held := f.(flow := f.flow.(reader := Holding(3)));
    Then(cfg, f, [ByReader(ReadPipe)], held, ByReader(TakeBuffer));
    assert Apply(cfg, held, ByReader(TakeBuffer)) == Taken();
    DroppedAll();
    steps := [ByReader(ReadPipe)] + [ByReader(TakeBuffer)];
    Then(cfg, f, steps, Taken(), ByReader(FinishDiscard));
    steps := steps + [ByReader(FinishDiscard)];
    Then(cfg, f, steps, Discarded(Idle, []), ByReader(ReadEmpty));
    steps := steps + [ByReader(ReadEmpty)];
    Then(cfg, f, steps, Discarded(Beating, []), ByReader(SendHeartbeat));
    steps := steps + [ByReader(SendHeartbeat)];
    s := Discarded(Idle, [Beat(2)]);
    assert [] + [Beat(2)] == [Beat(2)];
    ReachesConcat(cfg, Init(), a, f, steps, s);
    steps := a + steps;
  }
}

/** Which interleavings cost a Disconnect consumer its complete tape. */
module SessionSchedules {
  import opened SequenceLedger
  import opened SessionProtocol
  import opened SessionInvariants
  import opened SessionTheorems
  import opened SessionWitnesses

  /** A skip that comes too late for the recovery meant to see it: its numbers are taken once the recovering
      handler has compared the counters, or were taken but not yet counted when it did. */
  ghost predicate Late(cfg: Config, s: Session, step: Step) {
    || (step.ByPublisher? && step.p.Burn? && step.p.count > 0
        && (s.gate.phase == Running || s.gate.handler == Recovering))
    || (step == ByHandler(DecideRecovery) && s.books.burning > 0
        && Decide(cfg, s.gate, s.books.skipped).handler == Recovering)
  }

  /** Somewhere in the run a batch is accepted after a late skip; `late` is whether there has been one. */
  ghost predicate AcceptedAfterLate(cfg: Config, s: Session, steps: seq<Step>, late: bool)
    decreases |steps|
  {
    steps != [] && Enabled(cfg, s, steps[0])
    && ((late && IsPublish(steps[0]))
        || AcceptedAfterLate(cfg, Apply(cfg, s, steps[0]), steps[1..], late || Late(cfg, s, steps[0])))
  }

  /** While the tape is whole, what was withheld is what lies between the last number queued and the next, and a
      session that may run again has withheld something only by a late skip. */
  ghost predicate WholeSoFar(s: Session, late: bool) {
    var b, withheld := s.books, s.books.skipped + s.books.burning;
    && (s.gate.phase != Closing ==> b.nextSequence == b.lastQueued + 1 + withheld)
    && (s.gate.phase == Running || s.gate.handler == Recovering ==>
          b.nextSequence == b.lastQueued + 1 + withheld && (late <==> withheld > 0))
    && (s.gate.phase == Backpressured && s.gate.handler != Recovering ==> s.gate.skippedAtOnset == 0 && !late)
  }

  lemma WholeSoFarStep(cfg: Config, s: Session, step: Step, late: bool)
    requires Control(cfg, s.gate, s.books, s.flow.reader) && Enabled(cfg, s, step) && cfg.policy == Disconnect
    requires WholeSoFar(s, late) && !(late && IsPublish(step))
    ensures WholeSoFar(Apply(cfg, s, step), late || Late(cfg, s, step))
    ensures IsPublish(step) ==> s.books.nextSequence == s.books.lastQueued + 1
  {
    match step
    case ByPublisher(p) => {
      match p
      case _ =>
    }
    case ByHandler(h) => {
      match h
      case _ =>
    }
    case _ =>
  }

  lemma {:induction false} GapFreeExactlyWhen(cfg: Config, s: Session, steps: seq<Step>, t: Session, late: bool)
    requires Inv(cfg, s) && Reaches(cfg, s, steps, t) && cfg.policy == Disconnect && WholeSoFar(s, late)
    ensures GapFree(cfg, s, steps) <==> !AcceptedAfterLate(cfg, s, steps, late)
    decreases |steps|
  {
    if steps != [] && !(late && IsPublish(steps[0])) {
      WholeSoFarStep(cfg, s, steps[0], late);
      InvKept(cfg, s, steps[0]);
      GapFreeExactlyWhen(cfg, Apply(cfg, s, steps[0]), steps[1..], t, late || Late(cfg, s, steps[0]));
    }
  }

  lemma InitiallyWhole()
    ensures WholeSoFar(Init(), false)
  {
  }

  lemma TapeExactlyWhen(cfg: Config, s: Session, steps: seq<Step>, t: Session)
    requires Inv(cfg, s) && LastIsQueued(s.books) && Contiguous(s.books.ledger.Survivors()) && WholeSoFar(s, false)
    requires cfg.policy == Disconnect && Reaches(cfg, s, steps, t)
    ensures Contiguous(Numbers(t.flow.Stream())) <==> !AcceptedAfterLate(cfg, s, steps, false)
  {
    TapeFrom(cfg, s, steps, t);
    GapFreeExactlyWhen(cfg, s, steps, t, false);
  }

  /** Under Disconnect the stream is `1, 2, ..., n` if and only if no batch is accepted after a late skip. */
  lemma CompleteTapeExactlyWhen(cfg: Config, steps: seq<Step>, s: Session)
    requires cfg.policy == Disconnect && Reaches(cfg, Init(), steps, s)
    ensures Contiguous(Numbers(s.flow.Stream())) <==> !AcceptedAfterLate(cfg, Init(), steps, false)
  {
    InvInitially(cfg);
    InitiallyComplete();
    InitiallyWhole();
    TapeExactlyWhen(cfg, Init(), steps, s);
  }

  // ---- runs in which no skip is late ----

  /** Unlocked skips as the code makes them, except that none straddles a recovery: the handler compares the
      counters with no publisher between reading the state and counting, and none reads it while the handler
      holds the gate. */
  ghost predicate Orderly(cfg: Config, s: Session, steps: seq<Step>)
    decreases |steps|
  {
    steps == []
    || (Enabled(cfg, s, steps[0])
        && (steps[0] == ByHandler(DecideRecovery) ==> s.books.observed == 0 && s.books.burning == 0)
        && (steps[0].ByPublisher? && steps[0].p.Observe? ==> s.gate.Free())
        && Orderly(cfg, Apply(cfg, s, steps[0]), steps[1..]))
  }

  /** Nothing is between read and count while the session runs or recovers, and nothing it may still send after
      has been withheld. */
  ghost predicate Settled(s: Session) {
    && (s.gate.phase == Running || s.gate.handler == Recovering ==> s.books.observed == 0 && Lossless(s.books))
    && (s.gate.phase == Backpressured && s.gate.handler != Recovering ==>
          s.gate.skippedAtOnset == 0
          && s.books.nextSequence == s.books.lastQueued + 1 + s.books.skipped + s.books.burning)
  }

  lemma SettledStep(cfg: Config, s: Session, step: Step)
    requires Control(cfg, s.gate, s.books, s.flow.reader) && Enabled(cfg, s, step) && Orderly(cfg, s, [step])
    requires cfg.policy == Disconnect && Settled(s)
    ensures Settled(Apply(cfg, s, step)) && !Late(cfg, s, step)
    ensures IsPublish(step) ==> s.books.nextSequence == s.books.lastQueued + 1
  {
    assert [step][0] == step;
    match step
    case ByPublisher(p) => {
      match p
      case _ =>
    }
    case ByHandler(h) => {
      match h
      case _ =>
    }
    case _ =>
  }

  lemma {:induction false} OrderlyRunsAreGapFree(cfg: Config, s: Session, steps: seq<Step>, t: Session)
    requires Inv(cfg, s) && Reaches(cfg, s, steps, t) && Orderly(cfg, s, steps)
    requires cfg.policy == Disconnect && Settled(s)
    ensures GapFree(cfg, s, steps) && Settled(t) && !AcceptedAfterLate(cfg, s, steps, false)
    decreases |steps|
  {
    if steps != [] {
      assert Orderly(cfg, s, [steps[0]]);
      SettledStep(cfg, s, steps[0]);
      InvKept(cfg, s, steps[0]);
      OrderlyRunsAreGapFree(cfg, Apply(cfg, s, steps[0]), steps[1..], t);
    }
  }

  lemma OrderlyTapeFrom(cfg: Config, s: Session, steps: seq<Step>, t: Session)
    requires Inv(cfg, s) && LastIsQueued(s.books) && Contiguous(s.books.ledger.Survivors()) && Settled(s)
    requires cfg.policy == Disconnect && Reaches(cfg, s, steps, t) && Orderly(cfg, s, steps)
    ensures Contiguous(Numbers(t.flow.Stream())) && Contiguous(Numbers(t.flow.delivered))
    ensures t.books.skipped > 0 ==> t.gate.phase != Running
  {
    OrderlyRunsAreGapFree(cfg, s, steps, t);
    TapeFrom(cfg, s, steps, t);
    DeliveredIsPrefix(t.flow);
  }

  lemma InitiallySettled()
    ensures Settled(Init())
  {
  }

  /** Under Disconnect, with unlocked skips and none of them straddling a recovery, the consumer is sent
      `1, 2, ..., n`, and a session that has withheld anything is not running. */
  lemma CompleteTapeWhenOrderly(cfg: Config, steps: seq<Step>, s: Session)
    requires cfg.policy == Disconnect && Reaches(cfg, Init(), steps, s) && Orderly(cfg, Init(), steps)
    ensures Contiguous(Numbers(s.flow.Stream())) && Contiguous(Numbers(s.flow.delivered))
    ensures s.books.skipped > 0 ==> s.gate.phase != Running
  {
    InvInitially(cfg);
    InitiallyComplete();
    InitiallySettled();
    OrderlyTapeFrom(cfg, Init(), steps, s);
  }

  /** Once a record has been withheld nothing more is ever queued: the session cannot run again. */
  lemma {:induction false} NothingQueuedAfterLoss(cfg: Config, s: Session, steps: seq<Step>, t: Session)
    requires Inv(cfg, s) && Reaches(cfg, s, steps, t) && Orderly(cfg, s, steps)
    requires cfg.policy == Disconnect && Settled(s) && s.books.skipped > 0
    ensures t.gate.phase != Running && t.books.skipped > 0
    ensures Numbers(t.flow.Stream()) == Numbers(s.flow.Stream())
    decreases |steps|
  {
    if steps != [] {
      assert Orderly(cfg, s, [steps[0]]);
      SettledStep(cfg, s, steps[0]);
      SurvivorsAfterStep(cfg, s, steps[0]);
      InvKept(cfg, s, steps[0]);
      NothingQueuedAfterLoss(cfg, Apply(cfg, s, steps[0]), steps[1..], t);
    }
  }

  lemma {:induction false} OrderlySplit(cfg: Config, s: Session, first: seq<Step>, m: Session, second: seq<Step>)
    requires Reaches(cfg, s, first, m) && Orderly(cfg, s, first + second)
    ensures Orderly(cfg, s, first) && Orderly(cfg, m, second)
    decreases |first|
  {
    if first == [] {
      assert first + second == second;
    } else {
      assert (first + second)[0] == first[0] && (first + second)[1..] == first[1..] + second;
      OrderlySplit(cfg, Apply(cfg, s, first[0]), first[1..], m, second);
    }
  }

  lemma LossEndsItFrom(cfg: Config, s: Session, first: seq<Step>, m: Session, second: seq<Step>, t: Session)
    requires Inv(cfg, s) && Reaches(cfg, s, first, m) && Reaches(cfg, m, second, t)
    requires cfg.policy == Disconnect && Settled(s) && Orderly(cfg, s, first + second) && m.books.skipped > 0
    ensures t.gate.phase != Running && Numbers(t.flow.Stream()) == Numbers(m.flow.Stream())
  {
    OrderlySplit(cfg, s, first, m, second);
    OrderlyRunsAreGapFree(cfg, s, first, m);
    InvAlongRun(cfg, s, first, m);
    NothingQueuedAfterLoss(cfg, m, second, t);
  }

  /** From a new session on: wherever in an orderly run a record has been counted as withheld, nothing is queued in
      the rest of the run and the session is not running at its end. */
  lemma LossEndsTheTape(cfg: Config, first: seq<Step>, m: Session, second: seq<Step>, t: Session)
    requires Reaches(cfg, Init(), first, m) && Reaches(cfg, m, second, t)
    requires cfg.policy == Disconnect && Orderly(cfg, Init(), first + second) && m.books.skipped > 0
    ensures t.gate.phase != Running && Numbers(t.flow.Stream()) == Numbers(m.flow.Stream())
  {
    InvInitially(cfg);
    InitiallySettled();
    LossEndsItFrom(cfg, Init(), first, m, second, t);
  }

  // ---- skips under the gate ----

  /** A run in which every skip is made under the write gate. */
  predicate Gated(steps: seq<Step>) {
    forall i | 0 <= i < |steps| :: !(steps[i].ByPublisher? && steps[i].p.Observe?)
  }

  lemma {:induction false} GatedRunsAreOrderly(cfg: Config, s: Session, steps: seq<Step>, t: Session)
    requires Reaches(cfg, s, steps, t) && Gated(steps) && s.books.observed == 0 && s.books.burning == 0
    ensures Orderly(cfg, s, steps)
    decreases |steps|
  {
    if steps != [] {
      assert Gated([steps[0]]) && Gated(steps[1..]);
      GatedRunsAreOrderly(cfg, Apply(cfg, s, steps[0]), steps[1..], t);
    }
  }

  /** Making every skip under the gate is enough. */
  lemma CompleteTapeWhenGated(cfg: Config, steps: seq<Step>, s: Session)
    requires cfg.policy == Disconnect && Reaches(cfg, Init(), steps, s) && Gated(steps)
    ensures Contiguous(Numbers(s.flow.Stream())) && Contiguous(Numbers(s.flow.delivered))
    ensures s.books.skipped > 0 ==> s.gate.phase != Running
  {
    GatedRunsAreOrderly(cfg, Init(), steps, s);
    CompleteTapeWhenOrderly(cfg, steps, s);
  }

  // ---- how far the converse holds ----

  lemma DisorderStays(cfg: Config, s: Session, first: seq<Step>, m: Session, second: seq<Step>)
    requires Reaches(cfg, s, first, m) && !Orderly(cfg, m, second)
    ensures !Orderly(cfg, s, first + second)
  {
    if Orderly(cfg, s, first + second) {
      OrderlySplit(cfg, s, first, m, second);
    }
  }

  lemma StraddlesRecovery(cfg: Config, s: Session, steps: seq<Step>, count: nat)
    requires |steps| >= 2 && steps[0] == ByPublisher(Observe(count)) && steps[1] == ByHandler(DecideRecovery)
    requires Enabled(cfg, s, steps[0])
    ensures !Orderly(cfg, s, steps)
  {
    assert Apply(cfg, s, steps[0]).books.observed > 0;
    assert steps[1..][0] == steps[1];
  }

  lemma LateSkipStraddles() returns (steps: seq<Step>)
    ensures Reaches(Small(Disconnect), Drained(Cleared), steps, RanWithHole())
    ensures !Orderly(Small(Disconnect), Drained(Cleared), steps)
  {
    steps := LateSkip();
    StraddlesRecovery(Small(Disconnect), Drained(Cleared), steps, 1);
  }

  lemma TwoOnTheTape()
    ensures Contiguous(Numbers(RanWithHole().flow.Stream()))
  {
    assert RanWithHole().flow.Stream() == TwoPrints();
    TicksOnly(TwoPrints()[1..]);
    assert Numbers(TwoPrints()) == [1, 2];
  }

  /** A run need not be orderly for the tape to be whole: the late skip only shows once a batch follows it. */
  lemma DisorderNeedNotShow() returns (steps: seq<Step>, s: Session)
    ensures Reaches(Small(Disconnect), Init(), steps, s) && !Orderly(Small(Disconnect), Init(), steps)
    ensures Contiguous(Numbers(s.flow.Stream())) && s.gate.phase == Running && s.books.skipped == 1
  {
    var first := ReachCleared();
    var second := LateSkipStraddles();
    s := RanWithHole();
    steps := first + second;
    ReachesConcat(Small(Disconnect), Init(), first, Drained(Cleared), second, s);
    DisorderStays(Small(Disconnect), Init(), first, Drained(Cleared), second);
    TwoOnTheTape();
  }
}

/** Steps that are always open: an episode of backpressure can end, a pipe can be sent, an idle session can beat. */
module SessionProgress {
  import opened SessionProtocol
  import opened SessionInvariants

  // ---- how an episode can end ----

  predicate ByHandlerAlone(steps: seq<Step>) {
    forall i | 0 <= i < |steps| :: steps[i].ByHandler?
  }

  lemma FollowedBy(cfg: Config, s: Session, step: Step, steps: seq<Step>, t: Session)
    requires Enabled(cfg, s, step) && Reaches(cfg, Apply(cfg, s, step), steps, t)
    ensures Reaches(cfg, s, [step] + steps, t)
  {
    assert ([step] + steps)[1..] == steps;
  }

  /** Under either policy a consumer that is being waited for can be given up: the session closes. */
  lemma SlowConsumerCanBeGivenUp(cfg: Config, s: Session) returns (t: Session)
    requires s.gate.handler == Waiting
    ensures Reaches(cfg, s, [ByHandler(FlushTimesOut), ByHandler(Evict)], t)
    ensures t.gate.phase == Closing && t.gate.closeRequested && t.gate.handler == NoHandler
  {
    var timedOut := Apply(cfg, s, ByHandler(FlushTimesOut));
    t := Apply(cfg, timedOut, ByHandler(Evict));
    OneStep(cfg, timedOut, ByHandler(Evict));
    FollowedBy(cfg, s, ByHandler(FlushTimesOut), [ByHandler(Evict)], t);
    assert [ByHandler(FlushTimesOut)] + [ByHandler(Evict)] == [ByHandler(FlushTimesOut), ByHandler(Evict)];
  }

  /** Wherever the handler is it can finish by itself, whatever the others do not do: no episode hangs. */
  lemma {:induction false} HandlerCanFinish(cfg: Config, s: Session) returns (steps: seq<Step>, t: Session)
    ensures Reaches(cfg, s, steps, t) && ByHandlerAlone(steps) && t.gate.handler == NoHandler
    decreases StepsLeft(s.gate.handler)
  {
    if s.gate.handler == NoHandler {
      return [], s;
    }
    var step := ByHandler(NextOf(s.gate.handler));
    var rest, end := HandlerCanFinish(cfg, Apply(cfg, s, step));
    FollowedBy(cfg, s, step, rest, end);
    return [step] + rest, end;
  }

  function NextOf(h: Handler): HandlerStep
    requires h != NoHandler
  {
    match h
    case Waiting => FlushTimesOut
    case Resumed => ClearRequest
    case Cleared => DecideRecovery
    case Recovering => CompleteRecovery
    case Evicting => Evict
  }

  function StepsLeft(h: Handler): nat {
    match h
    case NoHandler => 0
    case Recovering => 1
    case Evicting => 1
    case Cleared => 2
    case Waiting => 2
    case Resumed => 3
  }

  // ---- what the reader can always do ----

  lemma {:induction false} CanSendTheRest(cfg: Config, s: Session) returns (steps: seq<Step>, t: Session)
    requires s.flow.reader.Sending? && s.flow.reader.sent <= s.flow.reader.held == |s.flow.pipe|
    ensures Reaches(cfg, s, steps, t) && t.gate == s.gate && t.books == s.books
    ensures t.flow == s.flow.(pipe := [], reader := Idle, delivered := s.flow.delivered + s.flow.Unsent())
    decreases s.flow.reader.held - s.flow.reader.sent
  {
    var f := s.flow;
    if f.reader.sent == f.reader.held {
      t := Apply(cfg, s, ByReader(FinishSend));
      OneStep(cfg, s, ByReader(FinishSend));
      steps := [ByReader(FinishSend)];
      assert f.Unsent() == [];
    } else {
      var step := ByReader(SendItem);
      var next := Apply(cfg, s, step);
      var rest;
      rest, t := CanSendTheRest(cfg, next);
      FollowedBy(cfg, s, step, rest, t);
      steps := [step] + rest;
      assert f.Unsent() == [f.pipe[f.reader.sent]] + next.flow.Unsent();
      assert next.flow.delivered + next.flow.Unsent() == f.delivered + f.Unsent();
    }
  }

  /** Everything waiting in the pipe of a session without a discard request can go out, in order, at once. */
  lemma PipeCanBeSent(cfg: Config, s: Session) returns (steps: seq<Step>, t: Session)
    requires s.flow.reader == Idle && s.flow.pipe != [] && !s.gate.discardRequested
    ensures Reaches(cfg, s, steps, t) && t.gate == s.gate && t.books == s.books
    ensures t.flow == s.flow.(pipe := [], delivered := s.flow.delivered + s.flow.pipe)
  {
    var read := Apply(cfg, s, ByReader(ReadPipe));
    var taken := Apply(cfg, read, ByReader(TakeBuffer));
    var rest;
    rest, t := CanSendTheRest(cfg, taken);
    FollowedBy(cfg, read, ByReader(TakeBuffer), rest, t);
    FollowedBy(cfg, s, ByReader(ReadPipe), [ByReader(TakeBuffer)] + rest, t);
    steps := [ByReader(ReadPipe)] + ([ByReader(TakeBuffer)] + rest);
  }

  /** A started session with nothing to send and no close asked for can always send a heartbeat, and it carries the
      last number queued. */
  lemma IdleSessionCanBeat(cfg: Config, s: Session) returns (t: Session)
    requires s.flow.reader == Idle && s.flow.pipe == [] && s.gate.started && !s.gate.closeRequested
    ensures Reaches(cfg, s, [ByReader(ReadEmpty), ByReader(SendHeartbeat)], t)
    ensures t == s.(flow := s.flow.(delivered := s.flow.delivered + [Beat(s.books.lastQueued)]))
  {
    var beating := Apply(cfg, s, ByReader(ReadEmpty));
    t := Apply(cfg, beating, ByReader(SendHeartbeat));
    OneStep(cfg, beating, ByReader(SendHeartbeat));
    FollowedBy(cfg, s, ByReader(ReadEmpty), [ByReader(SendHeartbeat)], t);
    assert [ByReader(ReadEmpty)] + [ByReader(SendHeartbeat)] == [ByReader(ReadEmpty), ByReader(SendHeartbeat)];
  }
}

/** The session-start frame: where it stands in a consumer's stream, and exactly when a discard takes it. */
module SessionOpening {
  import opened SessionProtocol
  import opened SessionInvariants

  lemma {:induction false} NoneLeft(items: seq<Item>)
    requires Openings(items) == 0
    ensures forall i | 0 <= i < |items| :: !items[i].Opening?
  {
    if items != [] {
      NoneLeft(items[1..]);
      assert forall i | 1 <= i < |items| :: items[i] == items[1..][i - 1];
    }
  }

  lemma OnlyOneOpening(items: seq<Item>)
    requires StartsOpen(items) && Openings(items) == 1
    ensures forall i | 1 <= i < |items| :: !items[i].Opening?
  {
    NoneLeft(items[1..]);
    assert forall i | 1 <= i < |items| :: items[i] == items[1..][i - 1];
  }

  /** A reader that holds a buffer holds something. */
  predicate HoldsFrames(f: Flow) {
    && (f.reader.Holding? ==> f.reader.held > 0)
    && (f.reader.Discarding? ==> f.reader.held > 0)
  }

  lemma HoldsFramesStep(cfg: Config, s: Session, step: Step)
    requires HoldsFrames(s.flow) && Enabled(cfg, s, step)
    ensures HoldsFrames(Apply(cfg, s, step).flow)
  {
  }

  /** A discard takes the opening frame along exactly when nothing has been sent yet. */
  lemma DropTakesOpening(f: Flow, started: bool)
    requires OpeningPlaced(f, started) && !f.openingLost
    requires f.reader.Discarding? && 0 < f.reader.held <= |f.pipe|
    ensures Openings(f.pipe[..f.reader.held]) > 0 <==> f.delivered == []
  {
    var held, rest := f.pipe[..f.reader.held], f.pipe[f.reader.held..];
    OpeningsConcat(f.delivered, f.pipe);
    OpeningsConcat(held, rest);
    assert f.pipe == held + rest;
    if f.delivered == [] {
      assert f.Stream() == f.pipe && held[0] == f.pipe[0];
    } else {
      assert f.Stream()[0] == f.delivered[0];
    }
  }

  lemma DiscardTakesOpeningExactlyWhen(cfg: Config, s: Session)
    requires Inv(cfg, s) && HoldsFrames(s.flow) && s.flow.reader.Discarding?
    ensures s.flow.DropHeld().openingLost <==> s.flow.openingLost || s.flow.delivered == []
  {
    if !s.flow.openingLost {
      DropTakesOpening(s.flow, s.gate.started);
    }
  }

  /** Somewhere in the run a discard finished with nothing sent before it. */
  ghost predicate DiscardedBeforeSending(cfg: Config, s: Session, steps: seq<Step>)
    decreases |steps|
  {
    steps != [] && Enabled(cfg, s, steps[0])
    && ((steps[0] == ByReader(FinishDiscard) && s.flow.delivered == [])
        || DiscardedBeforeSending(cfg, Apply(cfg, s, steps[0]), steps[1..]))
  }

  lemma OpeningLostStep(cfg: Config, s: Session, step: Step)
    requires Inv(cfg, s) && HoldsFrames(s.flow) && Enabled(cfg, s, step)
    ensures Apply(cfg, s, step).flow.openingLost
      <==> s.flow.openingLost || (step == ByReader(FinishDiscard) && s.flow.delivered == [])
  {
    if step == ByReader(FinishDiscard) {
      DiscardTakesOpeningExactlyWhen(cfg, s);
    }
  }

  lemma {:induction false} OpeningLostAlongRun(cfg: Config, s: Session, steps: seq<Step>, t: Session)
    requires Inv(cfg, s) && HoldsFrames(s.flow) && Reaches(cfg, s, steps, t)
    ensures t.flow.openingLost <==> s.flow.openingLost || DiscardedBeforeSending(cfg, s, steps)
    decreases |steps|
  {
    if steps != [] {
      OpeningLostStep(cfg, s, steps[0]);
      InvKept(cfg, s, steps[0]);
      HoldsFramesStep(cfg, s, steps[0]);
      OpeningLostAlongRun(cfg, Apply(cfg, s, steps[0]), steps[1..], t);
    }
  }

  lemma OpeningLostFrom(cfg: Config, s: Session, steps: seq<Step>, t: Session)
    requires Inv(cfg, s) && HoldsFrames(s.flow) && !s.flow.openingLost && Reaches(cfg, s, steps, t)
    ensures t.flow.openingLost <==> DiscardedBeforeSending(cfg, s, steps)
  {
    OpeningLostAlongRun(cfg, s, steps, t);
  }

  lemma InitiallyUnopened()
    ensures HoldsFrames(Init().flow) && !Init().flow.openingLost
  {
  }

  /** The opening frame is lost on a run exactly when the run finishes a discard before anything has been sent. */
  lemma OpeningLostExactlyWhen(cfg: Config, steps: seq<Step>, s: Session)
    requires Reaches(cfg, Init(), steps, s)
    ensures s.flow.openingLost <==> DiscardedBeforeSending(cfg, Init(), steps)
  {
    InvInitially(cfg);
    InitiallyUnopened();
    OpeningLostFrom(cfg, Init(), steps, s);
  }

  lemma FirstIsOpening(f: Flow, started: bool)
    requires OpeningPlaced(f, started) && f.delivered != []
    ensures f.delivered[0] == Opening <==> !f.openingLost
    ensures forall i | 1 <= i < |f.delivered| :: !f.delivered[i].Opening?
  {
    var stream := f.Stream();
    assert stream[0] == f.delivered[0];
    if f.openingLost {
      NoneLeft(stream);
    } else {
      OnlyOneOpening(stream);
    }
    forall i | 1 <= i < |f.delivered| ensures !f.delivered[i].Opening? {
      assert stream[i] == f.delivered[i];
    }
  }

  /** The first item a consumer is sent is its session start if and only if no discard was finished before anything
      was sent; there is never a second one. */
  lemma OpeningIsFirstExactlyWhen(cfg: Config, steps: seq<Step>, s: Session)
    requires Reaches(cfg, Init(), steps, s) && s.flow.delivered != []
    ensures s.flow.delivered[0] == Opening <==> !DiscardedBeforeSending(cfg, Init(), steps)
    ensures forall i | 1 <= i < |s.flow.delivered| :: !s.flow.delivered[i].Opening?
  {
    OpeningLostExactlyWhen(cfg, steps, s);
    InvReachable(cfg, steps, s);
    FirstIsOpening(s.flow, s.gate.started);
  }

  lemma {:induction false} DisconnectKeepsTheOpening(cfg: Config, s: Session, steps: seq<Step>, t: Session)
    requires Inv(cfg, s) && Reaches(cfg, s, steps, t) && cfg.policy == Disconnect && !s.flow.openingLost
    ensures !t.flow.openingLost
    decreases |steps|
  {
    if steps != [] {
      InvKept(cfg, s, steps[0]);
      DisconnectKeepsTheOpening(cfg, Apply(cfg, s, steps[0]), steps[1..], t);
    }
  }

  /** Under Disconnect the opening frame is never lost. */
  lemma DisconnectOpens(cfg: Config, steps: seq<Step>, s: Session)
    requires Reaches(cfg, Init(), steps, s) && cfg.policy == Disconnect
    ensures !s.flow.openingLost
  {
    InvInitially(cfg);
    InitiallyUnopened();
    DisconnectKeepsTheOpening(cfg, Init(), steps, s);
  }
}

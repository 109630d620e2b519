/** What falling behind starts: the discard request of an onset, and which buffer it is meant for. */
module SessionOnsets {
  import opened FeedRecords
  import opened SessionProtocol
  import opened SessionInvariants
  import opened SessionTheorems

  /** A batch that fills the pipe puts the session behind, and under DropOldest raises the discard request whatever
      the session has been through before; any other batch leaves the request alone. */
  lemma OnsetRaisesRequest(cfg: Config, s: Session, batch: seq<FeedRecord>)
    requires Enabled(cfg, s, ByPublisher(Publish(batch)))
    ensures var t := Apply(cfg, s, ByPublisher(Publish(batch)));
      && (t.gate.phase == Backpressured <==> t.flow.reader != Finished && ByteLength(t.flow.pipe) >= cfg.bufferBytes)
      && (t.gate.phase == Backpressured ==>
            && (t.gate.discardRequested <==> cfg.policy == DropOldest)
            && t.gate.skippedAtOnset == t.books.skipped && t.gate.handler == Waiting
            && t.gate.onsetMark == t.books.lastQueued)
      && (t.gate.phase != Backpressured ==> t.gate.discardRequested == s.gate.discardRequested)
  {
  }

  /** The step that puts a session behind. */
  ghost predicate IsOnset(cfg: Config, s: Session, step: Step)
    requires Enabled(cfg, s, step)
  {
    s.gate.phase == Running && Apply(cfg, s, step).gate.phase == Backpressured
  }

  /** The steps that use a request up: the reader's exchange, and the handler's clearing. */
  predicate EndsRequest(step: Step) {
    step == ByReader(TakeBuffer) || step == ByHandler(ClearRequest)
  }

  ghost predicate OpenAfter(cfg: Config, s: Session, step: Step, open: bool)
    requires Enabled(cfg, s, step)
  {
    IsOnset(cfg, s, step) || (open && !EndsRequest(step))
  }

  /** The run ends after an onset and before the first exchange or clearing behind it; `open` is whether it starts
      there. */
  ghost predicate OnsetOpen(cfg: Config, s: Session, steps: seq<Step>, open: bool)
    decreases |steps|
  {
    if steps == [] then open
    else
      && Enabled(cfg, s, steps[0])
      && OnsetOpen(cfg, Apply(cfg, s, steps[0]), steps[1..], OpenAfter(cfg, s, steps[0], open))
  }

  lemma RequestStep(cfg: Config, s: Session, step: Step, open: bool)
    requires Enabled(cfg, s, step) && (s.gate.discardRequested <==> open && cfg.policy == DropOldest)
    ensures Apply(cfg, s, step).gate.discardRequested
      <==> OpenAfter(cfg, s, step, open) && cfg.policy == DropOldest
  {
    match step
    case ByPublisher(p) => {
      if p.Publish? {
        OnsetRaisesRequest(cfg, s, p.batch);
      }
    }
    case ByHandler(h) => {
      match h
      case _ =>
    }
    case _ =>
  }

  lemma {:induction false} RequestAlongRun(cfg: Config, s: Session, steps: seq<Step>, t: Session, open: bool)
    requires Reaches(cfg, s, steps, t) && (s.gate.discardRequested <==> open && cfg.policy == DropOldest)
    ensures t.gate.discardRequested <==> OnsetOpen(cfg, s, steps, open) && cfg.policy == DropOldest
    decreases |steps|
  {
    if steps != [] {
      RequestStep(cfg, s, steps[0], open);
      RequestAlongRun(cfg, Apply(cfg, s, steps[0]), steps[1..], t, OpenAfter(cfg, s, steps[0], open));
    }
  }

  lemma InitiallyNoRequest()
    ensures !Init().gate.discardRequested
  {
  }

  /** Over every run the discard request stands exactly under DropOldest and exactly from an onset to the first
      exchange or clearing behind it: in the tenth episode as in the first. */
  lemma RequestStandsExactlyWhen(cfg: Config, steps: seq<Step>, s: Session)
    requires Reaches(cfg, Init(), steps, s)
    ensures s.gate.discardRequested <==> OnsetOpen(cfg, Init(), steps, false) && cfg.policy == DropOldest
  {
    InitiallyNoRequest();
    RequestAlongRun(cfg, Init(), steps, s, false);
  }

  lemma TakenByRequest(cfg: Config, s: Session)
    requires Enabled(cfg, s, ByReader(TakeBuffer))
    ensures var t := Apply(cfg, s, ByReader(TakeBuffer));
      && (t.flow.reader.Discarding? <==> s.gate.discardRequested)
      && (t.flow.reader.Sending? <==> !s.gate.discardRequested)
      && !t.gate.discardRequested
  {
  }

  /** So a buffer is thrown away if and only if, under DropOldest, it is the first one taken after an onset whose
      request has not been cleared; every other buffer is sent. */
  lemma BufferIsDiscardedExactlyWhen(cfg: Config, steps: seq<Step>, s: Session)
    requires Reaches(cfg, Init(), steps, s) && Enabled(cfg, s, ByReader(TakeBuffer))
    ensures var t := Apply(cfg, s, ByReader(TakeBuffer));
      var first := OnsetOpen(cfg, Init(), steps, false) && cfg.policy == DropOldest;
      (t.flow.reader.Discarding? <==> first) && (t.flow.reader.Sending? <==> !first)
  {
    RequestStandsExactlyWhen(cfg, steps, s);
    TakenByRequest(cfg, s);
  }
}

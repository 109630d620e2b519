/** What every run of a session promises its consumer. */
module SessionTheorems {
  import opened SequenceLedger
  import opened SessionProtocol
  import opened SessionInvariants

  // ---- every number is accounted for ----

  /** Conservation: in every reachable state each number handed out was delivered, is waiting, or was lost
      in a counted way; the stream is in order; and what it lacks is exactly what was lost. */
  lemma EveryNumberAccountedFor(cfg: Config, steps: seq<Step>, s: Session)
    requires Reaches(cfg, Init(), steps, s)
    ensures s.books.nextSequence - 1 ==
      |Numbers(s.flow.delivered)| + |Numbers(s.flow.Unsent())|
      + s.books.skipped + s.books.burning + s.books.discarded + s.books.ledger.Total(Voided)
    ensures Increasing(Numbers(s.flow.Stream()))
    ensures s.books.nextSequence == s.books.ledger.Length() + 1
    ensures forall n | 1 <= n < s.books.nextSequence ::
      n !in Numbers(s.flow.Stream()) <==> s.books.ledger.FateOf(n) in {Skipped, Discarded, Voided}
  {
    InvReachable(cfg, steps, s);
    TotalsAddUp(s.books.ledger);
    SurvivorsAreTheQueued(s.books.ledger);
    NumbersConcat(s.flow.delivered, s.flow.Unsent());
  }

  lemma VoidNeedsFault(cfg: Config, s: Session, step: Step)
    requires Enabled(cfg, s, step) && !(step.ByPublisher? && step.p.PublishFault?)
    requires s.flow.reader.Discarding? ==> s.flow.reader.held <= |s.flow.pipe|
    ensures Apply(cfg, s, step).books.ledger.Total(Voided) == s.books.ledger.Total(Voided)
  {
    match step
    case ByPublisher(p) => {
      match p
      case Burn(count) => AssignTotal(s.books.ledger, Skipped, count, Voided);
      case SkipGated(count) => AssignTotal(s.books.ledger, Skipped, count, Voided);
      case Publish(batch) => AssignTotal(s.books.ledger, Queued, |batch|, Voided);
      case _ =>
    }
    case ByReader(r) => {
      if r.FinishDiscard? {
        var from := |Numbers(s.flow.delivered)|;
        DiscardTotals(s.books.ledger, from, from + |Numbers(s.flow.pipe[..s.flow.reader.held])|);
      }
    }
    case _ =>
  }

  lemma RangesStep(cfg: Config, s: Session, step: Step)
    requires s.flow.Ranges() && Enabled(cfg, s, step)
    ensures Apply(cfg, s, step).flow.Ranges()
  {
  }

  lemma {:induction false} NoFaultVoidsNothing(cfg: Config, s: Session, steps: seq<Step>, t: Session)
    requires s.flow.Ranges() && Reaches(cfg, s, steps, t)
    requires forall i | 0 <= i < |steps| :: !(steps[i].ByPublisher? && steps[i].p.PublishFault?)
    ensures t.books.ledger.Total(Voided) == s.books.ledger.Total(Voided)
    decreases |steps|
  {
    if steps != [] {
      VoidNeedsFault(cfg, s, steps[0]);
      RangesStep(cfg, s, steps[0]);
      NoFaultVoidsNothing(cfg, Apply(cfg, s, steps[0]), steps[1..], t);
    }
  }

  lemma InitiallyNothingVoid()
    ensures Init().flow.Ranges() && Init().books.ledger.Total(Voided) == 0
  {
  }

  /** Batches of ticks void nothing: a number is voided only by a record that cannot be encoded. */
  lemma ValidBatchesVoidNothing(cfg: Config, steps: seq<Step>, s: Session)
    requires Reaches(cfg, Init(), steps, s)
    requires forall i | 0 <= i < |steps| :: !(steps[i].ByPublisher? && steps[i].p.PublishFault?)
    ensures s.books.ledger.Total(Voided) == 0
  {
    InitiallyNothingVoid();
    NoFaultVoidsNothing(cfg, Init(), steps, s);
  }

  // ---- Disconnect ----

  predicate IsPublish(step: Step) {
    step.ByPublisher? && step.p.Publish?
  }

  /** The last number queued is the last survivor; true while nothing is discarded. */
  ghost predicate LastIsQueued(b: Books) {
    && b.discarded == 0
    && (var q := b.ledger.Survivors(); b.lastQueued == if q == [] then 0 else q[|q| - 1])
  }

  lemma NoDiscardUnderDisconnect(cfg: Config, s: Session, step: Step)
    requires Inv(cfg, s) && Enabled(cfg, s, step) && cfg.policy == Disconnect
    ensures !(step.ByReader? && step.r.FinishDiscard?)
  {
  }

  lemma SurvivorsAfterStep(cfg: Config, s: Session, step: Step)
    requires Inv(cfg, s) && Enabled(cfg, s, step) && cfg.policy == Disconnect
    ensures var t := Apply(cfg, s, step);
      && t.books.discarded == s.books.discarded
      && (!IsPublish(step) ==> t.books.ledger.Survivors() == s.books.ledger.Survivors()
                               && t.books.lastQueued == s.books.lastQueued)
      && (IsPublish(step) ==>
            t.books.ledger.Survivors() == s.books.ledger.Survivors() + UpFrom(s.books.nextSequence, |step.p.batch|)
            && t.books.lastQueued == s.books.nextSequence + |step.p.batch| - 1)
  {
    NoDiscardUnderDisconnect(cfg, s, step);
    if step.ByPublisher? {
      PublisherSurvivors(cfg, s, step.p);
    }
  }

  lemma PublisherSurvivors(cfg: Config, s: Session, step: PublisherStep)
    requires PublisherMay(s, step) && s.books.nextSequence == s.books.ledger.Length() + 1
    ensures var l, t := s.books.ledger, ApplyPublisher(cfg, s, step).books.ledger;
      t.Survivors() == l.Survivors() + (if step.Publish? then UpFrom(s.books.nextSequence, |step.batch|) else [])
  {
    var l := s.books.ledger;
    match step
    case Burn(count) => AssignSurvivors(l, Skipped, count);
    case SkipGated(count) => AssignSurvivors(l, Skipped, count);
    case Publish(batch) => AssignSurvivors(l, Queued, |batch|);
    case PublishFault(batch) => AssignSurvivors(l, Voided, |batch|);
    case _ =>
  }

  lemma ContiguousExtends(q: seq<nat>, next: nat, count: nat)
    requires count > 0 && (q == [] || q[|q| - 1] < next) && 1 <= next
    ensures Contiguous(q + UpFrom(next, count)) <==>
      Contiguous(q) && next == (if q == [] then 0 else q[|q| - 1]) + 1
  {
    var all := q + UpFrom(next, count);
    if Contiguous(all) {
      assert forall i | 0 <= i < |q| :: q[i] == all[i];
      assert all[|q|] == next;
    }
  }

  /** Every publish in the run found no number burned since the last one queued. */
  ghost predicate GapFree(cfg: Config, s: Session, steps: seq<Step>)
    decreases |steps|
  {
    steps == []
    || (Enabled(cfg, s, steps[0])
        && (IsPublish(steps[0]) ==> s.books.nextSequence == s.books.lastQueued + 1)
        && GapFree(cfg, Apply(cfg, s, steps[0]), steps[1..]))
  }

  lemma ContiguousStep(cfg: Config, s: Session, step: Step)
    requires Inv(cfg, s) && Enabled(cfg, s, step) && cfg.policy == Disconnect && LastIsQueued(s.books)
    ensures var t := Apply(cfg, s, step);
      && LastIsQueued(t.books)
      && (Contiguous(t.books.ledger.Survivors()) <==>
            Contiguous(s.books.ledger.Survivors())
            && (IsPublish(step) ==> s.books.nextSequence == s.books.lastQueued + 1))
  {
    SurvivorsAfterStep(cfg, s, step);
    if IsPublish(step) {
      SurvivorsBelowNext(cfg, s);
      ContiguousQueue(s.books, Apply(cfg, s, step).books, |step.p.batch|);
    }
  }

  lemma SurvivorsBelowNext(cfg: Config, s: Session)
    requires Inv(cfg, s)
    ensures 1 <= s.books.nextSequence
    ensures forall n | n in s.books.ledger.Survivors() :: n < s.books.nextSequence
  {
    SurvivorsAreTheQueued(s.books.ledger);
  }

  lemma ContiguousQueue(b: Books, c: Books, count: nat)
    requires LastIsQueued(b) && c.discarded == b.discarded && count > 0 && 1 <= b.nextSequence
    requires forall n | n in b.ledger.Survivors() :: n < b.nextSequence
    requires c.ledger.Survivors() == b.ledger.Survivors() + UpFrom(b.nextSequence, count)
    requires c.lastQueued == b.nextSequence + count - 1
    ensures LastIsQueued(c)
    ensures Contiguous(c.ledger.Survivors()) <==>
      Contiguous(b.ledger.Survivors()) && b.nextSequence == b.lastQueued + 1
  {
    var q := b.ledger.Survivors();
    if q != [] {
      assert q[|q| - 1] in q;
    }
    ContiguousExtends(q, b.nextSequence, count);
  }

  lemma {:induction false} ContiguousAlongRun(cfg: Config, s: Session, steps: seq<Step>, t: Session)
    requires Inv(cfg, s) && Reaches(cfg, s, steps, t) && cfg.policy == Disconnect && LastIsQueued(s.books)
    ensures Contiguous(t.books.ledger.Survivors()) <==> Contiguous(s.books.ledger.Survivors()) && GapFree(cfg, s, steps)
    decreases |steps|
  {
    if steps != [] {
      ContiguousStep(cfg, s, steps[0]);
      InvKept(cfg, s, steps[0]);
      ContiguousAlongRun(cfg, Apply(cfg, s, steps[0]), steps[1..], t);
    }
  }

  lemma InitiallyComplete()
    ensures LastIsQueued(Init().books) && Contiguous(Init().books.ledger.Survivors())
  {
    assert Init().books.ledger == Empty;
  }

  lemma TapeFrom(cfg: Config, s: Session, steps: seq<Step>, t: Session)
    requires Inv(cfg, s) && LastIsQueued(s.books) && Contiguous(s.books.ledger.Survivors())
    requires cfg.policy == Disconnect && Reaches(cfg, s, steps, t)
    ensures Contiguous(Numbers(t.flow.Stream())) <==> GapFree(cfg, s, steps)
  {
    InvAlongRun(cfg, s, steps, t);
    ContiguousAlongRun(cfg, s, steps, t);
  }

  /** Under Disconnect the stream is `1, 2, ..., n` if and only if every batch was accepted with no number
      burned since the last one queued. */
  lemma CompleteTapeBatchByBatch(cfg: Config, steps: seq<Step>, s: Session)
    requires cfg.policy == Disconnect && Reaches(cfg, Init(), steps, s)
    ensures Contiguous(Numbers(s.flow.Stream())) <==> GapFree(cfg, Init(), steps)
  {
    InvInitially(cfg);
    InitiallyComplete();
    TapeFrom(cfg, Init(), steps, s);
  }

  /** A skip made outside the gate with nothing in between, and no recovery half done, is a gated skip. */
  lemma UninterruptedSkipIsGated(cfg: Config, s: Session, count: nat)
    requires Enabled(cfg, s, ByPublisher(Observe(count))) && s.gate.Free()
    ensures Enabled(cfg, s, ByPublisher(SkipGated(count)))
    ensures var observed := Apply(cfg, s, ByPublisher(Observe(count)));
      && Enabled(cfg, observed, ByPublisher(Burn(count)))
      && Enabled(cfg, Apply(cfg, observed, ByPublisher(Burn(count))), ByPublisher(Count(count)))
      && Apply(cfg, Apply(cfg, observed, ByPublisher(Burn(count))), ByPublisher(Count(count)))
        == Apply(cfg, s, ByPublisher(SkipGated(count)))
  {
  }

  ghost predicate Lossless(b: Books) {
    b.nextSequence == b.lastQueued + 1 && b.skipped == 0 && b.burning == 0
  }

  lemma DeliveredIsPrefix(f: Flow)
    requires Contiguous(Numbers(f.Stream()))
    ensures Contiguous(Numbers(f.delivered))
  {
    NumbersConcat(f.delivered, f.Unsent());
    assert forall i | 0 <= i < |Numbers(f.delivered)| :: Numbers(f.delivered)[i] == Numbers(f.Stream())[i];
  }
}

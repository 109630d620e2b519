/** Promises of a session under either policy: what a discard may touch, what a heartbeat vouches for, and how
    much a slow consumer can make the exchange hold. */
module SessionGuarantees {
  import opened FeedRecords
  import opened FeedFrameWriter
  import opened SequenceLedger
  import opened SessionProtocol
  import opened SessionInvariants

  // ---- discards ----

  /** A discard request is only obeyed while nothing has been queued since the onset that raised it, and
      the session is not running. */
  lemma RequestBelongsToItsEpisode(cfg: Config, steps: seq<Step>, s: Session)
    requires Reaches(cfg, Init(), steps, s) && s.gate.discardRequested
    ensures cfg.policy == DropOldest && s.gate.phase != Running && s.books.lastQueued == s.gate.onsetMark
  {
    InvReachable(cfg, steps, s);
  }

  lemma MiddleIsBounded(a: seq<nat>, b: seq<nat>, c: seq<nat>, n: nat)
    requires n in a + b + c && n !in b
    ensures n in a + c
  {
  }

  lemma {:induction false} NumbersUpTo(items: seq<Item>, limit: nat)
    requires NumberedUpTo(items, limit)
    ensures forall n | n in Numbers(items) :: n <= limit
  {
    if items != [] {
      NumbersUpTo(items[1..], limit);
    }
  }

  /** Discarding the middle of three runs of survivors changes the fate of nothing outside it. */
  lemma OnlyTheMiddleChanges(l: Ledger, x: seq<nat>, y: seq<nat>, z: seq<nat>, mark: nat)
    requires l.Survivors() == x + y + z && forall n | n in y :: n <= mark
    ensures var after := l.Discard(|x|, |x| + |y|);
      forall n | 1 <= n <= l.Length() && after.FateOf(n) != l.FateOf(n) :: n <= mark && after.FateOf(n) == Discarded
  {
    var after := l.Discard(|x|, |x| + |y|);
    DiscardMiddle(l, x, y, z);
    DiscardTouchesOnlyQueued(l, |x|, |x| + |y|);
    SurvivorsAreTheQueued(l);
    SurvivorsAreTheQueued(after);
    forall n | 1 <= n <= l.Length() && n > mark ensures after.FateOf(n) == l.FateOf(n) {
      if l.FateOf(n) == Queued {
        assert n in x + y + z && n !in y;
        MiddleIsBounded(x, y, z, n);
      }
    }
  }

  /** However late it finishes, a discard throws away no record queued after the request it obeys was
      raised, even when the session has recovered and queued more in the meantime. */
  lemma DiscardStaysInItsEpisode(cfg: Config, steps: seq<Step>, s: Session)
    requires Reaches(cfg, Init(), steps, s) && s.flow.reader.Discarding?
    ensures s.flow.reader.held <= |s.flow.pipe|
    ensures var l, after := s.books.ledger, BooksAfterDrop(s.books, s.flow).ledger;
      && after.Length() == l.Length()
      && forall n | 1 <= n <= l.Length() && after.FateOf(n) != l.FateOf(n) ::
           n <= s.flow.reader.mark && after.FateOf(n) == Discarded
  {
    InvReachable(cfg, steps, s);
    EpisodeOfDiscard(s.books, s.flow);
  }

  lemma EpisodeOfDiscard(b: Books, f: Flow)
    requires Accounts(b, f.Stream()) && f.reader.Discarding? && f.reader.held <= |f.pipe|
    requires NumberedUpTo(f.pipe[..f.reader.held], f.reader.mark)
    ensures var after := BooksAfterDrop(b, f).ledger;
      forall n | 1 <= n <= b.ledger.Length() && after.FateOf(n) != b.ledger.FateOf(n) ::
        n <= f.reader.mark && after.FateOf(n) == Discarded
  {
    var held, rest := f.pipe[..f.reader.held], f.pipe[f.reader.held..];
    DropStream(f);
    ThreeRuns(f.delivered, held, rest);
    NumbersUpTo(held, f.reader.mark);
    OnlyTheMiddleChanges(b.ledger, Numbers(f.delivered), Numbers(held), Numbers(rest), f.reader.mark);
  }

  // ---- heartbeats ----

  ghost predicate QueuedUpTo(b: Books) {
    forall n | n in b.ledger.Survivors() :: n <= b.lastQueued
  }

  lemma DropKeepsBound(b: Books, f: Flow)
    requires f.reader.Discarding? && f.reader.held <= |f.pipe| && QueuedUpTo(b)
    ensures QueuedUpTo(BooksAfterDrop(b, f))
  {
    var from := |Numbers(f.delivered)|;
    var to := from + |Numbers(f.pipe[..f.reader.held])|;
    DiscardRemovesSurvivors(b.ledger, from, to);
    var all := b.ledger.Survivors();
    forall n | n in all[..Clip(from, |all|)] + all[Clip(to, |all|)..] ensures n <= b.lastQueued {
      assert n in all;
    }
  }

  lemma PublisherKeepsBound(cfg: Config, s: Session, step: PublisherStep)
    requires PublisherMay(s, step) && QueuedUpTo(s.books) && s.books.lastQueued < s.books.nextSequence
    requires s.books.nextSequence == s.books.ledger.Length() + 1
    ensures QueuedUpTo(ApplyPublisher(cfg, s, step).books)
  {
    var l := s.books.ledger;
    match step
    case Burn(count) => AssignSurvivors(l, Skipped, count);
    case SkipGated(count) => AssignSurvivors(l, Skipped, count);
    case Publish(batch) => AssignSurvivors(l, Queued, |batch|);
    case PublishFault(batch) => AssignSurvivors(l, Voided, |batch|);
    case _ =>
  }

  lemma SurvivorsStep(cfg: Config, s: Session, step: Step)
    requires Inv(cfg, s) && Enabled(cfg, s, step) && QueuedUpTo(s.books)
    ensures QueuedUpTo(Apply(cfg, s, step).books)
  {
    match step
    case ByPublisher(p) => PublisherKeepsBound(cfg, s, p);
    case ByReader(r) => {
      if r.FinishDiscard? {
        DropKeepsBound(s.books, s.flow);
      }
    }
    case _ =>
  }

  lemma {:induction false} QueuedUpToAlongRun(cfg: Config, s: Session, steps: seq<Step>, t: Session)
    requires Inv(cfg, s) && Reaches(cfg, s, steps, t) && QueuedUpTo(s.books)
    ensures QueuedUpTo(t.books)
    decreases |steps|
  {
    if steps != [] {
      SurvivorsStep(cfg, s, steps[0]);
      InvKept(cfg, s, steps[0]);
      QueuedUpToAlongRun(cfg, Apply(cfg, s, steps[0]), steps[1..], t);
    }
  }

  function LastOf(numbers: seq<nat>): nat {
    if numbers == [] then 0 else numbers[|numbers| - 1]
  }

  lemma LastOfSplit(l: Ledger, sent: seq<nat>, waiting: seq<nat>, last: nat)
    requires l.Survivors() == sent + waiting && forall n | n in l.Survivors() :: n <= last
    requires last <= l.Length()
    ensures LastOf(sent) == last <==> waiting == [] && (last == 0 || l.FateOf(last) == Queued)
  {
    SurvivorsAreTheQueued(l);
    var all := sent + waiting;
    assert forall i | 0 <= i < |all| :: all[i] in l.Survivors();
    if waiting != [] {
      assert all[|sent|] == waiting[0];
      if sent != [] {
        assert all[|sent| - 1] < all[|sent|];
      }
    } else {
      assert all == sent;
      if last != 0 && l.FateOf(last) == Queued {
        assert last in l.Survivors();
        var i :| 0 <= i < |sent| && sent[i] == last;
        assert i == |sent| - 1;
      }
    }
  }

  lemma HeartbeatFacts(cfg: Config, s: Session)
    requires Inv(cfg, s) && QueuedUpTo(s.books)
    ensures s.books.lastQueued <= s.books.ledger.Length()
    ensures LastOf(Numbers(s.flow.delivered)) <= s.books.lastQueued
    ensures LastOf(Numbers(s.flow.delivered)) == s.books.lastQueued <==>
      Numbers(s.flow.Unsent()) == [] && (s.books.lastQueued == 0 || s.books.ledger.FateOf(s.books.lastQueued) == Queued)
  {
    var sent, waiting := Numbers(s.flow.delivered), Numbers(s.flow.Unsent());
    NumbersConcat(s.flow.delivered, s.flow.Unsent());
    LastOfSplit(s.books.ledger, sent, waiting, s.books.lastQueued);
    if sent != [] {
      assert (sent + waiting)[|sent| - 1] in s.books.ledger.Survivors();
    }
  }

  lemma QueuedUpToReachable(cfg: Config, s: Session, steps: seq<Step>, t: Session)
    requires Inv(cfg, s) && QueuedUpTo(s.books) && Reaches(cfg, s, steps, t)
    ensures Inv(cfg, t) && QueuedUpTo(t.books)
  {
    InvAlongRun(cfg, s, steps, t);
    QueuedUpToAlongRun(cfg, s, steps, t);
  }

  lemma InitiallyQueuedUpTo(cfg: Config)
    ensures Inv(cfg, Init()) && QueuedUpTo(Init().books)
  {
    InvInitially(cfg);
  }

  lemma SentUpToFrom(cfg: Config, s: Session)
    requires Inv(cfg, s) && QueuedUpTo(s.books)
    ensures forall n | n in Numbers(s.flow.delivered) :: n <= s.books.lastQueued
  {
    NumbersConcat(s.flow.delivered, s.flow.Unsent());
    assert forall n | n in Numbers(s.flow.delivered) :: n in s.books.ledger.Survivors();
  }

  /** Nothing is ever sent under a number above the last one queued. */
  lemma SentUpTo(cfg: Config, steps: seq<Step>, s: Session)
    requires Reaches(cfg, Init(), steps, s)
    ensures forall n | n in Numbers(s.flow.delivered) :: n <= s.books.lastQueued
  {
    InitiallyQueuedUpTo(cfg);
    QueuedUpToReachable(cfg, Init(), steps, s);
    SentUpToFrom(cfg, s);
  }

  /** A heartbeat's number is the last tick sent exactly when nothing is waiting in the pipe and that tick was
      not discarded. */
  lemma HeartbeatIsLastSentExactlyWhen(cfg: Config, steps: seq<Step>, s: Session)
    requires Reaches(cfg, Init(), steps, s)
    ensures s.books.lastQueued <= s.books.ledger.Length()
    ensures LastOf(Numbers(s.flow.delivered)) <= s.books.lastQueued
    ensures LastOf(Numbers(s.flow.delivered)) == s.books.lastQueued <==>
      Numbers(s.flow.Unsent()) == [] && (s.books.lastQueued == 0 || s.books.ledger.FateOf(s.books.lastQueued) == Queued)
  {
    InitiallyQueuedUpTo(cfg);
    QueuedUpToReachable(cfg, Init(), steps, s);
    HeartbeatFacts(cfg, s);
  }

  /** Everything up to `last` was handed to the socket. */
  ghost predicate LeftTheProcess(sent: seq<nat>, last: nat) {
    forall n | 1 <= n <= last :: n in sent
  }

  ghost predicate NoneLost(l: Ledger, last: nat)
    requires last <= l.Length()
  {
    forall n | 1 <= n <= last :: l.FateOf(n) == Queued
  }

  lemma WaitingIsNotSent(sent: seq<nat>, waiting: seq<nat>)
    requires Increasing(sent + waiting) && waiting != []
    ensures (sent + waiting)[|sent|] !in sent
  {
    var all := sent + waiting;
    assert forall i | 0 <= i < |sent| :: sent[i] == all[i] && all[i] < all[|sent|];
  }

  lemma VouchesSplit(l: Ledger, sent: seq<nat>, waiting: seq<nat>, last: nat)
    requires l.Survivors() == sent + waiting && last <= l.Length()
    requires forall n | n in l.Survivors() :: n <= last
    ensures LeftTheProcess(sent, last) <==> waiting == [] && NoneLost(l, last)
  {
    SurvivorsAreTheQueued(l);
    var all := sent + waiting;
    if LeftTheProcess(sent, last) {
      forall n | 1 <= n <= last ensures l.FateOf(n) == Queued {
        assert n in all;
      }
      if waiting != [] {
        assert all[|sent|] in l.Survivors();
        WaitingIsNotSent(sent, waiting);
      }
    }
    if waiting == [] && NoneLost(l, last) {
      assert all == sent;
      assert forall n | 1 <= n <= last :: n in l.Survivors();
    }
  }

  /** It is the count of what was sent, too, that says so. */
  lemma VouchesByCount(l: Ledger, sent: seq<nat>, waiting: seq<nat>, last: nat)
    requires l.Survivors() == sent + waiting && last <= l.Length()
    requires forall n | n in l.Survivors() :: n <= last
    ensures LeftTheProcess(sent, last) <==> |sent| == last
  {
    SurvivorsAreTheQueued(l);
    VouchesSplit(l, sent, waiting, last);
    var all := sent + waiting;
    if LeftTheProcess(sent, last) {
      assert sent == all;
      assert NoneLostBelow(l);
      ContiguousMeansNoneLost(l);
      if last > 0 {
        assert last in sent;
      }
      FullLength(sent, last);
    }
    if |sent| == last {
      forall i | 0 <= i < |sent| ensures 1 <= sent[i] <= last {
        assert all[i] in l.Survivors();
      }
      forall i, j | 0 <= i < j < |sent| ensures sent[i] < sent[j] {
        assert all[i] < all[j];
      }
      forall n | 1 <= n <= last ensures n in sent {
        Crowded(sent, last, n - 1);
      }
    }
  }

  lemma FullLength(sent: seq<nat>, last: nat)
    requires Contiguous(sent) && (last > 0 ==> last in sent) && forall n | n in sent :: n <= last
    ensures |sent| == last
  {
    if sent != [] {
      assert sent[|sent| - 1] in sent;
    }
  }

  /** `last` rising numbers from 1 to `last` are all of them. */
  lemma {:induction false} Crowded(sent: seq<nat>, last: nat, i: nat)
    requires |sent| == last && i < last && Increasing(sent)
    requires forall k | 0 <= k < |sent| :: 1 <= sent[k] <= last
    ensures sent[i] == i + 1
  {
    RisesAtLeast(sent, 0, i);
    RisesAtLeast(sent, i, last - 1);
  }

  lemma {:induction false} RisesAtLeast(s: seq<nat>, i: nat, j: nat)
    requires Increasing(s) && i <= j < |s|
    ensures s[j] - s[i] >= j - i
    decreases j - i
  {
    if i < j {
      RisesAtLeast(s, i, j - 1);
    }
  }

  lemma VouchesIn(cfg: Config, s: Session)
    requires Inv(cfg, s) && QueuedUpTo(s.books)
    ensures s.books.lastQueued <= s.books.ledger.Length()
    ensures LeftTheProcess(Numbers(s.flow.delivered), s.books.lastQueued)
      <==> Numbers(s.flow.Unsent()) == [] && NoneLost(s.books.ledger, s.books.lastQueued)
    ensures LeftTheProcess(Numbers(s.flow.delivered), s.books.lastQueued)
      <==> |Numbers(s.flow.delivered)| == s.books.lastQueued
  {
    NumbersConcat(s.flow.delivered, s.flow.Unsent());
    VouchesSplit(s.books.ledger, Numbers(s.flow.delivered), Numbers(s.flow.Unsent()), s.books.lastQueued);
    VouchesByCount(s.books.ledger, Numbers(s.flow.delivered), Numbers(s.flow.Unsent()), s.books.lastQueued);
  }

  /** What a heartbeat is documented to say, that everything up to its number left the process, is so exactly when
      nothing numbered is waiting and nothing up to it was skipped, discarded or voided; and that is exactly when
      as many ticks were sent as the number says. */
  lemma HeartbeatVouchesExactlyWhen(cfg: Config, steps: seq<Step>, s: Session)
    requires Reaches(cfg, Init(), steps, s)
    ensures s.books.lastQueued <= s.books.ledger.Length()
    ensures LeftTheProcess(Numbers(s.flow.delivered), s.books.lastQueued)
      <==> Numbers(s.flow.Unsent()) == [] && NoneLost(s.books.ledger, s.books.lastQueued)
    ensures LeftTheProcess(Numbers(s.flow.delivered), s.books.lastQueued)
      <==> |Numbers(s.flow.delivered)| == s.books.lastQueued
  {
    InitiallyQueuedUpTo(cfg);
    QueuedUpToReachable(cfg, Init(), steps, s);
    VouchesIn(cfg, s);
  }

  // ---- the backlog ----

  /** While the session may still be written to, the pipe is below its threshold. */
  ghost predicate Bounded(cfg: Config, s: Session, largest: nat) {
    && ByteLength(s.flow.pipe) < cfg.bufferBytes + largest * TICK_FRAME_SIZE
    && (s.gate.phase == Running ==> ByteLength(s.flow.pipe) < cfg.bufferBytes)
    && (s.gate.handler in {Resumed, Cleared, Recovering} ==> ByteLength(s.flow.pipe) < cfg.ResumeBytes())
  }

  lemma SuffixIsShorter(items: seq<Item>, k: nat)
    requires k <= |items|
    ensures ByteLength(items[k..]) <= ByteLength(items)
  {
    BytesConcat(items[..k], items[k..]);
    assert items == items[..k] + items[k..];
  }

  lemma BoundedAfterWrite(cfg: Config, s: Session, batch: seq<FeedRecord>, largest: nat)
    requires Inv(cfg, s) && PublisherMay(s, Publish(batch)) && |batch| <= largest && Bounded(cfg, s, largest)
    ensures Bounded(cfg, Write(cfg, s, batch), largest)
  {
    BatchNumbers(batch, s.books.nextSequence);
    BytesConcat(s.flow.pipe, NumberBatch(batch, s.books.nextSequence));
    assert |batch| * TICK_FRAME_SIZE <= largest * TICK_FRAME_SIZE;
  }

  lemma PublisherBounded(cfg: Config, s: Session, step: PublisherStep, largest: nat)
    requires cfg.Valid() && Inv(cfg, s) && PublisherMay(s, step) && Bounded(cfg, s, largest)
    requires step.Publish? ==> |step.batch| <= largest
    ensures Bounded(cfg, ApplyPublisher(cfg, s, step), largest)
  {
    match step
    case Start => assert s.flow.pipe + [Opening] == [Opening];
    case Publish(batch) => BoundedAfterWrite(cfg, s, batch, largest);
    case _ =>
  }

  lemma ReaderShrinksPipe(s: Session, step: ReaderStep)
    requires s.flow.Ranges() && ReaderMay(s, step)
    ensures ByteLength(ApplyReader(s, step).flow.pipe) <= ByteLength(s.flow.pipe)
  {
    match step
    case FinishSend => SuffixIsShorter(s.flow.pipe, s.flow.reader.held);
    case FinishDiscard => SuffixIsShorter(s.flow.pipe, s.flow.reader.held);
    case Finish => {
      if s.flow.reader.Sending? {
        SuffixIsShorter(s.flow.pipe, s.flow.reader.sent);
      }
    }
    case _ =>
  }

  lemma BoundedStep(cfg: Config, s: Session, step: Step, largest: nat)
    requires cfg.Valid() && Inv(cfg, s) && Enabled(cfg, s, step) && Bounded(cfg, s, largest)
    requires step.ByPublisher? && step.p.Publish? ==> |step.p.batch| <= largest
    ensures Bounded(cfg, Apply(cfg, s, step), largest)
  {
    match step
    case ByPublisher(p) => PublisherBounded(cfg, s, p, largest);
    case ByReader(r) => ReaderShrinksPipe(s, r);
    case _ =>
  }

  /** No batch offered is larger. */
  predicate NoLarger(steps: seq<Step>, largest: nat) {
    forall i | 0 <= i < |steps| && steps[i].ByPublisher? && steps[i].p.Publish? :: |steps[i].p.batch| <= largest
  }

  /** A consumer that never reads makes the exchange hold less than one batch over the configured buffer,
      and a session goes back to running only with its pipe drained below half of it. */
  lemma {:induction false} BacklogIsBounded(cfg: Config, s: Session, steps: seq<Step>, t: Session, largest: nat)
    requires cfg.Valid() && Inv(cfg, s) && Reaches(cfg, s, steps, t) && Bounded(cfg, s, largest)
    requires NoLarger(steps, largest)
    ensures Bounded(cfg, t, largest)
    decreases |steps|
  {
    if steps != [] {
      BoundedStep(cfg, s, steps[0], largest);
      InvKept(cfg, s, steps[0]);
      BacklogIsBounded(cfg, Apply(cfg, s, steps[0]), steps[1..], t, largest);
    }
  }

  lemma InitiallyBounded(cfg: Config, largest: nat)
    requires cfg.Valid()
    ensures Bounded(cfg, Init(), largest)
  {
  }

  lemma BacklogFrom(cfg: Config, s: Session, steps: seq<Step>, t: Session, largest: nat)
    requires cfg.Valid() && Inv(cfg, s) && Reaches(cfg, s, steps, t) && Bounded(cfg, s, largest)
    requires NoLarger(steps, largest)
    ensures ByteLength(t.flow.pipe) < cfg.bufferBytes + largest * TICK_FRAME_SIZE
    ensures t.gate.phase == Running ==> ByteLength(t.flow.pipe) < cfg.bufferBytes
  {
    BacklogIsBounded(cfg, s, steps, t, largest);
  }

  /** So it is from a new session on, whatever the publishers, the reader and the handler do. */
  lemma BacklogStaysBounded(cfg: Config, steps: seq<Step>, s: Session, largest: nat)
    requires cfg.Valid() && Reaches(cfg, Init(), steps, s)
    requires NoLarger(steps, largest)
    ensures ByteLength(s.flow.pipe) < cfg.bufferBytes + largest * TICK_FRAME_SIZE
    ensures s.gate.phase == Running ==> ByteLength(s.flow.pipe) < cfg.bufferBytes
  {
    InvInitially(cfg);
    InitiallyBounded(cfg, largest);
    BacklogFrom(cfg, Init(), steps, s, largest);
  }

  ghost predicate DrainedToResume(cfg: Config, s: Session) {
    s.gate.handler in {Resumed, Cleared, Recovering} ==> 2 * ByteLength(s.flow.pipe) < cfg.bufferBytes
  }

  lemma ResumedFrom(cfg: Config, s: Session, steps: seq<Step>, t: Session, largest: nat)
    requires cfg.Valid() && Inv(cfg, s) && Reaches(cfg, s, steps, t) && Bounded(cfg, s, largest)
    requires NoLarger(steps, largest)
    ensures DrainedToResume(cfg, t)
  {
    BacklogIsBounded(cfg, s, steps, t, largest);
  }

  /** A session goes back to running only with its pipe drained below half of its buffer. */
  lemma ResumesBelowHalf(cfg: Config, steps: seq<Step>, s: Session, largest: nat)
    requires cfg.Valid() && Reaches(cfg, Init(), steps, s) && NoLarger(steps, largest)
    ensures DrainedToResume(cfg, s)
  {
    InvInitially(cfg);
    InitiallyBounded(cfg, largest);
    ResumedFrom(cfg, Init(), steps, s, largest);
  }
}

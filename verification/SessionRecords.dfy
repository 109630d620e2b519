/** What a consumer gets under a number: the record that was offered there, unchanged. */
module SessionRecords {
  import opened FeedRecords
  import opened SessionProtocol
  import opened SessionInvariants
  import opened SessionTheorems

  /** Somewhere in the run a batch is accepted in which `record` gets the number `n`. */
  ghost predicate OfferedAs(cfg: Config, s: Session, steps: seq<Step>, n: nat, record: FeedRecord)
    decreases |steps|
  {
    steps != [] && Enabled(cfg, s, steps[0])
    && ((IsPublish(steps[0]) && GetsNumber(steps[0].p.batch, s.books.nextSequence, n, record))
        || OfferedAs(cfg, Apply(cfg, s, steps[0]), steps[1..], n, record))
  }

  /** Counting on from `first`, the record numbered `n`. */
  predicate GetsNumber(batch: seq<FeedRecord>, first: nat, n: nat, record: FeedRecord) {
    first <= n < first + |batch| && batch[n - first] == record
  }

  lemma StreamStep(cfg: Config, s: Session, step: Step, item: Item)
    requires s.flow.Ranges() && Enabled(cfg, s, step)
    requires item.Numbered? && item in Apply(cfg, s, step).flow.Stream()
    ensures item in s.flow.Stream()
         || (IsPublish(step) && GetsNumber(step.p.batch, s.books.nextSequence, item.number, item.record))
  {
    match step
    case ByPublisher(p) => PublisherStream(cfg, s, p, item);
    case ByReader(r) => ReaderStream(s, r, item);
    case _ =>
  }

  lemma PublisherStream(cfg: Config, s: Session, step: PublisherStep, item: Item)
    requires s.flow.Ranges() && PublisherMay(s, step)
    requires item.Numbered? && item in ApplyPublisher(cfg, s, step).flow.Stream()
    ensures item in s.flow.Stream()
         || (step.Publish? && GetsNumber(step.batch, s.books.nextSequence, item.number, item.record))
  {
    match step
    case Start => QueuedStream(s.flow, [Opening], item);
    case Publish(batch) => QueuedStream(s.flow, NumberBatch(batch, s.books.nextSequence), item);
    case _ =>
  }

  lemma QueuedStream(f: Flow, items: seq<Item>, item: Item)
    requires f.Ranges() && item in f.Queue(items).Stream()
    ensures item in f.Stream() || item in items
  {
    assert f.Queue(items).Stream() == f.Stream() + items;
  }

  lemma ReaderStream(s: Session, step: ReaderStep, item: Item)
    requires s.flow.Ranges() && ReaderMay(s, step)
    requires item.Numbered? && item in ApplyReader(s, step).flow.Stream()
    ensures item in s.flow.Stream()
  {
    match step
    case _ =>
  }

  lemma {:induction false} StreamIsOffered(cfg: Config, s: Session, steps: seq<Step>, t: Session, item: Item)
    requires s.flow.Ranges() && Reaches(cfg, s, steps, t) && item.Numbered? && item in t.flow.Stream()
    ensures item in s.flow.Stream() || OfferedAs(cfg, s, steps, item.number, item.record)
    decreases |steps|
  {
    if steps != [] {
      RangesStep(cfg, s, steps[0]);
      StreamIsOffered(cfg, Apply(cfg, s, steps[0]), steps[1..], t, item);
      if item in Apply(cfg, s, steps[0]).flow.Stream() {
        StreamStep(cfg, s, steps[0], item);
      }
    }
  }

  lemma InitiallyNoStream()
    ensures Init().flow.Ranges() && Init().flow.Stream() == []
  {
  }

  /** Whatever is delivered or still to be sent under a number is the record some accepted batch put there. */
  lemma RecordsAreThoseOffered(cfg: Config, steps: seq<Step>, s: Session, item: Item)
    requires Reaches(cfg, Init(), steps, s) && item.Numbered? && item in s.flow.Stream()
    ensures OfferedAs(cfg, Init(), steps, item.number, item.record)
  {
    InitiallyNoStream();
    StreamIsOffered(cfg, Init(), steps, s, item);
  }
}

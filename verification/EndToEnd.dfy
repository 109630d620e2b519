/** Session, wire and probe together: what a consumer's gap counter says about what the exchange lost. */
module EndToEnd {
  import opened Bytes
  import opened FeedRecords
  import opened FeedFrameWriter
  import opened FeedFrameReader
  import opened FrameStream
  import opened SequenceLedger
  import opened SessionProtocol
  import opened SessionInvariants
  import opened SessionOpening
  import opened SessionRecords
  import opened SessionSchedules
  import opened SessionTheorems
  import opened SessionGuarantees
  import opened ProbeSession

  /** What the session's items are encoded with: its identity, and the clock read by each heartbeat. */
  datatype Wire = Wire(id: Guid, heartbeatMs: uint32, startNanos: int64, beatNanos: nat -> int64)

  predicate Sendable(item: Item) {
    match item
    case Opening => true
    case Numbered(n, r) => n < TWO_64 && IsTickType(r.messageType) && WellPadded(r.symbol.WireBytes())
    case Beat(n) => n < TWO_64
  }

  predicate AllSendable(items: seq<Item>) {
    forall i | 0 <= i < |items| :: Sendable(items[i])
  }

  function ToFrame(w: Wire, item: Item, position: nat): (f: Frame)
    requires w.id.Valid() && Sendable(item)
    ensures f.Valid()
  {
    match item
    case Opening => SessionStart(w.id, w.heartbeatMs, w.startNanos)
    case Numbered(n, r) => Tick(r.(sequenceNumber := n))
    case Beat(n) => Heartbeat(n, w.beatNanos(position))
  }

  function FramesOf(w: Wire, items: seq<Item>, from: nat): (frames: seq<Frame>)
    requires w.id.Valid() && AllSendable(items)
    ensures |frames| == |items| && AllValid(frames)
    ensures forall i | 0 <= i < |items| :: frames[i] == ToFrame(w, items[i], from + i)
  {
    seq(|items|, i requires 0 <= i < |items| => ToFrame(w, items[i], from + i))
  }

  // ---- the probe's arithmetic on an ordered stream ----

  /** A tally in which every number up to the last one seen was either received or counted lost. */
  ghost predicate Balanced(t: Tally) {
    && t.violations == []
    && t.recordsLost + t.eventsReceived == t.lastTickSequence
    && (t.gaps == [] <==> t.recordsLost == 0)
  }

  lemma SeeNextNumber(t: Tally, n: uint64)
    requires Balanced(t) && t.lastTickSequence < n
    ensures Balanced(SeeNumber(t.(eventsReceived := t.eventsReceived + 1), n))
    ensures SeeNumber(t.(eventsReceived := t.eventsReceived + 1), n).lastTickSequence == n
    ensures SeeNumber(t.(eventsReceived := t.eventsReceived + 1), n).eventsReceived == t.eventsReceived + 1
  {
  }

  lemma DispatchTick(t: Tally, raw: RawFrame, r: FeedRecord)
    requires IsTickType(raw.messageType) && ReadTick(raw.payload) == Ok(r)
    ensures SeeFrame(t, raw) == Progress(SeeTick(t.(totalBytes := t.totalBytes + TICK_FRAME_SIZE), r), false)
  {
  }

  lemma SeeRecord(t: Tally, raw: RawFrame, r: FeedRecord)
    requires IsTickType(raw.messageType) && ReadTick(raw.payload) == Ok(r)
    requires Balanced(t) && t.lastTickSequence < r.sequenceNumber
    ensures var p := SeeFrame(t, raw);
      && !p.failed && Balanced(p.tally)
      && p.tally.eventsReceived == t.eventsReceived + 1 && p.tally.lastTickSequence == r.sequenceNumber
  {
    DispatchTick(t, raw, r);
    SeeNextNumber(t.(totalBytes := t.totalBytes + TICK_FRAME_SIZE), r.sequenceNumber);
  }

  lemma SeeTickItem(w: Wire, item: Item, position: nat, t: Tally)
    requires w.id.Valid() && Sendable(item) && item.Numbered? && Balanced(t) && t.lastTickSequence < item.number
    ensures var p := SeeFrame(t, RawOf(ToFrame(w, item, position)));
      && !p.failed && Balanced(p.tally)
      && p.tally.eventsReceived == t.eventsReceived + 1 && p.tally.lastTickSequence == item.number
  {
    var r := item.record.(sequenceNumber := item.number);
    DecodeEncodedTick(r);
    SeeRecord(t, RawOf(ToFrame(w, item, position)), r);
  }

  lemma SeeBeatItem(w: Wire, item: Item, position: nat, t: Tally)
    requires w.id.Valid() && Sendable(item) && item.Beat? && Balanced(t)
    ensures var p := SeeFrame(t, RawOf(ToFrame(w, item, position)));
      && !p.failed && Balanced(p.tally)
      && p.tally.eventsReceived == t.eventsReceived && p.tally.lastTickSequence == t.lastTickSequence
  {
    DecodeHeartbeat(item.number, w.beatNanos(position));
  }

  /** The numbers in `items` rise, starting above `last`. */
  predicate Rising(last: nat, items: seq<Item>)
    decreases |items|
  {
    items == []
    || (if items[0].Numbered? then last < items[0].number && Rising(items[0].number, items[1..])
        else Rising(last, items[1..]))
  }

  function LastNumber(last: nat, items: seq<Item>): nat
    decreases |items|
  {
    if items == [] then last
    else LastNumber(if items[0].Numbered? then items[0].number else last, items[1..])
  }

  lemma {:induction false} RisingNumbers(last: nat, items: seq<Item>)
    requires Increasing(Numbers(items)) && (Numbers(items) != [] ==> last < Numbers(items)[0])
    ensures Rising(last, items)
    ensures LastNumber(last, items) == if Numbers(items) == [] then last else LastOf(Numbers(items))
    decreases |items|
  {
    if items != [] {
      var tail := Numbers(items[1..]);
      if items[0].Numbered? {
        assert Numbers(items)[0] == items[0].number && Numbers(items)[1..] == tail;
        RisingNumbers(items[0].number, items[1..]);
      } else {
        assert Numbers(items) == tail;
        RisingNumbers(last, items[1..]);
      }
    }
  }

  ghost predicate Carries(w: Wire, raws: seq<RawFrame>, items: seq<Item>, from: nat)
    requires w.id.Valid() && AllSendable(items)
  {
    |raws| == |items| && forall i | 0 <= i < |items| :: raws[i] == RawOf(ToFrame(w, items[i], from + i))
  }

  lemma {:induction false} SeeItems(w: Wire, raws: seq<RawFrame>, items: seq<Item>, from: nat, t: Tally)
    requires w.id.Valid() && AllSendable(items) && Carries(w, raws, items, from)
    requires Openings(items) == 0 && Balanced(t) && Rising(t.lastTickSequence, items)
    ensures var p := SeeAll(t, raws);
      && !p.failed && Balanced(p.tally)
      && p.tally.eventsReceived == t.eventsReceived + |Numbers(items)|
      && p.tally.lastTickSequence == LastNumber(t.lastTickSequence, items)
    decreases |items|
  {
    if items != [] {
      if items[0].Numbered? {
        SeeTickItem(w, items[0], from, t);
      } else {
        SeeBeatItem(w, items[0], from, t);
      }
      var p := SeeFrame(t, raws[0]);
      CarriesTail(w, raws, items, from);
      SeeItems(w, raws[1..], items[1..], from + 1, p.tally);
    }
  }

  /** The probe saw exactly these numbers, in order, and nothing amiss. */
  ghost predicate ProbeSaw(report: Report, received: seq<nat>) {
    && report.Ran? && !report.framingError && Balanced(report.tally)
    && report.tally.eventsReceived == |received|
    && report.tally.lastTickSequence == LastOf(received)
  }

  lemma JudgeOpened(w: Wire, raws: seq<RawFrame>)
    requires w.id.Valid() && raws != [] && raws[0] == RawOf(ToFrame(w, Opening, 0))
    ensures Judge(raws, false) == RanOver(raws[1..])
  {
    DecodeSessionStart(w.id, w.heartbeatMs, w.startNanos);
  }

  /** The report on frames that follow a good session start. */
  function RanOver(raws: seq<RawFrame>): Report {
    var p := SeeAll(NOTHING_SEEN, raws);
    Ran(p.tally, p.failed)
  }

  lemma CarriesTail(w: Wire, raws: seq<RawFrame>, items: seq<Item>, from: nat)
    requires w.id.Valid() && AllSendable(items) && Carries(w, raws, items, from) && items != []
    ensures AllSendable(items[1..]) && Carries(w, raws[1..], items[1..], from + 1)
  {
  }

  lemma OpeningCarried(w: Wire, raws: seq<RawFrame>, items: seq<Item>)
    requires w.id.Valid() && AllSendable(items) && Carries(w, raws, items, 0) && StartsOpen(items)
    ensures raws != [] && raws[0] == RawOf(ToFrame(w, Opening, 0))
  {
  }

  lemma OpeningAside(items: seq<Item>)
    requires StartsOpen(items) && Openings(items) == 1
    ensures Numbers(items) == Numbers(items[1..]) && Openings(items[1..]) == 0
  {
  }

  lemma SeeRest(w: Wire, raws: seq<RawFrame>, items: seq<Item>)
    requires w.id.Valid() && AllSendable(items) && Carries(w, raws, items, 1) && Openings(items) == 0
    requires Increasing(Numbers(items)) && (Numbers(items) != [] ==> 0 < Numbers(items)[0])
    ensures ProbeSaw(RanOver(raws), Numbers(items))
  {
    RisingNumbers(0, items);
    SeeItems(w, raws, items, 1, NOTHING_SEEN);
  }

  /** Frames behind a session start: the session runs, and the tally balances. */
  lemma JudgeItems(w: Wire, raws: seq<RawFrame>, items: seq<Item>)
    requires w.id.Valid() && AllSendable(items) && Carries(w, raws, items, 0)
    requires StartsOpen(items) && Openings(items) == 1
    requires Increasing(Numbers(items)) && (Numbers(items) != [] ==> 0 < Numbers(items)[0])
    ensures ProbeSaw(RanOver(raws[1..]), Numbers(items))
  {
    OpeningAside(items);
    CarriesTail(w, raws, items, 0);
    SeeRest(w, raws[1..], items[1..]);
  }

  lemma PrefixOfItems(items: seq<Item>, n: nat)
    requires 0 < n <= |items| && StartsOpen(items) && Openings(items) == 1 && Increasing(Numbers(items))
    ensures StartsOpen(items[..n]) && Openings(items[..n]) == 1
    ensures Numbers(items[..n]) <= Numbers(items) && Increasing(Numbers(items[..n]))
  {
    var got := items[..n];
    assert items == got + items[n..];
    NumbersConcat(got, items[n..]);
    OpeningsConcat(got, items[n..]);
    assert got[0] == items[0];
    assert Openings(got) >= 1;
    assert forall i | 0 <= i < |Numbers(got)| :: Numbers(got)[i] == Numbers(items)[i];
  }

  lemma DrainedFrames(w: Wire, items: seq<Item>, wire: seq<byte>)
    requires w.id.Valid() && AllSendable(items) && wire <= EncodeAll(FramesOf(w, items, 0))
    ensures var n := WholeFrames(FramesOf(w, items, 0), |wire|);
      && n <= |items| && AllSendable(items[..n])
      && !Drain(wire).failed && Carries(w, Drain(wire).frames, items[..n], 0)
  {
    DrainEncodedPrefix(FramesOf(w, items, 0), wire);
  }

  lemma JudgePrefix(w: Wire, raws: seq<RawFrame>, items: seq<Item>, n: nat)
    requires w.id.Valid() && 0 < n <= |items| && AllSendable(items[..n]) && Carries(w, raws, items[..n], 0)
    requires StartsOpen(items) && Openings(items) == 1
    requires Increasing(Numbers(items)) && (Numbers(items) != [] ==> 0 < Numbers(items)[0])
    ensures ProbeSaw(Judge(raws, false), Numbers(items[..n]))
  {
    PrefixOfItems(items, n);
    JudgeItems(w, raws, items[..n]);
    OpeningCarried(w, raws, items[..n]);
    JudgeOpened(w, raws);
  }

  /** A consumer that has been sent `items`, starting with the session start, and received the first
      `n` of them whole. */
  lemma ProbeOfItems(w: Wire, items: seq<Item>, wire: seq<byte>)
    requires w.id.Valid() && AllSendable(items) && wire <= EncodeAll(FramesOf(w, items, 0))
    requires StartsOpen(items) && Openings(items) == 1
    requires Increasing(Numbers(items)) && (Numbers(items) != [] ==> 0 < Numbers(items)[0])
    ensures var n := WholeFrames(FramesOf(w, items, 0), |wire|);
      && n <= |items| && !Drain(wire).failed
      && (n == 0 ==> Judge(Drain(wire).frames, false) == NoSession)
      && (n > 0 ==> ProbeSaw(Judge(Drain(wire).frames, false), Numbers(items[..n])))
  {
    var n := WholeFrames(FramesOf(w, items, 0), |wire|);
    DrainedFrames(w, items, wire);
    if n > 0 {
      JudgePrefix(w, Drain(wire).frames, items, n);
    }
  }

  // ---- lost is at most dropped ----

  lemma {:induction false} IncreasingSpread(s: seq<nat>, i: nat, j: nat)
    requires Increasing(s) && i <= j < |s|
    ensures s[j] - s[i] >= j - i
    decreases j - i
  {
    if i < j {
      IncreasingSpread(s, i, j - 1);
    }
  }

  /** Among the numbers up to `limit`, those missing below the `k`-th survivor are at most all those lost. */
  lemma MissingBelow(s: seq<nat>, k: nat, limit: nat)
    requires Increasing(s) && (forall n | n in s :: 1 <= n <= limit) && k <= |s|
    ensures LastOf(s[..k]) >= k
    ensures LastOf(s[..k]) - k <= limit - |s|
    ensures LastOf(s[..k]) == limit ==> LastOf(s[..k]) - k == limit - |s|
  {
    if s != [] {
      assert s[0] in s && s[|s| - 1] in s;
      IncreasingSpread(s, 0, |s| - 1);
      if k > 0 {
        IncreasingSpread(s, 0, k - 1);
        IncreasingSpread(s, k - 1, |s| - 1);
        assert s[k - 1] in s;
      }
    }
    assert s[..|s|] == s;
  }

  // ---- records the session may carry ----

  predicate Listable(batch: seq<FeedRecord>) {
    forall i | 0 <= i < |batch| :: WellPadded(batch[i].symbol.WireBytes())
  }

  predicate ListableStep(step: Step) {
    step.ByPublisher? && step.p.Publish? ==> Listable(step.p.batch)
  }

  predicate AllListable(steps: seq<Step>) {
    forall i | 0 <= i < |steps| :: ListableStep(steps[i])
  }

  predicate GoodItem(item: Item) {
    item.Numbered? ==> IsTickType(item.record.messageType) && WellPadded(item.record.symbol.WireBytes())
  }

  predicate GoodFlow(f: Flow, next: nat) {
    && (forall i | 0 <= i < |f.pipe| :: GoodItem(f.pipe[i]))
    && (forall i | 0 <= i < |f.delivered| ::
          GoodItem(f.delivered[i]) && (f.delivered[i].Beat? ==> f.delivered[i].number < next))
  }

  lemma GoodPublisherStep(cfg: Config, s: Session, step: PublisherStep)
    requires PublisherMay(s, step) && GoodFlow(s.flow, s.books.nextSequence) && ListableStep(ByPublisher(step))
    ensures var t := ApplyPublisher(cfg, s, step); GoodFlow(t.flow, t.books.nextSequence)
  {
    if step.Publish? {
      var next := s.books.nextSequence;
      GoodAfterQueue(s.flow, NumberBatch(step.batch, next), next, next + |step.batch|);
    } else if step.Start? {
      GoodAfterQueue(s.flow, [Opening], s.books.nextSequence, s.books.nextSequence);
    }
  }

  lemma GoodAfterQueue(f: Flow, items: seq<Item>, next: nat, later: nat)
    requires GoodFlow(f, next) && next <= later && forall i | 0 <= i < |items| :: GoodItem(items[i])
    ensures GoodFlow(f.Queue(items), later)
  {
  }

  lemma GoodReaderStep(s: Session, step: ReaderStep)
    requires ReaderMay(s, step) && GoodFlow(s.flow, s.books.nextSequence) && s.books.lastQueued < s.books.nextSequence
    requires PipeShape(s.flow.pipe)
    ensures var t := ApplyReader(s, step); GoodFlow(t.flow, t.books.nextSequence)
  {
  }

  lemma GoodStep(cfg: Config, s: Session, step: Step)
    requires Enabled(cfg, s, step) && GoodFlow(s.flow, s.books.nextSequence) && ListableStep(step)
    requires s.books.lastQueued < s.books.nextSequence && PipeShape(s.flow.pipe)
    ensures var t := Apply(cfg, s, step); GoodFlow(t.flow, t.books.nextSequence)
  {
    match step
    case ByPublisher(p) => GoodPublisherStep(cfg, s, p);
    case ByReader(r) => GoodReaderStep(s, r);
    case _ =>
  }

  lemma {:induction false} GoodAlongRun(cfg: Config, s: Session, steps: seq<Step>, t: Session)
    requires Inv(cfg, s) && Reaches(cfg, s, steps, t) && GoodFlow(s.flow, s.books.nextSequence)
    requires AllListable(steps)
    ensures Inv(cfg, t) && GoodFlow(t.flow, t.books.nextSequence)
    decreases |steps|
  {
    if steps != [] {
      InvKept(cfg, s, steps[0]);
      assert ListableStep(steps[0]) && AllListable(steps[1..]);
      GoodStep(cfg, s, steps[0]);
      GoodAlongRun(cfg, Apply(cfg, s, steps[0]), steps[1..], t);
    }
  }

  lemma {:induction false} ItemIsNumbered(items: seq<Item>, i: nat)
    requires i < |items| && items[i].Numbered?
    ensures items[i].number in Numbers(items)
  {
    if i > 0 {
      assert items[1..][i - 1] == items[i];
      ItemIsNumbered(items[1..], i - 1);
    }
  }

  lemma SurvivorRange(cfg: Config, s: Session)
    requires Inv(cfg, s)
    ensures var sent := Numbers(s.flow.delivered); var all := s.books.ledger.Survivors();
      && Increasing(all) && (forall n | n in all :: 1 <= n < s.books.nextSequence)
      && all == sent + Numbers(s.flow.Unsent())
      && Increasing(sent) && (sent != [] ==> 0 < sent[0])
  {
    var sent, all := Numbers(s.flow.delivered), s.books.ledger.Survivors();
    SurvivorsAreTheQueued(s.books.ledger);
    NumbersConcat(s.flow.delivered, s.flow.Unsent());
    assert forall i | 0 <= i < |sent| :: sent[i] == all[i];
    if sent != [] {
      assert all[0] in all;
    }
  }

  lemma ItemIsSendable(items: seq<Item>, unsent: seq<nat>, i: nat, next: nat)
    requires i < |items| && GoodItem(items[i]) && (items[i].Beat? ==> items[i].number < next) && next <= TWO_64
    requires forall n | n in Numbers(items) + unsent :: n < next
    ensures Sendable(items[i])
  {
    if items[i].Numbered? {
      ItemIsNumbered(items, i);
      assert items[i].number in Numbers(items) + unsent;
    }
  }

  /** Everything a session has handed to its socket fits the wire format while its numbers fit 64 bits. */
  lemma SentIsSendable(cfg: Config, s: Session)
    requires Inv(cfg, s) && GoodFlow(s.flow, s.books.nextSequence) && s.books.nextSequence <= TWO_64
    ensures AllSendable(s.flow.delivered)
  {
    SurvivorRange(cfg, s);
    forall i | 0 <= i < |s.flow.delivered| ensures Sendable(s.flow.delivered[i]) {
      ItemIsSendable(s.flow.delivered, Numbers(s.flow.Unsent()), i, s.books.nextSequence);
    }
  }

  // ---- the main result ----

  /** All the numbers of a session that its consumer will never get. */
  ghost function Lost(b: Books): nat {
    b.skipped + b.discarded + b.burning + b.ledger.Total(Voided)
  }

  /** What the probe saw, against what the session knows it lost. */
  ghost predicate LossDisclosed(report: Report, b: Books, received: seq<nat>) {
    && ProbeSaw(report, received)
    && report.tally.recordsLost <= Lost(b)
    && (LastOf(received) == b.nextSequence - 1 ==> report.tally.recordsLost == Lost(b))
  }

  lemma NumbersOfPrefix(delivered: seq<Item>, unsent: seq<Item>, n: nat)
    requires n <= |delivered|
    ensures Numbers(delivered[..n]) <= Numbers(delivered) + Numbers(unsent)
  {
    NumbersConcat(delivered[..n], delivered[n..]);
    assert delivered == delivered[..n] + delivered[n..];
  }

  /** Whatever part of the survivors has arrived, what is missing below its last number was lost. */
  lemma MissingWasLost(b: Books, all: seq<nat>, received: seq<nat>)
    requires received <= all && all == b.ledger.Survivors() && Increasing(all)
    requires forall n | n in all :: 1 <= n < b.nextSequence
    requires b.nextSequence == b.ledger.Length() + 1
    requires b.ledger.Total(Skipped) == b.skipped + b.burning && b.ledger.Total(Discarded) == b.discarded
    ensures 0 <= LastOf(received) - |received| <= Lost(b)
    ensures LastOf(received) == b.nextSequence - 1 ==> LastOf(received) - |received| == Lost(b)
  {
    assert received == all[..|received|];
    MissingBelow(all, |received|, b.nextSequence - 1);
    TotalsAddUp(b.ledger);
    SurvivorsAreTheQueued(b.ledger);
  }

  lemma LossBounded(cfg: Config, s: Session, report: Report, n: nat)
    requires Inv(cfg, s) && n <= |s.flow.delivered| && ProbeSaw(report, Numbers(s.flow.delivered[..n]))
    ensures LossDisclosed(report, s.books, Numbers(s.flow.delivered[..n]))
  {
    SurvivorRange(cfg, s);
    NumbersOfPrefix(s.flow.delivered, s.flow.Unsent(), n);
    MissingWasLost(s.books, s.books.ledger.Survivors(), Numbers(s.flow.delivered[..n]));
  }

  /** What the probe reports on a connection that brings it these bytes, in these chunks. */
  ghost function Verdict(chunks: seq<seq<byte>>): Report {
    var d := DrainChunks([], chunks);
    Judge(d.frames, d.failed)
  }

  lemma VerdictOfJoin(chunks: seq<seq<byte>>)
    ensures Verdict(chunks) == Judge(Drain(Join(chunks)).frames, Drain(Join(chunks)).failed)
  {
    ChunkingIsInvisible([], chunks);
    assert [] + Join(chunks) == Join(chunks);
  }

  /** The chunks are some first part of what was handed to the socket, cut anywhere. */
  ghost predicate Arrives(items: seq<Item>, w: Wire, chunks: seq<seq<byte>>) {
    w.id.Valid() && AllSendable(items) && Join(chunks) <= EncodeAll(FramesOf(w, items, 0))
  }

  /** How many of the items arrived whole. */
  function Whole(items: seq<Item>, w: Wire, chunks: seq<seq<byte>>): (n: nat)
    requires w.id.Valid() && AllSendable(items)
    ensures n <= |items|
  {
    WholeFrames(FramesOf(w, items, 0), |Join(chunks)|)
  }

  /** What a consumer makes of what arrives: a refused handshake when a discard took the opening frame, and otherwise
      the loss. */
  ghost predicate Disclosed(s: Session, w: Wire, chunks: seq<seq<byte>>)
    requires w.id.Valid() && AllSendable(s.flow.delivered)
  {
    var n := Whole(s.flow.delivered, w, chunks);
    && (n == 0 ==> Verdict(chunks) == NoSession)
    && (n > 0 ==>
          if s.flow.openingLost then Verdict(chunks) == BadHandshake
          else LossDisclosed(Verdict(chunks), s.books, Numbers(s.flow.delivered[..n])))
  }

  lemma NothingArrives(w: Wire, items: seq<Item>, chunks: seq<seq<byte>>)
    requires Arrives(items, w, chunks) && Whole(items, w, chunks) == 0
    ensures Verdict(chunks) == NoSession
  {
    VerdictOfJoin(chunks);
    DrainedFrames(w, items, Join(chunks));
  }

  lemma SomethingArrives(w: Wire, items: seq<Item>, chunks: seq<seq<byte>>)
    requires Arrives(items, w, chunks) && Whole(items, w, chunks) > 0
    requires StartsOpen(items) && Openings(items) == 1
    requires Increasing(Numbers(items)) && (Numbers(items) != [] ==> 0 < Numbers(items)[0])
    ensures ProbeSaw(Verdict(chunks), Numbers(items[..Whole(items, w, chunks)]))
  {
    VerdictOfJoin(chunks);
    ProbeOfItems(w, items, Join(chunks));
  }

  lemma DisclosureFrom(cfg: Config, s: Session, w: Wire, chunks: seq<seq<byte>>)
    requires Inv(cfg, s) && !s.flow.openingLost && Arrives(s.flow.delivered, w, chunks)
    ensures Disclosed(s, w, chunks)
  {
    var n := Whole(s.flow.delivered, w, chunks);
    if n == 0 {
      NothingArrives(w, s.flow.delivered, chunks);
    } else {
      SurvivorRange(cfg, s);
      OpeningOfDelivered(s);
      SomethingArrives(w, s.flow.delivered, chunks);
      LossBounded(cfg, s, Verdict(chunks), n);
    }
  }

  lemma OpeningOfDelivered(s: Session)
    requires OpeningPlaced(s.flow, s.gate.started) && s.flow.delivered != [] && !s.flow.openingLost
    ensures StartsOpen(s.flow.delivered) && Openings(s.flow.delivered) == 1
  {
    OpeningsConcat(s.flow.delivered, s.flow.Unsent());
    assert s.flow.Stream()[0] == s.flow.delivered[0];
  }

  lemma RunIsSendable(cfg: Config, s: Session, steps: seq<Step>, t: Session)
    requires Inv(cfg, s) && Reaches(cfg, s, steps, t) && GoodFlow(s.flow, s.books.nextSequence)
    requires AllListable(steps)
    requires t.books.nextSequence <= TWO_64
    ensures Inv(cfg, t) && AllSendable(t.flow.delivered)
  {
    GoodAlongRun(cfg, s, steps, t);
    SentIsSendable(cfg, t);
  }

  lemma InitiallyGood()
    ensures GoodFlow(Init().flow, Init().books.nextSequence)
  {
  }

  lemma ReachableIsSendable(cfg: Config, steps: seq<Step>, s: Session)
    requires Reaches(cfg, Init(), steps, s) && AllListable(steps)
    requires s.books.nextSequence <= TWO_64
    ensures Inv(cfg, s) && AllSendable(s.flow.delivered)
  {
    InvInitially(cfg);
    InitiallyGood();
    RunIsSendable(cfg, Init(), steps, s);
  }

  /** A stream without its opening frame, none of which the probe can accept. */
  lemma JudgeUnopened(w: Wire, items: seq<Item>, chunks: seq<seq<byte>>)
    requires Arrives(items, w, chunks) && Openings(items) == 0
    ensures Verdict(chunks) == if Whole(items, w, chunks) == 0 then NoSession else BadHandshake
  {
    VerdictOfJoin(chunks);
    DrainedFrames(w, items, Join(chunks));
    if Whole(items, w, chunks) > 0 {
      assert Drain(Join(chunks)).frames[0] == RawOf(ToFrame(w, items[0], 0));
      assert !items[0].Opening?;
    }
  }

  lemma UnopenedFrom(cfg: Config, s: Session, w: Wire, chunks: seq<seq<byte>>)
    requires Inv(cfg, s) && s.flow.openingLost && Arrives(s.flow.delivered, w, chunks)
    ensures Verdict(chunks) == if Whole(s.flow.delivered, w, chunks) == 0 then NoSession else BadHandshake
  {
    OpeningsConcat(s.flow.delivered, s.flow.Unsent());
    JudgeUnopened(w, s.flow.delivered, chunks);
  }

  /** End to end. For every run of a session and every part of its stream that reaches the consumer, in
      whatever chunks: when a discard took the opening frame, the probe refuses the connection at the first whole
      frame. Otherwise it reports no integrity violation and no framing error; what it received and what it counts
      lost add up to the last number it saw; it never counts more lost than the session lost; and when the last
      record offered arrived it counts exactly what the session lost. */
  lemma ConsumerSeesExactlyTheLoss(cfg: Config, steps: seq<Step>, s: Session, w: Wire, chunks: seq<seq<byte>>)
    requires Reaches(cfg, Init(), steps, s) && AllListable(steps)
    requires s.books.nextSequence <= TWO_64 && w.id.Valid()
    ensures AllSendable(s.flow.delivered)
    ensures Arrives(s.flow.delivered, w, chunks) ==> Disclosed(s, w, chunks)
  {
    ReachableIsSendable(cfg, steps, s);
    if Arrives(s.flow.delivered, w, chunks) {
      if s.flow.openingLost {
        UnopenedFrom(cfg, s, w, chunks);
      } else {
        DisclosureFrom(cfg, s, w, chunks);
      }
    }
  }

  lemma FrameArrives(items: seq<Item>, w: Wire, chunks: seq<seq<byte>>, i: nat)
    requires Arrives(items, w, chunks) && i < Whole(items, w, chunks)
    ensures i < |DrainChunks([], chunks).frames|
    ensures DecodeRaw(DrainChunks([], chunks).frames[i]) == Ok(ToFrame(w, items[i], i))
  {
    DrainedFrames(w, items, Join(chunks));
    ChunkingIsInvisible([], chunks);
    assert [] + Join(chunks) == Join(chunks);
    DecodeEncodedFrame(ToFrame(w, items[i], i));
  }

  /** The consumer decodes, from whatever arrives and in whatever chunks, the records that were offered: each tick frame
      it reads is the record some accepted batch put under that number, and nothing about it but the number is
      changed. */
  lemma ConsumerGetsTheRecords(cfg: Config, steps: seq<Step>, s: Session, w: Wire, chunks: seq<seq<byte>>, i: nat)
    requires Reaches(cfg, Init(), steps, s) && AllListable(steps) && s.books.nextSequence <= TWO_64
    requires Arrives(s.flow.delivered, w, chunks) && i < Whole(s.flow.delivered, w, chunks)
    requires s.flow.delivered[i].Numbered?
    ensures var item, frames := s.flow.delivered[i], DrainChunks([], chunks).frames;
      && i < |frames| && DecodeRaw(frames[i]) == Ok(Tick(item.record.(sequenceNumber := item.number)))
      && OfferedAs(cfg, Init(), steps, item.number, item.record)
  {
    FrameArrives(s.flow.delivered, w, chunks, i);
    assert s.flow.delivered[i] in s.flow.Stream();
    RecordsAreThoseOffered(cfg, steps, s, s.flow.delivered[i]);
  }

  lemma AtMostDropped(s: Session, w: Wire, chunks: seq<seq<byte>>)
    requires w.id.Valid() && AllSendable(s.flow.delivered) && Disclosed(s, w, chunks)
    requires s.books.burning == 0 && s.books.ledger.Total(Voided) == 0
    ensures var n, dropped := Whole(s.flow.delivered, w, chunks), s.books.skipped + s.books.discarded;
      && (Verdict(chunks).Ran? <==> n > 0 && !s.flow.openingLost)
      && (Verdict(chunks).Ran? ==>
            && Verdict(chunks).tally.recordsLost <= dropped
            && (LastOf(Numbers(s.flow.delivered[..n])) == s.books.nextSequence - 1 ==>
                  Verdict(chunks).tally.recordsLost == dropped))
  {
  }

  /** In the session's own counters: with no encoding fault and no skip half made, the probe never counts more lost
      than the session reports dropped, and exactly that when the last record offered arrived. */
  lemma LostAtMostDropped(cfg: Config, steps: seq<Step>, s: Session, w: Wire, chunks: seq<seq<byte>>)
    requires Reaches(cfg, Init(), steps, s) && AllListable(steps)
    requires forall i | 0 <= i < |steps| :: !(steps[i].ByPublisher? && steps[i].p.PublishFault?)
    requires s.books.nextSequence <= TWO_64 && s.books.burning == 0
    requires Arrives(s.flow.delivered, w, chunks)
    ensures var n, dropped := Whole(s.flow.delivered, w, chunks), s.books.skipped + s.books.discarded;
      && (Verdict(chunks).Ran? <==> n > 0 && !s.flow.openingLost)
      && (Verdict(chunks).Ran? ==>
            && Verdict(chunks).tally.recordsLost <= dropped
            && (LastOf(Numbers(s.flow.delivered[..n])) == s.books.nextSequence - 1 ==>
                  Verdict(chunks).tally.recordsLost == dropped))
  {
    ValidBatchesVoidNothing(cfg, steps, s);
    ConsumerSeesExactlyTheLoss(cfg, steps, s, w, chunks);
    AtMostDropped(s, w, chunks);
  }

  /** The other case: when a discard took the opening frame, the probe refuses the connection at the first whole
      frame that arrives, however the stream is cut. */
  lemma LostOpeningFailsTheHandshake(cfg: Config, steps: seq<Step>, s: Session, w: Wire, chunks: seq<seq<byte>>)
    requires Reaches(cfg, Init(), steps, s) && AllListable(steps)
    requires s.books.nextSequence <= TWO_64 && s.flow.openingLost && w.id.Valid()
    ensures AllSendable(s.flow.delivered)
    ensures Arrives(s.flow.delivered, w, chunks) ==>
      Verdict(chunks) == if Whole(s.flow.delivered, w, chunks) == 0 then NoSession else BadHandshake
  {
    ReachableIsSendable(cfg, steps, s);
    if Arrives(s.flow.delivered, w, chunks) {
      UnopenedFrom(cfg, s, w, chunks);
    }
  }

  // ---- the verdict ----

  function DetermineExitCode(sessionEstablished: bool, framingErrors: nat, violations: nat, gaps: nat,
                             expectDrops: bool, achievedRate: real, targetRate: real): nat
  {
    if !sessionEstablished then 3
    else if framingErrors > 0 || violations > 0 || (gaps > 0 && !expectDrops) then 1
    else
      var off := if achievedRate >= targetRate then achievedRate - targetRate else targetRate - achievedRate;
      var tolerance := if targetRate <= 0.0 then 0.0 else off / targetRate;
      if tolerance > 0.02 then 2 else 0
  }

  function ExitCode(report: Report, expectDrops: bool, achievedRate: real, targetRate: real): nat {
    match report
    case NoSession => DetermineExitCode(false, 0, 0, 0, expectDrops, achievedRate, targetRate)
    case BadHandshake => DetermineExitCode(true, 1, 0, 0, expectDrops, achievedRate, targetRate)
    case Ran(t, framingError) =>
      DetermineExitCode(true, if framingError then 1 else 0, |t.violations|, |t.gaps|, expectDrops, achievedRate,
                        targetRate)
  }

  /** The tape can be trusted: a session, no framing error, no violation, and no gap that was not expected. */
  ghost predicate Trustworthy(report: Report, expectDrops: bool) {
    report.Ran? && !report.framingError && report.tally.violations == [] && (report.tally.gaps == [] || expectDrops)
  }

  /** The rate is off by more than two in a hundred of a target that was set. */
  ghost predicate OffTarget(achieved: real, target: real) {
    target > 0.0 && (achieved - target > 0.02 * target || target - achieved > 0.02 * target)
  }

  lemma ToleranceIsOffTarget(off: real, target: real)
    requires target > 0.0
    ensures off / target > 0.02 <==> off > 0.02 * target
  {
    var share := off / target;
    assert share * target == off;
    if share > 0.02 {
      assert (share - 0.02) * target > 0.0;
    } else {
      assert (0.02 - share) * target >= 0.0;
    }
  }

  /** Each exit code has one meaning, for every report and every pair of rates. */
  lemma ExitCodeMeans(report: Report, expectDrops: bool, achieved: real, target: real)
    ensures var code, good := ExitCode(report, expectDrops, achieved, target), Trustworthy(report, expectDrops);
      && (code == 3 <==> report == NoSession)
      && (code == 1 <==> report != NoSession && !good)
      && (code == 2 <==> good && OffTarget(achieved, target))
      && (code == 0 <==> good && !OffTarget(achieved, target))
  {
    if target > 0.0 {
      ToleranceIsOffTarget(achieved - target, target);
      ToleranceIsOffTarget(target - achieved, target);
    }
  }

  lemma TrustworthyOf(report: Report, received: seq<nat>, expectDrops: bool)
    requires ProbeSaw(report, received)
    ensures Trustworthy(report, expectDrops) <==> LastOf(received) == |received| || expectDrops
    ensures report.tally.recordsLost == 0 <==> LastOf(received) == |received|
  {
  }

  /** For every run and everything that arrives of it, in whatever chunks: the probe exits 3 exactly when no frame
      arrived whole; otherwise 1 exactly when a discard took the opening frame, or a record below the last one
      received is missing and the operator did not expect drops; otherwise 2 exactly when the rate was off its
      target; and 0 exactly when none of these holds. */
  lemma TapeFailsExactlyOnLoss(cfg: Config, steps: seq<Step>, s: Session, w: Wire, chunks: seq<seq<byte>>,
                               expectDrops: bool, achieved: real, target: real)
    requires Reaches(cfg, Init(), steps, s) && AllListable(steps)
    requires s.books.nextSequence <= TWO_64
    requires Arrives(s.flow.delivered, w, chunks)
    ensures var n := Whole(s.flow.delivered, w, chunks);
      var received := Numbers(s.flow.delivered[..n]);
      var bad := s.flow.openingLost || (LastOf(received) != |received| && !expectDrops);
      var code := ExitCode(Verdict(chunks), expectDrops, achieved, target);
      && (code == 3 <==> n == 0)
      && (code == 1 <==> n > 0 && bad)
      && (code == 2 <==> n > 0 && !bad && OffTarget(achieved, target))
      && (code == 0 <==> n > 0 && !bad && !OffTarget(achieved, target))
  {
    ConsumerSeesExactlyTheLoss(cfg, steps, s, w, chunks);
    CodeOfDisclosed(s, w, chunks, expectDrops, achieved, target);
  }

  lemma CodeOfDisclosed(s: Session, w: Wire, chunks: seq<seq<byte>>, expectDrops: bool, achieved: real, target: real)
    requires w.id.Valid() && AllSendable(s.flow.delivered) && Disclosed(s, w, chunks)
    ensures var n := Whole(s.flow.delivered, w, chunks);
      var received := Numbers(s.flow.delivered[..n]);
      var bad := s.flow.openingLost || (LastOf(received) != |received| && !expectDrops);
      var code := ExitCode(Verdict(chunks), expectDrops, achieved, target);
      && (code == 3 <==> n == 0)
      && (code == 1 <==> n > 0 && bad)
      && (code == 2 <==> n > 0 && !bad && OffTarget(achieved, target))
      && (code == 0 <==> n > 0 && !bad && !OffTarget(achieved, target))
  {
    var n := Whole(s.flow.delivered, w, chunks);
    ExitCodeMeans(Verdict(chunks), expectDrops, achieved, target);
    if n > 0 && !s.flow.openingLost {
      TrustworthyOf(Verdict(chunks), Numbers(s.flow.delivered[..n]), expectDrops);
    }
  }

  /** What a probe may report of a tape with nothing missing: no session when nothing whole arrived, and otherwise no
      loss, with the rate alone deciding between 0 and 2. */
  ghost predicate Passes(report: Report, whole: nat, expectDrops: bool, achieved: real, target: real) {
    var code := ExitCode(report, expectDrops, achieved, target);
    && (whole == 0 <==> report == NoSession)
    && (whole == 0 ==> code == 3)
    && (whole > 0 ==>
          && report.Ran? && report.tally.recordsLost == 0
          && code == (if OffTarget(achieved, target) then 2 else 0))
  }

  lemma WholePrefixPasses(s: Session, w: Wire, chunks: seq<seq<byte>>, expectDrops: bool, achieved: real, target: real)
    requires w.id.Valid() && AllSendable(s.flow.delivered) && Disclosed(s, w, chunks)
    requires Contiguous(Numbers(s.flow.delivered)) && !s.flow.openingLost
    ensures Passes(Verdict(chunks), Whole(s.flow.delivered, w, chunks), expectDrops, achieved, target)
  {
    var n := Whole(s.flow.delivered, w, chunks);
    ExitCodeMeans(Verdict(chunks), expectDrops, achieved, target);
    if n > 0 {
      NoLossInPrefix(s.flow.delivered, n);
      TrustworthyOf(Verdict(chunks), Numbers(s.flow.delivered[..n]), expectDrops);
    }
  }

  /** Under Disconnect, with unlocked skips and none of them straddling a recovery, the probe either sees no session
      at all or counts no loss and exits 0 or, when only the rate was off, 2: however the run ends and wherever its
      stream is cut. */
  lemma DisconnectPassesTheProbe(cfg: Config, steps: seq<Step>, s: Session, w: Wire, chunks: seq<seq<byte>>,
                                 expectDrops: bool, achieved: real, target: real)
    requires cfg.policy == Disconnect && Reaches(cfg, Init(), steps, s) && AllListable(steps)
    requires Orderly(cfg, Init(), steps) && s.books.nextSequence <= TWO_64
    requires Arrives(s.flow.delivered, w, chunks)
    ensures Passes(Verdict(chunks), Whole(s.flow.delivered, w, chunks), expectDrops, achieved, target)
  {
    DisconnectOpens(cfg, steps, s);
    CompleteTapeWhenOrderly(cfg, steps, s);
    ConsumerSeesExactlyTheLoss(cfg, steps, s, w, chunks);
    WholePrefixPasses(s, w, chunks, expectDrops, achieved, target);
  }

  lemma NoLossInPrefix(items: seq<Item>, n: nat)
    requires Contiguous(Numbers(items)) && n <= |items|
    ensures LastOf(Numbers(items[..n])) == |Numbers(items[..n])|
  {
    var received := Numbers(items[..n]);
    assert items == items[..n] + items[n..];
    NumbersConcat(items[..n], items[n..]);
    if received != [] {
      assert received[|received| - 1] == Numbers(items)[|received| - 1];
    }
  }
}

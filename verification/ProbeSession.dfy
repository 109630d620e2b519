/** The verification probe: handshake, frame dispatch and sequence accounting. */
module ProbeSession {
  import opened Bytes
  import opened FeedRecords
  import opened FeedFrameWriter
  import opened FeedFrameReader
  import opened FrameStream

  const MAX_GAP_EVENTS := 10_000
  const MAX_INTEGRITY_VIOLATIONS := 1_000
  const TWO_64 := 0x1_0000_0000_0000_0000

  datatype GapEvent = GapEvent(expected: uint64, received: uint64, size: uint64)
  datatype Violation = Violation(expected: uint64, received: uint64)

  /** What the probe has counted; every field is a field of the probe object. */
  datatype Tally = Tally(
    eventsReceived: nat, lastTickSequence: uint64, recordsLost: uint64,
    gaps: seq<GapEvent>, violations: seq<Violation>, heartbeats: nat, totalBytes: nat)

  const NOTHING_SEEN: Tally := Tally(0, 0, 0, [], [], 0, 0)

  function FrameWireSize(messageType: byte): nat {
    if IsTickType(messageType) then TICK_FRAME_SIZE
    else if messageType == HEARTBEAT then HEARTBEAT_FRAME_SIZE
    else if messageType == SESSION_START then SESSION_START_FRAME_SIZE
    else 0
  }

  /** Sequence accounting alone: a jump forward is a gap, a step back a violation, and the number just seen
      becomes the last one either way. */
  function SeeNumber(t: Tally, n: uint64): Tally {
    var expected := (t.lastTickSequence + 1) % TWO_64;
    var seen := t.(lastTickSequence := n);
    if n > expected then
      seen.(recordsLost := (t.recordsLost + (n - expected)) % TWO_64,
            gaps := if |t.gaps| < MAX_GAP_EVENTS then t.gaps + [GapEvent(expected, n, n - expected)] else t.gaps)
    else if n < expected then
      seen.(violations := if |t.violations| < MAX_INTEGRITY_VIOLATIONS then t.violations + [Violation(expected, n)]
                          else t.violations)
    else seen
  }

  function SeeTick(t: Tally, r: FeedRecord): Tally {
    SeeNumber(t.(eventsReceived := t.eventsReceived + 1), r.sequenceNumber)
  }

  // ---- what the gaps and violations of a tally mean ----

  function SeeNumbers(t: Tally, numbers: seq<uint64>): Tally {
    if numbers == [] then t else SeeNumber(SeeNumbers(t, numbers[..|numbers| - 1]), numbers[|numbers| - 1])
  }

  /** Every number is above the one before it, the first above `last`. */
  predicate Upward(last: uint64, numbers: seq<uint64>) {
    numbers == []
    || (var init := numbers[..|numbers| - 1]; Upward(last, init) && numbers[|numbers| - 1] > LastOr(last, init))
  }

  function LastOr(last: uint64, numbers: seq<uint64>): uint64 {
    if numbers == [] then last else numbers[|numbers| - 1]
  }

  /** None is the largest number there is, behind which counting starts over. */
  predicate BelowTop(numbers: seq<uint64>) {
    forall i | 0 <= i < |numbers| :: numbers[i] < TWO_64 - 1
  }

  lemma {:induction false} LastSeen(t: Tally, numbers: seq<uint64>)
    ensures SeeNumbers(t, numbers).lastTickSequence == LastOr(t.lastTickSequence, numbers)
  {
  }

  /** A violation is recorded exactly when some number does not go up from the one before it. */
  lemma {:induction false} ViolationExactlyWhen(t: Tally, numbers: seq<uint64>)
    requires t.violations == [] && t.lastTickSequence < TWO_64 - 1 && BelowTop(numbers)
    ensures SeeNumbers(t, numbers).violations == [] <==> Upward(t.lastTickSequence, numbers)
  {
    if numbers != [] {
      var n := |numbers| - 1;
      ViolationExactlyWhen(t, numbers[..n]);
      LastSeen(t, numbers[..n]);
      ViolationStep(SeeNumbers(t, numbers[..n]), numbers[n]);
    }
  }

  lemma ViolationStep(t: Tally, n: uint64)
    requires t.lastTickSequence < TWO_64 - 1
    ensures SeeNumber(t, n).violations == [] <==> t.violations == [] && n > t.lastTickSequence
  {
  }

  /** The number lies in a recorded gap. */
  ghost predicate InAGap(gaps: seq<GapEvent>, n: nat) {
    exists g :: g in gaps && g.expected <= n < g.received
  }

  ghost predicate Sized(gaps: seq<GapEvent>) {
    forall g | g in gaps :: g.expected < g.received && g.size == g.received - g.expected
  }

  /** On numbers that go up, the gaps recorded are exactly the numbers passed over, as long as there is room to
      record them. */
  lemma {:induction false} GapsAreTheMissing(numbers: seq<uint64>, n: nat)
    requires Upward(0, numbers) && BelowTop(numbers) && |SeeNumbers(NOTHING_SEEN, numbers).gaps| < MAX_GAP_EVENTS
    ensures var t := SeeNumbers(NOTHING_SEEN, numbers);
      Sized(t.gaps) && (InAGap(t.gaps, n) <==> 1 <= n <= t.lastTickSequence && n !in numbers)
  {
    if numbers != [] {
      var k := |numbers| - 1;
      var before := SeeNumbers(NOTHING_SEEN, numbers[..k]);
      LastSeen(NOTHING_SEEN, numbers[..k]);
      GapsAreTheMissing(numbers[..k], n);
      UpwardBelow(0, numbers[..k]);
      OneMoreNumber(before, numbers[..k], numbers[k], n);
      assert numbers == numbers[..k] + [numbers[k]];
    }
  }

  lemma {:induction false} UpwardBelow(last: uint64, numbers: seq<uint64>)
    requires Upward(last, numbers)
    ensures LastOr(last, numbers) >= last && forall x | x in numbers :: x <= LastOr(last, numbers)
  {
    if numbers != [] {
      UpwardBelow(last, numbers[..|numbers| - 1]);
      assert numbers == numbers[..|numbers| - 1] + [numbers[|numbers| - 1]];
    }
  }

  lemma OneMoreNumber(t: Tally, seen: seq<uint64>, next: uint64, n: nat)
    requires Sized(t.gaps) && |SeeNumber(t, next).gaps| < MAX_GAP_EVENTS
    requires t.lastTickSequence < next < TWO_64 - 1 && forall x | x in seen :: x <= t.lastTickSequence
    requires InAGap(t.gaps, n) <==> 1 <= n <= t.lastTickSequence && n !in seen
    ensures var u := SeeNumber(t, next);
      Sized(u.gaps) && (InAGap(u.gaps, n) <==> 1 <= n <= next && n !in seen + [next])
  {
    var u, expected := SeeNumber(t, next), t.lastTickSequence + 1;
    if next > expected {
      var gap := GapEvent(expected, next, next - expected);
      assert u.gaps == t.gaps + [gap] && gap in u.gaps;
      assert forall g | g in t.gaps :: g in u.gaps;
    }
  }

  datatype Progress = Progress(tally: Tally, failed: bool)

  /** One frame dispatched; a frame that does not decode, or a second session start, ends the run. */
  function SeeFrame(t: Tally, raw: RawFrame): Progress {
    var t := t.(totalBytes := t.totalBytes + FrameWireSize(raw.messageType));
    if IsTickType(raw.messageType) then
      match ReadTick(raw.payload)
      case Err(_) => Progress(t, true)
      case Ok(r) => Progress(SeeTick(t, r), false)
    else if raw.messageType == HEARTBEAT then
      match ReadHeartbeat(raw.payload)
      case Err(_) => Progress(t, true)
      case Ok(_) => Progress(t.(heartbeats := t.heartbeats + 1), false)
    else Progress(t, true)
  }

  function SeeAll(t: Tally, raws: seq<RawFrame>): Progress
    decreases |raws|
  {
    if raws == [] then Progress(t, false)
    else
      var p := SeeFrame(t, raws[0]);
      if p.failed then p else SeeAll(p.tally, raws[1..])
  }

  lemma {:induction false} SeeAllConcat(t: Tally, a: seq<RawFrame>, b: seq<RawFrame>)
    ensures SeeAll(t, a + b) == if SeeAll(t, a).failed then SeeAll(t, a) else SeeAll(SeeAll(t, a).tally, b)
    decreases |a|
  {
    if a == [] {
      assert a + b == b;
    } else {
      assert (a + b)[1..] == a[1..] + b;
      var p := SeeFrame(t, a[0]);
      if !p.failed {
        SeeAllConcat(p.tally, a[1..], b);
      }
    }
  }

  /** A frame a run goes on from: a tick or a heartbeat that decodes. */
  predicate Acceptable(raw: RawFrame) {
    if IsTickType(raw.messageType) then ReadTick(raw.payload).Ok?
    else raw.messageType == HEARTBEAT && ReadHeartbeat(raw.payload).Ok?
  }

  function Heartbeats(raws: seq<RawFrame>): nat {
    if raws == [] then 0 else (if raws[0].messageType == HEARTBEAT then 1 else 0) + Heartbeats(raws[1..])
  }

  /** The bytes the frames took on the wire, behind their lengths. */
  function WireLength(raws: seq<RawFrame>): nat {
    if raws == [] then 0 else LENGTH_PREFIX_SIZE + |raws[0].payload| + WireLength(raws[1..])
  }

  /** A run fails exactly on frames of which some one is neither a tick nor a heartbeat that decodes; until one is, it
      has counted its ticks, its heartbeats and their bytes. */
  lemma {:induction false} FailsExactlyWhen(t: Tally, raws: seq<RawFrame>)
    ensures SeeAll(t, raws).failed <==> exists i | 0 <= i < |raws| :: !Acceptable(raws[i])
    ensures !SeeAll(t, raws).failed ==>
      && SeeAll(t, raws).tally.heartbeats == t.heartbeats + Heartbeats(raws)
      && SeeAll(t, raws).tally.eventsReceived == t.eventsReceived + |raws| - Heartbeats(raws)
      && SeeAll(t, raws).tally.totalBytes == t.totalBytes + WireLength(raws)
    decreases |raws|
  {
    if raws != [] {
      var p := SeeFrame(t, raws[0]);
      AcceptedFrame(t, raws[0]);
      if !p.failed {
        FailsExactlyWhen(p.tally, raws[1..]);
        SomeBehind(raws);
      }
    }
  }

  lemma AcceptedFrame(t: Tally, raw: RawFrame)
    ensures var p := SeeFrame(t, raw);
      && (p.failed <==> !Acceptable(raw))
      && (!p.failed ==>
            && p.tally.heartbeats == t.heartbeats + (if raw.messageType == HEARTBEAT then 1 else 0)
            && p.tally.eventsReceived == t.eventsReceived + (if raw.messageType == HEARTBEAT then 0 else 1)
            && p.tally.totalBytes == t.totalBytes + LENGTH_PREFIX_SIZE + |raw.payload|)
  {
  }

  lemma SomeBehind(raws: seq<RawFrame>)
    requires raws != [] && Acceptable(raws[0])
    ensures (exists i | 0 <= i < |raws| :: !Acceptable(raws[i]))
      <==> (exists i | 0 <= i < |raws[1..]| :: !Acceptable(raws[1..][i]))
  {
    if i :| 0 <= i < |raws| && !Acceptable(raws[i]) {
      assert !Acceptable(raws[1..][i - 1]);
    }
    if j :| 0 <= j < |raws[1..]| && !Acceptable(raws[1..][j]) {
      assert !Acceptable(raws[j + 1]);
    }
  }

  /** After an accepted session start the report says a framing error exactly when the bytes were corrupt or a frame
      behind it was not acceptable. */
  lemma FramingErrorExactlyWhen(raws: seq<RawFrame>, corrupt: bool)
    requires Judge(raws, corrupt).Ran?
    ensures Judge(raws, corrupt).framingError
      <==> corrupt || exists i | 1 <= i < |raws| :: !Acceptable(raws[i])
  {
    FailsExactlyWhen(NOTHING_SEEN, raws[1..]);
    if i :| 1 <= i < |raws| && !Acceptable(raws[i]) {
      assert !Acceptable(raws[1..][i - 1]);
    }
    if j :| 0 <= j < |raws[1..]| && !Acceptable(raws[1..][j]) {
      assert !Acceptable(raws[j + 1]);
    }
  }

  /** How a run ended: no session, a first frame that was not a session start, or a session and its tally. */
  datatype Report = NoSession | BadHandshake | Ran(tally: Tally, framingError: bool)

  /** The report a frame sequence deserves, and whether the bytes behind it were corrupt. */
  function Judge(raws: seq<RawFrame>, corrupt: bool): Report {
    if raws == [] then (if corrupt then BadHandshake else NoSession)
    else if raws[0].messageType != SESSION_START || ReadSessionStart(raws[0].payload).Err? then BadHandshake
    else
      var p := SeeAll(NOTHING_SEEN, raws[1..]);
      Ran(p.tally, p.failed || corrupt)
  }

  class ProbeSession {
    var eventsReceived: nat
    var lastTickSequence: uint64
    var recordsLost: uint64
    var gaps: seq<GapEvent>
    var violations: seq<Violation>
    var heartbeats: nat
    var totalBytes: nat

    function Counted(): Tally
      reads this
    {
      Tally(eventsReceived, lastTickSequence, recordsLost, gaps, violations, heartbeats, totalBytes)
    }

    constructor ()
      ensures Counted() == NOTHING_SEEN
    {
      eventsReceived, lastTickSequence, recordsLost, gaps, violations := 0, 0, 0, [], [];
      heartbeats, totalBytes := 0, 0;
    }

    method HandleTick(record: FeedRecord)
      modifies this`eventsReceived, this`lastTickSequence, this`recordsLost, this`gaps, this`violations
      ensures Counted() == SeeTick(old(Counted()), record)
    {
      eventsReceived := eventsReceived + 1;
      var expected := (lastTickSequence + 1) % TWO_64;
      if record.sequenceNumber > expected {
        var size := record.sequenceNumber - expected;
        recordsLost := (recordsLost + size) % TWO_64;
        if |gaps| < MAX_GAP_EVENTS {
          gaps := gaps + [GapEvent(expected, record.sequenceNumber, size)];
        }
      } else if record.sequenceNumber < expected {
        if |violations| < MAX_INTEGRITY_VIOLATIONS {
          violations := violations + [Violation(expected, record.sequenceNumber)];
        }
      }
      lastTickSequence := record.sequenceNumber;
    }

    method Dispatch(raw: RawFrame) returns (failed: bool)
      modifies this
      ensures Progress(Counted(), failed) == SeeFrame(old(Counted()), raw)
    {
      totalBytes := totalBytes + FrameWireSize(raw.messageType);
      if IsTickType(raw.messageType) {
        var decoded := ReadTick(raw.payload);
        if decoded.Err? {
          return true;
        }
        HandleTick(decoded.value);
      } else if raw.messageType == HEARTBEAT {
        var decoded := ReadHeartbeat(raw.payload);
        if decoded.Err? {
          return true;
        }
        heartbeats := heartbeats + 1;
      } else {
        return true;
      }
      failed := false;
    }

    /** Dispatches every whole frame in the buffer and hands back what is left of it. */
    method ProcessBuffer(buffer: seq<byte>) returns (rest: seq<byte>, failed: bool)
      modifies this
      ensures var p := SeeAll(old(Counted()), Drain(buffer).frames);
        Counted() == p.tally && failed == (p.failed || Drain(buffer).failed)
      ensures !failed ==> rest == Drain(buffer).rest
    {
      rest, failed := buffer, false;
      ghost var goal := JudgeRest(Counted(), Drain(buffer));
      while true
        invariant goal == JudgeRest(Counted(), Drain(rest))
        decreases |rest|
      {
        DrainOnce(rest);
        match TryReadFrame(rest) {
          case NeedMore =>
            return;
          case Corrupt(_) =>
            return rest, true;
          case GotFrame(raw, more) =>
            SeeOne(Counted(), raw, Drain(more));
            rest := more;
            failed := Dispatch(raw);
            if failed {
              return;
            }
        }
      }
    }

    /** Reads until the first frame is whole, and requires it to open the session. */
    method Establish(chunks: seq<seq<byte>>) returns (outcome: Handshake, next: nat, buffer: seq<byte>)
      ensures outcome.Silent? ==> Drain(Join(chunks)) == Drained([], Drain(Join(chunks)).rest, false)
      ensures outcome.Refused? ==> RefusedBy(Drain(Join(chunks)))
      ensures outcome.Opened? ==> next <= |chunks| && OpenedBefore(Drain(Join(chunks)), buffer + Join(chunks[next..]))
    {
      buffer, next := [], 0;
      DrainOnce([]);
      assert chunks[0..] == chunks && [] + Join(chunks) == Join(chunks);
      while next < |chunks|
        invariant next <= |chunks| && buffer + Join(chunks[next..]) == Join(chunks)
        invariant TryReadFrame(buffer).NeedMore?
      {
        ghost var later := Join(chunks[next + 1..]);
        JoinNext(buffer, chunks, next);
        buffer := buffer + chunks[next];
        next := next + 1;
        match TryReadFrame(buffer) {
          case NeedMore =>
          case Corrupt(_) =>
            CorruptFirst(buffer, later);
            return Refused, next, buffer;
          case GotFrame(raw, more) =>
            FirstFrame(buffer, later);
            if raw.messageType != SESSION_START || ReadSessionStart(raw.payload).Err? {
              return Refused, next, buffer;
            }
            return Opened, next, more;
        }
      }
      assert buffer + [] == buffer;
      DrainOnce(buffer);
      outcome := Silent;
    }

    /** One buffer processed: either it settles the verdict, or the rest of the stream does. */
    method Absorb(buffer: seq<byte>, ghost later: seq<byte>) returns (rest: seq<byte>, failed: bool)
      modifies this
      ensures var goal := Verdict(old(Counted()), Drain(buffer + later));
        if failed then goal == Progress(Counted(), true)
        else goal == Verdict(Counted(), Drain(rest + later)) && Drain(rest) == Drained([], rest, false)
    {
      VerdictStep(Counted(), buffer, later);
      RestIsDrained(buffer);
      rest, failed := ProcessBuffer(buffer);
    }

    /** Dispatches what is left of the handshake's buffer and then every chunk as it arrives. */
    method Stream(first: seq<byte>, chunks: seq<seq<byte>>) returns (failed: bool)
      modifies this
      ensures Verdict(old(Counted()), Drain(first + Join(chunks))) == Progress(Counted(), failed)
    {
      ghost var goal := Verdict(Counted(), Drain(first + Join(chunks)));
      failed := false;
      var buffer, i := first, 0;
      assert chunks[0..] == chunks;
      while true
        invariant i <= |chunks| && Verdict(Counted(), Drain(buffer + Join(chunks[i..]))) == goal
        decreases |chunks| - i
      {
        buffer, failed := Absorb(buffer, Join(chunks[i..]));
        if failed {
          return;
        }
        if i == |chunks| {
          assert buffer + [] == buffer;
          return;
        }
        JoinNext(buffer, chunks, i);
        buffer := buffer + chunks[i];
        i := i + 1;
      }
    }

    /** A whole run over whatever chunks the socket delivered. */
    method Run(chunks: seq<seq<byte>>) returns (report: Report)
      requires Counted() == NOTHING_SEEN
      modifies this
      ensures report == Judge(Drain(Join(chunks)).frames, Drain(Join(chunks)).failed)
    {
      var outcome, next, buffer := Establish(chunks);
      match outcome {
        case Silent => return NoSession;
        case Refused => return BadHandshake;
        case Opened =>
          var failed := Stream(buffer, chunks[next..]);
          report := Ran(Counted(), failed);
      }
    }
  }

  datatype Handshake = Silent | Refused | Opened

  /** The tally drained input ends in, and whether it ends in an error. */
  ghost function Verdict(t: Tally, d: Drained): Progress {
    var p := SeeAll(t, d.frames);
    Progress(p.tally, p.failed || d.failed)
  }

  /** Processing the buffer in hand first gives the verdict of the whole stream, or all that is left of it. */
  lemma VerdictStep(t: Tally, buffer: seq<byte>, later: seq<byte>)
    ensures var d := Drain(buffer); var p := Verdict(t, d); var whole := Verdict(t, Drain(buffer + later));
      whole == if p.failed then p else Verdict(p.tally, Drain(d.rest + later))
  {
    var d := Drain(buffer);
    FeedReaderIsSound();
    DrainExtends(FeedReader(), buffer, later);
    SeeAllConcat(t, d.frames, Drain(d.rest + later).frames);
  }

  lemma JoinNext(buffer: seq<byte>, chunks: seq<seq<byte>>, i: nat)
    requires i < |chunks|
    ensures buffer + Join(chunks[i..]) == buffer + chunks[i] + Join(chunks[i + 1..])
  {
    assert chunks[i..][1..] == chunks[i + 1..];
  }

  ghost predicate RefusedBy(all: Drained) {
    if all.frames == [] then all.failed else !FirstOpens(all)
  }

  /** The stream's first frame is a session start that decodes. */
  ghost predicate FirstOpens(all: Drained) {
    all.frames != [] && all.frames[0].messageType == SESSION_START && ReadSessionStart(all.frames[0].payload).Ok?
  }

  /** The stream opens with a session start, and `tail` is what follows it. */
  ghost predicate OpenedBefore(all: Drained, tail: seq<byte>) {
    FirstOpens(all) && AfterFirst(all) == Drain(tail)
  }

  ghost function AfterFirst(all: Drained): Drained
    requires all.frames != []
  {
    Drained(all.frames[1..], all.rest, all.failed)
  }

  lemma CorruptFirst(buffer: seq<byte>, later: seq<byte>)
    requires TryReadFrame(buffer).Corrupt?
    ensures Drain(buffer + later).frames == [] && Drain(buffer + later).failed
  {
    VerdictIsStable(buffer, later);
    DrainOnce(buffer + later);
  }

  lemma {:induction false} RestIsDrained(buffer: seq<byte>)
    ensures var d := Drain(buffer); !d.failed ==> Drain(d.rest) == Drained([], d.rest, false)
    decreases |buffer|
  {
    DrainOnce(buffer);
    match TryReadFrame(buffer)
    case GotFrame(_, more) => RestIsDrained(more);
    case _ =>
  }

  lemma FirstFrame(buffer: seq<byte>, later: seq<byte>)
    requires TryReadFrame(buffer).GotFrame?
    ensures var all := Drain(buffer + later); var r := TryReadFrame(buffer);
      && all.frames != [] && all.frames[0] == r.frame
      && AfterFirst(all) == Drain(r.rest + later)
  {
    VerdictIsStable(buffer, later);
    DrainOnce(buffer + later);
  }

  /** The tally, verdict and leftover bytes that drained input should end in. */
  ghost function JudgeRest(t: Tally, d: Drained): (Tally, bool, seq<byte>) {
    var p := SeeAll(t, d.frames);
    (p.tally, p.failed || d.failed, if p.failed || d.failed then [] else d.rest)
  }

  lemma DrainOnce(buffer: seq<byte>)
    ensures Drain(buffer) == match TryReadFrame(buffer)
      case NeedMore => Drained([], buffer, false)
      case Corrupt(_) => Drained([], buffer, true)
      case GotFrame(f, rest) => Drained([f], rest, false).Then(Drain(rest))
  {
    FeedReaderIsSound();
  }

  lemma SeeOne(t: Tally, raw: RawFrame, later: Drained)
    ensures var p := SeeFrame(t, raw); var all := Drained([raw], [], false).Then(later);
      if p.failed then JudgeRest(t, all) == (p.tally, true, []) else JudgeRest(t, all) == JudgeRest(p.tally, later)
  {
    assert ([raw] + later.frames)[1..] == later.frames;
  }
}

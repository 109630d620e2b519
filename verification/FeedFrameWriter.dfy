/** Encoding of the three frame kinds, as the writer lays them out. */
module FeedFrameWriter {
  import opened Bytes
  import opened FeedRecords

  const LENGTH_PREFIX_SIZE := 4
  const TICK_PAYLOAD_SIZE := 40
  const HEARTBEAT_PAYLOAD_SIZE := 24
  const SESSION_START_PAYLOAD_SIZE := 32
  const TICK_FRAME_SIZE := 44
  const HEARTBEAT_FRAME_SIZE := 28
  const SESSION_START_FRAME_SIZE := 36

  /** A session identifier in the field layout of section 4.1.2 of RFC 4122. */
  datatype Guid = Guid(timeLow: uint32, timeMid: uint16, timeHigh: uint16, node: seq<byte>) {
    predicate Valid() { |node| == 8 }
  }

  datatype Frame =
    | Tick(record: FeedRecord)
    | Heartbeat(lastSequence: uint64, timestampNanos: int64)
    | SessionStart(sessionId: Guid, heartbeatMs: uint32, startNanos: int64)
  {
    /** A frame the writer accepts and the reader will take back. */
    predicate Valid() {
      match this
      case Tick(r) => IsTickType(r.messageType) && WellPadded(r.symbol.WireBytes())
      case Heartbeat(_, _) => true
      case SessionStart(id, _, _) => id.Valid()
    }

    function TypeByte(): byte {
      match this
      case Tick(r) => r.messageType
      case Heartbeat(_, _) => HEARTBEAT
      case SessionStart(_, _, _) => SESSION_START
    }

    function Size(): nat {
      match this
      case Tick(_) => TICK_FRAME_SIZE
      case Heartbeat(_, _) => HEARTBEAT_FRAME_SIZE
      case SessionStart(_, _, _) => SESSION_START_FRAME_SIZE
    }
  }

  /** Length prefix, version and message type: the part every frame opens with. */
  function Header(size: nat, messageType: byte): (bytes: seq<byte>)
    ensures |bytes| == 6
  {
    LittleEndian(size, LENGTH_PREFIX_SIZE) + [CURRENT_VERSION, messageType]
  }

  /** Flags, quantity and sequence number. */
  function TickCounts(r: FeedRecord): (bytes: seq<byte>)
    ensures |bytes| == 14
  {
    LittleEndian(r.flags, 2) + LittleEndian(r.quantity, 4) + LittleEndian(r.sequenceNumber, 8)
  }

  /** Timestamp, price and symbol. */
  function TickBody(r: FeedRecord): (bytes: seq<byte>)
    ensures |bytes| == 24
  {
    LittleEndian(Bits64(r.exchangeTimestampNanos), 8) + LittleEndian(Bits64(r.priceScaled), 8)
    + r.symbol.WireBytes()
  }

  function TickPayload(r: FeedRecord): (p: seq<byte>)
    ensures |p| == TICK_PAYLOAD_SIZE
  {
    [CURRENT_VERSION, r.messageType] + TickCounts(r) + TickBody(r)
  }

  /** The flags and quantity words, zero in a heartbeat. */
  function Reserved(): (bytes: seq<byte>)
    ensures |bytes| == 6
  {
    LittleEndian(0, 2) + LittleEndian(0, 4)
  }

  /** Two reserved zero words, then the last sequence number and the time. */
  function HeartbeatBody(lastSequence: uint64, nanos: int64): (bytes: seq<byte>)
    ensures |bytes| == 22
  {
    Reserved() + LittleEndian(lastSequence, 8) + LittleEndian(Bits64(nanos), 8)
  }

  function HeartbeatPayload(lastSequence: uint64, nanos: int64): (p: seq<byte>)
    ensures |p| == HEARTBEAT_PAYLOAD_SIZE
  {
    [CURRENT_VERSION, HEARTBEAT] + HeartbeatBody(lastSequence, nanos)
  }

  /** Big-endian identifier bytes, unlike every other field. */
  function GuidBytes(id: Guid): (p: seq<byte>)
    requires id.Valid()
    ensures |p| == 16
  {
    BigEndian(id.timeLow, 4) + BigEndian(id.timeMid, 2) + BigEndian(id.timeHigh, 2) + id.node
  }

  function SessionTiming(heartbeatMs: uint32): (bytes: seq<byte>)
    ensures |bytes| == 6
  {
    LittleEndian(0, 2) + LittleEndian(heartbeatMs, 4)
  }

  function SessionIdentity(id: Guid, nanos: int64): (bytes: seq<byte>)
    requires id.Valid()
    ensures |bytes| == 24
  {
    GuidBytes(id) + LittleEndian(Bits64(nanos), 8)
  }

  function SessionStartPayload(id: Guid, heartbeatMs: uint32, nanos: int64): (p: seq<byte>)
    requires id.Valid()
    ensures |p| == SESSION_START_PAYLOAD_SIZE
  {
    [CURRENT_VERSION, SESSION_START] + SessionTiming(heartbeatMs) + SessionIdentity(id, nanos)
  }

  function Payload(f: Frame): (p: seq<byte>)
    requires f.Valid()
    ensures |p| + LENGTH_PREFIX_SIZE == f.Size()
  {
    match f
    case Tick(r) => TickPayload(r)
    case Heartbeat(last, nanos) => HeartbeatPayload(last, nanos)
    case SessionStart(id, ms, nanos) => SessionStartPayload(id, ms, nanos)
  }

  function EncodeFrame(f: Frame): (bytes: seq<byte>)
    requires f.Valid()
    ensures |bytes| == f.Size()
  {
    LittleEndian(|Payload(f)|, LENGTH_PREFIX_SIZE) + Payload(f)
  }

  predicate AllValid(frames: seq<Frame>) {
    forall i | 0 <= i < |frames| :: frames[i].Valid()
  }

  /** The frame bytes a tick record is written as. */
  function EncodeTick(record: FeedRecord): (bytes: seq<byte>)
    ensures |bytes| == TICK_FRAME_SIZE
  {
    LittleEndian(TICK_PAYLOAD_SIZE, LENGTH_PREFIX_SIZE) + TickPayload(record)
  }

  function EncodeHeartbeat(lastSequence: uint64, nanos: int64): (bytes: seq<byte>)
    ensures |bytes| == HEARTBEAT_FRAME_SIZE
  {
    LittleEndian(HEARTBEAT_PAYLOAD_SIZE, LENGTH_PREFIX_SIZE) + HeartbeatPayload(lastSequence, nanos)
  }

  function EncodeSessionStart(id: Guid, heartbeatMs: uint32, nanos: int64): (bytes: seq<byte>)
    requires id.Valid()
    ensures |bytes| == SESSION_START_FRAME_SIZE
  {
    LittleEndian(SESSION_START_PAYLOAD_SIZE, LENGTH_PREFIX_SIZE) + SessionStartPayload(id, heartbeatMs, nanos)
  }

  lemma FrameEncodings(f: Frame)
    requires f.Valid()
    ensures f.Tick? ==> EncodeFrame(f) == EncodeTick(f.record)
    ensures f.Heartbeat? ==> EncodeFrame(f) == EncodeHeartbeat(f.lastSequence, f.timestampNanos)
    ensures f.SessionStart? ==> EncodeFrame(f) == EncodeSessionStart(f.sessionId, f.heartbeatMs, f.startNanos)
  {
  }

  /** Regroups an encoding the way the writers store it. */
  lemma HeaderFirst(size: nat, messageType: byte, p: seq<byte>, a: seq<byte>)
    requires p == [CURRENT_VERSION, messageType] + a
    ensures Header(size, messageType) + a == LittleEndian(size, LENGTH_PREFIX_SIZE) + p
  {
  }

  lemma TickParts(r: FeedRecord)
    ensures Header(TICK_PAYLOAD_SIZE, r.messageType) + TickCounts(r) + TickBody(r) == EncodeTick(r)
  {
    var a, b := TickCounts(r), TickBody(r);
    assert TickPayload(r) == [CURRENT_VERSION, r.messageType] + (a + b);
    HeaderFirst(TICK_PAYLOAD_SIZE, r.messageType, TickPayload(r), a + b);
    assert Header(TICK_PAYLOAD_SIZE, r.messageType) + a + b == Header(TICK_PAYLOAD_SIZE, r.messageType) + (a + b);
  }

  lemma SessionStartParts(id: Guid, ms: uint32, nanos: int64)
    requires id.Valid()
    ensures Header(SESSION_START_PAYLOAD_SIZE, SESSION_START) + SessionTiming(ms) + SessionIdentity(id, nanos)
         == EncodeSessionStart(id, ms, nanos)
  {
    var a, b := SessionTiming(ms), SessionIdentity(id, nanos);
    var p := SessionStartPayload(id, ms, nanos);
    assert p == [CURRENT_VERSION, SESSION_START] + (a + b);
    HeaderFirst(SESSION_START_PAYLOAD_SIZE, SESSION_START, p, a + b);
    assert Header(SESSION_START_PAYLOAD_SIZE, SESSION_START) + a + b
        == Header(SESSION_START_PAYLOAD_SIZE, SESSION_START) + (a + b);
  }

  method AppendHeader(destination: array<byte>, at: nat, size: nat, messageType: byte)
    requires at + 6 <= destination.Length
    modifies destination
    ensures Stored(destination[..], old(destination[..]), at, Header(size, messageType))
  {
    ghost var was := destination[..];
    var prefix := LittleEndian(size, LENGTH_PREFIX_SIZE);
    Append(destination, at, was, [], at, prefix);
    assert [] + prefix == prefix;
    Append(destination, at, was, prefix, at + LENGTH_PREFIX_SIZE, [CURRENT_VERSION, messageType]);
  }

  method AppendTickCounts(destination: array<byte>, at: nat, ghost was: seq<byte>, ghost done: seq<byte>,
                          record: FeedRecord)
    requires Stored(destination[..], was, at, done) && |done| == 6 && at + TICK_FRAME_SIZE <= |was|
    modifies destination
    ensures Stored(destination[..], was, at, done + TickCounts(record))
  {
    var flags := LittleEndian(record.flags, 2);
    Append(destination, at, was, done, at + 6, flags);
    var quantity := LittleEndian(record.quantity, 4);
    Append(destination, at, was, done + flags, at + 8, quantity);
    var sequence := LittleEndian(record.sequenceNumber, 8);
    Append(destination, at, was, done + flags + quantity, at + 12, sequence);
    assert done + flags + quantity + sequence == done + TickCounts(record);
  }

  method AppendTickBody(destination: array<byte>, at: nat, ghost was: seq<byte>, ghost done: seq<byte>,
                        record: FeedRecord)
    requires Stored(destination[..], was, at, done) && |done| == 20 && at + TICK_FRAME_SIZE <= |was|
    modifies destination
    ensures Stored(destination[..], was, at, done + TickBody(record))
  {
    var stamp := LittleEndian(Bits64(record.exchangeTimestampNanos), 8);
    Append(destination, at, was, done, at + 20, stamp);
    var price := LittleEndian(Bits64(record.priceScaled), 8);
    Append(destination, at, was, done + stamp, at + 28, price);
    var symbol := record.symbol.WireBytes();
    Append(destination, at, was, done + stamp + price, at + 36, symbol);
    assert done + stamp + price + symbol == done + TickBody(record);
  }

  /** Writes one framed tick at `at`; a short span or a record that is not a tick writes nothing. */
  method WriteTick(destination: array<byte>, at: nat, record: FeedRecord) returns (r: Result<nat>)
    requires at <= destination.Length
    modifies destination
    ensures r == if destination.Length - at < TICK_FRAME_SIZE then Err(BufferTooSmall)
                 else if !IsTickType(record.messageType) then Err(NotATick)
                 else Ok(TICK_FRAME_SIZE)
    ensures r.Err? ==> destination[..] == old(destination[..])
    ensures r.Ok? ==> Stored(destination[..], old(destination[..]), at, EncodeTick(record))
  {
    if destination.Length - at < TICK_FRAME_SIZE {
      return Err(BufferTooSmall);
    }
    if !IsTickType(record.messageType) {
      return Err(NotATick);
    }
    ghost var was := destination[..];
    AppendHeader(destination, at, TICK_PAYLOAD_SIZE, record.messageType);
    ghost var header := Header(TICK_PAYLOAD_SIZE, record.messageType);
    AppendTickCounts(destination, at, was, header, record);
    AppendTickBody(destination, at, was, header + TickCounts(record), record);
    TickParts(record);
    r := Ok(TICK_FRAME_SIZE);
  }

  method AppendHeartbeatBody(destination: array<byte>, ghost was: seq<byte>, ghost done: seq<byte>,
                             lastSequence: uint64, nanos: int64)
    requires Stored(destination[..], was, 0, done) && |done| == 6 && HEARTBEAT_FRAME_SIZE <= |was|
    modifies destination
    ensures Stored(destination[..], was, 0, done + HeartbeatBody(lastSequence, nanos))
  {
    var reserved := Reserved();
    Append(destination, 0, was, done, 6, reserved);
    var last := LittleEndian(lastSequence, 8);
    Append(destination, 0, was, done + reserved, 12, last);
    var stamp := LittleEndian(Bits64(nanos), 8);
    Append(destination, 0, was, done + reserved + last, 20, stamp);
    assert done + reserved + last + stamp == done + HeartbeatBody(lastSequence, nanos);
  }

  method WriteHeartbeat(destination: array<byte>, lastSequence: uint64, nanos: int64) returns (r: Result<nat>)
    modifies destination
    ensures r == if destination.Length < HEARTBEAT_FRAME_SIZE then Err(BufferTooSmall) else Ok(HEARTBEAT_FRAME_SIZE)
    ensures r.Err? ==> destination[..] == old(destination[..])
    ensures r.Ok? ==> Stored(destination[..], old(destination[..]), 0, EncodeHeartbeat(lastSequence, nanos))
  {
    if destination.Length < HEARTBEAT_FRAME_SIZE {
      return Err(BufferTooSmall);
    }
    ghost var was := destination[..];
    AppendHeader(destination, 0, HEARTBEAT_PAYLOAD_SIZE, HEARTBEAT);
    ghost var header := Header(HEARTBEAT_PAYLOAD_SIZE, HEARTBEAT);
    AppendHeartbeatBody(destination, was, header, lastSequence, nanos);
    HeaderFirst(HEARTBEAT_PAYLOAD_SIZE, HEARTBEAT, HeartbeatPayload(lastSequence, nanos),
                HeartbeatBody(lastSequence, nanos));
    r := Ok(HEARTBEAT_FRAME_SIZE);
  }

  method AppendSessionTiming(destination: array<byte>, ghost was: seq<byte>, ghost done: seq<byte>, heartbeatMs: uint32)
    requires Stored(destination[..], was, 0, done) && |done| == 6 && SESSION_START_FRAME_SIZE <= |was|
    modifies destination
    ensures Stored(destination[..], was, 0, done + SessionTiming(heartbeatMs))
  {
    var reserved := LittleEndian(0, 2);
    Append(destination, 0, was, done, 6, reserved);
    var beat := LittleEndian(heartbeatMs, 4);
    Append(destination, 0, was, done + reserved, 8, beat);
    assert done + reserved + beat == done + SessionTiming(heartbeatMs);
  }

  method AppendSessionIdentity(destination: array<byte>, ghost was: seq<byte>, ghost done: seq<byte>,
                               id: Guid, nanos: int64)
    requires Stored(destination[..], was, 0, done) && |done| == 12 && SESSION_START_FRAME_SIZE <= |was|
    requires id.Valid()
    modifies destination
    ensures Stored(destination[..], was, 0, done + SessionIdentity(id, nanos))
  {
    var guid := GuidBytes(id);
    Append(destination, 0, was, done, 12, guid);
    var stamp := LittleEndian(Bits64(nanos), 8);
    Append(destination, 0, was, done + guid, 28, stamp);
    assert done + guid + stamp == done + SessionIdentity(id, nanos);
  }

  method WriteSessionStart(destination: array<byte>, id: Guid, heartbeatMs: uint32, nanos: int64)
    returns (r: Result<nat>)
    requires id.Valid()
    modifies destination
    ensures r == if destination.Length < SESSION_START_FRAME_SIZE then Err(BufferTooSmall)
                 else Ok(SESSION_START_FRAME_SIZE)
    ensures r.Err? ==> destination[..] == old(destination[..])
    ensures r.Ok? ==> Stored(destination[..], old(destination[..]), 0, EncodeSessionStart(id, heartbeatMs, nanos))
  {
    if destination.Length < SESSION_START_FRAME_SIZE {
      return Err(BufferTooSmall);
    }
    ghost var was := destination[..];
    AppendHeader(destination, 0, SESSION_START_PAYLOAD_SIZE, SESSION_START);
    ghost var header := Header(SESSION_START_PAYLOAD_SIZE, SESSION_START);
    AppendSessionTiming(destination, was, header, heartbeatMs);
    AppendSessionIdentity(destination, was, header + SessionTiming(heartbeatMs), id, nanos);
    SessionStartParts(id, heartbeatMs, nanos);
    r := Ok(SESSION_START_FRAME_SIZE);
  }
}

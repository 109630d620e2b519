/** Frame extraction and payload decoding. */
module FeedFrameReader {
  import opened Bytes
  import opened FeedRecords
  import opened FeedFrameWriter

  const MAX_PAYLOAD_SIZE := 1024
  const MIN_PAYLOAD_SIZE := 2

  /** A complete frame lifted out of a buffer, not yet decoded. */
  datatype RawFrame = RawFrame(messageType: byte, payload: seq<byte>)

  datatype ReadOutcome =
    | NeedMore
    | GotFrame(frame: RawFrame, rest: seq<byte>)
    | Corrupt(error: WireError)
  {
    /** The same outcome with more bytes behind it. */
    function WithMore(later: seq<byte>): ReadOutcome {
      if GotFrame? then GotFrame(frame, rest + later) else this
    }
  }

  function ExpectedPayloadSize(messageType: byte): Result<nat> {
    if IsTickType(messageType) then Ok(TICK_PAYLOAD_SIZE)
    else if messageType == HEARTBEAT then Ok(HEARTBEAT_PAYLOAD_SIZE)
    else if messageType == SESSION_START then Ok(SESSION_START_PAYLOAD_SIZE)
    else Err(UnknownType)
  }

  /** The next frame at the front of `buffer`; `NeedMore` never means a corrupt stream. */
  function TryReadFrame(buffer: seq<byte>): (r: ReadOutcome)
    ensures r.GotFrame? ==> |r.rest| < |buffer|
  {
    if |buffer| < LENGTH_PREFIX_SIZE then NeedMore else
    var declared := Read32(buffer[..LENGTH_PREFIX_SIZE]);
    if declared < MIN_PAYLOAD_SIZE || declared > MAX_PAYLOAD_SIZE then Corrupt(LengthOutOfRange)
    else if |buffer| < LENGTH_PREFIX_SIZE + declared then NeedMore
    else
      var candidate := buffer[LENGTH_PREFIX_SIZE..LENGTH_PREFIX_SIZE + declared];
      if candidate[0] != CURRENT_VERSION then Corrupt(UnsupportedVersion) else
      match ExpectedPayloadSize(candidate[1])
      case Err(e) => Corrupt(e)
      case Ok(expected) =>
        if declared != expected then Corrupt(LengthMismatch)
        else GotFrame(RawFrame(candidate[1], candidate), buffer[LENGTH_PREFIX_SIZE + declared..])
  }

  function ReadTick(payload: seq<byte>): Result<FeedRecord> {
    if |payload| != TICK_PAYLOAD_SIZE then Err(WrongPayloadSize)
    else if payload[0] != CURRENT_VERSION then Err(UnsupportedVersion)
    else if !IsTickType(payload[1]) then Err(NotATick)
    else match DecodeSymbol(payload[32..40])
    case Err(e) => Err(e)
    case Ok(symbol) =>
      Ok(FeedRecord(payload[1], Read16(payload[2..4]), Read32(payload[4..8]), Read64(payload[8..16]),
                    Signed64(Read64(payload[16..24])), Signed64(Read64(payload[24..32])), symbol))
  }

  function CheckHeader(payload: seq<byte>, messageType: byte, size: nat): Result<()> {
    if |payload| != size then Err(WrongPayloadSize)
    else if |payload| < 2 || payload[0] != CURRENT_VERSION then Err(UnsupportedVersion)
    else if payload[1] != messageType then Err(WrongType)
    else Ok(())
  }

  function ReadHeartbeat(payload: seq<byte>): Result<(uint64, int64)> {
    match CheckHeader(payload, HEARTBEAT, HEARTBEAT_PAYLOAD_SIZE)
    case Err(e) => Err(e)
    case Ok(_) => Ok((Read64(payload[8..16]), Signed64(Read64(payload[16..24]))))
  }

  function ReadGuid(s: seq<byte>): (id: Guid)
    requires |s| == 16
    ensures id.Valid()
  {
    BigEndianOfValue(s[..4]);
    BigEndianOfValue(s[4..6]);
    BigEndianOfValue(s[6..8]);
    Guid(BigEndianValue(s[..4]), BigEndianValue(s[4..6]), BigEndianValue(s[6..8]), s[8..])
  }

  function ReadSessionStart(payload: seq<byte>): Result<(Guid, uint32, int64)> {
    match CheckHeader(payload, SESSION_START, SESSION_START_PAYLOAD_SIZE)
    case Err(e) => Err(e)
    case Ok(_) =>
      Ok((ReadGuid(payload[8..24]), Read32(payload[4..8]), Signed64(Read64(payload[24..32]))))
  }

  /** The frame a raw frame carries, decoded by the reader for its type. */
  function DecodeRaw(raw: RawFrame): Result<Frame> {
    if raw.messageType == HEARTBEAT then
      match ReadHeartbeat(raw.payload)
      case Err(e) => Err(e)
      case Ok((last, nanos)) => Ok(Heartbeat(last, nanos))
    else if raw.messageType == SESSION_START then
      match ReadSessionStart(raw.payload)
      case Err(e) => Err(e)
      case Ok((id, ms, nanos)) => Ok(SessionStart(id, ms, nanos))
    else
      match ReadTick(raw.payload)
      case Err(e) => Err(e)
      case Ok(record) => Ok(Tick(record))
  }

  // ---- encode and decode are mutual inverses ----

  /** `p` holds the fields of `r` at their wire offsets. */
  ghost predicate HoldsFields(p: seq<byte>, r: FeedRecord) {
    && |p| == TICK_PAYLOAD_SIZE
    && p[0] == CURRENT_VERSION && p[1] == r.messageType
    && p[2..4] == LittleEndian(r.flags, 2)
    && p[4..8] == LittleEndian(r.quantity, 4)
    && p[8..16] == LittleEndian(r.sequenceNumber, 8)
    && p[16..24] == LittleEndian(Bits64(r.exchangeTimestampNanos), 8)
    && p[24..32] == LittleEndian(Bits64(r.priceScaled), 8)
    && p[32..40] == r.symbol.WireBytes()
  }

  lemma PayloadHoldsFields(r: FeedRecord)
    ensures HoldsFields(TickPayload(r), r)
  {
    var p, a, b := TickPayload(r), TickCounts(r), TickBody(r);
    assert p[2..16] == a && p[16..40] == b;
    assert p[2..4] == a[0..2] && p[4..8] == a[2..6] && p[8..16] == a[6..14];
    assert p[16..24] == b[0..8] && p[24..32] == b[8..16] && p[32..40] == b[16..24];
  }

  /** Where a heartbeat's fields are: six zero bytes, then the number and the time. */
  lemma HeartbeatLayout(last: uint64, nanos: int64)
    ensures var p := HeartbeatPayload(last, nanos);
      && |p| == 24 && p[0] == CURRENT_VERSION && p[1] == HEARTBEAT && p[2..8] == [0, 0, 0, 0, 0, 0]
      && p[8..16] == LittleEndian(last, 8) && p[16..24] == LittleEndian(Bits64(nanos), 8)
  {
    var p, a := HeartbeatPayload(last, nanos), HeartbeatBody(last, nanos);
    ZeroBytes();
    assert p[2..24] == a;
    assert p[2..8] == a[0..6] && p[8..16] == a[6..14] && p[16..24] == a[14..22];
  }

  lemma ZeroBytes()
    ensures Reserved() == [0, 0, 0, 0, 0, 0] && LittleEndian(0, 2) == [0, 0]
  {
    assert LittleEndian(0, 1) == [0] && LittleEndian(0, 2) == [0, 0] && LittleEndian(0, 3) == [0, 0, 0];
    assert LittleEndian(0, 4) == [0, 0, 0, 0];
  }

  /** And a session start's: two zero bytes, the heartbeat interval, the identifier most significant byte first, and
      the time. */
  lemma SessionStartLayout(id: Guid, ms: uint32, nanos: int64)
    requires id.Valid()
    ensures var p := SessionStartPayload(id, ms, nanos);
      && |p| == 32 && p[0] == CURRENT_VERSION && p[1] == SESSION_START && p[2..4] == [0, 0]
      && p[4..8] == LittleEndian(ms, 4)
      && p[8..12] == BigEndian(id.timeLow, 4) && p[12..14] == BigEndian(id.timeMid, 2)
      && p[14..16] == BigEndian(id.timeHigh, 2) && p[16..24] == id.node
      && p[24..32] == LittleEndian(Bits64(nanos), 8)
  {
    var p, a, b := SessionStartPayload(id, ms, nanos), SessionTiming(ms), SessionIdentity(id, nanos);
    ZeroBytes();
    assert p[2..8] == a && p[8..32] == b;
    assert p[2..4] == a[0..2] && p[4..8] == a[2..6];
    assert p[8..12] == b[0..4] && p[12..14] == b[4..6] && p[14..16] == b[6..8];
    assert p[16..24] == b[8..16] && p[24..32] == b[16..24];
  }

  lemma FieldsFixPayload(p: seq<byte>, r: FeedRecord)
    requires HoldsFields(p, r)
    ensures p == TickPayload(r)
  {
    assert p[2..16] == TickCounts(r) by {
      assert p[2..16] == p[2..4] + p[4..8] + p[8..16];
    }
    assert p[16..40] == TickBody(r) by {
      assert p[16..40] == p[16..24] + p[24..32] + p[32..40];
    }
    assert p == p[0..2] + p[2..16] + p[16..40];
  }

  lemma FieldsRead(p: seq<byte>, r: FeedRecord)
    requires HoldsFields(p, r)
    ensures Read16(p[2..4]) == r.flags && Read32(p[4..8]) == r.quantity && Read64(p[8..16]) == r.sequenceNumber
    ensures Signed64(Read64(p[16..24])) == r.exchangeTimestampNanos
    ensures Signed64(Read64(p[24..32])) == r.priceScaled
  {
    ValueOfLittleEndian(r.flags, 2);
    ValueOfLittleEndian(r.quantity, 4);
    ValueOfLittleEndian(r.sequenceNumber, 8);
    ValueOfLittleEndian(Bits64(r.exchangeTimestampNanos), 8);
    ValueOfLittleEndian(Bits64(r.priceScaled), 8);
  }

  lemma DecodeFields(p: seq<byte>, r: FeedRecord)
    requires HoldsFields(p, r) && IsTickType(r.messageType)
    ensures ReadTick(p) == Ok(r) <==> WellPadded(r.symbol.WireBytes())
    ensures ReadTick(p).Ok? <==> WellPadded(r.symbol.WireBytes())
  {
    FieldsRead(p, r);
    ValueOfLittleEndian(r.symbol.packed, 8);
  }

  /** Decoding an encoded tick gives the record back exactly when its symbol is a legal field. */
  lemma DecodeEncodedTick(r: FeedRecord)
    requires IsTickType(r.messageType)
    ensures ReadTick(TickPayload(r)) == Ok(r) <==> WellPadded(r.symbol.WireBytes())
    ensures ReadTick(TickPayload(r)).Ok? <==> WellPadded(r.symbol.WireBytes())
  {
    PayloadHoldsFields(r);
    DecodeFields(TickPayload(r), r);
  }

  lemma DecodedFields(p: seq<byte>)
    requires ReadTick(p).Ok?
    ensures HoldsFields(p, ReadTick(p).value) && IsTickType(ReadTick(p).value.messageType)
  {
    LittleEndianOfValue(p[2..4]);
    LittleEndianOfValue(p[4..8]);
    LittleEndianOfValue(p[8..16]);
    LittleEndianOfValue(p[16..24]);
    LittleEndianOfValue(p[24..32]);
  }

  /** Every accepted tick payload is the encoding of the record it decodes to. */
  lemma EncodeDecodedTick(payload: seq<byte>)
    requires ReadTick(payload).Ok?
    ensures TickPayload(ReadTick(payload).value) == payload
    ensures IsTickType(ReadTick(payload).value.messageType)
  {
    DecodedFields(payload);
    FieldsFixPayload(payload, ReadTick(payload).value);
  }

  lemma DecodeHeartbeat(last: uint64, nanos: int64)
    ensures ReadHeartbeat(HeartbeatPayload(last, nanos)) == Ok((last, nanos))
  {
    var p := HeartbeatPayload(last, nanos);
    assert p[8..16] == LittleEndian(last, 8);
    assert p[16..24] == LittleEndian(Bits64(nanos), 8);
    ValueOfLittleEndian(last, 8);
    ValueOfLittleEndian(Bits64(nanos), 8);
  }

  lemma DecodeGuid(id: Guid)
    requires id.Valid()
    ensures ReadGuid(GuidBytes(id)) == id
  {
    var p := GuidBytes(id);
    assert p[..4] == BigEndian(id.timeLow, 4);
    assert p[4..6] == BigEndian(id.timeMid, 2);
    assert p[6..8] == BigEndian(id.timeHigh, 2);
    assert p[8..] == id.node;
    ValueOfBigEndian(id.timeLow, 4);
    ValueOfBigEndian(id.timeMid, 2);
    ValueOfBigEndian(id.timeHigh, 2);
  }

  lemma DecodeSessionStart(id: Guid, ms: uint32, nanos: int64)
    requires id.Valid()
    ensures ReadSessionStart(SessionStartPayload(id, ms, nanos)) == Ok((id, ms, nanos))
  {
    var p := SessionStartPayload(id, ms, nanos);
    assert p[4..8] == LittleEndian(ms, 4);
    assert p[8..24] == GuidBytes(id);
    assert p[24..32] == LittleEndian(Bits64(nanos), 8);
    DecodeGuid(id);
    ValueOfLittleEndian(ms, 4);
    ValueOfLittleEndian(Bits64(nanos), 8);
  }

  function RawOf(f: Frame): RawFrame
    requires f.Valid()
  {
    RawFrame(f.TypeByte(), Payload(f))
  }

  lemma DecodeEncodedFrame(f: Frame)
    requires f.Valid()
    ensures DecodeRaw(RawOf(f)) == Ok(f)
  {
    match f
    case Tick(r) => DecodeEncodedTick(r);
    case Heartbeat(last, nanos) => DecodeHeartbeat(last, nanos);
    case SessionStart(id, ms, nanos) => DecodeSessionStart(id, ms, nanos);
  }

  // ---- framing ----

  lemma PayloadHeader(f: Frame)
    requires f.Valid()
    ensures Payload(f)[0] == CURRENT_VERSION && Payload(f)[1] == f.TypeByte()
    ensures ExpectedPayloadSize(f.TypeByte()) == Ok(|Payload(f)|)
  {
  }

  lemma FramePrefix(f: Frame)
    requires f.Valid()
    ensures Read32(EncodeFrame(f)[..LENGTH_PREFIX_SIZE]) == |Payload(f)|
  {
    var n := |Payload(f)|;
    assert EncodeFrame(f)[..LENGTH_PREFIX_SIZE] == LittleEndian(n, LENGTH_PREFIX_SIZE);
    ValueOfLittleEndian(n, LENGTH_PREFIX_SIZE);
  }

  /** A payload of the current version and of the size its type fixes. */
  predicate IsPayload(p: seq<byte>) {
    |p| >= 2 && p[0] == CURRENT_VERSION && ExpectedPayloadSize(p[1]) == Ok(|p|)
  }

  lemma PrefixSplits(n: nat, p: seq<byte>, rest: seq<byte>)
    requires n == |p| < Pow256(LENGTH_PREFIX_SIZE)
    ensures var buffer := LittleEndian(n, LENGTH_PREFIX_SIZE) + p + rest;
      && Read32(buffer[..LENGTH_PREFIX_SIZE]) == n
      && buffer[LENGTH_PREFIX_SIZE..LENGTH_PREFIX_SIZE + n] == p && buffer[LENGTH_PREFIX_SIZE + n..] == rest
  {
    var prefix := LittleEndian(n, LENGTH_PREFIX_SIZE);
    ValueOfLittleEndian(n, LENGTH_PREFIX_SIZE);
    assert (prefix + p + rest)[..LENGTH_PREFIX_SIZE] == prefix;
  }

  lemma ReadsPayload(buffer: seq<byte>, p: seq<byte>, rest: seq<byte>)
    requires |buffer| == LENGTH_PREFIX_SIZE + |p| + |rest| && Read32(buffer[..LENGTH_PREFIX_SIZE]) == |p|
    requires buffer[LENGTH_PREFIX_SIZE..LENGTH_PREFIX_SIZE + |p|] == p && buffer[LENGTH_PREFIX_SIZE + |p|..] == rest
    ensures if IsPayload(p) then TryReadFrame(buffer) == GotFrame(RawFrame(p[1], p), rest)
            else TryReadFrame(buffer).Corrupt?
  {
  }

  /** Bytes behind their length are read as a frame exactly when they are a payload, and then whole, leaving what
      follows; otherwise, being all there, they are corrupt. */
  lemma PayloadIsReadExactlyWhen(p: seq<byte>, rest: seq<byte>)
    requires |p| < Pow256(LENGTH_PREFIX_SIZE)
    ensures var r := TryReadFrame(LittleEndian(|p|, LENGTH_PREFIX_SIZE) + p + rest);
      if IsPayload(p) then r == GotFrame(RawFrame(p[1], p), rest) else r.Corrupt?
  {
    PrefixSplits(|p|, p, rest);
    ReadsPayload(LittleEndian(|p|, LENGTH_PREFIX_SIZE) + p + rest, p, rest);
  }

  /** An encoded frame is read back whole, whatever follows it in the buffer. */
  lemma ReadEncodedFrame(f: Frame, rest: seq<byte>)
    requires f.Valid()
    ensures TryReadFrame(EncodeFrame(f) + rest) == GotFrame(RawOf(f), rest)
  {
    var n := |Payload(f)|;
    var buffer := EncodeFrame(f) + rest;
    FramePrefix(f);
    PayloadHeader(f);
    assert buffer[..LENGTH_PREFIX_SIZE] == EncodeFrame(f)[..LENGTH_PREFIX_SIZE];
    assert buffer[LENGTH_PREFIX_SIZE..LENGTH_PREFIX_SIZE + n] == Payload(f);
    assert buffer[LENGTH_PREFIX_SIZE + n..] == rest;
  }

  /** A proper prefix of an encoded frame asks for more, and is never called corrupt. */
  lemma PartialFrameNeedsMore(f: Frame, k: nat)
    requires f.Valid() && k < |EncodeFrame(f)|
    ensures TryReadFrame(EncodeFrame(f)[..k]) == NeedMore
  {
    FramePrefix(f);
    if k >= LENGTH_PREFIX_SIZE {
      assert EncodeFrame(f)[..k][..LENGTH_PREFIX_SIZE] == EncodeFrame(f)[..LENGTH_PREFIX_SIZE];
    }
  }

  /** A verdict other than "need more" is not changed by bytes that arrive later. */
  lemma VerdictIsStable(buffer: seq<byte>, later: seq<byte>)
    requires !TryReadFrame(buffer).NeedMore?
    ensures TryReadFrame(buffer + later) == TryReadFrame(buffer).WithMore(later)
  {
    var all := buffer + later;
    assert all[..LENGTH_PREFIX_SIZE] == buffer[..LENGTH_PREFIX_SIZE];
    var n := Read32(buffer[..LENGTH_PREFIX_SIZE]);
    if MIN_PAYLOAD_SIZE <= n <= MAX_PAYLOAD_SIZE {
      assert all[LENGTH_PREFIX_SIZE..LENGTH_PREFIX_SIZE + n] == buffer[LENGTH_PREFIX_SIZE..LENGTH_PREFIX_SIZE + n];
      assert all[LENGTH_PREFIX_SIZE + n..] == buffer[LENGTH_PREFIX_SIZE + n..] + later;
    }
  }

  /** A frame that was read is exactly the bytes it came from. */
  lemma ReadFrameIsItsBytes(buffer: seq<byte>)
    requires TryReadFrame(buffer).GotFrame?
    ensures var r := TryReadFrame(buffer);
      && buffer == LittleEndian(|r.frame.payload|, LENGTH_PREFIX_SIZE) + r.frame.payload + r.rest
      && ExpectedPayloadSize(r.frame.messageType) == Ok(|r.frame.payload|)
  {
    LittleEndianOfValue(buffer[..LENGTH_PREFIX_SIZE]);
    var n := Read32(buffer[..LENGTH_PREFIX_SIZE]);
    assert buffer == buffer[..LENGTH_PREFIX_SIZE] + buffer[LENGTH_PREFIX_SIZE..LENGTH_PREFIX_SIZE + n]
                     + buffer[LENGTH_PREFIX_SIZE + n..];
  }

  /** What the writer for a frame's type stores. */
  function Written(f: Frame): seq<byte>
    requires f.Valid()
  {
    match f
    case Tick(r) => EncodeTick(r)
    case Heartbeat(last, nanos) => EncodeHeartbeat(last, nanos)
    case SessionStart(id, ms, nanos) => EncodeSessionStart(id, ms, nanos)
  }

  lemma WrittenIsEncoded(f: Frame)
    requires f.Valid()
    ensures Written(f) == EncodeFrame(f)
  {
    FrameEncodings(f);
  }

  lemma StoredTail(now: seq<byte>, was: seq<byte>, at: nat, done: seq<byte>)
    requires Stored(now, was, at, done)
    ensures |now| == |was| && now[at..] == done + was[at + |done|..]
  {
  }

  /** A frame stored anywhere in a span, by the writer for its type, is what the reader finds there: whole, leaving
      what is behind it, and decoding to the frame that was written. */
  lemma WrittenFrameReadsBack(now: seq<byte>, was: seq<byte>, at: nat, f: Frame)
    requires f.Valid() && Stored(now, was, at, Written(f))
    ensures |now| == |was| && at + |Written(f)| <= |was|
    ensures TryReadFrame(now[at..]) == GotFrame(RawOf(f), was[at + |Written(f)|..])
    ensures DecodeRaw(RawOf(f)) == Ok(f)
  {
    StoredTail(now, was, at, Written(f));
    WrittenIsEncoded(f);
    ReadEncodedFrame(f, was[at + |Written(f)|..]);
    DecodeEncodedFrame(f);
  }
}

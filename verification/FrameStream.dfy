/** What a consumer gets out of a byte stream that arrives in arbitrary pieces. */
module FrameStream {
  import opened Bytes
  import opened FeedRecords
  import opened FeedFrameWriter
  import opened FeedFrameReader

  type Reader = seq<byte> -> ReadOutcome

  ghost predicate Shrinking(read: Reader) {
    forall b :: read(b).GotFrame? ==> |read(b).rest| < |b|
  }

  ghost predicate StableAt(read: Reader, b: seq<byte>, later: seq<byte>) {
    !read(b).NeedMore? ==> read(b + later) == read(b).WithMore(later)
  }

  /** Later bytes never change a verdict already reached. */
  ghost predicate Stable(read: Reader) {
    forall b, later :: StableAt(read, b, later)
  }

  /** Everything a read loop takes out of a buffer before it needs more or gives up. */
  datatype Drained = Drained(frames: seq<RawFrame>, rest: seq<byte>, failed: bool) {
    function Then(later: Drained): Drained {
      Drained(frames + later.frames, later.rest, later.failed)
    }
  }

  ghost function DrainWith(read: Reader, buffer: seq<byte>): Drained
    requires Shrinking(read)
    decreases |buffer|
  {
    match read(buffer)
    case NeedMore => Drained([], buffer, false)
    case Corrupt(_) => Drained([], buffer, true)
    case GotFrame(f, rest) => Drained([f], rest, false).Then(DrainWith(read, rest))
  }

  /** A reader that carries its unread bytes from one chunk to the next, and stops at the first error. */
  ghost function DrainChunksWith(read: Reader, carry: seq<byte>, chunks: seq<seq<byte>>): Drained
    requires Shrinking(read)
    decreases |chunks|
  {
    var d := DrainWith(read, carry);
    if d.failed || chunks == [] then d
    else d.Then(DrainChunksWith(read, d.rest + chunks[0], chunks[1..]))
  }

  function Join(chunks: seq<seq<byte>>): seq<byte> {
    if chunks == [] then [] else chunks[0] + Join(chunks[1..])
  }

  /** Reading on from `d` gives `tail` and, with it, `all`; nothing is read on from an error. */
  ghost predicate Extends(d: Drained, all: Drained, tail: Drained) {
    if d.failed then all.failed && all.frames == d.frames else all == d.Then(tail)
  }

  lemma ExtendsBehind(first: Drained, same: Drained, d: Drained, all: Drained, tail: Drained)
    requires Extends(d, all, tail) && same.frames == first.frames
    ensures Extends(first.Then(d), same.Then(all), tail)
  {
  }

  lemma {:induction false} DrainExtends(read: Reader, buffer: seq<byte>, later: seq<byte>)
    requires Shrinking(read) && Stable(read)
    ensures var d := DrainWith(read, buffer);
      Extends(d, DrainWith(read, buffer + later), DrainWith(read, d.rest + later))
    decreases |buffer|
  {
    assert StableAt(read, buffer, later);
    match read(buffer) {
      case NeedMore =>
      case Corrupt(_) =>
      case GotFrame(f, rest) =>
        DrainExtends(read, rest, later);
        var d := DrainWith(read, rest);
        ExtendsBehind(Drained([f], rest, false), Drained([f], rest + later, false), d, DrainWith(read, rest + later),
                      DrainWith(read, d.rest + later));
    }
  }

  /** The same frames and verdict, and while there is no error the same bytes left over. */
  ghost predicate Agree(c: Drained, d: Drained) {
    c.frames == d.frames && c.failed == d.failed && (!d.failed ==> c.rest == d.rest)
  }

  lemma AgreeThen(first: Drained, c: Drained, d: Drained)
    requires Agree(c, d)
    ensures Agree(first.Then(c), first.Then(d))
  {
  }

  lemma {:induction false} ChunksJoin(read: Reader, carry: seq<byte>, chunks: seq<seq<byte>>)
    requires Shrinking(read) && Stable(read)
    ensures Agree(DrainChunksWith(read, carry, chunks), DrainWith(read, carry + Join(chunks)))
    decreases |chunks|
  {
    var first := DrainWith(read, carry);
    DrainExtends(read, carry, Join(chunks));
    if chunks == [] {
      assert carry + Join(chunks) == carry;
    } else if !first.failed {
      var carried := first.rest + chunks[0];
      ChunksJoin(read, carried, chunks[1..]);
      assert first.rest + Join(chunks) == carried + Join(chunks[1..]);
      AgreeThen(first, DrainChunksWith(read, carried, chunks[1..]), DrainWith(read, carried + Join(chunks[1..])));
    }
  }

  /** `code` is read back as `raw` whatever follows it, and no proper prefix of it is a verdict. */
  ghost predicate ReadsBack(read: Reader, code: seq<byte>, raw: RawFrame) {
    && (forall rest :: read(code + rest) == GotFrame(raw, rest))
    && (forall part :: part < code ==> read(part).NeedMore?)
  }

  /** How many whole pieces fit in the first `k` bytes of the pieces laid end to end. */
  function WholePieces(codes: seq<seq<byte>>, k: nat): (n: nat)
    ensures n <= |codes|
  {
    if codes == [] || k < |codes[0]| then 0 else 1 + WholePieces(codes[1..], k - |codes[0]|)
  }

  /** `d` is what reading `wire`, cut from the front of the joined `codes`, should give. */
  ghost predicate CutAt(d: Drained, codes: seq<seq<byte>>, raws: seq<RawFrame>, wire: seq<byte>, n: nat)
    requires n <= |codes| == |raws|
  {
    && d.frames == raws[..n]
    && !d.failed
    && wire == Join(codes[..n]) + d.rest
    && (n < |codes| ==> d.rest < codes[n])
    && (n == |codes| ==> d.rest == [])
  }

  lemma CutStep(codes: seq<seq<byte>>, raws: seq<RawFrame>, tail: seq<byte>, d: Drained, n: nat)
    requires codes != [] && n < |codes| == |raws|
    requires CutAt(d, codes[1..], raws[1..], tail, n)
    ensures CutAt(Drained([raws[0]], tail, false).Then(d), codes, raws, codes[0] + tail, n + 1)
  {
    var rest := codes[1..];
    assert codes[..n + 1] == [codes[0]] + rest[..n];
    assert codes[..n + 1][1..] == rest[..n];
    assert raws[..n + 1] == [raws[0]] + raws[1..][..n];
    assert codes[0] + tail == codes[0] + Join(rest[..n]) + d.rest;
  }

  lemma JoinTail(codes: seq<seq<byte>>, wire: seq<byte>)
    requires codes != [] && wire <= Join(codes) && |wire| >= |codes[0]|
    ensures wire == codes[0] + wire[|codes[0]|..] && wire[|codes[0]|..] <= Join(codes[1..])
  {
    var all := codes[0] + Join(codes[1..]);
    assert wire == all[..|wire|];
  }

  lemma ShortOfFirst(codes: seq<seq<byte>>, wire: seq<byte>)
    requires codes != [] && wire <= Join(codes) && |wire| < |codes[0]|
    ensures wire < codes[0] && Join(codes[..0]) == []
  {
    assert wire == Join(codes)[..|wire|] == codes[0][..|wire|];
    assert codes[..0] == [];
  }

  /** Cutting a stream of pieces anywhere loses only the piece the cut falls inside. */
  lemma {:induction false} DrainPrefix(read: Reader, codes: seq<seq<byte>>, raws: seq<RawFrame>, wire: seq<byte>)
    requires Shrinking(read) && |codes| == |raws| && wire <= Join(codes)
    requires read([]).NeedMore?
    requires forall i | 0 <= i < |codes| :: ReadsBack(read, codes[i], raws[i])
    ensures CutAt(DrainWith(read, wire), codes, raws, wire, WholePieces(codes, |wire|))
    decreases |codes|
  {
    if codes == [] {
      assert wire == [];
    } else if |wire| < |codes[0]| {
      assert ReadsBack(read, codes[0], raws[0]);
      ShortOfFirst(codes, wire);
    } else {
      JoinTail(codes, wire);
      var tail := wire[|codes[0]|..];
      assert read(codes[0] + tail) == GotFrame(raws[0], tail) by {
        assert ReadsBack(read, codes[0], raws[0]);
      }
      DrainPrefix(read, codes[1..], raws[1..], tail);
      CutStep(codes, raws, tail, DrainWith(read, tail), WholePieces(codes[1..], |tail|));
    }
  }

  lemma {:induction false} WholeStream(codes: seq<seq<byte>>)
    ensures WholePieces(codes, |Join(codes)|) == |codes|
  {
    if codes != [] {
      WholeStream(codes[1..]);
    }
  }

  // ---- the feed's own frames ----

  function FeedReader(): Reader {
    (b: seq<byte>) => TryReadFrame(b)
  }

  lemma FeedReaderIsSound()
    ensures Shrinking(FeedReader()) && Stable(FeedReader())
  {
    forall b: seq<byte>, later: seq<byte> | !FeedReader()(b).NeedMore?
      ensures FeedReader()(b + later) == FeedReader()(b).WithMore(later)
    {
      VerdictIsStable(b, later);
    }
  }

  ghost function Drain(buffer: seq<byte>): Drained {
    FeedReaderIsSound();
    DrainWith(FeedReader(), buffer)
  }

  ghost function DrainChunks(carry: seq<byte>, chunks: seq<seq<byte>>): Drained {
    FeedReaderIsSound();
    DrainChunksWith(FeedReader(), carry, chunks)
  }

  /** However a byte stream is cut into chunks, well formed or not, the same frames come out of it,
      the same unread tail is left, and it fails at the same frame or not at all. */
  lemma ChunkingIsInvisible(carry: seq<byte>, chunks: seq<seq<byte>>)
    ensures var c := DrainChunks(carry, chunks); var d := Drain(carry + Join(chunks));
      && c.frames == d.frames && c.failed == d.failed
      && (!d.failed ==> c.rest == d.rest)
  {
    FeedReaderIsSound();
    ChunksJoin(FeedReader(), carry, chunks);
  }

  function RawsOf(frames: seq<Frame>): (raws: seq<RawFrame>)
    requires AllValid(frames)
    ensures |raws| == |frames|
    ensures forall i | 0 <= i < |frames| :: raws[i] == RawOf(frames[i])
  {
    seq(|frames|, i requires 0 <= i < |frames| => RawOf(frames[i]))
  }

  function CodesOf(frames: seq<Frame>): (codes: seq<seq<byte>>)
    requires AllValid(frames)
    ensures |codes| == |frames|
    ensures forall i | 0 <= i < |frames| :: codes[i] == EncodeFrame(frames[i])
  {
    seq(|frames|, i requires 0 <= i < |frames| => EncodeFrame(frames[i]))
  }

  /** The bytes a list of frames travels as. */
  function EncodeAll(frames: seq<Frame>): seq<byte>
    requires AllValid(frames)
  {
    Join(CodesOf(frames))
  }

  /** How many whole frames the first `k` bytes of an encoded list hold. */
  function WholeFrames(frames: seq<Frame>, k: nat): (n: nat)
    requires AllValid(frames)
    ensures n <= |frames|
  {
    WholePieces(CodesOf(frames), k)
  }

  lemma FrameReadsBack(f: Frame)
    requires f.Valid()
    ensures ReadsBack(FeedReader(), EncodeFrame(f), RawOf(f))
  {
    forall rest ensures FeedReader()(EncodeFrame(f) + rest) == GotFrame(RawOf(f), rest) {
      ReadEncodedFrame(f, rest);
    }
    forall part | part < EncodeFrame(f) ensures FeedReader()(part).NeedMore? {
      PartialFrameNeedsMore(f, |part|);
      assert part == EncodeFrame(f)[..|part|];
    }
  }

  /** Whatever part of an encoded list has arrived, exactly its whole frames come out, the tail is a
      proper prefix of the next frame, and nothing is reported corrupt. */
  lemma DrainEncodedPrefix(frames: seq<Frame>, wire: seq<byte>)
    requires AllValid(frames) && wire <= EncodeAll(frames)
    ensures var n := WholeFrames(frames, |wire|); var d := Drain(wire);
      && d.frames == RawsOf(frames[..n]) && !d.failed
      && (n < |frames| ==> d.rest < EncodeFrame(frames[n]))
      && (n == |frames| ==> d.rest == [])
  {
    FeedReaderIsSound();
    forall i | 0 <= i < |frames| ensures ReadsBack(FeedReader(), CodesOf(frames)[i], RawsOf(frames)[i]) {
      FrameReadsBack(frames[i]);
    }
    DrainPrefix(FeedReader(), CodesOf(frames), RawsOf(frames), wire);
    var n := WholeFrames(frames, |wire|);
    assert RawsOf(frames)[..n] == RawsOf(frames[..n]);
  }

  /** Any chunking of any encoded frame list gives back exactly those frames, with nothing left over. */
  lemma StreamRoundTrip(frames: seq<Frame>, chunks: seq<seq<byte>>)
    requires AllValid(frames) && Join(chunks) == EncodeAll(frames)
    ensures DrainChunks([], chunks) == Drained(RawsOf(frames), [], false)
    ensures forall i | 0 <= i < |frames| :: DecodeRaw(RawsOf(frames)[i]) == Ok(frames[i])
  {
    ChunkingIsInvisible([], chunks);
    assert [] + Join(chunks) == EncodeAll(frames);
    DrainEncodedPrefix(frames, EncodeAll(frames));
    WholeStream(CodesOf(frames));
    assert frames[..|frames|] == frames;
    forall i | 0 <= i < |frames| ensures DecodeRaw(RawsOf(frames)[i]) == Ok(frames[i]) {
      DecodeEncodedFrame(frames[i]);
    }
  }
}

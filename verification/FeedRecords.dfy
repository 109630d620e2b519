/** The tick record and the eight-byte symbol field it carries. */
module FeedRecords {
  import opened Bytes

  datatype WireError =
    | LengthOutOfRange
    | UnsupportedVersion
    | UnknownType
    | LengthMismatch
    | WrongPayloadSize
    | WrongType
    | NotATick
    | BufferTooSmall
    | WrongFieldLength
    | EmptySymbol
    | UnprintableSymbol
    | EmbeddedSpace
    | BadSymbolText

  datatype Result<+T> = Ok(value: T) | Err(error: WireError)

  const TRADE: byte := 1
  const BID_QUOTE: byte := 2
  const ASK_QUOTE: byte := 3
  const HEARTBEAT: byte := 10
  const SESSION_START: byte := 11
  const CURRENT_VERSION: byte := 1
  const SYMBOL_LENGTH := 8
  const PADDING: byte := 0x20

  predicate IsTickType(t: byte) {
    t == TRADE || t == BID_QUOTE || t == ASK_QUOTE
  }

  predicate Printable(b: int) {
    0x21 <= b <= 0x7E
  }

  /** A symbol in wire form, packed little-endian into one word. */
  datatype Symbol8 = Symbol8(packed: uint64) {
    function WireBytes(): (s: seq<byte>)
      ensures |s| == SYMBOL_LENGTH
    {
      LittleEndian(packed, SYMBOL_LENGTH)
    }

    /** Characters before the padding. */
    function TrimmedLength(): (n: nat)
      ensures n <= SYMBOL_LENGTH
    {
      IndexOfPadding(WireBytes())
    }

    function Text(): seq<byte> {
      WireBytes()[..TrimmedLength()]
    }
  }

  datatype FeedRecord = FeedRecord(
    messageType: byte,
    flags: uint16,
    quantity: uint32,
    sequenceNumber: uint64,
    exchangeTimestampNanos: int64,
    priceScaled: int64,
    symbol: Symbol8)

  /** Position of the first padding byte, or the length when there is none. */
  function IndexOfPadding(s: seq<byte>): (n: nat)
    ensures n <= |s|
    ensures forall i | 0 <= i < n :: s[i] != PADDING
    ensures n < |s| ==> s[n] == PADDING
  {
    if s == [] || s[0] == PADDING then 0 else 1 + IndexOfPadding(s[1..])
  }

  /** One to eight printable characters followed by nothing but padding. */
  predicate WellPadded(s: seq<byte>) {
    && |s| == SYMBOL_LENGTH
    && exists n | 0 < n <= |s| :: PaddedAt(s, n)
  }

  predicate PaddedAt(s: seq<byte>, n: nat)
    requires n <= |s|
  {
    && (forall i | 0 <= i < n :: Printable(s[i]))
    && (forall i | n <= i < |s| :: s[i] == PADDING)
  }

  lemma {:induction false} PaddingStartsAt(s: seq<byte>, n: nat)
    requires n <= |s| && PaddedAt(s, n)
    ensures IndexOfPadding(s) == n
  {
    if n > 0 {
      assert Printable(s[0]);
      assert PaddedAt(s[1..], n - 1) by {
        assert forall i | 0 <= i < n - 1 :: s[1..][i] == s[i + 1];
      }
      PaddingStartsAt(s[1..], n - 1);
    }
  }

  /** What a symbol field decodes to, and which rule it breaks first when it does not. */
  function DecodeSymbol(field: seq<byte>): (r: Result<Symbol8>)
    ensures r.Ok? <==> WellPadded(field)
    ensures r.Ok? ==> r.value.WireBytes() == field
  {
    if |field| != SYMBOL_LENGTH then Err(WrongFieldLength) else
    var n := IndexOfPadding(field);
    if n == 0 then Err(EmptySymbol)
    else if exists i | 0 <= i < n :: !Printable(field[i]) then Err(UnprintableSymbol)
    else if exists i | n <= i < |field| :: field[i] != PADDING then Err(EmbeddedSpace)
    else
      assert PaddedAt(field, n);
      LittleEndianOfValue(field);
      Ok(Symbol8(Read64(field)))
  }

  /** The field a symbol text occupies: its characters, right-padded. */
  function PadText(text: seq<byte>): (field: seq<byte>)
    requires |text| <= SYMBOL_LENGTH
    ensures |field| == SYMBOL_LENGTH
  {
    text + seq(SYMBOL_LENGTH - |text|, _ => PADDING)
  }

  predicate ListableText(text: seq<int>) {
    0 < |text| <= SYMBOL_LENGTH && forall i | 0 <= i < |text| :: Printable(text[i])
  }

  lemma PaddedFieldText(field: seq<byte>, text: seq<int>)
    requires ListableText(text) && |field| == SYMBOL_LENGTH
    requires forall j | 0 <= j < |text| :: field[j] == text[j]
    requires forall j | |text| <= j < |field| :: field[j] == PADDING
    ensures WellPadded(field) && Symbol8(Read64(field)).WireBytes() == field
    ensures Symbol8(Read64(field)).Text() == text
  {
    LittleEndianOfValue(field);
    assert PaddedAt(field, |text|);
    PaddingStartsAt(field, |text|);
  }

  method FromAscii(text: seq<int>) returns (r: Result<Symbol8>)
    ensures r.Ok? <==> ListableText(text)
    ensures r.Ok? ==> WellPadded(r.value.WireBytes()) && r.value.Text() == text
    ensures r.Err? ==> r.error == BadSymbolText
  {
    if |text| == 0 || |text| > SYMBOL_LENGTH {
      return Err(BadSymbolText);
    }
    var bytes := new byte[SYMBOL_LENGTH](_ => PADDING);
    for i := 0 to |text|
      invariant forall j | 0 <= j < i :: Printable(text[j]) && bytes[j] == text[j]
      invariant forall j | i <= j < SYMBOL_LENGTH :: bytes[j] == PADDING
    {
      if !Printable(text[i]) {
        return Err(BadSymbolText);
      }
      bytes[i] := text[i];
    }
    var field := bytes[..];
    PaddedFieldText(field, text);
    r := Ok(Symbol8(Read64(field)));
  }

  method FromWire(source: seq<byte>) returns (r: Result<Symbol8>)
    ensures r == DecodeSymbol(source)
  {
    if |source| != SYMBOL_LENGTH {
      return Err(WrongFieldLength);
    }
    var end := IndexOfPadding(source);
    if end == 0 {
      return Err(EmptySymbol);
    }
    for i := 0 to end
      invariant forall j | 0 <= j < i :: Printable(source[j])
    {
      if !Printable(source[i]) {
        return Err(UnprintableSymbol);
      }
    }
    for i := end to SYMBOL_LENGTH
      invariant forall j | end <= j < i :: source[j] == PADDING
    {
      if source[i] != PADDING {
        return Err(EmbeddedSpace);
      }
    }
    r := Ok(Symbol8(Read64(source)));
  }

  /** A symbol read off the wire is the one whose text was listed, and no other. */
  lemma SymbolFieldsNameOneText(a: Symbol8, b: Symbol8)
    requires WellPadded(a.WireBytes()) && WellPadded(b.WireBytes())
    ensures a == b <==> a.Text() == b.Text()
  {
    ValueOfLittleEndian(a.packed, SYMBOL_LENGTH);
    ValueOfLittleEndian(b.packed, SYMBOL_LENGTH);
    if a.Text() == b.Text() {
      FieldFromText(a.WireBytes());
      FieldFromText(b.WireBytes());
    }
  }

  lemma FieldFromText(field: seq<byte>)
    requires WellPadded(field)
    ensures field == PadText(field[..IndexOfPadding(field)])
  {
    var n :| 0 < n <= |field| && PaddedAt(field, n);
    PaddingStartsAt(field, n);
  }
}

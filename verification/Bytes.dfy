/** Fixed-width integers and their little-endian wire form. */
module Bytes {
  import opened Divisibility

  type byte = x: int | 0 <= x < 0x100
  type uint16 = x: int | 0 <= x < 0x1_0000
  type uint32 = x: int | 0 <= x < 0x1_0000_0000
  type uint64 = x: int | 0 <= x < 0x1_0000_0000_0000_0000
  type int64 = x: int | -0x8000_0000_0000_0000 <= x < 0x8000_0000_0000_0000

  function Pow256(n: nat): (p: nat)
    ensures p > 0
  {
    if n == 0 then 1 else 256 * Pow256(n - 1)
  }

  /** The low `width` bytes of `v`, least significant first. */
  function LittleEndian(v: nat, width: nat): (s: seq<byte>)
    ensures |s| == width
  {
    if width == 0 then [] else [v % 256] + LittleEndian(v / 256, width - 1)
  }

  function LittleEndianValue(s: seq<byte>): nat {
    if s == [] then 0 else s[0] + 256 * LittleEndianValue(s[1..])
  }

  /** The byte at each place: the one that many powers of 256 up. */
  lemma {:induction false} LittleEndianAt(v: nat, width: nat, k: nat)
    requires k < width
    ensures LittleEndian(v, width)[k] == v / Pow256(k) % 256
  {
    if k > 0 {
      LittleEndianAt(v / 256, width - 1, k - 1);
      DivideTwice(v, Pow256(k - 1));
    }
  }

  lemma DivideTwice(v: nat, p: nat)
    requires p > 0
    ensures v / 256 / p == v / (256 * p)
  {
    var a, r := v / 256, v % 256;
    var q, m := a / p, a % p;
    assert a == q * p + m && v == a * 256 + r;
    assert v == q * (256 * p) + (m * 256 + r);
    assert m * 256 + r < 256 * p;
    QuotientIs(v, 256 * p, q, m * 256 + r);
  }

  lemma QuotientIs(v: nat, d: nat, q: nat, rest: nat)
    requires d > 0 && v == q * d + rest && rest < d
    ensures v / d == q
  {
    var r := v / d;
    ModUnique(v, d, q, rest);
    assert (r - q) * d == 0;
    if r != q {
      NonzeroMultiple(r - q, d);
    }
  }

  lemma {:induction false} ValueOfLittleEndian(v: nat, width: nat)
    requires v < Pow256(width)
    ensures LittleEndianValue(LittleEndian(v, width)) == v
  {
    if width > 0 {
      assert LittleEndian(v, width)[1..] == LittleEndian(v / 256, width - 1);
      ValueOfLittleEndian(v / 256, width - 1);
    }
  }

  lemma {:induction false} LittleEndianOfValue(s: seq<byte>)
    ensures LittleEndianValue(s) < Pow256(|s|)
    ensures LittleEndian(LittleEndianValue(s), |s|) == s
  {
    if s != [] {
      LittleEndianOfValue(s[1..]);
      var v := LittleEndianValue(s);
      assert v % 256 == s[0] && v / 256 == LittleEndianValue(s[1..]);
    }
  }

  /** The two's-complement bit pattern of a signed 64-bit value. */
  function Bits64(x: int64): uint64 {
    if x < 0 then x + 0x1_0000_0000_0000_0000 else x
  }

  function Signed64(u: uint64): int64 {
    if u < 0x8000_0000_0000_0000 then u else u - 0x1_0000_0000_0000_0000
  }

  // BinaryPrimitives reads and writes, at the widths the feed uses.
  function Read16(s: seq<byte>): uint16
    requires |s| == 2
  {
    LittleEndianOfValue(s);
    LittleEndianValue(s)
  }

  function Read32(s: seq<byte>): uint32
    requires |s| == 4
  {
    LittleEndianOfValue(s);
    LittleEndianValue(s)
  }

  function Read64(s: seq<byte>): uint64
    requires |s| == 8
  {
    LittleEndianOfValue(s);
    LittleEndianValue(s)
  }

  function BigEndian(v: nat, width: nat): (s: seq<byte>)
    ensures |s| == width
  {
    if width == 0 then [] else BigEndian(v / 256, width - 1) + [v % 256]
  }

  function BigEndianValue(s: seq<byte>): nat {
    if s == [] then 0 else 256 * BigEndianValue(s[..|s| - 1]) + s[|s| - 1]
  }

  /** Most significant first. */
  lemma {:induction false} BigEndianAt(v: nat, width: nat, k: nat)
    requires k < width
    ensures BigEndian(v, width)[width - 1 - k] == v / Pow256(k) % 256
  {
    if k > 0 {
      BigEndianAt(v / 256, width - 1, k - 1);
      DivideTwice(v, Pow256(k - 1));
    }
  }

  lemma BigEndianValueAppend(s: seq<byte>, last: byte)
    ensures BigEndianValue(s + [last]) == BigEndianValue(s) * 256 + last
  {
    assert (s + [last])[..|s|] == s;
  }

  lemma {:induction false} ValueOfBigEndian(v: nat, width: nat)
    requires v < Pow256(width)
    ensures BigEndianValue(BigEndian(v, width)) == v
  {
    if width > 0 {
      assert v / 256 < Pow256(width - 1);
      ValueOfBigEndian(v / 256, width - 1);
      BigEndianValueAppend(BigEndian(v / 256, width - 1), v % 256);
    }
  }

  lemma {:induction false} BigEndianOfValue(s: seq<byte>)
    ensures BigEndianValue(s) < Pow256(|s|)
    ensures BigEndian(BigEndianValue(s), |s|) == s
  {
    if s != [] {
      BigEndianOfValue(s[..|s| - 1]);
      var v := BigEndianValue(s);
      assert v % 256 == s[|s| - 1] && v / 256 == BigEndianValue(s[..|s| - 1]);
      assert s == s[..|s| - 1] + [s[|s| - 1]];
    }
  }

  /** A span `now` that differs from `was` only in holding `done` from position `at` on. */
  ghost predicate Stored(now: seq<byte>, was: seq<byte>, at: nat, done: seq<byte>) {
    && at + |done| <= |was|
    && now == was[..at] + done + was[at + |done|..]
  }

  /** Stores one field behind the `done` bytes already written from position `at`. */
  method Append(destination: array<byte>, at: nat, ghost was: seq<byte>, ghost done: seq<byte>,
                offset: nat, field: seq<byte>)
    requires Stored(destination[..], was, at, done)
    requires offset == at + |done| && offset + |field| <= destination.Length
    modifies destination
    ensures Stored(destination[..], was, at, done + field)
  {
    for i := 0 to |field|
      invariant Stored(destination[..], was, at, done + field[..i])
    {
      ghost var before := destination[..];
      destination[offset + i] := field[i];
      assert destination[..] == before[offset + i := field[i]];
      assert field[..i + 1] == field[..i] + [field[i]];
      AppendOne(before, was, at, done + field[..i], field[i]);
      assert done + field[..i + 1] == done + field[..i] + [field[i]];
    }
    assert field[..|field|] == field;
  }

  lemma AppendOne(now: seq<byte>, was: seq<byte>, at: nat, done: seq<byte>, b: byte)
    requires Stored(now, was, at, done) && at + |done| < |was|
    ensures Stored(now[at + |done| := b], was, at, done + [b])
  {
  }
}

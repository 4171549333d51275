/** Big-endian integers, the BigSize integers of BOLT #1 and length-prefixed strings, with their readers. */
module ByteCodec {
  import opened Wrappers
  import opened GossipTypes

  function Pow256(k: nat): (p: nat)
    ensures p > 0
  {
    if k == 0 then 1 else 256 * Pow256(k - 1)
  }

  function BigEndian(n: nat, width: nat): (s: Bytes)
    ensures |s| == width
  {
    if width == 0 then [] else BigEndian(n / 256, width - 1) + [n % 256]
  }

  function FromBigEndian(s: Bytes): nat {
    if s == [] then 0 else FromBigEndian(s[..|s| - 1]) * 256 + s[|s| - 1]
  }

  lemma {:induction false} BigEndianRoundTrip(n: nat, width: nat)
    requires n < Pow256(width)
    ensures FromBigEndian(BigEndian(n, width)) == n
  {
    if width > 0 {
      BigEndianRoundTrip(n / 256, width - 1);
      var s := BigEndian(n, width);
      assert s[..|s| - 1] == BigEndian(n / 256, width - 1);
    }
  }

  lemma {:induction false} FromBigEndianBound(s: Bytes)
    ensures FromBigEndian(s) < Pow256(|s|)
  {
    if s != [] {
      FromBigEndianBound(s[..|s| - 1]);
    }
  }

  lemma {:induction false} BigEndianInverse(s: Bytes)
    ensures BigEndian(FromBigEndian(s), |s|) == s
  {
    if s != [] {
      BigEndianInverse(s[..|s| - 1]);
    }
  }

  lemma Widths()
    ensures Pow256(1) == 0x100 && Pow256(2) == 0x1_0000
    ensures Pow256(4) == 0x1_0000_0000 && Pow256(8) == 0x1_0000_0000_0000_0000
  {
    assert Pow256(3) == 0x100_0000;
    assert Pow256(5) == 0x100_0000_0000;
    assert Pow256(6) == 0x1_0000_0000_0000;
    assert Pow256(7) == 0x100_0000_0000_0000;
  }

  /** Reads a big-endian integer off the front of `s`. */
  function ReadInt(width: nat, s: Bytes): (r: Option<(nat, Bytes)>)
    ensures r.Some? <==> width <= |s|
    ensures r.Some? ==> r.value.0 < Pow256(width) && |r.value.1| == |s| - width
  {
    if |s| < width then None
    else
      FromBigEndianBound(s[..width]);
      Some((FromBigEndian(s[..width]), s[width..]))
  }

  lemma ReadWrittenInt(n: nat, width: nat, rest: Bytes)
    requires n < Pow256(width)
    ensures ReadInt(width, BigEndian(n, width) + rest) == Some((n, rest))
  {
    var s := BigEndian(n, width) + rest;
    assert s[..width] == BigEndian(n, width) && s[width..] == rest;
    BigEndianRoundTrip(n, width);
  }

  function WriteU16(n: U16): (s: Bytes) ensures |s| == 2 { BigEndian(n, 2) }
  function WriteU32(n: U32): (s: Bytes) ensures |s| == 4 { BigEndian(n, 4) }
  function WriteU64(n: U64): (s: Bytes) ensures |s| == 8 { BigEndian(n, 8) }

  function ReadU8(s: Bytes): Option<(U8, Bytes)> {
    if s == [] then None else Some((s[0], s[1..]))
  }

  function ReadU16(s: Bytes): Option<(U16, Bytes)> {
    Widths();
    var (n, rest) :- ReadInt(2, s);
    Some((n, rest))
  }

  function ReadU32(s: Bytes): Option<(U32, Bytes)> {
    Widths();
    var (n, rest) :- ReadInt(4, s);
    Some((n, rest))
  }

  function ReadU64(s: Bytes): Option<(U64, Bytes)> {
    Widths();
    var (n, rest) :- ReadInt(8, s);
    Some((n, rest))
  }

  lemma ReadWrittenU16(n: U16, rest: Bytes)
    ensures ReadU16(WriteU16(n) + rest) == Some((n, rest))
  {
    Widths();
    ReadWrittenInt(n, 2, rest);
  }

  lemma ReadWrittenU32(n: U32, rest: Bytes)
    ensures ReadU32(WriteU32(n) + rest) == Some((n, rest))
  {
    Widths();
    ReadWrittenInt(n, 4, rest);
  }

  lemma ReadWrittenU64(n: U64, rest: Bytes)
    ensures ReadU64(WriteU64(n) + rest) == Some((n, rest))
  {
    Widths();
    ReadWrittenInt(n, 8, rest);
  }

  /** BigSize of BOLT #1, "Fundamental Types": the shortest of four forms, big-endian. */
  function WriteBigSize(n: U64): (s: Bytes)
    ensures 1 <= |s| <= 9
  {
    if n < 0xFD then [n]
    else if n < 0x1_0000 then [0xFD] + WriteU16(n)
    else if n < 0x1_0000_0000 then [0xFE] + WriteU32(n)
    else [0xFF] + WriteU64(n)
  }

  /** The reader of BOLT #1, "Appendix A: BigSize Test Vectors", which refuses a longer form than needed. */
  function ReadBigSize(s: Bytes): Option<(U64, Bytes)> {
    var (tag, rest) :- ReadU8(s);
    if tag < 0xFD then Some((tag, rest))
    else if tag == 0xFD then
      var (n, rest) :- ReadU16(rest);
      if n < 0xFD then None else Some((n, rest))
    else if tag == 0xFE then
      var (n, rest) :- ReadU32(rest);
      if n < 0x1_0000 then None else Some((n, rest))
    else
      var (n, rest) :- ReadU64(rest);
      if n < 0x1_0000_0000 then None else Some((n, rest))
  }

  lemma ReadWrittenBigSize(n: U64, rest: Bytes)
    ensures ReadBigSize(WriteBigSize(n) + rest) == Some((n, rest))
  {
    hide WriteU16, WriteU32, WriteU64, ReadU16, ReadU32, ReadU64;
    var s := WriteBigSize(n) + rest;
    if n < 0xFD {
      assert s[1..] == rest;
    } else if n < 0x1_0000 {
      assert s[1..] == WriteU16(n) + rest;
      ReadWrittenU16(n, rest);
    } else if n < 0x1_0000_0000 {
      assert s[1..] == WriteU32(n) + rest;
      ReadWrittenU32(n, rest);
    } else {
      assert s[1..] == WriteU64(n) + rest;
      ReadWrittenU64(n, rest);
    }
  }

  lemma IntCanonical(width: nat, s: Bytes)
    requires ReadInt(width, s).Some?
    ensures var (n, rest) := ReadInt(width, s).value; s == BigEndian(n, width) + rest
  {
    BigEndianInverse(s[..width]);
  }

  /** BigSize is canonical: whatever the reader accepts is what the writer writes. */
  lemma BigSizeCanonical(s: Bytes)
    requires ReadBigSize(s).Some?
    ensures var (n, rest) := ReadBigSize(s).value; s == WriteBigSize(n) + rest
  {
    hide BigEndian, ReadInt;
    if s[0] >= 0xFD {
      var tail := s[1..];
      IntCanonical(if s[0] == 0xFD then 2 else if s[0] == 0xFE then 4 else 8, tail);
      assert s == [s[0]] + tail;
    }
  }

  /** Exactly `count` bytes off the front of `s`. */
  function ReadBytes(count: nat, s: Bytes): Option<(Bytes, Bytes)> {
    if |s| < count then None else Some((s[..count], s[count..]))
  }

  lemma ReadWrittenBytes(b: Bytes, rest: Bytes)
    ensures ReadBytes(|b|, b + rest) == Some((b, rest))
  {
    assert (b + rest)[..|b|] == b && (b + rest)[|b|..] == rest;
  }

  /** Feature vectors are written with a two-byte length prefix. */
  function WriteFeatures(f: Features): Bytes {
    WriteU16(|f|) + f
  }

  function ReadFeatures(s: Bytes): (r: Option<(Features, Bytes)>) {
    var (length, rest) :- ReadU16(s);
    var (f, rest) :- ReadBytes(length, rest);
    Some((f, rest))
  }

  lemma ReadWrittenFeatures(f: Features, rest: Bytes)
    ensures ReadFeatures(WriteFeatures(f) + rest) == Some((f, rest))
  {
    assert WriteFeatures(f) + rest == WriteU16(|f|) + (f + rest);
    ReadWrittenU16(|f|, f + rest);
    ReadWrittenBytes(f, rest);
  }
}

/** Fixed-width integers and their big-endian encoding, as the wire and disk formats use them. */
module Bytes {

  type byte = x: int | 0 <= x < 256

  const MAX_INT32 := 0x7fff_ffff
  const TWO_32 := 0x1_0000_0000
  const TWO_64 := 0x1_0000_0000_0000_0000

  function Pow256(width: nat): (p: nat)
    ensures p > 0
  {
    if width == 0 then 1 else 256 * Pow256(width - 1)
  }

  /** The low `width` bytes of `n`, most significant first. */
  function BigEndian(n: nat, width: nat): (bs: seq<byte>)
    ensures |bs| == width
    decreases width, n
  {
    if width == 0 then [] else BigEndian(n / 256, width - 1) + [n % 256]
  }

  function Unsigned(bs: seq<byte>): nat {
    if bs == [] then 0 else 256 * Unsigned(bs[..|bs| - 1]) + bs[|bs| - 1]
  }

  lemma {:induction false} UnsignedOfBigEndian(n: nat, width: nat)
    requires n < Pow256(width)
    ensures Unsigned(BigEndian(n, width)) == n
    decreases width
  {
    if width > 0 {
      UnsignedOfBigEndian(n / 256, width - 1);
      assert BigEndian(n, width)[..width - 1] == BigEndian(n / 256, width - 1);
    }
  }

  lemma {:induction false} BigEndianOfUnsigned(bs: seq<byte>)
    ensures Unsigned(bs) < Pow256(|bs|)
    ensures BigEndian(Unsigned(bs), |bs|) == bs
  {
    if bs != [] {
      BigEndianOfUnsigned(bs[..|bs| - 1]);
      assert bs == bs[..|bs| - 1] + [bs[|bs| - 1]];
    }
  }

  /** Go's conversion of an integer to int32: the low 32 bits read as two's complement. */
  function ToInt32(n: int): (r: int)
    ensures -0x8000_0000 <= r <= MAX_INT32
    ensures r == n <==> -0x8000_0000 <= n <= MAX_INT32
  {
    var low := n % TWO_32;
    if low > MAX_INT32 then low - TWO_32 else low
  }

  /** Go's conversion of an integer to int64. */
  function ToInt64(n: int): (r: int)
    ensures -0x8000_0000_0000_0000 <= r < 0x8000_0000_0000_0000
    ensures r == n <==> -0x8000_0000_0000_0000 <= n < 0x8000_0000_0000_0000
  {
    var low := n % TWO_64;
    if low >= 0x8000_0000_0000_0000 then low - TWO_64 else low
  }

  /** The low `width` bytes of any integer, in two's complement if it is negative. */
  function PutInt(n: int, width: nat): (bs: seq<byte>)
    ensures |bs| == width
  {
    BigEndian(n % Pow256(width), width)
  }

  lemma UnsignedOfPutInt(n: int, width: nat)
    ensures Unsigned(PutInt(n, width)) == n % Pow256(width)
  {
    UnsignedOfBigEndian(n % Pow256(width), width);
  }

  lemma PutIntOfBytes(n: int, bs: seq<byte>)
    requires n % Pow256(|bs|) == Unsigned(bs)
    ensures PutInt(n, |bs|) == bs
  {
    BigEndianOfUnsigned(bs);
  }

  lemma Widths()
    ensures Pow256(2) == 0x1_0000
    ensures Pow256(4) == TWO_32
    ensures Pow256(8) == TWO_64
  {
    assert Pow256(4) == 256 * 256 * 256 * Pow256(1);
    assert Pow256(8) == 256 * 256 * 256 * 256 * Pow256(4);
  }

  function PutInt32(n: int): (bs: seq<byte>)
    ensures |bs| == 4
  {
    PutInt(n, 4)
  }

  function GetInt32(bs: seq<byte>): int {
    ToInt32(Unsigned(bs))
  }

  lemma Int32RoundTrip(n: int)
    ensures GetInt32(PutInt32(n)) == ToInt32(n)
  {
    Widths();
    UnsignedOfPutInt(n, 4);
  }

  lemma Int32Bytes(bs: seq<byte>)
    requires |bs| == 4
    ensures PutInt32(GetInt32(bs)) == bs
  {
    Widths();
    BigEndianOfUnsigned(bs);
    ToInt32KeepsLow(Unsigned(bs), Pow256(4));
    PutIntOfBytes(GetInt32(bs), bs);
  }

  lemma ToInt32KeepsLow(u: nat, p: nat)
    requires u < p == TWO_32
    ensures ToInt32(u) % p == u
  {
  }

  type int64 = x: int | -0x8000_0000_0000_0000 <= x < 0x8000_0000_0000_0000
  type uint16 = x: int | 0 <= x < 0x1_0000

  function PutInt64(n: int64): (bs: seq<byte>)
    ensures |bs| == 8
  {
    PutInt(n, 8)
  }

  function GetInt64(bs: seq<byte>): int64 {
    ToInt64(Unsigned(bs))
  }

  lemma Int64RoundTrip(n: int64)
    ensures GetInt64(PutInt64(n)) == n
  {
    Widths();
    UnsignedOfPutInt(n, 8);
    ToInt64KeepsBits(n);
  }

  lemma ToInt64KeepsBits(n: int)
    ensures ToInt64(n) % TWO_64 == n % TWO_64
    ensures ToInt64(n % TWO_64) == ToInt64(n)
  {
  }

  lemma ToInt64KeepsLow(u: nat, p: nat)
    requires u < p == TWO_64
    ensures ToInt64(u) % p == u
  {
  }

  lemma Int64Bytes(bs: seq<byte>)
    requires |bs| == 8
    ensures PutInt64(GetInt64(bs)) == bs
  {
    Widths();
    BigEndianOfUnsigned(bs);
    ToInt64KeepsLow(Unsigned(bs), Pow256(8));
    PutIntOfBytes(GetInt64(bs), bs);
  }

  function PutUint16(n: uint16): (bs: seq<byte>)
    ensures |bs| == 2
  {
    PutInt(n, 2)
  }

  function GetUint16(bs: seq<byte>): uint16
    requires |bs| == 2
  {
    BigEndianOfUnsigned(bs);
    Widths();
    Unsigned(bs)
  }

  lemma Uint16RoundTrip(n: uint16)
    ensures GetUint16(PutUint16(n)) == n
  {
    Widths();
    UnsignedOfPutInt(n, 2);
  }

  lemma Uint16Bytes(bs: seq<byte>)
    requires |bs| == 2
    ensures PutUint16(GetUint16(bs)) == bs
  {
    Widths();
    BigEndianOfUnsigned(bs);
    PutIntOfBytes(Unsigned(bs), bs);
  }
}

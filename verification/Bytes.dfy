/** Bytes and the little-endian words the message headers and MD5 are made of. */
module Bytes {

  type byte = x: int | 0 <= x < 256

  const TWO_31: int := 0x8000_0000
  const TWO_32: int := 0x1_0000_0000
  const TWO_64: int := 0x1_0000_0000_0000_0000

  type u32 = x: int | 0 <= x < 0x1_0000_0000
  type u64 = x: int | 0 <= x < 0x1_0000_0000_0000_0000
  type i32 = x: int | -0x8000_0000 <= x < 0x8000_0000

  function Max(a: int, b: int): int { if a > b then a else b }
  function Min(a: int, b: int): int { if a < b then a else b }

  /** The conversion to int of a wider unsigned value: its low 32 bits, in two's complement. */
  function Int32(x: nat): i32 {
    var low := x % TWO_32;
    if low < TWO_31 then low else low - TWO_32
  }

  function Unsigned(x: i32): u32 { if x < 0 then x + TWO_32 else x }

  lemma Int32OfUnsigned(x: i32)
    ensures Int32(Unsigned(x)) == x
  {
  }

  function PutU32(v: u32): (s: seq<byte>)
    ensures |s| == 4
  {
    [v % 256, v / 256 % 256, v / 256 / 256 % 256, v / 256 / 256 / 256]
  }

  function GetU32(s: seq<byte>): u32
    requires |s| == 4
  {
    var b0: int, b1: int, b2: int, b3: int := s[0], s[1], s[2], s[3];
    b0 + 256 * b1 + 65536 * b2 + 16777216 * b3
  }

  lemma GetPutU32(v: u32)
    ensures GetU32(PutU32(v)) == v
  {
    var q1, q2 := v / 256, v / 256 / 256;
    assert v == v % 256 + 256 * q1 && q1 == q1 % 256 + 256 * q2 && q2 == q2 % 256 + 256 * (q2 / 256);
  }

  function PutU64(v: u64): (s: seq<byte>)
    ensures |s| == 8
  {
    PutU32(v % TWO_32) + PutU32(v / TWO_32)
  }

  function GetU64(s: seq<byte>): u64
    requires |s| == 8
  {
    GetU32(s[..4]) + TWO_32 * GetU32(s[4..])
  }

  lemma GetPutU64(v: u64)
    ensures GetU64(PutU64(v)) == v
  {
    var s := PutU64(v);
    assert s[..4] == PutU32(v % TWO_32) && s[4..] == PutU32(v / TWO_32);
    GetPutU32(v % TWO_32);
    GetPutU32(v / TWO_32);
  }

  /** The j-th byte of a number, the lowest first. */
  function ByteOf(v: nat, j: nat): byte {
    if j == 0 then v % 256 else ByteOf(v / 256, j - 1)
  }

  lemma PutU32Bytes(v: u32)
    ensures forall j | 0 <= j < 4 :: PutU32(v)[j] == ByteOf(v, j)
  {
    FourBytes(v);
    assert v / 256 / 256 / 256 < 256;
  }

  lemma FourBytes(v: nat)
    ensures ByteOf(v, 0) == v % 256 && ByteOf(v, 1) == v / 256 % 256
    ensures ByteOf(v, 2) == v / 256 / 256 % 256 && ByteOf(v, 3) == v / 256 / 256 / 256 % 256
  {
    var q := v / 256;
    assert ByteOf(q, 2) == ByteOf(q / 256, 1) == ByteOf(q / 256 / 256, 0);
    assert ByteOf(q, 1) == ByteOf(q / 256, 0);
  }

  lemma PutU64Bytes(v: u64)
    ensures forall j | 0 <= j < 8 :: PutU64(v)[j] == ByteOf(v, j)
  {
    var low, high: nat := v % TWO_32, v / TWO_32;
    PutU32Bytes(low);
    PutU32Bytes(high);
    hide PutU32;
    forall j | 0 <= j < 8 ensures PutU64(v)[j] == ByteOf(v, j) {
      if j < 4 {
        LowBytes(low, high, j);
      } else {
        HighBytes(v, j - 4);
      }
    }
  }

  lemma LowBytes(low: u32, high: nat, j: nat)
    requires j < 4
    ensures ByteOf(low + TWO_32 * high, j) == ByteOf(low, j)
  {
    FourBytes(low);
    SameByte(low, 16777216 * high, j);
    if j > 0 {
      SameByte(low / 256, 65536 * high, j - 1);
      if j > 1 {
        SameByte(low / 256 / 256, 256 * high, j - 2);
        if j > 2 {
          SameByte(low / 256 / 256 / 256, high, j - 3);
        }
      }
    }
  }

  lemma SameByte(a: nat, b: nat, j: nat)
    ensures ByteOf(a + 256 * b, j) == if j == 0 then ByteOf(a, 0) else ByteOf(a / 256 + b, j - 1)
  {
    assert (a + 256 * b) / 256 == a / 256 + b;
  }

  lemma HighBytes(v: nat, j: nat)
    ensures ByteOf(v, j + 4) == ByteOf(v / TWO_32, j)
  {
    assert v / 256 / 256 / 256 / 256 == v / TWO_32;
    assert ByteOf(v, j + 4) == ByteOf(v / 256, j + 3) == ByteOf(v / 256 / 256, j + 2)
        == ByteOf(v / 256 / 256 / 256, j + 1);
  }

  /** A byte of memory at an offset; bytes beyond those given read as zero. */
  function At(m: seq<byte>, i: nat): byte {
    if i < |m| then m[i] else 0
  }

  function U32At(m: seq<byte>, i: nat): u32 {
    GetU32([At(m, i), At(m, i + 1), At(m, i + 2), At(m, i + 3)])
  }

  function U64At(m: seq<byte>, i: nat): u64 {
    U32At(m, i) + TWO_32 * U32At(m, i + 4)
  }

  /** The n bytes at an offset, as far as they are given. */
  function Slice(m: seq<byte>, i: nat, n: nat): seq<byte> {
    m[Min(i, |m|)..Min(i + n, |m|)]
  }

  function Flatten<T>(ss: seq<seq<T>>): seq<T> {
    if ss == [] then [] else ss[0] + Flatten(ss[1..])
  }
}

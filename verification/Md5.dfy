/**
  The streaming part of src/md5.cpp (RFC 1321): buffering across updates, the two-word bit counter,
  padding and the length trailer.  The block function MD5Transform is a parameter: everything here
  holds for whatever it computes from a state and a block of 64 bytes.
*/
module Md5 {
  import opened Bytes

  datatype Words = Words(a: u32, b: u32, c: u32, d: u32)

  type Transform = (Words, seq<byte>) -> Words

  const INITIAL := Words(0x67452301, 0xefcdab89, 0x98badcfe, 0x10325476)

  function Encode(w: Words): seq<byte> {
    PutU32(w.a) + PutU32(w.b) + PutU32(w.c) + PutU32(w.d)
  }

  // ---------------------------------------------------------------------------------------------
  // The definition, section 3 of RFC 1321

  /** The block function folded over the whole blocks of some data, from the front. */
  function Blocks(f: Transform, st: Words, data: seq<byte>): Words
    decreases |data|
  {
    if |data| < 64 then st else Blocks(f, f(st, data[..64]), data[64..])
  }

  /** What is left after the whole blocks. */
  function Tail(data: seq<byte>): seq<byte> { data[|data| / 64 * 64..] }

  function Zeros(n: nat): (s: seq<byte>)
    ensures |s| == n && forall i | 0 <= i < n :: s[i] == 0
  {
    seq(n, _ => 0)
  }

  /** Section 3.1: how many zero bytes follow the 0x80 byte, the least that reaches 56 modulo 64. */
  function ZeroCount(n: nat): (k: nat)
    ensures k < 64 && (n + 1 + k) % 64 == 56
  {
    (119 - n % 64) % 64
  }

  /** Sections 3.1 and 3.2: the message, 0x80, zeros, and its length in bits modulo 2^64. */
  function Padded(m: seq<byte>): seq<byte> {
    m + [0x80] + Zeros(ZeroCount(|m|)) + PutU64(8 * |m| % TWO_64)
  }

  /** Sections 3.3 to 3.5. */
  function Digest(f: Transform, m: seq<byte>): seq<byte> {
    Encode(Blocks(f, INITIAL, Padded(m)))
  }

  /** The padded message is the least string of whole blocks with the message, 0x80, only zeros, and
      in its last eight bytes the length in bits modulo 2^64, lowest byte first. */
  lemma PaddedIsWholeBlocks(m: seq<byte>)
    ensures var p := Padded(m);
      && |p| % 64 == 0 && |m| + 9 <= |p| < |m| + 73
      && p[..|m|] == m && p[|m|] == 0x80
      && (forall i | |m| < i < |p| - 8 :: p[i] == 0)
      && (forall j | 0 <= j < 8 :: p[|p| - 8..][j] == ByteOf(8 * |m| % TWO_64, j))
  {
    var bits: u64, p := 8 * |m| % TWO_64, Padded(m);
    assert p == m + [0x80] + Zeros(ZeroCount(|m|)) + PutU64(bits);
    hide *;
    PutU64Bytes(bits);
    PartsOf(m, ZeroCount(|m|), PutU64(bits));
    WholeBlocks(|m|);
  }

  lemma WholeBlocks(n: nat)
    ensures (n + ZeroCount(n) + 9) % 64 == 0
  {
  }

  lemma PartsOf(m: seq<byte>, zeros: nat, length: seq<byte>)
    requires |length| == 8
    ensures var p := m + [0x80] + Zeros(zeros) + length;
      && |p| == |m| + zeros + 9
      && p[..|m|] == m && p[|m|] == 0x80
      && (forall i | |m| < i < |p| - 8 :: p[i] == 0)
      && p[|p| - 8..] == length
  {
  }

  /** The words of a state in the RFC's order. */
  function WordOf(w: Words, i: nat): u32
    requires i < 4
  {
    [w.a, w.b, w.c, w.d][i]
  }

  /** Section 3.5: the bytes of the words in order, each from its lowest byte on. */
  ghost predicate IsDigestOf(digest: seq<byte>, w: Words) {
    |digest| == 16 && forall i, j | 0 <= i < 4 && 0 <= j < 4 :: digest[4 * i + j] == ByteOf(WordOf(w, i), j)
  }

  lemma EncodeIsDigest(w: Words)
    ensures IsDigestOf(Encode(w), w)
  {
    PutU32Bytes(w.a);
    PutU32Bytes(w.b);
    PutU32Bytes(w.c);
    PutU32Bytes(w.d);
    hide PutU32, ByteOf;
  }

  /** Section 3.3: the initial state, as the sixteen bytes of the RFC. */
  lemma InitialBytes()
    ensures Encode(INITIAL) == [0x01, 0x23, 0x45, 0x67, 0x89, 0xab, 0xcd, 0xef,
                                0xfe, 0xdc, 0xba, 0x98, 0x76, 0x54, 0x32, 0x10]
  {
  }

  // ---------------------------------------------------------------------------------------------
  // Folding in pieces

  lemma {:induction false} BlocksAppend(f: Transform, st: Words, x: seq<byte>, y: seq<byte>)
    ensures Blocks(f, st, x + y) == Blocks(f, Blocks(f, st, x), Tail(x) + y)
    ensures Tail(x + y) == Tail(Tail(x) + y)
    decreases |x|
  {
    if |x| < 64 {
      assert Tail(x) == x;
    } else {
      var st' := f(st, x[..64]);
      assert (x + y)[..64] == x[..64] && (x + y)[64..] == x[64..] + y;
      BlocksAppend(f, st', x[64..], y);
      TailDrops(x);
      TailDrops(x + y);
    }
  }

  /** Section 3.4: every block updates the state left by the blocks before it, once. */
  lemma BlocksInOrder(f: Transform, st: Words, x: seq<byte>, block: seq<byte>)
    requires |x| % 64 == 0 && |block| == 64
    ensures Blocks(f, st, []) == st
    ensures Blocks(f, st, x + block) == f(Blocks(f, st, x), block)
  {
    BlocksAppend(f, st, x, block);
    assert Tail(x) == [] && [] + block == block;
    assert block[..64] == block;
  }

  lemma TailDrops(x: seq<byte>)
    requires |x| >= 64
    ensures Tail(x) == Tail(x[64..])
  {
    assert |x[64..]| / 64 * 64 + 64 == |x| / 64 * 64;
  }

  // ---------------------------------------------------------------------------------------------
  // The context and what an update does to it

  /** The meaning of a context: the state, the bit count modulo 2^64, and the buffered bytes. */
  datatype Context = Context(state: Words, bits: u64, pending: seq<byte>)

  function Updated(f: Transform, c: Context, input: seq<byte>): Context {
    Context(Blocks(f, c.state, c.pending + input), (c.bits + 8 * |input|) % TWO_64, Tail(c.pending + input))
  }

  /** Two updates do what one update with all the bytes does, for all contexts. */
  lemma SplitInvariance(f: Transform, c: Context, x: seq<byte>, y: seq<byte>)
    ensures Updated(f, Updated(f, c, x), y) == Updated(f, c, x + y)
  {
    BlocksAppend(f, c.state, c.pending + x, y);
    assert (c.pending + x) + y == c.pending + (x + y);
    AddTwice(c.bits, |x|, |y|);
  }

  lemma AddTwice(bits: u64, m: nat, n: nat)
    ensures ((bits + 8 * m) % TWO_64 + 8 * n) % TWO_64 == (bits + 8 * (m + n)) % TWO_64
  {
  }

  /** Addition of 32-bit words. */
  function Plus(x: u32, y: u32): u32 { (x + y) % TWO_32 }

  /** `(UINT4)inputLen << 3` and `(UINT4)inputLen >> 29`. */
  function LowBits(n: u32): u32 { 8 * n % TWO_32 }
  function HighBits(n: u32): u32 { n / 0x2000_0000 }

  /** The counter's carry: two 32-bit words count the bits modulo 2^64. */
  lemma CounterAdds(c0: u32, c1: u32, n: u32)
    ensures var c0' := Plus(c0, LowBits(n));
      var c1' := Plus(if c0' < LowBits(n) then Plus(c1, 1) else c1, HighBits(n));
      c0' + TWO_32 * c1' == (c0 + TWO_32 * c1 + 8 * n) % TWO_64
  {
    var low, high := LowBits(n), HighBits(n);
    assert 8 * n == low + TWO_32 * high && high < 0x1000_0000;
    PlusCarries(c0, low);
    PlusCarries(c1, 1);
    hide Plus, LowBits, HighBits;
    var c0' := Plus(c0, low);
    var carried := if c0' < low then Plus(c1, 1) else c1;
    PlusCarries(carried, high);
    var c1' := Plus(carried, high);
    var over := (if c0' < low && carried < 1 then 1 else 0) + if c1' < high then 1 else 0;
    assert c0 + TWO_32 * c1 + 8 * n == c0' + TWO_32 * c1' + TWO_64 * over;
    Remainder(c0 + TWO_32 * c1 + 8 * n, c0' + TWO_32 * c1', over);
  }

  /** A sum of words is smaller than an addend exactly if it has wrapped around. */
  lemma PlusCarries(x: u32, y: u32)
    ensures x + y == Plus(x, y) + if Plus(x, y) < y then TWO_32 else 0
  {
  }

  lemma Remainder(x: nat, r: u64, k: nat)
    requires x == r + TWO_64 * k
    ensures x % TWO_64 == r
  {
  }

  lemma LowBitsSuffice(c0: u32, n: u32)
    ensures Plus(c0, LowBits(n)) == (c0 + 8 * n) % TWO_32
  {
  }

  lemma IndexAdvances(c0: u32, n: nat)
    ensures (c0 + 8 * n) % TWO_32 / 8 % 64 == (c0 / 8 % 64 + n) % 64
  {
    var r := (c0 + 8 * n) % TWO_32;
    var q := (c0 + 8 * n) / TWO_32;
    assert r / 8 == c0 / 8 + n - 0x2000_0000 * q;
  }

  class Md5Context {
    const transform: Transform
    var state: Words
    var count0: u32
    var count1: u32
    const buffer: array<byte>

    ghost predicate Valid()
      reads this
    {
      buffer.Length == 64
    }

    function Index(): (i: nat)
      reads this
      ensures i < 64
    {
      count0 / 8 % 64
    }

    function Value(): Context
      requires Valid()
      reads this, buffer
    {
      Context(state, count0 + TWO_32 * count1, buffer[..Index()])
    }

    /** MD5Init; the buffer is left as it was, here all zero. */
    constructor (transform: Transform)
      ensures Valid() && fresh(buffer) && this.transform == transform
      ensures Value() == Context(INITIAL, 0, [])
    {
      this.transform := transform;
      count0, count1, state := 0, 0, INITIAL;
      buffer := new byte[64](i => 0);
    }

    /** MD5_memcpy into the buffer. */
    method Fill(index: nat, bytes: seq<byte>)
      requires Valid() && index + |bytes| <= 64
      modifies buffer
      ensures buffer[..index] == old(buffer[..index]) && buffer[index..index + |bytes|] == bytes
    {
      for i := 0 to |bytes|
        invariant buffer[..index] == old(buffer[..index])
        invariant forall k | 0 <= k < i :: buffer[index + k] == bytes[k]
      {
        buffer[index + i] := bytes[i];
      }
    }

    /** MD5Update.  The bound is that of LoopEndsIff. */
    method Update(input: seq<byte>)
      requires Valid() && Index() + |input| < TWO_32
      modifies this, buffer
      ensures Valid()
      ensures Value() == Updated(transform, old(Value()), input)
    {
      var index := Index();
      AddBits(|input|);
      IndexAdvances(old(count0), |input|);
      Absorb(index, input);
    }

    method AddBits(n: u32)
      modifies this`count0, this`count1
      ensures count0 + TWO_32 * count1 == (old(count0) + TWO_32 * old(count1) + 8 * n) % TWO_64
      ensures count0 == (old(count0) + 8 * n) % TWO_32
    {
      CounterAdds(count0, count1, n);
      LowBitsSuffice(count0, n);
      hide Plus, LowBits, HighBits;
      count0 := Plus(count0, LowBits(n));
      if count0 < LowBits(n) {
        count1 := Plus(count1, 1);
      }
      count1 := Plus(count1, HighBits(n));
    }

    /** The rest of MD5Update: complete the buffered block, transform, and buffer what remains. */
    method Absorb(index: nat, input: seq<byte>)
      requires Valid() && index < 64 && index + |input| < TWO_32
      modifies this`state, buffer
      ensures var data := old(buffer[..index]) + input;
        && state == Blocks(transform, old(state), data)
        && |Tail(data)| == (index + |input|) % 64 && buffer[..(index + |input|) % 64] == Tail(data)
    {
      hide Blocks, Tail;
      ghost var pending, st := buffer[..index], state;
      var partLen := 64 - index;
      if |input| >= partLen {
        Fill(index, input[..partLen]);
        assert buffer[..] == buffer[..index] + buffer[index..64] == pending + input[..partLen];
        state := transform(state, buffer[..]);
        FirstBlock(transform, st, pending, input);
        var i := TransformWhole(input, partLen);
        Fill(0, input[i..]);
        assert buffer[..|input| - i] == input[i..];
      } else {
        Fill(index, input);
        assert buffer[..index + |input|] == buffer[..index] + buffer[index..index + |input|];
        NoBlock(transform, st, pending + input);
      }
      TailLength(pending + input);
    }

    /** The loop of MD5Update over the whole blocks of the input behind the first partLen bytes.  Its
        guard is computed in unsigned int. */
    method TransformWhole(input: seq<byte>, partLen: nat) returns (i: nat)
      requires partLen <= 64 && partLen <= |input| && 64 - partLen + |input| < TWO_32
      modifies this`state
      ensures partLen <= i <= |input| < i + 64 && input[i..] == Tail(input[partLen..])
      ensures state == Blocks(transform, old(state), input[partLen..])
    {
      i := partLen;
      ghost var k := 1;
      NoWrap(k, i, partLen);
      while (i + 63) % TWO_32 < |input|
        invariant partLen <= i <= |input|
        invariant i + 64 - partLen == 64 * k && (i + 63) % TWO_32 == i + 63
        invariant Blocks(transform, old(state), input[partLen..]) == Blocks(transform, state, input[i..])
        invariant Tail(input[partLen..]) == Tail(input[i..])
      {
        NextBlock(transform, state, input, i);
        hide Blocks, Tail;
        state := transform(state, input[i..i + 64]);
        i, k := i + 64, k + 1;
        NoWrap(k, i, partLen);
      }
    }

    /** MD5Final, which also wipes the context. */
    method Final() returns (digest: seq<byte>)
      requires Valid()
      modifies this, buffer
      ensures digest == Encode(Updated(transform, old(Value()), FinalBytes(old(Value()).bits)).state)
      ensures IsDigestOf(digest, Updated(transform, old(Value()), FinalBytes(old(Value()).bits)).state)
      ensures Valid() && state == Words(0, 0, 0, 0) && count0 == 0 && count1 == 0
      ensures forall i | 0 <= i < 64 :: buffer[i] == 0
    {
      hide Updated, PutU32, ZeroCount, Encode, IsDigestOf;
      var bits := PutU32(count0) + PutU32(count1);
      var index := Index();
      var padLen := if index < 56 then 56 - index else 120 - index;
      var padding := [0x80] + Zeros(63);
      ghost var c := Value();
      PaddingLength(count0, count1);
      PaddingBytes(padding, padLen, count0, count1);
      Update(padding[..padLen]);
      Update(bits);
      SplitInvariance(transform, c, padding[..padLen], bits);
      digest := Encode(state);
      EncodeIsDigest(state);
      state, count0, count1 := Words(0, 0, 0, 0), 0, 0;
      for i := 0 to 64
        invariant forall k | 0 <= k < i :: buffer[k] == 0
        modifies buffer
      {
        buffer[i] := 0;
      }
    }
  }

  lemma FirstBlock(f: Transform, st: Words, pending: seq<byte>, input: seq<byte>)
    requires |pending| < 64 && |pending| + |input| >= 64
    ensures var k := 64 - |pending|;
      && Blocks(f, st, pending + input) == Blocks(f, f(st, pending + input[..k]), input[k..])
      && Tail(pending + input) == Tail(input[k..])
  {
    var k := 64 - |pending|;
    assert (pending + input)[..64] == pending + input[..k] && (pending + input)[64..] == input[k..];
    TailDrops(pending + input);
  }

  lemma NoBlock(f: Transform, st: Words, data: seq<byte>)
    requires |data| < 64
    ensures Blocks(f, st, data) == st && Tail(data) == data
  {
  }

  lemma TailLength(data: seq<byte>)
    ensures |Tail(data)| == |data| % 64
  {
  }

  lemma NextBlock(f: Transform, st: Words, input: seq<byte>, i: nat)
    requires i + 63 < |input|
    ensures Blocks(f, st, input[i..]) == Blocks(f, f(st, input[i..i + 64]), input[i + 64..])
    ensures Tail(input[i..]) == Tail(input[i + 64..])
  {
    assert input[i..][..64] == input[i..i + 64] && input[i..][64..] == input[i + 64..];
    TailDrops(input[i..]);
  }

  lemma NoWrap(k: nat, i: nat, partLen: nat)
    requires i + 64 - partLen == 64 * k < TWO_32 && partLen <= 64
    ensures (i + 63) % TWO_32 == i + 63
  {
    assert 64 * k + 63 < TWO_32;
  }

  /** The bound is exact.  The block loop ends where what remains is less than a block, if and only if
      the bytes pending and the input together are fewer than 2^32: beyond, `i + 63` wraps there, the
      guard still holds, and the loop reads on behind the input. */
  lemma LoopEndsIff(index: nat, n: u32)
    requires index < 64 && index + n >= 64
    ensures var last := n - (index + n) % 64;
      && 64 - index <= last <= n < last + 64 && (last + index) % 64 == 0
      && ((last + 63) % TWO_32 >= n <==> index + n < TWO_32)
  {
    var q, r := (index + n) / 64, (index + n) % 64;
    assert n - r + index == 64 * q;
    if index + n < TWO_32 {
      NoWrap(q, n - r, 64 - index);
    } else {
      assert 64 * q >= TWO_32;
    }
  }

  /** What MD5Final feeds the context: padding up to 56 modulo 64 bytes, then the count. */
  function FinalBytes(bits: u64): seq<byte> {
    [0x80] + Zeros(ZeroCount(bits / 8 % 64)) + PutU64(bits)
  }

  lemma PaddingLength(c0: u32, c1: u32)
    ensures var index := c0 / 8 % 64;
      1 + ZeroCount((c0 + TWO_32 * c1) / 8 % 64) == if index < 56 then 56 - index else 120 - index
  {
    assert (c0 + TWO_32 * c1) / 8 == c0 / 8 + 64 * (0x80_0000 * c1);
    SameIndex(c0 / 8, 0x80_0000 * c1);
    ZeroCountIs(c0 / 8 % 64);
  }

  lemma PaddingBytes(padding: seq<byte>, n: nat, c0: u32, c1: u32)
    requires padding == [0x80] + Zeros(63) && n == 1 + ZeroCount((c0 + TWO_32 * c1) / 8 % 64)
    ensures n <= 64 && padding[..n] + (PutU32(c0) + PutU32(c1)) == FinalBytes(c0 + TWO_32 * c1)
  {
    hide PutU32, ZeroCount;
    var bits := c0 + TWO_32 * c1;
    assert bits % TWO_32 == c0 && bits / TWO_32 == c1;
    assert padding[..n] == [0x80] + Zeros(n - 1);
  }

  lemma SameIndex(a: nat, k: nat)
    ensures (a + 64 * k) % 64 == a % 64
  {
  }

  lemma ZeroCountIs(i: nat)
    requires i < 64
    ensures ZeroCount(i) == if i < 56 then 55 - i else 119 - i
  {
  }

  /** Init, any sequence of updates, and Final compute the digest of all the bytes, as the RFC
      defines it. */
  method Hash(f: Transform, parts: seq<seq<byte>>) returns (digest: seq<byte>)
    requires forall i | 0 <= i < |parts| :: |Flatten(parts[..i])| % 64 + |parts[i]| < TWO_32
    ensures digest == Digest(f, Flatten(parts))
    ensures IsDigestOf(digest, Blocks(f, INITIAL, Padded(Flatten(parts))))
  {
    var ctx := new Md5Context(f);
    ghost var start := Context(INITIAL, 0, []);
    assert Updated(f, start, []) == start;
    for i := 0 to |parts|
      invariant ctx.Valid() && fresh(ctx) && fresh(ctx.buffer) && ctx.transform == f
      invariant ctx.Value() == Updated(f, start, Flatten(parts[..i]))
    {
      TailLength([] + Flatten(parts[..i]));
      ctx.Update(parts[i]);
      SplitInvariance(f, start, Flatten(parts[..i]), parts[i]);
      FlattenSnoc(parts, i);
    }
    assert parts[..|parts|] == parts;
    ghost var m := Flatten(parts);
    digest := ctx.Final();
    FinalPads(f, m);
    EncodeIsDigest(Blocks(f, INITIAL, Padded(m)));
  }

  lemma {:induction false} FlattenSnoc(parts: seq<seq<byte>>, i: nat)
    requires i < |parts|
    ensures Flatten(parts[..i + 1]) == Flatten(parts[..i]) + parts[i]
    decreases i
  {
    if i == 0 {
      assert parts[..1] == [parts[0]] && parts[..1][1..] == [];
    } else {
      FlattenSnoc(parts[1..], i - 1);
      assert parts[..i + 1][1..] == parts[1..][..i] && parts[..i][1..] == parts[1..][..i - 1];
      assert (parts[0] + Flatten(parts[1..][..i - 1])) + parts[i] == parts[0] + (Flatten(parts[1..][..i - 1]) + parts[i]);
    }
  }

  lemma FinalPads(f: Transform, m: seq<byte>)
    ensures var c := Updated(f, Context(INITIAL, 0, []), m);
      Encode(Updated(f, c, FinalBytes(c.bits)).state) == Digest(f, m)
  {
    var start := Context(INITIAL, 0, []);
    var bits := 8 * |m| % TWO_64;
    SplitInvariance(f, start, m, FinalBytes(bits));
    FinalBytesPad(m);
    assert [] + Padded(m) == Padded(m);
    hide Blocks, Padded, FinalBytes;
    assert Updated(f, start, m + FinalBytes(bits)).state == Blocks(f, INITIAL, Padded(m));
  }

  lemma FinalBytesPad(m: seq<byte>)
    ensures m + FinalBytes(8 * |m| % TWO_64) == Padded(m)
  {
    hide PutU64, Zeros, ZeroCount;
    CountIsLength(|m|);
    SameZeroCount(|m|);
  }

  lemma SameZeroCount(n: nat)
    ensures ZeroCount(n % 64) == ZeroCount(n)
  {
  }

  lemma CountIsLength(n: nat)
    ensures (8 * n % TWO_64) / 8 % 64 == n % 64
  {
    var q, r := 8 * n / TWO_64, 8 * n % TWO_64;
    assert r == 8 * (n - 64 * (0x80_0000_0000_0000 * q));
    EighthOf(r, n - 64 * (0x80_0000_0000_0000 * q));
    SameIndex(r / 8, 0x80_0000_0000_0000 * q);
  }

  lemma EighthOf(r: nat, k: int)
    requires r == 8 * k
    ensures r / 8 == k
  {
  }
}

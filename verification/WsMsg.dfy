/**
  The WSMSG frame of src/wsmsg: two bytes of flags and a 7-bit length, an extended length of four or
  eight bytes, an optional mask, and the payload.  This is the repository's own layout: the middle
  length has 32 bits and the payload is not masked.
*/
module WsMsg {
  import opened Bytes
  import opened Common
  import opened Framing
  import opened Msg

  const WSBIT32: nat := 126
  const WSBIT64: nat := 127

  /** The bit-field of the second byte: mask in bit 0, len above it. */
  function MaskBit(m: seq<byte>): nat { At(m, 1) % 2 }
  function LenField(m: seq<byte>): nat { At(m, 1) / 2 }

  function PayloadSize(m: seq<byte>): nat {
    if LenField(m) < WSBIT32 then 0 else if LenField(m) < WSBIT64 then 4 else 8
  }

  function MaskSize(m: seq<byte>): nat { if MaskBit(m) == 1 then 4 else 0 }

  function Size(m: seq<byte>): u64 {
    if LenField(m) < WSBIT32 then LenField(m) else if LenField(m) < WSBIT64 then U32At(m, 2) else U64At(m, 2)
  }

  function GetMask(m: seq<byte>): u32 {
    if MaskBit(m) == 1 then U32At(m, 2 + PayloadSize(m)) else 0
  }

  function HeadSize(m: seq<byte>): nat { 2 + MaskSize(m) + PayloadSize(m) }
  function Data(m: seq<byte>): seq<byte> { Slice(m, HeadSize(m), Size(m)) }
  function Extent(m: seq<byte>): nat { HeadSize(m) + Size(m) }
  function PayloadEvent(m: seq<byte>): Option<Event> { Some(Bare(Data(m))) }

  /** The flags are there, and of an extended length the low 32 bits, the only ones an int keeps. */
  predicate Announced(m: seq<byte>) { |m| >= 2 && (LenField(m) < WSBIT32 || |m| >= 6) }

  const WS_LAYOUT := Layout(Extent, PayloadEvent, Announced)

  /** The head is determined by its own bytes. */
  lemma HeadAgrees(a: seq<byte>, b: seq<byte>, n: nat)
    requires n >= 2 && (n >= HeadSize(a) || n >= HeadSize(b))
    requires forall i | 0 <= i < n :: At(a, i) == At(b, i)
    ensures HeadSize(a) == HeadSize(b) && Size(a) == Size(b) && GetMask(a) == GetMask(b)
  {
    assert LenField(a) == LenField(b) && MaskBit(a) == MaskBit(b);
  }

  lemma WholeFrameIsStable(w: seq<byte>, x: seq<byte>)
    requires Extent(w) <= |w| || Extent(w + x) <= |w|
    ensures Extent(w + x) == Extent(w) <= |w| && GetMask(w + x) == GetMask(w)
    ensures PayloadEvent(w + x) == PayloadEvent(w[..Extent(w)])
  {
    hide GetMask, Size;
    assert forall i | 0 <= i < |w| :: At(w + x, i) == w[i] == At(w, i);
    HeadAgrees(w + x, w, |w|);
    var f := w[..Extent(w)];
    assert forall i | 0 <= i < |f| :: At(f, i) == w[i] == At(w, i);
    HeadAgrees(f, w, |f|);
    assert Data(w + x) == w[HeadSize(w)..Extent(w)] == Data(f);
  }

  lemma IsSelfDelimiting()
    ensures SelfDelimiting(WS_LAYOUT)
  {
    forall w, x | Extent(w) <= |w| || Extent(w + x) <= |w|
      ensures Extent(w + x) == Extent(w)
      ensures PayloadEvent(w + x) == PayloadEvent(w[..Extent(w)])
    {
      WholeFrameIsStable(w, x);
    }
  }

  /** The flags and the low four bytes of an extended length decide whether the recogniser waits;
      without them stale bytes can make the length look like 2^31 or more. */
  lemma LengthDecidesWaiting()
    ensures LengthDecides(WS_LAYOUT)
  {
    hide Extent, Size, Recognise, Small, Misread, Waits, Announced;
    forall w | Unfinished(WS_LAYOUT, w)
      ensures if Announced(w) then Waits(WS_LAYOUT, w) else exists x :: Misread(WS_LAYOUT, w, x)
    {
      if Announced(w) {
        AnnouncedWaits(w);
      } else {
        HighLengthMisleads(w);
      }
    }
  }

  lemma AnnouncedWaits(w: seq<byte>)
    requires Unfinished(WS_LAYOUT, w) && Announced(w)
    ensures Waits(WS_LAYOUT, w)
  {
    assert 0 < |w| < TWO_31 && |w| < Extent(w);
    var more :| WS_LAYOUT.extent(w + more) < TWO_31;
    assert Extent(w + more) < TWO_31;
    hide Extent;
    forall x ensures Recognise(WS_LAYOUT, w, x) == Verdict(0, None) {
      AnnouncedLength(w, more, x);
    }
  }

  /** What follows an announced length changes at most its high 32 bits. */
  lemma AnnouncedLength(w: seq<byte>, more: seq<byte>, x: seq<byte>)
    requires Announced(w) && |w| < Extent(w) && Extent(w + more) < TWO_31
    ensures |w| < Extent(w + x) % TWO_32 < TWO_31
  {
    AnnouncedExtent(w, x);
    AnnouncedExtent(w, more);
    if LenField(w) == WSBIT64 {
      LongExtent(w);
      if |w| >= 10 {
        SameWord(w, more, 6);
      }
      hide *;
      LowBits(|w|, 10 + MaskSize(w) + U32At(w, 2), U32At(w, 6), U32At(w + more, 6), U32At(w + x, 6));
    } else {
      hide U32At;
      assert w + [] == w;
      AnnouncedExtent(w, []);
    }
  }

  lemma LongExtent(w: seq<byte>)
    requires Announced(w) && LenField(w) == WSBIT64
    ensures Extent(w) == 10 + MaskSize(w) + U32At(w, 2) + TWO_32 * U32At(w, 6)
  {
    hide U32At;
  }

  lemma LowBits(n: nat, low: nat, h: nat, hm: nat, hx: nat)
    requires n < low + TWO_32 * h && low + TWO_32 * hm < TWO_31 && (n < low || h == hm)
    ensures n < (low + TWO_32 * hx) % TWO_32 < TWO_31
  {
    assert hm == 0;
  }

  lemma AnnouncedExtent(w: seq<byte>, y: seq<byte>)
    requires Announced(w)
    ensures Extent(w + y) ==
      if LenField(w) < WSBIT32 then 2 + MaskSize(w) + LenField(w)
      else if LenField(w) < WSBIT64 then 6 + MaskSize(w) + U32At(w, 2)
      else 10 + MaskSize(w) + U32At(w, 2) + TWO_32 * U32At(w + y, 6)
  {
    var m := w + y;
    assert At(m, 1) == At(w, 1);
    if |w| >= 6 {
      SameWord(w, y, 2);
    }
    hide U32At;
  }

  lemma SameWord(w: seq<byte>, y: seq<byte>, i: nat)
    requires i + 4 <= |w|
    ensures U32At(w + y, i) == U32At(w, i)
  {
    assert forall k | 0 <= k < |w| :: At(w + y, k) == w[k] == At(w, k);
  }

  /** Bytes after which the head has an extended length whose 32nd bit is set. */
  function HighLength(w: seq<byte>): seq<byte>
    requires |w| < 6
  {
    if |w| < 2 then seq(1 - |w|, _ => 0) + [255, 0, 0, 0, 128] else seq(5 - |w|, _ => 0) + [128]
  }

  lemma HighLengthMisleads(w: seq<byte>)
    requires w != [] && !Announced(w)
    ensures Misread(WS_LAYOUT, w, HighLength(w))
  {
    var m := w + HighLength(w);
    assert |m| == 6 && m[5] == 128;
    assert LenField(m) >= WSBIT32;
    assert TWO_31 <= U32At(m, 2) < TWO_31 + 0x100_0000;
    assert U32At(m, 6) == 0;
    hide U32At;
    assert TWO_31 <= Extent(m) < TWO_32;
  }

  // ---------------------------------------------------------------------------------------------
  // Writing a frame

  function LenCode(s: u64): nat { if s < WSBIT32 then s else if s < TWO_32 then WSBIT32 else WSBIT64 }

  function LengthBytes(s: u64): seq<byte> {
    if s < WSBIT32 then [] else if s < TWO_32 then PutU32(s) else PutU64(s)
  }

  function MaskBytes(mask: Option<u32>): seq<byte> {
    if mask.Some? then PutU32(mask.value) else []
  }

  function Head(mask: Option<u32>, s: u64): seq<byte> {
    [0, 2 * LenCode(s) + if mask.Some? then 1 else 0] + LengthBytes(s) + MaskBytes(mask)
  }

  function Frame(mask: Option<u32>, payload: seq<byte>): seq<byte>
    requires |payload| < TWO_64
  {
    Head(mask, |payload|) + payload
  }

  /** WSMSG::set_size: the length field, and the extended length behind the flags. */
  method SetSize(t: array<byte>, s: u64)
    requires t.Length >= 2 + |LengthBytes(s)|
    modifies t
    ensures t[0] == old(t[0]) && t[1] == old(t[1]) % 2 + 2 * LenCode(s)
    ensures t[2..2 + |LengthBytes(s)|] == LengthBytes(s)
    ensures t[2 + |LengthBytes(s)|..] == old(t[2 + |LengthBytes(s)|..])
  {
    hide PutU32;
    if s < WSBIT32 {
      t[1] := t[1] % 2 + 2 * s;
    } else if s < TWO_32 {
      t[1] := t[1] % 2 + 2 * WSBIT32;
      StoreU32(t, 2, s);
      assert t[0] == t[..2][0] && t[1] == t[..2][1];
    } else {
      t[1] := t[1] % 2 + 2 * WSBIT64;
      StoreU32(t, 2, s % TWO_32);
      StoreU32(t, 6, s / TWO_32);
      assert t[0] == t[..6][0] && t[1] == t[..6][1];
      assert t[2..6] == t[..6][2..];
      assert t[2..10] == t[2..6] + t[6..10];
    }
  }

  /** WSMSG::set_mask: the mask bit, and the mask behind the extended length. */
  method SetMask(t: array<byte>, mask: u32)
    requires t.Length >= 6 + PayloadSize(t[..])
    modifies t
    ensures t[0] == old(t[0]) && t[1] == old(t[1]) / 2 * 2 + 1
    ensures var k := 2 + PayloadSize(old(t[..]));
      t[2..k] == old(t[2..k]) && t[k..k + 4] == PutU32(mask) && t[k + 4..] == old(t[k + 4..])
  {
    hide PutU32;
    var k := 2 + PayloadSize(t[..]);
    t[1] := t[1] / 2 * 2 + 1;
    ghost var before := t[..k];
    StoreU32(t, k, mask);
    assert t[..k] == before;
    assert t[0] == t[..k][0] && t[1] == t[..k][1] && t[2..k] == t[..k][2..];
  }

  /** The two forms of WSMSG::make. */
  method Make(mask: Option<u32>, payload: seq<byte>) returns (t: array<byte>)
    requires |payload| < TWO_64
    ensures fresh(t) && t[..] == Frame(mask, payload)
  {
    hide LengthBytes, MaskBytes, Head;
    var s := |payload|;
    var head := HeadLength(mask, s);
    t := new byte[head + s](i => 0);
    MakeHead(t, mask, s);
    if s > 0 {
      StoreBytes(t, head, payload);
    }
    assert t[..] == t[..head] + t[head..] && t[head..] == payload;
  }

  /** sizeof(WSMSG) + c_mask_size + c_payload_size, the mask only in the form that takes one. */
  function HeadLength(mask: Option<u32>, s: u64): (n: nat)
    ensures n == |Head(mask, s)|
  {
    2 + (if mask.Some? then 4 else 0) + if s < WSBIT32 then 0 else if s < TWO_32 then 4 else 8
  }

  method MakeHead(t: array<byte>, mask: Option<u32>, s: u64)
    requires t.Length >= HeadLength(mask, s) && t[0] == 0 && t[1] == 0
    modifies t
    ensures t[..HeadLength(mask, s)] == Head(mask, s)
    ensures t[HeadLength(mask, s)..] == old(t[HeadLength(mask, s)..])
  {
    ghost var k := 2 + |LengthBytes(s)|;
    SetSize(t, s);
    assert k + (if mask.Some? then 4 else 0) == HeadLength(mask, s);
    PayloadSizeOf(t[..], s);
    assert t[..k] == [t[0], t[1]] + t[2..k];
    hide LengthBytes, PutU32, PayloadSize;
    if mask.Some? {
      ghost var sized := t[..];
      hide *;
      SetMask(t, mask.value);
      MaskedHead(t[..], sized, mask.value, s);
    }
  }

  lemma PayloadSizeOf(m: seq<byte>, s: u64)
    requires |m| >= 2 && m[1] / 2 == LenCode(s)
    ensures PayloadSize(m) == |LengthBytes(s)|
  {
  }

  lemma MaskedHead(m: seq<byte>, sized: seq<byte>, mask: u32, s: u64)
    requires |m| == |sized| >= HeadLength(Some(mask), s)
    requires sized[..2] == [0, 2 * LenCode(s)] && sized[2..2 + |LengthBytes(s)|] == LengthBytes(s)
    requires var k := 2 + |LengthBytes(s)|;
      && m[0] == sized[0] && m[1] == sized[1] / 2 * 2 + 1
      && m[2..k] == sized[2..k] && m[k..k + 4] == PutU32(mask) && m[k + 4..] == sized[k + 4..]
    ensures var n := HeadLength(Some(mask), s);
      m[..n] == Head(Some(mask), s) && m[n..] == sized[n..]
  {
    hide PutU32, LengthBytes;
    var k := 2 + |LengthBytes(s)|;
    assert sized[0] == sized[..2][0] && sized[1] == sized[..2][1];
    assert m[..k + 4] == [m[0], m[1]] + m[2..k] + m[k..k + 4];
  }

  /** Reading back what make wrote, for every mask and payload, across the length boundaries, and
      whatever bytes follow. */
  lemma FrameRoundTrip(mask: Option<u32>, payload: seq<byte>, x: seq<byte>)
    requires |payload| < TWO_64
    ensures var m := Frame(mask, payload) + x;
      && Extent(m) == |Frame(mask, payload)|
      && Size(m) == |payload|
      && GetMask(m) == (if mask.Some? then mask.value else 0)
      && Data(m) == payload
  {
    var s := |payload|;
    var m := Frame(mask, payload) + x;
    var k := 2 + |LengthBytes(s)|;
    assert m[1] == 2 * LenCode(s) + if mask.Some? then 1 else 0;
    assert LenField(m) == LenCode(s) && PayloadSize(m) == |LengthBytes(s)|;
    FrameParts(mask, payload, x);
    LengthReadsBack(m, s);
    if mask.Some? {
      assert m[k..k + 4] == PutU32(mask.value);
      WordAt(m, k);
      GetPutU32(mask.value);
    }
    assert m[HeadSize(m)..Extent(m)] == payload;
  }

  /** The bytes of a frame.  A payload of at most 125 bytes has its length in the second byte; below
      2^32 that is 126 and four bytes of length follow, from there on 127 and eight; each from the
      lowest on.  The second byte's lowest bit says whether a mask follows, and the payload is last. */
  lemma FrameBytes(mask: Option<u32>, payload: seq<byte>)
    requires |payload| < TWO_64
    ensures var f, n, bit := Frame(mask, payload), |payload|, if mask.Some? then 1 else 0;
      var k := if n <= 125 then 2 else if n < 0x1_0000_0000 then 6 else 10;
      && |f| == k + 4 * bit + n
      && f[0] == 0 && f[1] == 2 * (if n <= 125 then n else if n < 0x1_0000_0000 then 126 else 127) + bit
      && (forall j | 0 <= j < k - 2 :: f[2..k][j] == ByteOf(n, j))
      && (mask.Some? ==> forall j | 0 <= j < 4 :: f[k..k + 4][j] == ByteOf(mask.value, j))
      && f[k + 4 * bit..] == payload
  {
    var f, n, l, w := Frame(mask, payload), |payload|, LengthBytes(|payload|), MaskBytes(mask);
    LengthBytesAre(n);
    if mask.Some? {
      PutU32Bytes(mask.value);
    }
    FrameParts(mask, payload, []);
    assert f + [] == f;
    hide ByteOf, PutU32;
  }

  lemma FrameParts(mask: Option<u32>, payload: seq<byte>, x: seq<byte>)
    requires |payload| < TWO_64
    ensures var m, l, w := Frame(mask, payload) + x, LengthBytes(|payload|), MaskBytes(mask);
      && m[2..2 + |l|] == l && m[2 + |l|..2 + |l| + |w|] == w
      && m[2 + |l| + |w|..2 + |l| + |w| + |payload|] == payload
  {
    hide LengthBytes, MaskBytes, LenCode;
  }

  lemma LengthBytesAre(n: u64)
    ensures |LengthBytes(n)| == if n <= 125 then 0 else if n < 0x1_0000_0000 then 4 else 8
    ensures forall j | 0 <= j < |LengthBytes(n)| :: LengthBytes(n)[j] == ByteOf(n, j)
  {
    if n < 0x1_0000_0000 {
      PutU32Bytes(n);
    } else {
      PutU64Bytes(n);
    }
    hide ByteOf, PutU32, PutU64;
  }

  lemma LengthReadsBack(m: seq<byte>, s: u64)
    requires |m| >= 2 + |LengthBytes(s)| && m[2..2 + |LengthBytes(s)|] == LengthBytes(s)
    requires LenField(m) == LenCode(s)
    ensures Size(m) == s
  {
    if WSBIT32 <= s < TWO_32 {
      WordAt(m, 2);
      GetPutU32(s);
    } else if s >= TWO_32 {
      WordAt(m, 2);
      WordAt(m, 6);
      assert m[2..6] == m[2..10][..4] && m[6..10] == m[2..10][4..];
      GetPutU64(s);
    }
  }

  /** Frames written with make and received in chunks are dispatched once each, in order, whatever
      lies behind the window, if and only if no read ends in a frame before its length is there. */
  lemma FramesSurviveChunking(contents: seq<(Option<u32>, seq<byte>)>, frames: seq<seq<byte>>,
                              partial: seq<byte>, chunks: seq<seq<byte>>)
    requires |frames| == |contents|
    requires forall i | 0 <= i < |frames| :: |contents[i].1| + 14 < TWO_31 && frames[i] == Frame(contents[i].0, contents[i].1)
    requires Extent(partial) > |partial| && Small(WS_LAYOUT, partial)
    requires forall i | 0 <= i < |chunks| :: chunks[i] != []
    requires Flatten(chunks) == Flatten(frames) + partial
    requires WindowsFit(WS_LAYOUT, [], chunks)
    ensures (forall mem :: Delivered(mem, contents, partial, chunks))
       <==> (forall k | 0 < k <= |chunks| ::
               var rest := RestAfter(WS_LAYOUT, [], chunks, k); rest == [] || Announced(rest))
  {
    hide Frame, Extent;
    forall i | 0 <= i < |frames| ensures Extent(frames[i]) == |frames[i]| < TWO_31 {
      FrameExtent(contents[i].0, contents[i].1);
    }
    hide WindowsFit, Small, Flatten, Delivered, RestAfter, Announced;
    StreamSurvives(contents, frames, partial, chunks);
  }

  lemma StreamSurvives(contents: seq<(Option<u32>, seq<byte>)>, frames: seq<seq<byte>>,
                       partial: seq<byte>, chunks: seq<seq<byte>>)
    requires Stream(WS_LAYOUT, frames, partial, chunks)
    requires |frames| == |contents|
    requires forall i | 0 <= i < |frames| :: |contents[i].1| < TWO_64 && frames[i] == Frame(contents[i].0, contents[i].1)
    requires forall i | 0 <= i < |chunks| :: chunks[i] != []
    ensures (forall mem :: Delivered(mem, contents, partial, chunks))
       <==> (forall k | 0 < k <= |chunks| ::
               var rest := RestAfter(WS_LAYOUT, [], chunks, k); rest == [] || Announced(rest))
  {
    IsSelfDelimiting();
    LengthDecidesWaiting();
    assert forall rest :: WS_LAYOUT.announced(rest) <==> Announced(rest);
    hide *;
    var p := Progress([], [], 0);
    ChunkingIndependence(WS_LAYOUT, frames, partial, p, chunks);
    NoShortReads(WS_LAYOUT, [], chunks);
    forall mem
      ensures Delivers(WS_LAYOUT, mem, p, chunks, frames, partial) <==> Delivered(mem, contents, partial, chunks)
    {
      SameDelivery(mem, contents, frames, partial, chunks);
    }
  }

  /** A new client that reads these chunks has dispatched exactly the payloads. */
  ghost predicate Delivered(mem: Memory, contents: seq<(Option<u32>, seq<byte>)>, partial: seq<byte>,
                            chunks: seq<seq<byte>>)
    requires forall i | 0 <= i < |chunks| :: chunks[i] != []
  {
    var r := Reads(Some(Recogniser(WS_LAYOUT)), mem, Progress([], [], 0), chunks);
    r.log == PayloadsOf(contents) && r.window == partial
  }

  function PayloadsOf(contents: seq<(Option<u32>, seq<byte>)>): seq<Event> {
    seq(|contents|, i requires 0 <= i < |contents| => Bare(contents[i].1))
  }

  lemma SameDelivery(mem: Memory, contents: seq<(Option<u32>, seq<byte>)>, frames: seq<seq<byte>>,
                     partial: seq<byte>, chunks: seq<seq<byte>>)
    requires |frames| == |contents|
    requires forall i | 0 <= i < |frames| :: |contents[i].1| < TWO_64 && frames[i] == Frame(contents[i].0, contents[i].1)
    requires forall i | 0 <= i < |chunks| :: chunks[i] != []
    ensures Delivers(WS_LAYOUT, mem, Progress([], [], 0), chunks, frames, partial)
       <==> Delivered(mem, contents, partial, chunks)
  {
    EventsOfFrames(contents, frames);
    hide Reads, Events, Frame;
    assert Events(WS_LAYOUT, frames) == PayloadsOf(contents);
    assert [] + PayloadsOf(contents) == PayloadsOf(contents);
  }

  lemma FrameExtent(mask: Option<u32>, payload: seq<byte>)
    requires |payload| < TWO_64
    ensures Extent(Frame(mask, payload)) == |Frame(mask, payload)| <= |payload| + 14
  {
    FrameRoundTrip(mask, payload, []);
    assert Frame(mask, payload) + [] == Frame(mask, payload);
  }

  lemma {:induction false} EventsOfFrames(contents: seq<(Option<u32>, seq<byte>)>, frames: seq<seq<byte>>)
    requires |frames| == |contents|
    requires forall i | 0 <= i < |frames| :: |contents[i].1| < TWO_64 && frames[i] == Frame(contents[i].0, contents[i].1)
    ensures var es := Events(WS_LAYOUT, frames);
      |es| == |contents| && forall i | 0 <= i < |contents| :: es[i] == Bare(contents[i].1)
    decreases |frames|
  {
    if frames != [] {
      EventsOfFrames(contents[1..], frames[1..]);
      FrameRoundTrip(contents[0].0, contents[0].1, []);
      assert frames[0] + [] == frames[0];
      var es := Events(WS_LAYOUT, frames);
      assert es == [Bare(contents[0].1)] + Events(WS_LAYOUT, frames[1..]);
    }
  }
}

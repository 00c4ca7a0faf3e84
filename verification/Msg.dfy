/** The MSG frame of src/msg: a header of three 32-bit words, length, command and error, then the payload. */
module Msg {
  import opened Bytes
  import opened Common
  import opened Framing

  const HEADER: nat := 12

  function Size(m: seq<byte>): u32 { U32At(m, 0) }
  function Cmd(m: seq<byte>): i32 { Int32(U32At(m, 4)) }
  function Error(m: seq<byte>): i32 { Int32(U32At(m, 8)) }
  function Data(m: seq<byte>): seq<byte> { Slice(m, HEADER, Size(m)) }
  function Extent(m: seq<byte>): nat { HEADER + Size(m) }

  /** What mydispatch::client delivers. */
  function ClientEvent(m: seq<byte>): Option<Event> { Some(Message(Cmd(m), Error(m), Data(m))) }

  /** What mydispatch::server delivers: nothing for an empty payload, and never an error. */
  function ServerEvent(m: seq<byte>): Option<Event> {
    if Size(m) > 0 then Some(Message(Cmd(m), 0, Data(m))) else None
  }

  /** The length word is in the first four bytes. */
  predicate Announced(m: seq<byte>) { |m| >= 4 }

  const CLIENT_LAYOUT := Layout(Extent, ClientEvent, Announced)
  const SERVER_LAYOUT := Layout(Extent, ServerEvent, Announced)

  /** The header and the data of a whole frame do not depend on what follows it. */
  lemma WholeFrameIsStable(w: seq<byte>, x: seq<byte>)
    requires Extent(w) <= |w| || Extent(w + x) <= |w|
    ensures Extent(w + x) == Extent(w) <= |w|
    ensures ClientEvent(w + x) == ClientEvent(w[..Extent(w)])
    ensures ServerEvent(w + x) == ServerEvent(w[..Extent(w)])
  {
    assert |w| >= HEADER;
    assert forall i | 0 <= i < HEADER :: At(w + x, i) == At(w, i) == w[i];
    var f := w[..Extent(w)];
    assert forall i | 0 <= i < HEADER :: At(f, i) == w[i];
    assert Data(w + x) == w[HEADER..Extent(w)] == Data(f);
  }

  lemma IsSelfDelimiting()
    ensures SelfDelimiting(CLIENT_LAYOUT) && SelfDelimiting(SERVER_LAYOUT)
  {
    forall w, x | Extent(w) <= |w| || Extent(w + x) <= |w|
      ensures Extent(w + x) == Extent(w)
      ensures ClientEvent(w + x) == ClientEvent(w[..Extent(w)])
      ensures ServerEvent(w + x) == ServerEvent(w[..Extent(w)])
    {
      WholeFrameIsStable(w, x);
    }
  }

  /** Four bytes decide: with them the recogniser waits for the rest whatever lies behind; with
      fewer, stale bytes can make the length look like 2^31 or more. */
  lemma LengthDecidesWaiting()
    ensures LengthDecides(CLIENT_LAYOUT) && LengthDecides(SERVER_LAYOUT)
  {
    hide Extent, Size, Recognise, Unfinished, Misread, Waits;
    forall l, w | l in {CLIENT_LAYOUT, SERVER_LAYOUT} && Unfinished(l, w)
      ensures if Announced(w) then Waits(l, w) else exists x :: Misread(l, w, x)
    {
      if Announced(w) {
        AnnouncedWaits(l, w);
      } else {
        HighLengthMisleads(l, w);
      }
    }
  }

  lemma AnnouncedWaits(l: Layout, w: seq<byte>)
    requires l.extent == Extent && Unfinished(l, w) && Announced(w)
    ensures Waits(l, w)
  {
    hide Extent;
    var more :| Extent(w + more) < TWO_31;
    SameLength(w, w + more);
    forall x ensures Recognise(l, w, x) == Verdict(0, None) {
      SameLength(w, w + x);
    }
  }

  lemma HighLengthMisleads(l: Layout, w: seq<byte>)
    requires l in {CLIENT_LAYOUT, SERVER_LAYOUT} && !Announced(w)
    ensures Misread(l, w, HighLength(w))
  {
    HighLengthIsNegative(w);
    hide Extent, Size;
  }

  lemma SameLength(a: seq<byte>, b: seq<byte>)
    requires 4 <= |a| <= |b| && a == b[..|a|]
    ensures Extent(b) == Extent(a)
  {
    assert forall i | 0 <= i < 4 :: At(b, i) == At(a, i);
  }

  /** Bytes that complete a length word to one whose highest byte is 128. */
  function HighLength(w: seq<byte>): seq<byte> { if |w| < 4 then seq(3 - |w|, _ => 0) + [128] else [] }

  lemma HighLengthIsNegative(w: seq<byte>)
    requires |w| < 4
    ensures Size(w + HighLength(w)) >= TWO_31 && Int32(Extent(w + HighLength(w))) < 0
  {
    assert (w + HighLength(w))[3] == 128;
  }

  // ---------------------------------------------------------------------------------------------
  // Writing a frame

  function Frame(cmd: i32, error: i32, payload: seq<byte>): seq<byte>
    requires |payload| < TWO_32
  {
    PutU32(|payload|) + PutU32(Unsigned(cmd)) + PutU32(Unsigned(error)) + payload
  }

  /** Writes a word into memory, low byte first. */
  method StoreU32(t: array<byte>, i: nat, v: u32)
    requires i + 4 <= t.Length
    modifies t
    ensures t[..i] == old(t[..i]) && t[i..i + 4] == PutU32(v) && t[i + 4..] == old(t[i + 4..])
  {
    t[i], t[i + 1], t[i + 2], t[i + 3] := v % 256, v / 256 % 256, v / 256 / 256 % 256, v / 256 / 256 / 256;
  }

  /** memcpy of bytes into memory. */
  method StoreBytes(t: array<byte>, i: nat, bytes: seq<byte>)
    requires i + |bytes| <= t.Length
    modifies t
    ensures t[..i] == old(t[..i]) && t[i..i + |bytes|] == bytes && t[i + |bytes|..] == old(t[i + |bytes|..])
  {
    forall k | 0 <= k < |bytes| {
      t[i + k] := bytes[k];
    }
  }

  /** MSG::make.  The overloads without a payload or without an error pass an empty one or 0. */
  method Make(cmd: i32, error: i32, payload: seq<byte>) returns (t: array<byte>)
    requires |payload| < TWO_32
    ensures fresh(t) && t[..] == Frame(cmd, error, payload)
  {
    hide PutU32;
    t := new byte[HEADER + |payload|](i => 0);
    StoreU32(t, 0, |payload|);
    StoreU32(t, 4, Unsigned(cmd));
    assert t[..8] == PutU32(|payload|) + PutU32(Unsigned(cmd));
    StoreU32(t, 8, Unsigned(error));
    assert t[..HEADER] == t[..8] + PutU32(Unsigned(error));
    if |payload| > 0 {
      StoreBytes(t, HEADER, payload);
    }
    assert t[..] == t[..HEADER] + t[HEADER..] && t[HEADER..] == payload;
  }

  /** Reading back what make wrote, whatever follows it in memory. */
  lemma FrameRoundTrip(cmd: i32, error: i32, payload: seq<byte>, x: seq<byte>)
    requires |payload| < TWO_32
    ensures var m := Frame(cmd, error, payload) + x;
      && Extent(m) == |Frame(cmd, error, payload)|
      && Cmd(m) == cmd && Error(m) == error && Data(m) == payload
  {
    var f := Frame(cmd, error, payload);
    var m := f + x;
    assert m[0..4] == PutU32(|payload|) && m[4..8] == PutU32(Unsigned(cmd)) && m[8..12] == PutU32(Unsigned(error));
    WordAt(m, 0);
    WordAt(m, 4);
    WordAt(m, 8);
    GetPutU32(|payload|);
    GetPutU32(Unsigned(cmd));
    GetPutU32(Unsigned(error));
    Int32OfUnsigned(cmd);
    Int32OfUnsigned(error);
    assert m[HEADER..HEADER + |payload|] == payload;
  }

  /** The bytes of a frame: length, command and error, each with its lowest byte first and the signed
      ones in two's complement, and the payload. */
  lemma FrameBytes(cmd: i32, error: i32, payload: seq<byte>)
    requires |payload| < TWO_32
    ensures var f := Frame(cmd, error, payload);
      && |f| == 12 + |payload| && f[12..] == payload
      && forall j | 0 <= j < 4 ::
           && f[j] == ByteOf(|payload|, j)
           && f[4 + j] == ByteOf(cmd % TWO_32, j)
           && f[8 + j] == ByteOf(error % TWO_32, j)
  {
    PutU32Bytes(|payload|);
    PutU32Bytes(Unsigned(cmd));
    PutU32Bytes(Unsigned(error));
    hide PutU32, ByteOf;
  }

  /** What the two recognisers deliver of a frame, whatever follows it. */
  lemma EventsOfFrame(cmd: i32, error: i32, payload: seq<byte>, x: seq<byte>)
    requires |payload| < TWO_32
    ensures var m := Frame(cmd, error, payload) + x;
      && ClientEvent(m) == Some(Message(cmd, error, payload))
      && ServerEvent(m) == if payload != [] then Some(Message(cmd, 0, payload)) else None
  {
    FrameRoundTrip(cmd, error, payload, x);
    hide Frame;
  }

  lemma WordAt(m: seq<byte>, i: nat)
    requires i + 4 <= |m|
    ensures U32At(m, i) == GetU32(m[i..i + 4])
  {
    assert m[i..i + 4] == [At(m, i), At(m, i + 1), At(m, i + 2), At(m, i + 3)];
  }

  // ---------------------------------------------------------------------------------------------
  // Streams of frames

  datatype Content = Content(cmd: i32, error: i32, payload: seq<byte>)

  function FramesOf(cs: seq<Content>): (fs: seq<seq<byte>>)
    requires forall i | 0 <= i < |cs| :: |cs[i].payload| < TWO_32
    ensures |fs| == |cs| && forall i | 0 <= i < |cs| :: fs[i] == Frame(cs[i].cmd, cs[i].error, cs[i].payload)
  {
    if cs == [] then [] else [Frame(cs[0].cmd, cs[0].error, cs[0].payload)] + FramesOf(cs[1..])
  }

  function MessagesOf(cs: seq<Content>): seq<Event> {
    seq(|cs|, i requires 0 <= i < |cs| => Message(cs[i].cmd, cs[i].error, cs[i].payload))
  }

  /** What a server is told: the command and payload of every message that has one. */
  function RequestsOf(cs: seq<Content>): seq<Event> {
    if cs == [] then []
    else (if cs[0].payload != [] then [Message(cs[0].cmd, 0, cs[0].payload)] else []) + RequestsOf(cs[1..])
  }

  lemma {:induction false} EventsOfFrames(cs: seq<Content>)
    requires forall i | 0 <= i < |cs| :: |cs[i].payload| < TWO_32
    ensures Events(CLIENT_LAYOUT, FramesOf(cs)) == MessagesOf(cs)
    decreases |cs|
  {
    hide Frame, ClientEvent;
    if cs != [] {
      EventsOfFrames(cs[1..]);
      FrameEvent(cs[0]);
      assert FramesOf(cs)[1..] == FramesOf(cs[1..]);
      assert MessagesOf(cs) == [Message(cs[0].cmd, cs[0].error, cs[0].payload)] + MessagesOf(cs[1..]);
    }
  }

  lemma {:induction false} RequestsOfFrames(cs: seq<Content>)
    requires forall i | 0 <= i < |cs| :: |cs[i].payload| < TWO_32
    ensures Events(SERVER_LAYOUT, FramesOf(cs)) == RequestsOf(cs)
    decreases |cs|
  {
    hide Frame, ServerEvent, Size, Cmd, Extent;
    if cs != [] {
      var frames := FramesOf(cs);
      assert frames[1..] == FramesOf(cs[1..]);
      assert Events(SERVER_LAYOUT, frames) == Logged([], ServerEvent(frames[0])) + Events(SERVER_LAYOUT, frames[1..]);
      FrameEvent(cs[0]);
      hide Events, FramesOf;
      RequestsOfFrames(cs[1..]);
    }
  }

  lemma FrameEvent(c: Content)
    requires |c.payload| < TWO_32
    ensures ClientEvent(Frame(c.cmd, c.error, c.payload)) == Some(Message(c.cmd, c.error, c.payload))
    ensures ServerEvent(Frame(c.cmd, c.error, c.payload))
         == if c.payload != [] then Some(Message(c.cmd, 0, c.payload)) else None
  {
    EventsOfFrame(c.cmd, c.error, c.payload, []);
    assert Frame(c.cmd, c.error, c.payload) + [] == Frame(c.cmd, c.error, c.payload);
  }

  /** Frames written with make are frames in the sense of the stream theorems. */
  lemma MadeFramesAreSmall(cs: seq<Content>)
    requires forall i | 0 <= i < |cs| :: HEADER + |cs[i].payload| < TWO_31
    ensures forall i | 0 <= i < |cs| :: Extent(FramesOf(cs)[i]) == |FramesOf(cs)[i]| < TWO_31
  {
    forall i | 0 <= i < |cs| ensures Extent(FramesOf(cs)[i]) == |FramesOf(cs)[i]| < TWO_31 {
      MadeFrameIsWhole(cs[i].cmd, cs[i].error, cs[i].payload);
    }
  }

  lemma MadeFrameIsWhole(cmd: i32, error: i32, payload: seq<byte>)
    requires |payload| < TWO_32
    ensures Extent(Frame(cmd, error, payload)) == |Frame(cmd, error, payload)|
  {
    FrameRoundTrip(cmd, error, payload, []);
    assert Frame(cmd, error, payload) + [] == Frame(cmd, error, payload);
  }

  /** Messages written with make and received in chunks are delivered once each, in order, with
      command, error and payload intact, and an unfinished frame at the end stays buffered, whatever
      lies behind the window, if and only if no read ends one, two or three bytes into a frame. */
  lemma MessagesSurviveChunking(cs: seq<Content>, partial: seq<byte>, chunks: seq<seq<byte>>)
    requires forall i | 0 <= i < |cs| :: HEADER + |cs[i].payload| < TWO_31
    requires Extent(partial) > |partial| && Small(CLIENT_LAYOUT, partial)
    requires forall i | 0 <= i < |chunks| :: chunks[i] != []
    requires Flatten(chunks) == Flatten(FramesOf(cs)) + partial
    requires WindowsFit(CLIENT_LAYOUT, [], chunks)
    ensures (forall mem :: Delivered(CLIENT_LAYOUT, mem, MessagesOf(cs), partial, chunks))
       <==> (forall k | 0 < k <= |chunks| :: |RestAfter(CLIENT_LAYOUT, [], chunks, k)| !in {1, 2, 3})
  {
    MadeStream(CLIENT_LAYOUT, cs, partial, chunks);
    EventsOfFrames(cs);
    StreamSurvives(CLIENT_LAYOUT, FramesOf(cs), MessagesOf(cs), partial, chunks);
  }

  /** The same for the server, which is told of the messages with a payload, and never of an error. */
  lemma RequestsSurviveChunking(cs: seq<Content>, partial: seq<byte>, chunks: seq<seq<byte>>)
    requires forall i | 0 <= i < |cs| :: HEADER + |cs[i].payload| < TWO_31
    requires Extent(partial) > |partial| && Small(SERVER_LAYOUT, partial)
    requires forall i | 0 <= i < |chunks| :: chunks[i] != []
    requires Flatten(chunks) == Flatten(FramesOf(cs)) + partial
    requires WindowsFit(SERVER_LAYOUT, [], chunks)
    ensures (forall mem :: Delivered(SERVER_LAYOUT, mem, RequestsOf(cs), partial, chunks))
       <==> (forall k | 0 < k <= |chunks| :: |RestAfter(SERVER_LAYOUT, [], chunks, k)| !in {1, 2, 3})
  {
    MadeStream(SERVER_LAYOUT, cs, partial, chunks);
    RequestsOfFrames(cs);
    StreamSurvives(SERVER_LAYOUT, FramesOf(cs), RequestsOf(cs), partial, chunks);
  }

  ghost predicate IsMsgLayout(l: Layout) { l == CLIENT_LAYOUT || l == SERVER_LAYOUT }

  lemma MadeStream(l: Layout, cs: seq<Content>, partial: seq<byte>, chunks: seq<seq<byte>>)
    requires IsMsgLayout(l) && forall i | 0 <= i < |cs| :: HEADER + |cs[i].payload| < TWO_31
    requires Extent(partial) > |partial| && Small(l, partial)
    requires forall i | 0 <= i < |chunks| :: chunks[i] != []
    requires Flatten(chunks) == Flatten(FramesOf(cs)) + partial
    requires WindowsFit(l, [], chunks)
    ensures Stream(l, FramesOf(cs), partial, chunks)
  {
    MadeFramesAreSmall(cs);
    hide WindowsFit, Small, Extent, FramesOf, Flatten;
  }

  lemma StreamSurvives(l: Layout, frames: seq<seq<byte>>, expected: seq<Event>, partial: seq<byte>,
                       chunks: seq<seq<byte>>)
    requires IsMsgLayout(l) && Events(l, frames) == expected
    requires Stream(l, frames, partial, chunks)
    ensures (forall i | 0 <= i < |chunks| :: chunks[i] != [])
    ensures (forall mem :: Delivered(l, mem, expected, partial, chunks))
       <==> (forall k | 0 < k <= |chunks| :: |RestAfter(l, [], chunks, k)| !in {1, 2, 3})
  {
    assert forall i | 0 <= i < |chunks| :: chunks[i] != [];
    IsSelfDelimiting();
    LengthDecidesWaiting();
    AnnouncedUnlessShort(l, chunks);
    assert SelfDelimiting(l) && LengthDecides(l);
    hide *;
    var p := Progress([], [], 0);
    ChunkingIndependence(l, frames, partial, p, chunks);
    NoShortReads(l, [], chunks);
    forall mem ensures Delivers(l, mem, p, chunks, frames, partial) <==> Delivered(l, mem, expected, partial, chunks) {
      SameDelivery(l, mem, frames, expected, partial, chunks);
    }
  }

  lemma SameDelivery(l: Layout, mem: Memory, frames: seq<seq<byte>>, expected: seq<Event>, partial: seq<byte>,
                     chunks: seq<seq<byte>>)
    requires Events(l, frames) == expected
    requires forall i | 0 <= i < |chunks| :: chunks[i] != []
    ensures Delivers(l, mem, Progress([], [], 0), chunks, frames, partial)
       <==> Delivered(l, mem, expected, partial, chunks)
  {
    assert [] + expected == expected;
    hide Reads, Events;
  }

  /** A new client that reads these chunks has delivered exactly what is expected. */
  ghost predicate Delivered(l: Layout, mem: Memory, expected: seq<Event>, partial: seq<byte>, chunks: seq<seq<byte>>)
    requires forall i | 0 <= i < |chunks| :: chunks[i] != []
  {
    var r := Reads(Some(Recogniser(l)), mem, Progress([], [], 0), chunks);
    r.log == expected && r.window == partial
  }

  lemma AnnouncedUnlessShort(l: Layout, chunks: seq<seq<byte>>)
    requires IsMsgLayout(l)
    ensures forall k | 0 < k <= |chunks| :: var rest := RestAfter(l, [], chunks, k);
      (rest == [] || l.announced(rest)) <==> |rest| !in {1, 2, 3}
  {
  }
}

/** The receiving client with the MSG recogniser, on the client's own buffer: what it delivers of a
    stream of messages, and how stale bytes of that buffer can be taken for a message. */
module Streams {
  import opened Bytes
  import opened Common
  import opened Framing
  import opened IoBuffer
  import opened Client
  import opened Msg

  /** No read ends one, two or three bytes into a frame. */
  predicate NoneEndsInALength(chunks: seq<seq<byte>>) {
    forall k | 0 < k <= |chunks| :: |RestAfter(CLIENT_LAYOUT, [], chunks, k)| !in {1, 2, 3}
  }

  /** A client is fed messages written with make, and the beginning of another one, in pieces.  It
      delivers exactly the messages, in order and intact, and buffers exactly the beginning, if none
      of its reads ends one, two or three bytes into a frame; reads are the pieces themselves when
      none exceeds 0x1000 bytes. */
  method ReceiveMessages(cs: seq<Content>, partial: seq<byte>, segments: seq<seq<byte>>)
    returns (log: seq<Event>, window: seq<byte>, chunks: seq<seq<byte>>)
    requires forall i | 0 <= i < |cs| :: HEADER + |cs[i].payload| < TWO_31
    requires Extent(partial) > |partial| && Small(CLIENT_LAYOUT, partial)
    requires forall i | 0 <= i < |segments| :: segments[i] != []
    requires Flatten(segments) == Flatten(FramesOf(cs)) + partial
    ensures Flatten(chunks) == Flatten(segments) && forall i | 0 <= i < |chunks| :: chunks[i] != []
    ensures (forall i | 0 <= i < |segments| :: |segments[i]| <= 0x1000) ==> chunks == segments
    ensures WindowsFit(CLIENT_LAYOUT, [], chunks) && NoneEndsInALength(chunks)
            ==> log == MessagesOf(cs) && window == partial
  {
    hide Reads, WindowsFit, Small, Extent, FramesOf, MessagesOf, RestAfter, Flatten;
    var c := new Client();
    c.dispatch := Some(Recogniser(CLIENT_LAYOUT));
    chunks := c.Recv(segments);
    log, window := c.log, c.iobuf.Window();
    if WindowsFit(CLIENT_LAYOUT, [], chunks) && NoneEndsInALength(chunks) {
      MessagesSurviveChunking(cs, partial, chunks);
      assert Delivered(CLIENT_LAYOUT, Recorded(c.seen), MessagesOf(cs), partial, chunks);
    }
  }

  const FIRST := Frame(0, 0, [255, 255, 255, 255])
  const SECOND := Frame(0, 0, [])

  const HALF: seq<byte> := [1, 0]

  lemma ParseFirst()
    ensures Parse(CLIENT_LAYOUT, FIRST) == Parsed([FIRST], [])
    ensures ClientEvent(FIRST) == Some(Message(0, 0, [255, 255, 255, 255])) && |FIRST| == 16
    ensures FIRST[12..] == [255, 255, 255, 255]
  {
    IsSelfDelimiting();
    FrameEvent(Content(0, 0, [255, 255, 255, 255]));
    MadeFrameIsWhole(0, 0, [255, 255, 255, 255]);
    assert Flatten([FIRST]) + [] == FIRST;
    ParseFrames(CLIENT_LAYOUT, [FIRST], []);
  }

  lemma ParseSecond()
    ensures Parse(CLIENT_LAYOUT, SECOND + HALF) == Parsed([SECOND], HALF)
    ensures ClientEvent(SECOND) == Some(Message(0, 0, [])) && |SECOND| == 12
  {
    IsSelfDelimiting();
    FrameEvent(Content(0, 0, []));
    MadeFrameIsWhole(0, 0, []);
    assert Flatten([SECOND]) == SECOND;
    ParseFrames(CLIENT_LAYOUT, [SECOND], HALF);
  }

  lemma FirstRead(mem: Memory)
    ensures Read(Some(Recogniser(CLIENT_LAYOUT)), mem, Progress([], [], 0), FIRST)
         == Progress([], [Message(0, 0, [255, 255, 255, 255])], 1)
  {
    IsSelfDelimiting();
    ParseFirst();
    hide Consume, Parse, SelfDelimiting, ClientEvent;
    assert [] + FIRST == FIRST;
    ConsumeParses(CLIENT_LAYOUT, mem, Progress(FIRST, [], 0));
    assert Events(CLIENT_LAYOUT, [FIRST]) == Logged([], ClientEvent(FIRST)) + Events(CLIENT_LAYOUT, []);
  }

  /** The bytes 255, 255 behind the half make it a frame of negative length. */
  lemma HalfIsMisread(x: seq<byte>)
    requires [255, 255] <= x
    ensures Misread(CLIENT_LAYOUT, HALF, x)
  {
    var m := HALF + x;
    assert m[0] == 1 && m[1] == 0 && m[2] == x[0] && m[3] == x[1];
    assert Size(m) == 0xFFFF_0001;
  }

  lemma HalfWaits()
    ensures Recognise(CLIENT_LAYOUT, HALF, []) == Verdict(0, None)
  {
    assert HALF + [] == HALF;
  }

  lemma SecondRead(seen: seq<seq<byte>>, log: seq<Event>)
    requires forall k | 1 <= k < |seen| :: [255, 255] <= seen[k]
    ensures var r := Read(Some(Recogniser(CLIENT_LAYOUT)), Recorded(seen), Progress([], log, 1), SECOND + HALF);
      && r.calls == 3 && r.window == HALF
      && (|seen| >= 3 ==> |r.log| == |log| + 2 && log + [Message(0, 0, [])] <= r.log)
  {
    hide Consume, Parse, ClientEvent, Recognise, Frame;
    ParseSecond();
    HalfStays(seen);
    assert [] + (SECOND + HALF) == SECOND + HALF;
    assert SelfDelimiting(CLIENT_LAYOUT) by { IsSelfDelimiting(); }
    SecondEvents();
    hide SelfDelimiting, Misread, Stays, Events, Extent;
    ConsumeParses(CLIENT_LAYOUT, Recorded(seen), Progress(SECOND + HALF, log, 1));
  }

  lemma SecondEvents()
    ensures Events(CLIENT_LAYOUT, [SECOND]) == [Message(0, 0, [])]
  {
    ParseSecond();
    assert Events(CLIENT_LAYOUT, [SECOND]) == Logged([], ClientEvent(SECOND)) + Events(CLIENT_LAYOUT, []);
  }

  lemma HalfStays(seen: seq<seq<byte>>)
    requires forall k | 1 <= k < |seen| :: [255, 255] <= seen[k]
    ensures Stays(CLIENT_LAYOUT, Recorded(seen), 1, HALF)
    ensures |seen| >= 3 ==> Recognise(CLIENT_LAYOUT, HALF, Recorded(seen)(2, HALF)).event.Some?
  {
    hide Recognise;
    HalfWaits();
    forall k | 1 <= k < |seen| ensures Misread(CLIENT_LAYOUT, HALF, seen[k]) {
      HalfIsMisread(seen[k]);
    }
  }

  /** A run on which the recogniser fails: one whole message, and then an empty one together with the
      first two bytes of the next.  Behind those lie two bytes of the first message's payload, the
      length they make up is negative as an int, and a third message is delivered that nobody sent. */
  method StaleBytesAreDelivered() returns (log: seq<Event>, window: seq<byte>)
    ensures |log| == 3 && log[..2] == [Message(0, 0, [255, 255, 255, 255]), Message(0, 0, [])]
    ensures window == [1, 0]
  {
    hide Read, Frame;
    ParseFirst();
    ParseSecond();
    var c := new Client();
    c.dispatch := Some(Recogniser(CLIENT_LAYOUT));
    var r := c.ReadOnce(FIRST);
    assert FIRST[..r] == FIRST;
    FirstRead(Recorded(c.seen));
    assert c.Value() == Progress([], [Message(0, 0, [255, 255, 255, 255])], 1);
    log := c.log;
    assert c.iobuf.buffer[..][12..16] == [255, 255, 255, 255];
    assert c.iobuf.Level() == Fill(0, 0, 0x1000);
    r := c.ReadOnce(SECOND + HALF);
    assert c.iobuf.buffer[14] == 255 && c.iobuf.buffer[15] == 255;
    assert [255, 255] <= c.iobuf.buffer[14..];
    assert (SECOND + HALF)[..r] == SECOND + HALF;
    SecondRead(c.seen, log);
    assert c.Value().calls == 3;
    log, window := c.log, c.iobuf.Window();
  }
}

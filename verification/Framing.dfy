/**
  Frames in a byte stream: the recognisers of src/msg/mydispatch.h, which see a window of received
  bytes and must find the next whole frame in it, and the read/dispatch/consume loop of
  src/service/client.cpp as a function on values.
*/
module Framing {
  import opened Bytes
  import opened Common

  datatype Event = Message(cmd: int, error: int, payload: seq<byte>) | Bare(payload: seq<byte>)

  /** A message type, as accessors on the memory a frame starts at.
      extent: message_size(), before it is narrowed to int; event: what dispatching it delivers;
      announced: the bytes that message_size() as an int depends on are all there. */
  datatype Layout = Layout(extent: seq<byte> -> nat, event: seq<byte> -> Option<Event>, announced: seq<byte> -> bool)

  datatype Verdict = Verdict(consumed: int, event: Option<Event>)

  /** A dispatch function: the window and the memory behind it. */
  type Dispatch = (seq<byte>, seq<byte>) -> Verdict

  /** mydispatch<_MSG>::server and ::client.  The header is read from the start of the window even
      when the window is shorter than a header, so the bytes beyond it matter. */
  function Recognise(l: Layout, w: seq<byte>, beyond: seq<byte>): Verdict {
    var m := w + beyond;
    if Int32(l.extent(m)) > Int32(|w|) then Verdict(0, None)
    else Verdict(Int32(l.extent(m)), l.event(m))
  }

  function Recogniser(l: Layout): Dispatch {
    (w, beyond) => Recognise(l, w, beyond)
  }

  // ---------------------------------------------------------------------------------------------
  // client::recv

  /** Where a client stands: its window, what it has dispatched, and how often it has called. */
  datatype Progress = Progress(window: seq<byte>, log: seq<Event>, calls: nat)

  /** The memory behind the window is arbitrary: it may differ from call to call. */
  type Memory = (nat, seq<byte>) -> seq<byte>

  function Logged(log: seq<Event>, e: Option<Event>): seq<Event> {
    if e.Some? then log + [e.value] else log
  }

  /** One call of the dispatch function, and pop_front of what it has consumed. */
  function DispatchOnce(d: Dispatch, mem: Memory, p: Progress): (r: Progress)
    ensures |r.window| <= |p.window|
    ensures d(p.window, mem(p.calls, p.window)).consumed > 0 && p.window != [] ==> |r.window| < |p.window|
  {
    var v := d(p.window, mem(p.calls, p.window));
    var window := if v.consumed > 0 then p.window[Min(v.consumed, |p.window|)..] else p.window;
    Progress(window, Logged(p.log, v.event), p.calls + 1)
  }

  /** The inner loop: dispatch until nothing is consumed or nothing is left. */
  function Consume(d: Dispatch, mem: Memory, p: Progress): Progress
    requires p.window != []
    decreases |p.window|
  {
    var q := DispatchOnce(d, mem, p);
    if d(p.window, mem(p.calls, p.window)).consumed <= 0 || q.window == [] then q else Consume(d, mem, q)
  }

  /** One read of recv that returned some bytes. */
  function Read(d: Option<Dispatch>, mem: Memory, p: Progress, bytes: seq<byte>): Progress
    requires bytes != []
  {
    if d.None? then p.(window := []) else Consume(d.value, mem, p.(window := p.window + bytes))
  }

  function Reads(d: Option<Dispatch>, mem: Memory, p: Progress, chunks: seq<seq<byte>>): Progress
    requires forall i | 0 <= i < |chunks| :: chunks[i] != []
    decreases |chunks|
  {
    if chunks == [] then p else Reads(d, mem, Read(d, mem, p, chunks[0]), chunks[1..])
  }

  /** One call of dispatch, whatever it claims: what it delivers is logged, and what it claims to have
      consumed leaves the window, all of it if it claims more than there is. */
  lemma DispatchIsExact(d: Dispatch, mem: Memory, p: Progress)
    ensures var v, r := d(p.window, mem(p.calls, p.window)), DispatchOnce(d, mem, p);
      && r.log == p.log + (if v.event.Some? then [v.event.value] else [])
      && r.window == (if v.consumed <= 0 then p.window
                      else if v.consumed >= |p.window| then [] else p.window[v.consumed..])
      && r.calls == p.calls + 1
  {
  }

  /** Without a dispatch function everything read is dropped. */
  lemma {:induction false} NothingStaysWithoutDispatch(mem: Memory, p: Progress, chunks: seq<seq<byte>>)
    requires forall i | 0 <= i < |chunks| :: chunks[i] != []
    ensures Reads(None, mem, p, chunks) == if chunks == [] then p else Progress([], p.log, p.calls)
    decreases |chunks|
  {
    if chunks != [] {
      NothingStaysWithoutDispatch(mem, Progress([], p.log, p.calls), chunks[1..]);
    }
  }

  // ---------------------------------------------------------------------------------------------
  // What a stream of frames means

  /** The frames at the start of a byte string, and the unfinished rest. */
  datatype Parsed = Parsed(frames: seq<seq<byte>>, rest: seq<byte>)

  function Parse(l: Layout, s: seq<byte>): Parsed
    decreases |s|
  {
    var n := l.extent(s);
    if n == 0 || n > |s| then Parsed([], s)
    else
      var p := Parse(l, s[n..]);
      Parsed([s[..n]] + p.frames, p.rest)
  }

  function Events(l: Layout, frames: seq<seq<byte>>): seq<Event> {
    if frames == [] then [] else Logged([], l.event(frames[0])) + Events(l, frames[1..])
  }

  /** The bytes a frame consists of determine its length and what it delivers, and no string that
      is still too short looks like a whole frame, whatever follows it in memory. */
  ghost predicate SelfDelimiting(l: Layout) {
    && (forall m :: l.extent(m) > 0)
    && (forall w, x :: l.extent(w) <= |w| || l.extent(w + x) <= |w| ==> l.extent(w + x) == l.extent(w))
    && (forall w, x :: l.extent(w) <= |w| ==> l.event(w + x) == l.event(w[..l.extent(w)]))
  }

  /** What is there can be the start of a frame of less than 2^31 bytes. */
  ghost predicate Small(l: Layout, w: seq<byte>) {
    exists more :: l.extent(w + more) < TWO_31
  }

  /** Every frame of the string, and its unfinished rest, is small. */
  ghost predicate AllSmall(l: Layout, s: seq<byte>)
    decreases |s|
  {
    && Small(l, s)
    && (0 < l.extent(s) <= |s| ==> AllSmall(l, s[l.extent(s)..]))
  }

  /** Every window shown to the recogniser is shorter than 2^31 bytes. */
  ghost predicate WindowsFit(l: Layout, w: seq<byte>, chunks: seq<seq<byte>>)
    decreases |chunks|
  {
    chunks != [] ==>
      && |w| + |chunks[0]| < TWO_31
      && WindowsFit(l, Parse(l, w + chunks[0]).rest, chunks[1..])
  }

  // ---------------------------------------------------------------------------------------------
  // Unfinished frames and the memory behind them

  /** A window with the beginning of one frame. */
  ghost predicate Unfinished(l: Layout, w: seq<byte>) {
    0 < |w| < TWO_31 && |w| < l.extent(w) && Small(l, w)
  }

  /** The recogniser waits for more, whatever lies behind the window. */
  ghost predicate Waits(l: Layout, w: seq<byte>) {
    forall x :: Recognise(l, w, x) == Verdict(0, None)
  }

  /** With x behind the window the recogniser dispatches what is not there, and consumes nothing. */
  ghost predicate Misread(l: Layout, w: seq<byte>, x: seq<byte>) {
    Recognise(l, w, x).consumed <= 0 && Recognise(l, w, x).event.Some?
  }

  /** On an unfinished frame the recogniser is right for every memory if its length is announced;
      otherwise some memory misleads it. */
  ghost predicate LengthDecides(l: Layout) {
    forall w | Unfinished(l, w) :: if l.announced(w) then Waits(l, w) else exists x :: Misread(l, w, x)
  }

  /** How many of the reads end inside a frame whose length is not announced yet. */
  function ShortReads(l: Layout, w: seq<byte>, chunks: seq<seq<byte>>): nat
    decreases |chunks|
  {
    if chunks == [] then 0
    else
      var rest := Parse(l, w + chunks[0]).rest;
      (if rest == [] || l.announced(rest) then 0 else 1) + ShortReads(l, rest, chunks[1..])
  }

  /** Exactly the frames are dispatched, in order, and exactly the unfinished bytes stay. */
  ghost predicate Delivers(l: Layout, mem: Memory, p: Progress, chunks: seq<seq<byte>>,
                           frames: seq<seq<byte>>, partial: seq<byte>)
    requires forall i | 0 <= i < |chunks| :: chunks[i] != []
  {
    var r := Reads(Some(Recogniser(l)), mem, p, chunks);
    r.window == partial && r.log == p.log + Events(l, frames)
  }

  /** Memory behind a window that never makes it look like a frame of 2^31 bytes or more. */
  ghost predicate Benign(l: Layout, mem: Memory) {
    forall k, w :: Small(l, w) ==> l.extent(w + mem(k, w)) < TWO_31
  }

  /** Memory that misleads wherever some memory does. */
  ghost function Stale(l: Layout): Memory {
    (k, w) => if exists x :: Misread(l, w, x) then var x :| Misread(l, w, x); x else []
  }

  // ---------------------------------------------------------------------------------------------
  // Parsing composes

  lemma Delimits(l: Layout, w: seq<byte>, x: seq<byte>)
    requires SelfDelimiting(l)
    ensures l.extent(w) > 0
    ensures l.extent(w) <= |w| || l.extent(w + x) <= |w| ==> l.extent(w + x) == l.extent(w)
    ensures l.extent(w) <= |w| ==> l.event(w + x) == l.event(w[..l.extent(w)])
  {
  }

  lemma Assoc<T>(a: seq<T>, b: seq<T>, c: seq<T>)
    ensures (a + b) + c == a + (b + c)
  {
  }

  lemma {:induction false} ParseAppend(l: Layout, a: seq<byte>, b: seq<byte>)
    requires SelfDelimiting(l)
    ensures var p, q := Parse(l, a), Parse(l, Parse(l, a).rest + b);
      Parse(l, a + b) == Parsed(p.frames + q.frames, q.rest)
    decreases |a|
  {
    hide SelfDelimiting;
    var n := l.extent(a);
    Delimits(l, a, b);
    if n <= |a| {
      ParseAppend(l, a[n..], b);
      assert (a + b)[n..] == a[n..] + b && (a + b)[..n] == a[..n];
      var p, q := Parse(l, a[n..]), Parse(l, Parse(l, a[n..]).rest + b);
      Assoc([a[..n]], p.frames, q.frames);
      assert Parse(l, a).rest == p.rest;
    }
  }

  lemma {:induction false} EventsAppend(l: Layout, a: seq<seq<byte>>, b: seq<seq<byte>>)
    ensures Events(l, a + b) == Events(l, a) + Events(l, b)
  {
    if a == [] {
      assert a + b == b;
    } else {
      EventsAppend(l, a[1..], b);
      assert (a + b)[1..] == a[1..] + b && (a + b)[0] == a[0];
      Assoc(Logged([], l.event(a[0])), Events(l, a[1..]), Events(l, b));
    }
  }

  /** A sequence of whole frames and an unfinished one is read back uniquely. */
  lemma {:induction false} ParseFrames(l: Layout, frames: seq<seq<byte>>, partial: seq<byte>)
    requires SelfDelimiting(l)
    requires forall i | 0 <= i < |frames| :: l.extent(frames[i]) == |frames[i]|
    requires l.extent(partial) > |partial|
    ensures Parse(l, Flatten(frames) + partial) == Parsed(frames, partial)
    decreases |frames|
  {
    hide SelfDelimiting;
    if frames != [] {
      var f, tail := frames[0], Flatten(frames[1..]) + partial;
      assert Flatten(frames) + partial == f + tail;
      Delimits(l, f, tail);
      assert (f + tail)[..|f|] == f && (f + tail)[|f|..] == tail;
      ParseFrames(l, frames[1..], partial);
      assert [f] + frames[1..] == frames;
    } else {
      assert Flatten(frames) + partial == partial;
    }
  }

  lemma {:induction false} AllSmallFrames(l: Layout, frames: seq<seq<byte>>, partial: seq<byte>)
    requires SelfDelimiting(l)
    requires forall i | 0 <= i < |frames| :: l.extent(frames[i]) == |frames[i]| < TWO_31
    requires l.extent(partial) > |partial| && Small(l, partial)
    ensures AllSmall(l, Flatten(frames) + partial)
    decreases |frames|
  {
    hide SelfDelimiting;
    if frames != [] {
      var f, tail := frames[0], Flatten(frames[1..]) + partial;
      assert Flatten(frames) + partial == f + tail;
      Delimits(l, f, tail);
      assert (f + tail) + [] == f + tail;
      assert (f + tail)[|f|..] == tail;
      AllSmallFrames(l, frames[1..], partial);
    } else {
      assert Flatten(frames) + partial == partial;
    }
  }

  lemma SmallPrefix(l: Layout, a: seq<byte>, b: seq<byte>)
    requires Small(l, a + b)
    ensures Small(l, a)
  {
    var more :| l.extent((a + b) + more) < TWO_31;
    assert (a + b) + more == a + (b + more);
  }

  /** What has been read, and what is left after dispatching it, is small when the stream is. */
  lemma {:induction false} AllSmallSplit(l: Layout, a: seq<byte>, b: seq<byte>)
    requires SelfDelimiting(l) && AllSmall(l, a + b)
    ensures AllSmall(l, a) && AllSmall(l, Parse(l, a).rest + b)
    decreases |a|
  {
    hide SelfDelimiting;
    SmallPrefix(l, a, b);
    Delimits(l, a, b);
    var n := l.extent(a);
    if n <= |a| {
      assert (a + b)[n..] == a[n..] + b;
      AllSmallSplit(l, a[n..], b);
    }
  }

  /** The bytes of the frame that the first k reads have left unfinished. */
  function RestAfter(l: Layout, w: seq<byte>, chunks: seq<seq<byte>>, k: nat): seq<byte>
    requires k <= |chunks|
  {
    Parse(l, w + Flatten(chunks[..k])).rest
  }

  /** What ShortReads counts, in terms of the stream alone. */
  lemma {:induction false} NoShortReads(l: Layout, w: seq<byte>, chunks: seq<seq<byte>>)
    requires SelfDelimiting(l)
    ensures ShortReads(l, w, chunks) == 0
       <==> forall k | 0 < k <= |chunks| :: RestAfter(l, w, chunks, k) == [] || l.announced(RestAfter(l, w, chunks, k))
    decreases |chunks|
  {
    hide SelfDelimiting, Parse, RestAfter;
    if chunks != [] {
      var rest, later := Parse(l, w + chunks[0]).rest, chunks[1..];
      NoShortReads(l, rest, later);
      RestAfterFirst(l, w, chunks);
      forall k | 0 < k <= |later| ensures RestAfter(l, w, chunks, k + 1) == RestAfter(l, rest, later, k) {
        RestAfterMore(l, w, chunks, k);
      }
      assert forall k | 1 < k <= |chunks| :: RestAfter(l, w, chunks, k) == RestAfter(l, rest, later, k - 1);
    }
  }

  lemma RestAfterFirst(l: Layout, w: seq<byte>, chunks: seq<seq<byte>>)
    requires chunks != []
    ensures RestAfter(l, w, chunks, 1) == Parse(l, w + chunks[0]).rest
  {
    hide Parse;
    assert chunks[..1] == [chunks[0]] && Flatten(chunks[..1][1..]) == [];
    assert Flatten(chunks[..1]) == chunks[0];
  }

  lemma RestAfterMore(l: Layout, w: seq<byte>, chunks: seq<seq<byte>>, k: nat)
    requires SelfDelimiting(l) && k < |chunks|
    ensures RestAfter(l, w, chunks, k + 1) == RestAfter(l, Parse(l, w + chunks[0]).rest, chunks[1..], k)
  {
    hide SelfDelimiting, Parse;
    assert chunks[..k + 1][1..] == chunks[1..][..k];
    assert w + Flatten(chunks[..k + 1]) == (w + chunks[0]) + Flatten(chunks[1..][..k]);
    ParseAppend(l, w + chunks[0], Flatten(chunks[1..][..k]));
  }

  // ---------------------------------------------------------------------------------------------
  // The loop finds exactly the frames

  /** The recogniser delivers a whole frame whatever lies behind the window. */
  lemma RecogniseWhole(l: Layout, w: seq<byte>, beyond: seq<byte>)
    requires SelfDelimiting(l) && |w| < TWO_31 && l.extent(w) <= |w|
    ensures Recognise(l, w, beyond) == Verdict(l.extent(w), l.event(w[..l.extent(w)]))
  {
  }

  /** From this call on the recogniser does not consume from the window. */
  ghost predicate Stays(l: Layout, mem: Memory, from: nat, w: seq<byte>) {
    forall k | k >= from :: Recognise(l, w, mem(k, w)).consumed <= 0
  }

  /** What is dispatched when the recogniser is called on the unfinished rest. */
  function LoggedRest(l: Layout, mem: Memory, log: seq<Event>, call: nat, rest: seq<byte>): seq<Event> {
    if rest == [] then log else Logged(log, Recognise(l, rest, mem(call, rest)).event)
  }

  /** The inner loop dispatches the whole frames of the window, and then whatever the recogniser makes
      of the unfinished rest and the memory behind it. */
  lemma {:induction false} ConsumeParses(l: Layout, mem: Memory, p: Progress)
    requires SelfDelimiting(l) && p.window != [] && |p.window| < TWO_31
    requires Parse(l, p.window).rest != [] ==> Stays(l, mem, p.calls, Parse(l, p.window).rest)
    ensures var r, whole := Consume(Recogniser(l), mem, p), Parse(l, p.window);
      && r.window == whole.rest
      && r.calls == p.calls + |whole.frames| + (if whole.rest == [] then 0 else 1)
      && r.log == LoggedRest(l, mem, p.log + Events(l, whole.frames), p.calls + |whole.frames|, whole.rest)
    decreases |p.window|
  {
    hide SelfDelimiting, Recognise, Consume;
    var w, m := p.window, mem(p.calls, p.window);
    Delimits(l, w, m);
    var n := l.extent(w);
    if n <= |w| {
      RecogniseWhole(l, w, m);
      ConsumeWhole(l, mem, p);
      var q := Progress(w[n..], Logged(p.log, l.event(w[..n])), p.calls + 1);
      if q.window == [] {
        assert Parse(l, q.window) == Parsed([], []);
      } else {
        ConsumeParses(l, mem, q);
      }
      EventsCons(l, p.log, w[..n], Parse(l, w[n..]).frames);
    } else {
      ConsumeRest(l, mem, p);
      assert p.log + [] == p.log;
    }
  }

  /** One round of the inner loop, on a whole frame. */
  lemma ConsumeWhole(l: Layout, mem: Memory, p: Progress)
    requires var n := l.extent(p.window);
      0 < n <= |p.window| && Recognise(l, p.window, mem(p.calls, p.window)) == Verdict(n, l.event(p.window[..n]))
    ensures var n := l.extent(p.window);
      var q := Progress(p.window[n..], Logged(p.log, l.event(p.window[..n])), p.calls + 1);
      Consume(Recogniser(l), mem, p) == if q.window == [] then q else Consume(Recogniser(l), mem, q)
  {
    hide Recognise;
  }

  /** The last round of the inner loop, on the unfinished rest. */
  lemma ConsumeRest(l: Layout, mem: Memory, p: Progress)
    requires p.window != [] && Stays(l, mem, p.calls, p.window)
    ensures Consume(Recogniser(l), mem, p)
         == Progress(p.window, LoggedRest(l, mem, p.log, p.calls, p.window), p.calls + 1)
  {
    hide Recognise;
  }

  lemma EventsCons(l: Layout, log: seq<Event>, f: seq<byte>, frames: seq<seq<byte>>)
    ensures Logged(log, l.event(f)) + Events(l, frames) == log + Events(l, [f] + frames)
  {
    assert ([f] + frames)[1..] == frames;
    assert Logged(log, l.event(f)) == log + Logged([], l.event(f));
    Assoc(log, Logged([], l.event(f)), Events(l, frames));
  }

  lemma {:induction false} RestIsUnfinished(l: Layout, s: seq<byte>)
    requires SelfDelimiting(l)
    ensures |Parse(l, s).rest| < l.extent(Parse(l, s).rest) && |Parse(l, s).rest| <= |s|
    decreases |s|
  {
    hide SelfDelimiting;
    Delimits(l, s, []);
    if l.extent(s) <= |s| {
      RestIsUnfinished(l, s[l.extent(s)..]);
    }
  }

  // ---------------------------------------------------------------------------------------------
  // Whole streams

  /** What the stream theorems assume of the bytes to come. */
  ghost predicate Readable(l: Layout, w: seq<byte>, chunks: seq<seq<byte>>) {
    && (forall i | 0 <= i < |chunks| :: chunks[i] != [])
    && |w| < l.extent(w)
    && AllSmall(l, w + Flatten(chunks))
    && WindowsFit(l, w, chunks)
  }

  /** One read leaves an unfinished frame or nothing, and the rest of the stream is readable. */
  lemma ReadableNext(l: Layout, w: seq<byte>, chunks: seq<seq<byte>>)
    requires SelfDelimiting(l) && chunks != [] && Readable(l, w, chunks)
    ensures var rest := Parse(l, w + chunks[0]).rest;
      && 0 < |w + chunks[0]| < TWO_31
      && (rest != [] ==> Unfinished(l, rest))
      && Readable(l, rest, chunks[1..])
  {
    hide SelfDelimiting, Parse, AllSmall;
    var v, future := w + chunks[0], Flatten(chunks[1..]);
    assert w + Flatten(chunks) == v + future;
    AllSmallSplit(l, v, future);
    RestIsUnfinished(l, v);
    FirstIsSmall(l, Parse(l, v).rest, future);
  }

  lemma FirstIsSmall(l: Layout, a: seq<byte>, b: seq<byte>)
    requires AllSmall(l, a + b)
    ensures Small(l, a)
  {
    SmallPrefix(l, a, b);
  }

  /** At the end of every read the recogniser waits, given the memory it then sees. */
  ghost predicate Quiet(l: Layout, mem: Memory, w: seq<byte>, chunks: seq<seq<byte>>)
    decreases |chunks|
  {
    chunks != [] ==>
      var rest := Parse(l, w + chunks[0]).rest;
      && (rest != [] ==> forall k: nat :: Recognise(l, rest, mem(k, rest)) == Verdict(0, None))
      && Quiet(l, mem, rest, chunks[1..])
  }

  lemma {:induction false} QuietIfAnnounced(l: Layout, mem: Memory, w: seq<byte>, chunks: seq<seq<byte>>)
    requires SelfDelimiting(l) && LengthDecides(l) && Readable(l, w, chunks)
    requires ShortReads(l, w, chunks) == 0
    ensures Quiet(l, mem, w, chunks)
    decreases |chunks|
  {
    hide SelfDelimiting, Recognise, Readable, Unfinished, Parse;
    if chunks != [] {
      ReadableNext(l, w, chunks);
      QuietIfAnnounced(l, mem, Parse(l, w + chunks[0]).rest, chunks[1..]);
    }
  }

  lemma {:induction false} QuietIfBenign(l: Layout, mem: Memory, w: seq<byte>, chunks: seq<seq<byte>>)
    requires SelfDelimiting(l) && Benign(l, mem) && Readable(l, w, chunks)
    ensures Quiet(l, mem, w, chunks)
    decreases |chunks|
  {
    hide SelfDelimiting, Benign, Recognise, Readable, Parse;
    if chunks != [] {
      ReadableNext(l, w, chunks);
      var rest := Parse(l, w + chunks[0]).rest;
      if rest != [] {
        forall k: nat ensures Recognise(l, rest, mem(k, rest)) == Verdict(0, None) {
          BenignWaits(l, mem, k, rest);
        }
      }
      QuietIfBenign(l, mem, rest, chunks[1..]);
    }
  }

  lemma BenignWaits(l: Layout, mem: Memory, k: nat, w: seq<byte>)
    requires SelfDelimiting(l) && Benign(l, mem) && Unfinished(l, w)
    ensures Recognise(l, w, mem(k, w)) == Verdict(0, None)
  {
  }

  lemma {:induction false} ReadsParse(l: Layout, mem: Memory, p: Progress, chunks: seq<seq<byte>>)
    requires SelfDelimiting(l) && Readable(l, p.window, chunks) && Quiet(l, mem, p.window, chunks)
    ensures var r := Reads(Some(Recogniser(l)), mem, p, chunks);
      var whole := Parse(l, p.window + Flatten(chunks));
      r.window == whole.rest && r.log == p.log + Events(l, whole.frames)
    decreases |chunks|
  {
    hide SelfDelimiting, Consume, AllSmall, WindowsFit, Parse, Events, Recognise;
    if chunks == [] {
      NothingToRead(l, p.window);
    } else {
      hide Reads;
      var w, future := p.window + chunks[0], Flatten(chunks[1..]);
      assert p.window + Flatten(chunks) == w + future;
      ReadsStep(l, mem, p, chunks);
      ReadableNext(l, p.window, chunks);
      ConsumeParses(l, mem, p.(window := w));
      ReadsParse(l, mem, Consume(Recogniser(l), mem, p.(window := w)), chunks[1..]);
      WholeOfParts(l, p.log, w, future);
    }
  }

  /** Memory that misleads wherever it can adds an event for every short read. */
  lemma {:induction false} ReadsMisread(l: Layout, p: Progress, chunks: seq<seq<byte>>)
    requires SelfDelimiting(l) && LengthDecides(l) && Readable(l, p.window, chunks)
    ensures var r := Reads(Some(Recogniser(l)), Stale(l), p, chunks);
      var whole := Parse(l, p.window + Flatten(chunks));
      && r.window == whole.rest
      && |r.log| == |p.log| + |Events(l, whole.frames)| + ShortReads(l, p.window, chunks)
    decreases |chunks|
  {
    hide SelfDelimiting, LengthDecides, Consume, AllSmall, WindowsFit, Parse, Events, Recognise, Unfinished, Stale;
    if chunks == [] {
      NothingToRead(l, p.window);
    } else {
      hide Reads;
      var w, future := p.window + chunks[0], Flatten(chunks[1..]);
      assert p.window + Flatten(chunks) == w + future;
      ReadsStep(l, Stale(l), p, chunks);
      ReadableNext(l, p.window, chunks);
      var rest := Parse(l, w).rest;
      if rest != [] {
        StaleMisleads(l, rest);
      }
      ConsumeParses(l, Stale(l), p.(window := w));
      ReadsMisread(l, Consume(Recogniser(l), Stale(l), p.(window := w)), chunks[1..]);
      WholeOfParts(l, p.log, w, future);
    }
  }

  lemma StaleMisleads(l: Layout, w: seq<byte>)
    requires LengthDecides(l) && Unfinished(l, w)
    ensures forall k: nat :: var v := Recognise(l, w, Stale(l)(k, w));
      v.consumed <= 0 && (v.event.Some? <==> !l.announced(w))
  {
    hide Recognise, Unfinished;
  }

  lemma NothingToRead(l: Layout, w: seq<byte>)
    requires |w| < l.extent(w)
    ensures w + Flatten([]) == w && Parse(l, w) == Parsed([], w) && Events(l, []) == []
  {
  }

  lemma ReadsStep(l: Layout, mem: Memory, p: Progress, chunks: seq<seq<byte>>)
    requires chunks != [] && forall i | 0 <= i < |chunks| :: chunks[i] != []
    ensures Reads(Some(Recogniser(l)), mem, p, chunks)
         == Reads(Some(Recogniser(l)), mem, Consume(Recogniser(l), mem, p.(window := p.window + chunks[0])), chunks[1..])
  {
    hide Consume;
  }

  lemma WholeOfParts(l: Layout, log: seq<Event>, a: seq<byte>, b: seq<byte>)
    requires SelfDelimiting(l)
    ensures var p, q, whole := Parse(l, a), Parse(l, Parse(l, a).rest + b), Parse(l, a + b);
      && whole.rest == q.rest
      && (log + Events(l, p.frames)) + Events(l, q.frames) == log + Events(l, whole.frames)
  {
    hide SelfDelimiting, Events, Parse;
    var p, q := Parse(l, a), Parse(l, Parse(l, a).rest + b);
    ParseAppend(l, a, b);
    EventsAppend(l, p.frames, q.frames);
    Assoc(log, Events(l, p.frames), Events(l, q.frames));
  }

  /** A sequence of small frames, followed by an unfinished one, cut into reads. */
  ghost predicate Stream(l: Layout, frames: seq<seq<byte>>, partial: seq<byte>, chunks: seq<seq<byte>>) {
    && (forall i | 0 <= i < |frames| :: l.extent(frames[i]) == |frames[i]| < TWO_31)
    && l.extent(partial) > |partial| && Small(l, partial)
    && (forall i | 0 <= i < |chunks| :: chunks[i] != [])
    && Flatten(chunks) == Flatten(frames) + partial
    && WindowsFit(l, [], chunks)
  }

  lemma StreamIsReadable(l: Layout, frames: seq<seq<byte>>, partial: seq<byte>, chunks: seq<seq<byte>>)
    requires SelfDelimiting(l) && Stream(l, frames, partial, chunks)
    ensures Readable(l, [], chunks)
    ensures Parse(l, [] + Flatten(chunks)) == Parsed(frames, partial)
  {
    hide WindowsFit, Small, Parse, AllSmall;
    assert [] + Flatten(chunks) == Flatten(frames) + partial;
    AllSmallFrames(l, frames, partial);
    ParseFrames(l, frames, partial);
  }

  /** Chunking independence, exactly.  Whatever lies behind the window in memory, exactly the frames
      are dispatched, in order, and exactly the unfinished bytes stay buffered, if and only if no
      read ends inside a frame whose length is not announced yet. */
  lemma ChunkingIndependence(l: Layout, frames: seq<seq<byte>>, partial: seq<byte>, p: Progress, chunks: seq<seq<byte>>)
    requires SelfDelimiting(l) && LengthDecides(l)
    requires Stream(l, frames, partial, chunks) && p.window == []
    ensures (forall mem :: Delivers(l, mem, p, chunks, frames, partial)) <==> ShortReads(l, [], chunks) == 0
  {
    hide SelfDelimiting, LengthDecides, Reads, Parse, Readable, Stale, Quiet;
    StreamIsReadable(l, frames, partial, chunks);
    if ShortReads(l, [], chunks) == 0 {
      forall mem ensures Delivers(l, mem, p, chunks, frames, partial) {
        QuietIfAnnounced(l, mem, [], chunks);
        ReadsParse(l, mem, p, chunks);
      }
    } else {
      ReadsMisread(l, p, chunks);
      assert !Delivers(l, Stale(l), p, chunks, frames, partial);
    }
  }

  /** How wrong it can be: there is memory with which one more event is dispatched for every read
      that ends inside a frame whose length is not announced yet. */
  lemma ShortReadsMislead(l: Layout, frames: seq<seq<byte>>, partial: seq<byte>, p: Progress, chunks: seq<seq<byte>>)
    requires SelfDelimiting(l) && LengthDecides(l)
    requires Stream(l, frames, partial, chunks) && p.window == []
    ensures exists mem :: |Reads(Some(Recogniser(l)), mem, p, chunks).log|
                       == |p.log| + |Events(l, frames)| + ShortReads(l, [], chunks)
  {
    hide SelfDelimiting, LengthDecides, Reads, Parse, Readable, Stale;
    StreamIsReadable(l, frames, partial, chunks);
    ReadsMisread(l, p, chunks);
  }

  /** With benign memory every way of cutting is right. */
  lemma BenignMemoryDelivers(l: Layout, mem: Memory, frames: seq<seq<byte>>, partial: seq<byte>,
                             p: Progress, chunks: seq<seq<byte>>)
    requires SelfDelimiting(l) && Benign(l, mem)
    requires Stream(l, frames, partial, chunks) && p.window == []
    ensures Delivers(l, mem, p, chunks, frames, partial)
  {
    hide SelfDelimiting, Benign, Reads, Parse, Readable, Quiet;
    StreamIsReadable(l, frames, partial, chunks);
    QuietIfBenign(l, mem, [], chunks);
    ReadsParse(l, mem, p, chunks);
  }

  /** The limit is exact.  Once the header is there, the recogniser waits for the rest of a frame
      below 2^32 bytes, as it must, if and only if the frame is shorter than 2^31. */
  lemma WaitsIffBelowTwoTo31(l: Layout, w: seq<byte>, beyond: seq<byte>)
    requires |w| < TWO_31 && |w| < l.extent(w + beyond) < TWO_32
    ensures Recognise(l, w, beyond) == Verdict(0, None) <==> l.extent(w + beyond) < TWO_31
  {
  }
}

/** The receiving side of src/service/client.cpp: recv reads into the buffer and dispatches from it. */
module Client {
  import opened Bytes
  import opened Common
  import opened IoBuffer
  import opened Framing

  lemma {:induction false} ReadsOneMore(d: Option<Dispatch>, mem: Memory, p: Progress, chunks: seq<seq<byte>>, c: seq<byte>)
    requires c != [] && forall i | 0 <= i < |chunks| :: chunks[i] != []
    ensures Reads(d, mem, p, chunks + [c]) == Read(d, mem, Reads(d, mem, p, chunks), c)
    decreases |chunks|
  {
    hide Read;
    if chunks == [] {
      assert [] + [c] == [c] && [c][1..] == [];
    } else {
      ReadsOneMore(d, mem, Read(d, mem, p, chunks[0]), chunks[1..], c);
      assert (chunks + [c])[1..] == chunks[1..] + [c];
    }
  }

  lemma {:induction false} FlattenOneMore(chunks: seq<seq<byte>>, c: seq<byte>, rest: seq<byte>)
    ensures Flatten(chunks + [c]) + rest == Flatten(chunks) + (c + rest)
    decreases |chunks|
  {
    if chunks == [] {
      assert [] + [c] == [c] && [c][1..] == [];
    } else {
      FlattenOneMore(chunks[1..], c, rest);
      assert (chunks + [c])[1..] == chunks[1..] + [c];
      Assoc(chunks[0], Flatten(chunks[1..] + [c]), rest);
      Assoc(chunks[0], Flatten(chunks[1..]), c + rest);
    }
  }

  lemma ConsumeUnfolds(d: Dispatch, mem: Memory, p: Progress)
    requires p.window != []
    ensures var q := DispatchOnce(d, mem, p);
      Consume(d, mem, p) == if d(p.window, mem(p.calls, p.window)).consumed <= 0 || q.window == [] then q
                            else Consume(d, mem, q)
  {
  }

  lemma NoReads(d: Option<Dispatch>, mem: Memory, p: Progress, segments: seq<seq<byte>>)
    ensures Reads(d, mem, p, []) == p && Flatten<byte>([]) + Flatten(segments) == Flatten(segments)
  {
  }

  lemma ReadMeaning(d: Option<Dispatch>, mem: Memory, p: Progress, c: seq<byte>)
    requires c != []
    ensures Read(d, mem, p, c)
         == if d.Some? then Consume(d.value, mem, p.(window := p.window + c)) else p.(window := [])
  {
  }

  /** Reading r bytes of the next segment moves them from what is pending to what has been read. */
  lemma Taken(chunks: seq<seq<byte>>, pending: seq<seq<byte>>, r: nat)
    requires pending != [] && 0 < r <= |pending[0]|
    ensures var c := pending[0][..r];
      var left := if r < |pending[0]| then [pending[0][r..]] + pending[1..] else pending[1..];
      && Flatten(chunks + [c]) + Flatten(left) == Flatten(chunks) + Flatten(pending)
      && |Flatten(left)| < |Flatten(pending)|
  {
    var c := pending[0][..r];
    var left := if r < |pending[0]| then [pending[0][r..]] + pending[1..] else pending[1..];
    assert Flatten(left) == pending[0][r..] + Flatten(pending[1..]);
    assert c + Flatten(left) == Flatten(pending);
    FlattenOneMore(chunks, c, Flatten(left));
  }

  lemma WholeSegments(chunks: seq<seq<byte>>, pending: seq<seq<byte>>, segments: seq<seq<byte>>, r: nat)
    requires pending != [] && r <= |pending[0]|
    ensures chunks + pending == segments && r == |pending[0]| ==>
              chunks + [pending[0][..r]] + pending[1..] == segments
    ensures chunks + pending == segments ==> pending[0] in segments
  {
    if chunks + pending == segments {
      assert segments[|chunks|] == pending[0];
      assert pending == [pending[0]] + pending[1..];
      assert pending[0][..|pending[0]|] == pending[0];
      Assoc(chunks, [pending[0]], pending[1..]);
    }
  }

  /** The memory that was behind the window at each call of dispatch. */
  ghost function Recorded(seen: seq<seq<byte>>): Memory {
    (k: nat, w) => if k < |seen| then seen[k] else []
  }

  class Client {
    const iobuf: IoBufferEx
    var dispatch: Option<Dispatch>
    var log: seq<Event>              // what dispatching has delivered
    ghost var seen: seq<seq<byte>>   // the memory behind the window at each call of dispatch

    constructor ()
      ensures fresh(iobuf) && fresh(iobuf.buffer) && Ready() && dispatch.None?
      ensures iobuf.expand == 0x1000 && iobuf.Level() == Fill(0, 0, 0x1000)
      ensures Value() == Progress([], [], 0)
    {
      iobuf := new IoBufferEx(0x1000);
      dispatch, log, seen := None, [], [];
    }

    ghost predicate Ready()
      reads this, iobuf
    {
      iobuf.Valid() && iobuf.expand > 0
    }

    ghost function Value(): Progress
      requires Ready()
      reads this, iobuf, iobuf.buffer
    {
      Progress(iobuf.Window(), log, |seen|)
    }

    /** The inner loop.  It ends for any dispatch function whatsoever, one that claims more bytes than
        there are included: each positive answer shrinks the window.  What dispatch finds behind the
        window starts with the allocation's own stale bytes. */
    method Drain()
      requires Ready() && dispatch.Some? && iobuf.Window() != []
      modifies this`log, this`seen, iobuf`pos, iobuf`size
      ensures Ready() && old(seen) <= seen
      ensures forall k | |old(seen)| <= k < |seen| :: old(iobuf.Behind()) <= seen[k]
      ensures iobuf.max == old(iobuf.max) && (iobuf.Window() == [] ==> iobuf.size == 0)
      ensures forall s | seen <= s :: Consume(dispatch.value, Recorded(s), old(Value())) == Value()
    {
      ghost var p0 := Value();
      while true
        invariant Ready() && iobuf.Window() != [] && iobuf.Behind() == old(iobuf.Behind())
        invariant old(seen) <= seen && iobuf.max == old(iobuf.max)
        invariant forall k | |old(seen)| <= k < |seen| :: old(iobuf.Behind()) <= seen[k]
        invariant forall s | seen <= s ::
                    Consume(dispatch.value, Recorded(s), p0) == Consume(dispatch.value, Recorded(s), Value())
        decreases |iobuf.Window()|
      {
        hide Consume;
        ghost var p := Value();
        var more := DispatchFront();
        forall s | seen <= s
          ensures Consume(dispatch.value, Recorded(s), p)
               == if more then Consume(dispatch.value, Recorded(s), Value()) else Value()
        {
          ConsumeUnfolds(dispatch.value, Recorded(s), p);
        }
        if !more {
          return;
        }
      }
    }

    /** One round of the inner loop; whether there is another. */
    method DispatchFront() returns (more: bool)
      requires Ready() && dispatch.Some? && iobuf.Window() != []
      modifies this`log, this`seen, iobuf`pos, iobuf`size
      ensures Ready() && |seen| == |old(seen)| + 1 && old(seen) <= seen
      ensures old(iobuf.Behind()) <= seen[|old(seen)|]
      ensures more ==> iobuf.Behind() == old(iobuf.Behind()) && |iobuf.Window()| < |old(iobuf.Window())|
      ensures iobuf.max == old(iobuf.max) && (iobuf.Window() == [] ==> iobuf.size == 0)
      ensures forall s | seen <= s :: Value() == DispatchOnce(dispatch.value, Recorded(s), old(Value()))
      ensures more <==> dispatch.value(old(iobuf.Window()), seen[|old(seen)|]).consumed > 0 && iobuf.Window() != []
    {
      var w, past: seq<byte> := iobuf.Window(), *;
      var v := dispatch.value(w, iobuf.Behind() + past);
      seen := seen + [iobuf.Behind() + past];
      log := Logged(log, v.event);
      more := false;
      if v.consumed > 0 {
        iobuf.PopFront(v.consumed);
        var empty := iobuf.Empty();
        more := !empty;
      }
    }

    /** One read, of as much of the segment as there is room for, and the dispatching after it. */
    method ReadOnce(segment: seq<byte>) returns (r: nat)
      requires Ready() && segment != []
      modifies this`log, this`seen, iobuf, iobuf.buffer
      ensures Ready() && iobuf.expand == old(iobuf.expand) && (iobuf.buffer == old(iobuf.buffer) || fresh(iobuf.buffer))
      ensures 0 < r <= |segment| && (r < |segment| ==> r >= iobuf.expand)
      ensures old(seen) <= seen
      ensures old(iobuf.size) + iobuf.expand <= old(iobuf.max) ==> iobuf.max == old(iobuf.max)
      ensures old(iobuf.Level()) == Fill(0, 0, iobuf.max) ==>
                && r == Min(|segment|, iobuf.max)
                && iobuf.buffer[..] == segment[..r] + old(iobuf.buffer[..])[r..]
                && forall k | |old(seen)| <= k < |seen| :: iobuf.buffer[r..] <= seen[k]
      ensures iobuf.Window() == [] ==> iobuf.size == 0
      ensures forall s | seen <= s :: Value() == Read(dispatch, Recorded(s), old(Value()), segment[..r])
    {
      hide Read, Consume;
      ghost var before := Value();
      r := iobuf.Append(segment, |segment|);
      ghost var c := segment[..r];
      assert Value() == before.(window := before.window + c);
      assert old(iobuf.Level()) == Fill(0, 0, iobuf.max) ==>
          iobuf.buffer[..] == iobuf.Window() + iobuf.Behind() == c + old(iobuf.buffer[..])[r..];
      if dispatch.Some? {
        Drain();
      } else {
        iobuf.Clear();
      }
      forall s | seen <= s ensures Value() == Read(dispatch, Recorded(s), before, c) {
        ReadMeaning(dispatch, Recorded(s), before, c);
      }
    }

    /** `segments` are the pieces in which the bytes arrive; each ::recv takes as much of the next
        one as there is room for.  `chunks` are the reads that result. */
    method Recv(segments: seq<seq<byte>>) returns (chunks: seq<seq<byte>>)
      requires Ready() && forall i | 0 <= i < |segments| :: segments[i] != []
      modifies this`log, this`seen, iobuf, iobuf.buffer
      ensures Ready() && iobuf.expand == old(iobuf.expand) && (iobuf.buffer == old(iobuf.buffer) || fresh(iobuf.buffer))
      ensures (forall i | 0 <= i < |chunks| :: chunks[i] != []) && Flatten(chunks) == Flatten(segments)
      ensures (forall i | 0 <= i < |segments| :: |segments[i]| <= iobuf.expand) ==> chunks == segments
      ensures old(seen) <= seen && Value() == Reads(dispatch, Recorded(seen), old(Value()), chunks)
    {
      hide Read, Reads, Consume;
      chunks := [];
      var pending := segments;
      ghost var p0 := Value();
      forall s ensures Reads(dispatch, Recorded(s), p0, []) == p0 {
        NoReads(dispatch, Recorded(s), p0, segments);
      }
      NoReads(dispatch, Recorded([]), p0, segments);
      while pending != []
        invariant Ready() && (iobuf.buffer == old(iobuf.buffer) || fresh(iobuf.buffer))
        invariant dispatch == old(dispatch) && iobuf.expand == old(iobuf.expand)
        invariant forall i | 0 <= i < |pending| :: pending[i] != []
        invariant forall i | 0 <= i < |chunks| :: chunks[i] != []
        invariant Flatten(chunks) + Flatten(pending) == Flatten(segments)
        invariant (forall i | 0 <= i < |segments| :: |segments[i]| <= iobuf.expand) ==> chunks + pending == segments
        invariant old(seen) <= seen
        invariant forall s | seen <= s :: Value() == Reads(dispatch, Recorded(s), p0, chunks)
        decreases |Flatten(pending)|
      {
        var r := ReadOnce(pending[0]);
        var c := pending[0][..r];
        forall s | seen <= s ensures Value() == Reads(dispatch, Recorded(s), p0, chunks + [c]) {
          ReadsOneMore(dispatch, Recorded(s), p0, chunks, c);
        }
        Taken(chunks, pending, r);
        WholeSegments(chunks, pending, segments, r);
        chunks := chunks + [c];
        pending := if r < |pending[0]| then [pending[0][r..]] + pending[1..] else pending[1..];
      }
      assert Flatten(chunks) + [] == Flatten(chunks);
    }
  }
}

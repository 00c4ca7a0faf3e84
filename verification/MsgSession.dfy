/**
  The session as the program writes it: an object whose methods update its fields and call each
  other re-entrantly.  Each method is proved to compute the function of the same name in
  MsgSessionSpec, so every theorem about runs of those functions is one about this object.
*/
module MsgSession {
  import opened Common
  import opened MsgSessionSpec

  class MsgSession {
    const dispatcher: Dispatcher
    var list: seq<Entry>
    var link: Option<Link>
    var querying: bool
    var timer: bool
    var connects: nat
    var next: nat
    // the world around the session
    var armed: nat
    var clock: int
    var script: seq<Choice>
    // history
    var done: seq<Completion>
    var events: seq<Frame>
    var sent: seq<nat>
    var aborted: bool
    var stray: bool
    var polluted: bool

    function Value(): State
      reads this
    {
      State(dispatcher, list, link, querying, timer, armed, connects, clock, next,
                  done, events, sent, aborted, stray, polluted, script)
    }

    constructor (d: Dispatcher, clock: int, script: seq<Choice>)
      ensures Value() == Start(d, clock, script)
    {
      dispatcher := d;
      list, link, querying, timer, connects, next := [], None, false, false, 0, 0;
      armed, this.clock, this.script := 0, clock, script;
      done, events, sent, aborted, stray, polluted := [], [], [], false, false, false;
      new;
      Init();
    }

    method Query()
      modifies this
      ensures Value() == MsgSessionSpec.Query(old(Value()))
      decreases |script|, 2
    {
      list := list + [Entry(next, clock, false)];
      next := next + 1;
      SendFront();
    }

    /** msgsession::__send */
    method SendFront()
      modifies this
      ensures Value() == MsgSessionSpec.SendFront(old(Value()))
      decreases |script|, 1
    {
      if !querying && link.Some? {
        if list != [] {
          querying := true;
          var id := list[0].id;
          list := list[0 := list[0].(sent := true)];
          sent := sent + [id];
          Transmit(Request(id));
        }
      }
    }

    /** m_client->send, that is asyncnet::send on the session's connection. */
    method Transmit(p: Packet)
      requires link.Some?
      modifies this
      ensures Value() == MsgSessionSpec.Transmit(old(Value()), p)
      decreases |script|, 0
    {
      var l := link.value;
      if l.out != [] {
        link := Some(l.(out := l.out + [p]));
        return;
      }
      var c := Consult();
      match c.outcome {
        case Took => link := Some(l.(server := l.server + [p]));
        case Again => link := Some(l.(out := [p]));
        case Fail => OnClose();
      }
    }

    /** Asks the environment for its next decision. */
    method Consult() returns (c: Choice)
      modifies this`script
      ensures c == Pick(old(Value())) && Value() == Drop(old(Value()))
    {
      c := DEFAULT;
      if script != [] {
        c := script[0];
        script := script[1..];
      }
    }

    method OnClose()
      modifies this
      ensures Value() == MsgSessionSpec.OnClose(old(Value()))
      decreases |script|, 3
    {
      hide NoFrame, MsgSessionSpec.Callback, MsgSessionSpec.Retry;
      link := None;
      if querying {
        if list != [] {
          Finish(Closed);
          Callback();
        }
      }
      querying := false;
      Retry();
    }

    method Finish(cause: Cause)
      requires list != []
      modifies this`list, this`done
      ensures Value() == MsgSessionSpec.Finish(old(Value()), cause)
    {
      done := done + [Completion(list[0].id, cause)];
      list := list[1..];
    }

    /** The user's callback: it may submit queries. */
    method Callback()
      modifies this
      ensures Value() == MsgSessionSpec.Callback(old(Value()))
      decreases |script|, 0
    {
      hide NoFrame;
      if script == [] {
        return;
      }
      var c := Consult();
      clock := clock + c.elapsed;
      ghost var s := Value();
      for i := 0 to c.submits
        invariant |script| < old(|script|)
        invariant Submits(s, c.submits) == Submits(Value(), c.submits - i)
      {
        Query();
      }
    }

    method Retry()
      requires link.None?
      modifies this
      ensures Value() == MsgSessionSpec.Retry(old(Value()))
      decreases |script|, 2
    {
      RetryTimeout();
      timer := true;
      armed := armed + 1;
    }

    /** msgsession::__retry_timeout; `atEnd` is the loop's iterator having reached end(). */
    method RetryTimeout()
      requires link.None?
      modifies this
      ensures Value() == Sweep(old(Value()), old(clock))
      decreases |script|, 1, |list|
    {
      var t := clock;
      var atEnd := list == [];
      while !atEnd
        invariant |script| <= old(|script|)
        invariant |script| == old(|script|) ==> |list| <= old(|list|)
        invariant link.None? && (!atEnd ==> list != [])
        invariant Sweep(old(Value()), t) == if atEnd then Value() else Sweep(Value(), t)
        decreases !atEnd, |script|, |list|
      {
        if list[0].stamp + MAX_RETRY_TIMEOUT > t {
          break;
        }
        Finish(Expired);
        atEnd := list == [];
        Callback();
      }
    }

    /** msgsession::on_dispatch */
    method Complete(f: Frame)
      modifies this
      ensures Value() == MsgSessionSpec.Complete(old(Value()), f)
    {
      hide MsgSessionSpec.Callback, NoFrame;
      if list != [] {
        if !querying {
          aborted := true;
        }
        querying := false;
        stray := stray || f.Push?;
        Finish(ByFrame(f));
        Callback();
      }
    }

    /** msgdispatch::on_dispatch and on_dispatchex */
    method OnFrame(f: Frame)
      modifies this
      ensures Value() == MsgSessionSpec.OnFrame(old(Value()), f)
    {
      if dispatcher.IsEvent(f.cmd) {
        events := events + [f];
        Callback();
      } else {
        Complete(f);
      }
      SendFront();
    }

    method Recv(n: nat)
      modifies this
      ensures Value() == MsgSessionSpec.Recv(old(Value()), n)
    {
      hide NoFrame;
      var k := n;
      while k > 0 && link.Some? && link.value.back != []
        invariant MsgSessionSpec.Recv(old(Value()), n) == MsgSessionSpec.Recv(Value(), k)
        decreases k
      {
        var f := link.value.back[0];
        var l := link.value;
        var swallowed := if f.Reply? && dispatcher.IsEvent(f.cmd) then 1 else 0;
        link := Some(l.(back := l.back[1..], swallowed := l.swallowed + swallowed));
        OnFrame(f);
        k := k - 1;
      }
    }

    method Init()
      modifies this
      ensures Value() == MsgSessionSpec.Init(old(Value()))
    {
      var c := Consult();
      if c.outcome == Fail {
        OnClose();
      } else {
        connects := connects + 1;
      }
    }

    /** asyncnet::__send */
    method Flush()
      modifies this
      ensures Value() == MsgSessionSpec.Flush(old(Value()))
    {
      while link.Some? && link.value.out != []
        invariant MsgSessionSpec.Flush(old(Value())) == MsgSessionSpec.Flush(Value())
        decreases if link.Some? then |link.value.out| else 0
      {
        var l := link.value;
        var c := Consult();
        match c.outcome {
          case Took => link := Some(l.(out := l.out[1..], server := l.server + [l.out[0]]));
          case Again => return;
          case Fail => OnClose(); return;
        }
      }
    }

    /** msgsession::__onconnect */
    method OnConnect()
      modifies this
      ensures Value() == Connect(old(Value()))
    {
      link := Some(Link([], [], [], 0));
      querying := false;
      SendFront();
    }

    /** One step of a run. */
    method Perform(e: Step)
      requires Enabled(Value(), e)
      modifies this
      ensures Value() == Next(old(Value()), e)
    {
      hide NoFrame, MsgSessionSpec.Query, MsgSessionSpec.OnClose, MsgSessionSpec.Recv, MsgSessionSpec.Flush;
      hide MsgSessionSpec.Init, MsgSessionSpec.Transmit, Connect;
      match e {
        case UserQuery => Query();
        case ConnectOk => connects := connects - 1; OnConnect();
        case ConnectFailed => connects := connects - 1; OnClose();
        case Readable(n) => Recv(n);
        case Writable => Flush();
        case HangUp => OnClose();
        case TimerFires => timer, armed := false, armed - 1; Init();
        case SendBeat => Transmit(Beat);
        case Tick(d) => clock := clock + d;
        case ServerAnswers(i, cmd) => link := Some(Answer(link.value, i, cmd));
        case ServerPushes(cmd) =>
          link := Some(link.value.(back := link.value.back + [Push(cmd)]));
          polluted := polluted || !dispatcher.IsEvent(cmd);
      }
    }

    method PerformAll(steps: seq<Step>)
      modifies this
      ensures Value() == Run(old(Value()), steps)
    {
      for i := 0 to |steps|
        invariant Run(old(Value()), steps) == Run(Value(), steps[i..])
      {
        if Enabled(Value(), steps[i]) {
          Perform(steps[i]);
        }
        assert steps[i..][1..] == steps[i + 1..];
      }
    }
  }
}

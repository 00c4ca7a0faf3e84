/** The protocol's promises, for every run: any number of steps, any environment. */
module MsgSessionTheorems {
  import opened Common
  import opened MsgSessionSpec
  import opened MsgSessionProofs
  import opened MsgSessionSteps

  lemma StartRests(d: Dispatcher, clock: int, script: seq<Choice>)
    ensures Resting(Start(d, clock, script)) && !Start(d, clock, script).polluted && !Start(d, clock, script).stray
    ensures Start(d, clock, script).dispatcher == d
  {
    hide OnClose;
    var s := State(d, [], None, false, false, 0, 0, clock, 0, [], [], [], false, false, false, script);
    if script != [] && script[0].outcome == Fail {
      OnCloseExtends(Drop(s), 0);
    }
  }

  ghost predicate OnlyEventsPushed(d: Dispatcher, steps: seq<Step>) {
    forall i | 0 <= i < |steps| :: steps[i].ServerPushes? ==> d.IsEvent(steps[i].cmd)
  }

  lemma {:induction false} RunRests(s: State, steps: seq<Step>)
    requires Resting(s)
    ensures Resting(Run(s, steps))
    ensures s.done <= Run(s, steps).done && s.sent <= Run(s, steps).sent
    ensures OnlyEventsPushed(s.dispatcher, steps) ==> Run(s, steps).polluted == s.polluted
    decreases |steps|
  {
    hide Resting, Next;
    if steps != [] {
      var s' := s;
      if Enabled(s, steps[0]) {
        NextRests(s, steps[0]);
        s' := Next(s, steps[0]);
      }
      RunRests(s', steps[1..]);
    }
  }

  /** Completed callbacks followed by m_list are the submitted queries 0, 1, 2, ..., each once and in
      submission order; and a completion, once made, stays. */
  lemma CompletionIsFifo(d: Dispatcher, clock: int, script: seq<Choice>, steps: seq<Step>, more: seq<Step>)
    ensures var s := Run(Start(d, clock, script), steps);
      && |s.done| + |s.list| == s.next
      && (forall i | 0 <= i < |s.done| :: s.done[i].id == i)
      && (forall i | 0 <= i < |s.list| :: s.list[i].id == |s.done| + i)
      && s.done <= Run(s, more).done
  {
    StartRests(d, clock, script);
    RunRests(Start(d, clock, script), steps);
    RunRests(Run(Start(d, clock, script), steps), more);
  }

  /** Between steps a connected session with queries has sent exactly the front one on this
      connection; the assertion at dispatch has never failed; and over all connections no request
      has been handed to a client twice. */
  lemma OneRequestInFlight(d: Dispatcher, clock: int, script: seq<Choice>, steps: seq<Step>)
    ensures var s := Run(Start(d, clock, script), steps);
      && (s.link.Some? && s.list != [] ==> s.querying)
      && (s.querying ==> s.link.Some? && s.list != [] && s.list[0].sent)
      && (forall i | 0 <= i < |s.list| :: s.list[i].sent ==> i == 0 && s.querying)
      && !s.aborted
      && (forall i, j | 0 <= i < j < |s.sent| :: s.sent[i] < s.sent[j])
  {
    StartRests(d, clock, script);
    RunRests(Start(d, clock, script), steps);
  }

  // ---------------------------------------------------------------------------------------------
  // Reply correlation

  /** The next frame to be dispatched is a push outside the registered events, and a query waits. */
  predicate PushWouldComplete(s: State) {
    && s.link.Some? && s.link.value.back != [] && s.list != []
    && var f := s.link.value.back[0];
    f.Push? && !s.dispatcher.IsEvent(f.cmd)
  }

  /** That is so before one of the frames that this recv dispatches. */
  predicate PushCompletesInRecv(s: State, n: nat)
    decreases n
  {
    n > 0 && s.link.Some? && s.link.value.back != []
    && (PushWouldComplete(s) || PushCompletesInRecv(OnFrame(PopFrame(s), s.link.value.back[0]), n - 1))
  }

  /** And in some recv of the run. */
  predicate PushCompletesAlong(s: State, steps: seq<Step>)
    decreases |steps|
  {
    steps != []
    && (if Enabled(s, steps[0]) then
          || (steps[0].Readable? && PushCompletesInRecv(s, steps[0].frames))
          || PushCompletesAlong(Next(s, steps[0]), steps[1..])
        else PushCompletesAlong(s, steps[1..]))
  }

  lemma FrameStrays(s: State)
    requires s.link.Some? && s.link.value.back != []
    ensures OnFrame(PopFrame(s), s.link.value.back[0]).stray <==> s.stray || PushWouldComplete(s)
  {
    hide Callback, SendFront;
  }

  lemma {:induction false} RecvStrays(s: State, n: nat)
    ensures Recv(s, n).stray <==> s.stray || PushCompletesInRecv(s, n)
    decreases n
  {
    hide OnFrame, PopFrame, PushWouldComplete;
    if n > 0 && s.link.Some? && s.link.value.back != [] {
      FrameStrays(s);
      RecvStrays(OnFrame(PopFrame(s), s.link.value.back[0]), n - 1);
    }
  }

  lemma NextStrays(s: State, e: Step)
    requires Enabled(s, e)
    ensures Next(s, e).stray <==> s.stray || (e.Readable? && PushCompletesInRecv(s, e.frames))
  {
    hide Query, Recv, Flush, OnClose, Init, Transmit, SendFront, PushCompletesInRecv;
    if e.Readable? {
      RecvStrays(s, e.frames);
    }
  }

  lemma {:induction false} RunStrays(s: State, steps: seq<Step>)
    ensures Run(s, steps).stray <==> s.stray || PushCompletesAlong(s, steps)
    decreases |steps|
  {
    hide Next, PushCompletesInRecv;
    if steps != [] {
      if Enabled(s, steps[0]) {
        NextStrays(s, steps[0]);
        RunStrays(Next(s, steps[0]), steps[1..]);
      } else {
        RunStrays(s, steps[1..]);
      }
    }
  }

  lemma MatchedIffNotStray(s: State)
    requires Resting(s)
    ensures Matched(s.done) <==> !s.stray
  {
  }

  /** Whether dispatching the next frame keeps replies and queries matched can be told before: it
      does unless the frame is a push outside the registered events and a query waits. */
  lemma FrameKeepsCorrelation(s: State)
    requires Resting(s) && Matched(s.done) && s.link.Some? && s.link.value.back != []
    ensures Matched(Next(s, Readable(1)).done) <==> !PushWouldComplete(s)
  {
    hide Resting, Next, PushWouldComplete, Recv, OnFrame, PopFrame, Matched;
    NextRests(s, Readable(1));
    NextStrays(s, Readable(1));
    MatchedIffNotStray(s);
    MatchedIffNotStray(Next(s, Readable(1)));
  }

  /** Reply correlation without ids.  Every callback completed by a frame has seen the reply the
      server produced for that very query, if and only if no frame of the run was, when its turn
      came, a push outside the registered events while a query waited; in particular whenever the
      server pushes only events. */
  lemma RepliesAreCorrelated(d: Dispatcher, clock: int, script: seq<Choice>, steps: seq<Step>)
    ensures var s0 := Start(d, clock, script);
      && (Matched(Run(s0, steps).done) <==> !PushCompletesAlong(s0, steps))
      && (OnlyEventsPushed(d, steps) ==> Matched(Run(s0, steps).done))
  {
    hide Run, PushCompletesAlong;
    StartRests(d, clock, script);
    RunRests(Start(d, clock, script), steps);
    RunStrays(Start(d, clock, script), steps);
  }

  /** Nothing is lost on a connection: the request in flight is exactly once in the write buffer, or
      with the server, or on its way back as its reply, unless its reply carried an event's command
      and has gone to the event's callback. */
  lemma NothingIsLostOnTheWay(d: Dispatcher, clock: int, script: seq<Choice>, steps: seq<Step>)
    ensures var s := Run(Start(d, clock, script), steps);
      s.link.Some? && !PushCompletesAlong(Start(d, clock, script), steps) ==>
        var l := s.link.value;
        && Requests(l.out) + Requests(l.server) + Replies(l.back) + l.swallowed == (if s.querying then 1 else 0)
        && (forall p | p in l.out + l.server :: p.Request? ==> p.id == |s.done|)
        && (forall f | f in l.back :: f.Reply? ==> f.id == |s.done|)
  {
    hide Run, PushCompletesAlong;
    StartRests(d, clock, script);
    RunRests(Start(d, clock, script), steps);
    RunStrays(Start(d, clock, script), steps);
  }

  /** The hypothesis is needed: a push that is no event is taken for the waiting query's reply, and
      the reply itself then completes the query behind it. */
  lemma StrayPushIsTakenForAReply(cmd: int)
    ensures var s := Run(Start(Table({}), 0, []),
                         [UserQuery, UserQuery, ConnectOk, ServerPushes(cmd), ServerAnswers(0, cmd), Readable(2)]);
      s.done == [Completion(0, ByFrame(Push(cmd))), Completion(1, ByFrame(Reply(0, cmd)))]
  {
    hide NoFrame, OnFrame, SendFront, Init;
    var s0 := Start(Table({}), 0, []);
    var s1, s2 := Next(s0, UserQuery), Next(Next(s0, UserQuery), UserQuery);
    TwoQueriesConnect();
    var s3 := Next(s2, ConnectOk);
    var s4 := Next(s3, ServerPushes(cmd));
    var s5 := Next(s4, ServerAnswers(0, cmd));
    assert s5.link.value.server == [] && s5.link.value.back == [Push(cmd), Reply(0, cmd)];
    StrayDispatch(s5, cmd);
    RunSix(s0, s1, s2, s3, s4, s5, Next(s5, Readable(2)), cmd);
  }

  const BLANK := State(Table({}), [], None, false, false, 0, 0, 0, 0, [], [], [], false, false, false, [])
  const BUSY := BLANK.(querying := true, list := [Entry(0, 0, true), Entry(1, 0, false)], next := 2, sent := [0])

  lemma TwoQueriesConnect()
    ensures var s2 := Next(Next(Start(Table({}), 0, []), UserQuery), UserQuery);
      Enabled(s2, ConnectOk) && Next(s2, ConnectOk) == BUSY.(link := Some(Link([], [Request(0)], [], 0)))
  {
    hide SendFront, Query;
    var s0 := Start(Table({}), 0, []);
    assert s0 == BLANK.(connects := 1);
    QueryOffline(s0);
    QueryOffline(Query(s0));
    var s2 := Query(Query(s0));
    assert s2.list == [Entry(0, 0, false), Entry(1, 0, false)];
    SendFrontTaken(s2.(connects := 0, link := Some(Link([], [], [], 0))));
    var s3 := Next(s2, ConnectOk);
    assert s3.list == BUSY.list && s3.sent == [0] && s3.link.value.server == [Request(0)];
  }

  lemma StrayDispatch(s: State, cmd: int)
    requires s == BUSY.(polluted := true, link := Some(Link([], [], [Push(cmd), Reply(0, cmd)], 0)))
    ensures Next(s, Readable(2)).done == [Completion(0, ByFrame(Push(cmd))), Completion(1, ByFrame(Reply(0, cmd)))]
  {
    hide NoFrame, SendFront;
    var s5, s6 := Complete(PopFrame(s), Push(cmd)), OnFrame(PopFrame(s), Push(cmd));
    assert s5.list == [Entry(1, 0, false)] && s5.link.value.back == [Reply(0, cmd)];
    SendFrontTaken(s5);
    LastReply(s6, cmd);
    assert Next(s, Readable(2)) == Recv(s6, 1);
  }

  lemma LastReply(s: State, cmd: int)
    requires s.list == [Entry(1, 0, true)] && s.link.Some? && s.link.value.back == [Reply(0, cmd)]
    requires s.script == [] && s.dispatcher == Table({})
    ensures Recv(s, 1).done == s.done + [Completion(1, ByFrame(Reply(0, cmd)))]
  {
    hide NoFrame, SendFront;
    var s7 := Complete(PopFrame(s), Reply(0, cmd));
    assert s7.list == [];
    assert SendFront(s7) == s7 by { SendFrontIdle(s7); }
    assert Recv(s, 1) == Recv(s7, 0) == s7;
  }

  lemma QueryOffline(s: State)
    requires s.link.None?
    ensures Query(s) == s.(list := s.list + [Entry(s.next, s.clock, false)], next := s.next + 1)
  {
  }

  lemma SendFrontTaken(s: State)
    requires !s.querying && s.list != [] && s.script == [] && s.link.Some? && s.link.value.out == []
    ensures var l := s.link.value;
      SendFront(s) == s.(querying := true, list := [s.list[0].(sent := true)] + s.list[1..],
                         sent := s.sent + [s.list[0].id],
                         link := Some(l.(server := l.server + [Request(s.list[0].id)])))
  {
    var s' := s.(querying := true, list := s.list[0 := s.list[0].(sent := true)], sent := s.sent + [s.list[0].id]);
    assert s'.list == [s.list[0].(sent := true)] + s.list[1..];
    assert SendFront(s) == Transmit(s', Request(s.list[0].id));
  }

  lemma RunSix(s0: State, s1: State, s2: State, s3: State, s4: State, s5: State, s6: State, cmd: int)
    requires s1 == Next(s0, UserQuery) && s2 == Next(s1, UserQuery)
    requires Enabled(s2, ConnectOk) && s3 == Next(s2, ConnectOk)
    requires Enabled(s3, ServerPushes(cmd)) && s4 == Next(s3, ServerPushes(cmd))
    requires Enabled(s4, ServerAnswers(0, cmd)) && s5 == Next(s4, ServerAnswers(0, cmd))
    requires Enabled(s5, Readable(2)) && s6 == Next(s5, Readable(2))
    ensures Run(s0, [UserQuery, UserQuery, ConnectOk, ServerPushes(cmd), ServerAnswers(0, cmd), Readable(2)]) == s6
  {
    hide Next;
    var e := [UserQuery, UserQuery, ConnectOk, ServerPushes(cmd), ServerAnswers(0, cmd), Readable(2)];
    assert Run(s0, e) == Run(s1, e[1..]) == Run(s2, e[1..][1..]);
    assert Run(s2, e[2..]) == Run(s3, e[2..][1..]) == Run(s4, e[2..][1..][1..]);
    assert e[1..][1..] == e[2..] && e[2..][1..][1..] == e[4..];
    assert Run(s4, e[4..]) == Run(s5, e[4..][1..]) == Run(s6, e[4..][1..][1..]);
  }

  /** Exactly one of connect pending, connection up and retry timer armed holds in every reachable
      state, so the end of a connection or of an attempt leads to exactly one new attempt. */
  lemma OneRecoveryPath(d: Dispatcher, clock: int, script: seq<Choice>, steps: seq<Step>)
    ensures var s := Run(Start(d, clock, script), steps);
      && s.connects + s.armed + (if s.link.Some? then 1 else 0) == 1
      && (s.timer <==> s.armed == 1)
  {
    StartRests(d, clock, script);
    RunRests(Start(d, clock, script), steps);
  }

  /** The front's reply, once it is the next frame, completes exactly the front query, unless its
      command is an event's. */
  lemma ReplyCompletesItsQuery(s: State)
    requires Resting(s) && !s.stray && s.link.Some? && s.link.value.back != [] && s.link.value.back[0].Reply?
    requires match s.dispatcher
      case Table(es) => s.link.value.back[0].cmd !in es
      case Methods(ms) => s.link.value.back[0].cmd in ms
    ensures s.list != [] && s.link.value.back[0].id == s.list[0].id
    ensures QueryCompletes(s, s.link.value.back[0], Next(s, Readable(1)))
  {
    var f := s.link.value.back[0];
    assert f in s.link.value.back;
    assert Replies(s.link.value.back) > 0;
    hide Next, QueryCompletes, EventRuns;
    FrameIsRouted(s);
  }
}

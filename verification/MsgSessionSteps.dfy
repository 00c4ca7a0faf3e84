/** What single steps of the session do, exactly: sending, flushing, dispatching a frame, and the end
    of a connection or of an attempt. */
module MsgSessionSteps {
  import opened Common
  import opened MsgSessionSpec
  import opened MsgSessionProofs

  // ---------------------------------------------------------------------------------------------
  // Sending

  /** How the kernel answers the next send. */
  function KernelAnswer(s: State): Outcome { if s.script == [] then Took else s.script[0].outcome }

  /** The send meets an empty write buffer and fails with another errno than EAGAIN or EINPROGRESS. */
  predicate FailsHard(s: State) { s.link.Some? && s.link.value.out == [] && KernelAnswer(s) == Fail }

  /** A packet is given to the connection: it comes behind all that was given before, and has reached
      the server at once if and only if nothing was buffered and the kernel took it. */
  ghost predicate Carries(s: State, p: Packet, r: State) {
    && s.link.Some? && r.link.Some?
    && var l, k := s.link.value, r.link.value;
    && k.server + k.out == l.server + l.out + [p]
    && |k.server| == |l.server| + (if l.out == [] && KernelAnswer(s) == Took then 1 else 0)
    && k.back == l.back && k.swallowed == l.swallowed
  }

  /** Sending a packet carries it and changes nothing else, unless it fails hard; then the connection
      ends at once. */
  lemma TransmitIsExact(s: State, p: Packet)
    requires s.link.Some?
    ensures var r := Transmit(s, p);
      if FailsHard(s) then r == OnClose(s.(script := s.script[1..])) && r.link.None?
      else Carries(s, p, r) && r == s.(link := r.link, script := r.script)
  {
    hide OnClose, NoFrame;
    var l := s.link.value;
    assert (l.server + [p]) + [] == l.server + [] + [p];
    assert l.server + (l.out + [p]) == l.server + l.out + [p];
  }

  /** An idle session with a connection sends its front entry: the request is recorded as sent and
      carried, and the entry waits for its reply. */
  lemma FrontIsSent(s: State)
    requires !s.querying && s.link.Some? && s.list != [] && !FailsHard(s)
    ensures var r := SendFront(s);
      && Carries(s, Request(s.list[0].id), r)
      && r.querying && r.list == [s.list[0].(sent := true)] + s.list[1..]
      && r.sent == s.sent + [s.list[0].id]
      && r.done == s.done && r.next == s.next && r.clock == s.clock
  {
    var id := s.list[0].id;
    var s' := s.(querying := true, list := s.list[0 := s.list[0].(sent := true)], sent := s.sent + [id]);
    TransmitIsExact(s', Request(id));
    hide Transmit;
    assert s'.list == [s.list[0].(sent := true)] + s.list[1..];
  }

  /** A query is stamped with the time and queued behind the others; if the session is connected and
      idle, it is sent. */
  lemma QueryIsQueued(s: State)
    requires Resting(s)
    ensures var r, e := Query(s), Entry(s.next, s.clock, false);
      if s.link.None? || s.querying then r == s.(list := s.list + [e], next := s.next + 1)
      else !FailsHard(s) ==>
        r.list == [e.(sent := true)] && r.querying && Carries(s, Request(s.next), r) && r.done == s.done
  {
    hide InvWith, Transmit;
    if s.link.Some? && !s.querying && !FailsHard(s) {
      FrontIsSent(s.(list := s.list + [Entry(s.next, s.clock, false)], next := s.next + 1));
      hide SendFront;
      assert s.list == [];
    }
  }

  /** How many sends in a row the kernel takes, of n. */
  function TakenOf(script: seq<Choice>, n: nat): (k: nat)
    ensures k <= n && (k < n ==> k < |script|)
  {
    if n == 0 then 0
    else if script == [] then n
    else if script[0].outcome == Took then 1 + TakenOf(script[1..], n - 1)
    else 0
  }

  /** The first k packets of the write buffer have reached the server, and nothing else is changed. */
  ghost predicate Moved(s: State, k: nat, r: State) {
    && s.link.Some? && r.link.Some? && k <= |s.link.value.out|
    && var l := s.link.value;
    r.link.value == l.(out := l.out[k..], server := l.server + l.out[..k])
    && r == s.(link := r.link, script := r.script)
  }

  /** A writable connection: the packets the kernel takes move to the server, in order and no others;
      the rest stays buffered, or the connection ends if the first not taken fails hard. */
  lemma {:induction false} FlushIsExact(s: State)
    requires s.link.Some?
    ensures var n, r := |s.link.value.out|, Flush(s);
      var k := TakenOf(s.script, n);
      if k == n || s.script[k].outcome == Again then Moved(s, k, r) else r.link.None?
    decreases |s.link.value.out|
  {
    if s.link.value.out != [] && KernelAnswer(s) == Took {
      var s' := FlushTakesOne(s);
      TakenOfNext(s.script, |s.link.value.out|);
      hide *;
      FlushIsExact(s');
      var k := TakenOf(s'.script, |s'.link.value.out|);
      if k == |s'.link.value.out| || s'.script[k].outcome == Again {
        MovedNext(s, s', k, Flush(s'));
      }
    } else {
      hide Moved;
      FlushTakesNone(s);
    }
  }

  lemma FlushTakesNone(s: State)
    requires s.link.Some? && (s.link.value.out == [] || KernelAnswer(s) != Took)
    ensures if s.link.value.out == [] || s.script[0].outcome == Again then Moved(s, 0, Flush(s)) else Flush(s).link.None?
  {
    hide OnClose, NoFrame;
    var l := s.link.value;
    assert l.out[0..] == l.out && l.server + l.out[..0] == l.server;
  }

  lemma FlushTakesOne(s: State) returns (s': State)
    requires s.link.Some? && s.link.value.out != [] && KernelAnswer(s) == Took
    ensures Moved(s, 1, s') && Flush(s) == Flush(s')
    ensures s'.script == if s.script == [] then [] else s.script[1..]
    ensures s'.link.Some? && |s'.link.value.out| == |s.link.value.out| - 1
  {
    hide NoFrame;
    var l := s.link.value;
    s' := Drop(s).(link := Some(l.(out := l.out[1..], server := l.server + [l.out[0]])));
    assert l.out[..1] == [l.out[0]];
  }

  lemma TakenOfNext(script: seq<Choice>, n: nat)
    requires n > 0 && (script != [] ==> script[0].outcome == Took)
    ensures TakenOf(script, n) == 1 + TakenOf(if script == [] then [] else script[1..], n - 1)
  {
  }

  lemma MovedNext(s: State, s': State, k: nat, r: State)
    requires Moved(s, 1, s') && Moved(s', k, r)
    ensures Moved(s, k + 1, r)
  {
    var l := s.link.value;
    assert l.out[1..][k..] == l.out[k + 1..];
    assert (l.server + l.out[..1]) + l.out[1..][..k] == l.server + l.out[..k + 1];
  }

  /** Which of these a step of a run is. */
  lemma StepsThatSend(s: State, e: Step)
    requires Enabled(s, e)
    ensures e.UserQuery? ==> Next(s, e) == Query(s)
    ensures e.Writable? ==> Next(s, e) == Flush(s)
    ensures e.SendBeat? ==> Next(s, e) == Transmit(s, Beat)
    ensures e.Tick? ==> Next(s, e) == s.(clock := s.clock + e.elapsed)
  {
  }

  // ---------------------------------------------------------------------------------------------
  // Frames

  /** The event's callback runs on the frame, and no query is completed by it. */
  ghost predicate EventRuns(s: State, f: Frame, r: State) {
    && r.events == s.events + [f]
    && Answered(r.done) == Answered(s.done)
    && r.next >= s.next + Pick(s).submits
  }

  /** The frame completes the front query and no other, and its callback runs; without a query it is
      dropped. */
  ghost predicate QueryCompletes(s: State, f: Frame, r: State) {
    && r.events == s.events
    && if s.list == [] then r.done == s.done && r.list == []
       else
         var c := Completion(s.list[0].id, ByFrame(f));
         && |r.done| > |s.done| && r.done[|s.done|] == c
         && Answered(r.done) == Answered(s.done) + [c]
         && r.next >= s.next + Pick(s).submits
  }

  /** Where the next frame goes.  msgdispatch::on_dispatch gives a command in the table to the event's
      callback and any other to the query; on_dispatchex gives the command of a registered method to
      the query and any other to the callback. */
  lemma FrameIsRouted(s: State)
    requires Resting(s) && s.link.Some? && s.link.value.back != []
    ensures var f, r := s.link.value.back[0], Next(s, Readable(1));
      && (r.link.Some? ==> r.link.value.back == s.link.value.back[1..])
      && match s.dispatcher
         case Table(es) => if f.cmd in es then EventRuns(s, f, r) else QueryCompletes(s, f, r)
         case Methods(ms) => if f.cmd in ms then QueryCompletes(s, f, r) else EventRuns(s, f, r)
  {
    hide Callback, SendFront, InvWith, Answered;
    var f, s1 := s.link.value.back[0], PopFrame(s);
    assert Next(s, Readable(1)) == Recv(OnFrame(s1, f), 0) == OnFrame(s1, f);
    if s.dispatcher.IsEvent(f.cmd) {
      hide PopFrame;
      EventRunsOnly(s1, f);
    } else if s.list == [] {
      SendFrontIdle(s1);
    } else {
      FrontCompletes(s);
      hide PopFrame;
    }
  }

  lemma EventRunsOnly(s: State, f: Frame)
    requires s.dispatcher.IsEvent(f.cmd)
    ensures EventRuns(s, f, OnFrame(s, f))
  {
    hide Callback, SendFront, Answered;
  }

  lemma FrontCompletes(s: State)
    requires Resting(s) && s.link.Some? && s.link.value.back != [] && s.list != []
    requires !s.dispatcher.IsEvent(s.link.value.back[0].cmd)
    ensures var f := s.link.value.back[0]; QueryCompletes(s, f, OnFrame(PopFrame(s), f))
  {
    var f, s1 := s.link.value.back[0], PopFrame(s);
    CompletedFrontKeeps(s, f);
    var s2 := Finish(s1.(querying := false, stray := s.stray || f.Push?), ByFrame(f));
    assert s1.(querying := false, aborted := s1.aborted || !s1.querying, stray := s1.stray || f.Push?)
        == s1.(querying := false, stray := s.stray || f.Push?);
    assert s2.done[..|s.done|] == s.done;
    assert Answered(s2.done) == Answered(s.done) + [Completion(s.list[0].id, ByFrame(f))];
    hide Callback, SendFront, InvWith, Answered;
    CallbackExtends(s2);
    SendFrontExtends(Callback(s2));
  }

  /** One recv that yields several frames handles them one after the other, until the connection ends. */
  lemma RecvIsOneByOne(s: State, n: nat)
    requires s.link.Some? && n > 0
    ensures var r := Next(s, Readable(1));
      Next(s, Readable(n)) == if r.link.None? then r else Next(r, Readable(n - 1))
  {
    hide OnFrame, PopFrame;
    if s.link.value.back != [] {
      var r := OnFrame(PopFrame(s), s.link.value.back[0]);
      assert Recv(s, 1) == Recv(r, 0) == r;
      assert Recv(s, n) == Recv(r, n - 1);
    }
  }

  /** The assertion at dispatch is evaluated: it fails on a frame for a session that is not querying. */
  lemma AssertionIsChecked(s: State, f: Frame)
    requires s.list != [] && !s.querying
    ensures Complete(s, f).aborted
  {
    hide Callback;
  }

  // ---------------------------------------------------------------------------------------------
  // The end of a connection, and the attempts to get a new one

  /** From the n-th on, completions are failures of entries that have waited for the whole timeout;
      the ids below `next` are those of the given list, the others were submitted later. */
  ghost predicate ExpiredFrom(list: seq<Entry>, next: nat, n: nat, done: seq<Completion>, clock: int)
    requires next - |list| <= n
  {
    forall i | n <= i < |done| ::
      done[i].cause == Expired && (i < next ==> IsExpired(list[i - (next - |list|)], clock))
  }

  /** No entry is left that had expired at that time. */
  ghost predicate NoneExpired(list: seq<Entry>, clock: int) {
    forall e | e in list :: !IsExpired(e, clock)
  }

  /** The time at which the user's callback, if one is in flight, has returned. */
  function AfterCallback(s: State): int { s.clock + if InFlight(s) then Pick(s).elapsed else 0 }

  /** When a connection or an attempt ends, the request in flight fails first, and apart from it
      exactly the entries that have waited for the whole retry timeout are failed; all others stay
      queued.  The callbacks' queries are accepted, and the retry timer is armed. */
  lemma CloseIsExact(s: State, e: Step)
    requires Resting(s) && Enabled(s, e) && (e.HangUp? || e.ConnectFailed?)
    ensures var r := Next(s, e);
      && (InFlight(s) ==>
            && |r.done| > |s.done| && r.done[|s.done|] == Completion(s.list[0].id, Closed)
            && r.next >= s.next + Pick(s).submits)
      && ExpiredFrom(s.list, s.next, |s.done| + InFlightCount(s), r.done, r.clock)
      && NoneExpired(r.list, AfterCallback(s))
      && r.link.None? && !r.querying && r.timer && r.armed == 1 && r.connects == 0
  {
    var s' := if e.HangUp? then s else s.(connects := s.connects - 1);
    assert Next(s, e) == OnClose(s');
    OnCloseExtends(s', InFlightCount(s'));
    TimerIsArmed(s', OnClose(s'));
    ClosedIsExact(s, s');
    hide OnClose, InvWith, ExpiredFrom, NoneExpired, Precedes;
  }

  lemma ClosedIsExact(s: State, s': State)
    requires Inv(s') && (s'.link.None? ==> !s'.querying && Paths(s') == 0)
    requires s' == s.(connects := s'.connects)
    ensures |s.done| + |s.list| == s.next
    ensures var r := OnClose(s');
      && (InFlight(s) ==>
            && |r.done| > |s.done| && r.done[|s.done|] == Completion(s.list[0].id, Closed)
            && r.next >= s.next + Pick(s).submits)
      && ExpiredFrom(s.list, s.next, |s.done| + InFlightCount(s), r.done, r.clock)
      && NoneExpired(r.list, AfterCallback(s))
  {
    hide OnClose, InvWith, IsExpired;
    var s3 := BeforeRetry(s');
    SweepExpires(s3, s3.clock);
    FrontExpired(s3);
    FailedAtRetry(s', s3, Sweep(s3, s3.clock));
    SweepIsExact(s3, s3.clock);
    SweptLater(Sweep(s3, s3.clock).list, s3.clock, AfterCallback(s));
    hide *;
    RetryOnlyArms(s3, OnClose(s'));
    SameExpired(s, s', |s.done| + InFlightCount(s), OnClose(s').done, OnClose(s').clock);
    if InFlight(s) {
      assert s3.done[|s.done|] == Completion(s.list[0].id, Closed);
    }
  }

  lemma SweptLater(list: seq<Entry>, t: int, earlier: int)
    requires (forall e | e in list :: !IsExpired(e, t)) && earlier <= t
    ensures NoneExpired(list, earlier)
  {
  }

  lemma SameExpired(s: State, s': State, n: nat, done: seq<Completion>, clock: int)
    requires s' == s.(connects := s'.connects) && |s.done| <= n && |s.done| + |s.list| == s.next
    ensures InFlight(s') == InFlight(s) && InFlightCount(s') == InFlightCount(s)
    ensures AfterCallback(s') == AfterCallback(s) && Pick(s') == Pick(s)
    ensures ExpiredFrom(s'.list, s'.next, n, done, clock) == ExpiredFrom(s.list, s.next, n, done, clock)
  {
  }

  lemma RetryOnlyArms(s: State, r: State)
    requires r == Retry(s)
    ensures r == Sweep(s, s.clock).(timer := true, armed := r.armed)
    ensures r.next >= s.next
  {
    hide Sweep;
  }

  /** The state in which the end of a connection calls __retry. */
  lemma BeforeRetry(s: State) returns (r: State)
    requires Inv(s) && (s.link.None? ==> !s.querying && Paths(s) == 0)
    ensures OnClose(s) == Retry(r)
    ensures Inv(r) && r.link.None?
    ensures r.done == s.done + if InFlight(s) then [Completion(s.list[0].id, Closed)] else []
    ensures InFlightCount(s) <= |s.list| && s.list[InFlightCount(s)..] <= r.list
    ensures |s.done| + |s.list| == s.next
    ensures r.clock >= AfterCallback(s) && (InFlight(s) ==> r.next >= s.next + Pick(s).submits)
  {
    hide Callback, Sweep;
    r := s.(link := None, querying := false);
    if InFlight(s) {
      ClosedFrontKeeps(s, 1);
      var f := Finish(s.(link := None), Closed);
      CallbackExtends(f);
      CalledBackKeeps(s, 1);
      r := Callback(f).(querying := false);
    } else {
      NothingInFlight(s, 0);
    }
  }

  lemma FailedAtRetry(s: State, s3: State, r: State)
    requires |s.done| + |s.list| == s.next && InFlightCount(s) <= |s.list|
    requires |s3.done| == |s.done| + InFlightCount(s) && s.list[InFlightCount(s)..] <= s3.list
    requires Swept(s3, r) && Failed(s3, r, ExpiredCount(s3.list, s3.clock))
    requires forall i | 0 <= i < |s3.list| :: IsExpired(s3.list[i], s3.clock) <==> i < ExpiredCount(s3.list, s3.clock)
    ensures ExpiredFrom(s.list, s.next, |s.done| + InFlightCount(s), r.done, r.clock)
    ensures s3.done <= r.done
  {
    SweptIds(s3, r, ExpiredCount(s3.list, s3.clock));
    hide *;
    FailedList(s.list, s.next, InFlightCount(s), s3.list, s3.clock, |s3.done|, r.done, r.clock,
               ExpiredCount(s3.list, s3.clock));
  }

  /** The same in terms of the lists: the first n of `left`, which starts with the entries of `list`
      from the d-th on, have expired and been failed. */
  lemma FailedList(list: seq<Entry>, next: nat, d: nat, left: seq<Entry>, clock: int, before: nat,
                   done: seq<Completion>, later: int, n: nat)
    requires d <= |list| <= next && list[d..] <= left && n <= |left| && before == next - |list| + d
    requires |done| == before + n && later >= clock
    requires forall i | before <= i < |done| :: done[i].cause == Expired
    requires forall i | 0 <= i < n :: IsExpired(left[i], clock)
    ensures ExpiredFrom(list, next, before, done, later)
  {
    forall i | before <= i < |done|
      ensures done[i].cause == Expired && (i < next ==> IsExpired(list[i - (next - |list|)], later))
    {
      if i < next {
        assert left[i - before] == list[d..][i - before] == list[i - (next - |list|)];
        assert IsExpired(left[i - before], clock);
      }
    }
  }

  lemma SweptIds(s: State, r: State, n: nat)
    requires Swept(s, r) && Failed(s, r, n)
    ensures |r.done| == |s.done| + n && s.done <= r.done && r.clock >= s.clock
    ensures forall i | |s.done| <= i < |r.done| :: r.done[i] == Completion(s.list[i - |s.done|].id, Expired)
  {
  }

  lemma FrontExpired(s: State)
    requires Inv(s)
    ensures forall i | 0 <= i < |s.list| :: IsExpired(s.list[i], s.clock) <==> i < ExpiredCount(s.list, s.clock)
  {
    ExpiredAtFront(s.list, s.clock);
  }

  /** The retry timer starts a new attempt, which is pending unless it is refused at once. */
  lemma TimerReconnects(s: State)
    requires Resting(s) && s.armed > 0
    ensures var r := Next(s, TimerFires);
      if s.script != [] && s.script[0].outcome == Fail then
        r.connects == 0 && r.armed == 1 && r.timer && NoneExpired(r.list, s.clock)
      else
        r == s.(timer := false, armed := 0, connects := 1, script := r.script)
  {
    hide OnClose, InvWith, NoneExpired;
    if s.script != [] && s.script[0].outcome == Fail {
      var s' := s.(timer := false, armed := 0, script := s.script[1..]);
      assert Next(s, TimerFires) == OnClose(s');
      RefusedKeeps(s, s');
      OnCloseExtends(s', 0);
      TimerIsArmed(s', OnClose(s'));
      ClosedIsExact(s', s');
    }
  }

  lemma TimerIsArmed(s: State, r: State)
    requires Recovers(s, r) && r.timer
    ensures r.armed == 1 && r.connects == 0
  {
  }

  lemma RefusedKeeps(s: State, s': State)
    requires Resting(s) && s.armed > 0 && s' == s.(timer := false, armed := 0, script := s'.script)
    ensures Inv(s') && s'.link.None? && !s'.querying && Paths(s') == 0 && InFlightCount(s') == 0
    ensures AfterCallback(s') == s.clock
  {
  }

  /** A new connection starts with nothing buffered, nothing under way and no request in flight, and
      gets the front entry. */
  lemma ConnectionIsFresh(s: State)
    requires Resting(s) && s.connects > 0
    ensures var r := Next(s, ConnectOk);
      if s.list == [] then r == s.(connects := s.connects - 1, link := Some(Link([], [], [], 0)))
      else KernelAnswer(s) != Fail ==>
        && r.link.Some? && r.link.value.server + r.link.value.out == [Request(s.list[0].id)]
        && |r.link.value.server| == (if KernelAnswer(s) == Took then 1 else 0)
        && r.link.value.back == [] && r.querying && r.list == [s.list[0].(sent := true)] + s.list[1..]
  {
    hide InvWith, SendFront, Transmit;
    var s' := s.(connects := s.connects - 1, link := Some(Link([], [], [], 0)), querying := false);
    assert Next(s, ConnectOk) == SendFront(s');
    assert !s.querying by { NotQuerying(s); }
    if s.list != [] && KernelAnswer(s) != Fail {
      FrontIsSent(s');
      assert [] + [] + [Request(s.list[0].id)] == [Request(s.list[0].id)];
    } else {
      SendFrontIdle(s');
    }
  }

  lemma NotQuerying(s: State)
    requires Resting(s) && s.connects > 0
    ensures s.link.None? && !s.querying
  {
  }

  lemma SendFrontIdle(s: State)
    ensures s.list == [] ==> SendFront(s) == s
  {
  }

  /** A new session is empty and has started its first attempt. */
  lemma StartIsEmpty(d: Dispatcher, clock: int, script: seq<Choice>)
    requires script == [] || script[0].outcome != Fail
    ensures var s := Start(d, clock, script);
      && s.dispatcher == d && s.list == [] && s.link.None? && s.clock == clock && s.next == 0
      && s.done == [] && s.events == [] && s.sent == [] && s.connects == 1 && s.armed == 0
  {
  }
}

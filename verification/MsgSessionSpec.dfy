/**
  The client side of the request/response protocol (src/service/msgsession.cpp together with
  the routing of src/service/msgdispatch.inl), as functions on a value that holds the session's
  fields, the connection and what the peer has not yet seen or sent.

  Requests carry no correlation id on the wire.  The `id` of an entry, a packet or a reply is
  bookkeeping of the model: it is what the correlation theorem speaks about.

  Everything the session does not decide is a choice of the environment: how the kernel answers
  a send, how many queries a user callback submits before it returns, and how much time passes.
  A run consumes a finite script of such choices, so every finite behaviour has a script, and the
  re-entrant calls (a callback that queries, a send that closes) terminate because each consumes one.
*/
module MsgSessionSpec {
  import opened Common

  const MAX_RETRY_TIMEOUT: int := 15 * 1000

  /** One decision of the environment; a consumer uses the part that concerns it. */
  datatype Choice = Choice(outcome: Outcome, submits: nat, elapsed: nat)

  /** An element of m_list.  `sent`: its request text has been moved out and given to the client. */
  datatype Entry = Entry(id: nat, stamp: int, sent: bool)

  datatype Packet = Request(id: nat) | Beat
  datatype Frame = Reply(id: nat, cmd: int) | Push(cmd: int)

  /** One connection: the write buffer, what the server holds unanswered, what it has sent back; and,
      as history, how many replies carried an event's command and so went to the event's callback. */
  datatype Link = Link(out: seq<Packet>, server: seq<Packet>, back: seq<Frame>, swallowed: nat)

  datatype Cause = ByFrame(frame: Frame) | Closed | Expired
  datatype Completion = Completion(id: nat, cause: Cause)

  /** Which commands are events (pushes): those in m_dispatch for on_dispatch, those not in m_method
      for on_dispatchex. */
  datatype Dispatcher = Table(events: set<int>) | Methods(methods: set<int>) {
    predicate IsEvent(cmd: int) {
      match this
      case Table(es) => cmd in es
      case Methods(ms) => cmd !in ms
    }
  }

  datatype State = State(
    dispatcher: Dispatcher,
    list: seq<Entry>,          // m_list
    link: Option<Link>,        // m_client, and the connection behind it
    querying: bool,            // m_state == e_state_query
    timer: bool,               // m_timer != INVALID
    armed: nat,                // one-shot retry timers that will still fire
    connects: nat,             // connection attempts whose outcome is pending
    clock: int,                // mytime::now()
    next: nat,                 // queries submitted so far; the next query's id
    done: seq<Completion>,     // callbacks of queries invoked, in order
    events: seq<Frame>,        // frames given to an event's callback, in order
    sent: seq<nat>,            // requests handed to a client, in order
    aborted: bool,             // the assert of msgsession.cpp:129 has failed
    stray: bool,               // a push that is no event has completed a query
    polluted: bool,            // the server has pushed a command that is no event
    script: seq<Choice>)

  /** The completions by a frame, in order. */
  function Answered(done: seq<Completion>): seq<Completion> {
    if done == [] then []
    else
      var before, last := done[..|done| - 1], done[|done| - 1];
      Answered(before) + if last.cause.ByFrame? then [last] else []
  }

  /** What a call that handles no frame leaves alone; and time and submissions only advance. */
  ghost predicate NoFrame(s: State, r: State) {
    && r.stray == s.stray && r.aborted == s.aborted
    && r.events == s.events && Answered(r.done) == Answered(s.done)
    && r.next >= s.next && r.clock >= s.clock
    && (r.link.Some? ==> s.link.Some? && r.link.value.back == s.link.value.back)
  }

  const DEFAULT := Choice(Took, 0, 0)

  function Pick(s: State): Choice {
    if s.script == [] then DEFAULT else s.script[0]
  }

  function Drop(s: State): State {
    if s.script == [] then s else s.(script := s.script[1..])
  }

  // ---------------------------------------------------------------------------------------------
  // The session's methods

  function Query(s: State): (r: State)
    ensures |r.script| <= |s.script| && NoFrame(s, r)
    ensures r.next > s.next
    ensures s.link.None? ==> r.link.None? && s.list <= r.list
    decreases |s.script|, 2
  {
    SendFront(s.(list := s.list + [Entry(s.next, s.clock, false)], next := s.next + 1))
  }

  function SendFront(s: State): (r: State)
    ensures |r.script| <= |s.script| && NoFrame(s, r)
    ensures s.link.None? ==> r.link.None? && s.list <= r.list
    decreases |s.script|, 1
  {
    if !s.querying && s.link.Some? && s.list != [] then
      var front := s.list[0];
      Transmit(s.(querying := true, list := s.list[0 := front.(sent := true)], sent := s.sent + [front.id]),
               Request(front.id))
    else
      s
  }

  /** asyncnet::send on the session's connection; a hard error closes synchronously. */
  function Transmit(s: State, p: Packet): (r: State)
    requires s.link.Some?
    ensures |r.script| <= |s.script| && NoFrame(s, r)
    decreases |s.script|, 0
  {
    var l := s.link.value;
    if l.out != [] then s.(link := Some(l.(out := l.out + [p])))
    else
      var s' := Drop(s);
      match Pick(s).outcome
      case Took => s'.(link := Some(l.(server := l.server + [p])))
      case Again => s'.(link := Some(l.(out := [p])))
      case Fail => OnClose(s')
  }

  function OnClose(s: State): (r: State)
    ensures |r.script| <= |s.script| && NoFrame(s, r)
    ensures r.link.None? && r.timer
    decreases |s.script|, 3
  {
    var s1 := s.(link := None);
    var s2 := if s.querying && s.list != [] then Callback(Finish(s1, Closed)) else s1;
    Retry(s2.(querying := false))
  }

  /** Removes the front entry and records the completion its callback is about to see. */
  function Finish(s: State, cause: Cause): (r: State)
    requires s.list != []
    ensures !cause.ByFrame? ==> NoFrame(s, r)
  {
    assert (s.done + [Completion(s.list[0].id, cause)])[..|s.done|] == s.done;
    s.(list := s.list[1..], done := s.done + [Completion(s.list[0].id, cause)])
  }

  /** Arbitrary user code: time passes, and it may submit any number of queries. */
  function Callback(s: State): (r: State)
    ensures |r.script| <= |s.script| && NoFrame(s, r)
    ensures if s.script == [] then r == s else |r.script| < |s.script|
    ensures r.next >= s.next + Pick(s).submits && r.clock >= s.clock + Pick(s).elapsed
    ensures s.link.None? ==> r.link.None? && s.list <= r.list
    decreases |s.script|, 0
  {
    if s.script == [] then s
    else Submits(Drop(s).(clock := s.clock + Pick(s).elapsed), Pick(s).submits)
  }

  function Submits(s: State, n: nat): (r: State)
    ensures |r.script| <= |s.script| && NoFrame(s, r)
    ensures r.next >= s.next + n
    ensures s.link.None? ==> r.link.None? && s.list <= r.list
    decreases |s.script|, 3, n
  {
    if n == 0 then s else Submits(Query(s), n - 1)
  }

  function Retry(s: State): (r: State)
    ensures |r.script| <= |s.script| && NoFrame(s, r)
    ensures r.timer && (s.link.None? ==> r.link.None?)
    decreases |s.script|, 2
  {
    var r := Sweep(s, s.clock);
    r.(timer := true, armed := r.armed + 1)
  }

  /** The loop of __retry_timeout at time t.  When the erased entry was the last one, the iterator
      is end() and the loop stops even if the callback has appended. */
  function Sweep(s: State, t: int): (r: State)
    ensures |r.script| <= |s.script| && NoFrame(s, r)
    ensures s.link.None? ==> r.link.None?
    decreases |s.script|, 1, |s.list|
  {
    if s.list == [] || s.list[0].stamp + MAX_RETRY_TIMEOUT > t then s
    else
      var s' := Finish(s, Expired);
      var r := Callback(s');
      if s'.list == [] then r else Sweep(r, t)
  }

  /** msgsession::on_dispatch */
  function Complete(s: State, f: Frame): State {
    if s.list == [] then s
    else
      var s' := Finish(s.(querying := false, aborted := s.aborted || !s.querying,
                          stray := s.stray || f.Push?), ByFrame(f));
      Callback(s')
  }

  /** msgdispatch::on_dispatch and on_dispatchex */
  function OnFrame(s: State, f: Frame): State {
    SendFront(if s.dispatcher.IsEvent(f.cmd) then Callback(s.(events := s.events + [f])) else Complete(s, f))
  }

  /** One recv that yields up to n frames; a close in the middle abandons the rest. */
  function Recv(s: State, n: nat): State
    decreases n
  {
    if n == 0 || s.link.None? || s.link.value.back == [] then s
    else Recv(OnFrame(PopFrame(s), s.link.value.back[0]), n - 1)
  }

  function PopFrame(s: State): State
    requires s.link.Some? && s.link.value.back != []
  {
    var l := s.link.value;
    var f := l.back[0];
    s.(link := Some(l.(back := l.back[1..],
                       swallowed := l.swallowed + if f.Reply? && s.dispatcher.IsEvent(f.cmd) then 1 else 0)))
  }

  /** asyncsys::connect: pending, or refused at once, which runs the close callback. */
  function Init(s: State): (r: State)
    ensures NoFrame(s, r)
  {
    if s.script != [] && Pick(s).outcome == Fail then OnClose(Drop(s))
    else Drop(s).(connects := s.connects + 1)
  }

  /** asyncnet::__send when the connection becomes writable. */
  function Flush(s: State): (r: State)
    ensures NoFrame(s, r)
    decreases |s.script|, if s.link.Some? then |s.link.value.out| else 0
  {
    if s.link.None? || s.link.value.out == [] then s
    else
      var l := s.link.value;
      match Pick(s).outcome
      case Took => Flush(Drop(s).(link := Some(l.(out := l.out[1..], server := l.server + [l.out[0]]))))
      case Again => Drop(s)
      case Fail => OnClose(Drop(s))
  }

  // ---------------------------------------------------------------------------------------------
  // Runs

  datatype Step =
    | UserQuery                        // the application calls query
    | ConnectOk                        // a pending connect succeeds: __onconnect
    | ConnectFailed                    // a pending connect fails: __onclose
    | Readable(frames: nat)            // EPOLLIN; `frames` whole frames have arrived
    | Writable                         // EPOLLOUT
    | HangUp                           // EPOLLERR or EPOLLHUP: __clientclose
    | TimerFires                       // the retry timer
    | SendBeat                         // the heartbeat's onsend
    | Tick(elapsed: nat)               // time passes
    | ServerAnswers(i: nat, cmd: int)  // the server answers the i-th request it holds
    | ServerPushes(cmd: int)           // the server sends something unasked

  predicate Enabled(s: State, e: Step) {
    match e
    case UserQuery => true
    case ConnectOk => s.connects > 0
    case ConnectFailed => s.connects > 0
    case Readable(_) => s.link.Some?
    case Writable => s.link.Some?
    case HangUp => s.link.Some?
    case TimerFires => s.armed > 0
    case SendBeat => s.link.Some?
    case Tick(_) => true
    case ServerAnswers(i, _) => s.link.Some? && i < |s.link.value.server| && s.link.value.server[i].Request?
    case ServerPushes(_) => s.link.Some?
  }

  function Connect(s: State): State {
    SendFront(s.(link := Some(Link([], [], [], 0)), querying := false))
  }

  function Next(s: State, e: Step): State
    requires Enabled(s, e)
  {
    match e
    case UserQuery => Query(s)
    case ConnectOk => Connect(s.(connects := s.connects - 1))
    case ConnectFailed => OnClose(s.(connects := s.connects - 1))
    case Readable(n) => Recv(s, n)
    case Writable => Flush(s)
    case HangUp => OnClose(s)
    case TimerFires => Init(s.(timer := false, armed := s.armed - 1))
    case SendBeat => Transmit(s, Beat)
    case Tick(d) => s.(clock := s.clock + d)
    case ServerAnswers(i, cmd) => s.(link := Some(Answer(s.link.value, i, cmd)))
    case ServerPushes(cmd) =>
      var l := s.link.value;
      s.(link := Some(l.(back := l.back + [Push(cmd)])), polluted := s.polluted || !s.dispatcher.IsEvent(cmd))
  }

  /** The server answers a request at most once, on the connection it came from. */
  function Answer(l: Link, i: nat, cmd: int): Link
    requires i < |l.server| && l.server[i].Request?
  {
    l.(server := l.server[..i] + l.server[i + 1..], back := l.back + [Reply(l.server[i].id, cmd)])
  }

  /** The constructor: an empty session that starts its first connection attempt. */
  function Start(d: Dispatcher, clock: int, script: seq<Choice>): State {
    Init(State(d, [], None, false, false, 0, 0, clock, 0, [], [], [], false, false, false, script))
  }

  /** A run performs the enabled ones among the given steps. */
  function Run(s: State, steps: seq<Step>): State
    decreases |steps|
  {
    if steps == [] then s
    else Run(if Enabled(s, steps[0]) then Next(s, steps[0]) else s, steps[1..])
  }
}

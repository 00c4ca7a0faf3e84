/**
  Output from any thread (src/service/session.cpp): a locked queue in front of a client that belongs
  to one event thread.  Each locked region is one atomic step, executed by some thread `me`; what
  the kernel answers is a choice of the environment.  A client is valid as long as its connection is
  open, which it loses once, by an independent step of its owner, and never regains.
*/
module SessionSpec {
  import opened Common
  import opened AsyncNet

  datatype State = State(
    client: Option<nat>,     // m_client: the connection it stands for
    list: seq<Text>,         // m_list
    notified: bool,          // m_notified
    nets: Nets,
    accepted: seq<Text>,     // what send has been called with, in the order of the locked regions
    handed: seq<Text>,       // what has been handed off, by __realsend or by the owner's send
    direct: Option<Outcome>) // how the last __realsend, from another thread than the owner's, ended

  predicate ClientOpen(s: State) { s.client.Some? && s.nets.IsOpen(s.client.value) }

  /** check_valid drops a client that is no longer valid. */
  function CheckValid(s: State): (r: State)
    ensures r.client.Some? <==> ClientOpen(s)
  {
    if s.client.Some? && !s.nets.IsOpen(s.client.value) then s.(client := None) else s
  }

  function OwnerOf(s: State): nat
    requires ClientOpen(s)
  {
    s.nets.peers[s.client.value].thread
  }

  /** session::__notifysend */
  function NotifySend(s: State): State {
    var v := CheckValid(s);
    if v.client.Some? && !v.notified then v.(notified := true, nets := v.nets.Notify(OwnerOf(v))) else v
  }

  /** m_client->send on the owner's thread. */
  function OwnerSend(s: State, m: Text, o: Outcome): State
    requires ClientOpen(s)
  {
    var id := s.client.value;
    s.(nets := s.nets.Put(id, Sent(s.nets.peers[id].conn, m, o)), handed := s.handed + [m])
  }

  /** session::__send */
  function SendAll(s: State, me: nat, os: seq<Outcome>): State
    decreases |s.list|
  {
    if s.list == [] then s
    else
      var v := CheckValid(s);
      if v.client.None? then v
      else if OwnerOf(v) == me then
        var sent := OwnerSend(v, v.list[0], Head(os));
        SendAll(sent.(list := sent.list[1..]), me, Rest(os))
      else NotifySend(v)
  }

  function SetClient(s: State, id: nat, me: nat, os: seq<Outcome>): State {
    SendAll(s.(client := Some(id)), me, os)
  }

  /** session::send; o is the answer to the owner's send, d that to another thread's __realsend. */
  function SendText(s: State, me: nat, m: Text, o: Outcome, d: Outcome): State {
    var v := CheckValid(s.(accepted := s.accepted + [m]));
    if v.client.None? || v.list != [] then v.(list := v.list + [m])
    else if OwnerOf(v) == me then OwnerSend(v, m, o)
    else match d
      case Took => v.(handed := v.handed + [m], direct := Some(d))
      case Again => NotifySend(v.(list := v.list + [m], direct := Some(d)))
      case Fail => v.(list := v.list + [m], direct := Some(d))
  }

  /** The task that __notifysend queues. */
  function RunTask(s: State, thread: nat, os: seq<Outcome>): State {
    SendAll(s.(notified := false, nets := s.nets.TakeTask(thread)), thread, os)
  }

  datatype Step =
    | Accept(id: nat, thread: nat)                                       // a new connection
    | Bind(id: nat, me: nat, outcomes: seq<Outcome>)                     // set_client
    | Submit(me: nat, text: Text, owner: Outcome, direct: Outcome)       // send
    | Wake(thread: nat, outcomes: seq<Outcome>)                          // __onevent runs the task
    | Writable(id: nat, outcomes: seq<Outcome>)                          // EPOLLOUT
    | HangUp(id: nat)                                                    // __clientclose, client::clear

  predicate Enabled(s: State, e: Step) {
    match e
    case Accept(id, _) => id !in s.nets.peers
    case Bind(id, _, _) => id in s.nets.peers
    case Submit(_, _, _, _) => true
    case Wake(thread, _) => thread in s.nets.tasks
    case Writable(id, _) => s.nets.IsOpen(id)
    case HangUp(id) => s.nets.IsOpen(id)
  }

  function Next(s: State, e: Step): State
    requires Enabled(s, e)
  {
    match e
    case Accept(id, thread) => s.(nets := Nets(s.nets.peers[id := Peer(thread, NEW_CONN)], s.nets.tasks))
    case Bind(id, me, os) => SetClient(s, id, me, os)
    case Submit(me, m, o, d) => SendText(s, me, m, o, d)
    case Wake(thread, os) => RunTask(s, thread, os)
    case Writable(id, os) => s.(nets := s.nets.Put(id, Flushed(s.nets.peers[id].conn, os)))
    case HangUp(id) => s.(nets := s.nets.Put(id, Closed(s.nets.peers[id].conn)))
  }

  const START := State(None, [], false, Nets(map[], multiset{}), [], [], None)

  /** A run performs the enabled ones among the given steps. */
  function Run(s: State, steps: seq<Step>): State
    decreases |steps|
  {
    if steps == [] then s
    else Run(if Enabled(s, steps[0]) then Next(s, steps[0]) else s, steps[1..])
  }
}

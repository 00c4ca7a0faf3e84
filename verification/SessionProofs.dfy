/** What every interleaving of senders, binders, wake-ups and closes keeps. */
module SessionProofs {
  import opened Common
  import opened AsyncNet
  import opened SessionSpec

  /** Messages handed off, followed by m_list, are the accepted ones, in order and each once. */
  predicate Conserved(s: State) { s.handed + s.list == s.accepted }

  /** As many drain tasks are queued as m_notified says. */
  predicate WakeUpsCounted(s: State) { |s.nets.tasks| == if s.notified then 1 else 0 }

  /** Messages wait in front of an open connection although no task will come for them. */
  predicate Stalled(s: State) { s.list != [] && ClientOpen(s) && !s.notified }

  ghost predicate ConnsOrdered(n: Nets) { forall id | id in n.peers :: Ordered(n.peers[id].conn) }

  ghost predicate Inv(s: State) {
    && Conserved(s) && WakeUpsCounted(s) && ConnsOrdered(s.nets)
    && (s.client.Some? ==> s.client.value in s.nets.peers)
    && (Stalled(s) ==> s.direct == Some(Fail))
  }

  /** The part of the invariant that holds in the middle of __send. */
  ghost predicate Draining(s: State) {
    && Conserved(s) && WakeUpsCounted(s) && ConnsOrdered(s.nets)
    && (s.client.Some? ==> s.client.value in s.nets.peers)
  }

  lemma OwnerSendKeeps(s: State, m: Text, o: Outcome)
    requires ClientOpen(s) && ConnsOrdered(s.nets)
    ensures var r := OwnerSend(s, m, o);
      && ConnsOrdered(r.nets) && r.nets.tasks == s.nets.tasks && r.nets.peers.Keys == s.nets.peers.Keys
      && r == s.(nets := r.nets, handed := s.handed + [m])
  {
    SendKeepsOrder(s.nets.peers[s.client.value].conn, m, o);
  }

  /** __send leaves nothing waiting in front of an open connection without a task queued. */
  lemma {:induction false} SendAllKeeps(s: State, me: nat, os: seq<Outcome>)
    requires Draining(s)
    ensures var r := SendAll(s, me, os); Inv(r) && !Stalled(r) && r.accepted == s.accepted && s.handed <= r.handed
    decreases |s.list|
  {
    if s.list != [] && ClientOpen(s) && OwnerOf(s) == me {
      hide ConnsOrdered, OwnerSend;
      OwnerSendKeeps(s, s.list[0], Head(os));
      var sent := OwnerSend(s, s.list[0], Head(os));
      var t := sent.(list := s.list[1..]);
      assert t.handed + t.list == s.handed + s.list;
      SendAllKeeps(t, me, Rest(os));
    }
  }

  lemma NextKeeps(s: State, e: Step)
    requires Inv(s) && Enabled(s, e)
    ensures Inv(Next(s, e)) && s.handed <= Next(s, e).handed
  {
    hide SendAll, SendText, RunTask, Flushed, Closed;
    match e
    case Bind(id, me, os) => SendAllKeeps(s.(client := Some(id)), me, os);
    case Wake(thread, os) => WakeKeeps(s, thread, os);
    case Submit(me, m, o, d) => SubmitKeeps(s, me, m, o, d);
    case _ => PeerStepKeeps(s, e);
  }

  lemma WakeKeeps(s: State, thread: nat, os: seq<Outcome>)
    requires Inv(s) && thread in s.nets.tasks
    ensures Inv(RunTask(s, thread, os)) && s.handed <= RunTask(s, thread, os).handed
  {
    SendAllKeeps(s.(notified := false, nets := s.nets.TakeTask(thread)), thread, os);
    hide SendAll;
  }

  lemma PeerStepKeeps(s: State, e: Step)
    requires Inv(s) && Enabled(s, e) && (e.Accept? || e.Writable? || e.HangUp?)
    ensures Inv(Next(s, e)) && s.handed <= Next(s, e).handed
  {
    if e.Writable? {
      FlushKeepsOrder(s.nets.peers[e.id].conn, e.outcomes);
      hide Flushed;
    }
  }

  lemma SubmitKeeps(s: State, me: nat, m: Text, o: Outcome, d: Outcome)
    requires Inv(s)
    ensures var r := SendText(s, me, m, o, d); Inv(r) && s.handed <= r.handed
  {
    assert s.handed + (s.list + [m]) == s.accepted + [m];
    var v := CheckValid(s.(accepted := s.accepted + [m]));
    if v.client.Some? && v.list == [] {
      assert (v.handed + [m]) + [] == s.accepted + [m];
      if OwnerOf(v) == me {
        OwnerSendKeeps(v, m, o);
      }
    }
  }

  lemma {:induction false} RunKeeps(s: State, steps: seq<Step>)
    requires Inv(s)
    ensures Inv(Run(s, steps)) && s.handed <= Run(s, steps).handed
    decreases |steps|
  {
    hide Inv, Next;
    if steps != [] {
      if Enabled(s, steps[0]) {
        NextKeeps(s, steps[0]);
        RunKeeps(Next(s, steps[0]), steps[1..]);
      } else {
        RunKeeps(s, steps[1..]);
      }
    }
  }

  // ---------------------------------------------------------------------------------------------
  // Theorems

  /** Under every interleaving the messages handed off, followed by m_list, are the accepted ones, in
      order and each once; and what is handed off stays so. */
  lemma MessagesAreConserved(steps: seq<Step>, more: seq<Step>)
    ensures var s := Run(START, steps);
      s.handed + s.list == s.accepted && s.handed <= Run(s, more).handed
  {
    RunKeeps(START, steps);
    RunKeeps(Run(START, steps), more);
  }

  /** In every reachable state exactly one drain task is queued if m_notified is set and none
      otherwise; and messages wait for an open connection without one only if the last direct send
      failed with an errno other than EAGAIN and EINPROGRESS.  Binding to a client of another thread
      keeps both. */
  lemma WakeUpsAreAccounted(steps: seq<Step>)
    ensures var s := Run(START, steps);
      && |s.nets.tasks| == (if s.notified then 1 else 0)
      && (s.list != [] && ClientOpen(s) ==> s.notified || s.direct == Some(Fail))
  {
    RunKeeps(START, steps);
  }

  /** The exception is real, and exactly this: a step makes messages wait without a task if and only
      if it is a direct send, with nothing queued and no task pending, that fails hard while the
      connection still counts as open. */
  lemma StallsIff(s: State, e: Step)
    requires Inv(s) && !Stalled(s) && Enabled(s, e)
    ensures Stalled(Next(s, e))
       <==> e.Submit? && ClientOpen(s) && s.list == [] && OwnerOf(s) != e.me && e.direct == Fail && !s.notified
  {
    match e
    case Bind(id, me, os) => SendAllKeeps(s.(client := Some(id)), me, os);
    case Wake(thread, os) => SendAllKeeps(s.(notified := false, nets := s.nets.TakeTask(thread)), thread, os);
    case _ =>
  }

  /** session::send, case by case. */
  lemma SendIsExact(s: State, me: nat, m: Text, o: Outcome, d: Outcome)
    requires Inv(s)
    ensures var r := SendText(s, me, m, o, d);
      && r.accepted == s.accepted + [m]
      && r.client == (if ClientOpen(s) then s.client else None)
      && r.direct == (if ClientOpen(s) && s.list == [] && me != OwnerOf(s) then Some(d) else s.direct)
      && if !ClientOpen(s) || s.list != [] then
           r.list == s.list + [m] && r.handed == s.handed && Undisturbed(s, r)
         else if me == OwnerOf(s) then
           && r.list == [] && r.handed == s.handed + [m] && SameTasks(s, r)
           && GivenOnly(s.nets, r.nets, s.client.value, [m])
         else match d
           case Took => r.list == [] && r.handed == s.handed + [m] && Undisturbed(s, r)
           case Again => r.list == [m] && r.handed == s.handed && Woken(s, r, OwnerOf(s))
           case Fail => r.list == [m] && r.handed == s.handed && Undisturbed(s, r)
  {
    if ClientOpen(s) && s.list == [] && me == OwnerOf(s) {
      SendKeepsOrder(s.nets.peers[s.client.value].conn, m, o);
    }
  }

  predicate SameTasks(s: State, r: State) { r.notified == s.notified && r.nets.tasks == s.nets.tasks }

  predicate Undisturbed(s: State, r: State) { r.notified == s.notified && r.nets == s.nets }

  /** A task is queued on the owner's thread, unless one is pending already. */
  predicate Woken(s: State, r: State, owner: nat) {
    && r.notified && r.nets.peers == s.nets.peers
    && r.nets.tasks == if s.notified then s.nets.tasks else s.nets.tasks + multiset{owner}
  }

  /** One connection's send has been called with these messages; the other connections, and which
      thread owns which, are unchanged. */
  ghost predicate GivenOnly(n: Nets, r: Nets, id: nat, ms: seq<Text>) {
    && r.peers.Keys == n.peers.Keys && id in n.peers
    && (forall k | k in n.peers && k != id :: r.peers[k] == n.peers[k])
    && r.peers[id].thread == n.peers[id].thread
    && r.peers[id].conn.given == n.peers[id].conn.given + ms
  }

  /** What __send does on thread me: on the owner's thread it gives the messages to the connection, in
      order, until none is left or the connection has closed; on another thread it wakes the owner. */
  ghost predicate Drains(s: State, me: nat, r: State) {
    && r.accepted == s.accepted
    && if s.list == [] || !ClientOpen(s) then
         r.list == s.list && r.handed == s.handed && Undisturbed(s, r)
       else if me != OwnerOf(s) then
         r.list == s.list && r.handed == s.handed && r.client == s.client && Woken(s, r, OwnerOf(s))
       else exists k | 0 < k <= |s.list| ::
         && r.list == s.list[k..] && r.handed == s.handed + s.list[..k] && SameTasks(s, r)
         && GivenOnly(s.nets, r.nets, s.client.value, s.list[..k])
         && (k < |s.list| ==> !r.nets.IsOpen(s.client.value))
  }

  lemma {:induction false} SendAllDrains(s: State, me: nat, os: seq<Outcome>)
    requires Draining(s)
    ensures Drains(s, me, SendAll(s, me, os))
    decreases |s.list|
  {
    if s.list != [] && ClientOpen(s) && OwnerOf(s) == me {
      var sent := OwnerSend(s, s.list[0], Head(os));
      var t := sent.(list := s.list[1..]);
      OneGiven(s, Head(os));
      SendAllDrains(t, me, Rest(os));
      hide Draining, GivenOnly, Drains, OwnerSend;
      DrainsOneMore(s, t, me, SendAll(t, me, Rest(os)));
    }
  }

  lemma OneGiven(s: State, o: Outcome)
    requires Draining(s) && s.list != [] && ClientOpen(s)
    ensures var t := OwnerSend(s, s.list[0], o).(list := s.list[1..]);
      && Draining(t) && t.accepted == s.accepted && t.client == s.client && t.handed == s.handed + [s.list[0]]
      && SameTasks(s, t) && GivenOnly(s.nets, t.nets, s.client.value, [s.list[0]])
  {
    OwnerSendKeeps(s, s.list[0], o);
    SendKeepsOrder(s.nets.peers[s.client.value].conn, s.list[0], o);
    assert (s.handed + [s.list[0]]) + s.list[1..] == s.handed + s.list;
  }

  lemma DrainsOneMore(s: State, t: State, me: nat, r: State)
    requires s.list != [] && ClientOpen(s) && OwnerOf(s) == me
    requires t.list == s.list[1..] && t.handed == s.handed + [s.list[0]] && t.client == s.client
    requires t.accepted == s.accepted && SameTasks(s, t) && GivenOnly(s.nets, t.nets, s.client.value, [s.list[0]])
    requires Drains(t, me, r)
    ensures Drains(s, me, r)
  {
    var j := |t.list| - |r.list|;
    var k := j + 1;
    assert t.list[j..] == s.list[k..] && [s.list[0]] + t.list[..j] == s.list[..k];
    assert t.list[..0] == [];
    assert (s.handed + [s.list[0]]) + t.list[..j] == s.handed + s.list[..k];
    var c := s.nets.peers[s.client.value].conn;
    assert (c.given + [s.list[0]]) + t.list[..j] == c.given + s.list[..k];
    assert r.list == s.list[k..];
  }

  /** Binding sets the client and drains to it; the task clears the flag, takes itself off the queue
      and drains on its thread. */
  lemma BindAndWakeDrain(s: State, e: Step)
    requires Inv(s) && Enabled(s, e)
    ensures e.Bind? ==> Drains(s.(client := Some(e.id)), e.me, Next(s, e))
    ensures e.Wake? ==>
              var tasks := s.nets.tasks - multiset{e.thread};
              Drains(s.(notified := false, nets := Nets(s.nets.peers, tasks)), e.thread, Next(s, e))
  {
    hide Drains;
    match e
    case Bind(id, me, os) => SendAllDrains(s.(client := Some(id)), me, os);
    case Wake(thread, os) => SendAllDrains(s.(notified := false, nets := s.nets.TakeTask(thread)), thread, os);
    case _ =>
  }

  /** The connections' own steps leave the session alone, and concern one connection. */
  lemma PeerStepIsExact(s: State, e: Step)
    requires Inv(s) && Enabled(s, e) && (e.Accept? || e.Writable? || e.HangUp?)
    ensures var r := Next(s, e);
      && e.id in r.nets.peers
      && r == s.(nets := Nets(s.nets.peers[e.id := r.nets.peers[e.id]], s.nets.tasks))
      && PeerAfter(s, e, r.nets.peers[e.id])
  {
    if e.Writable? {
      FlushKeepsOrder(s.nets.peers[e.id].conn, e.outcomes);
    }
    hide Flushed, Ordered;
  }

  ghost predicate PeerAfter(s: State, e: Step, p: Peer)
    requires Enabled(s, e) && (e.Accept? || e.Writable? || e.HangUp?)
  {
    match e
    case Accept(_, thread) => p == Peer(thread, Conn(true, false, [], [], []))
    case HangUp(id) =>
      var q := s.nets.peers[id];
      p == Peer(q.thread, Conn(false, false, [], q.conn.taken, q.conn.given))
    case Writable(id, os) =>
      var q := s.nets.peers[id];
      var k := TakenOf(os, |q.conn.wbuffer|);
      && p.thread == q.thread && p.conn.taken == q.conn.taken + q.conn.wbuffer[..k]
      && (p.conn.open <==> k == |q.conn.wbuffer| || os[k] == Again)
      && p.conn.wbuffer == if p.conn.open then q.conn.wbuffer[k..] else []
    case _ => true
  }

  /** And then no sender revives it: until the session is bound anew or the connection closes, every
      step leaves the waiting messages where they are, and every further message joins them. */
  lemma StallPersists(s: State, e: Step)
    requires Inv(s) && Stalled(s) && Enabled(s, e) && !e.Bind?
    ensures var r := Next(s, e);
      && r.handed == s.handed && s.list <= r.list
      && (Stalled(r) || !ClientOpen(r))
  {
    assert s.nets.tasks == multiset{};
  }

  /** Running the task on the owner's thread hands off everything accepted, however much has
      gathered, unless a send fails hard. */
  lemma WakeUpEmptiesTheList(s: State, os: seq<Outcome>)
    requires Inv(s) && ClientOpen(s) && OwnerOf(s) in s.nets.tasks
    requires forall i | 0 <= i < |os| :: os[i] != Fail
    ensures var r := RunTask(s, OwnerOf(s), os); r.list == [] && r.handed == s.accepted && ClientOpen(r)
  {
    var t := s.(notified := false, nets := s.nets.TakeTask(OwnerOf(s)));
    SendAllKeeps(t, OwnerOf(s), os);
    SendAllEmpties(t, os);
  }

  lemma {:induction false} SendAllEmpties(s: State, os: seq<Outcome>)
    requires ClientOpen(s) && forall i | 0 <= i < |os| :: os[i] != Fail
    ensures var r := SendAll(s, OwnerOf(s), os); r.list == [] && ClientOpen(r)
    decreases |s.list|
  {
    if s.list != [] {
      var t := OwnerSend(s, s.list[0], Head(os)).(list := s.list[1..]);
      assert ClientOpen(t) && OwnerOf(t) == OwnerOf(s);
      SendAllEmpties(t, Rest(os));
    }
  }

  /** Binding a stalled session again sets it going. */
  lemma BindingRevives(s: State, id: nat, me: nat, os: seq<Outcome>)
    requires Inv(s) && id in s.nets.peers
    ensures !Stalled(SetClient(s, id, me, os))
  {
    SendAllKeeps(s.(client := Some(id)), me, os);
  }

  // ---------------------------------------------------------------------------------------------
  // All senders on the owner's thread

  /** While the client is open only its owner's thread sends; and a connection is not bound again
      after another one has been. */
  predicate OwnerOnly(s: State, e: Step, ids: seq<nat>) {
    && (e.Submit? && ClientOpen(s) ==> e.me == OwnerOf(s))
    && (e.Bind? && e.id in ids ==> e.id == ids[|ids| - 1])
  }

  /** The connections bound so far, in order. */
  function BoundAfter(ids: seq<nat>, e: Step): seq<nat> {
    if e.Bind? && e.id !in ids then ids + [e.id] else ids
  }

  predicate AllOwnerOnly(s: State, steps: seq<Step>, ids: seq<nat>)
    decreases |steps|
  {
    steps != [] ==>
      if Enabled(s, steps[0]) then
        OwnerOnly(s, steps[0], ids) && AllOwnerOnly(Next(s, steps[0]), steps[1..], BoundAfter(ids, steps[0]))
      else AllOwnerOnly(s, steps[1..], ids)
  }

  function Bound(s: State, steps: seq<Step>, ids: seq<nat>): seq<nat>
    decreases |steps|
  {
    if steps == [] then ids
    else if Enabled(s, steps[0]) then Bound(Next(s, steps[0]), steps[1..], BoundAfter(ids, steps[0]))
    else Bound(s, steps[1..], ids)
  }

  /** What a connection's send has been called with. */
  function GivenTo(n: Nets, id: nat): seq<Text> { if id in n.peers then n.peers[id].conn.given else [] }

  /** The same for several connections, one after the other. */
  function Given(n: Nets, ids: seq<nat>): seq<Text> {
    if ids == [] then [] else Given(n, ids[..|ids| - 1]) + GivenTo(n, ids[|ids| - 1])
  }

  /** Everything handed off has gone through the sends of the connections bound, in order. */
  ghost predicate Through(s: State, ids: seq<nat>) {
    && (forall i, j | 0 <= i < j < |ids| :: ids[i] != ids[j])
    && (forall id | id in ids :: id in s.nets.peers)
    && (s.client.Some? ==> ids != [] && s.client.value == ids[|ids| - 1])
    && s.handed == Given(s.nets, ids)
    && (forall id | id !in ids :: GivenTo(s.nets, id) == [])
  }

  lemma {:induction false} SameGiven(n: Nets, m: Nets, ids: seq<nat>)
    requires forall id | id in ids :: GivenTo(n, id) == GivenTo(m, id)
    ensures Given(n, ids) == Given(m, ids)
    decreases |ids|
  {
    if ids != [] {
      SameGiven(n, m, ids[..|ids| - 1]);
    }
  }

  /** A step of the connections that gives them nothing. */
  lemma NothingGiven(s: State, t: State, ids: seq<nat>)
    requires Through(s, ids) && t.handed == s.handed && (t.client == s.client || t.client == None)
    requires s.nets.peers.Keys <= t.nets.peers.Keys
    requires forall id :: GivenTo(t.nets, id) == GivenTo(s.nets, id)
    ensures Through(t, ids)
  {
    SameGiven(s.nets, t.nets, ids);
  }

  lemma OneSendThrough(s: State, m: Text, o: Outcome, ids: seq<nat>)
    requires ConnsOrdered(s.nets) && Through(s, ids) && ClientOpen(s)
    ensures Through(OwnerSend(s, m, o), ids)
  {
    var r, last := OwnerSend(s, m, o), |ids| - 1;
    SendKeepsOrder(s.nets.peers[s.client.value].conn, m, o);
    assert forall id | id != s.client.value :: GivenTo(r.nets, id) == GivenTo(s.nets, id);
    SameGiven(s.nets, r.nets, ids[..last]);
    assert (Given(s.nets, ids[..last]) + GivenTo(s.nets, ids[last])) + [m]
        == Given(s.nets, ids[..last]) + (GivenTo(s.nets, ids[last]) + [m]);
  }

  lemma {:induction false} SendAllThrough(s: State, me: nat, os: seq<Outcome>, ids: seq<nat>)
    requires Draining(s) && Through(s, ids)
    ensures Through(SendAll(s, me, os), ids)
    decreases |s.list|
  {
    if s.list != [] && ClientOpen(s) && OwnerOf(s) == me {
      hide ConnsOrdered, Through, OwnerSend;
      var sent := OwnerSend(s, s.list[0], Head(os));
      OwnerSendKeeps(s, s.list[0], Head(os));
      OneSendThrough(s, s.list[0], Head(os), ids);
      var t := sent.(list := s.list[1..]);
      assert t.handed + t.list == s.handed + s.list;
      ListIsFree(sent, t, ids);
      SendAllThrough(t, me, Rest(os), ids);
    } else {
      hide Through, ConnsOrdered;
      NothingGiven(s, SendAll(s, me, os), ids);
    }
  }

  lemma ListIsFree(s: State, t: State, ids: seq<nat>)
    requires Through(s, ids) && t == s.(list := t.list, accepted := t.accepted, notified := t.notified)
    ensures Through(t, ids)
  {
  }

  /** Binding a connection that was not bound before, or the last one again. */
  lemma BindThrough(s: State, id: nat, ids: seq<nat>)
    requires Through(s, ids) && id in s.nets.peers && (id in ids ==> id == ids[|ids| - 1])
    ensures Through(s.(client := Some(id)), if id in ids then ids else ids + [id])
  {
    assert (ids + [id])[..|ids|] == ids;
    assert id !in ids ==> Given(s.nets, ids + [id]) == Given(s.nets, ids) + GivenTo(s.nets, id);
  }

  lemma NextThrough(s: State, e: Step, ids: seq<nat>)
    requires Inv(s) && Through(s, ids) && Enabled(s, e) && OwnerOnly(s, e, ids)
    ensures Through(Next(s, e), BoundAfter(ids, e))
  {
    hide Through, SendAll, SendText;
    match e
    case Bind(id, me, os) =>
      BindThrough(s, id, ids);
      SendAllThrough(s.(client := Some(id)), me, os, BoundAfter(ids, e));
    case Wake(thread, os) =>
      var t := s.(notified := false, nets := s.nets.TakeTask(thread));
      NothingGiven(s, t, ids);
      SendAllThrough(t, thread, os, ids);
    case Submit(me, m, o, d) => SubmitThrough(s, me, m, o, d, ids);
    case _ => PeersThrough(s, e, ids);
  }

  lemma PeersThrough(s: State, e: Step, ids: seq<nat>)
    requires Inv(s) && Through(s, ids) && Enabled(s, e) && (e.Accept? || e.Writable? || e.HangUp?)
    ensures Through(Next(s, e), ids)
  {
    if e.Writable? {
      FlushKeepsOrder(s.nets.peers[e.id].conn, e.outcomes);
    }
    hide Through;
    NothingGiven(s, Next(s, e), ids);
  }

  lemma SubmitThrough(s: State, me: nat, m: Text, o: Outcome, d: Outcome, ids: seq<nat>)
    requires Inv(s) && Through(s, ids) && (ClientOpen(s) ==> me == OwnerOf(s))
    ensures Through(SendText(s, me, m, o, d), ids)
  {
    var v := CheckValid(s.(accepted := s.accepted + [m]));
    NothingGiven(s, v, ids);
    if v.client.Some? && v.list == [] {
      OneSendThrough(v, m, o, ids);
    } else {
      ListIsFree(v, v.(list := v.list + [m]), ids);
    }
  }

  lemma {:induction false} RunThrough(s: State, steps: seq<Step>, ids: seq<nat>)
    requires Inv(s) && Through(s, ids) && AllOwnerOnly(s, steps, ids)
    ensures Inv(Run(s, steps)) && Through(Run(s, steps), Bound(s, steps, ids))
    decreases |steps|
  {
    hide Inv, Through, OwnerOnly, Next, BoundAfter;
    if steps != [] {
      if Enabled(s, steps[0]) {
        NextKeeps(s, steps[0]);
        NextThrough(s, steps[0], ids);
        RunThrough(Next(s, steps[0]), steps[1..], BoundAfter(ids, steps[0]));
      } else {
        RunThrough(s, steps[1..], ids);
      }
    }
  }

  /** When only owners' threads send, over any number of connections bound one after the other: what
      the connections have been given, in the order of binding, and then m_list, are the accepted
      messages.  Of each connection the kernel has taken a prefix of what it was given; as long as it
      is open the rest is in its write buffer, and it waits for EPOLLOUT exactly while that is not empty. */
  lemma OwnerOutputIsInOrder(steps: seq<Step>)
    requires AllOwnerOnly(START, steps, [])
    ensures var s, ids := Run(START, steps), Bound(START, steps, []);
      && Given(s.nets, ids) + s.list == s.accepted
      && (forall i, j | 0 <= i < j < |ids| :: ids[i] != ids[j])
      && (s.client.Some? ==> ids != [] && s.client.value == ids[|ids| - 1])
      && forall id | id in ids ::
           && id in s.nets.peers
           && var c := s.nets.peers[id].conn;
           && c.taken <= c.given
           && (c.open ==> c.taken + c.wbuffer == c.given)
           && (c.armed <==> c.wbuffer != [])
  {
    RunThrough(START, steps, []);
    var s := Run(START, steps);
    assert forall id | id in s.nets.peers :: Ordered(s.nets.peers[id].conn);
  }

  /** With a single connection: as long as it is open, what the kernel has taken, then the write
      buffer, then m_list, are the accepted messages in order; afterwards a prefix has been taken. */
  lemma OneConnectionOutputIsInOrder(steps: seq<Step>, id: nat)
    requires AllOwnerOnly(START, steps, []) && Bound(START, steps, []) == [id]
    ensures var s := Run(START, steps);
      && id in s.nets.peers
      && var c := s.nets.peers[id].conn;
      && (c.open ==> c.taken + c.wbuffer + s.list == s.accepted)
      && c.taken <= s.accepted
  {
    OwnerOutputIsInOrder(steps);
    var s := Run(START, steps);
    assert id in [id];
    assert Given(s.nets, [id]) == [] + GivenTo(s.nets, id);
  }
}

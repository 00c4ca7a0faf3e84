/**
  The output side of src/net/asyncnet.cpp: the write buffer of a connection, its EPOLLOUT interest,
  and the trigger queue that wakes an event thread.  Connections are never reused: a descriptor that
  is closed and opened again is a new connection here.
*/
module AsyncNet {
  import opened Common

  type Text = seq<char>

  /** One connection as its owning thread sees it.  `given`: what send was called with; `taken`: what
      the kernel has taken, whole messages only, as asserted at asyncnet.cpp:348. */
  datatype Conn = Conn(open: bool, armed: bool, wbuffer: seq<Text>, taken: seq<Text>, given: seq<Text>)

  const NEW_CONN := Conn(true, false, [], [], [])

  /** asyncnet::__clientclose */
  function Closed(c: Conn): Conn { c.(open := false, armed := false, wbuffer := []) }

  /** asyncnet::send */
  function Sent(c: Conn, m: Text, o: Outcome): Conn {
    var g := c.(given := c.given + [m]);
    if c.wbuffer != [] then g.(wbuffer := c.wbuffer + [m])
    else match o
      case Took => g.(taken := c.taken + [m])
      case Again => g.(armed := true, wbuffer := [m])
      case Fail => Closed(g)
  }

  function Head(os: seq<Outcome>): Outcome { if os == [] then Took else os[0] }
  function Rest(os: seq<Outcome>): seq<Outcome> { if os == [] then [] else os[1..] }

  /** asyncnet::__send, the loop that runs when the connection becomes writable. */
  function Flushed(c: Conn, os: seq<Outcome>): Conn
    decreases |c.wbuffer|
  {
    if c.wbuffer == [] then c.(armed := false)
    else match Head(os)
      case Took => Flushed(c.(wbuffer := c.wbuffer[1..], taken := c.taken + [c.wbuffer[0]]), Rest(os))
      case Again => c.(armed := true)
      case Fail => Closed(c)
  }

  /** What the kernel has taken followed by the write buffer is what was given, in order; and the
      connection waits for EPOLLOUT exactly while something is buffered.  Of a closed connection, a
      prefix has been taken. */
  ghost predicate Ordered(c: Conn) {
    && c.taken <= c.given
    && (c.open ==> c.taken + c.wbuffer == c.given)
    && (c.armed <==> c.wbuffer != [])
    && (!c.open ==> c.wbuffer == [])
  }

  /** The message goes to the kernel at once, behind what is buffered, or nowhere: it is taken exactly
      when nothing is buffered and the kernel takes it, buffered when something is or the send would
      block, and lost with the connection on a hard error.  The order is kept. */
  lemma SendKeepsOrder(c: Conn, m: Text, o: Outcome)
    requires Ordered(c) && c.open
    ensures var r := Sent(c, m, o);
      && Ordered(r) && r.given == c.given + [m]
      && r.taken == c.taken + (if c.wbuffer == [] && o == Took then [m] else [])
      && r.wbuffer == (if c.wbuffer != [] || o == Again then c.wbuffer + [m] else [])
      && (r.open <==> c.wbuffer != [] || o != Fail)
  {
  }

  /** How many sends in a row the kernel takes, of n. */
  function TakenOf(os: seq<Outcome>, n: nat): (k: nat)
    ensures k <= n && (k < n ==> k < |os|)
  {
    if n == 0 then 0
    else if os == [] then n
    else if os[0] == Took then 1 + TakenOf(os[1..], n - 1)
    else 0
  }

  /** Draining the write buffer: the messages the kernel takes leave it, in order and no others.  If
      the first not taken would block, it and the rest stay; if it fails hard, the connection closes. */
  lemma {:induction false} FlushKeepsOrder(c: Conn, os: seq<Outcome>)
    requires Ordered(c) && c.open
    ensures var r, k := Flushed(c, os), TakenOf(os, |c.wbuffer|);
      && Ordered(r) && r.given == c.given
      && r.taken == c.taken + c.wbuffer[..k]
      && (r.open <==> k == |c.wbuffer| || os[k] == Again)
      && r.wbuffer == if r.open then c.wbuffer[k..] else []
    decreases |c.wbuffer|
  {
    if c.wbuffer != [] && Head(os) == Took {
      var d := c.(wbuffer := c.wbuffer[1..], taken := c.taken + [c.wbuffer[0]]);
      assert c.taken + c.wbuffer == (c.taken + [c.wbuffer[0]]) + c.wbuffer[1..];
      var k := TakenOf(Rest(os), |d.wbuffer|);
      assert TakenOf(os, |c.wbuffer|) == k + 1;
      assert d.taken + d.wbuffer[..k] == c.taken + c.wbuffer[..k + 1];
      assert d.wbuffer[k..] == c.wbuffer[k + 1..];
      if d.wbuffer == [] {
        assert Flushed(d, Rest(os)) == d.(armed := false);
      } else {
        FlushKeepsOrder(d, Rest(os));
      }
    }
  }

  /** A closed connection has lost its buffer and its interest in EPOLLOUT, and nothing else. */
  lemma CloseDropsBuffer(c: Conn)
    ensures Closed(c) == Conn(false, false, [], c.taken, c.given)
  {
  }

  // ---------------------------------------------------------------------------------------------
  // All event threads together

  datatype Peer = Peer(thread: nat, conn: Conn)

  /** The connections of all threads, and the threads that have a drain task queued, each as often
      as it has one. */
  datatype Nets = Nets(peers: map<nat, Peer>, tasks: multiset<nat>) {

    predicate IsOpen(id: nat) { id in peers && peers[id].conn.open }

    function Put(id: nat, c: Conn): Nets
      requires id in peers
    {
      Nets(peers[id := peers[id].(conn := c)], tasks)
    }

    function Notify(thread: nat): Nets { Nets(peers, tasks + multiset{thread}) }
    function TakeTask(thread: nat): Nets { Nets(peers, tasks - multiset{thread}) }
  }

  /** The per-descriptor vectors of every thread's asyncnet, one record a connection, and m_trigger. */
  class AsyncNets {
    var peers: map<nat, Peer>
    var tasks: multiset<nat>

    function Value(): Nets
      reads this
    {
      Nets(peers, tasks)
    }

    constructor ()
      ensures Value() == Nets(map[], multiset{})
    {
      peers, tasks := map[], multiset{};
    }

    method Accept(id: nat, thread: nat)
      requires id !in peers
      modifies this`peers
      ensures Value() == Nets(old(peers)[id := Peer(thread, NEW_CONN)], tasks)
    {
      peers := peers[id := Peer(thread, Conn(true, false, [], [], []))];
    }

    /** Writes back one connection. */
    method Store(id: nat, c: Conn)
      requires id in peers
      modifies this`peers
      ensures Value() == old(Value()).Put(id, c)
    {
      peers := peers[id := peers[id].(conn := c)];
    }

    method ClientClose(id: nat)
      requires id in peers
      modifies this`peers
      ensures Value() == old(Value()).Put(id, Closed(old(peers[id].conn)))
    {
      var c := peers[id].conn;
      c := c.(open := false);
      c := c.(armed := false, wbuffer := []);
      Store(id, c);
    }

    method Send(id: nat, m: Text, o: Outcome)
      requires Value().IsOpen(id)
      modifies this`peers
      ensures Value() == old(Value()).Put(id, Sent(old(peers[id].conn), m, o))
    {
      var c := peers[id].conn;
      c := c.(given := c.given + [m]);
      if c.wbuffer != [] {
        c := c.(wbuffer := c.wbuffer + [m]);
      } else {
        match o {
          case Took => c := c.(taken := c.taken + [m]);
          case Again =>
            c := c.(armed := true);
            c := c.(wbuffer := [m]);
          case Fail => c := c.(open := false, armed := false, wbuffer := []);
        }
      }
      Store(id, c);
    }

    /** asyncnet::__send */
    method Flush(id: nat, outcomes: seq<Outcome>)
      requires Value().IsOpen(id)
      modifies this`peers
      ensures Value() == old(Value()).Put(id, Flushed(old(peers[id].conn), outcomes))
    {
      var c := peers[id].conn;
      var os := outcomes;
      var stopped := false;
      while c.wbuffer != [] && !stopped
        invariant Flushed(peers[id].conn, outcomes) == if stopped then c else Flushed(c, os)
        decreases !stopped, |c.wbuffer|
      {
        match Head(os) {
          case Took => c := c.(wbuffer := c.wbuffer[1..], taken := c.taken + [c.wbuffer[0]]);
          case Again => c, stopped := c.(armed := true), true;
          case Fail => c, stopped := c.(open := false, armed := false, wbuffer := []), true;
        }
        os := Rest(os);
      }
      if !stopped {
        c := c.(armed := false);
      }
      Store(id, c);
    }

    method Notify(thread: nat)
      modifies this`tasks
      ensures Value() == old(Value()).Notify(thread)
    {
      tasks := tasks + multiset{thread};
    }

    method TakeTask(thread: nat)
      modifies this`tasks
      ensures Value() == old(Value()).TakeTask(thread)
    {
      tasks := tasks - multiset{thread};
    }
  }
}

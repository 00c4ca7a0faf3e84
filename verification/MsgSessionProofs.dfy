/** What every run of the session keeps, and what follows from it. */
module MsgSessionProofs {
  import opened Common
  import opened MsgSessionSpec

  // ---------------------------------------------------------------------------------------------
  // The invariant, valid at every point where user code may run

  /** Completed callbacks followed by m_list are the submitted queries, in submission order. */
  ghost predicate InOrder(done: seq<Completion>, list: seq<Entry>, next: nat) {
    && |done| + |list| == next
    && (forall i | 0 <= i < |done| :: done[i].id == i)
    && (forall i | 0 <= i < |list| :: list[i].id == |done| + i)
  }

  /** A request is in flight on the current connection. */
  predicate InFlight(s: State) { s.querying && s.link.Some? }

  function InFlightCount(s: State): nat { if InFlight(s) then 1 else 0 }

  /** Exactly the first `inFlight` entries have been handed to the client. */
  ghost predicate OnlyFrontSent(list: seq<Entry>, inFlight: nat) {
    && inFlight <= |list|
    && (forall i | 0 <= i < inFlight :: list[i].sent)
    && (forall i | inFlight <= i < |list| :: !list[i].sent)
  }

  /** No request is handed to a client twice, over all connections. */
  ghost predicate SentOnce(sent: seq<nat>, bound: nat) {
    && (forall i, j | 0 <= i < j < |sent| :: sent[i] < sent[j])
    && (forall i | 0 <= i < |sent| :: sent[i] < bound)
  }

  ghost predicate Stamped(list: seq<Entry>, clock: int) {
    && (forall i, j | 0 <= i < j < |list| :: list[i].stamp <= list[j].stamp)
    && (forall i | 0 <= i < |list| :: list[i].stamp <= clock)
  }

  function Paths(s: State): nat {
    s.connects + s.armed + if s.link.Some? then 1 else 0
  }

  function Requests(ps: seq<Packet>): nat {
    if ps == [] then 0 else (if ps[0].Request? then 1 else 0) + Requests(ps[1..])
  }

  function Replies(fs: seq<Frame>): nat {
    if fs == [] then 0 else (if fs[0].Reply? then 1 else 0) + Replies(fs[1..])
  }

  /** Exactly `n` requests and replies are under way, or swallowed, and each is the front entry's. */
  ghost predicate InTransit(l: Link, front: nat, n: nat) {
    && Requests(l.out) + Requests(l.server) + Replies(l.back) + l.swallowed == n
    && (forall p | p in l.out :: p.Request? ==> p.id == front)
    && (forall p | p in l.server :: p.Request? ==> p.id == front)
    && (forall f | f in l.back :: f.Reply? ==> f.id == front)
  }

  ghost predicate IsMatched(c: Completion) {
    c.cause.ByFrame? ==> c.cause.frame.Reply? && c.cause.frame.id == c.id
  }

  /** Every callback completed by a frame has seen the reply produced for its own query. */
  ghost predicate Matched(done: seq<Completion>) {
    forall i | 0 <= i < |done| :: IsMatched(done[i])
  }

  ghost predicate LinkCorrelated(link: Option<Link>, front: nat, n: nat) {
    link.Some? ==> InTransit(link.value, front, n)
  }

  ghost predicate OnlyEvents(link: Option<Link>, d: Dispatcher) {
    link.Some? ==> forall f | f in link.value.back :: f.Push? ==> d.IsEvent(f.cmd)
  }

  ghost predicate Correlated(s: State, n: nat) {
    && (Matched(s.done) <==> !s.stray)
    && (s.stray || LinkCorrelated(s.link, |s.done|, n))
    && (s.polluted || (!s.stray && OnlyEvents(s.link, s.dispatcher)))
  }

  ghost predicate Inv(s: State) { InvWith(s, InFlightCount(s)) }

  /** The invariant, but with n requests or replies under way. */
  ghost predicate InvWith(s: State, n: nat) {
    && !s.aborted
    && InOrder(s.done, s.list, s.next)
    && OnlyFrontSent(s.list, InFlightCount(s))
    && SentOnce(s.sent, |s.done| + InFlightCount(s))
    && Stamped(s.list, s.clock)
    && Correlated(s, n)
    && Paths(s) <= 1 && (s.timer <==> s.armed == 1)
  }

  /** Additionally true between steps: a connected session with work has a request in flight, and
      exactly one of connect pending, connection up and retry timer armed holds. */
  ghost predicate Settled(s: State) {
    s.link.Some? && s.list != [] ==> s.querying
  }

  ghost predicate Resting(s: State) {
    && Inv(s) && Settled(s) && Paths(s) == 1
    && (s.querying ==> s.link.Some?)
  }

  // ---------------------------------------------------------------------------------------------
  // Counting

  lemma {:induction false} RequestsAppend(a: seq<Packet>, b: seq<Packet>)
    ensures Requests(a + b) == Requests(a) + Requests(b)
  {
    if a == [] {
      assert a + b == b;
    } else {
      RequestsAppend(a[1..], b);
      assert (a + b)[1..] == a[1..] + b;
    }
  }

  lemma {:induction false} RepliesAppend(a: seq<Frame>, b: seq<Frame>)
    ensures Replies(a + b) == Replies(a) + Replies(b)
  {
    if a == [] {
      assert a + b == b;
    } else {
      RepliesAppend(a[1..], b);
      assert (a + b)[1..] == a[1..] + b;
    }
  }

  lemma {:induction false} NoRequests(ps: seq<Packet>)
    requires Requests(ps) == 0
    ensures forall p | p in ps :: p.Beat?
  {
    if ps != [] {
      NoRequests(ps[1..]);
      assert ps == [ps[0]] + ps[1..];
    }
  }

  lemma {:induction false} NoReplies(fs: seq<Frame>)
    requires Replies(fs) == 0
    ensures forall f | f in fs :: f.Push?
  {
    if fs != [] {
      NoReplies(fs[1..]);
      assert fs == [fs[0]] + fs[1..];
    }
  }

  // ---------------------------------------------------------------------------------------------
  // Each method keeps the invariant, whatever the environment does inside it

  /** From s to t nothing recorded is lost; and without a connection, calls only append. */
  ghost predicate Extends(s: State, t: State) {
    && Inv(t) && Paths(t) == Paths(s)
    && t.clock >= s.clock && t.next >= s.next && t.dispatcher == s.dispatcher && t.polluted == s.polluted
    && s.done <= t.done && s.sent <= t.sent
    && (s.link.None? ==> Appends(s, t))
    && (s.link.Some? && t.link.None? ==> !t.querying)
  }

  ghost predicate Appends(s: State, t: State) {
    && t == s.(list := t.list, clock := t.clock, next := t.next, script := t.script)
    && s.list <= t.list
    && (forall i | |s.list| <= i < |t.list| :: t.list[i].stamp >= s.clock)
  }

  lemma ExtendsTransitive(s: State, t: State, u: State)
    requires Extends(s, t) && Extends(t, u)
    ensures Extends(s, u)
  {
  }

  lemma {:induction false} QueryExtends(s: State)
    requires Inv(s)
    ensures Extends(s, Query(s)) && Settled(Query(s))
    decreases |s.script|, 2
  {
    var s' := s.(list := s.list + [Entry(s.next, s.clock, false)], next := s.next + 1);
    assert Extends(s, s');
    SendFrontExtends(s');
  }

  lemma {:induction false} SendFrontExtends(s: State)
    requires Inv(s)
    ensures Extends(s, SendFront(s)) && Settled(SendFront(s))
    decreases |s.script|, 1
  {
    if !s.querying && s.link.Some? && s.list != [] {
      var front := s.list[0];
      var s' := s.(querying := true, list := s.list[0 := front.(sent := true)], sent := s.sent + [front.id]);
      assert InvWith(s', 0) && MayTransmit(s', Request(front.id));
      TransmitExtends(s', Request(front.id));
    }
  }

  /** A packet may go out if it is no request, or the front's. */
  ghost predicate MayTransmit(s: State, p: Packet) {
    p.Request? ==> p.id == |s.done| && InFlight(s)
  }

  /** How many requests or replies are under way before the packet goes out. */
  function Before(s: State, p: Packet): nat { if p.Request? then 0 else InFlightCount(s) }

  /** Putting one admissible packet on the connection. */
  lemma CarryKeeps(s: State, p: Packet, l: Link)
    requires s.link.Some? && MayTransmit(s, p) && InvWith(s, Before(s, p))
    requires l.back == s.link.value.back && l.swallowed == s.link.value.swallowed
    requires (l.out == s.link.value.out + [p] && l.server == s.link.value.server)
          || (l.out == s.link.value.out && l.server == s.link.value.server + [p])
    ensures Inv(s.(link := Some(l)))
  {
    RequestsAppend(s.link.value.out, [p]);
    RequestsAppend(s.link.value.server, [p]);
    if !s.stray {
      assert InTransit(l, |s.done|, InFlightCount(s));
    }
  }

  /** From s, whose packet is on its way, to t nothing recorded is lost. */
  ghost predicate Transmits(s: State, t: State) {
    && Inv(t) && Paths(t) == Paths(s)
    && t.clock >= s.clock && t.next >= s.next && t.dispatcher == s.dispatcher && t.polluted == s.polluted
    && s.done <= t.done && s.sent <= t.sent
    && (t.link.None? ==> !t.querying)
  }

  lemma {:induction false} TransmitExtends(s: State, p: Packet)
    requires s.link.Some? && Settled(s) && MayTransmit(s, p) && InvWith(s, Before(s, p))
    ensures Transmits(s, Transmit(s, p)) && Settled(Transmit(s, p))
    decreases |s.script|, 0
  {
    hide InvWith, OnClose, Transmits;
    var l := s.link.value;
    if l.out == [] && Pick(s).outcome == Fail {
      DropKeeps(s, Before(s, p));
      OnCloseExtends(Drop(s), Before(s, p));
      OnCloseTransmits(s, Before(s, p));
    } else {
      TransmitCarries(s, p);
    }
  }

  lemma TransmitCarries(s: State, p: Packet)
    requires s.link.Some? && Settled(s) && MayTransmit(s, p) && InvWith(s, Before(s, p))
    requires s.link.value.out == [] ==> Pick(s).outcome != Fail
    ensures Transmits(s, Transmit(s, p)) && Settled(Transmit(s, p))
  {
    hide OnClose, InvWith;
    var l := s.link.value;
    if l.out == [] {
      DropKeeps(s, Before(s, p));
      if Pick(s).outcome == Took {
        CarryKeeps(Drop(s), p, l.(server := l.server + [p]));
      } else {
        assert l.out + [p] == [p];
        CarryKeeps(Drop(s), p, l.(out := [p]));
      }
    } else {
      CarryKeeps(s, p, l.(out := l.out + [p]));
    }
  }

  lemma DropKeeps(s: State, n: nat)
    requires InvWith(s, n)
    ensures InvWith(Drop(s), n) && Paths(Drop(s)) == Paths(s)
  {
  }

  /** What the end of a connection leaves behind. */
  ghost predicate Recovers(s: State, r: State) {
    && Inv(r) && Paths(r) == 1 && r.link.None? && !r.querying
    && Precedes(s, r)
  }

  lemma {:induction false} OnCloseExtends(s: State, n: nat)
    requires InvWith(s, n) && (s.link.None? ==> !s.querying && Paths(s) == 0)
    ensures Recovers(s, OnClose(s))
    decreases |s.script|, 3
  {
    hide InvWith, Callback, Sweep;
    var s1 := s.(link := None);
    var s2 := if s.querying && s.list != [] then Callback(Finish(s1, Closed)) else s1;
    if s.querying && s.list != [] {
      assert s.link.Some?;
      ClosedFrontKeeps(s, n);
      CallbackExtends(Finish(s1, Closed));
      CalledBackKeeps(s, n);
    } else {
      NothingInFlight(s, n);
    }
    var s3 := s2.(querying := false);
    SweepExpires(s3, s3.clock);
    RetryRecovers(s, s3);
  }

  lemma OnCloseIsExtension(s: State)
    requires Inv(s) && s.link.Some? && Recovers(Drop(s), OnClose(Drop(s)))
    ensures Extends(s, OnClose(Drop(s))) && Settled(OnClose(Drop(s)))
  {
    hide OnClose;
  }

  lemma OnCloseTransmits(s: State, n: nat)
    requires InvWith(s, n) && s.link.Some? && Recovers(Drop(s), OnClose(Drop(s)))
    ensures Transmits(s, OnClose(Drop(s))) && Settled(OnClose(Drop(s)))
  {
    hide OnClose;
  }

  lemma CalledBackKeeps(s: State, n: nat)
    requires InvWith(s, n) && InFlight(s) && s.list != []
    requires Extends(Finish(s.(link := None), Closed), Callback(Finish(s.(link := None), Closed)))
    ensures var s3 := Callback(Finish(s.(link := None), Closed)).(querying := false);
      Inv(s3) && s3.link.None? && Paths(s3) == 0 && Precedes(s, s3)
  {
    hide Callback;
  }

  lemma NothingInFlight(s: State, n: nat)
    requires InvWith(s, n) && (s.link.None? ==> !s.querying && Paths(s) == 0) && (!s.querying || s.list == [])
    ensures var s3 := s.(link := None, querying := false);
      Inv(s3) && s3.link.None? && Paths(s3) == 0 && Precedes(s, s3)
  {
  }

  ghost predicate Precedes(s: State, t: State) {
    && t.clock >= s.clock && t.next >= s.next && t.dispatcher == s.dispatcher && t.polluted == s.polluted
    && s.done <= t.done && s.sent == t.sent
  }

  lemma RetryRecovers(s: State, s3: State)
    requires Precedes(s, s3) && s3.link.None? && !s3.querying && Paths(s3) == 0
    requires Swept(s3, Sweep(s3, s3.clock))
    ensures Recovers(s, Retry(s3))
  {
    hide Sweep;
  }

  /** The entry in flight when its connection goes away leaves the list unanswered. */
  lemma ClosedFrontKeeps(s: State, n: nat)
    requires InvWith(s, n) && InFlight(s) && s.list != []
    ensures Inv(Finish(s.(link := None), Closed))
  {
    var r := Finish(s.(link := None), Closed);
    if s.stray {
      var i :| 0 <= i < |s.done| && !IsMatched(s.done[i]);
      assert !IsMatched(r.done[i]);
    }
  }

  lemma {:induction false} CallbackExtends(s: State)
    requires Inv(s)
    ensures Extends(s, Callback(s))
    decreases |s.script|, 0
  {
    if s.script != [] {
      var s' := Drop(s).(clock := s.clock + Pick(s).elapsed);
      assert Extends(s, s');
      SubmitsExtends(s', Pick(s).submits);
    }
  }

  lemma {:induction false} SubmitsExtends(s: State, n: nat)
    requires Inv(s)
    ensures Extends(s, Submits(s, n))
    decreases |s.script|, 3, n
  {
    if n > 0 {
      QueryExtends(s);
      SubmitsExtends(Query(s), n - 1);
    }
  }

  // ---------------------------------------------------------------------------------------------
  // The timeout sweep

  /** The entry has waited for fifteen seconds. */
  predicate IsExpired(e: Entry, t: int) { t - e.stamp >= 15000 }

  /** How many entries at the front have expired at time t. */
  function ExpiredCount(list: seq<Entry>, t: int): (n: nat)
    ensures n <= |list|
  {
    if list == [] || !IsExpired(list[0], t) then 0 else 1 + ExpiredCount(list[1..], t)
  }

  function Timeouts(list: seq<Entry>): seq<Completion> {
    seq(|list|, i requires 0 <= i < |list| => Completion(list[i].id, Expired))
  }

  /** Removing an unsent front that has expired. */
  lemma ExpiredFrontKeeps(s: State)
    requires Inv(s) && s.link.None? && s.list != []
    ensures Inv(Finish(s, Expired))
  {
    var r := Finish(s, Expired);
    if s.stray {
      var i :| 0 <= i < |s.done| && !IsMatched(s.done[i]);
      assert !IsMatched(r.done[i]);
    }
  }

  /** New entries behind do not change how many at the front have expired. */
  lemma {:induction false} ExpiredCountAppend(list: seq<Entry>, added: seq<Entry>, t: int)
    requires forall e | e in added :: !IsExpired(e, t)
    ensures ExpiredCount(list + added, t) == ExpiredCount(list, t)
  {
    if list == [] {
      assert list + added == added;
      assert added != [] ==> added[0] in added;
    } else {
      assert (list + added)[1..] == list[1..] + added;
      ExpiredCountAppend(list[1..], added, t);
    }
  }

  /** In a list in submission order, the expired entries are those at the front. */
  lemma {:induction false} ExpiredAtFront(list: seq<Entry>, t: int)
    requires forall i, j | 0 <= i < j < |list| :: list[i].stamp <= list[j].stamp
    ensures forall i | 0 <= i < |list| :: IsExpired(list[i], t) <==> i < ExpiredCount(list, t)
  {
    if list != [] && IsExpired(list[0], t) {
      ExpiredAtFront(list[1..], t);
      forall i | 0 <= i < |list| ensures IsExpired(list[i], t) <==> i < ExpiredCount(list, t) {
        if i > 0 {
          assert list[1..][i - 1] == list[i];
        }
      }
    }
  }

  /** The sweep only moves entries from the list to the completions, and appends. */
  ghost predicate Swept(s: State, r: State) {
    && Inv(r)
    && r == s.(list := r.list, done := r.done, clock := r.clock, next := r.next, script := r.script)
    && r.clock >= s.clock && r.next >= s.next
    && s.done <= r.done
  }

  /** The n entries at the front have been failed, in order, and only later ones added. */
  ghost predicate Failed(s: State, r: State, n: nat) {
    && n <= |s.list|
    && r.done == s.done + Timeouts(s.list[..n])
    && s.list[n..] <= r.list
    && (forall i | |s.list| - n <= i < |r.list| :: r.list[i].stamp >= s.clock)
  }

  lemma {:induction false} SweepExpires(s: State, t: int)
    requires Inv(s) && s.link.None? && t <= s.clock
    ensures Swept(s, Sweep(s, t)) && Failed(s, Sweep(s, t), ExpiredCount(s.list, t))
    decreases |s.script|, 1, |s.list|
  {
    hide NoFrame, InvWith, Extends, Callback, Swept, Failed;
    if s.list == [] || !IsExpired(s.list[0], t) {
      NothingSwept(s);
    } else {
      var s' := Finish(s, Expired);
      ExpiredFrontKeeps(s);
      CallbackExtends(s');
      var c := Callback(s');
      ExpiredCountAfterCallback(s', c, t);
      if s'.list == [] {
        LastSwept(s, c);
      } else {
        CallbackKeepsLinkAndClock(s', c);
        SweepExpires(c, t);
        SweptThen(s, c, Sweep(c, t), ExpiredCount(c.list, t));
      }
    }
  }

  lemma NothingSwept(s: State)
    requires Inv(s)
    ensures Swept(s, s) && Failed(s, s, 0)
  {
    assert s.done + Timeouts(s.list[..0]) == s.done;
  }

  lemma CallbackKeepsLinkAndClock(s': State, c: State)
    requires s'.link.None? && Extends(s', c)
    ensures Inv(c) && c.link.None? && c.clock >= s'.clock
  {
  }

  lemma ExpiredCountAfterCallback(s': State, c: State, t: int)
    requires s'.link.None? && Extends(s', c) && t <= s'.clock
    ensures ExpiredCount(c.list, t) == ExpiredCount(s'.list, t)
  {
    var added := c.list[|s'.list|..];
    assert c.list == s'.list + added;
    forall e | e in added ensures !IsExpired(e, t) {
      var i :| 0 <= i < |added| && added[i] == e;
      assert e == c.list[|s'.list| + i];
    }
    ExpiredCountAppend(s'.list, added, t);
  }

  lemma LastSwept(s: State, c: State)
    requires Inv(s) && s.link.None? && |s.list| == 1 && Extends(Finish(s, Expired), c)
    ensures Swept(s, c) && Failed(s, c, 1)
  {
    TimeoutsCons(s.list, 1);
    assert s.done + Timeouts(s.list[..1]) == s.done + [Completion(s.list[0].id, Expired)];
  }

  lemma SweptThen(s: State, c: State, r: State, n: nat)
    requires Inv(s) && s.link.None? && |s.list| > 1 && Extends(Finish(s, Expired), c)
    requires n < |s.list| && Swept(c, r) && Failed(c, r, n)
    ensures Swept(s, r) && Failed(s, r, n + 1)
  {
    TimeoutsCons(s.list, n + 1);
    assert c.list[..n] == s.list[1..][..n];
    assert c.list[n..][..|s.list| - n - 1] == s.list[n + 1..];
  }

  lemma TimeoutsCons(list: seq<Entry>, n: nat)
    requires 1 <= n <= |list|
    ensures Timeouts(list[..n]) == [Completion(list[0].id, Expired)] + Timeouts(list[1..][..n - 1])
  {
  }

  /** The loop of __retry_timeout at time t: it fails exactly the expired entries, in submission
      order, keeps every other entry, and leaves no expired one, whatever the callbacks submit. */
  lemma SweepIsExact(s: State, t: int)
    requires Inv(s) && s.link.None? && t <= s.clock
    ensures var r := Sweep(s, t);
      && (exists n | 0 <= n <= |s.list| ::
            && (forall i | 0 <= i < |s.list| :: IsExpired(s.list[i], t) <==> i < n)
            && r.done == s.done + Timeouts(s.list[..n])
            && s.list[n..] <= r.list)
      && (forall e | e in r.list :: !IsExpired(e, t))
  {
    hide InvWith, Sweep, IsExpired, ExpiredCount;
    var r, n := Sweep(s, t), ExpiredCount(s.list, t);
    SweepExpires(s, t);
    ListIsStamped(s);
    ExpiredAtFront(s.list, t);
    forall e | e in r.list ensures !IsExpired(e, t) {
      var i :| 0 <= i < |r.list| && r.list[i] == e;
      if i < |s.list| - n {
        assert e == s.list[n..][i] == s.list[n + i];
      } else {
        LateIsNotExpired(e, s.clock, t);
      }
    }
  }

  lemma ListIsStamped(s: State)
    requires Inv(s)
    ensures Stamped(s.list, s.clock)
  {
  }

  lemma LateIsNotExpired(e: Entry, clock: int, t: int)
    requires e.stamp >= clock >= t
    ensures !IsExpired(e, t)
  {
  }

  // ---------------------------------------------------------------------------------------------
  // Frames

  lemma PopFrameKeeps(s: State, events: seq<Frame>)
    requires Inv(s) && s.link.Some? && s.link.value.back != []
    requires s.dispatcher.IsEvent(s.link.value.back[0].cmd) || s.list == []
    ensures Extends(s, PopFrame(s).(events := events))
  {
  }

  /** A frame that is no event completes the front entry; it is the front's own reply unless it is
      a push. */
  lemma CompletedFrontKeeps(s: State, f: Frame)
    requires Inv(s) && Settled(s) && s.link.Some? && s.link.value.back != [] && f == s.link.value.back[0]
    requires !s.dispatcher.IsEvent(f.cmd) && s.list != []
    ensures Extends(s, Finish(PopFrame(s).(querying := false, stray := s.stray || f.Push?), ByFrame(f)))
  {
    var r := Finish(PopFrame(s).(querying := false, stray := s.stray || f.Push?), ByFrame(f));
    assert forall i | 0 <= i < |s.done| :: r.done[i] == s.done[i];
    assert r.done[|s.done|] == Completion(|s.done|, ByFrame(f));
    if s.stray {
      var i :| 0 <= i < |s.done| && !IsMatched(s.done[i]);
      assert !IsMatched(r.done[i]);
    } else if f.Reply? {
      NoRequests(r.link.value.out);
      NoRequests(r.link.value.server);
      NoReplies(r.link.value.back);
    }
  }

  lemma OnFrameExtends(s: State)
    requires Inv(s) && Settled(s) && s.link.Some? && s.link.value.back != []
    ensures Extends(s, OnFrame(PopFrame(s), s.link.value.back[0]))
    ensures Settled(OnFrame(PopFrame(s), s.link.value.back[0]))
  {
    hide InvWith, Callback, SendFront, Finish, Appends, Paths;
    var f, s1 := s.link.value.back[0], PopFrame(s);
    var s2 := s1;
    if s.dispatcher.IsEvent(f.cmd) {
      var s3 := s1.(events := s1.events + [f]);
      PopFrameKeeps(s, s3.events);
      CallbackExtends(s3);
      ExtendsTransitive(s, s3, Callback(s3));
      s2 := Callback(s3);
    } else if s.list == [] {
      PopFrameKeeps(s, s1.events);
    } else if s.list != [] {
      assert !s.aborted by { NotAborted(s); }
      CompletedFrontKeeps(s, f);
      var s3 := Finish(s1.(querying := false, stray := s.stray || f.Push?), ByFrame(f));
      CallbackExtends(s3);
      ExtendsTransitive(s, s3, Callback(s3));
      assert s1.(querying := false, aborted := s1.aborted || !s1.querying, stray := s1.stray || f.Push?)
          == s1.(querying := false, stray := s.stray || f.Push?);
      s2 := Callback(s3);
    }
    SendFrontExtends(s2);
    ExtendsTransitive(s, s2, SendFront(s2));
  }

  lemma NotAborted(s: State)
    requires Inv(s)
    ensures !s.aborted
  {
  }

  lemma {:induction false} RecvExtends(s: State, n: nat)
    requires Inv(s) && Settled(s)
    ensures Extends(s, Recv(s, n)) && Settled(Recv(s, n))
    decreases n
  {
    hide InvWith, Extends, OnFrame;
    if n == 0 || s.link.None? || s.link.value.back == [] {
      ExtendsReflexive(s);
    } else {
      OnFrameExtends(s);
      var s' := OnFrame(PopFrame(s), s.link.value.back[0]);
      ExtendsKeeps(s, s');
      RecvExtends(s', n - 1);
      ExtendsTransitive(s, s', Recv(s', n - 1));
    }
  }

  lemma ExtendsReflexive(s: State)
    requires Inv(s)
    ensures Extends(s, s)
  {
  }

  lemma ExtendsKeeps(s: State, t: State)
    requires Extends(s, t)
    ensures Inv(t)
  {
  }

  // ---------------------------------------------------------------------------------------------
  // The remaining steps

  lemma {:induction false} FlushExtends(s: State)
    requires Inv(s) && Settled(s)
    ensures Extends(s, Flush(s)) && Settled(Flush(s))
    decreases |s.script|, if s.link.Some? then |s.link.value.out| else 0
  {
    hide InvWith, Extends, OnClose;
    if s.link.None? || s.link.value.out == [] {
      ExtendsReflexive(s);
    } else {
      DropKeeps(s, InFlightCount(s));
      match Pick(s).outcome
      case Took =>
        var l := s.link.value;
        var s' := Drop(s).(link := Some(l.(out := l.out[1..], server := l.server + [l.out[0]])));
        TakenKeeps(s, s');
        FlushExtends(s');
        ExtendsTransitive(s, s', Flush(s'));
      case Again =>
        DropExtends(s);
      case Fail =>
        OnCloseExtends(Drop(s), InFlightCount(s));
        OnCloseIsExtension(s);
    }
  }

  lemma DropExtends(s: State)
    requires Inv(s)
    ensures Extends(s, Drop(s))
  {
  }

  lemma TakenKeeps(s: State, s': State)
    requires Inv(s) && s.link.Some? && s.link.value.out != []
    requires var l := s.link.value;
      s' == Drop(s).(link := Some(l.(out := l.out[1..], server := l.server + [l.out[0]])))
    ensures Inv(s') && Extends(s, s')
  {
    var l := s.link.value;
    RequestsAppend(l.server, [l.out[0]]);
    assert l.out == [l.out[0]] + l.out[1..];
  }

  lemma ConnectKeeps(s: State)
    requires Resting(s) && s.connects > 0
    ensures Resting(Connect(s.(connects := s.connects - 1)))
    ensures Continues(s, Connect(s.(connects := s.connects - 1)))
  {
    hide SendFront;
    var s' := s.(connects := s.connects - 1, link := Some(Link([], [], [], 0)), querying := false);
    assert Inv(s');
    SendFrontExtends(s');
  }

  /** The history of s is the beginning of that of t. */
  ghost predicate Continues(s: State, t: State) {
    && s.done <= t.done && s.sent <= t.sent && s.next <= t.next && s.clock <= t.clock
    && t.dispatcher == s.dispatcher && t.polluted == s.polluted
  }

  lemma ExtendsRests(s: State, t: State)
    requires Resting(s) && Extends(s, t) && Settled(t)
    ensures Resting(t) && Continues(s, t)
  {
  }

  lemma TransmitsRests(s: State, t: State)
    requires Resting(s) && Transmits(s, t) && Settled(t)
    ensures Resting(t) && Continues(s, t)
  {
  }

  lemma RecoversRests(s: State, s': State, t: State)
    requires s' == s.(timer := s'.timer, armed := s'.armed, connects := s'.connects, script := s'.script)
    requires Recovers(s', t)
    ensures Resting(t) && Continues(s, t)
  {
  }

  lemma CloseRests(s: State, s': State)
    requires Resting(s)
    requires (s' == s && s.link.Some?) || (s.connects > 0 && s' == s.(connects := s.connects - 1))
    ensures Resting(OnClose(s')) && Continues(s, OnClose(s'))
  {
    hide OnClose;
    OnCloseExtends(s', InFlightCount(s'));
    RecoversRests(s, s', OnClose(s'));
  }

  lemma TimerRests(s: State)
    requires Resting(s) && s.armed > 0
    ensures Resting(Next(s, TimerFires)) && Continues(s, Next(s, TimerFires))
  {
    hide Init;
    InitRests(s, s.(timer := false, armed := s.armed - 1));
  }

  lemma InitRests(s: State, s': State)
    requires Inv(s') && s'.link.None? && !s'.querying && Paths(s') == 0
    requires s' == s.(timer := false, armed := s'.armed)
    ensures Resting(Init(s')) && Continues(s, Init(s'))
  {
    hide OnClose;
    DropKeeps(s', 0);
    if s'.script != [] && Pick(s').outcome == Fail {
      OnCloseExtends(Drop(s'), 0);
      RecoversRests(s, Drop(s'), OnClose(Drop(s')));
    }
  }

  lemma AnswerRests(s: State, i: nat, cmd: int)
    requires Resting(s) && Enabled(s, ServerAnswers(i, cmd))
    ensures Resting(Next(s, ServerAnswers(i, cmd))) && Continues(s, Next(s, ServerAnswers(i, cmd)))
  {
    var l := s.link.value;
    RequestsAppend(l.server[..i], l.server[i..]);
    RequestsAppend(l.server[..i], l.server[i + 1..]);
    assert l.server == l.server[..i] + l.server[i..];
    assert l.server[i..][1..] == l.server[i + 1..];
    RepliesAppend(l.back, [Reply(l.server[i].id, cmd)]);
    assert l.server[i] in l.server;
  }

  lemma PushRests(s: State, cmd: int)
    requires Resting(s) && s.link.Some?
    ensures var r := Next(s, ServerPushes(cmd));
      && Resting(r)
      && Continues(s.(polluted := r.polluted), r)
      && (s.dispatcher.IsEvent(cmd) ==> r.polluted == s.polluted)
  {
    RepliesAppend(s.link.value.back, [Push(cmd)]);
  }

  lemma CallRests(s: State, e: Step)
    requires Resting(s) && Enabled(s, e) && (e.UserQuery? || e.Readable? || e.Writable? || e.SendBeat?)
    ensures Resting(Next(s, e)) && Continues(s, Next(s, e))
  {
    hide Query, Recv, Flush, Transmit, Extends, Transmits;
    match e
    case UserQuery => QueryExtends(s); ExtendsRests(s, Query(s));
    case Readable(n) => RecvExtends(s, n); ExtendsRests(s, Recv(s, n));
    case Writable => FlushExtends(s); ExtendsRests(s, Flush(s));
    case SendBeat => TransmitExtends(s, Beat); TransmitsRests(s, Transmit(s, Beat));
  }

  lemma NextRests(s: State, e: Step)
    requires Resting(s) && Enabled(s, e)
    ensures Resting(Next(s, e))
    ensures Continues(s.(polluted := Next(s, e).polluted), Next(s, e))
    ensures (e.ServerPushes? ==> s.dispatcher.IsEvent(e.cmd)) ==> Next(s, e).polluted == s.polluted
  {
    hide Query, Recv, Flush, OnClose, Init, Transmit, Connect, Answer;
    match e
    case UserQuery => CallRests(s, e);
    case Readable(_) => CallRests(s, e);
    case Writable => CallRests(s, e);
    case SendBeat => CallRests(s, e);
    case ConnectOk => ConnectKeeps(s);
    case ConnectFailed => CloseRests(s, s.(connects := s.connects - 1));
    case HangUp => CloseRests(s, s);
    case TimerFires => TimerRests(s);
    case Tick(_) =>
    case ServerAnswers(i, cmd) => AnswerRests(s, i, cmd);
    case ServerPushes(cmd) => PushRests(s, cmd);
  }
}

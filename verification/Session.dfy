/**
  The session as the program writes it: an object whose locked regions update its fields and those
  of the event threads.  Each method is proved to compute the function of the same name in
  SessionSpec, about which SessionProofs proves the promises.
*/
module Session {
  import opened Common
  import opened AsyncNet
  import opened SessionSpec

  class Session {
    const net: AsyncNets
    var client: Option<nat>
    var list: seq<Text>
    var notified: bool
    // history
    var accepted: seq<Text>
    var handed: seq<Text>
    var direct: Option<Outcome>

    function Value(): State
      reads this, net
    {
      State(client, list, notified, net.Value(), accepted, handed, direct)
    }

    constructor (net: AsyncNets)
      requires net.Value() == Nets(map[], multiset{})
      ensures this.net == net && Value() == START
    {
      this.net := net;
      client, list, notified, accepted, handed, direct := None, [], false, [], [], None;
    }

    method CheckValid() returns (valid: bool)
      modifies this`client
      ensures Value() == SessionSpec.CheckValid(old(Value())) && (valid <==> client.Some?)
    {
      valid := false;
      if client.Some? {
        if net.Value().IsOpen(client.value) {
          valid := true;
        } else {
          client := None;
        }
      }
    }

    method NotifySend()
      modifies this`client, this`notified, net`tasks
      ensures Value() == SessionSpec.NotifySend(old(Value()))
    {
      var valid := CheckValid();
      if valid && !notified {
        notified := true;
        net.Notify(net.peers[client.value].thread);
      }
    }

    /** m_client->send on the owner's thread. */
    method OwnerSend(m: Text, o: Outcome)
      requires ClientOpen(Value())
      modifies this`handed, net`peers
      ensures Value() == SessionSpec.OwnerSend(old(Value()), m, o)
    {
      net.Send(client.value, m, o);
      handed := handed + [m];
    }

    /** session::__send */
    method SendAll(me: nat, outcomes: seq<Outcome>)
      modifies this`client, this`list, this`notified, this`handed, net
      ensures Value() == SessionSpec.SendAll(old(Value()), me, outcomes)
    {
      var os := outcomes;
      while list != []
        invariant SessionSpec.SendAll(old(Value()), me, outcomes) == SessionSpec.SendAll(Value(), me, os)
        decreases |list|
      {
        var valid := CheckValid();
        if !valid {
          return;
        }
        if me == net.peers[client.value].thread {
          OwnerSend(list[0], Head(os));
        } else {
          NotifySend();
          return;
        }
        list := list[1..];
        os := Rest(os);
      }
    }

    method SetClient(id: nat, me: nat, outcomes: seq<Outcome>)
      modifies this`client, this`list, this`notified, this`handed, net
      ensures Value() == SessionSpec.SetClient(old(Value()), id, me, outcomes)
    {
      client := Some(id);
      SendAll(me, outcomes);
    }

    /** session::send */
    method SendText(me: nat, m: Text, o: Outcome, d: Outcome)
      modifies this, net
      ensures Value() == SessionSpec.SendText(old(Value()), me, m, o, d)
    {
      accepted := accepted + [m];
      var valid := CheckValid();
      if valid {
        if list != [] {
          list := list + [m];
          return;
        }
        if me == net.peers[client.value].thread {
          OwnerSend(m, o);
        } else {
          direct := Some(d);
          if d != Took {
            list := list + [m];
            if d == Again {
              NotifySend();
            }
          } else {
            handed := handed + [m];
          }
        }
      } else {
        list := list + [m];
      }
    }

    /** The task __notifysend queues, run by __onevent on its thread. */
    method RunTask(thread: nat, outcomes: seq<Outcome>)
      modifies this`client, this`list, this`notified, this`handed, net
      ensures Value() == SessionSpec.RunTask(old(Value()), thread, outcomes)
    {
      net.TakeTask(thread);
      notified := false;
      SendAll(thread, outcomes);
    }

    /** One step of a run. */
    method Perform(e: Step)
      requires Enabled(Value(), e)
      modifies this, net
      ensures Value() == Next(old(Value()), e)
    {
      match e {
        case Accept(id, thread) => net.Accept(id, thread);
        case Bind(id, me, os) => SetClient(id, me, os);
        case Submit(me, m, o, d) => SendText(me, m, o, d);
        case Wake(thread, os) => RunTask(thread, os);
        case Writable(id, os) => net.Flush(id, os);
        case HangUp(id) => net.ClientClose(id);
      }
    }

    method PerformAll(steps: seq<Step>)
      modifies this, net
      ensures Value() == Run(old(Value()), steps)
    {
      for i := 0 to |steps|
        invariant Run(old(Value()), steps) == Run(Value(), steps[i..])
      {
        if Enabled(Value(), steps[i]) {
          Perform(steps[i]);
        }
        assert steps[i..][1..] == steps[i + 1..];
      }
    }
  }
}

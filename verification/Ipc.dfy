/** The endpoint and the IPC state as the kernel runs them, updated in place. */
module IpcObject {
  import opened Caps
  import opened CSpaceSpec
  import opened CSpaceObject
  import opened IpcSpec
  import opened Options

  class EndpointState {
    var senders: seq<Request>
    var receivers: seq<Party>

    constructor ()
      ensures View() == Rendezvous([], []) && View().Valid()
    {
      senders, receivers := [], [];
    }

    function View(): (e: Endpoint)
      reads this
    {
      Rendezvous(senders, receivers)
    }

    method Send(from: Party, m: Message) returns (to: Option<Party>)
      modifies this
      ensures (to, View()) == old(View()).Send(from, m)
      ensures old(View().Valid()) ==> View().Valid()
    {
      if receivers != [] {
        to := Some(receivers[0]);
        receivers := receivers[1..];
      } else {
        senders := senders + [(from, m)];
        to := None;
      }
    }

    method Recv(to: Party) returns (from: Option<Request>)
      modifies this
      ensures (from, View()) == old(View()).Recv(to)
      ensures old(View().Valid()) ==> View().Valid()
    {
      if senders != [] {
        from := Some(senders[0]);
        senders := senders[1..];
      } else {
        receivers := receivers + [to];
        from := None;
      }
    }

    /** Drops every wait of `p`, so that it is never matched; says whether there was one. */
    method Cancel(p: Party) returns (removed: bool)
      modifies this
      ensures View() == old(View()).Cancel(p)
      ensures p !in receivers && forall q :: q in senders ==> q.0 != p
      ensures removed <==> p in old(receivers) || exists q :: q in old(senders) && q.0 == p
      ensures old(View().Valid()) ==> View().Valid()
    {
      var before := |senders| + |receivers|;
      senders := WithoutSender(senders, p);
      receivers := Without(receivers, p);
      removed := before != |senders| + |receivers|;
    }
  }

  class IpcWorld {
    const endpoint: EndpointState
    const clientCs: CSpace
    const serverCs: CSpace
    var wakers: set<Party>
    var queued: set<Party>
    var delivered: map<Party, Request>
    var responses: map<Party, Message>

    ghost predicate Valid()
      reads this, endpoint, clientCs, clientCs.slots, serverCs, serverCs.slots
    {
      clientCs != serverCs && clientCs.slots != serverCs.slots && clientCs.Valid() && serverCs.Valid()
    }

    ghost function View(): (w: World)
      reads this, endpoint, clientCs, clientCs.slots, serverCs, serverCs.slots
    {
      World(endpoint.View(), clientCs.View(), serverCs.View(), wakers, queued, delivered, responses)
    }

    constructor (e: EndpointState, c: CSpace, s: CSpace)
      requires c != s && c.slots != s.slots && c.Valid() && s.Valid()
      ensures Valid() && endpoint == e && clientCs == c && serverCs == s
      ensures View() == World(e.View(), c.View(), s.View(), {}, {}, map[], map[])
    {
      endpoint, clientCs, serverCs := e, c, s;
      wakers, queued, delivered, responses := {}, {}, map[], map[];
    }

    method WakeParty(p: Party)
      modifies this
      ensures (wakers, queued) == if p in old(wakers) then (old(wakers) - {p}, old(queued) + {p})
        else (old(wakers), old(queued))
      ensures delivered == old(delivered) && responses == old(responses)
    {
      if p in wakers {
        wakers := wakers - {p};
        queued := queued + {p};
      }
    }

    /** Grants the transfers of a stamped message in turn. An error stops the kernel. */
    method GrantAll(msg: Message) returns (r: Result<()>)
      requires Valid()
      modifies clientCs.slots, serverCs.slots
      ensures Valid()
      ensures match GrantFrom(old(clientCs.View()), old(serverCs.View()), msg, 0)
        case Ok((c, s)) => r == Ok(()) && clientCs.View() == c && serverCs.View() == s
        case Err(e) => r == Err(e)
    {
      for i := 0 to |msg.transfers|
        invariant Valid()
        invariant GrantFrom(old(clientCs.View()), old(serverCs.View()), msg, 0) ==
          GrantFrom(clientCs.View(), serverCs.View(), msg, i)
      {
        var x := msg.transfers[i];
        var _ :- GrantTo(clientCs, x.src, serverCs, SERVER_RECV_BASE + i, x.rights, msg.badge, x.mode);
      }
      r := Ok(());
    }

    method OnRequest(sender: Party, m: Message) returns (r: Result<Message>)
      requires Valid()
      modifies clientCs.slots, serverCs.slots
      ensures Valid()
      ensures match IpcSpec.OnRequest(old(View()), sender, m)
        case Ok((msg, w)) => r == Ok(msg) && View() == w
        case Err(e) => r == Err(e)
    {
      var msg := Stamped(m, sender);
      var _ :- serverCs.MintReply(SERVER_REPLY_SLOT, sender, msg.badge);
      var _ :- GrantAll(msg);
      r := Ok(msg);
    }

    method DoReply(resp: Message) returns (sent: bool)
      requires Valid()
      modifies this, serverCs.slots, serverCs`zeroed
      ensures Valid()
      ensures View() == IpcSpec.DoReply(old(View()), resp).1 && (sent <==> IpcSpec.DoReply(old(View()), resp).0.Some?)
    {
      var caller := serverCs.ConsumeReply(SERVER_REPLY_SLOT);
      if caller.Ok? {
        responses := responses[caller.value := resp];
        WakeParty(caller.value);
        sent := true;
      } else {
        sent := false;
      }
    }

    method PollCall(p: Party, f: CallFuture) returns (r: Poll<Message>)
      requires Valid()
      modifies this, endpoint
      ensures Valid() && (r, View()) == IpcSpec.PollCall(old(View()), p, f)
    {
      queued := queued - {p};
      match f {
        case Unsent(m) =>
          var to := endpoint.Send(p, m);
          if to.Some? {
            delivered := delivered[to.value := (p, m)];
            WakeParty(to.value);
          }
          wakers := wakers + {p};
          r := Pending;
        case Sent =>
          if p in responses {
            r := Ready(responses[p]);
            responses := responses - {p};
          } else {
            wakers := wakers + {p};
            r := Pending;
          }
      }
    }

    method PollRecv(tried: bool) returns (r: Result<Poll<Message>>)
      requires Valid()
      modifies this, endpoint, clientCs.slots, serverCs.slots
      ensures Valid()
      ensures match IpcSpec.PollRecv(old(View()), tried)
        case Ok((p, w)) => r == Ok(p) && View() == w
        case Err(e) => r == Err(e)
    {
      queued := queued - {SERVER};
      if SERVER in delivered {
        var (sender, m) := delivered[SERVER];
        delivered := delivered - {SERVER};
        var q :- OnRequest(sender, m);
        return Ok(Ready(q));
      }
      if !tried {
        var from := endpoint.Recv(SERVER);
        if from.Some? {
          var q :- OnRequest(from.value.0, from.value.1);
          return Ok(Ready(q));
        }
      }
      wakers := wakers + {SERVER};
      r := Ok(Pending);
    }
  }
}

/** Any number of clients and one server: every interleaving of polls, calls and replies. */
module IpcProtocol {
  import opened Caps
  import opened CSpaceSpec
  import opened IpcSpec
  import opened Options

  datatype Event =
    | SentTo(party: Party, msg: Message)
    | Received(party: Party, msg: Message)
    | Replied(party: Party, msg: Message)
    | Returned(party: Party, msg: Message)

  /** The shared state, the futures in flight and what has happened so far. */
  datatype System = System(w: World, calls: map<Party, CallFuture>, recv: Option<bool>, log: seq<Event>)

  datatype Step =
    | StartCall(p: Party, m: Message)
    | PollCaller(p: Party)
    | StartRecv
    | PollServer
    | ReplyWith(resp: Message)

  /** A client has one call at a time, and the server one receive. A future may be polled at any
      moment until it is ready, woken or not. */
  predicate Enabled(s: System, step: Step) {
    match step
    case StartCall(p, _) => p != SERVER && p !in s.calls
    case PollCaller(p) => p in s.calls
    case StartRecv => s.recv.None?
    case PollServer => s.recv.Some?
    case ReplyWith(_) => true
  }

  /** An error is the kernel stopping. */
  function Next(s: System, step: Step): (r: Result<System>)
    requires Enabled(s, step)
  {
    match step
    case StartCall(p, m) => Ok(s.(calls := s.calls[p := Unsent(m)]))
    case PollCaller(p) =>
      var f := s.calls[p];
      var (r, w) := PollCall(s.w, p, f);
      if r.Ready? then Ok(System(w, s.calls - {p}, s.recv, s.log + [Returned(p, r.value)]))
      else Ok(System(w, s.calls[p := Sent], s.recv, if f.Unsent? then s.log + [SentTo(p, f.msg)] else s.log))
    case StartRecv => Ok(s.(recv := Some(false)))
    case PollServer =>
      var q :- PollRecv(s.w, s.recv.value);
      if q.0.Ready? then Ok(System(q.1, s.calls, None, s.log + [Received(q.0.value.badge, q.0.value)]))
      else Ok(System(q.1, s.calls, Some(true), s.log))
    case ReplyWith(resp) =>
      var (to, w) := DoReply(s.w, resp);
      Ok(s.(w := w, log := if to.Some? then s.log + [Replied(to.value, resp)] else s.log))
  }

  // ---- what is received ----

  /** The message received is the one sent: selector, data and transfers, with its sender for a badge. */
  predicate Carries(sent: Message, got: Message, from: Party) {
    got.selector == sent.selector && got.data == sent.data && got.transfers == sent.transfers && got.badge == from
  }

  /** A request as its receiver is to see it. */
  function AsReceived(q: Request): (r: Request) {
    (q.0, RawMessage(q.1.selector, q.1.data, q.1.transfers, q.0))
  }

  // ---- one client's calls, as the log tells them ----

  datatype Phase = Idle | Waiting(msg: Message) | Serving(msg: Message) | Answered(resp: Message) | Broken

  /** One call after another: sent, received with the caller's badge, replied to, returned with the
      reply. Anything else is broken. */
  function Advance(ph: Phase, e: Event): (r: Phase) {
    match e
    case SentTo(p, m) => if ph.Idle? then Waiting(m) else Broken
    case Received(p, m) => if ph.Waiting? && Carries(ph.msg, m, p) then Serving(ph.msg) else Broken
    case Replied(p, m) => if ph.Serving? then Answered(m) else Broken
    case Returned(p, m) => if ph == Answered(m) then Idle else Broken
  }

  function PhaseOf(log: seq<Event>, p: Party): (ph: Phase) {
    if log == [] then Idle
    else
      var ph := PhaseOf(log[..|log| - 1], p);
      if log[|log| - 1].party == p then Advance(ph, log[|log| - 1]) else ph
  }

  lemma PhaseAfter(log: seq<Event>, e: Event, p: Party)
    ensures PhaseOf(log + [e], p) == if e.party == p then Advance(PhaseOf(log, p), e) else PhaseOf(log, p)
  {
    assert (log + [e])[..|log|] == log;
  }

  // ---- requests in order ----

  /** The requests sent, in order. */
  function SentLog(log: seq<Event>): (r: seq<Request>) {
    if log == [] then []
    else
      var e := log[|log| - 1];
      SentLog(log[..|log| - 1]) + if e.SentTo? then [AsReceived((e.party, e.msg))] else []
  }

  /** The requests the server has received, in order. */
  function ReceivedLog(log: seq<Event>): (r: seq<Request>) {
    if log == [] then []
    else
      var e := log[|log| - 1];
      ReceivedLog(log[..|log| - 1]) + if e.Received? then [(e.party, e.msg)] else []
  }

  function StampAll(q: seq<Request>): (r: seq<Request>)
    ensures |r| == |q|
  {
    seq(|q|, i requires 0 <= i < |q| => AsReceived(q[i]))
  }

  /** Requests handed to the receiver or queued on the endpoint. */
  function InFlight(w: World): (r: seq<Request>) {
    (if SERVER in w.delivered then [w.delivered[SERVER]] else []) + w.endpoint.senders
  }

  lemma LogsAfter(log: seq<Event>, e: Event)
    ensures SentLog(log + [e]) == SentLog(log) + if e.SentTo? then [AsReceived((e.party, e.msg))] else []
    ensures ReceivedLog(log + [e]) == ReceivedLog(log) + if e.Received? then [(e.party, e.msg)] else []
  {
    assert (log + [e])[..|log|] == log;
  }

  // ---- the invariant ----

  predicate NotIn(q: seq<Request>, p: Party) {
    forall i :: 0 <= i < |q| ==> q[i].0 != p
  }

  predicate OncePerParty(q: seq<Request>) {
    forall i, j :: 0 <= i < j < |q| ==> q[i].0 != q[j].0
  }

  /** The caller the Reply in the server's reply slot names. */
  function ReplyTo(cs: CS): (r: Option<Party>) {
    if Live(cs.slots, SERVER_REPLY_SLOT) then Some(cs.slots[SERVER_REPLY_SLOT].cap.objref) else None
  }

  predicate ReplySlotOk(cs: CS) {
    && SERVER_REPLY_SLOT < |cs.slots|
    && (Live(cs.slots, SERVER_REPLY_SLOT) ==>
          cs.slots[SERVER_REPLY_SLOT].cap.ty.Reply? && cs.slots[SERVER_REPLY_SLOT].cap.objref != SERVER)
  }

  /** The server waits on the endpoint exactly when its receive has been tried and nothing has been
      delivered, and then its waker is registered; a delivered request has already woken it. */
  predicate ServerOk(s: System) {
    && s.w.endpoint.Valid()
    && s.w.delivered.Keys <= {SERVER}
    && s.w.endpoint.receivers == (if s.recv == Some(true) && SERVER !in s.w.delivered then [SERVER] else [])
    && (s.recv == Some(true) && SERVER !in s.w.delivered ==> SERVER in s.w.wakers)
    && (SERVER in s.w.delivered ==> s.recv == Some(true) && SERVER in s.w.queued && s.w.delivered[SERVER].0 != SERVER)
    && NotIn(s.w.endpoint.senders, SERVER) && OncePerParty(InFlight(s.w))
    && ReplySlotOk(s.w.serverCs)
    && SERVER !in s.calls && SERVER !in s.w.responses
  }

  /** Where client `p`'s call is, by its phase; a blocked client has a registered waker until its
      response has woken it. */
  predicate ClientOk(s: System, p: Party) {
    match PhaseOf(s.log, p)
    case Idle =>
      NotIn(InFlight(s.w), p) && ReplyTo(s.w.serverCs) != Some(p) && p !in s.w.responses
        && (p in s.calls ==> s.calls[p].Unsent?)
    case Waiting(m) =>
      && (p, m) in InFlight(s.w) && ReplyTo(s.w.serverCs) != Some(p) && p !in s.w.responses
      && p in s.calls && s.calls[p].Sent? && p in s.w.wakers
    case Serving(_) =>
      && NotIn(InFlight(s.w), p) && ReplyTo(s.w.serverCs) == Some(p) && p !in s.w.responses
      && p in s.calls && s.calls[p].Sent? && p in s.w.wakers
    case Answered(r) =>
      && NotIn(InFlight(s.w), p) && ReplyTo(s.w.serverCs) != Some(p) && p in s.w.responses && s.w.responses[p] == r
      && p in s.calls && s.calls[p].Sent? && p in s.w.queued
    case Broken => false
  }

  /** Requests leave in the order they came. */
  predicate FifoOk(s: System) {
    SentLog(s.log) == ReceivedLog(s.log) + StampAll(InFlight(s.w))
  }

  ghost predicate Good(s: System) {
    ServerOk(s) && FifoOk(s) && forall p: Party :: p != SERVER ==> ClientOk(s, p)
  }

  // ---- the server's slot ----

  lemma {:induction false} GrantsKeepReply(client: CS, server: CS, m: Message, i: nat)
    requires i <= |m.transfers| && GrantFrom(client, server, m, i).Ok? && SERVER_REPLY_SLOT < |server.slots|
    ensures var s := GrantFrom(client, server, m, i).value.1;
      |s.slots| == |server.slots| && s.slots[SERVER_REPLY_SLOT] == server.slots[SERVER_REPLY_SLOT]
    decreases |m.transfers| - i
  {
    if i < |m.transfers| {
      var x := m.transfers[i];
      var g := Grant(client, x.src, server, SERVER_RECV_BASE + i, x.rights, m.badge, x.mode).value;
      GrantsKeepReply(g.0, g.1, m, i + 1);
    }
  }

  /** A received request finds the reply slot empty and leaves there a Reply that names its sender. */
  lemma RequestMintsReply(w: World, sender: Party, m: Message)
    requires ReplySlotOk(w.serverCs) && sender != SERVER && OnRequest(w, sender, m).Ok?
    ensures var r := OnRequest(w, sender, m).value;
      && r.0.selector == m.selector && r.0.data == m.data && r.0.transfers == m.transfers && r.0.badge == sender
      && ReplyTo(w.serverCs).None? && ReplyTo(r.1.serverCs) == Some(sender)
      && ReplySlotOk(r.1.serverCs)
      && r.1 == w.(clientCs := r.1.clientCs, serverCs := r.1.serverCs)
  {
    var msg := Stamped(m, sender);
    var s := MintReply(w.serverCs, SERVER_REPLY_SLOT, sender, msg.badge).value;
    GrantsKeepReply(w.clientCs, s, msg, 0);
    hide GrantFrom;
  }

  /** A reply is sent exactly when the slot holds a Reply, to the caller it names, and empties it. */
  lemma ReplyConsumes(w: World, resp: Message)
    requires ReplySlotOk(w.serverCs)
    ensures var (to, r) := DoReply(w, resp);
      && to == ReplyTo(w.serverCs) && ReplyTo(r.serverCs).None? && ReplySlotOk(r.serverCs)
      && (to.None? ==> r == w)
      && (to.Some? ==> r == Wake(w.(serverCs := r.serverCs, responses := w.responses[to.value := resp]), to.value))
  {
  }

  // ---- every step keeps the invariant ----

  lemma AppendFresh(q: seq<Request>, p: Party, m: Message)
    requires NotIn(q, p) && OncePerParty(q)
    ensures OncePerParty(q + [(p, m)]) && (p, m) in q + [(p, m)]
    ensures forall x :: x != p ==> (NotIn(q, x) <==> NotIn(q + [(p, m)], x))
    ensures StampAll(q + [(p, m)]) == StampAll(q) + [AsReceived((p, m))]
  {
    var r := q + [(p, m)];
    assert r[|q|] == (p, m);
    forall x | x != p && NotIn(r, x)
      ensures NotIn(q, x)
    {
      forall i | 0 <= i < |q| ensures q[i].0 != x { assert r[i] == q[i]; }
    }
  }

  lemma DropFirst(q: seq<Request>)
    requires q != [] && OncePerParty(q)
    ensures OncePerParty(q[1..]) && NotIn(q[1..], q[0].0)
    ensures forall x :: x != q[0].0 ==> (NotIn(q, x) <==> NotIn(q[1..], x))
    ensures forall r :: r in q && r.0 != q[0].0 ==> r in q[1..]
    ensures forall m :: (q[0].0, m) in q ==> m == q[0].1
    ensures StampAll(q) == [AsReceived(q[0])] + StampAll(q[1..])
  {
    var t := q[1..];
    forall x | x != q[0].0 && NotIn(t, x)
      ensures NotIn(q, x)
    {
      forall i | 0 <= i < |q| ensures q[i].0 != x { assert i > 0 ==> t[i - 1] == q[i]; }
    }
  }

  /** The first poll of a call adds its request to those in flight; nothing else of the queue moves. */
  lemma FirstPoll(s: System, p: Party)
    requires ServerOk(s) && p in s.calls && s.calls[p].Unsent? && NotIn(InFlight(s.w), p)
    ensures var (r, w) := PollCall(s.w, p, s.calls[p]);
      && r.Pending? && InFlight(w) == InFlight(s.w) + [(p, s.calls[p].msg)]
      && w.serverCs == s.w.serverCs && w.responses == s.w.responses && p in w.wakers
      && (forall x :: x != SERVER ==>
            (x in s.w.wakers ==> x in w.wakers) && (x != p && x in s.w.queued ==> x in w.queued))
      && w.endpoint.Valid() && w.delivered.Keys <= {SERVER} && NotIn(w.endpoint.senders, SERVER)
      && w.endpoint.receivers == (if s.recv == Some(true) && SERVER !in w.delivered then [SERVER] else [])
      && (s.recv == Some(true) && SERVER !in w.delivered ==> SERVER in w.wakers)
      && (SERVER in w.delivered ==> s.recv == Some(true) && SERVER in w.queued && w.delivered[SERVER].0 != SERVER)
  {
    hide OncePerParty;
  }

  lemma FirstPollCaller(s: System, p: Party)
    requires ServerOk(s) && p in s.calls && s.calls[p].Unsent? && ClientOk(s, p)
    ensures ClientOk(Next(s, PollCaller(p)).value, p)
  {
    hide InFlight;
    hide PollCall;
    hide NotIn;
    hide OncePerParty;
    hide ReplySlotOk;
    hide ReplyTo;
    hide StampAll;
    hide PhaseOf;
    FirstPoll(s, p);
    PhaseAfter(s.log, SentTo(p, s.calls[p].msg), p);
  }

  lemma FirstPollOther(s: System, p: Party, x: Party)
    requires ServerOk(s) && p in s.calls && s.calls[p].Unsent? && NotIn(InFlight(s.w), p)
    requires ClientOk(s, x) && x != SERVER && x != p
    ensures ClientOk(Next(s, PollCaller(p)).value, x)
  {
    hide InFlight;
    hide PollCall;
    hide NotIn;
    hide OncePerParty;
    hide ReplySlotOk;
    hide ReplyTo;
    hide StampAll;
    hide PhaseOf;
    FirstPoll(s, p);
    AppendFresh(InFlight(s.w), p, s.calls[p].msg);
    PhaseAfter(s.log, SentTo(p, s.calls[p].msg), x);
    assert NotIn(InFlight(s.w), x) ==> NotIn(InFlight(s.w) + [(p, s.calls[p].msg)], x);
  }

  lemma FirstPollServer(s: System, p: Party)
    requires ServerOk(s) && p in s.calls && s.calls[p].Unsent? && NotIn(InFlight(s.w), p)
    ensures ServerOk(Next(s, PollCaller(p)).value)
  {
    FirstPoll(s, p);
    AppendFresh(InFlight(s.w), p, s.calls[p].msg) by { hide InFlight; }
    hide InFlight;
    hide PollCall;
    hide NotIn;
    hide OncePerParty;
    hide StampAll;
  }

  lemma AppendGroup(a: seq<Request>, b: seq<Request>, x: Request)
    ensures (a + b) + [x] == a + (b + [x])
  {
  }

  lemma FirstPollFifo(s: System, p: Party)
    requires ServerOk(s) && FifoOk(s) && p in s.calls && s.calls[p].Unsent? && NotIn(InFlight(s.w), p)
    ensures FifoOk(Next(s, PollCaller(p)).value)
  {
    hide InFlight;
    hide PollCall;
    hide NotIn;
    hide OncePerParty;
    hide ReplySlotOk;
    hide StampAll;
    hide SentLog;
    hide ReceivedLog;
    var m := s.calls[p].msg;
    FirstPoll(s, p);
    AppendFresh(InFlight(s.w), p, m);
    LogsAfter(s.log, SentTo(p, m));
    AppendGroup(ReceivedLog(s.log), StampAll(InFlight(s.w)), AsReceived((p, m)));
  }

  lemma FirstPollKeeps(s: System, p: Party)
    requires Good(s) && p in s.calls && s.calls[p].Unsent?
    ensures Good(Next(s, PollCaller(p)).value)
  {
    assert ClientOk(s, p);
    FirstPollServer(s, p);
    FirstPollFifo(s, p);
    hide Next;
    hide ServerOk;
    hide FifoOk;
    forall x: Party | x != SERVER
      ensures ClientOk(Next(s, PollCaller(p)).value, x)
    {
      if x == p { FirstPollCaller(s, p); } else { FirstPollOther(s, p, x); }
    }
    hide ClientOk;
  }

  lemma LaterPollClient(s: System, p: Party, x: Party)
    requires ServerOk(s) && p in s.calls && s.calls[p].Sent? && ClientOk(s, p) && ClientOk(s, x)
    ensures ClientOk(Next(s, PollCaller(p)).value, x)
  {
    assert InFlight(Next(s, PollCaller(p)).value.w) == InFlight(s.w);
    hide InFlight;
    hide NotIn;
    hide ServerOk;
    hide ReplyTo;
    if p in s.w.responses { PhaseAfter(s.log, Returned(p, s.w.responses[p]), x); }
    hide PhaseOf;
  }

  lemma LaterPollKeeps(s: System, p: Party)
    requires Good(s) && p in s.calls && s.calls[p].Sent?
    ensures Good(Next(s, PollCaller(p)).value)
  {
    var t := Next(s, PollCaller(p)).value;
    assert ClientOk(s, p);
    assert InFlight(t.w) == InFlight(s.w);
    hide InFlight;
    if p in s.w.responses {
      LogsAfter(s.log, Returned(p, s.w.responses[p]));
    }
    assert ServerOk(t) && FifoOk(t);
    hide FifoOk;
    forall x: Party | x != SERVER
      ensures ClientOk(t, x)
    {
      LaterPollClient(s, p, x);
    }
    hide ClientOk;
  }

  /** A poll of the server's receive takes the oldest request in flight, or leaves them all. */
  lemma ServerPoll(s: System)
    requires ServerOk(s) && s.recv.Some? && PollRecv(s.w, s.recv.value).Ok?
    ensures var (r, w) := PollRecv(s.w, s.recv.value).value;
      && w.responses == s.w.responses && ReplySlotOk(w.serverCs)
      && (forall x :: x != SERVER ==> (x in s.w.wakers <==> x in w.wakers) && (x in s.w.queued <==> x in w.queued))
      && (r.Ready? ==>
            && InFlight(s.w) != [] && InFlight(s.w)[0].0 != SERVER && InFlight(w) == InFlight(s.w)[1..]
            && Carries(InFlight(s.w)[0].1, r.value, InFlight(s.w)[0].0)
            && ReplyTo(s.w.serverCs).None? && ReplyTo(w.serverCs) == Some(InFlight(s.w)[0].0)
            && w.delivered == map[] && w.endpoint.receivers == [] && NotIn(w.endpoint.senders, SERVER))
      && (r.Pending? ==>
            && InFlight(w) == InFlight(s.w) == [] && w.serverCs == s.w.serverCs
            && w.delivered == map[] && w.endpoint == Rendezvous([], [SERVER]) && SERVER in w.wakers)
  {
    hide OnRequest;
    var w := s.w.(queued := s.w.queued - {SERVER});
    if SERVER in w.delivered {
      RequestMintsReply(w.(delivered := w.delivered - {SERVER}), w.delivered[SERVER].0, w.delivered[SERVER].1);
      assert InFlight(s.w)[1..] == w.endpoint.senders;
    } else if !s.recv.value && w.endpoint.senders != [] {
      var e := w.endpoint.Recv(SERVER).1;
      RequestMintsReply(w.(endpoint := e), w.endpoint.senders[0].0, w.endpoint.senders[0].1);
      assert InFlight(s.w) == w.endpoint.senders;
    }
  }

  lemma ServerPollClient(s: System, x: Party)
    requires ServerOk(s) && ClientOk(s, x) && x != SERVER && s.recv.Some? && Next(s, PollServer).Ok?
    ensures ClientOk(Next(s, PollServer).value, x)
  {
    ServerPoll(s);
    hide PollRecv;
    var (r, w) := PollRecv(s.w, s.recv.value).value;
    var q := InFlight(s.w);
    if r.Ready? {
      DropFirst(q) by { hide InFlight; }
      PhaseAfter(s.log, Received(q[0].0, r.value), x);
      if x == q[0].0 { assert q[0] in q; }
    }
    hide InFlight;
    hide NotIn;
    hide OncePerParty;
    hide ReplySlotOk;
    hide StampAll;
    hide PhaseOf;
  }

  lemma Regroup(a: seq<Request>, x: Request, b: seq<Request>)
    ensures a + ([x] + b) == (a + [x]) + b
  {
  }

  lemma ServerPollFifo(s: System)
    requires ServerOk(s) && FifoOk(s) && s.recv.Some? && Next(s, PollServer).Ok?
    ensures FifoOk(Next(s, PollServer).value)
  {
    ServerPoll(s);
    hide PollRecv;
    hide NotIn;
    hide ReplySlotOk;
    hide StampAll;
    hide SentLog;
    hide ReceivedLog;
    var (r, w) := PollRecv(s.w, s.recv.value).value;
    if r.Ready? {
      var q := InFlight(s.w);
      hide InFlight;
      DropFirst(q);
      LogsAfter(s.log, Received(q[0].0, r.value));
      hide OncePerParty;
      Regroup(ReceivedLog(s.log), AsReceived(q[0]), StampAll(q[1..]));
    }
  }

  lemma ServerPollServer(s: System)
    requires ServerOk(s) && s.recv.Some? && Next(s, PollServer).Ok?
    ensures ServerOk(Next(s, PollServer).value)
  {
    ServerPoll(s);
    hide PollRecv;
    var (r, w) := PollRecv(s.w, s.recv.value).value;
    var q := InFlight(s.w);
    if r.Ready? {
      DropFirst(q) by { hide InFlight; }
    }
    hide InFlight;
    hide NotIn;
    hide OncePerParty;
    hide ReplySlotOk;
  }

  lemma ServerPollKeeps(s: System)
    requires Good(s) && s.recv.Some? && Next(s, PollServer).Ok?
    ensures Good(Next(s, PollServer).value)
  {
    ServerPollServer(s);
    ServerPollFifo(s);
    hide Next;
    hide ServerOk;
    hide FifoOk;
    forall x: Party | x != SERVER
      ensures ClientOk(Next(s, PollServer).value, x)
    {
      ServerPollClient(s, x);
    }
    hide ClientOk;
  }

  lemma ReplyEffect(w: World, resp: Message)
    requires ReplySlotOk(w.serverCs) && ReplyTo(w.serverCs).Some?
    ensures var (to, r) := DoReply(w, resp);
      && to == ReplyTo(w.serverCs) && ReplyTo(r.serverCs).None? && ReplySlotOk(r.serverCs)
      && r.endpoint == w.endpoint && r.delivered == w.delivered && InFlight(r) == InFlight(w)
      && r.responses == w.responses[to.value := resp] && r.wakers == w.wakers - {to.value}
      && w.queued <= r.queued && (to.value in w.wakers ==> to.value in r.queued)
  {
    ReplyConsumes(w, resp);
    hide DoReply;
    hide ReplySlotOk;
    hide ReplyTo;
  }

  lemma ReplyClient(s: System, resp: Message, x: Party)
    requires ServerOk(s) && ClientOk(s, x) && x != SERVER && ReplyTo(s.w.serverCs).Some?
    ensures ClientOk(Next(s, ReplyWith(resp)).value, x)
  {
    hide DoReply;
    hide InFlight;
    hide NotIn;
    hide OncePerParty;
    hide ReplySlotOk;
    hide PhaseOf;
    hide ReplyTo;
    ReplyEffect(s.w, resp);
    PhaseAfter(s.log, Replied(ReplyTo(s.w.serverCs).value, resp), x);
  }

  lemma ReplyServer(s: System, resp: Message)
    requires ServerOk(s) && ReplyTo(s.w.serverCs).Some?
    ensures ServerOk(Next(s, ReplyWith(resp)).value)
  {
    ReplyEffect(s.w, resp);
    assert ReplyTo(s.w.serverCs).value != SERVER;
    hide DoReply;
    hide InFlight;
    hide NotIn;
    hide OncePerParty;
    hide ReplySlotOk;
    hide ReplyTo;
  }

  lemma ReplyFifo(s: System, resp: Message)
    requires ServerOk(s) && FifoOk(s) && ReplyTo(s.w.serverCs).Some?
    ensures FifoOk(Next(s, ReplyWith(resp)).value)
  {
    ReplyEffect(s.w, resp);
    hide DoReply;
    hide InFlight;
    hide ServerOk;
    hide ReplySlotOk;
    hide ReplyTo;
    hide StampAll;
    LogsAfter(s.log, Replied(ReplyTo(s.w.serverCs).value, resp));
  }

  lemma ReplyKeeps(s: System, resp: Message)
    requires Good(s)
    ensures Good(Next(s, ReplyWith(resp)).value)
  {
    if ReplyTo(s.w.serverCs).Some? {
      ReplyServer(s, resp);
      ReplyFifo(s, resp);
      hide Next;
      hide ServerOk;
      hide FifoOk;
      forall x: Party | x != SERVER
        ensures ClientOk(Next(s, ReplyWith(resp)).value, x)
      {
        ReplyClient(s, resp, x);
      }
      hide ClientOk;
    } else {
      ReplyConsumes(s.w, resp);
      hide DoReply;
    }
  }

  lemma StartKeeps(s: System, step: Step)
    requires Good(s) && Enabled(s, step) && (step.StartCall? || step.StartRecv?)
    ensures Good(Next(s, step).value)
  {
    var t := Next(s, step).value;
    assert InFlight(t.w) == InFlight(s.w);
    hide InFlight;
    forall x: Party | x != SERVER
      ensures ClientOk(t, x)
    {
      assert ClientOk(s, x);
    }
  }

  lemma StepKeeps(s: System, step: Step)
    requires Good(s) && Enabled(s, step) && Next(s, step).Ok?
    ensures Good(Next(s, step).value)
  {
    hide Good;
    hide Next;
    match step {
      case StartCall(p, m) => StartKeeps(s, step);
      case PollCaller(p) => if s.calls[p].Unsent? { FirstPollKeeps(s, p); } else { LaterPollKeeps(s, p); }
      case StartRecv => StartKeeps(s, step);
      case PollServer => ServerPollKeeps(s);
      case ReplyWith(resp) => ReplyKeeps(s, resp);
    }
  }

  // ---- runs ----

  ghost predicate Runs(s: System, steps: seq<Step>)
    decreases |steps|
  {
    steps == [] || (Enabled(s, steps[0]) && Next(s, steps[0]).Ok? && Runs(Next(s, steps[0]).value, steps[1..]))
  }

  ghost function Run(s: System, steps: seq<Step>): (r: System)
    requires Runs(s, steps)
    decreases |steps|
  {
    if steps == [] then s else Run(Next(s, steps[0]).value, steps[1..])
  }

  /** No call and no receive yet; the server's reply slot is empty. */
  predicate Initial(s: System) {
    && s.w.endpoint == Rendezvous([], []) && s.w.delivered == map[] && s.w.responses == map[]
    && s.calls == map[] && s.recv.None? && s.log == []
    && SERVER_REPLY_SLOT < |s.w.serverCs.slots| && !Live(s.w.serverCs.slots, SERVER_REPLY_SLOT)
  }

  lemma {:induction false} RunKeeps(s: System, steps: seq<Step>)
    requires Good(s) && Runs(s, steps)
    ensures Good(Run(s, steps))
    decreases |steps|
  {
    hide Good;
    if steps != [] {
      StepKeeps(s, steps[0]);
      RunKeeps(Next(s, steps[0]).value, steps[1..]);
    }
  }

  /** Every reachable state of every interleaving is good. */
  lemma EveryRunIsGood(s: System, steps: seq<Step>)
    requires Initial(s) && Runs(s, steps)
    ensures Good(Run(s, steps))
  {
    InitialGood(s);
    hide Good;
    RunKeeps(s, steps);
  }

  lemma InitialGood(s: System)
    requires Initial(s)
    ensures Good(s)
  {
    assert InFlight(s.w) == [];
  }

  // ---- what the log says of a call that returned ----

  /** None of the events from `i` on is client `p`'s. */
  ghost predicate Quiet(log: seq<Event>, p: Party, i: nat, j: nat)
    requires i <= j <= |log|
  {
    forall k :: i <= k < j ==> log[k].party != p
  }

  /** Events `a`, `b` and `c` are the last of `p`'s up to `d`: a request sent, that request received
      with `p`'s badge, and `resp` sent back on its Reply. */
  ghost predicate Story(log: seq<Event>, p: Party, a: nat, b: nat, c: nat, d: nat, m: Message, resp: Message) {
    && a < b < c < d <= |log|
    && log[a] == SentTo(p, m) && log[b].Received? && log[b].party == p && log[c] == Replied(p, resp)
    && log[b].msg.selector == log[a].msg.selector && log[b].msg.data == log[a].msg.data
    && log[b].msg.transfers == log[a].msg.transfers && log[b].msg.badge == p
    && Quiet(log, p, a + 1, b) && Quiet(log, p, b + 1, c) && Quiet(log, p, c + 1, d)
  }

  lemma {:induction false} WaitingStory(log: seq<Event>, p: Party) returns (a: nat)
    requires PhaseOf(log, p).Waiting?
    ensures a < |log| && log[a] == SentTo(p, PhaseOf(log, p).msg) && Quiet(log, p, a + 1, |log|)
  {
    var n := |log| - 1;
    if log[n].party == p {
      a := n;
    } else {
      a := WaitingStory(log[..n], p);
    }
  }

  lemma {:induction false} ServingStory(log: seq<Event>, p: Party) returns (a: nat, b: nat)
    requires PhaseOf(log, p).Serving?
    ensures a < b < |log| && log[a] == SentTo(p, PhaseOf(log, p).msg)
    ensures log[b].Received? && log[b].party == p && Carries(PhaseOf(log, p).msg, log[b].msg, p)
    ensures Quiet(log, p, a + 1, b) && Quiet(log, p, b + 1, |log|)
  {
    var n := |log| - 1;
    if log[n].party == p {
      a := WaitingStory(log[..n], p);
      b := n;
    } else {
      a, b := ServingStory(log[..n], p);
    }
  }

  lemma {:induction false} AnsweredStory(log: seq<Event>, p: Party) returns (a: nat, b: nat, c: nat, m: Message)
    requires PhaseOf(log, p).Answered?
    ensures Story(log, p, a, b, c, |log|, m, PhaseOf(log, p).resp)
  {
    var n := |log| - 1;
    if log[n].party == p {
      a, b := ServingStory(log[..n], p);
      c, m := n, PhaseOf(log[..n], p).msg;
    } else {
      a, b, c, m := AnsweredStory(log[..n], p);
    }
  }

  lemma {:induction false} PrefixNotBroken(log: seq<Event>, p: Party, d: nat)
    requires d <= |log| && !PhaseOf(log, p).Broken?
    ensures !PhaseOf(log[..d], p).Broken?
    decreases |log|
  {
    if d < |log| {
      PrefixNotBroken(log[..|log| - 1], p, d);
      assert log[..|log| - 1][..d] == log[..d];
    } else {
      assert log[..d] == log;
    }
  }

  lemma ReturnStory(log: seq<Event>, d: nat) returns (a: nat, b: nat, c: nat, m: Message)
    requires d < |log| && log[d].Returned? && !PhaseOf(log, log[d].party).Broken?
    ensures Story(log, log[d].party, a, b, c, d, m, log[d].msg)
  {
    PrefixNotBroken(log, log[d].party, d + 1);
    assert log[..d + 1] == log[..d] + [log[d]];
    PhaseAfter(log[..d], log[d], log[d].party);
    hide PhaseOf;
    a, b, c, m := AnsweredStory(log[..d], log[d].party);
  }

  lemma NeverBroken(s: System, steps: seq<Step>, p: Party)
    requires Initial(s) && Runs(s, steps) && p != SERVER
    ensures !PhaseOf(Run(s, steps).log, p).Broken?
  {
    EveryRunIsGood(s, steps);
    hide Run;
    assert ClientOk(Run(s, steps), p);
    hide ServerOk;
    hide PhaseOf;
  }

  /** Whenever a call returns, in any run, it returns the response that one `do_reply` sent on the
      Reply minted for that call's own message: the client's last three events are that send, the
      receipt of that message, and that reply. */
  lemma ReturnsOwnReply(s: System, steps: seq<Step>, d: nat) returns (a: nat, b: nat, c: nat, m: Message)
    requires Initial(s) && Runs(s, steps)
    requires var log := Run(s, steps).log; d < |log| && log[d].Returned? && log[d].party != SERVER
    ensures var log := Run(s, steps).log; Story(log, log[d].party, a, b, c, d, m, log[d].msg)
  {
    var log := Run(s, steps).log;
    NeverBroken(s, steps, log[d].party);
    hide Run;
    a, b, c, m := ReturnStory(log, d);
  }

  /** Requests are received in the order they were sent, none twice. */
  lemma ReceivedInOrder(s: System, steps: seq<Step>)
    requires Initial(s) && Runs(s, steps)
    ensures ReceivedLog(Run(s, steps).log) <= SentLog(Run(s, steps).log)
  {
    EveryRunIsGood(s, steps);
  }

  /** No wake is lost: a party with something to collect is on the run queue, and a blocked party with
      nothing to collect has its waker registered. */
  lemma NoLostWake(s: System, steps: seq<Step>, p: Party)
    requires Initial(s) && Runs(s, steps)
    ensures var t := Run(s, steps);
      && (p in t.w.responses ==> p in t.w.queued && p in t.calls)
      && (SERVER in t.w.delivered ==> SERVER in t.w.queued && t.recv == Some(true))
      && (p in t.calls && t.calls[p].Sent? && p !in t.w.responses ==> p in t.w.wakers)
      && (t.recv == Some(true) && SERVER !in t.w.delivered ==> SERVER in t.w.wakers)
  {
    EveryRunIsGood(s, steps);
    var t := Run(s, steps);
    if p != SERVER { assert ClientOk(t, p); }
    hide InFlight;
  }

  // ---- when the kernel stops ----

  /** An earlier transfer of the message moved the slot away. */
  predicate MovedBefore(m: Message, i: nat, slot: nat)
    requires i <= |m.transfers|
  {
    exists j :: 0 <= j < i && m.transfers[j].src == slot && m.transfers[j].mode.MoveGrant?
  }

  /** A type that may be granted so: a Reply or shared page never, the sole holder's types only moved. */
  predicate GrantableType(ty: CapType, mode: GrantMode) {
    && !ty.Reply? && !ty.SharedRo?
    && (mode.MintGrant? ==> !ty.Untyped? && !ty.Sched? && !ty.Domain?)
  }

  /** Transfer `i` of a message, judged by the two spaces as they are before any: the client holds the
      capability, has not moved it by an earlier transfer, may grant it with these rights and, to move it, has
      moved everything derived from it; and the server's slot for it is free. */
  predicate Grantable(client: Slots, server: Slots, m: Message, i: nat)
    requires i < |m.transfers|
  {
    var x := m.transfers[i];
    && Live(client, x.src) && !MovedBefore(m, i, x.src)
    && GrantableType(client[x.src].cap.ty, x.mode)
    && GRANT in client[x.src].cap.rights && x.rights <= client[x.src].cap.rights
    && (x.mode.MoveGrant? ==>
          forall k :: 0 <= k < |client| && Live(client, k) && client[k].parent == To(x.src) ==> MovedBefore(m, i, k))
    && SERVER_RECV_BASE + i < |server| && !Live(server, SERVER_RECV_BASE + i)
  }

  /** Every transfer of a request can be granted. */
  predicate Grants(w: World, q: Request) {
    forall i :: 0 <= i < |q.1.transfers| ==> Grantable(w.clientCs.slots, w.serverCs.slots, q.1, i)
  }

  /** The client's space after the first `i` transfers: what they moved is gone, and nothing else changed. */
  ghost predicate MovedAway(before: Slots, now: Slots, m: Message, i: nat)
    requires i <= |m.transfers|
  {
    |now| == |before| && forall k: nat :: k < |now| ==> now[k] == if MovedBefore(m, i, k) then EMPTY else before[k]
  }

  /** The server's slots for the transfers from `i` on are as they were. */
  ghost predicate SlotsAhead(before: Slots, now: Slots, m: Message, i: nat) {
    && |now| == |before|
    && forall k: nat :: SERVER_RECV_BASE + i <= k < SERVER_RECV_BASE + |m.transfers| && k < |now| ==>
          now[k] == before[k]
  }

  lemma MovedNext(m: Message, i: nat, slot: nat)
    requires i < |m.transfers|
    ensures MovedBefore(m, i + 1, slot) <==>
      MovedBefore(m, i, slot) || (m.transfers[i].src == slot && m.transfers[i].mode.MoveGrant?)
  {
  }

  lemma ChildrenMoved(before: Slots, now: Slots, m: Message, i: nat, src: nat)
    requires i <= |m.transfers| && MovedAway(before, now, m, i)
    ensures !HasChildren(now, src) <==>
      forall k :: 0 <= k < |before| && Live(before, k) && before[k].parent == To(src) ==> MovedBefore(m, i, k)
  {
    hide MovedBefore;
    forall k: nat | k < |now|
      ensures (Live(now, k) && now[k].parent == To(src)) <==>
        (Live(before, k) && before[k].parent == To(src) && !MovedBefore(m, i, k))
    {
    }
    if HasChildren(now, src) {
      var k: nat :| k < |now| && !now[k].cap.ty.Null? && now[k].parent == To(src);
      assert Live(now, k);
    }
  }

  /** One grant of the loop succeeds exactly when its transfer could be granted from the start. */
  lemma GrantDecided(c0: Slots, s0: Slots, client: CS, server: CS, m: Message, i: nat)
    requires i < |m.transfers| && MovedAway(c0, client.slots, m, i) && SlotsAhead(s0, server.slots, m, i)
    ensures var x := m.transfers[i];
      var g := Grant(client, x.src, server, SERVER_RECV_BASE + i, x.rights, m.badge, x.mode);
      && (g.Ok? <==> Grantable(c0, s0, m, i))
      && (g.Ok? ==> MovedAway(c0, g.value.0.slots, m, i + 1) && SlotsAhead(s0, g.value.1.slots, m, i + 1))
  {
    var x := m.transfers[i];
    ChildrenMoved(c0, client.slots, m, i, x.src);
    forall k: nat | k < |c0|
      ensures MovedBefore(m, i + 1, k) <==> MovedBefore(m, i, k) || (x.src == k && x.mode.MoveGrant?)
    {
      MovedNext(m, i, k);
    }
    hide MovedBefore; hide HasChildren;
  }

  /** The loop grants everything from `i` on exactly when each transfer could be granted from the start. */
  lemma {:induction false} GrantFromDecided(c0: Slots, s0: Slots, client: CS, server: CS, m: Message, i: nat)
    requires i <= |m.transfers| && MovedAway(c0, client.slots, m, i) && SlotsAhead(s0, server.slots, m, i)
    ensures GrantFrom(client, server, m, i).Ok? <==>
      forall j :: i <= j < |m.transfers| ==> Grantable(c0, s0, m, j)
    decreases |m.transfers| - i
  {
    hide Grantable; hide MovedAway; hide SlotsAhead; hide Grant;
    if i < |m.transfers| {
      var x := m.transfers[i];
      var g := Grant(client, x.src, server, SERVER_RECV_BASE + i, x.rights, m.badge, x.mode);
      GrantDecided(c0, s0, client, server, m, i);
      if g.Ok? { GrantFromDecided(c0, s0, g.value.0, g.value.1, m, i + 1); }
    }
  }

  /** What the granted transfers leave: each capability in its server slot, with exactly the rights asked for and
      the caller's badge, and every other server slot as it was. */
  ghost predicate Landed(c0: Slots, before: Slots, now: Slots, m: Message, i: nat) {
    && |now| == |before|
    && (forall k: nat :: SERVER_RECV_BASE + i <= k < SERVER_RECV_BASE + |m.transfers| ==>
          var x := m.transfers[k - SERVER_RECV_BASE];
          && k < |now| && x.src < |c0|
          && now[k] == Cte(c0[x.src].cap.(rights := x.rights, badge := m.badge), Nil))
    && forall k: nat :: k < |now| && !(SERVER_RECV_BASE + i <= k < SERVER_RECV_BASE + |m.transfers|) ==>
         now[k] == before[k]
  }

  lemma {:induction false} GrantFromLands(c0: Slots, s0: Slots, client: CS, server: CS, m: Message, i: nat)
    requires i <= |m.transfers| && MovedAway(c0, client.slots, m, i) && SlotsAhead(s0, server.slots, m, i)
    requires GrantFrom(client, server, m, i).Ok?
    ensures var (c, s) := GrantFrom(client, server, m, i).value;
      MovedAway(c0, c.slots, m, |m.transfers|) && Landed(c0, server.slots, s.slots, m, i)
    decreases |m.transfers| - i
  {
    if i < |m.transfers| {
      var x := m.transfers[i];
      var g := Grant(client, x.src, server, SERVER_RECV_BASE + i, x.rights, m.badge, x.mode);
      GrantDecided(c0, s0, client, server, m, i);
      GrantFromLands(c0, s0, g.value.0, g.value.1, m, i + 1);
      assert client.slots[x.src] == c0[x.src];
      hide MovedAway; hide SlotsAhead; hide Grantable; hide GrantFrom;
    }
  }

  /** A taken request, in full: the server holds a Reply that names and carries the badge of the caller, and each
      transferred capability with exactly the rights asked for; the client lost what it moved; nothing else of
      either space changes. */
  lemma RequestLands(w: World, q: Request)
    requires ReplySlotOk(w.serverCs) && OnRequest(w, q.0, q.1).Ok?
    ensures var (msg, r) := OnRequest(w, q.0, q.1).value; var s := w.serverCs.slots;
      var reply := Cte(RawCap(Reply, {}, q.0, 0, 0, 0, q.0), Nil);
      && Carries(q.1, msg, q.0) && MovedAway(w.clientCs.slots, r.clientCs.slots, q.1, |q.1.transfers|)
      && !Live(s, SERVER_REPLY_SLOT)
      && Landed(w.clientCs.slots, s[SERVER_REPLY_SLOT := reply], r.serverCs.slots, msg, 0)
  {
    var msg := Stamped(q.1, q.0);
    var s := MintReply(w.serverCs, SERVER_REPLY_SLOT, q.0, msg.badge).value;
    GrantFromLands(w.clientCs.slots, w.serverCs.slots, w.clientCs, s, msg, 0);
    var c := GrantFrom(w.clientCs, s, msg, 0).value.0;
    assert forall k: nat :: MovedBefore(msg, |msg.transfers|, k) <==> MovedBefore(q.1, |q.1.transfers|, k);
    hide GrantFrom; hide MovedBefore; hide Landed;
  }

  /** Stamping a message with its caller leaves its transfers. */
  lemma StampKeepsTransfers(m: Message, sender: Party, client: Slots, server: Slots, i: nat)
    requires i < |m.transfers|
    ensures Stamped(m, sender).transfers == m.transfers
    ensures Grantable(client, server, Stamped(m, sender), i) <==> Grantable(client, server, m, i)
  {
    assert forall k: nat :: MovedBefore(Stamped(m, sender), i, k) <==> MovedBefore(m, i, k);
    hide MovedBefore;
  }

  /** Minting the caller's Reply and granting its transfers succeeds exactly when the server holds no Reply and
      every transfer can be granted. */
  lemma RequestRuns(w: World, q: Request)
    requires ReplySlotOk(w.serverCs)
    ensures OnRequest(w, q.0, q.1).Ok? <==> ReplyTo(w.serverCs).None? && Grants(w, q)
  {
    var msg := Stamped(q.1, q.0);
    var s := MintReply(w.serverCs, SERVER_REPLY_SLOT, q.0, msg.badge);
    hide Grantable;
    if s.Ok? {
      GrantFromDecided(w.clientCs.slots, w.serverCs.slots, w.clientCs, s.value, msg, 0);
      forall i | 0 <= i < |q.1.transfers|
        ensures Grantable(w.clientCs.slots, w.serverCs.slots, msg, i)
           <==> Grantable(w.clientCs.slots, w.serverCs.slots, q.1, i)
      {
        StampKeepsTransfers(q.1, q.0, w.clientCs.slots, w.serverCs.slots, i);
      }
    }
    hide GrantFrom;
  }

  /** The one step that can stop the kernel is the server's poll, and it does exactly when a request is in
      flight and either the server still holds a Reply or the oldest request's transfers cannot be granted. */
  lemma StopsExactlyWhen(s: System, step: Step)
    requires ServerOk(s) && Enabled(s, step)
    ensures Next(s, step).Err? <==>
      step.PollServer? && InFlight(s.w) != [] && (ReplyTo(s.w.serverCs).Some? || !Grants(s.w, InFlight(s.w)[0]))
  {
    hide ReplyTo;
    hide GrantFrom;
    hide OncePerParty;
    hide NotIn;
    hide OnRequest;
    if step.PollServer? {
      var w := s.w.(queued := s.w.queued - {SERVER});
      if SERVER in w.delivered {
        RequestRuns(w.(delivered := w.delivered - {SERVER}), w.delivered[SERVER]);
      } else if !s.recv.value && w.endpoint.senders != [] {
        RequestRuns(w.(endpoint := w.endpoint.Recv(SERVER).1), w.endpoint.senders[0]);
      }
    }
  }

  lemma {:induction false} RunsCons(s: System, step: Step, steps: seq<Step>)
    requires Enabled(s, step) && Next(s, step).Ok? && Runs(Next(s, step).value, steps)
    ensures Runs(s, [step] + steps) && Run(s, [step] + steps) == Run(Next(s, step).value, steps)
  {
    assert ([step] + steps)[1..] == steps;
  }

  /** Nothing in any slot, and nothing under way. */
  function Fresh(): (s: System)
    ensures Initial(s)
  {
    var empty := CS(seq(16, _ => EMPTY), 1, []);
    System(World(Rendezvous([], []), empty, empty, {}, {}, map[], map[]), map[], None, [])
  }

  /** A first way to stop: a client's message transfers a slot that is empty. */
  lemma UngrantableTransferStops()
    ensures var m := RawMessage(0, [], [CapXfer(0, {}, MoveGrant)], 0);
      var steps := [StartCall(1, m), PollCaller(1), StartRecv];
      Runs(Fresh(), steps) && Enabled(Run(Fresh(), steps), PollServer) && Next(Run(Fresh(), steps), PollServer).Err?
  {
    var m: Message := RawMessage(0, [], [CapXfer(0, {}, MoveGrant)], 0);
    var s0 := Fresh();
    var s1 := Next(s0, StartCall(1, m)).value;
    var s2 := Next(s1, PollCaller(1)).value;
    var s3 := Next(s2, StartRecv).value;
    RunsCons(s2, StartRecv, []);
    RunsCons(s1, PollCaller(1), [StartRecv] + []);
    RunsCons(s0, StartCall(1, m), [PollCaller(1)] + ([StartRecv] + []));
    assert [StartCall(1, m), PollCaller(1), StartRecv] == [StartCall(1, m)] + ([PollCaller(1)] + ([StartRecv] + []));
    EveryRunIsGood(s0, [StartCall(1, m), PollCaller(1), StartRecv]);
    assert InFlight(s3.w) == [(1, m)];
    assert !Grantable(s3.w.clientCs.slots, s3.w.serverCs.slots, m, 0);
    StopsExactlyWhen(s3, PollServer);
  }

  lemma FirstRequest() returns (s: System)
    ensures var m := RawMessage(0, [], [], 0);
      var steps := [StartCall(1, m), PollCaller(1), StartRecv, PollServer];
      Runs(Fresh(), steps) && s == Run(Fresh(), steps)
    ensures Good(s) && ReplyTo(s.w.serverCs).Some? && s.recv.None? && s.calls.Keys == {1} && InFlight(s.w) == []
    ensures s.w.endpoint == Rendezvous([], []) && SERVER !in s.w.delivered
  {
    var m: Message := RawMessage(0, [], [], 0);
    var s0 := Fresh();
    var s1 := Next(s0, StartCall(1, m)).value;
    var s2 := Next(s1, PollCaller(1)).value;
    var s3 := Next(s2, StartRecv).value;
    assert s3.w.endpoint == Rendezvous([(1, m)], []) && s3.w.delivered == map[];
    s := Next(s3, PollServer).value;
    RunsCons(s3, PollServer, []);
    RunsCons(s2, StartRecv, [PollServer] + []);
    RunsCons(s1, PollCaller(1), [StartRecv] + ([PollServer] + []));
    RunsCons(s0, StartCall(1, m), [PollCaller(1)] + ([StartRecv] + ([PollServer] + [])));
    assert [StartCall(1, m), PollCaller(1), StartRecv, PollServer]
        == [StartCall(1, m)] + ([PollCaller(1)] + ([StartRecv] + ([PollServer] + [])));
    EveryRunIsGood(s0, [StartCall(1, m), PollCaller(1), StartRecv, PollServer]);
  }

  /** A second way: the server receives again before it has replied. */
  lemma ReceivingTwiceStops() returns (s: System)
    ensures var m := RawMessage(0, [], [], 0);
      var steps := [StartCall(1, m), PollCaller(1), StartRecv, PollServer];
      Runs(Fresh(), steps) && s == Run(Fresh(), steps)
    ensures var steps := [StartCall(3, RawMessage(0, [], [], 0)), PollCaller(3), StartRecv];
      Runs(s, steps) && Enabled(Run(s, steps), PollServer) && Next(Run(s, steps), PollServer).Err?
  {
    s := FirstRequest();
    var m: Message := RawMessage(0, [], [], 0);
    var s1 := Next(s, StartCall(3, m)).value;
    var s2 := Next(s1, PollCaller(3)).value;
    var s3 := Next(s2, StartRecv).value;
    RunsCons(s2, StartRecv, []);
    RunsCons(s1, PollCaller(3), [StartRecv] + []);
    RunsCons(s, StartCall(3, m), [PollCaller(3)] + ([StartRecv] + []));
    assert [StartCall(3, m), PollCaller(3), StartRecv] == [StartCall(3, m)] + ([PollCaller(3)] + ([StartRecv] + []));
    RunKeeps(s, [StartCall(3, m), PollCaller(3), StartRecv]);
    assert s3.w.endpoint.senders == [(3, m)];
    StopsExactlyWhen(s3, PollServer);
  }
}

/** The rendezvous endpoint, the shared IPC state and one poll of each future, as functions. */
module IpcSpec {
  import opened Caps
  import opened CSpaceSpec
  import opened Options

  type Party = nat

  const SERVER: Party := 2
  const SERVER_RECV_BASE: nat := 5
  const SERVER_REPLY_SLOT: nat := 10
  const MAX_CAPS: nat := 2

  datatype CapXfer = CapXfer(src: nat, rights: Rights, mode: GrantMode)

  /** The meaningful words and transfers of a message; their number is clamped on every read. */
  datatype RawMessage = RawMessage(selector: nat, data: seq<nat>, transfers: seq<CapXfer>, badge: nat)

  type Message = m: RawMessage | |m.transfers| <= MAX_CAPS witness RawMessage(0, [], [], 0)

  type Request = (Party, Message)

  // ---- the endpoint ----

  datatype Endpoint = Rendezvous(senders: seq<Request>, receivers: seq<Party>) {
    /** Senders and receivers never wait together. */
    predicate Valid() { senders == [] || receivers == [] }

    /** The receiver the message goes to; the sender queues when there is none. */
    function Send(from: Party, m: Message): (r: (Option<Party>, Endpoint)) {
      if receivers != [] then (Some(receivers[0]), this.(receivers := receivers[1..]))
      else (None, this.(senders := senders + [(from, m)]))
    }

    function Recv(to: Party): (r: (Option<Request>, Endpoint)) {
      if senders != [] then (Some(senders[0]), this.(senders := senders[1..]))
      else (None, this.(receivers := receivers + [to]))
    }

    function Cancel(p: Party): (e: Endpoint) {
      Rendezvous(WithoutSender(senders, p), Without(receivers, p))
    }
  }

  function WithoutSender(s: seq<Request>, p: Party): (r: seq<Request>)
    ensures forall q :: q in r <==> q in s && q.0 != p
    ensures |r| <= |s| && (|r| == |s| <==> forall q :: q in s ==> q.0 != p)
  {
    if s == [] then [] else
    var rest := WithoutSender(s[..|s| - 1], p);
    assert s == s[..|s| - 1] + [s[|s| - 1]];
    if s[|s| - 1].0 == p then rest else rest + [s[|s| - 1]]
  }

  function Without(s: seq<Party>, p: Party): (r: seq<Party>)
    ensures forall q :: q in r <==> q in s && q != p
    ensures |r| <= |s| && (|r| == |s| <==> p !in s)
  {
    if s == [] then [] else
    var rest := Without(s[..|s| - 1], p);
    assert s == s[..|s| - 1] + [s[|s| - 1]];
    if s[|s| - 1] == p then rest else rest + [s[|s| - 1]]
  }

  lemma WithoutLast(s: seq<Request>, q: Request, p: Party)
    ensures WithoutSender(s + [q], p) == WithoutSender(s, p) + if q.0 == p then [] else [q]
  {
    assert (s + [q])[..|s|] == s && (s + [q])[|s|] == q;
  }

  /** Cancelling keeps the order of the waits it leaves: taken apart anywhere, it does the same to each part, and a
      single wait it keeps or drops. */
  lemma {:induction false} CancelKeepsOrder(a: seq<Request>, b: seq<Request>, p: Party, q: Request)
    ensures WithoutSender(a + b, p) == WithoutSender(a, p) + WithoutSender(b, p)
    ensures WithoutSender([q], p) == if q.0 == p then [] else [q]
    decreases |b|
  {
    WithoutLast([], q, p);
    assert [] + [q] == [q] && WithoutSender([], p) == [];
    hide WithoutSender;
    if b == [] {
      assert a + b == a && WithoutSender(b, p) == [];
    } else {
      var n := |b| - 1;
      assert a + b == (a + b[..n]) + [b[n]] && b == b[..n] + [b[n]];
      CancelKeepsOrder(a, b[..n], p, q);
      WithoutLast(a + b[..n], b[n], p);
      WithoutLast(b[..n], b[n], p);
    }
  }

  /** A cancelled party waits on neither side, and every other wait stays. */
  lemma CancelForgets(e: Endpoint, p: Party)
    ensures var f := e.Cancel(p);
      && (forall q :: q in f.senders <==> q in e.senders && q.0 != p)
      && (forall q :: q in f.receivers <==> q in e.receivers && q != p)
      && (f == e <==> p !in e.receivers && forall q :: q in e.senders ==> q.0 != p)
  {
    if p !in e.receivers && forall q :: q in e.senders ==> q.0 != p {
      NothingToCancel(e.senders, e.receivers, p);
    }
  }

  lemma {:induction false} NothingToCancel(s: seq<Request>, r: seq<Party>, p: Party)
    requires p !in r && forall q :: q in s ==> q.0 != p
    ensures WithoutSender(s, p) == s && Without(r, p) == r
    decreases |s| + |r|
  {
    if s != [] {
      NothingToCancel(s[..|s| - 1], r, p);
      assert s == s[..|s| - 1] + [s[|s| - 1]];
    } else if r != [] {
      NothingToCancel(s, r[..|r| - 1], p);
      assert r == r[..|r| - 1] + [r[|r| - 1]];
    }
  }

  /** First come, first served on both sides: a message goes to the receiver waiting longest, a receive takes the
      message waiting longest, and whoever has to wait goes last. */
  lemma EndpointIsFifo(e: Endpoint, p: Party, m: Message)
    requires e.Valid()
    ensures var (to, f) := e.Send(p, m);
      && f.Valid() && (to.Some? <==> |e.receivers| > 0)
      && (to.Some? ==> [to.value] + f.receivers == e.receivers && f.senders == e.senders)
      && (to.None? ==> f.senders == e.senders + [(p, m)] && f.receivers == e.receivers)
    ensures var (from, f) := e.Recv(p);
      && f.Valid() && (from.Some? <==> |e.senders| > 0)
      && (from.Some? ==> [from.value] + f.senders == e.senders && f.receivers == e.receivers)
      && (from.None? ==> f.receivers == e.receivers + [p] && f.senders == e.senders)
  {
  }

  // ---- the shared state ----

  /** `wakers` holds the parties with a registered waker, `queued` those a waker has put on the run
      queue since their last poll. */
  datatype World = World(endpoint: Endpoint, clientCs: CS, serverCs: CS, wakers: set<Party>, queued: set<Party>,
                         delivered: map<Party, Request>, responses: map<Party, Message>)

  function Wake(w: World, p: Party): (r: World) {
    if p in w.wakers then w.(wakers := w.wakers - {p}, queued := w.queued + {p}) else w
  }

  function Stamped(m: Message, sender: Party): (r: Message) {
    m.(badge := sender)
  }

  /** The transfers from the `i`th on, granted one after the other. */
  function GrantFrom(client: CS, server: CS, m: Message, i: nat): (r: Result<(CS, CS)>)
    requires i <= |m.transfers|
    decreases |m.transfers| - i
  {
    if i == |m.transfers| then Ok((client, server))
    else
      var x := m.transfers[i];
      var g :- Grant(client, x.src, server, SERVER_RECV_BASE + i, x.rights, m.badge, x.mode);
      GrantFrom(g.0, g.1, m, i + 1)
  }

  /** A request reaches the server: its Reply is minted and its transfers are granted. An error stops
      the kernel. */
  function OnRequest(w: World, sender: Party, m: Message): (r: Result<(Message, World)>) {
    var msg := Stamped(m, sender);
    var s :- MintReply(w.serverCs, SERVER_REPLY_SLOT, sender, msg.badge);
    var g :- GrantFrom(w.clientCs, s, msg, 0);
    Ok((msg, w.(clientCs := g.0, serverCs := g.1)))
  }

  /** The caller answered, if the Reply was still there. */
  function DoReply(w: World, resp: Message): (r: (Option<Party>, World)) {
    match ConsumeReply(w.serverCs, SERVER_REPLY_SLOT)
    case Ok(p) => (Some(p.0), Wake(w.(serverCs := p.1, responses := w.responses[p.0 := resp]), p.0))
    case Err(_) => (None, w)
  }

  // ---- futures ----

  datatype CallFuture = Unsent(msg: Message) | Sent

  datatype Poll<+T> = Ready(value: T) | Pending

  function PollCall(w0: World, p: Party, f: CallFuture): (r: (Poll<Message>, World)) {
    var w := w0.(queued := w0.queued - {p});
    match f
    case Unsent(m) =>
      var (to, e) := w.endpoint.Send(p, m);
      var w1 := w.(endpoint := e);
      var w2 := if to.Some? then Wake(w1.(delivered := w1.delivered[to.value := (p, m)]), to.value) else w1;
      (Pending, w2.(wakers := w2.wakers + {p}))
    case Sent =>
      if p in w.responses then (Ready(w.responses[p]), w.(responses := w.responses - {p}))
      else (Pending, w.(wakers := w.wakers + {p}))
  }

  function PollRecv(w0: World, tried: bool): (r: Result<(Poll<Message>, World)>) {
    var w := w0.(queued := w0.queued - {SERVER});
    if SERVER in w.delivered then
      var (sender, m) := w.delivered[SERVER];
      var q :- OnRequest(w.(delivered := w.delivered - {SERVER}), sender, m);
      Ok((Ready(q.0), q.1))
    else if !tried && w.endpoint.senders != [] then
      var (from, e) := w.endpoint.Recv(SERVER);
      var q :- OnRequest(w.(endpoint := e), from.value.0, from.value.1);
      Ok((Ready(q.0), q.1))
    else
      var e := if tried then w.endpoint else w.endpoint.Recv(SERVER).1;
      Ok((Pending, w.(endpoint := e, wakers := w.wakers + {SERVER})))
  }
}

/** What a loaded process can do to its own capability space: the syscalls of every process, over the
    shared rendezvous, in any order. */
module Syscalls {
  import opened Caps
  import opened CSpaceSpec
  import opened Options
  import LoaderProofs
  import LoaderSpec

  const REPLY_SLOT: nat := 3

  datatype Op =
    | CapIdentify | FrameProbe | EndpointSend | DebugEmit | ProcExit | EndpointCall | EndpointRecv | SharedQuery
    | NotifyWait | NotifySignal | Unknown

  datatype InvokeError = BadCptr | EmptyCptr | WrongObject | MissingRight | UnknownOp

  datatype Answer = Value(word: nat) | Identity(ty: CapType, rights: Rights) | Refused(error: InvokeError)

  datatype Invocation = Invocation(op: Op, cptr: nat, arg: nat)

  function Check(cap: RawCap, ty: CapType, right: Right, word: nat): (a: Answer) {
    if cap.ty != ty then Refused(WrongObject) else if right !in cap.rights then Refused(MissingRight) else Value(word)
  }

  /** The dispatch: resolve the cptr in the caller's own space, then check type and right. */
  function Invoke(cs: CS, inv: Invocation): (a: Answer) {
    match Resolve(cs.slots, inv.cptr)
    case Err(e) => Refused(if e == OutOfBounds then BadCptr else EmptyCptr)
    case Ok(cap) =>
      match inv.op
      case CapIdentify => Identity(cap.ty, cap.rights)
      case FrameProbe => Check(cap, Frame, READ, cap.objref)
      case EndpointSend => Check(cap, Endpoint, SEND, cap.badge)
      case DebugEmit => Check(cap, Endpoint, SEND, inv.arg)
      case ProcExit => Check(cap, Endpoint, SEND, inv.arg)
      case EndpointCall => Check(cap, Endpoint, SEND, cap.badge)
      case EndpointRecv => Check(cap, Endpoint, RECV, cap.badge)
      case SharedQuery => Check(cap, SharedRo, READ, cap.aux * 4096)
      case NotifyWait => Check(cap, Notification, WAIT, cap.objref)
      case NotifySignal => Check(cap, Notification, SIGNAL, cap.objref)
      case Unknown => Refused(UnknownOp)
  }

  /** The object type and the right an operation needs. */
  function Needs(op: Op): (r: Option<(CapType, Right)>) {
    match op
    case CapIdentify => None
    case FrameProbe => Some((Frame, READ))
    case EndpointSend => Some((Endpoint, SEND))
    case DebugEmit => Some((Endpoint, SEND))
    case ProcExit => Some((Endpoint, SEND))
    case EndpointCall => Some((Endpoint, SEND))
    case EndpointRecv => Some((Endpoint, RECV))
    case SharedQuery => Some((SharedRo, READ))
    case NotifyWait => Some((Notification, WAIT))
    case NotifySignal => Some((Notification, SIGNAL))
    case Unknown => None
  }

  /** No ambient authority: an operation goes through exactly when the caller's own slot holds an
      object of the type it needs with the right it needs. */
  lemma NoAmbientAuthority(cs: CS, inv: Invocation)
    ensures !Invoke(cs, inv).Refused? <==>
      && Live(cs.slots, inv.cptr) && !inv.op.Unknown?
      && (inv.op.CapIdentify?
            || (cs.slots[inv.cptr].cap.ty == Needs(inv.op).value.0
            && Needs(inv.op).value.1 in cs.slots[inv.cptr].cap.rights))
  {
  }

  /** Why an operation is refused: no such slot, nothing in it, no such operation, the wrong object, or the right
      missing, in that order. */
  lemma RefusedBecause(cs: CS, inv: Invocation)
    requires Invoke(cs, inv).Refused?
    ensures Invoke(cs, inv).error ==
      if inv.cptr >= |cs.slots| then BadCptr
      else if cs.slots[inv.cptr].cap.ty == Null then EmptyCptr
      else if inv.op == Unknown then UnknownOp
      else if inv.op != CapIdentify && cs.slots[inv.cptr].cap.ty != Needs(inv.op).value.0 then WrongObject
      else MissingRight
  {
  }

  /** What an operation that goes through returns: an identification the type and rights, a probe or notification the
      object, a send, call or receive the badge, an emit or exit its argument, a query the window's address. */
  lemma AnswerIs(cs: CS, inv: Invocation)
    requires !Invoke(cs, inv).Refused?
    ensures var a, cap := Invoke(cs, inv), cs.slots[inv.cptr].cap;
      && (inv.op == CapIdentify ==> a == Identity(cap.ty, cap.rights))
      && (inv.op in {FrameProbe, NotifyWait, NotifySignal} ==> a == Value(cap.objref))
      && (inv.op in {EndpointSend, EndpointCall, EndpointRecv} ==> a == Value(cap.badge))
      && (inv.op in {DebugEmit, ProcExit} ==> a == Value(inv.arg))
      && (inv.op == SharedQuery ==> a == Value(cap.aux * 0x1000))
  {
  }

  // ---- the processes and the rendezvous ----

  /** What a process is blocked on, between two of its atomic sections. */
  datatype Status = Running | InCall | InRecv | Retired

  datatype Rdv = Rdv(caller: Option<nat>, msg: nat, reply: Option<nat>)

  datatype Kernel = Kernel(procs: seq<CS>, status: seq<Status>, rdv: Rdv)

  datatype Syscall =
    | Call(inv: Invocation)
    | AwaitReply
    | Recv(inv: Invocation)
    | Accept
    | ReplyOn(cptr: nat, word: nat)
    | Other(inv: Invocation)

  predicate Shaped(k: Kernel) {
    |k.status| == |k.procs|
  }

  /** Process `id` may take this section now. */
  predicate Ready(k: Kernel, id: nat, c: Syscall)
    requires Shaped(k)
  {
    id < |k.procs| &&
    match c
    case AwaitReply => k.status[id].InCall?
    case Accept => k.status[id].InRecv?
    case _ => k.status[id].Running?
  }

  function Settle(k: Kernel, id: nat, st: Status): (r: Kernel)
    requires Shaped(k) && id < |k.procs|
  {
    k.(status := k.status[id := st])
  }

  /** One section of one syscall. A refused operation retires the process and nothing else. */
  function Step(k: Kernel, id: nat, c: Syscall): (r: Kernel)
    requires Shaped(k) && Ready(k, id, c)
    ensures Shaped(r) && |r.procs| == |k.procs|
  {
    var cs := k.procs[id];
    match c
    case Call(inv) =>
      if Invoke(cs, inv.(op := EndpointCall)).Refused? then Settle(k, id, Retired)
      else Settle(k.(rdv := Rdv(Some(id), inv.arg, None)), id, InCall)
    case AwaitReply =>
      if k.rdv.reply.Some? then Settle(k.(rdv := k.rdv.(caller := None, reply := None)), id, Running) else k
    case Recv(inv) =>
      Settle(k, id, if Invoke(cs, inv.(op := EndpointRecv)).Refused? then Retired else InRecv)
    case Accept =>
      if k.rdv.caller.None? then k
      else
        var taken := k.(rdv := k.rdv.(caller := None));
        (match MintReply(cs, REPLY_SLOT, k.rdv.caller.value, 0)
         case Err(_) => Settle(taken, id, Retired)
         case Ok(cs1) => Settle(taken.(procs := k.procs[id := cs1]), id, Running))
    case ReplyOn(cptr, word) =>
      (match ConsumeReply(cs, cptr)
       case Err(_) => Settle(k, id, Retired)
       case Ok((_, cs1)) => k.(procs := k.procs[id := cs1], rdv := k.rdv.(reply := Some(word))))
    case Other(inv) =>
      Settle(k, id, if Invoke(cs, inv).Refused? || inv.op.ProcExit? then Retired else Running)
  }

  // ---- what a process's space can become ----

  /** No Reply outside the reply slot. */
  ghost predicate NoStrayReply(s: Slots) {
    forall c: nat :: Live(s, c) && c != REPLY_SLOT ==> !s[c].cap.ty.Reply?
  }

  /** The space is as it was, but for the reply slot, which is as it was or holds one Reply, and for
      that it must have been empty or hold a Reply already. */
  ghost predicate OnlyReply(before: CS, after: CS) {
    && after == before.(slots := after.slots) && |after.slots| == |before.slots|
    && (forall c: nat :: c < |before.slots| && c != REPLY_SLOT ==> after.slots[c] == before.slots[c])
    && (REPLY_SLOT < |before.slots| && after.slots[REPLY_SLOT] != before.slots[REPLY_SLOT] ==>
          && (!Live(before.slots, REPLY_SLOT) || before.slots[REPLY_SLOT].cap.ty.Reply?)
          && (!Live(after.slots, REPLY_SLOT) || after.slots[REPLY_SLOT].cap.ty.Reply?))
  }

  lemma OnlyReplyTrans(a: CS, b: CS, c: CS)
    requires OnlyReply(a, b) && OnlyReply(b, c)
    ensures OnlyReply(a, c)
  {
  }

  lemma MintChangesReply(cs: CS, caller: nat)
    requires NoStrayReply(cs.slots) && MintReply(cs, REPLY_SLOT, caller, 0).Ok?
    ensures OnlyReply(cs, MintReply(cs, REPLY_SLOT, caller, 0).value)
    ensures NoStrayReply(MintReply(cs, REPLY_SLOT, caller, 0).value.slots)
  {
  }

  lemma ConsumeChangesReply(cs: CS, cptr: nat)
    requires NoStrayReply(cs.slots) && ConsumeReply(cs, cptr).Ok?
    ensures cptr == REPLY_SLOT
    ensures OnlyReply(cs, ConsumeReply(cs, cptr).value.1) && NoStrayReply(ConsumeReply(cs, cptr).value.1.slots)
  {
    assert Live(cs.slots, cptr);
  }

  /** One section of one syscall changes no slot of any process but the caller's reply slot. */
  lemma StepOnlyReply(k: Kernel, id: nat, c: Syscall, p: nat)
    requires Shaped(k) && Ready(k, id, c) && p < |k.procs| && NoStrayReply(k.procs[p].slots)
    ensures var r := Step(k, id, c); OnlyReply(k.procs[p], r.procs[p]) && NoStrayReply(r.procs[p].slots)
    ensures p != id ==> Step(k, id, c).procs[p] == k.procs[p]
  {
    hide Invoke;
    hide MintReply;
    hide ConsumeReply;
    hide NoStrayReply;
    var cs := k.procs[id];
    if p == id && c.Accept? && k.rdv.caller.Some? && MintReply(cs, REPLY_SLOT, k.rdv.caller.value, 0).Ok? {
      MintChangesReply(cs, k.rdv.caller.value);
    }
    if p == id && c.ReplyOn? && ConsumeReply(cs, c.cptr).Ok? {
      ConsumeChangesReply(cs, c.cptr);
    }
  }

  /** Taking a call gives the server a Reply that names the caller, if its reply slot is vacant, and retires it if
      not; either way the call is taken off the rendezvous. */
  lemma AcceptNamesCaller(k: Kernel, id: nat)
    requires Shaped(k) && Ready(k, id, Accept) && k.rdv.caller.Some?
    ensures var r, s := Step(k, id, Accept), k.procs[id].slots;
      var vacant := REPLY_SLOT < |s| && s[REPLY_SLOT].cap.ty == Null;
      && r.rdv == k.rdv.(caller := None) && r.status == k.status[id := if vacant then Running else Retired]
      && (vacant ==>
            r.procs[id].slots == s[REPLY_SLOT := Cte(RawCap(Reply, {}, k.rdv.caller.value, 0, 0, 0, 0), Nil)])
      && (!vacant ==> r.procs == k.procs)
  {
  }

  /** A call that is permitted leaves the caller and its word on the rendezvous and blocks it; a reply is posted
      exactly when the slot named holds a Reply, and lets the waiting caller go on; an exit, or anything refused,
      only retires the process. */
  lemma RendezvousSteps(k: Kernel, id: nat, c: Syscall)
    requires Shaped(k) && Ready(k, id, c)
    ensures var r, s := Step(k, id, c), k.procs[id].slots;
      && (c.Call? ==>
            var ok := !Invoke(k.procs[id], Invocation(EndpointCall, c.inv.cptr, c.inv.arg)).Refused?;
            && r.procs == k.procs && r.status == k.status[id := if ok then InCall else Retired]
            && r.rdv == if ok then Rdv(Some(id), c.inv.arg, None) else k.rdv)
      && (c.Recv? ==>
            var ok := !Invoke(k.procs[id], Invocation(EndpointRecv, c.inv.cptr, c.inv.arg)).Refused?;
            r == k.(status := k.status[id := if ok then InRecv else Retired]))
      && (c.ReplyOn? ==>
            var ok := c.cptr < |s| && s[c.cptr].cap.ty == Reply;
            && r.rdv == (if ok then k.rdv.(reply := Some(c.word)) else k.rdv)
            && r.status == if ok then k.status else k.status[id := Retired])
      && (c.AwaitReply? ==>
            && r.procs == k.procs
            && (k.rdv.reply.None? ==> r == k)
            && (k.rdv.reply.Some? ==> r.status == k.status[id := Running] && r.rdv == Rdv(None, k.rdv.msg, None)))
      && (c.Other? ==>
            var ends := c.inv.op == ProcExit || Invoke(k.procs[id], c.inv).Refused?;
            r == k.(status := k.status[id := if ends then Retired else Running]))
  {
    hide Invoke;
  }

  datatype Event = Event(id: nat, call: Syscall)

  ghost predicate Runs(k: Kernel, es: seq<Event>)
    requires Shaped(k)
    decreases |es|
  {
    es == [] || (Ready(k, es[0].id, es[0].call) && Runs(Step(k, es[0].id, es[0].call), es[1..]))
  }

  ghost function Run(k: Kernel, es: seq<Event>): (r: Kernel)
    requires Shaped(k) && Runs(k, es)
    ensures Shaped(r) && |r.procs| == |k.procs|
    decreases |es|
  {
    if es == [] then k else Run(Step(k, es[0].id, es[0].call), es[1..])
  }

  /** Every run of syscalls, by any number of processes, leaves every slot of a process but its reply slot
      untouched, and that slot as it was or with one Reply in it. */
  lemma {:induction false} RunOnlyReply(k: Kernel, es: seq<Event>, p: nat)
    requires Shaped(k) && Runs(k, es) && p < |k.procs| && NoStrayReply(k.procs[p].slots)
    ensures OnlyReply(k.procs[p], Run(k, es).procs[p])
    decreases |es|
  {
    hide Step;
    hide NoStrayReply;
    hide OnlyReply;
    if es == [] {
      OnlyReplyRefl(k.procs[p]);
    } else {
      var k1 := Step(k, es[0].id, es[0].call);
      StepOnlyReply(k, es[0].id, es[0].call, p);
      RunOnlyReply(k1, es[1..], p);
      OnlyReplyTrans(k.procs[p], k1.procs[p], Run(k1, es[1..]).procs[p]);
    }
  }

  lemma OnlyReplyRefl(a: CS)
    ensures OnlyReply(a, a)
  {
  }

  // ---- loaded, then run ----

  lemma LoadedIsClean(g: LoaderProofs.Given, s: Slots)
    requires LoaderProofs.Exactly(g, s, g.img.h.manCount)
    ensures NoStrayReply(s)
  {
    hide LoaderSpec.EntryOf;
    forall c: nat | Live(s, c)
      ensures !s[c].cap.ty.Reply?
    {
      var k: nat :| k < g.img.h.manCount && LoaderProofs.Dest(g.img, k) == c;
      assert LoaderProofs.Matches(g, LoaderSpec.EntryOf(g.img, k), s[c]);
    }
  }

  /** However long its processes run, a loaded process holds nothing beyond its manifest but, in the
      reply slot, one Reply; and what the manifest put elsewhere is still there. */
  lemma LoadedThenRun(k: Kernel, es: seq<Event>, p: nat, g: LoaderProofs.Given, c: nat)
    requires Shaped(k) && Runs(k, es) && p < |k.procs| && c < |k.procs[p].slots|
    requires LoaderProofs.Exactly(g, k.procs[p].slots, g.img.h.manCount)
    ensures var after := Run(k, es).procs[p].slots; |after| == |k.procs[p].slots|
    ensures var after := Run(k, es).procs[p].slots;
      Live(after, c) ==>
        (exists e: nat ::
        e < g.img.h.manCount && LoaderProofs.Dest(g.img, e) == c
        && LoaderProofs.Matches(g, LoaderSpec.EntryOf(g.img, e), after[c]))
                         || (c == REPLY_SLOT && after[c].cap.ty.Reply?)
    ensures var after := Run(k, es).procs[p].slots;
      forall e: nat :: e < g.img.h.manCount && LoaderProofs.Dest(g.img, e) == c ==>
        LoaderProofs.Matches(g, LoaderSpec.EntryOf(g.img, e), after[c])
  {
    hide Run;
    hide LoaderSpec.EntryOf;
    hide LoaderProofs.NamesObject;
    LoadedIsClean(g, k.procs[p].slots);
    RunOnlyReply(k, es, p);
    var before, after := k.procs[p].slots, Run(k, es).procs[p].slots;
    if after[c] == before[c] {
      if Live(before, c) {
        var e: nat :| e < g.img.h.manCount && LoaderProofs.Dest(g.img, e) == c;
        assert LoaderProofs.Matches(g, LoaderSpec.EntryOf(g.img, e), before[c]);
      }
    } else {
      LoadedHasNoReply(g, before, c);
    }
  }

  lemma LoadedHasNoReply(g: LoaderProofs.Given, s: Slots, c: nat)
    requires LoaderProofs.Exactly(g, s, g.img.h.manCount) && c < |s|
    ensures !s[c].cap.ty.Reply?
    ensures !Live(s, c) ==> forall e: nat :: e < g.img.h.manCount ==> LoaderProofs.Dest(g.img, e) != c
  {
    hide LoaderSpec.EntryOf;
    if Live(s, c) {
      var k: nat :| k < g.img.h.manCount && LoaderProofs.Dest(g.img, k) == c;
      assert LoaderProofs.Matches(g, LoaderSpec.EntryOf(g.img, k), s[c]);
    } else {
      forall e: nat | e < g.img.h.manCount
        ensures LoaderProofs.Dest(g.img, e) != c
      {
        assert LoaderProofs.Matches(g, LoaderSpec.EntryOf(g.img, e), s[LoaderProofs.Dest(g.img, e)]);
      }
    }
  }

  /** No ambient authority, over whole runs: whatever a loaded process invokes that needs a right goes
      through only on a slot its manifest declared, with that type and that right. */
  lemma AuthorityIsDeclared(k: Kernel, es: seq<Event>, p: nat, g: LoaderProofs.Given, inv: Invocation) returns (e: nat)
    requires Shaped(k) && Runs(k, es) && p < |k.procs| && LoaderProofs.Exactly(g, k.procs[p].slots, g.img.h.manCount)
    requires !Invoke(Run(k, es).procs[p], inv).Refused? && Needs(inv.op).Some?
    ensures e < g.img.h.manCount && LoaderProofs.Dest(g.img, e) == inv.cptr
    ensures var m := LoaderSpec.EntryOf(g.img, e);
      LoaderProofs.DeclaredType(m.capType) == Needs(inv.op).value.0
      && LoaderProofs.HasBit(m.rights, Needs(inv.op).value.1)
  {
    hide Run;
    hide LoaderSpec.EntryOf;
    hide LoaderProofs.HasBit;
    hide LoaderProofs.NamesObject;
    hide LoaderProofs.Exactly;
    LoadedIsClean(g, k.procs[p].slots);
    RunOnlyReply(k, es, p);
    NoAmbientAuthority(Run(k, es).procs[p], inv);
    LoadedThenRun(k, es, p, g, inv.cptr);
    var after := Run(k, es).procs[p].slots;
    e :| e < g.img.h.manCount && LoaderProofs.Dest(g.img, e) == inv.cptr
      && LoaderProofs.Matches(g, LoaderSpec.EntryOf(g.img, e), after[inv.cptr]);
  }
}

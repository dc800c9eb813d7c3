/** Exactly which histories conserve CPU time: those in which every revoke and delete has room for what it
    brings home. */
module CSpaceConserved {
  import opened Caps
  import opened CSpaceSpec
  import opened CSpaceInvariant
  import opened CSpaceRevoke
  import opened CSpaceBudget
  import opened CSpaceSystem

  // ---- budgets stay within their field ----

  lemma {:induction false} PlaceObjectsFit(s: Slots, ut: nat, ty: CapType, base: nat, frames: nat, dest: nat,
                                           i: nat, count: nat)
    requires i <= count && dest + count <= |s| && Retypeable(ty) && BudgetsFit(s)
    ensures BudgetsFit(PlaceObjects(s, ut, ty, base, frames, dest, i, count))
    decreases count - i
  {
    if i < count {
      PlaceObjectsFit(s[dest + i := Cte(Object(ty, base, frames, i), To(ut))], ut, ty, base, frames, dest, i + 1,
        count);
    }
  }

  lemma RetypeFits(cs: CS, ut: nat, ty: CapType, frames: nat, count: nat, dest: nat)
    requires BudgetsFit(cs.slots)
    ensures var r := Retype(cs, ut, ty, frames, count, dest); r.Ok? ==> BudgetsFit(r.value.slots)
  {
    if Retype(cs, ut, ty, frames, count, dest).Ok? {
      var u := cs.slots[ut].cap;
      var charged := cs.slots[ut := cs.slots[ut].(cap := u.(watermark := u.watermark + frames * count))];
      PlaceObjectsFit(charged, ut, ty, u.objref + u.watermark, frames, dest, 0, count);
    }
  }

  lemma DerivedFits(cs: CS, src: nat, dest: nat, rights: Rights, badge: nat)
    requires BudgetsFit(cs.slots)
    ensures var r := Mint(cs, src, dest, rights, badge); r.Ok? ==> BudgetsFit(r.value.slots)
    ensures var r := Copy(cs, src, dest); r.Ok? ==> BudgetsFit(r.value.slots)
    ensures var r := Move(cs, src, dest); r.Ok? ==> BudgetsFit(r.value.slots)
  {
  }

  lemma SplitFits(cs: CS, src: nat, dest: nat, amount: nat)
    requires BudgetsFit(cs.slots)
    ensures var r := SplitSched(cs, src, dest, amount); r.Ok? ==> BudgetsFit(r.value.slots)
    ensures var r := Delegate(cs, src, dest, amount); r.Ok? ==> BudgetsFit(r.value.slots)
  {
    if SplitSched(cs, src, dest, amount).Ok? { assert CapacityOf(cs.slots[src]) <= U32_MAX; }
  }

  lemma DestroyFits(cs: CS, d: nat)
    requires Good(cs.slots) && BudgetsFit(cs.slots)
    ensures BudgetsFit(Destroy(cs, d).slots)
  {
    hide Good; hide Destroy; hide BudgetsFit;
    if Live(cs.slots, d) {
      forall i: nat | i < |cs.slots| ensures CapacityOf(Destroy(cs, d).slots[i]) <= U32_MAX {
        BudgetFits(cs.slots, i);
        DestroyBudgets(cs, d, i);
      }
      AllFit(Destroy(cs, d).slots);
    } else {
      DeadStays(cs, d);
    }
  }

  lemma BudgetFits(s: Slots, i: nat)
    requires BudgetsFit(s) && i < |s|
    ensures CapacityOf(s[i]) <= U32_MAX
  {
  }

  lemma AllFit(s: Slots)
    requires forall i: nat :: i < |s| ==> CapacityOf(s[i]) <= U32_MAX
    ensures BudgetsFit(s)
  {
  }

  lemma DeadStays(cs: CS, d: nat)
    requires !Live(cs.slots, d)
    ensures Destroy(cs, d) == cs
  {
  }

  lemma RemovalsFit(cs: CS, c: nat)
    requires Good(cs.slots) && BudgetsFit(cs.slots)
    ensures var r := Revoke(cs, c); r.Ok? ==> BudgetsFit(r.value.slots)
    ensures var r := Delete(cs, c); r.Ok? ==> BudgetsFit(r.value.slots)
    ensures var r := ConsumeReply(cs, c); r.Ok? ==> BudgetsFit(r.value.1.slots)
  {
    hide Good; hide Destroy; hide BudgetsFit; hide RevokeLoop;
    if Live(cs.slots, c) {
      RevokeCapped(cs, c);
      ResetTotal(RevokeLoop(cs, c), c);
      RevokeGood(cs, c);
      DestroyFits(ResetWatermark(RevokeLoop(cs, c), c), c);
      DestroyFits(cs, c);
    }
  }

  lemma PerformFits(cs: CS, op: Op)
    requires Good(cs.slots) && BudgetsFit(cs.slots)
    ensures BudgetsFit(Perform(cs, op).slots)
  {
    hide Good; hide Retype; hide Mint; hide Copy; hide Move; hide SplitSched; hide Delegate; hide Revoke; hide Delete;
    hide ConsumeReply;
    match op
    case RetypeOp(ut, ty, frames, count, dest) => RetypeFits(cs, ut, ty, frames, count, dest);
    case MintOp(src, dest, rights, badge) => DerivedFits(cs, src, dest, rights, badge);
    case CopyOp(src, dest) => DerivedFits(cs, src, dest, {}, 0);
    case MoveOp(src, dest) => DerivedFits(cs, src, dest, {}, 0);
    case SplitOp(src, dest, amount) => SplitFits(cs, src, dest, amount);
    case DelegateOp(src, dest, amount) => SplitFits(cs, src, dest, amount);
    case MintReplyOp(dest, caller, badge) =>
    case ConsumeReplyOp(dest) => RemovalsFit(cs, dest);
    case RevokeOp(c) => RemovalsFit(cs, c);
    case DeleteOp(c) => RemovalsFit(cs, c);
  }

  ghost predicate AllFitting(sys: System) {
    forall i :: 0 <= i < |sys| ==> BudgetsFit(sys[i].slots)
  }

  lemma GrantFits(a: CS, i: nat, b: CS, j: nat, rights: Rights, badge: nat, mode: GrantMode)
    requires BudgetsFit(a.slots) && BudgetsFit(b.slots)
    ensures var r := Grant(a, i, b, j, rights, badge, mode);
      r.Ok? ==> BudgetsFit(r.value.0.slots) && BudgetsFit(r.value.1.slots)
  {
  }

  /** Every event keeps the budgets of all spaces within 32 bits; a booted Sched brings one that fits. */
  lemma StepFits(sys: System, e: Event)
    requires AllGood(sys) && Allowed(sys, e) && AllFitting(sys)
      && (e.Boot? && e.cap.ty.Sched? ==> e.cap.size <= U32_MAX)
    ensures AllFitting(Step(sys, e))
  {
    hide Good; hide Perform; hide Grant;
    match e
    case Local(at, op) => PerformFits(sys[at], op);
    case Boot(_, _, _) =>
    case Transfer(src, i, dst, j, rights, badge, mode) => GrantFits(sys[src], i, sys[dst], j, rights, badge, mode);
  }

  // ---- exactly when capacity is conserved ----

  /** What a revoke or delete brings home has room where it goes. Nothing else can lose capacity. */
  ghost predicate HasRoom(cs: CS, op: Op) {
    match op
    case RevokeOp(c) => Live(cs.slots, c) ==> SubtreeTotal(cs.slots, c, |cs.slots|) <= U32_MAX
    case DeleteOp(c) => Live(cs.slots, c) ==> RoomAbove(cs.slots, c)
    case _ => true
  }

  lemma PerformConservesIff(cs: CS, op: Op)
    requires Good(cs.slots) && BudgetsFit(cs.slots)
    ensures Total(Perform(cs, op).slots) == Total(cs.slots) <==> HasRoom(cs, op)
  {
    hide Total; hide Good; hide RevokeLoop; hide Destroy; hide BudgetsFit; hide SubtreeTotal; hide RoomAbove;
    hide Retype; hide Mint; hide Copy; hide Move; hide SplitSched; hide Delegate; hide MintReply; hide ConsumeReply;
    match op
    case RetypeOp(ut, ty, frames, count, dest) => RetypeTotal(cs, ut, ty, frames, count, dest);
    case MintOp(src, dest, rights, badge) => MintTotal(cs, src, dest, rights, badge);
    case CopyOp(src, dest) => CopyTotal(cs, src, dest);
    case MoveOp(src, dest) => MoveTotal(cs, src, dest);
    case SplitOp(src, dest, amount) => SplitTotal(cs, src, dest, amount);
    case DelegateOp(src, dest, amount) => DelegateTotal(cs, src, dest, amount);
    case MintReplyOp(dest, caller, badge) => MintReplyTotal(cs, dest, caller, badge);
    case ConsumeReplyOp(dest) => ConsumeReplyTotal(cs, dest);
    case RevokeOp(c) =>
      if Live(cs.slots, c) {
        RevokeConservesIff(cs, c);
        ResetTotal(RevokeLoop(cs, c), c);
      }
    case DeleteOp(c) => if Live(cs.slots, c) { DeleteConservesIff(cs, c); }
  }

  /** Every revoke and delete of the history finds room for what it brings home. */
  ghost predicate AlwaysRoom(sys: System, es: seq<Event>)
    requires AllowedRun(sys, es)
    decreases |es|
  {
    es != [] ==> (es[0].Local? ==> HasRoom(sys[es[0].at], es[0].op)) && AlwaysRoom(Step(sys, es[0]), es[1..])
  }

  lemma StepConservesIff(sys: System, e: Event)
    requires AllGood(sys) && AllFitting(sys) && Allowed(sys, e) && !e.Boot?
    ensures SystemTotal(Step(sys, e)) == SystemTotal(sys) <==> (e.Local? ==> HasRoom(sys[e.at], e.op))
  {
    hide Good; hide BudgetsFit; hide Perform; hide Total; hide HasRoom; hide Grant;
    match e
    case Local(at, op) =>
      PerformConservesIff(sys[at], op);
      SystemTotalUpdate(sys, at, Perform(sys[at], op));
    case Transfer(src, i, dst, j, rights, badge, mode) => GrantTotal(sys, src, i, dst, j, rights, badge, mode);
  }

  /** After boot a history conserves the capacity over all spaces exactly when every revoke and delete in it
      finds room, in 32 bits, for what its subtree holds. */
  lemma {:induction false} RunConservesIff(sys: System, es: seq<Event>)
    requires AllGood(sys) && AllFitting(sys) && AllowedRun(sys, es) && NoBoot(es)
    ensures SystemTotal(Run(sys, es)) == SystemTotal(sys) <==> AlwaysRoom(sys, es)
    decreases |es|
  {
    hide Step; hide SystemTotal; hide AllGood; hide AllFitting; hide Allowed; hide HasRoom;
    if es != [] {
      var t := Step(sys, es[0]);
      StepConservesIff(sys, es[0]);
      StepTotal(sys, es[0]);
      StepGood(sys, es[0]);
      StepFits(sys, es[0]);
      RunConservesIff(t, es[1..]);
      CapacityConserved(t, es[1..]);
    }
  }
}

/** Any number of capability spaces under any sequence of operations. */
module CSpaceSystem {
  import opened Caps
  import opened CSpaceSpec
  import opened CSpaceForest
  import opened CSpaceInvariant
  import opened CSpaceRevoke
  import opened CSpaceBudget
  import opened Options

  type System = seq<CS>

  datatype Op =
    | RetypeOp(ut: nat, ty: CapType, frames: nat, count: nat, dest: nat)
    | MintOp(src: nat, dest: nat, rights: Rights, badge: nat)
    | CopyOp(src: nat, dest: nat)
    | MoveOp(src: nat, dest: nat)
    | SplitOp(src: nat, dest: nat, amount: nat)
    | DelegateOp(src: nat, dest: nat, amount: nat)
    | MintReplyOp(dest: nat, caller: nat, badge: nat)
    | ConsumeReplyOp(dest: nat)
    | RevokeOp(c: nat)
    | DeleteOp(c: nat)

  /** One operation in space `at`, a grant between two spaces, or a boot-path installation. */
  datatype Event =
    | Local(at: nat, op: Op)
    | Transfer(src: nat, i: nat, dst: nat, j: nat, rights: Rights, badge: nat, mode: GrantMode)
    | Boot(at: nat, slot: nat, cap: RawCap)

  function OrElse<T>(r: Result<T>, t: T): (u: T) {
    if r.Ok? then r.value else t
  }

  function Perform(cs: CS, op: Op): (r: CS) {
    match op
    case RetypeOp(ut, ty, frames, count, dest) => OrElse(Retype(cs, ut, ty, frames, count, dest), cs)
    case MintOp(src, dest, rights, badge) => OrElse(Mint(cs, src, dest, rights, badge), cs)
    case CopyOp(src, dest) => OrElse(Copy(cs, src, dest), cs)
    case MoveOp(src, dest) => OrElse(Move(cs, src, dest), cs)
    case SplitOp(src, dest, amount) => OrElse(SplitSched(cs, src, dest, amount), cs)
    case DelegateOp(src, dest, amount) => OrElse(Delegate(cs, src, dest, amount), cs)
    case MintReplyOp(dest, caller, badge) => OrElse(MintReply(cs, dest, caller, badge), cs)
    case ConsumeReplyOp(dest) => if ConsumeReply(cs, dest).Ok? then ConsumeReply(cs, dest).value.1 else cs
    case RevokeOp(c) => OrElse(Revoke(cs, c), cs)
    case DeleteOp(c) => OrElse(Delete(cs, c), cs)
  }

  /** The capabilities the boot path installs. */
  ghost predicate Installable(cap: RawCap) {
    || (exists base: nat, frames: nat :: cap == RootUntyped(base, frames))
    || (exists o: nat, budget: nat, period: nat :: cap == RootSched(o, budget, period))
    || (exists id: nat :: cap == RootDomain(id))
    || (exists id: nat, rights: Rights :: cap == RootNotification(id, rights))
    || (exists pfn: nat, frames: nat, va: nat :: cap == RootSharedRo(pfn, frames, va))
    || (exists pfn: nat, frames: nat, rights: Rights :: cap == RootFrame(pfn, frames, rights))
  }

  /** Installers overwrite their slot, so it must be empty; a grant joins two different spaces. */
  ghost predicate Allowed(sys: System, e: Event) {
    match e
    case Local(at, _) => at < |sys|
    case Transfer(src, _, dst, _, _, _, _) => src < |sys| && dst < |sys| && src != dst
    case Boot(at, slot, cap) =>
      && at < |sys| && slot < |sys[at].slots| && !Live(sys[at].slots, slot) && Installable(cap)
      && (cap.ty.Sched? ==> cap.objref == sys[at].nextObj)
  }

  /** An installation; a root Sched takes the next object number. */
  function Installed(cs: CS, slot: nat, cap: RawCap): (r: CS)
    requires slot < |cs.slots|
  {
    Install(cs, slot, cap).(nextObj := if cap.ty.Sched? then cs.nextObj + 1 else cs.nextObj)
  }

  ghost function Step(sys: System, e: Event): (r: System)
    requires Allowed(sys, e)
    ensures |r| == |sys|
  {
    match e
    case Local(at, op) => sys[at := Perform(sys[at], op)]
    case Boot(at, slot, cap) => sys[at := Installed(sys[at], slot, cap)]
    case Transfer(src, i, dst, j, rights, badge, mode) =>
      match Grant(sys[src], i, sys[dst], j, rights, badge, mode)
      case Ok((a, b)) => sys[src := a][dst := b]
      case Err(_) => sys
  }

  ghost predicate AllowedRun(sys: System, es: seq<Event>)
    decreases |es|
  {
    es != [] ==> Allowed(sys, es[0]) && AllowedRun(Step(sys, es[0]), es[1..])
  }

  ghost function Run(sys: System, es: seq<Event>): (r: System)
    requires AllowedRun(sys, es)
    decreases |es|
  {
    if es == [] then sys else Run(Step(sys, es[0]), es[1..])
  }

  ghost predicate AllGood(sys: System) {
    forall i :: 0 <= i < |sys| ==> Good(sys[i].slots)
  }

  lemma EmptyGood(n: nat)
    ensures Good(seq(n, _ => EMPTY))
  {
    var s: Slots := seq(n, _ => EMPTY);
    assert Ranked(s, seq(n, _ => 0));
  }

  lemma PerformGood(cs: CS, op: Op)
    requires Good(cs.slots)
    ensures Good(Perform(cs, op).slots)
  {
    hide Good;
    match op
    case RetypeOp(ut, ty, frames, count, dest) => RetypeGood(cs, ut, ty, frames, count, dest);
    case MintOp(src, dest, rights, badge) => MintGood(cs, src, dest, rights, badge);
    case CopyOp(src, dest) => CopyGood(cs, src, dest);
    case MoveOp(src, dest) => MoveOpGood(cs, src, dest);
    case SplitOp(src, dest, amount) => SplitGood(cs, src, dest, amount);
    case DelegateOp(src, dest, amount) => DelegateGood(cs, src, dest, amount);
    case MintReplyOp(dest, caller, badge) => MintReplyGood(cs, dest, caller, badge);
    case ConsumeReplyOp(dest) => ConsumeReplyGood(cs, dest);
    case RevokeOp(c) => RevokeGood(cs, c);
    case DeleteOp(c) => DeleteGood(cs, c);
  }

  lemma GrantGood(src: CS, i: nat, dst: CS, j: nat, rights: Rights, badge: nat, mode: GrantMode)
    requires Good(src.slots) && Good(dst.slots)
    ensures var r := Grant(src, i, dst, j, rights, badge, mode);
      r.Ok? ==> Good(r.value.0.slots) && Good(r.value.1.slots)
  {
    if Grant(src, i, dst, j, rights, badge, mode).Ok? {
      PlaceGood(dst.slots, j, src.slots[i].cap.(rights := rights, badge := badge), Nil);
      if mode.MoveGrant? { RemoveGood(src.slots, i); }
    }
  }

  lemma StepGood(sys: System, e: Event)
    requires AllGood(sys) && Allowed(sys, e)
    ensures AllGood(Step(sys, e))
  {
    match e
    case Local(at, op) => PerformGood(sys[at], op);
    case Boot(at, slot, cap) => PlaceGood(sys[at].slots, slot, cap, Nil);
    case Transfer(src, i, dst, j, rights, badge, mode) => GrantGood(sys[src], i, sys[dst], j, rights, badge, mode);
  }

  /** Every reachable system of spaces is good: derivation forests with every edge in order. */
  lemma {:induction false} RunGood(sys: System, es: seq<Event>)
    requires AllGood(sys) && AllowedRun(sys, es)
    ensures AllGood(Run(sys, es))
    decreases |es|
  {
    if es != [] {
      StepGood(sys, es[0]);
      RunGood(Step(sys, es[0]), es[1..]);
    }
  }

  // ---- CPU time over the whole system ----

  function SystemTotal(sys: System): (n: nat) {
    if sys == [] then 0 else SystemTotal(sys[..|sys| - 1]) + Total(sys[|sys| - 1].slots)
  }

  lemma {:induction false} SystemTotalUpdate(sys: System, i: nat, cs: CS)
    requires i < |sys|
    ensures SystemTotal(sys[i := cs]) == SystemTotal(sys) - Total(sys[i].slots) + Total(cs.slots)
    ensures Total(sys[i].slots) <= SystemTotal(sys)
  {
    var t := sys[i := cs];
    if i == |sys| - 1 {
      assert t[..|sys| - 1] == sys[..|sys| - 1];
    } else {
      SystemTotalUpdate(sys[..|sys| - 1], i, cs);
      assert t[..|sys| - 1] == sys[..|sys| - 1][i := cs];
    }
  }

  /** While the total fits 32 bits, deleting a Sched that is a derivation root is the one way to lose capacity. */
  predicate DropsRoot(cs: CS, op: Op) {
    op.DeleteOp? && Live(cs.slots, op.c) && cs.slots[op.c].cap.ty.Sched? && cs.slots[op.c].parent.Nil?
  }

  lemma DeleteTotal(cs: CS, c: nat)
    requires Good(cs.slots) && Live(cs.slots, c)
    ensures Total(Delete(cs, c).value.slots) <= Total(cs.slots)
    ensures Total(cs.slots) <= U32_MAX && (cs.slots[c].cap.ty.Sched? ==> cs.slots[c].parent.To?)
      ==> Total(Delete(cs, c).value.slots) == Total(cs.slots)
  {
    hide RevokeLoop;
    RevokeTotal(cs, c);
    RevokeGood(cs, c);
    RevokedStaysLive(cs, c);
    var a, b := RevokeLoop(cs, c), Revoke(cs, c).value;
    TotalUpdate(a.slots, c, b.slots[c]);
    assert b.slots == a.slots[c := b.slots[c]];
    DestroyTotal(b, c);
  }

  lemma RevokeOpTotal(cs: CS, c: nat)
    requires Good(cs.slots)
    ensures var r := Revoke(cs, c); r.Ok? ==>
      && Total(r.value.slots) <= Total(cs.slots)
      && (Total(cs.slots) <= U32_MAX ==> Total(r.value.slots) == Total(cs.slots))
  {
    hide RevokeLoop;
    if Revoke(cs, c).Ok? {
      RevokeTotal(cs, c);
      var a, b := RevokeLoop(cs, c), Revoke(cs, c).value;
      TotalUpdate(a.slots, c, b.slots[c]);
      assert b.slots == a.slots[c := b.slots[c]];
    }
  }

  lemma ConsumeReplyTotal(cs: CS, dest: nat)
    requires Good(cs.slots)
    ensures var r := ConsumeReply(cs, dest); r.Ok? ==> Total(r.value.1.slots) == Total(cs.slots)
  {
    if ConsumeReply(cs, dest).Ok? {
      TotalUpdate(cs.slots, dest, EMPTY);
      DestroyTotal(cs, dest);
    }
  }

  lemma PerformTotal(cs: CS, op: Op)
    requires Good(cs.slots)
    ensures Total(Perform(cs, op).slots) <= Total(cs.slots)
    ensures Total(cs.slots) <= U32_MAX && !DropsRoot(cs, op) ==> Total(Perform(cs, op).slots) == Total(cs.slots)
  {
    hide Total;
    hide Good;
    hide RevokeLoop;
    hide Destroy;
    match op
    case RetypeOp(ut, ty, frames, count, dest) => RetypeTotal(cs, ut, ty, frames, count, dest);
    case MintOp(src, dest, rights, badge) => MintTotal(cs, src, dest, rights, badge);
    case CopyOp(src, dest) => CopyTotal(cs, src, dest);
    case MoveOp(src, dest) => MoveTotal(cs, src, dest);
    case SplitOp(src, dest, amount) => SplitTotal(cs, src, dest, amount);
    case DelegateOp(src, dest, amount) => DelegateTotal(cs, src, dest, amount);
    case MintReplyOp(dest, caller, badge) => MintReplyTotal(cs, dest, caller, badge);
    case ConsumeReplyOp(dest) => ConsumeReplyTotal(cs, dest);
    case RevokeOp(c) => RevokeOpTotal(cs, c);
    case DeleteOp(c) => if Delete(cs, c).Ok? { DeleteTotal(cs, c); }
  }

  lemma GrantSlotTotals(src: CS, i: nat, dst: CS, j: nat, rights: Rights, badge: nat, mode: GrantMode)
    ensures var g := Grant(src, i, dst, j, rights, badge, mode);
      g.Ok? ==> Total(g.value.0.slots) + Total(g.value.1.slots) == Total(src.slots) + Total(dst.slots)
  {
    var g := Grant(src, i, dst, j, rights, badge, mode);
    if g.Ok? {
      TotalUpdate(dst.slots, j, g.value.1.slots[j]);
      TotalUpdate(src.slots, i, EMPTY);
    }
  }

  /** A grant moves capacity between spaces and never copies it. */
  lemma GrantTotal(sys: System, src: nat, i: nat, dst: nat, j: nat, rights: Rights, badge: nat, mode: GrantMode)
    requires src < |sys| && dst < |sys| && src != dst
    ensures SystemTotal(Step(sys, Transfer(src, i, dst, j, rights, badge, mode))) == SystemTotal(sys)
  {
    hide Grant;
    hide Total;
    var g := Grant(sys[src], i, sys[dst], j, rights, badge, mode);
    if g.Ok? {
      GrantSlotTotals(sys[src], i, sys[dst], j, rights, badge, mode);
      SystemTotalUpdate(sys, src, g.value.0);
      SystemTotalUpdate(sys[src := g.value.0], dst, g.value.1);
    }
  }

  ghost predicate NoBoot(es: seq<Event>) {
    forall i :: 0 <= i < |es| ==> !es[i].Boot?
  }

  ghost predicate NoRootDropped(sys: System, es: seq<Event>)
    requires AllowedRun(sys, es)
    decreases |es|
  {
    es != [] ==>
      && (es[0].Local? ==> !DropsRoot(sys[es[0].at], es[0].op))
      && NoRootDropped(Step(sys, es[0]), es[1..])
  }

  lemma StepTotal(sys: System, e: Event)
    requires AllGood(sys) && Allowed(sys, e) && !e.Boot?
    ensures SystemTotal(Step(sys, e)) <= SystemTotal(sys)
    ensures SystemTotal(sys) <= U32_MAX && (e.Local? ==> !DropsRoot(sys[e.at], e.op)) ==>
      SystemTotal(Step(sys, e)) == SystemTotal(sys)
  {
    match e
    case Local(at, op) =>
      PerformTotal(sys[at], op);
      SystemTotalUpdate(sys, at, Perform(sys[at], op));
    case Transfer(src, i, dst, j, rights, badge, mode) => GrantTotal(sys, src, i, dst, j, rights, badge, mode);
  }

  /** After boot the capacity over all spaces never grows; while it fits 32 bits it is conserved
      by every history that deletes no Sched root. */
  lemma {:induction false} CapacityConserved(sys: System, es: seq<Event>)
    requires AllGood(sys) && AllowedRun(sys, es) && NoBoot(es)
    ensures SystemTotal(Run(sys, es)) <= SystemTotal(sys)
    ensures SystemTotal(sys) <= U32_MAX && NoRootDropped(sys, es) ==> SystemTotal(Run(sys, es)) == SystemTotal(sys)
    decreases |es|
  {
    hide Step;
    hide SystemTotal;
    hide AllGood;
    hide Allowed;
    hide DropsRoot;
    if es != [] {
      StepTotal(sys, es[0]);
      StepGood(sys, es[0]);
      CapacityConserved(Step(sys, es[0]), es[1..]);
    }
  }

  // ---- where the saturating credit loses capacity ----

  const THREE_EMPTY: CS := CS([EMPTY, EMPTY, EMPTY], 1, [])

  /** A full root Sched gives one unit to a child, and a second root refills it. */
  const SATURATING: seq<Event> :=
    [Boot(0, 0, RootSched(1, U32_MAX, 1)), Local(0, SplitOp(0, 1, 1)), Boot(0, 2, RootSched(3, 1, 1)),
      Local(0, DelegateOp(2, 0, 1))]

  /** The state that history reaches: the refilled parent, its child of one unit, and the drained root. */
  function Saturated(): (cs: CS) {
    CS([Cte(RootSched(1, U32_MAX, 1), Nil), Cte(RootSched(2, 1, 1), To(0)), Cte(RootSched(3, 0, 1), Nil)], 4, [])
  }

  lemma OneStep(a: CS, e: Event, b: CS)
    requires Allowed([a], e) && (e.Local? || e.Boot?)
    requires b == if e.Local? then Perform(a, e.op) else Installed(a, e.slot, e.cap)
    ensures Step([a], e) == [b]
  {
  }

  lemma {:induction false} RunCons(a: System, e: Event, es: seq<Event>)
    requires Allowed(a, e) && AllowedRun(Step(a, e), es)
    ensures AllowedRun(a, [e] + es) && Run(a, [e] + es) == Run(Step(a, e), es)
  {
    assert ([e] + es)[1..] == es;
  }

  lemma SaturatingRun()
    ensures AllowedRun([THREE_EMPTY], SATURATING) && Run([THREE_EMPTY], SATURATING) == [Saturated()]
  {
    var e := SATURATING;
    var full, less, child, drained := RootSched(1, U32_MAX, 1), RootSched(1, U32_MAX - 1, 1), RootSched(2, 1, 1),
      RootSched(3, 1, 1);
    var s1 := CS([Cte(full, Nil), EMPTY, EMPTY], 2, []);
    var s2 := CS([Cte(less, Nil), Cte(child, To(0)), EMPTY], 3, []);
    var s3 := CS([Cte(less, Nil), Cte(child, To(0)), Cte(drained, Nil)], 4, []);
    assert Installed(THREE_EMPTY, 0, full).slots == s1.slots;
    assert SplitSched(s1, 0, 1, 1).value.slots == s2.slots;
    assert Installed(s2, 2, drained).slots == s3.slots;
    assert Delegate(s3, 2, 0, 1).value.slots == Saturated().slots;
    OneStep(THREE_EMPTY, e[0], s1);
    OneStep(s1, e[1], s2);
    OneStep(s2, e[2], s3);
    OneStep(s3, e[3], Saturated());
    RunCons([s3], e[3], []);
    RunCons([s2], e[2], [e[3]] + []);
    RunCons([s1], e[1], [e[2]] + ([e[3]] + []));
    RunCons([THREE_EMPTY], e[0], [e[1]] + ([e[2]] + ([e[3]] + [])));
    assert SATURATING == [e[0]] + ([e[1]] + ([e[2]] + ([e[3]] + [])));
  }

  lemma NoLeafToRevoke()
    ensures FirstLeaf(Saturated().slots, 1, 0).None?
  {
    var s := Saturated().slots;
    assert !RevokableLeaf(s, 1, 0) && !RevokableLeaf(s, 1, 1) && !RevokableLeaf(s, 1, 2);
    hide RevokableLeaf;
    assert FirstLeaf(s, 1, 3).None?;
    assert FirstLeaf(s, 1, 2).None?;
    assert FirstLeaf(s, 1, 1).None?;
  }

  /** A history from an empty space in which deleting a Sched that is no root loses the unit it held. */
  lemma SaturationLosesCapacity()
    ensures AllowedRun([THREE_EMPTY], SATURATING) && |Run([THREE_EMPTY], SATURATING)| == 1
    ensures var cs := Run([THREE_EMPTY], SATURATING)[0];
      && !DropsRoot(cs, DeleteOp(1)) && Delete(cs, 1).Ok?
      && Total(cs.slots) == U32_MAX + 1 && Total(Delete(cs, 1).value.slots) == U32_MAX
  {
    SaturatingRun();
    NoLeafToRevoke();
    var cs := Saturated();
    TotalOfThree(cs.slots[0], cs.slots[1], cs.slots[2]);
    TotalOfThree(cs.slots[0], EMPTY, cs.slots[2]);
    assert RevokeLoop(cs, 1) == cs;
    assert Delete(cs, 1).value.slots == [cs.slots[0], EMPTY, cs.slots[2]];
  }

  const FOUR_EMPTY: CS := CS([EMPTY, EMPTY, EMPTY, EMPTY], 1, [])

  /** A full root Sched gives one unit to each of two children, and a second root gives it one back. */
  const CROWDING: seq<Event> :=
    [Boot(0, 0, RootSched(1, U32_MAX, 1)), Local(0, SplitOp(0, 1, 1)), Local(0, SplitOp(0, 2, 1)),
     Boot(0, 3, RootSched(4, 1, 1)), Local(0, DelegateOp(3, 0, 1))]

  /** The state that history reaches: a parent with room for either child, but not for both. */
  function Crowded(): (cs: CS) {
    CS([Cte(RootSched(1, U32_MAX - 1, 1), Nil), Cte(RootSched(2, 1, 1), To(0)), Cte(RootSched(3, 1, 1), To(0)),
        Cte(RootSched(4, 0, 1), Nil)], 5, [])
  }

  lemma CrowdingRun()
    ensures AllowedRun([FOUR_EMPTY], CROWDING) && Run([FOUR_EMPTY], CROWDING) == [Crowded()]
  {
    var e, c := CROWDING, Crowded().slots;
    var root := (n: nat) => Cte(RootSched(1, n, 1), Nil);
    var second := Cte(RootSched(4, 1, 1), Nil);
    var s1 := CS([root(U32_MAX), EMPTY, EMPTY, EMPTY], 2, []);
    var s2 := CS([root(U32_MAX - 1), c[1], EMPTY, EMPTY], 3, []);
    var s3 := CS([root(U32_MAX - 2), c[1], c[2], EMPTY], 4, []);
    var s4 := CS([root(U32_MAX - 2), c[1], c[2], second], 5, []);
    assert Installed(FOUR_EMPTY, 0, e[0].cap).slots == s1.slots;
    assert SplitSched(s1, 0, 1, 1).value.slots == s2.slots;
    assert SplitSched(s2, 0, 2, 1).value.slots == s3.slots;
    assert Installed(s3, 3, e[3].cap).slots == s4.slots;
    assert Delegate(s4, 3, 0, 1).value.slots == c;
    OneStep(FOUR_EMPTY, e[0], s1);
    OneStep(s1, e[1], s2);
    OneStep(s2, e[2], s3);
    OneStep(s3, e[3], s4);
    OneStep(s4, e[4], Crowded());
    RunCons([s4], e[4], []);
    RunCons([s3], e[3], [e[4]] + []);
    RunCons([s2], e[2], [e[3]] + ([e[4]] + []));
    RunCons([s1], e[1], [e[2]] + ([e[3]] + ([e[4]] + [])));
    RunCons([FOUR_EMPTY], e[0], [e[1]] + ([e[2]] + ([e[3]] + ([e[4]] + []))));
    assert CROWDING == [e[0]] + ([e[1]] + ([e[2]] + ([e[3]] + ([e[4]] + []))));
  }

  lemma CrowdedSubtree()
    ensures SubtreeTotal(Crowded().slots, 0, 4) == U32_MAX + 1
  {
    var s := Crowded().slots;
    ChildDescends(s, 1, 0, 0);
    ChildDescends(s, 2, 0, 0);
    if Descends(s, 3, 0) { DescendsParent(s, 3, 0); }
    hide Descends;
    assert SubtreeTotal(s, 0, 1) == U32_MAX - 1;
    assert SubtreeTotal(s, 0, 2) == U32_MAX;
    assert SubtreeTotal(s, 0, 3) == U32_MAX + 1;
  }

  /** A history from an empty space after which a Sched has room for each of its two children, and yet revoking
      it loses capacity: what counts is the subtree, not the slots one by one. */
  lemma RevokeLosesCapacity()
    ensures AllowedRun([FOUR_EMPTY], CROWDING) && Run([FOUR_EMPTY], CROWDING) == [Crowded()]
    ensures var cs := Crowded();
      && (forall d :: 0 < d < 3 ==>
            cs.slots[d].parent == To(0) && cs.slots[0].cap.size + cs.slots[d].cap.size <= U32_MAX)
      && Revoke(cs, 0).Ok? && Total(Revoke(cs, 0).value.slots) < Total(cs.slots)
  {
    hide RevokeLoop; hide SubtreeTotal; hide Total;
    var cs := Crowded();
    CrowdingRun();
    EmptyGood(4);
    assert FOUR_EMPTY.slots == seq(4, _ => EMPTY);
    RunGood([FOUR_EMPTY], CROWDING);
    assert Good([cs][0].slots);
    CrowdedSubtree();
    RevokeConservesIff(cs, 0);
    RevokeTotal(cs, 0);
    ResetTotal(RevokeLoop(cs, 0), 0);
  }

  // ---- rights ----

  /** No capability of type `ty` to an object in `objects` carries a right outside `bound`. */
  ghost predicate Bounded(s: Slots, ty: CapType, objects: iset<nat>, bound: Rights) {
    forall i: nat :: i < |s| && s[i].cap.ty == ty && s[i].cap.objref in objects ==> s[i].cap.rights <= bound
  }

  /** A bound that new objects meet: retyped ones start with their type's rights, and a split gives the
      parent's rights to an object with a new number. */
  ghost predicate BoundFits(ty: CapType, objects: iset<nat>, bound: Rights) {
    && (Retypeable(ty) ==> DefaultRights(ty) <= bound)
    && (ty.Sched? ==> forall n: nat :: n in objects)
  }

  ghost predicate AllBounded(sys: System, ty: CapType, objects: iset<nat>, bound: Rights) {
    forall i :: 0 <= i < |sys| ==> Bounded(sys[i].slots, ty, objects, bound)
  }

  lemma {:induction false} PlaceObjectsBounded(s: Slots, ut: nat, t: CapType, base: nat, frames: nat, dest: nat,
                                               i: nat, count: nat, ty: CapType, objects: iset<nat>, bound: Rights)
    requires i <= count && dest + count <= |s| && Bounded(s, ty, objects, bound)
    requires (t == ty ==> DefaultRights(ty) <= bound)
    ensures Bounded(PlaceObjects(s, ut, t, base, frames, dest, i, count), ty, objects, bound)
    decreases count - i
  {
    if i < count {
      PlaceObjectsBounded(s[dest + i := Cte(Object(t, base, frames, i), To(ut))], ut, t, base, frames, dest, i + 1,
        count, ty, objects, bound);
    }
  }

  lemma {:induction false} RevokeLoopBounded(cs: CS, c: nat, ty: CapType, objects: iset<nat>, bound: Rights)
    requires Bounded(cs.slots, ty, objects, bound)
    ensures Bounded(RevokeLoop(cs, c).slots, ty, objects, bound)
    decreases CountLive(cs.slots)
  {
    match FirstLeaf(cs.slots, c, 0)
    case None =>
    case Some(d) =>
      DestroyCounts(cs, d);
      RevokeLoopBounded(Destroy(cs, d), c, ty, objects, bound);
  }

  lemma RetypeBounded(cs: CS, ut: nat, t: CapType, frames: nat, count: nat, dest: nat, ty: CapType,
                      objects: iset<nat>, bound: Rights)
    requires Bounded(cs.slots, ty, objects, bound) && BoundFits(ty, objects, bound)
    ensures var r := Retype(cs, ut, t, frames, count, dest); r.Ok? ==> Bounded(r.value.slots, ty, objects, bound)
  {
    if Retype(cs, ut, t, frames, count, dest).Ok? {
      var u := cs.slots[ut].cap;
      var charged := cs.slots[ut := cs.slots[ut].(cap := u.(watermark := u.watermark + frames * count))];
      PlaceObjectsBounded(charged, ut, t, u.objref + u.watermark, frames, dest, 0, count, ty, objects, bound);
    }
  }

  lemma DerivedBounded(cs: CS, src: nat, dest: nat, rights: Rights, badge: nat, ty: CapType, objects: iset<nat>,
                       bound: Rights)
    requires Bounded(cs.slots, ty, objects, bound)
    ensures var r := Mint(cs, src, dest, rights, badge); r.Ok? ==> Bounded(r.value.slots, ty, objects, bound)
    ensures var r := Copy(cs, src, dest); r.Ok? ==> Bounded(r.value.slots, ty, objects, bound)
  {
  }

  lemma MovedBounded(cs: CS, src: nat, dest: nat, ty: CapType, objects: iset<nat>, bound: Rights)
    requires Bounded(cs.slots, ty, objects, bound)
    ensures var r := Move(cs, src, dest); r.Ok? ==> Bounded(r.value.slots, ty, objects, bound)
  {
  }

  lemma SplitBounded(cs: CS, src: nat, dest: nat, amount: nat, ty: CapType, objects: iset<nat>, bound: Rights)
    requires Bounded(cs.slots, ty, objects, bound) && BoundFits(ty, objects, bound)
    ensures var r := SplitSched(cs, src, dest, amount); r.Ok? ==> Bounded(r.value.slots, ty, objects, bound)
    ensures var r := Delegate(cs, src, dest, amount); r.Ok? ==> Bounded(r.value.slots, ty, objects, bound)
  {
  }

  lemma PerformBounded(cs: CS, op: Op, ty: CapType, objects: iset<nat>, bound: Rights)
    requires Bounded(cs.slots, ty, objects, bound) && BoundFits(ty, objects, bound)
    ensures Bounded(Perform(cs, op).slots, ty, objects, bound)
  {
    hide Retype;
    hide Move;
    hide SplitSched;
    hide Delegate;
    hide Mint;
    hide Copy;
    match op
    case RetypeOp(ut, t, frames, count, dest) => RetypeBounded(cs, ut, t, frames, count, dest, ty, objects, bound);
    case MintOp(src, dest, rights, badge) => DerivedBounded(cs, src, dest, rights, badge, ty, objects, bound);
    case CopyOp(src, dest) => DerivedBounded(cs, src, dest, {}, 0, ty, objects, bound);
    case MoveOp(src, dest) => MovedBounded(cs, src, dest, ty, objects, bound);
    case SplitOp(src, dest, amount) => SplitBounded(cs, src, dest, amount, ty, objects, bound);
    case DelegateOp(src, dest, amount) => SplitBounded(cs, src, dest, amount, ty, objects, bound);
    case MintReplyOp(_, _, _) =>
    case ConsumeReplyOp(_) =>
    case RevokeOp(c) => RevokeLoopBounded(cs, c, ty, objects, bound);
    case DeleteOp(c) => RevokeLoopBounded(cs, c, ty, objects, bound);
  }

  /** An installation that would itself hand out a wider right to one of the objects. */
  ghost predicate Widens(e: Event, ty: CapType, objects: iset<nat>, bound: Rights) {
    e.Boot? && e.cap.ty == ty && e.cap.objref in objects && !(e.cap.rights <= bound)
  }

  lemma GrantBounded(a: CS, i: nat, b: CS, j: nat, rights: Rights, badge: nat, mode: GrantMode, ty: CapType,
                     objects: iset<nat>, bound: Rights)
    requires Bounded(a.slots, ty, objects, bound) && Bounded(b.slots, ty, objects, bound)
    ensures var r := Grant(a, i, b, j, rights, badge, mode);
      r.Ok? ==> Bounded(r.value.0.slots, ty, objects, bound) && Bounded(r.value.1.slots, ty, objects, bound)
  {
  }

  lemma StepBounded(sys: System, e: Event, ty: CapType, objects: iset<nat>, bound: Rights)
    requires Allowed(sys, e) && AllBounded(sys, ty, objects, bound) && BoundFits(ty, objects, bound)
    requires !Widens(e, ty, objects, bound)
    ensures AllBounded(Step(sys, e), ty, objects, bound)
  {
    hide Perform;
    hide Grant;
    match e {
      case Local(at, op) => PerformBounded(sys[at], op, ty, objects, bound);
      case Boot(at, slot, cap) =>
      case Transfer(src, i, dst, j, rights, badge, mode) =>
        GrantBounded(sys[src], i, sys[dst], j, rights, badge, mode, ty, objects, bound);
    }
  }

  /** Rights never widen: across retypes, mints, copies, moves and grants over any number of
      spaces, no capability to the objects ever exceeds the bound the type starts with. */
  lemma {:induction false} RightsNeverWiden(sys: System, es: seq<Event>, ty: CapType, objects: iset<nat>, bound: Rights)
    requires AllowedRun(sys, es) && AllBounded(sys, ty, objects, bound) && BoundFits(ty, objects, bound)
    requires forall i :: 0 <= i < |es| ==> !Widens(es[i], ty, objects, bound)
    ensures AllBounded(Run(sys, es), ty, objects, bound)
    decreases |es|
  {
    if es != [] {
      StepBounded(sys, es[0], ty, objects, bound) by { assert !Widens(es[0], ty, objects, bound); }
      hide AllBounded;
      hide Step;
      assert forall i :: 0 <= i < |es[1..]| ==> !Widens(es[1..][i], ty, objects, bound);
      RightsNeverWiden(Step(sys, es[0]), es[1..], ty, objects, bound);
    }
  }

  /** In particular no Frame that was only ever retyped becomes executable. */
  lemma RetypedFramesNeverExecutable(sys: System, es: seq<Event>, objects: iset<nat>)
    requires AllowedRun(sys, es) && AllBounded(sys, Frame, objects, DefaultRights(Frame))
    requires forall i :: 0 <= i < |es| ==> !(es[i].Boot? && es[i].cap.ty.Frame? && es[i].cap.objref in objects)
    ensures forall i: nat, k: nat :: i < |Run(sys, es)| && k < |Run(sys, es)[i].slots| ==>
      var cap := Run(sys, es)[i].slots[k].cap; cap.ty.Frame? && cap.objref in objects ==> EXECUTE !in cap.rights
  {
    RightsNeverWiden(sys, es, Frame, objects, DefaultRights(Frame));
  }
}

/** What each capability operation does, field by field: when it goes through, what lands where, and that
    nothing else changes. */
module CSpaceEffects {
  import opened Caps
  import opened CSpaceSpec
  import opened CSpaceForest
  import opened CSpaceInvariant
  import opened CSpaceRevoke
  import opened CSpaceBudget

  /** Slots alike but for the one at `i`, which holds `e`. */
  ghost predicate OnlyAt(before: Slots, after: Slots, i: nat, e: Cte) {
    && |after| == |before| && i < |after| && after[i] == e
    && forall k: nat :: k < |before| && k != i ==> after[k] == before[k]
  }

  ghost predicate Vacant(s: Slots, i: nat) {
    i < |s| && s[i].cap.ty == Null
  }

  /** The types with per-capability state or a single use. */
  const SOLE: set<CapType> := {Untyped, Sched, Reply, Domain, SharedRo}

  // ---- deriving ----

  /** The capability may be derived from with these rights. */
  ghost predicate MayDerive(s: Slots, src: nat, rights: Rights) {
    && src < |s| && s[src].cap.ty != Null && s[src].cap.ty !in SOLE
    && DERIVE in s[src].cap.rights && rights <= s[src].cap.rights
  }

  /** A mint goes through exactly when the source may be derived from and the slot is vacant. It then places the
      source's object there with exactly the rights and the badge asked for, as a child of the source. */
  lemma MintLands(cs: CS, src: nat, dest: nat, rights: Rights, badge: nat)
    ensures var s, r := cs.slots, Mint(cs, src, dest, rights, badge);
      && (r.Ok? <==> MayDerive(s, src, rights) && Vacant(s, dest))
      && (r.Ok? ==>
            && r.value.nextObj == cs.nextObj && r.value.zeroed == cs.zeroed
            && var c := s[src].cap;
            OnlyAt(s, r.value.slots, dest,
              Cte(RawCap(c.ty, rights, c.objref, c.size, c.watermark, c.aux, badge), To(src))))
      && (r.Err? ==> r.error == Refusal(s, src, MayDerive(s, src, rights), dest))
  {
  }

  /** Why a derivation is refused: what is wrong with the source comes before what is wrong with the slot. */
  ghost function Refusal(s: Slots, src: nat, may: bool, dest: nat): (e: CapError) {
    if src >= |s| then OutOfBounds
    else if s[src].cap.ty == Null then EmptySlot
    else if !may then InsufficientRights
    else if dest >= |s| then OutOfBounds
    else SlotOccupied
  }

  /** Why a retype is refused: the Untyped first, then the type, then the amount, then the slots. */
  ghost function RetypeRefusal(s: Slots, ut: nat, ty: CapType, frames: nat, count: nat, dest: nat): (e: CapError) {
    if ut >= |s| then OutOfBounds
    else if s[ut].cap.ty == Null then EmptySlot
    else if s[ut].cap.ty != Untyped then WrongType
    else if RETYPE !in s[ut].cap.rights then InsufficientRights
    else if ty in SOLE || ty == Null || ty == IrqControl then WrongType
    else if !MayRetype(s, ut, ty, frames, count) then OutOfBudget
    else if dest + count > |s| then OutOfBounds
    else SlotOccupied
  }

  /** Why a split is refused. */
  ghost function SplitRefusal(s: Slots, src: nat, dest: nat, amount: nat): (e: CapError) {
    if src >= |s| then OutOfBounds
    else if s[src].cap.ty == Null then EmptySlot
    else if s[src].cap.ty != Sched then WrongType
    else if DERIVE !in s[src].cap.rights then InsufficientRights
    else if amount == 0 || s[src].cap.watermark + amount > s[src].cap.size then OutOfBudget
    else if dest >= |s| then OutOfBounds
    else SlotOccupied
  }

  /** A copy has the source's capability as it is, rights and badge included, beside the source if that was
      derived, below it if it is a root. */
  lemma CopyLands(cs: CS, src: nat, dest: nat)
    ensures var s, r := cs.slots, Copy(cs, src, dest);
      && (r.Ok? <==> MayDerive(s, src, {}) && Vacant(s, dest))
      && (r.Ok? ==>
            && r.value.nextObj == cs.nextObj && r.value.zeroed == cs.zeroed
            && OnlyAt(s, r.value.slots, dest, Cte(s[src].cap, if s[src].parent == Nil then To(src) else s[src].parent)))
      && (r.Err? ==> r.error == Refusal(s, src, MayDerive(s, src, {}), dest))
  {
  }

  /** A move takes the capability, its place in the derivation tree and its children to the new slot and leaves
      the old one empty. */
  lemma MoveLands(cs: CS, src: nat, dest: nat)
    requires Good(cs.slots)
    ensures var s, r := cs.slots, Move(cs, src, dest);
      && (r.Ok? <==> Live(s, src) && (dest == src || Vacant(s, dest)))
      && (r.Ok? && dest == src ==> r.value == cs)
      && (r.Ok? && dest != src ==>
            && r.value.nextObj == cs.nextObj && r.value.zeroed == cs.zeroed && |r.value.slots| == |s|
            && r.value.slots[dest] == s[src] && r.value.slots[src] == Cte(RawCap(Null, {}, 0, 0, 0, 0, 0), Nil)
            && forall k: nat :: k < |s| && k != src && k != dest ==>
                 && r.value.slots[k].cap == s[k].cap
                 && r.value.slots[k].parent == if s[k].parent == To(src) then To(dest) else s[k].parent)
      && (r.Err? ==> r.error == Refusal(s, src, true, dest))
  {
    if Live(cs.slots, src) { NotOwnChild(cs.slots, src); }
  }

  // ---- retype ----

  lemma {:induction false} PlacedAt(s: Slots, ut: nat, ty: CapType, base: nat, frames: nat, dest: nat, i: nat,
                                    count: nat, k: nat)
    requires i <= count && dest + count <= |s| && k < |s|
    ensures PlaceObjects(s, ut, ty, base, frames, dest, i, count)[k] ==
      if dest + i <= k < dest + count then Cte(Object(ty, base, frames, k - dest), To(ut)) else s[k]
    decreases count - i
  {
    if i < count {
      PlacedAt(s[dest + i := Cte(Object(ty, base, frames, i), To(ut))], ut, ty, base, frames, dest, i + 1, count, k);
    }
  }

  lemma {:induction false} ZeroedAt(ty: CapType, base: nat, frames: nat, i: nat, count: nat, k: nat)
    requires i <= k < count
    ensures var z := ZeroObjects(ty, base, frames, i, count);
      |z| == count - i && z[k - i] == ZeroCall(ty, base + k * frames, frames)
    decreases count - i
  {
    if i < k {
      ZeroedAt(ty, base, frames, i + 1, count, k);
    } else if i + 1 < count {
      ZeroedAt(ty, base, frames, i + 1, count, i + 1);
    }
  }

  /** The rights an object of each type starts with: a frame can be read, written, mapped, granted and derived
      from, and never executed. */
  ghost predicate StartingRights(ty: CapType, rights: Rights) {
    && (ty == Frame ==> rights == {READ, WRITE, MAP, GRANT, DERIVE})
    && (ty == CNode ==> rights == {DERIVE, GRANT})
    && (ty == Endpoint ==> rights == {SEND, RECV, GRANT, DERIVE})
    && (ty == Notification ==> rights == {SIGNAL, RECV, DERIVE})
    && (ty !in {Untyped, Frame, CNode, Endpoint, Notification} ==> rights == {DERIVE})
  }

  /** A retype of `count` objects of `frames` frames each is in order: the Untyped has the right and that much left. */
  ghost predicate MayRetype(s: Slots, ut: nat, ty: CapType, frames: nat, count: nat) {
    && ut < |s| && s[ut].cap.ty == Untyped && RETYPE in s[ut].cap.rights
    && ty !in SOLE && ty != Null && ty != IrqControl
    && 0 < frames * count <= U32_MAX && s[ut].cap.watermark + frames * count <= s[ut].cap.size
  }

  ghost predicate AllVacant(s: Slots, lo: nat, n: nat) {
    lo + n <= |s| && forall k: nat :: lo <= k < lo + n ==> s[k].cap.ty == Null
  }

  /** The `j`th object of a retype: the next frames of the Untyped, with the rights its type starts with. */
  ghost predicate IsObject(e: Cte, u: RawCap, ut: nat, ty: CapType, frames: nat, j: nat) {
    && e.cap.ty == ty && StartingRights(ty, e.cap.rights) && e.parent == To(ut)
    && e.cap.objref == u.objref + u.watermark + j * frames && e.cap.size == frames
    && e.cap.watermark == 0 && e.cap.aux == 0 && e.cap.badge == 0
  }

  lemma NoProduct(a: nat, b: nat)
    ensures a * b > 0 <==> a != 0 && b != 0
  {
  }

  lemma RetypeOkIff(cs: CS, ut: nat, ty: CapType, frames: nat, count: nat, dest: nat)
    ensures Retype(cs, ut, ty, frames, count, dest).Ok? <==>
      MayRetype(cs.slots, ut, ty, frames, count) && AllVacant(cs.slots, dest, count)
  {
    NoProduct(frames, count);
    hide PlaceObjects; hide ZeroObjects;
  }

  /** The slots after a retype: the objects in order, the Untyped charged for their frames, nothing else changed. */
  ghost predicate RetypedSlots(s: Slots, t: Slots, ut: nat, ty: CapType, frames: nat, count: nat, dest: nat)
    requires ut < |s|
  {
    var u := s[ut].cap;
    && |t| == |s| && t[ut] == Cte(u.(watermark := u.watermark + frames * count), s[ut].parent)
    && (forall k: nat :: dest <= k < dest + count && k < |t| ==> IsObject(t[k], u, ut, ty, frames, k - dest))
    && forall k: nat :: k < |s| && k != ut && !(dest <= k < dest + count) ==> t[k] == s[k]
  }

  /** The zeroing calls of a retype: one for each object, in order. */
  ghost predicate RetypedCalls(z: seq<ZeroCall>, y: seq<ZeroCall>, u: RawCap, ty: CapType, frames: nat, count: nat) {
    && |y| == |z| + count && z <= y
    && forall n: nat :: |z| <= n < |y| ==> y[n] == ZeroCall(ty, u.objref + u.watermark + (n - |z|) * frames, frames)
  }

  lemma RetypeSlots(cs: CS, ut: nat, ty: CapType, frames: nat, count: nat, dest: nat)
    requires Retype(cs, ut, ty, frames, count, dest).Ok?
    ensures RetypedSlots(cs.slots, Retype(cs, ut, ty, frames, count, dest).value.slots, ut, ty, frames, count, dest)
  {
    var s, t := cs.slots, Retype(cs, ut, ty, frames, count, dest).value.slots;
    var u := s[ut].cap;
    var base := u.objref + u.watermark;
    var charged := s[ut := s[ut].(cap := u.(watermark := u.watermark + frames * count))];
    assert t == PlaceObjects(charged, ut, ty, base, frames, dest, 0, count) && AllVacant(s, dest, count);
    hide Retype; hide PlaceObjects;
    forall k: nat | k < |s|
      ensures t[k] == if dest <= k < dest + count then Cte(Object(ty, base, frames, k - dest), To(ut)) else charged[k]
    {
      PlacedAt(charged, ut, ty, base, frames, dest, 0, count, k);
    }
  }

  lemma CallsAppended(z: seq<ZeroCall>, u: RawCap, ty: CapType, frames: nat, count: nat)
    requires count > 0
    ensures RetypedCalls(z, z + ZeroObjects(ty, u.objref + u.watermark, frames, 0, count), u, ty, frames, count)
  {
    hide ZeroObjects;
    var base := u.objref + u.watermark;
    var y := z + ZeroObjects(ty, base, frames, 0, count);
    ZeroedAt(ty, base, frames, 0, count, 0);
    forall n: nat | |z| <= n < |y| ensures y[n] == ZeroCall(ty, base + (n - |z|) * frames, frames) {
      ZeroedAt(ty, base, frames, 0, count, n - |z|);
    }
  }

  lemma RetypeCalls(cs: CS, ut: nat, ty: CapType, frames: nat, count: nat, dest: nat)
    requires Retype(cs, ut, ty, frames, count, dest).Ok?
    ensures RetypedCalls(cs.zeroed, Retype(cs, ut, ty, frames, count, dest).value.zeroed, cs.slots[ut].cap, ty, frames,
              count)
  {
    hide RetypedCalls; hide ZeroObjects; hide PlaceObjects;
    var u := cs.slots[ut].cap;
    assert Retype(cs, ut, ty, frames, count, dest).value.zeroed ==
           cs.zeroed + ZeroObjects(ty, u.objref + u.watermark, frames, 0, count);
    CallsAppended(cs.zeroed, u, ty, frames, count);
  }

  /** A retype goes through exactly when it is in order and the slots are vacant. It then fills them, in order,
      with new objects, charges the Untyped for their frames, clears each object once, and touches nothing else. */
  lemma RetypeLands(cs: CS, ut: nat, ty: CapType, frames: nat, count: nat, dest: nat)
    ensures var s, r := cs.slots, Retype(cs, ut, ty, frames, count, dest);
      && (r.Ok? <==> MayRetype(s, ut, ty, frames, count) && AllVacant(s, dest, count))
      && (r.Ok? ==>
            && r.value.nextObj == cs.nextObj && RetypedSlots(s, r.value.slots, ut, ty, frames, count, dest)
            && RetypedCalls(cs.zeroed, r.value.zeroed, s[ut].cap, ty, frames, count))
      && (r.Err? ==> r.error == RetypeRefusal(s, ut, ty, frames, count, dest))
  {
    NoProduct(frames, count);
    var r := Retype(cs, ut, ty, frames, count, dest);
    RetypeOkIff(cs, ut, ty, frames, count, dest);
    hide RetypedSlots; hide RetypedCalls; hide PlaceObjects; hide ZeroObjects;
    if r.Ok? {
      RetypeSlots(cs, ut, ty, frames, count, dest);
      RetypeCalls(cs, ut, ty, frames, count, dest);
    }
  }

  // ---- CPU time ----

  /** A split goes through exactly when the source is a Sched that may be derived from with that much left unspent.
      The child is a new Sched of that capacity, unspent, with the source's rights and period. */
  lemma SplitLands(cs: CS, src: nat, dest: nat, amount: nat)
    ensures var s, r := cs.slots, SplitSched(cs, src, dest, amount);
      && (r.Ok? <==>
            && src < |s| && s[src].cap.ty == Sched && DERIVE in s[src].cap.rights && Vacant(s, dest)
            && 0 < amount && s[src].cap.watermark + amount <= s[src].cap.size)
      && (r.Ok? ==>
            var c, t := s[src].cap, r.value.slots;
            && r.value.nextObj == cs.nextObj + 1 && r.value.zeroed == cs.zeroed && |t| == |s| && src != dest
            && t[src] == Cte(c.(size := c.size - amount), s[src].parent)
            && t[dest] == Cte(RawCap(Sched, c.rights, cs.nextObj, amount, 0, c.aux, 0), To(src))
            && forall k: nat :: k < |s| && k != src && k != dest ==> t[k] == s[k])
      && (r.Err? ==> r.error == SplitRefusal(s, src, dest, amount))
  {
  }

  /** A delegation goes through exactly when both are Scheds, the source may be derived from and has that much left
      unspent, and the target has room. It changes the two capacities and nothing else. */
  lemma DelegateLands(cs: CS, src: nat, dest: nat, amount: nat)
    ensures var s, r := cs.slots, Delegate(cs, src, dest, amount);
      && (src == dest ==> r == Ok(cs))
      && (src != dest ==>
            (r.Ok? <==>
               && src < |s| && dest < |s| && s[src].cap.ty == Sched && s[dest].cap.ty == Sched
               && DERIVE in s[src].cap.rights && 0 < amount && s[src].cap.watermark + amount <= s[src].cap.size
               && s[dest].cap.size + amount <= U32_MAX))
      && (src != dest && r.Ok? ==>
            var t := r.value.slots;
            && r.value.nextObj == cs.nextObj && r.value.zeroed == cs.zeroed && |t| == |s|
            && t[src] == Cte(s[src].cap.(size := s[src].cap.size - amount), s[src].parent)
            && t[dest] == Cte(s[dest].cap.(size := s[dest].cap.size + amount), s[dest].parent)
            && forall k: nat :: k < |s| && k != src && k != dest ==> t[k] == s[k])
  {
  }

  // ---- replies ----

  lemma MintReplyLands(cs: CS, dest: nat, caller: nat, badge: nat)
    ensures var s, r := cs.slots, MintReply(cs, dest, caller, badge);
      && (r.Ok? <==> Vacant(s, dest))
      && (r.Ok? ==>
            && r.value.nextObj == cs.nextObj && r.value.zeroed == cs.zeroed
            && OnlyAt(s, r.value.slots, dest, Cte(RawCap(Reply, {}, caller, 0, 0, 0, badge), Nil)))
  {
  }

  /** Consuming goes through exactly for a Reply, names its caller and leaves the slot empty: a second time fails. */
  lemma ConsumeReplyOnce(cs: CS, c: nat)
    ensures var s, r := cs.slots, ConsumeReply(cs, c);
      && (r.Ok? <==> c < |s| && s[c].cap.ty == Reply)
      && (r.Ok? ==>
            && r.value.0 == s[c].cap.objref && r.value.1.nextObj == cs.nextObj && r.value.1.zeroed == cs.zeroed
            && OnlyAt(s, r.value.1.slots, c, Cte(RawCap(Null, {}, 0, 0, 0, 0, 0), Nil))
            && ConsumeReply(r.value.1, c) == Err(EmptySlot))
  {
  }

  // ---- grants between spaces ----

  ghost predicate MayGrant(s: Slots, i: nat, rights: Rights, mode: GrantMode) {
    && i < |s| && s[i].cap.ty !in {Null, Reply, SharedRo} && GRANT in s[i].cap.rights && rights <= s[i].cap.rights
    && (mode == MintGrant ==> s[i].cap.ty !in {Untyped, Sched, Domain})
    && (mode == MoveGrant ==> forall k: nat :: k < |s| && s[k].cap.ty != Null ==> s[k].parent != To(i))
  }

  /** Why a grant is refused: the giver's side comes before the receiver's slot. */
  ghost function GrantRefusal(s: Slots, i: nat, d: Slots, j: nat, rights: Rights, mode: GrantMode): (e: CapError) {
    if i >= |s| then OutOfBounds
    else if s[i].cap.ty == Null then EmptySlot
    else if !MayGrant(s, i, rights, mode) then InsufficientRights
    else if j >= |d| then OutOfBounds
    else SlotOccupied
  }

  /** A grant goes through exactly when it is permitted and the slot is vacant. The receiver then holds the object
      with exactly the rights and badge given, derived from nothing of its own; a moved capability is gone from the
      giver, and nothing else of either space changes. */
  lemma GrantLands(a: CS, i: nat, b: CS, j: nat, rights: Rights, badge: nat, mode: GrantMode)
    ensures var r := Grant(a, i, b, j, rights, badge, mode);
      && (r.Ok? <==> MayGrant(a.slots, i, rights, mode) && Vacant(b.slots, j))
      && (r.Ok? ==>
            var (x, y) := r.value;
            && x.nextObj == a.nextObj && x.zeroed == a.zeroed && y.nextObj == b.nextObj && y.zeroed == b.zeroed
            && OnlyAt(b.slots, y.slots, j, Cte(a.slots[i].cap.(rights := rights, badge := badge), Nil))
            && OnlyAt(a.slots, x.slots, i,
                 if mode == MoveGrant then Cte(RawCap(Null, {}, 0, 0, 0, 0, 0), Nil) else a.slots[i]))
      && (r.Err? ==> r.error == GrantRefusal(a.slots, i, b.slots, j, rights, mode))
  {
    var s := a.slots;
    assert HasChildren(s, i) <==> exists k: nat :: k < |s| && s[k].cap.ty != Null && s[k].parent == To(i);
  }

  // ---- revocation ----

  /** What destroying `d` does to each slot. */
  lemma DestroyedSlot(cs: CS, d: nat, i: nat)
    requires Good(cs.slots) && Live(cs.slots, d) && i < |cs.slots| && i != d
    ensures cs.slots[d].parent != To(i) || !cs.slots[d].cap.ty.Sched? ==> Destroy(cs, d).slots[i] == cs.slots[i]
    ensures var e := cs.slots[i];
      Destroy(cs, d).slots[i] == e.(cap := e.cap.(size := Destroy(cs, d).slots[i].cap.size))
  {
  }

  lemma {:induction false} RevokedSlot(cs: CS, c: nat)
    requires Good(cs.slots) && Live(cs.slots, c)
    ensures var e, r := cs.slots[c], RevokeLoop(cs, c).slots[c];
      r == e.(cap := e.cap.(size := r.cap.size)) && (!e.cap.ty.Sched? ==> r == e)
    decreases CountLive(cs.slots)
  {
    hide Good; hide Destroy; hide RevokableLeaf; hide CountLive;
    match FirstLeaf(cs.slots, c, 0)
    case None =>
    case Some(d) =>
      LeafIsLive(cs.slots, c, d);
      DestroyCounts(cs, d);
      DestroyGood(cs, d);
      StaysLive(cs, d, c);
      if cs.slots[d].cap.ty.Sched? && cs.slots[d].parent == To(c) { SchedChild(cs.slots, d, c); }
      DestroyedSlot(cs, d, c);
      RevokedSlot(Destroy(cs, d), c);
  }

  lemma SchedChild(s: Slots, d: nat, p: nat)
    requires Good(s) && Live(s, d) && s[d].cap.ty.Sched? && s[d].parent == To(p) && p < |s|
    ensures s[p].cap.ty.Sched?
  {
    assert ChildOf(s, d, p);
    assert EdgeOk(s[p].cap, s[d].cap);
  }

  /** The revoked capability afterwards: an Untyped has all its memory back, a Sched holds what its subtree held, and
      everything else is as it was. */
  ghost predicate RevokedIs(s: Slots, c: nat, e: Cte)
    requires c < |s|
  {
    && e.parent == s[c].parent
    && e.cap == (if s[c].cap.ty == Untyped then s[c].cap.(watermark := 0)
                 else if s[c].cap.ty == Sched then s[c].cap.(size := e.cap.size)
                 else s[c].cap)
    && (s[c].cap.ty == Sched && BudgetsFit(s) ==> e.cap.size == Capped(SubtreeTotal(s, c, |s|)))
  }

  /** Revocation, slot by slot: everything derived from `c` is gone, `c` is as above, and no other slot changes. */
  lemma RevokeExactly(cs: CS, c: nat)
    requires Good(cs.slots)
    ensures var s, r := cs.slots, Revoke(cs, c);
      && (r.Ok? <==> Live(s, c))
      && (r.Ok? ==>
            var t := r.value.slots;
            && |t| == |s| && RevokedIs(s, c, t[c])
            && forall i: nat :: i < |s| && i != c ==> t[i] == if Descends(s, i, c) then EMPTY else s[i])
  {
    var s, r := cs.slots, Revoke(cs, c);
    if Live(s, c) {
      hide RevokeLoop; hide Good; hide BudgetsFit;
      var t := r.value.slots;
      RevokedSlot(cs, c);
      if BudgetsFit(s) { RevokeGathersSubtree(cs, c); }
      forall i: nat | i < |s| && i != c
        ensures t[i] == if Descends(s, i, c) then EMPTY else s[i]
      {
        RevokeEmptiesDescendants(cs, c, i);
        if !Descends(s, i, c) { RevokeKeepsOthers(cs, c, i); }
      }
    }
  }

  /** Memory comes back: after revoking an Untyped, any retype that its whole size can hold goes through in vacant
      slots, and its objects start again at the Untyped's first frame. */
  lemma RevokedUntypedIsWhole(cs: CS, c: nat, ty: CapType, frames: nat, count: nat, dest: nat)
    requires Good(cs.slots) && c < |cs.slots| && cs.slots[c].cap.ty == Untyped
    ensures Revoke(cs, c).Ok?
    ensures var u, a := cs.slots[c].cap, Revoke(cs, c).value;
      var r := Retype(a, c, ty, frames, count, dest);
      && (r.Ok? <==>
            && RETYPE in u.rights && ty !in SOLE && ty != Null && ty != IrqControl
            && 0 < frames * count <= U32_MAX && frames * count <= u.size && AllVacant(a.slots, dest, count))
      && (r.Ok? ==> count > 0 && r.value.slots[dest].cap.objref == u.objref)
  {
    hide Revoke; hide Retype; hide Good; hide BudgetsFit;
    RevokeExactly(cs, c);
    var a := Revoke(cs, c).value;
    RetypeLands(a, c, ty, frames, count, dest);
    NoProduct(frames, count);
    if Retype(a, c, ty, frames, count, dest).Ok? {
      assert IsObject(Retype(a, c, ty, frames, count, dest).value.slots[dest], a.slots[c].cap, c, ty, frames, 0);
    }
  }

  /** Deletion, slot by slot: the whole subtree of `c` is gone, a Sched's parent has what it held, up to 32 bits, and
      no other slot changes. */
  lemma DeleteExactly(cs: CS, c: nat)
    requires Good(cs.slots) && BudgetsFit(cs.slots)
    ensures var s, r := cs.slots, Delete(cs, c);
      && (r.Ok? <==> Live(s, c))
      && (r.Ok? ==>
            var t := r.value.slots;
            && |t| == |s| && t[c] == EMPTY
            && forall i: nat :: i < |s| && i != c ==>
                 t[i] == if Descends(s, i, c) then EMPTY
                         else if s[c].cap.ty == Sched && s[c].parent == To(i)
                         then Cte(s[i].cap.(size := Capped(s[i].cap.size + Capped(SubtreeTotal(s, c, |s|)))),
                           s[i].parent)
                         else s[i])
  {
    hide Revoke; hide Good; hide BudgetsFit; hide SubtreeTotal; hide Capped; hide Destroy; hide Descends;
    var s := cs.slots;
    RevokeExactly(cs, c);
    if Live(s, c) {
      var a := Revoke(cs, c).value;
      NotOwnChild(s, c) by { ForestOf(s); }
      assert a.slots[c].cap.ty == s[c].cap.ty && Live(a.slots, c);
      CreditIs(a, c);
      forall i: nat | i < |s| && s[c].cap.ty == Sched && s[c].parent == To(i)
        ensures s[i].cap.ty == Sched && i != c && !Descends(s, i, c)
      {
        SchedChild(s, c, i);
        ParentAbove(s, c, i);
      }
    }
  }

  lemma ParentAbove(s: Slots, c: nat, p: nat)
    requires Good(s) && c < |s| && s[c].parent == To(p)
    ensures p != c && !Descends(s, p, c)
  {
    NotOwnChild(s, c);
    if Descends(s, p, c) {
      ChildDescends(s, c, p, c);
      DescentIsStrict(s, c);
    }
  }

  lemma ForestOf(s: Slots)
    requires Good(s)
    ensures Forest(s)
  {
  }

  lemma CreditIs(a: CS, c: nat)
    requires Live(a.slots, c) && a.slots[c].parent != To(c)
    ensures var s, t := a.slots, Destroy(a, c).slots;
      && t[c] == EMPTY
      && forall i: nat :: i < |s| && i != c ==>
           t[i] == if s[c].cap.ty == Sched && s[c].parent == To(i) && s[i].cap.ty == Sched
                   then Cte(s[i].cap.(size := Capped(s[i].cap.size + s[c].cap.size)), s[i].parent) else s[i]
  {
  }

  // ---- boot ----

  /** The two root capabilities the boot path starts from, field by field. */
  lemma RootsAre(base: nat, frames: nat, objref: nat, budget: nat, period: nat)
    ensures RootUntyped(base, frames) == RawCap(Untyped, {RETYPE}, base, frames, 0, 0, 0)
    ensures RootSched(objref, budget, period) == RawCap(Sched, {DERIVE, GRANT}, objref, budget, 0, period, 0)
  {
  }
}

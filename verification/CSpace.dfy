/** The capability space as the kernel runs it: a slot array updated in place, every operation
    proved to do what CSpaceSpec says and to keep the derivation forest good. */
module CSpaceObject {
  import opened Caps
  import opened CSpaceSpec
  import opened CSpaceForest
  import opened CSpaceInvariant
  import opened CSpaceRevoke
  import opened Options
  import CSpaceSystem

  /** The call returned what the specification returns, and left what it leaves. */
  ghost predicate Agrees(r: Result<()>, before: CS, after: CS, spec: Result<CS>) {
    match spec
    case Ok(cs) => r == Ok(()) && after == cs
    case Err(e) => r == Err(e) && after == before
  }

  class CSpace {
    const slots: array<Cte>
    var nextObj: nat
    /** The calls made to the zeroing hook so far. */
    var zeroed: seq<ZeroCall>

    ghost function View(): (cs: CS)
      reads this, slots
    {
      CS(slots[..], nextObj, zeroed)
    }

    ghost predicate Valid()
      reads this, slots
    {
      Good(slots[..])
    }

    constructor (n: nat)
      ensures Valid() && View() == CS(seq(n, _ => EMPTY), 1, []) && fresh(slots)
    {
      slots := new Cte[n](_ => EMPTY);
      nextObj := 1;
      zeroed := [];
      new;
      assert slots[..] == seq(n, _ => EMPTY);
      CSpaceSystem.EmptyGood(n);
    }

    /** The body of every boot-path installer: the slot must be empty. */
    method InstallAt(slot: nat, cap: RawCap)
      requires Valid() && slot < slots.Length && slots[slot].cap.ty.Null? && !cap.ty.Null?
      requires (cap.ty.Untyped? ==> cap.watermark == 0)
      modifies slots
      ensures Valid() && View() == Install(old(View()), slot, cap)
    {
      PlaceGood(slots[..], slot, cap, Nil);
      slots[slot] := Cte(cap, Nil);
    }

    method SetRootUntyped(base: nat, frames: nat)
      requires Valid() && 0 < slots.Length && slots[0].cap.ty.Null?
      modifies slots
      ensures Valid() && View() == Install(old(View()), 0, RootUntyped(base, frames))
    {
      InstallAt(0, RootUntyped(base, frames));
    }

    method SetRootSched(slot: nat, budget: nat, period: nat)
      requires Valid() && slot < slots.Length && slots[slot].cap.ty.Null?
      modifies slots, this
      ensures Valid()
      ensures View() ==
        Install(old(View()), slot, RootSched(old(nextObj), budget, period)).(nextObj := old(nextObj) + 1)
    {
      var objref := nextObj;
      nextObj := nextObj + 1;
      InstallAt(slot, RootSched(objref, budget, period));
    }

    method Lookup(c: nat) returns (r: Result<RawCap>)
      ensures r == Resolve(slots[..], c)
    {
      if c >= slots.Length {
        return Err(OutOfBounds);
      }
      if slots[c].cap.ty.Null? {
        return Err(EmptySlot);
      }
      return Ok(slots[c].cap);
    }

    method PlaceAt(dest: nat, cap: RawCap, parent: Link) returns (r: Result<()>)
      modifies slots
      ensures match Place(old(slots[..]), dest, cap, parent)
        case Ok(s) => r == Ok(()) && slots[..] == s
        case Err(e) => r == Err(e) && slots[..] == old(slots[..])
    {
      if dest >= slots.Length {
        return Err(OutOfBounds);
      }
      if !slots[dest].cap.ty.Null? {
        return Err(SlotOccupied);
      }
      slots[dest] := Cte(cap, parent);
      return Ok(());
    }

    method FirstOccupied(lo: nat, n: nat) returns (found: bool)
      requires lo + n <= slots.Length
      ensures found <==> !RangeEmpty(slots[..], lo, n)
    {
      for i := 0 to n
        invariant forall k :: lo <= k < lo + i ==> slots[k].cap.ty.Null?
      {
        if !slots[lo + i].cap.ty.Null? {
          assert !slots[..][lo + i].cap.ty.Null?;
          return true;
        }
      }
      return false;
    }

    method Commit(ut: nat, ty: CapType, base: nat, frames: nat, dest: nat, count: nat)
      requires dest + count <= slots.Length
      modifies slots, this`zeroed
      ensures slots[..] == PlaceObjects(old(slots[..]), ut, ty, base, frames, dest, 0, count)
      ensures zeroed == old(zeroed) + ZeroObjects(ty, base, frames, 0, count)
    {
      ghost var s0, z0 := slots[..], zeroed;
      for i := 0 to count
        invariant PlaceObjects(slots[..], ut, ty, base, frames, dest, i, count) ==
          PlaceObjects(s0, ut, ty, base, frames, dest, 0, count)
        invariant zeroed + ZeroObjects(ty, base, frames, i, count) == z0 + ZeroObjects(ty, base, frames, 0, count)
      {
        ghost var s, z := slots[..], zeroed;
        var cap := Object(ty, base, frames, i);
        zeroed := zeroed + [ZeroCall(ty, cap.objref, frames)];
        slots[dest + i] := Cte(cap, To(ut));
        assert slots[..] == s[dest + i := Cte(cap, To(ut))];
        assert z + ([ZeroCall(ty, cap.objref, frames)] + ZeroObjects(ty, base, frames, i + 1, count))
            == zeroed + ZeroObjects(ty, base, frames, i + 1, count);
      }
    }

    method Retype(ut: nat, ty: CapType, frames: nat, count: nat, dest: nat) returns (r: Result<()>)
      requires Valid()
      modifies slots, this`zeroed
      ensures Valid() && Agrees(r, old(View()), View(), CSpaceSpec.Retype(old(View()), ut, ty, frames, count, dest))
    {
      hide Good;
      hide PlaceObjects;
      hide ZeroObjects;
      RetypeGood(View(), ut, ty, frames, count, dest);
      var u :- Lookup(ut);
      if !u.ty.Untyped? { return Err(WrongType); }
      if RETYPE !in u.rights { return Err(InsufficientRights); }
      if !Retypeable(ty) { return Err(WrongType); }
      if frames == 0 || count == 0 { return Err(OutOfBudget); }
      var need := frames * count;
      if need > U32_MAX { return Err(OutOfBudget); }
      if need > u.size - u.watermark { return Err(OutOfBudget); }
      if dest + count > slots.Length { return Err(OutOfBounds); }
      var occupied := FirstOccupied(dest, count);
      if occupied { return Err(SlotOccupied); }
      var base := u.objref + u.watermark;
      ghost var s := slots[..];
      slots[ut] := slots[ut].(cap := u.(watermark := u.watermark + need));
      assert slots[..] == s[ut := s[ut].(cap := u.(watermark := u.watermark + need))];
      Commit(ut, ty, base, frames, dest, count);
      return Ok(());
    }

    method Mint(src: nat, dest: nat, rights: Rights, badge: nat) returns (r: Result<()>)
      requires Valid()
      modifies slots
      ensures Valid() && Agrees(r, old(View()), View(), CSpaceSpec.Mint(old(View()), src, dest, rights, badge))
    {
      MintGood(View(), src, dest, rights, badge);
      var c :- Lookup(src);
      if !Duplicable(c.ty) { return Err(InsufficientRights); }
      if DERIVE !in c.rights { return Err(InsufficientRights); }
      if !(rights <= c.rights) { return Err(InsufficientRights); }
      r := PlaceAt(dest, c.(rights := rights, badge := badge), To(src));
    }

    method Copy(src: nat, dest: nat) returns (r: Result<()>)
      requires Valid()
      modifies slots
      ensures Valid() && Agrees(r, old(View()), View(), CSpaceSpec.Copy(old(View()), src, dest))
    {
      CopyGood(View(), src, dest);
      var c :- Lookup(src);
      if !Duplicable(c.ty) { return Err(InsufficientRights); }
      if DERIVE !in c.rights { return Err(InsufficientRights); }
      var srcParent := slots[src].parent;
      var parent := if srcParent.Nil? then To(src) else srcParent;
      r := PlaceAt(dest, c, parent);
    }

    method MoveCap(src: nat, dest: nat) returns (r: Result<()>)
      requires Valid()
      modifies slots
      ensures Valid() && Agrees(r, old(View()), View(), CSpaceSpec.Move(old(View()), src, dest))
    {
      hide Good;
      MoveOpGood(View(), src, dest);
      var _ :- Lookup(src);
      var e := slots[src];
      if dest == src { return Ok(()); }
      if dest >= slots.Length { return Err(OutOfBounds); }
      if !slots[dest].cap.ty.Null? { return Err(SlotOccupied); }
      ghost var s := slots[..];
      for k := 0 to slots.Length
        invariant forall j :: 0 <= j < k ==> slots[j] == Reparent(s, src, dest)[j]
        invariant forall j :: k <= j < slots.Length ==> slots[j] == s[j]
      {
        if slots[k].parent == To(src) {
          slots[k] := slots[k].(parent := To(dest));
        }
      }
      assert slots[..] == Reparent(s, src, dest);
      slots[dest] := e;
      slots[src] := EMPTY;
      assert slots[..] == Reparent(s, src, dest)[dest := s[src]][src := EMPTY];
      return Ok(());
    }

    method Split(src: nat, dest: nat, amount: nat) returns (r: Result<()>)
      requires Valid()
      modifies slots, this`nextObj
      ensures Valid() && Agrees(r, old(View()), View(), SplitSched(old(View()), src, dest, amount))
    {
      SplitGood(View(), src, dest, amount);
      var c :- Lookup(src);
      if !c.ty.Sched? { return Err(WrongType); }
      if DERIVE !in c.rights { return Err(InsufficientRights); }
      var parts := BudgetOf(c).Split(amount);
      if parts.None? { return Err(OutOfBudget); }
      var (left, child) := parts.value;
      var objref := nextObj;
      var cap := RawCap(Sched, c.rights, objref, child.capacity, child.consumed, child.period, 0);
      var placed := PlaceAt(dest, cap, To(src));
      if placed.Err? { return placed; }
      ghost var s := slots[..];
      slots[src] := slots[src].(cap := WithBudget(c, left));
      assert slots[..] == s[src := s[src].(cap := WithBudget(c, left))];
      nextObj := nextObj + 1;
      return Ok(());
    }

    method DelegateTo(src: nat, dest: nat, amount: nat) returns (r: Result<()>)
      requires Valid()
      modifies slots
      ensures Valid() && Agrees(r, old(View()), View(), CSpaceSpec.Delegate(old(View()), src, dest, amount))
    {
      DelegateGood(View(), src, dest, amount);
      if src == dest { return Ok(()); }
      var c :- Lookup(src);
      var d :- Lookup(dest);
      if !c.ty.Sched? || !d.ty.Sched? { return Err(WrongType); }
      if DERIVE !in c.rights { return Err(InsufficientRights); }
      var moved := BudgetOf(c).Delegate(BudgetOf(d), amount);
      if moved.None? { return Err(OutOfBudget); }
      slots[src] := slots[src].(cap := WithBudget(c, moved.value.0));
      slots[dest] := slots[dest].(cap := WithBudget(d, moved.value.1));
      return Ok(());
    }

    method MintReply(dest: nat, caller: nat, badge: nat) returns (r: Result<()>)
      requires Valid()
      modifies slots
      ensures Valid() && Agrees(r, old(View()), View(), CSpaceSpec.MintReply(old(View()), dest, caller, badge))
    {
      MintReplyGood(View(), dest, caller, badge);
      r := PlaceAt(dest, RawCap(Reply, {}, caller, 0, 0, 0, badge), Nil);
    }

    method ConsumeReply(dest: nat) returns (r: Result<nat>)
      requires Valid()
      modifies slots, this`zeroed
      ensures Valid()
      ensures match CSpaceSpec.ConsumeReply(old(View()), dest)
        case Ok((caller, cs)) => r == Ok(caller) && View() == cs && !Live(View().slots, dest)
        case Err(e) => r == Err(e) && View() == old(View())
    {
      ConsumeReplyGood(View(), dest);
      var c :- Lookup(dest);
      if !c.ty.Reply? { return Err(WrongType); }
      DestroySlot(dest);
      return Ok(c.objref);
    }

    method AnyNamed(ty: CapType, objref: nat) returns (found: bool)
      ensures found <==> NamedUpTo(slots[..], ty, objref, slots.Length)
    {
      for k := 0 to slots.Length
        invariant !NamedUpTo(slots[..], ty, objref, k)
      {
        var c := slots[k].cap;
        if !c.ty.Null? && c.ty == ty && c.objref == objref {
          assert slots[..][k] == slots[k];
          return true;
        }
      }
      return false;
    }

    method DestroySlot(d: nat)
      requires Valid() && d < slots.Length
      modifies slots, this`zeroed
      ensures View() == Destroy(old(View()), d)
    {
      var cap := slots[d].cap;
      if cap.ty.Null? { return; }
      var parent := slots[d].parent;
      ghost var s := slots[..];
      slots[d] := EMPTY;
      assert slots[..] == s[d := EMPTY];
      if cap.ty.Sched? && parent.To? {
        var p := slots[parent.slot];
        if p.cap.ty.Sched? {
          var sum := p.cap.size + cap.size;
          slots[parent.slot] := p.(cap := p.cap.(size := if sum > U32_MAX then U32_MAX else sum));
        }
      }
      assert slots[..] == Credit(s[d := EMPTY], cap, parent);
      var another := AnyNamed(cap.ty, cap.objref);
      if !another && Zeroable(cap.ty) {
        zeroed := zeroed + [ZeroCall(cap.ty, cap.objref, cap.size)];
      }
    }

    method Walk(start: nat, ancestor: nat) returns (found: bool)
      requires Valid() && start < slots.Length
      ensures found <==> IsDescendant(slots[..], start, ancestor)
      ensures found <==> Descends(slots[..], start, ancestor)
    {
      WalkDecidesDescent(slots[..], start, ancestor);
      ghost var s := slots[..];
      var d: nat := start;
      for step := 0 to slots.Length + 1
        invariant d < slots.Length
        invariant WalkMeets(s, start, ancestor, slots.Length + 1) <==>
          WalkMeets(s, d, ancestor, slots.Length + 1 - step)
      {
        var p := slots[d].parent;
        assert s[d].parent == p;
        if p.Nil? { return false; }
        if p.slot == ancestor { return true; }
        d := p.slot;
      }
      return false;
    }

    method AnyChild(d: nat) returns (found: bool)
      ensures found <==> HasChildren(slots[..], d)
    {
      for k := 0 to slots.Length
        invariant forall j :: 0 <= j < k ==> slots[j].cap.ty.Null? || slots[j].parent != To(d)
      {
        if !slots[k].cap.ty.Null? && slots[k].parent == To(d) {
          assert slots[..][k] == slots[k];
          return true;
        }
      }
      return false;
    }

    method FindLeaf(c: nat) returns (r: Option<nat>)
      requires Valid()
      ensures r == FirstLeaf(slots[..], c, 0)
    {
      hide Good;
      hide IsDescendant;
      hide HasChildren;
      hide Descends;
      for d := 0 to slots.Length
        invariant FirstLeaf(slots[..], c, 0) == FirstLeaf(slots[..], c, d)
      {
        if d != c && !slots[d].cap.ty.Null? {
          var below := Walk(d, c);
          var inner := AnyChild(d);
          if below && !inner { return Some(d); }
        }
      }
      return None;
    }

    method Revoke(c: nat) returns (r: Result<()>)
      requires Valid()
      modifies slots, this`zeroed
      ensures Valid() && Agrees(r, old(View()), View(), CSpaceSpec.Revoke(old(View()), c))
    {
      RevokeGood(View(), c);
      var _ :- Lookup(c);
      ghost var before := View();
      var leaf := FindLeaf(c);
      while leaf.Some?
        invariant Valid() && leaf == FirstLeaf(slots[..], c, 0)
        invariant RevokeLoop(View(), c) == RevokeLoop(before, c)
        decreases CountLive(slots[..])
      {
        DestroyGood(View(), leaf.value);
        DestroyCounts(View(), leaf.value);
        DestroySlot(leaf.value);
        leaf := FindLeaf(c);
      }
      if slots[c].cap.ty.Untyped? {
        slots[c] := slots[c].(cap := slots[c].cap.(watermark := 0));
      }
      return Ok(());
    }

    method Delete(c: nat) returns (r: Result<()>)
      requires Valid()
      modifies slots, this`zeroed
      ensures Valid() && Agrees(r, old(View()), View(), CSpaceSpec.Delete(old(View()), c))
    {
      DeleteGood(View(), c);
      var _ :- Revoke(c);
      DestroySlot(c);
      return Ok(());
    }
  }

  method GrantTo(src: CSpace, i: nat, dst: CSpace, j: nat, rights: Rights, badge: nat,
                 mode: GrantMode) returns (r: Result<()>)
    requires src.Valid() && dst.Valid() && src != dst && src.slots != dst.slots
    modifies src.slots, dst.slots
    ensures src.Valid() && dst.Valid()
    ensures match Grant(old(src.View()), i, old(dst.View()), j, rights, badge, mode)
      case Ok((a, b)) => r == Ok(()) && src.View() == a && dst.View() == b
      case Err(e) => r == Err(e) && src.View() == old(src.View()) && dst.View() == old(dst.View())
  {
    CSpaceSystem.GrantGood(src.View(), i, dst.View(), j, rights, badge, mode);
    var c :- src.Lookup(i);
    if c.ty.Reply? || c.ty.SharedRo? { return Err(InsufficientRights); }
    if mode.MintGrant? && (c.ty.Untyped? || c.ty.Sched? || c.ty.Domain?) { return Err(InsufficientRights); }
    if GRANT !in c.rights { return Err(InsufficientRights); }
    if !(rights <= c.rights) { return Err(InsufficientRights); }
    var inner := src.AnyChild(i);
    if mode.MoveGrant? && inner { return Err(InsufficientRights); }
    r := dst.PlaceAt(j, c.(rights := rights, badge := badge), Nil);
    if r.Ok? && mode.MoveGrant? {
      src.slots[i] := EMPTY;
    }
  }
}

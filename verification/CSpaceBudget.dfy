/** CPU time: no operation creates it, and revocation brings it home. */
module CSpaceBudget {
  import opened Caps
  import opened CSpaceSpec
  import opened CSpaceForest
  import opened CSpaceInvariant
  import opened CSpaceRevoke
  import opened Options

  function CapacityOf(e: Cte): (n: nat) {
    if e.cap.ty.Sched? then e.cap.size else 0
  }

  /** Sched capacity over all slots. */
  function Total(s: Slots): (n: nat) {
    if s == [] then 0 else Total(s[..|s| - 1]) + CapacityOf(s[|s| - 1])
  }

  lemma {:induction false} TotalUpdate(s: Slots, i: nat, e: Cte)
    requires i < |s|
    ensures Total(s[i := e]) == Total(s) - CapacityOf(s[i]) + CapacityOf(e)
  {
    var t := s[i := e];
    if i == |s| - 1 {
      assert t[..|s| - 1] == s[..|s| - 1];
    } else {
      TotalUpdate(s[..|s| - 1], i, e);
      assert t[..|s| - 1] == s[..|s| - 1][i := e];
    }
  }

  lemma {:induction false} TotalAtLeast(s: Slots, i: nat)
    requires i < |s|
    ensures CapacityOf(s[i]) <= Total(s)
  {
    if i < |s| - 1 { TotalAtLeast(s[..|s| - 1], i); }
  }

  lemma {:induction false} TotalAtLeastTwo(s: Slots, i: nat, j: nat)
    requires i < j < |s|
    ensures CapacityOf(s[i]) + CapacityOf(s[j]) <= Total(s)
  {
    if j == |s| - 1 { TotalAtLeast(s[..|s| - 1], i); } else { TotalAtLeastTwo(s[..|s| - 1], i, j); }
  }

  lemma {:induction false} TotalPointwise(s: Slots, t: Slots)
    requires |s| == |t| && forall i :: 0 <= i < |s| ==> CapacityOf(s[i]) == CapacityOf(t[i])
    ensures Total(s) == Total(t)
  {
    if s != [] { TotalPointwise(s[..|s| - 1], t[..|t| - 1]); }
  }

  lemma {:induction false} PlaceObjectsTotal(s: Slots, ut: nat, ty: CapType, base: nat, frames: nat, dest: nat,
                                             i: nat, count: nat)
    requires i <= count && dest + count <= |s| && Retypeable(ty) && RangeEmpty(s, dest + i, count - i)
    ensures Total(PlaceObjects(s, ut, ty, base, frames, dest, i, count)) == Total(s)
    decreases count - i
  {
    if i < count {
      var e := Cte(Object(ty, base, frames, i), To(ut));
      TotalUpdate(s, dest + i, e);
      PlaceObjectsTotal(s[dest + i := e], ut, ty, base, frames, dest, i + 1, count);
    }
  }

  lemma RetypeTotal(cs: CS, ut: nat, ty: CapType, frames: nat, count: nat, dest: nat)
    ensures var r := Retype(cs, ut, ty, frames, count, dest); r.Ok? ==> Total(r.value.slots) == Total(cs.slots)
  {
    var r := Retype(cs, ut, ty, frames, count, dest);
    if r.Ok? {
      var u := cs.slots[ut].cap;
      var e := cs.slots[ut].(cap := u.(watermark := u.watermark + frames * count));
      TotalUpdate(cs.slots, ut, e);
      PlaceObjectsTotal(cs.slots[ut := e], ut, ty, u.objref + u.watermark, frames, dest, 0, count);
    }
  }

  lemma MintTotal(cs: CS, src: nat, dest: nat, rights: Rights, badge: nat)
    ensures var r := Mint(cs, src, dest, rights, badge); r.Ok? ==> Total(r.value.slots) == Total(cs.slots)
  {
    var r := Mint(cs, src, dest, rights, badge);
    if r.Ok? { TotalUpdate(cs.slots, dest, r.value.slots[dest]); }
  }

  lemma CopyTotal(cs: CS, src: nat, dest: nat)
    ensures var r := Copy(cs, src, dest); r.Ok? ==> Total(r.value.slots) == Total(cs.slots)
  {
    var r := Copy(cs, src, dest);
    if r.Ok? { TotalUpdate(cs.slots, dest, r.value.slots[dest]); }
  }

  lemma MoveTotal(cs: CS, src: nat, dest: nat)
    ensures var r := Move(cs, src, dest); r.Ok? ==> Total(r.value.slots) == Total(cs.slots)
  {
    if Move(cs, src, dest).Ok? && dest != src {
      var s := Reparent(cs.slots, src, dest);
      TotalPointwise(cs.slots, s);
      TotalUpdate(s, dest, cs.slots[src]);
      TotalUpdate(s[dest := cs.slots[src]], src, EMPTY);
    }
  }

  /** Splitting moves capacity from the parent to the child. */
  lemma SplitTotal(cs: CS, src: nat, dest: nat, amount: nat)
    ensures var r := SplitSched(cs, src, dest, amount);
      r.Ok? ==>
        && Total(r.value.slots) == Total(cs.slots)
        && CapacityOf(r.value.slots[dest]) == amount
        && CapacityOf(r.value.slots[src]) == CapacityOf(cs.slots[src]) - amount
  {
    var r := SplitSched(cs, src, dest, amount);
    if r.Ok? {
      var s := cs.slots[dest := r.value.slots[dest]];
      TotalUpdate(cs.slots, dest, r.value.slots[dest]);
      TotalUpdate(s, src, r.value.slots[src]);
    }
  }

  lemma DelegateTotal(cs: CS, src: nat, dest: nat, amount: nat)
    ensures var r := Delegate(cs, src, dest, amount); r.Ok? ==> Total(r.value.slots) == Total(cs.slots)
  {
    var r := Delegate(cs, src, dest, amount);
    if r.Ok? && src != dest {
      TotalUpdate(cs.slots, src, r.value.slots[src]);
      TotalUpdate(cs.slots[src := r.value.slots[src]], dest, r.value.slots[dest]);
    }
  }

  lemma MintReplyTotal(cs: CS, dest: nat, caller: nat, badge: nat)
    ensures var r := MintReply(cs, dest, caller, badge); r.Ok? ==> Total(r.value.slots) == Total(cs.slots)
  {
    var r := MintReply(cs, dest, caller, badge);
    if r.Ok? { TotalUpdate(cs.slots, dest, r.value.slots[dest]); }
  }

  /** Destroying never adds capacity; while the total fits 32 bits it loses capacity only when the
      destroyed capability is a Sched root. */
  lemma DestroyTotal(cs: CS, d: nat)
    requires Good(cs.slots)
    ensures Total(Destroy(cs, d).slots) <= Total(cs.slots)
    ensures Live(cs.slots, d) && Total(cs.slots) <= U32_MAX && (cs.slots[d].cap.ty.Sched? ==> cs.slots[d].parent.To?)
      ==> Total(Destroy(cs, d).slots) == Total(cs.slots)
    ensures Live(cs.slots, d) && cs.slots[d].parent.Nil?
      ==> Total(Destroy(cs, d).slots) == Total(cs.slots) - CapacityOf(cs.slots[d])
  {
    hide Total;
    if Live(cs.slots, d) {
      var s, parent := cs.slots[d := EMPTY], cs.slots[d].parent;
      TotalUpdate(cs.slots, d, EMPTY);
      if parent.To? && cs.slots[d].cap.ty.Sched? {
        var p := parent.slot;
        NotOwnChild(cs.slots, d);
        assert ChildOf(cs.slots, d, p);
        assert EdgeOk(cs.slots[p].cap, cs.slots[d].cap);
        var t := Credit(s, cs.slots[d].cap, parent);
        TotalUpdate(s, p, t[p]);
        if p < d { TotalAtLeastTwo(cs.slots, p, d); } else { TotalAtLeastTwo(cs.slots, d, p); }
      }
    }
  }

  /** Every budget fits 32 bits, the width of the size field. */
  predicate BudgetsFit(s: Slots) {
    forall i :: 0 <= i < |s| ==> CapacityOf(s[i]) <= U32_MAX
  }

  function Capped(n: nat): (m: nat) {
    if n > U32_MAX then U32_MAX else n
  }

  /** Destroying one slot conserves capacity exactly when it holds no budget, or its parent has room for it in
      32 bits. */
  lemma DestroyConservesIff(cs: CS, d: nat)
    requires Good(cs.slots) && Live(cs.slots, d) && BudgetsFit(cs.slots)
    ensures Total(Destroy(cs, d).slots) == Total(cs.slots) <==>
      || CapacityOf(cs.slots[d]) == 0
      || (cs.slots[d].parent.To? && cs.slots[d].parent.slot < |cs.slots|
          && cs.slots[cs.slots[d].parent.slot].cap.size + cs.slots[d].cap.size <= U32_MAX)
  {
    var s, parent := cs.slots[d := EMPTY], cs.slots[d].parent;
    TotalUpdate(cs.slots, d, EMPTY);
    if parent.To? && cs.slots[d].cap.ty.Sched? {
      var p := parent.slot;
      NotOwnChild(cs.slots, d);
      assert ChildOf(cs.slots, d, p);
      assert EdgeOk(cs.slots[p].cap, cs.slots[d].cap);
      var t := Credit(s, cs.slots[d].cap, parent);
      assert cs.slots[p].cap.ty.Sched? && t == s[p := t[p]];
      TotalUpdate(s, p, t[p]);
    }
  }

  lemma TotalOfThree(a: Cte, b: Cte, c: Cte)
    ensures Total([a, b, c]) == CapacityOf(a) + CapacityOf(b) + CapacityOf(c)
  {
    assert [a, b, c][..2] == [a, b] && [a, b][..1] == [a] && [a][..0] == [];
    assert Total([a]) == CapacityOf(a);
    assert Total([a, b]) == CapacityOf(a) + CapacityOf(b);
  }

  lemma {:induction false} RevokeTotal(cs: CS, c: nat)
    requires Good(cs.slots) && c < |cs.slots|
    ensures Total(RevokeLoop(cs, c).slots) <= Total(cs.slots)
    ensures Total(cs.slots) <= U32_MAX ==> Total(RevokeLoop(cs, c).slots) == Total(cs.slots)
    decreases CountLive(cs.slots)
  {
    match FirstLeaf(cs.slots, c, 0)
    case None =>
    case Some(d) =>
      DestroyCounts(cs, d);
      DestroyGood(cs, d);
      DestroyTotal(cs, d);
      WalkDecidesDescent(cs.slots, d, c);
      DescendsParent(cs.slots, d, c);
      RevokeTotal(Destroy(cs, d), c);
  }

  /** Capacity in the subtree of `c`, over the first `n` slots. */
  ghost function SubtreeTotal(s: Slots, c: nat, n: nat): (t: nat)
    requires n <= |s|
  {
    if n == 0 then 0
    else SubtreeTotal(s, c, n - 1) + (if n - 1 == c || Descends(s, n - 1, c) then CapacityOf(s[n - 1]) else 0)
  }

  ghost function OutsideTotal(s: Slots, c: nat, n: nat): (t: nat)
    requires n <= |s|
  {
    if n == 0 then 0
    else OutsideTotal(s, c, n - 1) + (if n - 1 == c || Descends(s, n - 1, c) then 0 else CapacityOf(s[n - 1]))
  }

  lemma {:induction false} TotalSplits(s: Slots, c: nat, n: nat)
    requires n <= |s|
    ensures Total(s[..n]) == SubtreeTotal(s, c, n) + OutsideTotal(s, c, n)
  {
    if n > 0 {
      TotalSplits(s, c, n - 1);
      assert s[..n][..n - 1] == s[..n - 1];
    }
  }

  /** Outside the subtree of a revoked Sched no budget changes. */
  lemma {:induction false} RevokeKeepsOthers(cs: CS, c: nat, i: nat)
    requires Good(cs.slots) && Live(cs.slots, c) && i < |cs.slots| && i != c && !Descends(cs.slots, i, c)
    ensures RevokeLoop(cs, c).slots[i] == cs.slots[i]
    decreases CountLive(cs.slots)
  {
    match FirstLeaf(cs.slots, c, 0)
    case None =>
    case Some(d) =>
      DestroyCounts(cs, d);
      DestroyGood(cs, d);
      DestroyKeeps(cs, d);
      WalkDecidesDescent(cs.slots, d, c);
      DescendsParent(cs.slots, d, c);
      DescendsAfterDestroy(cs, d, i, c);
      assert Destroy(cs, d).slots[i] == cs.slots[i];
      RevokeKeepsOthers(Destroy(cs, d), c, i);
  }

  lemma {:induction false} AfterRevokeTotals(cs: CS, c: nat, n: nat)
    requires Good(cs.slots) && Live(cs.slots, c) && n <= |cs.slots|
    ensures var t := RevokeLoop(cs, c).slots;
      && OutsideTotal(t, c, n) == OutsideTotal(cs.slots, c, n)
      && SubtreeTotal(t, c, n) == if c < n then CapacityOf(t[c]) else 0
    decreases n
  {
    hide RevokeLoop;
    hide Good;
    if n > 0 {
      AfterRevokeTotals(cs, c, n - 1);
      RevokeEmptiesDescendants(cs, c, n - 1);
      if n - 1 != c && !Descends(cs.slots, n - 1, c) { RevokeKeepsOthers(cs, c, n - 1); }
    }
  }

  /** What destroying leaf `d` does to each budget: it is gone, and its parent has it up to the limit. */
  lemma DestroyBudgets(cs: CS, d: nat, i: nat)
    requires Good(cs.slots) && Live(cs.slots, d) && BudgetsFit(cs.slots) && i < |cs.slots|
    ensures var s, t := cs.slots, Destroy(cs, d).slots;
      CapacityOf(t[i]) == if i == d then 0
                          else if s[d].parent == To(i) then Capped(CapacityOf(s[i]) + CapacityOf(s[d]))
                          else CapacityOf(s[i])
  {
    NotOwnChild(cs.slots, d);
    if cs.slots[d].parent == To(i) {
      assert ChildOf(cs.slots, d, i);
      assert EdgeOk(cs.slots[i].cap, cs.slots[d].cap);
    }
  }

  lemma {:induction false} DestroySubtree(cs: CS, d: nat, c: nat, p: nat, n: nat)
    requires Good(cs.slots) && Live(cs.slots, d) && BudgetsFit(cs.slots) && !HasChildren(cs.slots, d)
    requires d != c && d != p && p < |cs.slots| && cs.slots[d].parent == To(p) && n <= |cs.slots|
    requires Descends(cs.slots, d, c) && (p == c || Descends(cs.slots, p, c))
    ensures var s, t := cs.slots, Destroy(cs, d).slots;
      SubtreeTotal(t, c, n) + (if d < n then CapacityOf(s[d]) else 0) + (if p < n then CapacityOf(s[p]) else 0)
      == SubtreeTotal(s, c, n) + (if p < n then CapacityOf(t[p]) else 0)
    decreases n
  {
    hide Good; hide Destroy; hide BudgetsFit; hide HasChildren; hide Capped;
    if n > 0 {
      DestroySubtree(cs, d, c, p, n - 1);
      DestroyBudgets(cs, d, n - 1);
      DescendsAfterDestroy(cs, d, n - 1, c);
    }
  }

  /** Destroying a leaf of the subtree leaves what the subtree holds, up to the limit. */
  lemma DestroyKeepsCapped(cs: CS, d: nat, c: nat)
    requires Good(cs.slots) && BudgetsFit(cs.slots) && RevokableLeaf(cs.slots, c, d)
    ensures BudgetsFit(Destroy(cs, d).slots)
    ensures var n := |cs.slots|;
      Capped(SubtreeTotal(Destroy(cs, d).slots, c, n)) == Capped(SubtreeTotal(cs.slots, c, n))
  {
    var s, t := cs.slots, Destroy(cs, d).slots;
    WalkDecidesDescent(s, d, c);
    DescendsParent(s, d, c);
    var p := s[d].parent.slot;
    NotOwnChild(s, d);
    assert ChildOf(s, d, p);
    forall i: nat | i < |s| ensures CapacityOf(t[i]) <= U32_MAX { DestroyBudgets(cs, d, i); }
    hide Destroy; hide Descends;
    DestroySubtree(cs, d, c, p, |s|);
    DestroyBudgets(cs, d, p);
    hide Good;
    SubtreeAtLeast(s, c, p, d, |s|);
    SubtreeAtLeast(t, c, p, d, |s|) by { DescendsAfterDestroy(cs, d, p, c); }
  }

  /** The subtree holds at least what two of its slots hold, or one of them alone. */
  lemma {:induction false} SubtreeAtLeast(s: Slots, c: nat, p: nat, d: nat, n: nat)
    requires p < |s| && d < |s| && n <= |s| && p != d && (p == c || Descends(s, p, c))
    ensures SubtreeTotal(s, c, n) >= (if p < n then CapacityOf(s[p]) else 0)
                                     + (if d < n && Descends(s, d, c) then CapacityOf(s[d]) else 0)
    decreases n
  {
    hide Descends;
    if n > 0 { SubtreeAtLeast(s, c, p, d, n - 1); }
  }

  lemma {:induction false} RevokeCapped(cs: CS, c: nat)
    requires Good(cs.slots) && Live(cs.slots, c) && BudgetsFit(cs.slots)
    ensures var t, n := RevokeLoop(cs, c).slots, |cs.slots|;
      BudgetsFit(t) && Capped(SubtreeTotal(t, c, n)) == Capped(SubtreeTotal(cs.slots, c, n))
    decreases CountLive(cs.slots)
  {
    hide Good; hide BudgetsFit; hide RevokableLeaf; hide Destroy; hide SubtreeTotal; hide CountLive; hide Capped;
    match FirstLeaf(cs.slots, c, 0)
    case None =>
    case Some(d) =>
      LeafIsLive(cs.slots, c, d);
      DestroyCounts(cs, d);
      DestroyGood(cs, d);
      DestroyKeepsCapped(cs, d, c);
      StaysLive(cs, d, c);
      RevokeCapped(Destroy(cs, d), c);
  }

  lemma LeafIsLive(s: Slots, c: nat, d: nat)
    requires RevokableLeaf(s, c, d)
    ensures d != c && Live(s, d) && !HasChildren(s, d)
  {
  }

  lemma StaysLive(cs: CS, d: nat, c: nat)
    requires Good(cs.slots) && Live(cs.slots, d) && Live(cs.slots, c) && c != d
    ensures Live(Destroy(cs, d).slots, c)
  {
    DestroyKeeps(cs, d);
    assert Kept(cs.slots[c], Destroy(cs, d).slots[c]);
  }

  /** After revocation a Sched holds what its whole former subtree held, up to the limit of the field. */
  lemma RevokeGathersSubtree(cs: CS, c: nat)
    requires Good(cs.slots) && Live(cs.slots, c) && BudgetsFit(cs.slots)
    ensures CapacityOf(RevokeLoop(cs, c).slots[c]) == Capped(SubtreeTotal(cs.slots, c, |cs.slots|))
  {
    hide RevokeLoop; hide Good;
    AfterRevokeTotals(cs, c, |cs.slots|);
    RevokeCapped(cs, c);
  }

  /** Revocation conserves capacity exactly when the subtree's budgets together fit 32 bits. */
  lemma RevokeConservesIff(cs: CS, c: nat)
    requires Good(cs.slots) && Live(cs.slots, c) && BudgetsFit(cs.slots)
    ensures Total(RevokeLoop(cs, c).slots) == Total(cs.slots) <==> SubtreeTotal(cs.slots, c, |cs.slots|) <= U32_MAX
  {
    hide RevokeLoop; hide Good; hide BudgetsFit;
    var s, t := cs.slots, RevokeLoop(cs, c).slots;
    RevokeGathersSubtree(cs, c);
    AfterRevokeTotals(cs, c, |s|);
    TotalSplits(s, c, |s|);
    TotalSplits(t, c, |t|);
    assert s[..|s|] == s && t[..|t|] == t;
  }

  lemma ResetTotal(cs: CS, c: nat)
    ensures Total(ResetWatermark(cs, c).slots) == Total(cs.slots)
    ensures BudgetsFit(cs.slots) ==> BudgetsFit(ResetWatermark(cs, c).slots)
  {
    if c < |cs.slots| && cs.slots[c].cap.ty.Untyped? { TotalUpdate(cs.slots, c, ResetWatermark(cs, c).slots[c]); }
  }

  /** The capability's parent has room for what its whole subtree holds, or that is nothing. */
  ghost predicate RoomAbove(s: Slots, c: nat)
    requires c < |s|
  {
    var held := SubtreeTotal(s, c, |s|);
    held == 0 || (s[c].parent.To? && s[c].parent.slot < |s| && CapacityOf(s[s[c].parent.slot]) + held <= U32_MAX)
  }

  /** Deleting conserves capacity exactly when the deleted subtree holds none, or the parent of its top has
      room for all of it in 32 bits. */
  lemma DeleteConservesIff(cs: CS, c: nat)
    requires Good(cs.slots) && Live(cs.slots, c) && BudgetsFit(cs.slots)
    ensures Delete(cs, c).Ok? && (Total(Delete(cs, c).value.slots) == Total(cs.slots) <==> RoomAbove(cs.slots, c))
  {
    hide RevokeLoop; hide Good; hide BudgetsFit; hide Destroy;
    var s, t := cs.slots, RevokeLoop(cs, c);
    var u := ResetWatermark(t, c);
    RevokeGood(cs, c);
    RevokeTotal(cs, c);
    RevokeConservesIff(cs, c);
    RevokeGathersSubtree(cs, c);
    RevokeCapped(cs, c);
    RevokedStaysLive(cs, c);
    ResetTotal(t, c);
    DestroyTotal(u, c);
    DestroyConservesIff(u, c);
    ParentUntouched(cs, c);
  }

  /** Revoking does not touch the parent, and the parent of a Sched is a Sched. */
  lemma ParentUntouched(cs: CS, c: nat)
    requires Good(cs.slots) && Live(cs.slots, c)
    ensures var s, u := cs.slots, ResetWatermark(RevokeLoop(cs, c), c).slots;
      && u[c].parent == s[c].parent && CapacityOf(u[c]) == CapacityOf(RevokeLoop(cs, c).slots[c])
      && (s[c].parent.To? && s[c].parent.slot < |s| ==> u[s[c].parent.slot] == s[s[c].parent.slot])
      && (s[c].parent.To? && s[c].parent.slot < |s| && CapacityOf(u[c]) > 0 ==> u[s[c].parent.slot].cap.ty.Sched?)
  {
    hide RevokeLoop;
    var s := cs.slots;
    RevokedStaysLive(cs, c);
    if s[c].parent.To? && s[c].parent.slot < |s| {
      var p := s[c].parent.slot;
      NotOwnChild(s, c);
      assert ChildOf(s, c, p);
      assert EdgeOk(s[p].cap, s[c].cap);
      if Descends(s, p, c) {
        ChildDescends(s, c, p, c);
        DescentIsStrict(s, c);
      }
      RevokeKeepsOthers(cs, c, p);
    }
  }
}

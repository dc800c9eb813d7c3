/** Revocation: exactly the derived capabilities go, and each object is zeroed exactly when its
    last capability goes. */
module CSpaceRevoke {
  import opened Caps
  import opened CSpaceSpec
  import opened CSpaceForest
  import opened CSpaceInvariant
  import opened Options

  /** Unchanged but for the budget of a Sched. */
  predicate Kept(a: Cte, b: Cte) {
    && a.parent == b.parent && a.cap.ty == b.cap.ty && a.cap.rights == b.cap.rights && a.cap.objref == b.cap.objref
    && a.cap.watermark == b.cap.watermark && a.cap.aux == b.cap.aux && a.cap.badge == b.cap.badge
    && (a.cap.size == b.cap.size || a.cap.ty.Sched?)
  }

  lemma DestroyKeeps(cs: CS, d: nat)
    requires Good(cs.slots) && Live(cs.slots, d)
    ensures Destroy(cs, d).slots[d] == EMPTY
    ensures forall i: nat :: i < |cs.slots| && i != d ==> Kept(cs.slots[i], Destroy(cs, d).slots[i])
  {
    NotOwnChild(cs.slots, d);
  }

  lemma {:induction false} UpAfterDestroy(s: Slots, t: Slots, d: nat, i: nat, k: nat)
    requires LinksLive(s) && |t| == |s| && d < |s| && !HasChildren(s, d) && i != d
    requires forall j: nat :: j < |s| && j != d ==> t[j].parent == s[j].parent
    ensures Up(t, i, k) == Up(s, i, k)
    decreases k
  {
    if k > 0 && i < |s| && s[i].parent.To? {
      assert s[i].parent.slot != d;
      UpAfterDestroy(s, t, d, s[i].parent.slot, k - 1);
    }
  }

  /** Destroying a leaf leaves every other derivation as it was. */
  lemma DescendsAfterDestroy(cs: CS, d: nat, i: nat, c: nat)
    requires Good(cs.slots) && Live(cs.slots, d) && !HasChildren(cs.slots, d)
    ensures Descends(Destroy(cs, d).slots, i, c) <==> i != d && Descends(cs.slots, i, c)
  {
    var s, t := cs.slots, Destroy(cs, d).slots;
    DestroyKeeps(cs, d);
    if i == d {
      if Descends(t, d, c) { DescendsParent(t, d, c); }
    } else {
      forall k: nat ensures Up(t, i, k) == Up(s, i, k) { UpAfterDestroy(s, t, d, i, k); }
    }
  }

  /** Revocation empties exactly the proper descendants of `c`; every other slot keeps its type,
      rights, object and parent. */
  lemma {:induction false} RevokeEmptiesDescendants(cs: CS, c: nat, i: nat)
    requires Good(cs.slots) && c < |cs.slots| && i < |cs.slots|
    ensures Descends(cs.slots, i, c) ==> RevokeLoop(cs, c).slots[i] == EMPTY
    ensures !Descends(cs.slots, i, c) ==> Kept(cs.slots[i], RevokeLoop(cs, c).slots[i])
    ensures !Descends(RevokeLoop(cs, c).slots, i, c)
    decreases CountLive(cs.slots)
  {
    match FirstLeaf(cs.slots, c, 0)
    case None => NoLeafNoDescendants(cs.slots, c, i);
    case Some(d) =>
      DestroyCounts(cs, d);
      DestroyGood(cs, d);
      DestroyKeeps(cs, d);
      WalkDecidesDescent(cs.slots, d, c);
      DescendsAfterDestroy(cs, d, i, c);
      RevokeEmptiesDescendants(Destroy(cs, d), c, i);
      if i == d { EmptyStays(Destroy(cs, d), c, d); }
  }

  lemma {:induction false} EmptyStays(cs: CS, c: nat, i: nat)
    requires i < |cs.slots| && cs.slots[i] == EMPTY
    ensures RevokeLoop(cs, c).slots[i] == EMPTY
    decreases CountLive(cs.slots)
  {
    match FirstLeaf(cs.slots, c, 0)
    case None =>
    case Some(d) =>
      DestroyCounts(cs, d);
      EmptyStays(Destroy(cs, d), c, i);
  }

  lemma NoChildrenLeft(cs: CS, c: nat)
    requires Good(cs.slots) && c < |cs.slots|
    ensures forall k: nat :: !ChildOf(RevokeLoop(cs, c).slots, k, c)
  {
    var t := RevokeLoop(cs, c).slots;
    forall k: nat ensures !ChildOf(t, k, c) {
      if ChildOf(t, k, c) {
        RevokeEmptiesDescendants(cs, c, k);
        ChildDescends(t, k, c, c);
      }
    }
  }

  lemma ResetGood(cs: CS, c: nat)
    requires Good(cs.slots) && Live(cs.slots, c) && forall k: nat :: !ChildOf(cs.slots, k, c)
    ensures Good(ResetWatermark(cs, c).slots) && !HasChildren(ResetWatermark(cs, c).slots, c)
  {
    var s, r := cs.slots, ResetWatermark(cs, c).slots;
    UpdateForest(s, c, r[c].cap);
    forall k: nat, p: nat ensures ChildOf(r, k, p) <==> ChildOf(s, k, p) {}
    forall k: nat, p: nat | ChildOf(r, k, p) && p < |r|
      ensures p != c && r[p].cap == s[p].cap && EdgeOk(r[p].cap, r[k].cap)
    {
      assert k == c ==> !s[c].cap.ty.Untyped? by { assert EdgeOk(s[p].cap, s[k].cap); }
    }
    assert r == s[c := s[c].(cap := r[c].cap)];
    assert Edges(r) && Watermarks(r);
    forall k: nat | 0 <= k < |r| ensures r[k].parent != To(c) { assert !ChildOf(r, k, c); }
    forall i: nat, j: nat, p: nat | ChildOf(r, i, p) && ChildOf(r, j, p) && p < |r| && r[p].cap.ty.Untyped?
      ensures SameObject(r[i].cap, r[j].cap) || FramesApart(r[i].cap, r[j].cap)
    {
      assert ChildOf(s, i, p) && ChildOf(s, j, p);
    }
  }

  lemma RevokeGood(cs: CS, c: nat)
    requires Good(cs.slots)
    ensures var r := Revoke(cs, c); r.Ok? ==> Good(r.value.slots) && !HasChildren(r.value.slots, c)
  {
    hide RevokeLoop;
    hide Good;
    if Revoke(cs, c).Ok? {
      RevokeLoopGood(cs, c);
      NoChildrenLeft(cs, c);
      RevokedStaysLive(cs, c);
      ResetGood(RevokeLoop(cs, c), c);
    }
  }

  lemma RevokedStaysLive(cs: CS, c: nat)
    requires Good(cs.slots) && Live(cs.slots, c)
    ensures Kept(cs.slots[c], RevokeLoop(cs, c).slots[c]) && Live(RevokeLoop(cs, c).slots, c)
  {
    DescentIsStrict(cs.slots, c);
    RevokeEmptiesDescendants(cs, c, c);
  }

  lemma DeleteGood(cs: CS, c: nat)
    requires Good(cs.slots)
    ensures var r := Delete(cs, c); r.Ok? ==> Good(r.value.slots)
  {
    RevokeGood(cs, c);
    if Delete(cs, c).Ok? { DestroyGood(Revoke(cs, c).value, c); }
  }

  // ---- zeroing ----

  /** How often the hook was called for the object `(ty, objref)`. */
  function Calls(z: seq<ZeroCall>, ty: CapType, objref: nat): (n: nat) {
    if z == [] then 0
    else Calls(z[..|z| - 1], ty, objref) + (if z[|z| - 1].ty == ty && z[|z| - 1].objref == objref then 1 else 0)
  }

  ghost function Vanished(before: Slots, after: Slots, ty: CapType, objref: nat): (n: nat) {
    if Zeroable(ty) && Named(before, ty, objref) && !Named(after, ty, objref) then 1 else 0
  }

  lemma NamedByScan(s: Slots, ty: CapType, objref: nat)
    ensures NamedUpTo(s, ty, objref, |s|) <==> Named(s, ty, objref)
  {
    if k: nat :| Live(s, k) && s[k].cap.ty == ty && s[k].cap.objref == objref {
      assert !s[k].cap.ty.Null?;
    }
    if NamedUpTo(s, ty, objref, |s|) {
      var k :| 0 <= k < |s| && !s[k].cap.ty.Null? && s[k].cap.ty == ty && s[k].cap.objref == objref;
      assert Live(s, k);
    }
  }

  lemma DestroyZeroes(cs: CS, d: nat, ty: CapType, objref: nat)
    requires Good(cs.slots)
    ensures var r := Destroy(cs, d);
      Calls(r.zeroed, ty, objref) == Calls(cs.zeroed, ty, objref) + Vanished(cs.slots, r.slots, ty, objref)
    ensures Named(Destroy(cs, d).slots, ty, objref) ==> Named(cs.slots, ty, objref)
  {
    hide Good;
    if Live(cs.slots, d) {
      var s, t := cs.slots, Destroy(cs, d).slots;
      var cap := s[d].cap;
      NamedByScan(t, cap.ty, cap.objref);
      DestroyNames(cs, d, ty, objref);
      assert (cs.zeroed + [ZeroCall(cap.ty, cap.objref, cap.size)])[..|cs.zeroed|] == cs.zeroed;
    }
  }

  /** What is named after a destruction was named before, and only the destroyed slot's object can go. */
  lemma DestroyNames(cs: CS, d: nat, ty: CapType, objref: nat)
    requires Good(cs.slots) && Live(cs.slots, d)
    ensures var s, t, cap := cs.slots, Destroy(cs, d).slots, cs.slots[d].cap;
      && (Named(t, ty, objref) ==> Named(s, ty, objref)) && Named(s, cap.ty, cap.objref)
      && ((ty, objref) != (cap.ty, cap.objref) && Named(s, ty, objref) ==> Named(t, ty, objref))
  {
    hide Good; hide Destroy;
    var s, t := cs.slots, Destroy(cs, d).slots;
    if Named(t, ty, objref) {
      var k: nat :| Live(t, k) && t[k].cap.ty == ty && t[k].cap.objref == objref;
      DestroyKeepsName(cs, d, k);
    }
    if (ty, objref) != (s[d].cap.ty, s[d].cap.objref) && Named(s, ty, objref) {
      var k: nat :| Live(s, k) && s[k].cap.ty == ty && s[k].cap.objref == objref;
      DestroyKeepsName(cs, d, k);
    }
  }

  lemma DestroyKeepsName(cs: CS, d: nat, k: nat)
    requires Good(cs.slots) && Live(cs.slots, d) && k < |cs.slots|
    ensures var s, t := cs.slots, Destroy(cs, d).slots;
      if k == d then !Live(t, k)
      else (Live(s, k) <==> Live(t, k)) && t[k].cap.ty == s[k].cap.ty && t[k].cap.objref == s[k].cap.objref
  {
    hide Good; hide Destroy;
    DestroyKeeps(cs, d);
  }

  /** Revocation calls the hook once for each zeroable object whose last capability it removed,
      and for no other object. */
  lemma {:induction false} RevokeZeroesOnce(cs: CS, c: nat, ty: CapType, objref: nat)
    requires Good(cs.slots)
    ensures var r := RevokeLoop(cs, c);
      Calls(r.zeroed, ty, objref) == Calls(cs.zeroed, ty, objref) + Vanished(cs.slots, r.slots, ty, objref)
    ensures Named(RevokeLoop(cs, c).slots, ty, objref) ==> Named(cs.slots, ty, objref)
    decreases CountLive(cs.slots)
  {
    match FirstLeaf(cs.slots, c, 0)
    case None =>
    case Some(d) =>
      DestroyCounts(cs, d);
      DestroyGood(cs, d);
      DestroyZeroes(cs, d, ty, objref);
      RevokeZeroesOnce(Destroy(cs, d), c, ty, objref);
  }

  lemma ResetNames(cs: CS, c: nat, ty: CapType, objref: nat)
    ensures Named(ResetWatermark(cs, c).slots, ty, objref) <==> Named(cs.slots, ty, objref)
  {
    var s, r := cs.slots, ResetWatermark(cs, c).slots;
    if k: nat :| Live(s, k) && s[k].cap.ty == ty && s[k].cap.objref == objref { assert Live(r, k); }
    if k: nat :| Live(r, k) && r[k].cap.ty == ty && r[k].cap.objref == objref { assert Live(s, k); }
  }

  /** Deleting does the same for the objects it removed, `c` itself included. */
  lemma DeleteZeroesOnce(cs: CS, c: nat, ty: CapType, objref: nat)
    requires Good(cs.slots) && Live(cs.slots, c)
    ensures var r := Delete(cs, c);
      r.Ok? && Calls(r.value.zeroed, ty, objref) ==
        Calls(cs.zeroed, ty, objref) + Vanished(cs.slots, r.value.slots, ty, objref)
  {
    hide RevokeLoop;
    hide Good;
    hide Named;
    hide Destroy;
    RevokeZeroesOnce(cs, c, ty, objref);
    RevokeGood(cs, c);
    ResetNames(RevokeLoop(cs, c), c, ty, objref);
    DestroyZeroes(Revoke(cs, c).value, c, ty, objref);
  }

  /** Every new call is for a capability that was derived from `c` and whose object is gone. */
  lemma {:induction false} RevokeCallsAreForVanished(cs: CS, c: nat, n: nat)
    requires Good(cs.slots) && c < |cs.slots| && |cs.zeroed| <= n < |RevokeLoop(cs, c).zeroed|
    ensures var z := RevokeLoop(cs, c).zeroed[n];
      && Zeroable(z.ty) && !Named(RevokeLoop(cs, c).slots, z.ty, z.objref)
      && exists d: nat :: Live(cs.slots, d) && Descends(cs.slots, d, c) && SameObject(cs.slots[d].cap, CallFor(z))
    decreases CountLive(cs.slots)
  {
    var d := FirstLeaf(cs.slots, c, 0).value;
    var next, r := Destroy(cs, d), RevokeLoop(cs, c);
    DestroyCounts(cs, d);
    DestroyGood(cs, d);
    DestroyKeeps(cs, d);
    WalkDecidesDescent(cs.slots, d, c);
    LogGrows(next, c);
    if n < |next.zeroed| {
      var z := r.zeroed[n];
      NamedByScan(next.slots, z.ty, z.objref);
      RevokeZeroesOnce(next, c, z.ty, z.objref);
      assert Live(cs.slots, d);
    } else {
      RevokeCallsAreForVanished(next, c, n);
      var z := r.zeroed[n];
      var e: nat :| Live(next.slots, e) && Descends(next.slots, e, c) && SameObject(next.slots[e].cap, CallFor(z));
      DescendsAfterDestroy(cs, d, e, c);
      assert Kept(cs.slots[e], next.slots[e]);
      assert Live(cs.slots, e);
    }
  }

  lemma {:induction false} LogGrows(cs: CS, c: nat)
    ensures cs.zeroed <= RevokeLoop(cs, c).zeroed
    decreases CountLive(cs.slots)
  {
    match FirstLeaf(cs.slots, c, 0)
    case None =>
    case Some(d) =>
      DestroyCounts(cs, d);
      LogGrows(Destroy(cs, d), c);
  }

  /** The capability a zeroing call was made for. */
  function CallFor(z: ZeroCall): (cap: RawCap) {
    RawCap(z.ty, {}, z.objref, z.size, 0, 0, 0)
  }

  lemma DeletedCall(cs: CS, c: nat)
    requires Live(cs.slots, c)
    ensures var r := Destroy(cs, c);
      && (r.zeroed == cs.zeroed || (r.zeroed == cs.zeroed + [r.zeroed[|cs.zeroed|]]
            && Zeroable(r.zeroed[|cs.zeroed|].ty) && SameObject(cs.slots[c].cap, CallFor(r.zeroed[|cs.zeroed|]))
            && !Named(r.slots, cs.slots[c].cap.ty, cs.slots[c].cap.objref)))
  {
    NamedByScan(Destroy(cs, c).slots, cs.slots[c].cap.ty, cs.slots[c].cap.objref);
    hide Named;
    hide NamedUpTo;
  }

  /** Every call that delete makes is for `c` or a capability derived from it, and its object is gone. */
  lemma DeleteCallsAreForVanished(cs: CS, c: nat, n: nat)
    requires Good(cs.slots) && Live(cs.slots, c) && Delete(cs, c).Ok? && |cs.zeroed| <= n < |Delete(cs, c).value.zeroed|
    ensures var r := Delete(cs, c).value;
      && Zeroable(r.zeroed[n].ty) && !Named(r.slots, r.zeroed[n].ty, r.zeroed[n].objref)
      && exists d: nat ::
            Live(cs.slots, d) && (d == c || Descends(cs.slots, d, c))
            && SameObject(cs.slots[d].cap, CallFor(r.zeroed[n]))
  {
    hide RevokeLoop;
    hide Good;
    hide Named;
    hide Destroy;
    var a, r := RevokeLoop(cs, c), Delete(cs, c).value;
    var z := r.zeroed[n];
    RevokeGood(cs, c);
    RevokedStaysLive(cs, c);
    DeletedCall(Revoke(cs, c).value, c);
    if n < |a.zeroed| {
      RevokeCallsAreForVanished(cs, c, n);
      ResetNames(a, c, z.ty, z.objref);
      DestroyZeroes(Revoke(cs, c).value, c, z.ty, z.objref);
    } else {
      assert SameObject(cs.slots[c].cap, CallFor(z));
    }
  }
}

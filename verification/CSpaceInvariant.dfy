/** What every derivation edge promises, and that every operation keeps it. */
module CSpaceInvariant {
  import opened Caps
  import opened CSpaceSpec
  import opened CSpaceForest
  import opened Options

  predicate SameObject(a: RawCap, b: RawCap) {
    a.ty == b.ty && a.objref == b.objref && a.size == b.size
  }

  /** The two capabilities name no frame in common. */
  predicate FramesApart(a: RawCap, b: RawCap) {
    a.objref + a.size <= b.objref || b.objref + b.size <= a.objref
  }

  /** A child of an Untyped is a retyped object inside the consumed part; any other child has no
      more rights than its parent and, unless it is a split budget, names the same object. */
  predicate EdgeOk(u: RawCap, c: RawCap) {
    if u.ty.Untyped? then
      && Retypeable(c.ty) && c.size > 0
      && u.objref <= c.objref && c.objref + c.size <= u.objref + u.watermark
    else
      && c.rights <= u.rights
      && if u.ty.Sched? then c.ty.Sched? else Duplicable(u.ty) && SameObject(u, c)
  }

  predicate ChildOf(s: Slots, i: nat, p: nat) {
    i < |s| && s[i].parent == To(p)
  }

  ghost predicate Edges(s: Slots) {
    forall i: nat, p: nat :: ChildOf(s, i, p) && p < |s| ==> EdgeOk(s[p].cap, s[i].cap)
  }

  ghost predicate Siblings(s: Slots) {
    forall i: nat, j: nat, p: nat :: ChildOf(s, i, p) && ChildOf(s, j, p) && p < |s| && s[p].cap.ty.Untyped?
      ==> SameObject(s[i].cap, s[j].cap) || FramesApart(s[i].cap, s[j].cap)
  }

  ghost predicate Watermarks(s: Slots) {
    forall i: nat :: i < |s| && s[i].cap.ty.Untyped? ==> s[i].cap.watermark <= s[i].cap.size
  }

  ghost predicate Good(s: Slots) {
    Forest(s) && Edges(s) && Siblings(s) && Watermarks(s)
  }

  // ---- the three ways slots change ----

  lemma PlaceGood(s: Slots, dest: nat, cap: RawCap, parent: Link)
    requires Good(s) && dest < |s| && !Live(s, dest) && !cap.ty.Null? && (cap.ty.Untyped? ==> cap.watermark <= cap.size)
    requires parent.To? ==> Live(s, parent.slot) && EdgeOk(s[parent.slot].cap, cap)
    requires parent.To? && s[parent.slot].cap.ty.Untyped?
      ==> forall i: nat :: ChildOf(s, i, parent.slot) ==> SameObject(s[i].cap, cap) || FramesApart(s[i].cap, cap)
    ensures Good(s[dest := Cte(cap, parent)])
  {
    PlaceForest(s, dest, cap, parent);
    var t := s[dest := Cte(cap, parent)];
    forall i: nat, p: nat | ChildOf(t, i, p) ensures p != dest && (i != dest ==> ChildOf(s, i, p)) {
      assert i != dest ==> ChildOf(s, i, p);
    }
  }

  /** A Sched may change its budget and an Untyped may consume more of itself. */
  predicate MayBecome(old_: RawCap, cap: RawCap) {
    && cap.ty == old_.ty && cap.objref == old_.objref && cap.rights == old_.rights
    && (cap.size == old_.size || cap.ty.Sched?)
    && (cap.ty.Untyped? ==> old_.watermark <= cap.watermark <= cap.size)
  }

  lemma UpdateGood(s: Slots, i: nat, cap: RawCap)
    requires Good(s) && Live(s, i) && MayBecome(s[i].cap, cap)
    ensures Good(s[i := s[i].(cap := cap)])
  {
    UpdateForest(s, i, cap);
    var t := s[i := s[i].(cap := cap)];
    assert forall k: nat, p: nat :: ChildOf(t, k, p) <==> ChildOf(s, k, p);
  }

  lemma RemoveGood(s: Slots, d: nat)
    requires Good(s) && Live(s, d) && !HasChildren(s, d)
    ensures Good(s[d := EMPTY])
  {
    RemoveForest(s, d);
    var t := s[d := EMPTY];
    forall i: nat, p: nat | ChildOf(t, i, p) ensures i != d && p != d && ChildOf(s, i, p) {
      assert Live(s, i);
    }
  }

  lemma MoveGood(s: Slots, src: nat, dest: nat)
    requires Good(s) && Live(s, src) && dest < |s| && !Live(s, dest)
    ensures Good(Reparent(s, src, dest)[dest := s[src]][src := EMPTY])
  {
    MoveForest(s, src, dest);
    var t := Reparent(s, src, dest)[dest := s[src]][src := EMPTY];
    ghost var back := (i: nat) => if i == dest then src else i;
    NotOwnChild(s, src);
    forall i: nat, p: nat | ChildOf(t, i, p)
      ensures i != src && p != src && ChildOf(s, back(i), back(p)) && t[i].cap == s[back(i)].cap
    {
    }
    forall i: nat | i < |s| && i != src ensures t[i].cap == s[back(i)].cap {}
  }

  // ---- each operation ----

  lemma ObjectFits(frames: nat, i: nat, count: nat)
    requires i < count
    ensures (i + 1) * frames == i * frames + frames <= count * frames
  {
    assert count * frames - (i + 1) * frames == (count - (i + 1)) * frames;
  }

  lemma {:induction false} PlaceObjectsGood(s: Slots, ut: nat, ty: CapType, base: nat, frames: nat, dest: nat, i: nat,
                                            count: nat)
    requires Good(s) && Live(s, ut) && s[ut].cap.ty.Untyped? && Retypeable(ty) && frames > 0
    requires i <= count && dest + count <= |s| && RangeEmpty(s, dest + i, count - i)
    requires s[ut].cap.objref <= base && base + count * frames <= s[ut].cap.objref + s[ut].cap.watermark
    requires forall k: nat :: ChildOf(s, k, ut) ==> s[k].cap.objref + s[k].cap.size <= base + i * frames
    ensures Good(PlaceObjects(s, ut, ty, base, frames, dest, i, count))
    decreases count - i
  {
    hide Good;
    if i < count {
      var cap := Object(ty, base, frames, i);
      var t := s[dest + i := Cte(cap, To(ut))];
      ObjectFits(frames, i, count);
      PlaceGood(s, dest + i, cap, To(ut));
      forall k: nat | ChildOf(t, k, ut) ensures t[k].cap.objref + t[k].cap.size <= base + (i + 1) * frames {
        assert k != dest + i ==> ChildOf(s, k, ut);
      }
      PlaceObjectsGood(t, ut, ty, base, frames, dest, i + 1, count);
    }
  }

  lemma RetypeGood(cs: CS, ut: nat, ty: CapType, frames: nat, count: nat, dest: nat)
    requires Good(cs.slots)
    ensures var r := Retype(cs, ut, ty, frames, count, dest); r.Ok? ==> Good(r.value.slots)
  {
    var r := Retype(cs, ut, ty, frames, count, dest);
    if r.Ok? {
      var u := cs.slots[ut].cap;
      var cap := u.(watermark := u.watermark + frames * count);
      var charged := cs.slots[ut := cs.slots[ut].(cap := cap)];
      UpdateGood(cs.slots, ut, cap);
      assert count * frames == frames * count;
      forall k: nat | ChildOf(charged, k, ut)
        ensures charged[k].cap.objref + charged[k].cap.size <= u.objref + u.watermark
      {
        assert ChildOf(cs.slots, k, ut);
        assert EdgeOk(u, cs.slots[k].cap);
        assert k != ut by { NotOwnChild(cs.slots, ut); }
      }
      PlaceObjectsGood(charged, ut, ty, u.objref + u.watermark, frames, dest, 0, count);
    }
  }

  lemma NotOwnChild(s: Slots, i: nat)
    requires Forest(s) && i < |s|
    ensures !ChildOf(s, i, i)
  {
    DescentIsStrict(s, i);
    if ChildOf(s, i, i) { ChildDescends(s, i, i, i); }
  }

  lemma MintGood(cs: CS, src: nat, dest: nat, rights: Rights, badge: nat)
    requires Good(cs.slots)
    ensures var r := Mint(cs, src, dest, rights, badge); r.Ok? ==> Good(r.value.slots)
  {
    if Mint(cs, src, dest, rights, badge).Ok? {
      PlaceGood(cs.slots, dest, cs.slots[src].cap.(rights := rights, badge := badge), To(src));
    }
  }

  lemma CopyGood(cs: CS, src: nat, dest: nat)
    requires Good(cs.slots)
    ensures var r := Copy(cs, src, dest); r.Ok? ==> Good(r.value.slots)
  {
    if Copy(cs, src, dest).Ok? {
      var parent := if cs.slots[src].parent.Nil? then To(src) else cs.slots[src].parent;
      assert cs.slots[src].parent.To? ==> ChildOf(cs.slots, src, parent.slot);
      PlaceGood(cs.slots, dest, cs.slots[src].cap, parent);
    }
  }

  lemma MoveOpGood(cs: CS, src: nat, dest: nat)
    requires Good(cs.slots)
    ensures var r := Move(cs, src, dest); r.Ok? ==> Good(r.value.slots)
  {
    if Move(cs, src, dest).Ok? && dest != src { MoveGood(cs.slots, src, dest); }
  }

  lemma SplitGood(cs: CS, src: nat, dest: nat, amount: nat)
    requires Good(cs.slots)
    ensures var r := SplitSched(cs, src, dest, amount); r.Ok? ==> Good(r.value.slots)
  {
    var r := SplitSched(cs, src, dest, amount);
    if r.Ok? {
      var c := cs.slots[src].cap;
      var child := BudgetOf(c).Split(amount).value.1;
      var cap := RawCap(Sched, c.rights, cs.nextObj, child.capacity, child.consumed, child.period, 0);
      PlaceGood(cs.slots, dest, cap, To(src));
      UpdateGood(cs.slots[dest := Cte(cap, To(src))], src, r.value.slots[src].cap);
    }
  }

  lemma DelegateGood(cs: CS, src: nat, dest: nat, amount: nat)
    requires Good(cs.slots)
    ensures var r := Delegate(cs, src, dest, amount); r.Ok? ==> Good(r.value.slots)
  {
    var r := Delegate(cs, src, dest, amount);
    if r.Ok? && src != dest {
      var s := cs.slots[src := cs.slots[src].(cap := r.value.slots[src].cap)];
      UpdateGood(cs.slots, src, r.value.slots[src].cap);
      UpdateGood(s, dest, r.value.slots[dest].cap);
    }
  }

  lemma MintReplyGood(cs: CS, dest: nat, caller: nat, badge: nat)
    requires Good(cs.slots)
    ensures var r := MintReply(cs, dest, caller, badge); r.Ok? ==> Good(r.value.slots)
  {
    if MintReply(cs, dest, caller, badge).Ok? {
      PlaceGood(cs.slots, dest, RawCap(Reply, {}, caller, 0, 0, 0, badge), Nil);
    }
  }

  lemma DestroyGood(cs: CS, d: nat)
    requires Good(cs.slots) && !HasChildren(cs.slots, d)
    ensures Good(Destroy(cs, d).slots)
  {
    if Live(cs.slots, d) {
      RemoveGood(cs.slots, d);
      var s, parent := cs.slots[d := EMPTY], cs.slots[d].parent;
      var t := Credit(s, cs.slots[d].cap, parent);
      if t != s { UpdateGood(s, parent.slot, t[parent.slot].cap); }
    }
  }

  /** Nothing is ever derived from a Reply, so consuming one removes a leaf. */
  lemma ReplyHasNoChildren(s: Slots, d: nat)
    requires Good(s) && Live(s, d) && !Duplicable(s[d].cap.ty) && !s[d].cap.ty.Untyped? && !s[d].cap.ty.Sched?
    ensures !HasChildren(s, d)
  {
    forall k | 0 <= k < |s| ensures s[k].parent != To(d) {
      assert ChildOf(s, k, d) ==> EdgeOk(s[d].cap, s[k].cap);
    }
  }

  lemma ConsumeReplyGood(cs: CS, dest: nat)
    requires Good(cs.slots)
    ensures var r := ConsumeReply(cs, dest); r.Ok? ==> Good(r.value.1.slots)
  {
    if ConsumeReply(cs, dest).Ok? {
      ReplyHasNoChildren(cs.slots, dest);
      DestroyGood(cs, dest);
    }
  }

  lemma {:induction false} RevokeLoopGood(cs: CS, c: nat)
    requires Good(cs.slots)
    ensures Good(RevokeLoop(cs, c).slots)
    decreases CountLive(cs.slots)
  {
    match FirstLeaf(cs.slots, c, 0)
    case None =>
    case Some(d) =>
      DestroyCounts(cs, d);
      DestroyGood(cs, d);
      RevokeLoopGood(Destroy(cs, d), c);
  }
}

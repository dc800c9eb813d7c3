/** Memory: what an Untyped handed out stays inside it, and never overlaps. */
module CSpaceFrames {
  import opened Caps
  import opened CSpaceSpec
  import opened CSpaceForest
  import opened CSpaceInvariant
  import opened CSpaceRevoke

  /** A descendant of an Untyped names the same object as one of the Untyped's own children. */
  lemma {:induction false} NamesRetypedObject(s: Slots, d: nat, u: nat, k: nat) returns (child: nat)
    requires Good(s) && u < |s| && s[u].cap.ty.Untyped? && k > 0 && Up(s, d, k) == To(u)
    ensures ChildOf(s, child, u) && SameObject(s[d].cap, s[child].cap)
    decreases k
  {
    var p := s[d].parent.slot;
    assert ChildOf(s, d, p) && Up(s, p, k - 1) == To(u);
    if k == 1 {
      child := d;
    } else {
      child := NamesRetypedObject(s, p, u, k - 1);
      assert EdgeOk(s[u].cap, s[child].cap);
      assert EdgeOk(s[p].cap, s[d].cap);
    }
  }

  /** Every live descendant of an Untyped lies in the part the Untyped has consumed. */
  lemma DescendantInsideUntyped(s: Slots, d: nat, u: nat)
    requires Good(s) && u < |s| && s[u].cap.ty.Untyped? && Descends(s, d, u)
    ensures var ut := s[u].cap;
      && Live(s, d) && Retypeable(s[d].cap.ty) && s[d].cap.size > 0
      && ut.objref <= s[d].cap.objref
      && s[d].cap.objref + s[d].cap.size <= ut.objref + ut.watermark <= ut.objref + ut.size
  {
    var k: nat :| k > 0 && Up(s, d, k) == To(u);
    var child := NamesRetypedObject(s, d, u, k);
    DescendsParent(s, d, u);
  }

  /** Any two descendants of an Untyped name the same object or share no frame. */
  lemma DescendantsSameOrApart(s: Slots, d: nat, e: nat, u: nat)
    requires Good(s) && u < |s| && s[u].cap.ty.Untyped? && Descends(s, d, u) && Descends(s, e, u)
    ensures d < |s| && e < |s| && (SameObject(s[d].cap, s[e].cap) || FramesApart(s[d].cap, s[e].cap))
  {
    DescendsParent(s, d, u);
    DescendsParent(s, e, u);
    var j: nat :| j > 0 && Up(s, d, j) == To(u);
    var k: nat :| k > 0 && Up(s, e, k) == To(u);
    var a := NamesRetypedObject(s, d, u, j);
    var b := NamesRetypedObject(s, e, u, k);
  }

  lemma DescendsTrans(s: Slots, d: nat, c: nat, u: nat)
    requires Descends(s, d, c) && (c == u || Descends(s, c, u))
    ensures Descends(s, d, u)
  {
    if c != u {
      var j: nat :| j > 0 && Up(s, d, j) == To(c);
      var k: nat :| k > 0 && Up(s, c, k) == To(u);
      UpPlus(s, d, j, k);
      assert Up(s, d, j + k) == To(u);
    }
  }

  /** Revoking an Untyped or anything below it never zeroes a frame that a surviving descendant of
      the Untyped still names. */
  lemma RevokeSparesSurvivors(cs: CS, c: nat, u: nat, n: nat, j: nat)
    requires Good(cs.slots) && Live(cs.slots, c) && u < |cs.slots| && cs.slots[u].cap.ty.Untyped?
    requires c == u || Descends(cs.slots, c, u)
    requires |cs.zeroed| <= n < |RevokeLoop(cs, c).zeroed|
    requires Descends(cs.slots, j, u) && Live(RevokeLoop(cs, c).slots, j)
    ensures var z := RevokeLoop(cs, c).zeroed[n];
      FramesApart(CallFor(z), RevokeLoop(cs, c).slots[j].cap)
  {
    hide RevokeLoop;
    hide Good;
    var r := RevokeLoop(cs, c);
    var z := r.zeroed[n];
    var gone := CallFor(z);
    RevokeCallsAreForVanished(cs, c, n);
    var d: nat :| Live(cs.slots, d) && Descends(cs.slots, d, c) && SameObject(cs.slots[d].cap, gone);
    DescendsTrans(cs.slots, d, c, u);
    DescendantsSameOrApart(cs.slots, d, j, u);
    DescendantInsideUntyped(cs.slots, j, u);
    RevokeEmptiesDescendants(cs, c, j);
    assert Kept(cs.slots[j], r.slots[j]);
    assert Named(r.slots, r.slots[j].cap.ty, r.slots[j].cap.objref);
  }

  /** Deleting a descendant of an Untyped, or the Untyped, never zeroes a frame that a surviving descendant
      of the Untyped still names. */
  lemma DeleteSparesSurvivors(cs: CS, c: nat, u: nat, n: nat, j: nat)
    requires Good(cs.slots) && Live(cs.slots, c) && u < |cs.slots| && cs.slots[u].cap.ty.Untyped?
    requires c == u || Descends(cs.slots, c, u)
    requires Delete(cs, c).Ok? && |cs.zeroed| <= n < |Delete(cs, c).value.zeroed|
    requires Descends(cs.slots, j, u) && Live(Delete(cs, c).value.slots, j)
    ensures FramesApart(CallFor(Delete(cs, c).value.zeroed[n]), Delete(cs, c).value.slots[j].cap)
  {
    hide Delete;
    hide Good;
    hide Zeroable;
    var r := Delete(cs, c).value;
    var z := r.zeroed[n];
    DeleteCallsAreForVanished(cs, c, n);
    var d: nat :| Live(cs.slots, d) && (d == c || Descends(cs.slots, d, c)) && SameObject(cs.slots[d].cap, CallFor(z));
    if d == u {
      UntypedNotZeroed(cs.slots[d].cap, z);
    } else {
      if d != c { DescendsTrans(cs.slots, d, c, u); }
      DescendantsSameOrApart(cs.slots, d, j, u);
      DescendantInsideUntyped(cs.slots, j, u);
      DeleteKeeps(cs, c, j);
      assert Named(r.slots, r.slots[j].cap.ty, r.slots[j].cap.objref);
    }
  }

  lemma UntypedNotZeroed(cap: RawCap, z: ZeroCall)
    requires cap.ty.Untyped? && SameObject(cap, CallFor(z))
    ensures !Zeroable(z.ty)
  {
  }

  /** What a delete leaves live names the object it named. */
  lemma DeleteKeeps(cs: CS, c: nat, j: nat)
    requires Good(cs.slots) && Live(cs.slots, c) && Delete(cs, c).Ok? && Live(Delete(cs, c).value.slots, j)
    ensures j < |cs.slots| && Kept(cs.slots[j], Delete(cs, c).value.slots[j])
  {
    hide RevokeLoop;
    hide Good;
    hide Destroy;
    RevokeGood(cs, c);
    RevokedStaysLive(cs, c);
    DestroyKeeps(Revoke(cs, c).value, c);
    if j < |cs.slots| { RevokeEmptiesDescendants(cs, c, j); }
  }
}

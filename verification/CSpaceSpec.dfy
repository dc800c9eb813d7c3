/** What each capability-space operation does to the slots: the reference the class CSpace is
    proved against. An operation that fails changes nothing, so it is an `Err` here. */
module CSpaceSpec {
  import opened Caps
  import opened Options

  /** A parent link in the derivation tree; `Nil` marks a derivation root. */
  datatype Link = Nil | To(slot: nat)

  datatype Cte = Cte(cap: RawCap, parent: Link)

  const EMPTY: Cte := Cte(NULL_CAP, Nil)

  type Slots = seq<Cte>

  /** One call of the zeroing hook, with the type of the object it was made for. */
  datatype ZeroCall = ZeroCall(ty: CapType, objref: nat, size: nat)

  datatype CS = CS(slots: Slots, nextObj: nat, zeroed: seq<ZeroCall>)

  predicate Live(s: Slots, c: nat) {
    c < |s| && !s[c].cap.ty.Null?
  }

  function Resolve(s: Slots, c: nat): (r: Result<RawCap>) {
    if c >= |s| then Err(OutOfBounds)
    else if s[c].cap.ty.Null? then Err(EmptySlot)
    else Ok(s[c].cap)
  }

  function Place(s: Slots, dest: nat, cap: RawCap, parent: Link): (r: Result<Slots>) {
    if dest >= |s| then Err(OutOfBounds)
    else if !s[dest].cap.ty.Null? then Err(SlotOccupied)
    else Ok(s[dest := Cte(cap, parent)])
  }

  // ---- derivation ----

  /** The `i`th object of a retype. */
  function Object(ty: CapType, base: nat, frames: nat, i: nat): (c: RawCap) {
    RawCap(ty, DefaultRights(ty), base + i * frames, frames, 0, 0, 0)
  }

  /** Objects `i .. count` placed one after the other as children of `ut`. */
  function PlaceObjects(s: Slots, ut: nat, ty: CapType, base: nat, frames: nat, dest: nat, i: nat,
                        count: nat): (r: Slots)
    requires i <= count && dest + count <= |s|
    ensures |r| == |s|
    decreases count - i
  {
    if i == count then s
    else PlaceObjects(s[dest + i := Cte(Object(ty, base, frames, i), To(ut))], ut, ty, base, frames, dest, i + 1, count)
  }

  function ZeroObjects(ty: CapType, base: nat, frames: nat, i: nat, count: nat): (r: seq<ZeroCall>)
    requires i <= count
    decreases count - i
  {
    if i == count then [] else [ZeroCall(ty, base + i * frames, frames)] + ZeroObjects(ty, base, frames, i + 1, count)
  }

  predicate RangeEmpty(s: Slots, lo: nat, n: nat)
    requires lo + n <= |s|
  {
    forall i :: lo <= i < lo + n ==> s[i].cap.ty.Null?
  }

  function Retype(cs: CS, ut: nat, ty: CapType, frames: nat, count: nat, dest: nat): (r: Result<CS>) {
    var u :- Resolve(cs.slots, ut);
    var _ :- Need(u.ty.Untyped?, WrongType);
    var _ :- Need(RETYPE in u.rights, InsufficientRights);
    var _ :- Need(Retypeable(ty), WrongType);
    var _ :- Need(frames != 0 && count != 0, OutOfBudget);
    var need := frames * count;
    var _ :- Need(need <= U32_MAX, OutOfBudget);
    var _ :- Need(u.watermark + need <= u.size, OutOfBudget);
    if dest + count > |cs.slots| then Err(OutOfBounds)
    else if !RangeEmpty(cs.slots, dest, count) then Err(SlotOccupied)
    else
      var base := u.objref + u.watermark;
      var charged := cs.slots[ut := cs.slots[ut].(cap := u.(watermark := u.watermark + need))];
      Ok(cs.(slots := PlaceObjects(charged, ut, ty, base, frames, dest, 0, count),
             zeroed := cs.zeroed + ZeroObjects(ty, base, frames, 0, count)))
  }

  function Mint(cs: CS, src: nat, dest: nat, rights: Rights, badge: nat): (r: Result<CS>) {
    var c :- Resolve(cs.slots, src);
    var _ :- Need(Duplicable(c.ty) && DERIVE in c.rights && rights <= c.rights, InsufficientRights);
    var s :- Place(cs.slots, dest, c.(rights := rights, badge := badge), To(src));
    Ok(cs.(slots := s))
  }

  function Copy(cs: CS, src: nat, dest: nat): (r: Result<CS>) {
    var c :- Resolve(cs.slots, src);
    var _ :- Need(Duplicable(c.ty) && DERIVE in c.rights, InsufficientRights);
    var parent := if cs.slots[src].parent.Nil? then To(src) else cs.slots[src].parent;
    var s :- Place(cs.slots, dest, c, parent);
    Ok(cs.(slots := s))
  }

  /** Every child of `src` becomes a child of `dest`. */
  function Reparent(s: Slots, src: nat, dest: nat): (r: Slots)
    ensures |r| == |s|
  {
    seq(|s|, i requires 0 <= i < |s| => if s[i].parent == To(src) then s[i].(parent := To(dest)) else s[i])
  }

  function Move(cs: CS, src: nat, dest: nat): (r: Result<CS>) {
    var c :- Resolve(cs.slots, src);
    if dest == src then Ok(cs)
    else if dest >= |cs.slots| then Err(OutOfBounds)
    else if !cs.slots[dest].cap.ty.Null? then Err(SlotOccupied)
    else Ok(cs.(slots := Reparent(cs.slots, src, dest)[dest := cs.slots[src]][src := EMPTY]))
  }

  // ---- CPU time ----

  function SplitSched(cs: CS, src: nat, dest: nat, amount: nat): (r: Result<CS>) {
    var c :- Resolve(cs.slots, src);
    var _ :- Need(c.ty.Sched?, WrongType);
    var _ :- Need(DERIVE in c.rights, InsufficientRights);
    match BudgetOf(c).Split(amount)
    case None => Err(OutOfBudget)
    case Some((left, child)) =>
      var s :- Place(cs.slots, dest,
        RawCap(Sched, c.rights, cs.nextObj, child.capacity, child.consumed, child.period, 0), To(src));
      Ok(cs.(slots := s[src := s[src].(cap := WithBudget(c, left))], nextObj := cs.nextObj + 1))
  }

  function Delegate(cs: CS, src: nat, dest: nat, amount: nat): (r: Result<CS>) {
    if src == dest then Ok(cs)
    else
      var c :- Resolve(cs.slots, src);
      var d :- Resolve(cs.slots, dest);
      var _ :- Need(c.ty.Sched? && d.ty.Sched?, WrongType);
      var _ :- Need(DERIVE in c.rights, InsufficientRights);
      match BudgetOf(c).Delegate(BudgetOf(d), amount)
      case None => Err(OutOfBudget)
      case Some((cb, db)) =>
        Ok(cs.(slots := cs.slots[src := cs.slots[src].(cap := WithBudget(c, cb))]
                                [dest := cs.slots[dest].(cap := WithBudget(d, db))]))
  }

  // ---- reply authority ----

  function MintReply(cs: CS, dest: nat, caller: nat, badge: nat): (r: Result<CS>) {
    var s :- Place(cs.slots, dest, RawCap(Reply, {}, caller, 0, 0, 0, badge), Nil);
    Ok(cs.(slots := s))
  }

  /** The caller the Reply named, and the space without it. */
  function ConsumeReply(cs: CS, dest: nat): (r: Result<(nat, CS)>) {
    var c :- Resolve(cs.slots, dest);
    var _ :- Need(c.ty.Reply?, WrongType);
    Ok((c.objref, Destroy(cs, dest)))
  }

  // ---- destruction ----

  /** Some live slot names the object `(ty, objref)`. */
  ghost predicate Named(s: Slots, ty: CapType, objref: nat) {
    exists k: nat :: Live(s, k) && s[k].cap.ty == ty && s[k].cap.objref == objref
  }

  predicate NamedUpTo(s: Slots, ty: CapType, objref: nat, n: nat)
    requires n <= |s|
  {
    exists k :: 0 <= k < n && !s[k].cap.ty.Null? && s[k].cap.ty == ty && s[k].cap.objref == objref
  }

  /** A destroyed Sched hands its budget to its Sched parent. */
  function Credit(s: Slots, cap: RawCap, parent: Link): (r: Slots)
    ensures |r| == |s|
  {
    if cap.ty.Sched? && parent.To? && parent.slot < |s| && s[parent.slot].cap.ty.Sched? then
      var p := s[parent.slot];
      s[parent.slot := p.(cap := p.cap.(size := if p.cap.size + cap.size > U32_MAX then U32_MAX
        else p.cap.size + cap.size))]
    else s
  }

  function Destroy(cs: CS, d: nat): (r: CS)
    ensures |r.slots| == |cs.slots|
  {
    if !Live(cs.slots, d) then cs
    else
      var cap := cs.slots[d].cap;
      var s := Credit(cs.slots[d := EMPTY], cap, cs.slots[d].parent);
      cs.(slots := s,
          zeroed := if Zeroable(cap.ty) && !NamedUpTo(s, cap.ty, cap.objref, |s|)
                    then cs.zeroed + [ZeroCall(cap.ty, cap.objref, cap.size)] else cs.zeroed)
  }

  // ---- revocation ----

  /** The bounded walk towards the root: is `a` met within `steps` steps from `d`? */
  predicate WalkMeets(s: Slots, d: nat, a: nat, steps: nat)
    decreases steps
  {
    steps > 0 && d < |s| && s[d].parent.To? && (s[d].parent.slot == a || WalkMeets(s, s[d].parent.slot, a, steps - 1))
  }

  predicate IsDescendant(s: Slots, d: nat, a: nat) {
    WalkMeets(s, d, a, |s| + 1)
  }

  predicate HasChildren(s: Slots, d: nat) {
    exists k :: 0 <= k < |s| && !s[k].cap.ty.Null? && s[k].parent == To(d)
  }

  predicate RevokableLeaf(s: Slots, c: nat, d: nat) {
    d != c && Live(s, d) && IsDescendant(s, d, c) && !HasChildren(s, d)
  }

  /** The first leaf at or after `i` that revoking `c` must destroy. */
  function FirstLeaf(s: Slots, c: nat, i: nat): (r: Option<nat>)
    requires i <= |s|
    ensures r.Some? ==> RevokableLeaf(s, c, r.value)
    ensures r.None? ==> forall d :: i <= d < |s| ==> !RevokableLeaf(s, c, d)
    decreases |s| - i
  {
    if i == |s| then None else if RevokableLeaf(s, c, i) then Some(i) else FirstLeaf(s, c, i + 1)
  }

  function CountLive(s: Slots): (n: nat) {
    if s == [] then 0 else CountLive(s[..|s| - 1]) + (if s[|s| - 1].cap.ty.Null? then 0 else 1)
  }

  lemma {:induction false} CountLiveUpdate(s: Slots, i: nat, e: Cte)
    requires i < |s|
    ensures CountLive(s[i := e]) ==
      CountLive(s) - (if s[i].cap.ty.Null? then 0 else 1) + (if e.cap.ty.Null? then 0 else 1)
  {
    var t := s[i := e];
    if i == |s| - 1 {
      assert t[..|s| - 1] == s[..|s| - 1];
    } else {
      CountLiveUpdate(s[..|s| - 1], i, e);
      assert t[..|s| - 1] == s[..|s| - 1][i := e];
    }
  }

  lemma DestroyCounts(cs: CS, d: nat)
    requires Live(cs.slots, d)
    ensures CountLive(Destroy(cs, d).slots) == CountLive(cs.slots) - 1
  {
    CountLiveUpdate(cs.slots, d, EMPTY);
    var s, parent := cs.slots[d := EMPTY], cs.slots[d].parent;
    var r := Credit(s, cs.slots[d].cap, parent);
    if r != s { CountLiveUpdate(s, parent.slot, r[parent.slot]); }
  }

  /** Leaf-first destruction of everything derived from `c`. */
  function RevokeLoop(cs: CS, c: nat): (r: CS)
    ensures |r.slots| == |cs.slots|
    decreases CountLive(cs.slots)
  {
    match FirstLeaf(cs.slots, c, 0)
    case None => cs
    case Some(d) =>
      DestroyCounts(cs, d);
      RevokeLoop(Destroy(cs, d), c)
  }

  function ResetWatermark(cs: CS, c: nat): (r: CS) {
    if c < |cs.slots| && cs.slots[c].cap.ty.Untyped?
    then cs.(slots := cs.slots[c := cs.slots[c].(cap := cs.slots[c].cap.(watermark := 0))])
    else cs
  }

  function Revoke(cs: CS, c: nat): (r: Result<CS>) {
    var _ :- Resolve(cs.slots, c);
    Ok(ResetWatermark(RevokeLoop(cs, c), c))
  }

  function Delete(cs: CS, c: nat): (r: Result<CS>) {
    var after :- Revoke(cs, c);
    Ok(Destroy(after, c))
  }

  // ---- transfer between spaces ----

  datatype GrantMode = MoveGrant | MintGrant

  /** The source and destination spaces after the grant. */
  function Grant(src: CS, i: nat, dst: CS, j: nat, rights: Rights, badge: nat, mode: GrantMode): (r: Result<(CS, CS)>) {
    var c :- Resolve(src.slots, i);
    var _ :- Need(!c.ty.Reply? && !c.ty.SharedRo?, InsufficientRights);
    var _ :- Need(mode.MintGrant? ==> !(c.ty.Untyped? || c.ty.Sched? || c.ty.Domain?), InsufficientRights);
    var _ :- Need(GRANT in c.rights && rights <= c.rights, InsufficientRights);
    var _ :- Need(mode.MoveGrant? ==> !HasChildren(src.slots, i), InsufficientRights);
    var d :- Place(dst.slots, j, c.(rights := rights, badge := badge), Nil);
    Ok((if mode.MoveGrant? then src.(slots := src.slots[i := EMPTY]) else src, dst.(slots := d)))
  }

  // ---- boot-path installers ----

  function Install(cs: CS, slot: nat, cap: RawCap): (r: CS)
    requires slot < |cs.slots|
  {
    cs.(slots := cs.slots[slot := Cte(cap, Nil)])
  }

  function RootUntyped(base: nat, frames: nat): (c: RawCap) { RawCap(Untyped, {RETYPE}, base, frames, 0, 0, 0) }
  function RootSched(objref: nat, budget: nat, period: nat): (c: RawCap) {
    RawCap(Sched, {DERIVE, GRANT}, objref, budget, 0, period, 0)
  }
  function RootDomain(id: nat): (c: RawCap) { RawCap(Domain, {ENTER}, id, 0, 0, 0, 0) }
  function RootNotification(id: nat, rights: Rights): (c: RawCap) { RawCap(Notification, rights, id, 0, 0, 0, 0) }
  function RootSharedRo(pfn: nat, frames: nat, va: nat): (c: RawCap) {
    RawCap(SharedRo, {READ}, pfn, frames, 0, va / 4096, 0)
  }
  function RootFrame(pfn: nat, frames: nat, rights: Rights): (c: RawCap) { RawCap(Frame, rights, pfn, frames, 0, 0, 0) }
}

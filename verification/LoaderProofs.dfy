/** What a load does to the two capability spaces, whether it succeeds or fails on the way. */
module LoaderProofs {
  import opened Caps
  import opened CSpaceSpec
  import opened CSpaceBudget
  import opened LoaderSpec
  import opened Options
  import Bits
  import CSpaceInvariant
  import CSpaceSystem
  import LittleEndian
  import Pex
  import ProcessSpaces
  import opened SpaceMap

  // ---- conservation and validity, on every path ----

  ghost predicate Sound(l: Load) {
    CSpaceInvariant.Good(l.loader.slots) && CSpaceInvariant.Good(l.proc.slots)
  }

  function Capacity(l: Load): (n: nat) {
    Total(l.loader.slots) + Total(l.proc.slots)
  }

  /** The second state follows from the first: sound if it was, and with the same Sched capacity. */
  ghost predicate Keeps(l: Load, r: Load) {
    (Sound(l) ==> Sound(r)) && Capacity(r) == Capacity(l)
  }

  lemma SegmentKeeps(s: Pex.Segment, data: seq<LittleEndian.byte>, l: Load)
    ensures Keeps(l, LoadSegment(s, data, l).load)
  {
    RetypeTotal(l.loader, L_UNTYPED, Frame, s.memSize / PAGE, 1, l.scratch);
    if Sound(l) { CSpaceInvariant.RetypeGood(l.loader, L_UNTYPED, Frame, s.memSize / PAGE, 1, l.scratch); }
    hide Total;
    hide CSpaceInvariant.Good;
    hide PlaceObjects;
  }

  lemma GrantKeeps(src: nat, m: Pex.ManifestEntry, rights: Rights, badge: nat, l: Load)
    ensures Keeps(l, Granted(src, m, rights, badge, l).load)
  {
    hide Total;
    hide Grant;
    hide CSpaceInvariant.Good;
    CSpaceSystem.GrantSlotTotals(l.loader, src, l.proc, m.destSlot, rights, badge, MintGrant);
    if Sound(l) { CSpaceSystem.GrantGood(l.loader, src, l.proc, m.destSlot, rights, badge, MintGrant); }
  }

  lemma SchedKeeps(m: Pex.ManifestEntry, rights: Rights, l: Load)
    ensures Keeps(l, LoadSched(m, rights, l).load)
  {
    hide Total;
    hide Grant;
    hide SplitSched;
    hide CSpaceInvariant.Good;
    var s := SplitSched(l.loader, L_SCHED, l.scratch, m.param0 % U32_LIMIT);
    SplitTotal(l.loader, L_SCHED, l.scratch, m.param0 % U32_LIMIT);
    if Sound(l) { CSpaceInvariant.SplitGood(l.loader, L_SCHED, l.scratch, m.param0 % U32_LIMIT); }
    if s.Ok? {
      CSpaceSystem.GrantSlotTotals(s.value, l.scratch, l.proc, m.destSlot, rights, 0, MoveGrant);
      if Sound(l) { CSpaceSystem.GrantGood(s.value, l.scratch, l.proc, m.destSlot, rights, 0, MoveGrant); }
    }
  }

  lemma EntryKeeps(m: Pex.ManifestEntry, l: Load)
    ensures Keeps(l, LoadEntry(m, l).load)
  {
    hide Keeps;
    hide LoadSched;
    hide Granted;
    KeepsItself(l);
    match RightsFromBits(m.rights) {
      case None =>
      case Some(rights) =>
        SchedKeeps(m, rights, l);
        GrantKeeps(L_ENDPOINT, m, rights, m.param0, l);
        if m.param0 < |l.frames| { GrantKeeps(l.frames[m.param0], m, rights, 0, l); }
    }
  }

  lemma KeepsItself(l: Load)
    ensures Keeps(l, l)
  {
  }

  lemma KeepsTrans(a: Load, b: Load, c: Load)
    requires Keeps(a, b) && Keeps(b, c)
    ensures Keeps(a, c)
  {
    hide Sound;
    hide Capacity;
  }

  lemma {:induction false} SegmentsKeep(img: Pex.Image, l: Load, i: nat)
    ensures Keeps(l, LoadSegments(img, l, i).load)
    decreases img.h.segCount - i
  {
    hide Keeps;
    hide LoadSegment;
    KeepsItself(l);
    if i < img.h.segCount {
      var r := LoadSegment(SegmentOf(img, i), DataOf(img, i), l);
      SegmentKeeps(SegmentOf(img, i), DataOf(img, i), l);
      if r.Done? {
        SegmentsKeep(img, r.load, i + 1);
        KeepsTrans(l, r.load, LoadSegments(img, r.load, i + 1).load);
      }
    }
  }

  lemma {:induction false} ManifestKeeps(img: Pex.Image, l: Load, i: nat)
    ensures Keeps(l, LoadManifest(img, l, i).load)
    decreases img.h.manCount - i
  {
    hide Keeps;
    hide LoadEntry;
    KeepsItself(l);
    if i < img.h.manCount {
      var r := LoadEntry(EntryOf(img, i), l);
      EntryKeeps(EntryOf(img, i), l);
      if r.Done? {
        ManifestKeeps(img, r.load, i + 1);
        KeepsTrans(l, r.load, LoadManifest(img, r.load, i + 1).load);
      }
    }
  }

  /** Whatever the image and wherever a load stops, both spaces stay good and the loader and the
      process together hold as much CPU time as before. */
  lemma LoadConserves(bytes: seq<LittleEndian.byte>, arch: nat, loader: CS, proc: CS, scratch: nat)
    ensures Keeps(Load(loader, proc, scratch, [], [], 0), LoadImage(bytes, arch, loader, proc, scratch).load)
  {
    hide Keeps;
    hide LoadSegments;
    hide LoadManifest;
    hide Pex.Parse;
    var l := Load(loader, proc, scratch, [], [], 0);
    KeepsItself(l);
    match Pex.Parse(bytes, arch) {
      case Err(_) =>
      case Ok(img) =>
        SegmentsKeep(img, l, 0);
        var r := LoadSegments(img, l, 0);
        if r.Done? {
          ManifestKeeps(img, r.load, 0);
          KeepsTrans(l, r.load, LoadManifest(img, r.load, 0).load);
        }
    }
  }

  // ---- exactly the manifest's capabilities ----

  function DeclaredType(code: nat): (t: CapType) {
    if code == Pex.MANIFEST_SCHED then Sched else if code == Pex.MANIFEST_ENDPOINT then Endpoint else Frame
  }

  /** The image, and the objects the loader has to hand out: its Endpoint, and frames from `base` on. */
  datatype Given = Given(img: Pex.Image, endpoint: RawCap, base: nat)

  function PagesOf(img: Pex.Image, k: nat): (n: nat) {
    SegmentOf(img, k).memSize / PAGE
  }

  /** The first frame retyped for segment `k`. */
  function FirstFrame(g: Given, k: nat): (f: nat) {
    if k == 0 then g.base else FirstFrame(g, k - 1) + PagesOf(g.img, k - 1)
  }

  /** The object an entry asks for: the loader's Endpoint, or the frames of the segment it names. */
  predicate NamesObject(g: Given, m: Pex.ManifestEntry, cap: RawCap) {
    && (m.capType == Pex.MANIFEST_ENDPOINT ==> cap.objref == g.endpoint.objref && cap.size == g.endpoint.size)
    && (m.capType == Pex.MANIFEST_FRAME ==>
          m.param0 < g.img.h.segCount && cap.objref == FirstFrame(g, m.param0) && cap.size == PagesOf(g.img, m.param0))
  }

  /** The bit of the wire format that stands for each right. */
  predicate HasBit(bits: nat, r: Right) {
    match r
    case READ => bits % 2 == 1
    case WRITE => bits / 2 % 2 == 1
    case EXECUTE => bits / 4 % 2 == 1
    case MAP => bits / 8 % 2 == 1
    case GRANT => bits / 16 % 2 == 1
    case RETYPE => bits / 32 % 2 == 1
    case SEND => bits / 64 % 2 == 1
    case RECV => bits / 128 % 2 == 1
    case SIGNAL => bits / 256 % 2 == 1
    case DERIVE => bits / 512 % 2 == 1
    case ENTER => bits / 1024 % 2 == 1
    case WAIT => bits / 2048 % 2 == 1
  }

  /** The word of bits declares exactly these rights, and has no bit beyond them. */
  predicate Declares(bits: nat, rights: Rights) {
    bits < 4096 && forall r: Right :: r in rights <==> HasBit(bits, r)
  }

  /** A word of bits is refused exactly when it has a bit that is no right, and otherwise gives what it declares. */
  lemma BitsDeclare(bits: nat)
    ensures RightsFromBits(bits).Some? <==> bits < 4096
    ensures RightsFromBits(bits).Some? ==> Declares(bits, RightsFromBits(bits).value)
  {
    forall r: Right ensures bits / Bit(r) % 2 == 1 <==> HasBit(bits, r) { assert bits / 1 == bits; }
  }

  /** The slot holds what the entry declares: its type, exactly its rights, its badge, the object it
      names, and for a Sched its budget. It derives from nothing in the process. */
  predicate Matches(g: Given, m: Pex.ManifestEntry, e: Cte) {
    && m.capType in {Pex.MANIFEST_SCHED, Pex.MANIFEST_ENDPOINT, Pex.MANIFEST_FRAME}
    && e.cap.ty == DeclaredType(m.capType) && Declares(m.rights, e.cap.rights) && e.parent.Nil?
    && e.cap.badge == (if m.capType == Pex.MANIFEST_ENDPOINT then m.param0 else 0)
    && (m.capType == Pex.MANIFEST_SCHED ==> e.cap.size == m.param0 % U32_LIMIT && e.cap.watermark == 0)
    && NamesObject(g, m, e.cap)
  }

  function Dest(img: Pex.Image, k: nat): (c: nat) {
    EntryOf(img, k).destSlot
  }

  /** The live slots are exactly the destinations of the first `i` entries, each its own. */
  ghost predicate Exactly(g: Given, s: Slots, i: nat) {
    && (forall k: nat :: k < i ==> Dest(g.img, k) < |s| && Matches(g, EntryOf(g.img, k), s[Dest(g.img, k)]))
    && (forall j: nat, k: nat :: j < k < i ==> Dest(g.img, j) != Dest(g.img, k))
    && (forall c: nat :: Live(s, c) ==> exists k: nat :: k < i && Dest(g.img, k) == c)
  }

  /** Where the next retype starts. */
  function NextFrame(cs: CS): (f: nat) {
    if L_UNTYPED < |cs.slots| then cs.slots[L_UNTYPED].cap.objref + cs.slots[L_UNTYPED].cap.watermark else 0
  }

  predicate IsFrameOf(g: Given, k: nat, cap: RawCap) {
    cap.ty.Frame? && cap.objref == FirstFrame(g, k) && cap.size == PagesOf(g.img, k)
  }

  /** The loader's authority: its Endpoint in its slot, and in the slot of each segment loaded so far that
      segment's frames. */
  ghost predicate Authority(g: Given, l: Load) {
    && L_ENDPOINT < |l.loader.slots| && l.loader.slots[L_ENDPOINT].cap.ty.Endpoint?
    && l.loader.slots[L_ENDPOINT].cap.objref == g.endpoint.objref
    && l.loader.slots[L_ENDPOINT].cap.size == g.endpoint.size
    && |l.frames| <= g.img.h.segCount
    && (forall k: nat :: k < |l.frames| ==>
          Live(l.loader.slots, l.frames[k]) && IsFrameOf(g, k, l.loader.slots[l.frames[k]].cap))
  }

  lemma SegmentAuthority(g: Given, i: nat, l: Load)
    requires Authority(g, l) && i == |l.frames| < g.img.h.segCount && NextFrame(l.loader) == FirstFrame(g, i)
    requires LoadSegment(SegmentOf(g.img, i), DataOf(g.img, i), l).Done?
    ensures var r := LoadSegment(SegmentOf(g.img, i), DataOf(g.img, i), l).load;
      Authority(g, r) && |r.frames| == i + 1 && NextFrame(r.loader) == FirstFrame(g, i + 1) && r.proc == l.proc
  {
    hide SegmentOf;
    hide DataOf;
    var s := SegmentOf(g.img, i);
    var r := LoadSegment(s, DataOf(g.img, i), l).load;
    var u := l.loader.slots[L_UNTYPED].cap;
    var pages := s.memSize / PAGE;
    var charged := l.loader.slots[L_UNTYPED := l.loader.slots[L_UNTYPED].(cap := u.(watermark := u.watermark + pages))];
    assert r.loader.slots == charged[l.scratch := Cte(Object(Frame, u.objref + u.watermark, pages, 0), To(L_UNTYPED))];
    assert FirstFrame(g, i + 1) == FirstFrame(g, i) + PagesOf(g.img, i);
  }

  lemma {:induction false} SegmentsAuthority(g: Given, l: Load, i: nat)
    requires Authority(g, l) && i == |l.frames| && NextFrame(l.loader) == FirstFrame(g, i)
    requires LoadSegments(g.img, l, i).Done?
    ensures Authority(g, LoadSegments(g.img, l, i).load) && LoadSegments(g.img, l, i).load.proc == l.proc
    decreases g.img.h.segCount - i
  {
    hide LoadSegment;
    hide FirstFrame;
    hide NextFrame;
    if i < g.img.h.segCount {
      SegmentAuthority(g, i, l);
      SegmentsAuthority(g, LoadSegment(SegmentOf(g.img, i), DataOf(g.img, i), l).load, i + 1);
    }
  }

  /** A loaded entry fills its destination, which was empty, as declared, and nothing else. */
  lemma EntryFills(g: Given, m: Pex.ManifestEntry, l: Load)
    requires Authority(g, l) && LoadEntry(m, l).Done?
    ensures var r := LoadEntry(m, l).load;
      && Authority(g, r) && m.destSlot < |l.proc.slots| && !Live(l.proc.slots, m.destSlot)
      && Matches(g, m, r.proc.slots[m.destSlot]) && r.proc.slots == l.proc.slots[m.destSlot := r.proc.slots[m.destSlot]]
  {
    hide RightsFromBits;
    hide Declares;
    hide FirstFrame;
    hide PagesOf;
    BitsDeclare(m.rights);
    var rights := RightsFromBits(m.rights).value;
    if m.capType == Pex.MANIFEST_SCHED {
      SchedFills(g, m, rights, l);
    }
  }

  lemma SchedFills(g: Given, m: Pex.ManifestEntry, rights: Rights, l: Load)
    requires Authority(g, l) && LoadSched(m, rights, l).Done?
    ensures var r := LoadSched(m, rights, l).load;
      && Authority(g, r) && m.destSlot < |l.proc.slots| && !Live(l.proc.slots, m.destSlot)
      && r.proc.slots == l.proc.slots[m.destSlot := r.proc.slots[m.destSlot]]
      && var e := r.proc.slots[m.destSlot];
      && e.cap.ty.Sched? && e.cap.rights == rights && e.cap.size == m.param0 % U32_LIMIT && e.cap.watermark == 0
      && e.cap.badge == 0 && e.parent.Nil?
  {
    hide FirstFrame;
    hide PagesOf;
    var s := SplitSched(l.loader, L_SCHED, l.scratch, m.param0 % U32_LIMIT).value;
    assert s.slots[l.scratch].cap.ty.Sched? && s.slots[l.scratch].cap.size == m.param0 % U32_LIMIT;
  }

  lemma ExactlyNext(g: Given, s: Slots, i: nat, e: Cte)
    requires Exactly(g, s, i) && Dest(g.img, i) < |s| && !Live(s, Dest(g.img, i)) && Matches(g, EntryOf(g.img, i), e)
    ensures Exactly(g, s[Dest(g.img, i) := e], i + 1)
  {
    hide NamesObject;
    hide Declares;
    var t := s[Dest(g.img, i) := e];
    forall k: nat | k < i
      ensures Dest(g.img, k) != Dest(g.img, i)
    {
      assert Live(s, Dest(g.img, k));
    }
    forall c: nat | Live(t, c)
      ensures exists k: nat :: k < i + 1 && Dest(g.img, k) == c
    {
      if c != Dest(g.img, i) {
        assert Live(s, c);
        var k: nat :| k < i && Dest(g.img, k) == c;
      }
    }
  }

  lemma {:induction false} ManifestExactly(g: Given, l: Load, i: nat)
    requires Authority(g, l) && Exactly(g, l.proc.slots, i) && i <= g.img.h.manCount && LoadManifest(g.img, l, i).Done?
    ensures Exactly(g, LoadManifest(g.img, l, i).load.proc.slots, g.img.h.manCount)
    decreases g.img.h.manCount - i
  {
    hide LoadEntry;
    hide Authority;
    hide Exactly;
    if i < g.img.h.manCount {
      var r := LoadEntry(EntryOf(g.img, i), l).load;
      EntryFills(g, EntryOf(g.img, i), l);
      ExactlyNext(g, l.proc.slots, i, r.proc.slots[Dest(g.img, i)]);
      ManifestExactly(g, r, i + 1);
    }
  }

  /** After a successful load into an empty space, the process holds exactly what its manifest
      declares, one slot per entry, each naming the object it asked for, and nothing else. */
  lemma LoadedExactly(bytes: seq<LittleEndian.byte>, arch: nat, loader: CS, proc: CS, scratch: nat)
    requires L_ENDPOINT < |loader.slots| && loader.slots[L_ENDPOINT].cap.ty.Endpoint?
    requires forall c: nat :: !Live(proc.slots, c)
    requires LoadImage(bytes, arch, loader, proc, scratch).Done?
    ensures Pex.Parse(bytes, arch).Ok?
    ensures var g := Given(Pex.Parse(bytes, arch).value, loader.slots[L_ENDPOINT].cap, NextFrame(loader));
      Exactly(g, LoadImage(bytes, arch, loader, proc, scratch).load.proc.slots, g.img.h.manCount)
  {
    hide LoadSegments;
    hide LoadManifest;
    hide Pex.Parse;
    var g := Given(Pex.Parse(bytes, arch).value, loader.slots[L_ENDPOINT].cap, NextFrame(loader));
    var l := Load(loader, proc, scratch, [], [], 0);
    SegmentsAuthority(g, l, 0);
    ManifestExactly(g, LoadSegments(g.img, l, 0).load, 0);
  }

  // ---- how a load fails, and what it reports ----

  /** A segment is refused for its addresses exactly when they leave the process window, for its size exactly when
      its pages do not fit 32 bits, and otherwise exactly when its frames cannot be retyped. */
  lemma SegmentRefused(s: Pex.Segment, data: seq<LittleEndian.byte>, l: Load)
    ensures var r := LoadSegment(s, data, l);
      var inside := s.vaddr + s.memSize < 0x1_0000_0000_0000_0000 && 0x4000_0000 <= s.vaddr
                    && s.vaddr + s.memSize <= 0x8000_0000;
      var retyped := Retype(l.loader, 0, Frame, s.memSize / 4096, 1, l.scratch);
      && (r == Failed(SegmentVaddrOutOfRange, l) <==> !inside)
      && (inside && s.memSize / 4096 >= 0x1_0000_0000 ==> r == Failed(BadPex(Pex.SegmentTooLarge), l))
      && (inside && s.memSize / 4096 < 0x1_0000_0000 ==>
            && (r.Done? <==> retyped.Ok?)
            && (r.Failed? ==> r.error == Cap(retyped.error) && r.load == l.(scratch := l.scratch + 1))
            && (r.Done? ==> r.load.loader == retyped.value && r.load.frames == l.frames + [l.scratch]
                            && r.load.proc == l.proc && r.load.scratch == l.scratch + 1 && r.load.budget == l.budget))
  {
    hide Retype; hide Maps; hide Zeros; hide NewCalls;
  }

  /** A manifest entry is refused for its slot, its rights, its type and the segment it names, in that order, exactly
      when each is out of range; nothing changes then. */
  lemma EntryRefused(m: Pex.ManifestEntry, l: Load)
    ensures var r := LoadEntry(m, l);
      && (m.destSlot >= 16 <==> r == Failed(DestSlotOutOfRange, l))
      && (m.destSlot < 16 && m.rights >= 4096 <==> r == Failed(BadRights, l))
      && (m.destSlot < 16 && m.rights < 4096 && m.capType !in {1, 2, 3} <==>
            r == Failed(UnknownManifestType(m.capType), l))
      && (m.destSlot < 16 && m.rights < 4096 && m.capType == 3 && m.param0 >= |l.frames| <==>
            r == Failed(BadSegmentRef, l))
  {
    BitsDeclare(m.rights);
    hide RightsFromBits; hide Grant; hide SplitSched;
  }

  /** The budget reported is that of the Sched the entry gave the process; other entries leave it. */
  lemma BudgetReported(g: Given, m: Pex.ManifestEntry, l: Load)
    requires Authority(g, l) && LoadEntry(m, l).Done?
    ensures var r := LoadEntry(m, l).load;
      r.budget == if m.capType == 1 then r.proc.slots[m.destSlot].cap.size else l.budget
  {
    hide RightsFromBits; hide Declares; hide FirstFrame; hide PagesOf;
    EntryFills(g, m, l);
    hide Grant; hide SplitSched;
  }

  // ---- memory ----

  /** A copy fits the frames retyped for it; a page is mapped inside the process window. */
  predicate Confined(e: Effect) {
    match e
    case ZeroAt(_, _) => true
    case CopyTo(_, pages, data) => |data| <= pages * PAGE
    case MapAt(va, _, _) =>
      PROC_VA_BASE <= va && va + PAGE <= PROC_VA_END && va % PAGE == 0 && ProcessSpaces.InWindow(va)
  }

  /** The loader's Untyped, whose frame numbers fit 32 bits. */
  predicate UntypedOk(cs: CS) {
    && L_UNTYPED < |cs.slots|
    && var u := cs.slots[L_UNTYPED].cap; u.watermark <= u.size && u.objref + u.size <= U32_LIMIT
  }

  function Mark(cs: CS): (n: nat)
    requires UntypedOk(cs)
  {
    cs.slots[L_UNTYPED].cap.objref + cs.slots[L_UNTYPED].cap.watermark
  }

  function UntypedEnd(cs: CS): (n: nat)
    requires UntypedOk(cs)
  {
    cs.slots[L_UNTYPED].cap.objref + cs.slots[L_UNTYPED].cap.size
  }

  /** The frames an effect touches lie in `[lo, hi)`. */
  predicate FrameBetween(e: Effect, lo: nat, hi: nat) {
    lo <= e.pfn && (if e.MapAt? then e.pfn < hi else e.pfn + e.pages <= hi)
  }

  ghost predicate Apart(e: Effect, f: Effect) {
    e.MapAt? && f.MapAt? ==> e.pfn != f.pfn
  }

  /** Every effect is confined, and no frame is mapped twice or taken from below `lo`; the Untyped ends at `hi`. */
  ghost predicate EffectsOk(l: Load, lo: nat, hi: nat) {
    && UntypedOk(l.loader) && lo <= Mark(l.loader) && UntypedEnd(l.loader) == hi
    && (forall i :: 0 <= i < |l.effects| ==> Confined(l.effects[i]) && FrameBetween(l.effects[i], lo, Mark(l.loader)))
    && (forall i, j :: 0 <= i < j < |l.effects| ==> Apart(l.effects[i], l.effects[j]))
  }

  /** A segment the loader accepts maps only pages inside the window a process space has to itself. */
  lemma WindowCheckSuffices(vaddr: nat, memSize: nat, k: nat)
    requires PROC_VA_BASE <= vaddr && vaddr + memSize <= PROC_VA_END && k * PAGE < memSize
    ensures ProcessSpaces.InWindow(vaddr + k * PAGE)
  {
    var va := vaddr + k * PAGE;
    assert va / 0x4000_0000 == 1;
    assert va / 0x80_0000_0000 == 0;
  }

  lemma MapsConfined(va: nat, pfn: nat, prot: Prot, pages: nat)
    requires va % PAGE == 0 && PROC_VA_BASE <= va && va + pages * PAGE <= PROC_VA_END
    ensures var r := Maps(va, pfn, prot, pages);
      && (forall k :: 0 <= k < |r| ==> Confined(r[k]) && FrameBetween(r[k], pfn, pfn + pages))
      && (forall j, k :: 0 <= j < k < |r| ==> Apart(r[j], r[k]))
  {
    hide ProcessSpaces.InWindow;
    var r := Maps(va, pfn, prot, pages);
    forall k | 0 <= k < |r|
      ensures Confined(r[k])
    {
      WindowCheckSuffices(va, pages * PAGE, k);
      Bits.RemainderUnique(va + k * PAGE, PAGE, va / PAGE + k, 0);
      assert (k + 1) * PAGE <= pages * PAGE;
    }
  }

  lemma AppendEffects(a: seq<Effect>, b: seq<Effect>, lo: nat, mid: nat, hi: nat)
    requires lo <= mid <= hi
    requires forall i :: 0 <= i < |a| ==> Confined(a[i]) && FrameBetween(a[i], lo, mid)
    requires forall i, j :: 0 <= i < j < |a| ==> Apart(a[i], a[j])
    requires forall i :: 0 <= i < |b| ==> Confined(b[i]) && FrameBetween(b[i], mid, hi)
    requires forall i, j :: 0 <= i < j < |b| ==> Apart(b[i], b[j])
    ensures forall i :: 0 <= i < |a + b| ==> Confined((a + b)[i]) && FrameBetween((a + b)[i], lo, hi)
    ensures forall i, j :: 0 <= i < j < |a + b| ==> Apart((a + b)[i], (a + b)[j])
  {
    hide Confined;
  }

  lemma RetypeMark(cs: CS, pages: nat, slot: nat)
    requires UntypedOk(cs) && Retype(cs, L_UNTYPED, Frame, pages, 1, slot).Ok?
    ensures var r := Retype(cs, L_UNTYPED, Frame, pages, 1, slot).value;
      && UntypedOk(r) && Mark(r) == Mark(cs) + pages && UntypedEnd(r) == UntypedEnd(cs)
      && slot < |r.slots| && r.slots[slot].cap.objref == Mark(cs) < U32_LIMIT
      && r.zeroed == cs.zeroed + [ZeroCall(Frame, Mark(cs), pages)]
  {
    var r := Retype(cs, L_UNTYPED, Frame, pages, 1, slot).value;
    var u := cs.slots[L_UNTYPED].cap;
    var charged := cs.slots[L_UNTYPED := cs.slots[L_UNTYPED].(cap := u.(watermark := u.watermark + pages))];
    assert r.slots == charged[slot := Cte(Object(Frame, u.objref + u.watermark, pages, 0), To(L_UNTYPED))];
  }

  /** What loading one segment asks of memory. */
  function SegmentAsks(s: Pex.Segment, data: seq<LittleEndian.byte>, pfn: nat): (r: seq<Effect>) {
    [ZeroAt(pfn, s.memSize / PAGE), CopyTo(pfn, s.memSize / PAGE, data)]
      + Maps(s.vaddr, pfn, PermToProt(s.perm), s.memSize / PAGE)
  }

  lemma AsksConfined(s: Pex.Segment, data: seq<LittleEndian.byte>, pfn: nat, total: nat)
    requires Pex.SegmentOk(total, s) && |data| == s.fileSize && PROC_VA_BASE <= s.vaddr
    requires s.vaddr + s.memSize <= PROC_VA_END
    ensures var b, pages := SegmentAsks(s, data, pfn), s.memSize / PAGE;
      && (forall i :: 0 <= i < |b| ==> Confined(b[i]) && FrameBetween(b[i], pfn, pfn + pages))
      && (forall i, j :: 0 <= i < j < |b| ==> Apart(b[i], b[j]))
  {
    hide PermToProt;
    hide Maps;
    var pages := s.memSize / PAGE;
    var a, m := [ZeroAt(pfn, pages), CopyTo(pfn, pages, data)], Maps(s.vaddr, pfn, PermToProt(s.perm), pages);
    MapsConfined(s.vaddr, pfn, PermToProt(s.perm), pages);
    assert forall i :: 0 <= i < 2 ==> Confined(a[i]) && FrameBetween(a[i], pfn, pfn + pages);
    hide Confined;
    hide FrameBetween;
    var b := SegmentAsks(s, data, pfn);
    forall i | 0 <= i < |b|
      ensures Confined(b[i]) && FrameBetween(b[i], pfn, pfn + pages)
    {
      if i > 1 { assert b[i] == m[i - 2]; } else { assert b[i] == a[i]; }
    }
    forall i, j | 0 <= i < j < |b|
      ensures Apart(b[i], b[j])
    {
      if i > 1 { assert b[i] == m[i - 2] && b[j] == m[j - 2]; }
    }
  }

  /** Loading a segment does exactly this to memory: the retyped frames, from the Untyped's mark on, are
      zeroed before the bytes are copied there and the pages mapped; the mark moves past them. */
  lemma SegmentAdds(s: Pex.Segment, data: seq<LittleEndian.byte>, l: Load)
    requires UntypedOk(l.loader) && LoadSegment(s, data, l).Done?
    ensures var r := LoadSegment(s, data, l).load;
      && PROC_VA_BASE <= s.vaddr && s.vaddr + s.memSize <= PROC_VA_END
      && UntypedOk(r.loader) && Mark(r.loader) == Mark(l.loader) + s.memSize / PAGE
      && UntypedEnd(r.loader) == UntypedEnd(l.loader)
      && r.effects == l.effects + SegmentAsks(s, data, Mark(l.loader))
      && r.loader.zeroed == l.loader.zeroed + [ZeroCall(Frame, Mark(l.loader), s.memSize / PAGE)]
  {
    hide Maps;
    hide PermToProt;
    hide Retype;
    RetypeMark(l.loader, s.memSize / PAGE, l.scratch);
    var pfn, pages := Mark(l.loader), s.memSize / PAGE;
    var z := ZeroCall(Frame, pfn, pages);
    assert NewCalls(l.loader.zeroed, l.loader.zeroed + [z]) == [z];
    assert Zeros([z]) == [ZeroAt(pfn, pages)];
    var m := Maps(s.vaddr, pfn, PermToProt(s.perm), pages);
    assert l.effects + [ZeroAt(pfn, pages)] + [CopyTo(pfn, pages, data)] + m == l.effects + SegmentAsks(s, data, pfn);
  }

  lemma SegmentEffects(s: Pex.Segment, data: seq<LittleEndian.byte>, l: Load, lo: nat, hi: nat, total: nat)
    requires EffectsOk(l, lo, hi) && Pex.SegmentOk(total, s) && |data| == s.fileSize
    ensures EffectsOk(LoadSegment(s, data, l).load, lo, hi)
  {
    hide SegmentAsks;
    hide Confined;
    hide FrameBetween;
    hide Pex.SegmentOk;
    hide Mark;
    if LoadSegment(s, data, l).Done? {
      SegmentAdds(s, data, l);
      AsksConfined(s, data, Mark(l.loader), total);
      AppendEffects(l.effects, SegmentAsks(s, data, Mark(l.loader)), lo, Mark(l.loader),
        Mark(l.loader) + s.memSize / PAGE);
    }
    hide Retype;
  }

  lemma {:induction false} SegmentsEffects(img: Pex.Image, l: Load, i: nat, lo: nat, hi: nat)
    requires EffectsOk(l, lo, hi)
    requires forall k: nat :: k < img.h.segCount ==>
      Pex.SegmentOk(|img.bytes|, SegmentOf(img, k)) && |DataOf(img, k)| == SegmentOf(img, k).fileSize
    ensures EffectsOk(LoadSegments(img, l, i).load, lo, hi)
    decreases img.h.segCount - i
  {
    hide EffectsOk;
    hide LoadSegment;
    hide SegmentOf;
    hide DataOf;
    hide Pex.SegmentOk;
    if i < img.h.segCount {
      SegmentEffects(SegmentOf(img, i), DataOf(img, i), l, lo, hi, |img.bytes|);
      var r := LoadSegment(SegmentOf(img, i), DataOf(img, i), l);
      if r.Done? { SegmentsEffects(img, r.load, i + 1, lo, hi); }
    }
  }

  lemma EntryEffects(m: Pex.ManifestEntry, l: Load)
    ensures LoadEntry(m, l).load.effects == l.effects
  {
    hide RightsFromBits;
    hide SplitSched;
    hide Grant;
  }

  lemma {:induction false} ManifestEffects(img: Pex.Image, l: Load, i: nat)
    ensures LoadManifest(img, l, i).load.effects == l.effects
    decreases img.h.manCount - i
  {
    hide LoadEntry;
    if i < img.h.manCount {
      EntryEffects(EntryOf(img, i), l);
      var r := LoadEntry(EntryOf(img, i), l);
      if r.Done? { ManifestEffects(img, r.load, i + 1); }
    }
  }

  /** Whatever image is loaded, and wherever the load stops: every copy fits the frames retyped for
      it, every page lies in the process window, and no two pages share a frame or take one that was
      handed out before or lies outside the loader's Untyped. */
  lemma LoadConfined(bytes: seq<LittleEndian.byte>, arch: nat, loader: CS, proc: CS, scratch: nat)
    requires UntypedOk(loader)
    ensures var e := LoadImage(bytes, arch, loader, proc, scratch).load.effects;
      && (forall i :: 0 <= i < |e| ==> Confined(e[i]) && FrameBetween(e[i], Mark(loader), UntypedEnd(loader)))
      && (forall i, j :: 0 <= i < j < |e| ==> Apart(e[i], e[j]))
  {
    if Pex.Parse(bytes, arch).Ok? {
      var img, l := Pex.Parse(bytes, arch).value, Load(loader, proc, scratch, [], [], 0);
      AcceptedSegments(bytes, arch);
      hide Pex.Parse;
      SegmentsEffects(img, l, 0, Mark(loader), UntypedEnd(loader));
      var r := LoadSegments(img, l, 0).load;
      ManifestEffects(img, r, 0);
      hide LoadSegments;
      hide LoadManifest;
      hide Confined;
    }
  }

  lemma AcceptedSegments(bytes: seq<LittleEndian.byte>, arch: nat)
    requires Pex.Parse(bytes, arch).Ok?
    ensures var img := Pex.Parse(bytes, arch).value;
      forall k: nat :: k < img.h.segCount ==>
        Pex.SegmentOk(|img.bytes|, SegmentOf(img, k)) && |DataOf(img, k)| == SegmentOf(img, k).fileSize
  {
    var img := Pex.Parse(bytes, arch).value;
    Pex.ParseIffWellFormed(bytes, arch);
    forall k: nat | k < img.h.segCount
      ensures Pex.SegmentOk(|img.bytes|, SegmentOf(img, k)) && |DataOf(img, k)| == SegmentOf(img, k).fileSize
    {
      AccessorsDefined(bytes, arch, k);
      Pex.AcceptedImageIsSafe(bytes, arch, k);
      hide Pex.Parse;
      hide Pex.ParseHeader;
      hide Pex.SegmentRaw;
      hide Pex.SegmentOk;
    }
  }
}

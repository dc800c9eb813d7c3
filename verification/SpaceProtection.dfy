/** What one edit means for the space it is made in, and a protection law of every history from boot: no
    page of any space is ever both writable and executable. */
module SpaceProtection {
  import opened KernelEdits
  import opened KernelImage
  import opened Options
  import opened PageEdits
  import opened PageTables
  import opened ProcessSpaces
  import opened SpaceCreate
  import opened SpaceMap
  import opened SpaceRuns

  /** Translation and protection alike, in two memories or below two roots. */
  ghost predicate Alike(m: Mem, r: nat, n: Mem, q: nat, va: nat) {
    Translate(n, q, va) == Translate(m, r, va) && PageProt(n, q, va) == PageProt(m, r, va)
  }

  /** The page at `va` is what the 4 KiB leaf `e` says. */
  ghost predicate ReadsLeaf(m: Mem, root: nat, va: nat, e: Entry) {
    if e.present
    then Translate(m, root, va) == Some(e.addr * 0x1000 + va % 0x1000)
      && PageProt(m, root, va) == Some((e.writable, !e.nx))
    else Translate(m, root, va).None? && PageProt(m, root, va).None?
  }

  // ---- mapping a user page ----

  /** The leaf that stands for an address of the window: its own, or the part of the 2 MiB page it is in. */
  function WindowLeaf(w: World, sp: Space, va: nat): (e: Entry) {
    var e2 := Read(w.mem, sp.pd, I2(va));
    if !e2.present then ABSENT else if e2.huge then SplitTable(e2)[I1(va)] else LeafAt(w, sp, I2(va), I1(va))
  }

  lemma WindowReads(w: World, r: nat, sp: Space, va: nat)
    requires KernelOk(w) && SpaceOk(w, r, sp) && InWindow(va)
    ensures ReadsLeaf(w.mem, r, va, WindowLeaf(w, sp, va))
  {
    hide I4; hide I3; hide I2; hide I1; hide KernelOk; hide OwnedOk; hide PlacedOk; hide DirectoryOk;
    var e2 := Read(w.mem, sp.pd, I2(va));
    if e2.present && e2.huge {
      assert SplitTable(e2)[I1(va)] == e2.(huge := false, addr := e2.addr / 512 * 512 + I1(va));
      Offsets(va);
    }
  }

  lemma MappedLeaf(w: World, r: nat, v: nat, spare: nat, leaf: Entry, va: nat)
    requires CanMap(w, r, v, spare, leaf)
    ensures var x := MapUser(w, r, v, spare, leaf);
      WindowLeaf(x, x.spaces[r], va) == if I2(va) == I2(v) && I1(va) == I1(v) then leaf
        else WindowLeaf(w, w.spaces[r], va)
  {
    hide I2; hide I1; hide MapUserPage; hide SplitTable; hide WorldOk; hide PathPresent; hide InWindow;
    MapUserLeaves(w, r, v, spare, leaf, I2(va), I1(va));
    if I2(va) == I2(v) { WindowPath(w, r, v, spare); }
  }

  /** Mapping a user page changes that page of its space to the leaf given, and no other: the split of a
      2 MiB page leaves what the rest of it means. */
  lemma MapUserChangesOnePage(w: World, r: nat, v: nat, spare: nat, leaf: Entry, va: nat)
    requires CanMap(w, r, v, spare, leaf)
    ensures var n := MapUser(w, r, v, spare, leaf).mem;
      if SamePage(va, v) then ReadsLeaf(n, r, va, leaf) else Alike(w.mem, r, n, r, va)
  {
    hide I2; hide I1; hide I4; hide I3; hide MapUserPage; hide WindowLeaf; hide WorldOk; hide KernelOk; hide SpaceOk;
    hide PathPresent;
    hide Translate; hide PageProt;
    var x := MapUser(w, r, v, spare, leaf);
    MapUserKeeps(w, r, v, spare, leaf);
    OneSpace(w, r);
    OneSpace(x, r);
    if InWindow(va) {
      WindowReads(w, r, w.spaces[r], va);
      WindowReads(x, r, x.spaces[r], va);
      MappedLeaf(w, r, v, spare, leaf, va);
    } else {
      OutsideWindowIsKernel(w, r, va);
      OutsideWindowIsKernel(x, r, va);
      BaseNotSpace(w);
      MapUserIsolated(w, r, v, spare, leaf, w.kbase, va);
      SameWalkView(w.mem, x.mem, w.kbase, va);
    }
  }

  // ---- a new space ----

  lemma NewWindow(w: World, fs: seq<nat>, va: nat)
    requires CanCreate(w, fs) && InWindow(va)
    ensures Walk(Create(w, fs).mem, fs[0], va) == Walk(w.mem, w.kbase, va)
  {
    hide I4; hide I3; hide I2; hide I1; hide Create; hide WorldOk; hide KernelOk;
    OneWorld(w);
    KernelTables(w);
    CreateTopReads(w, fs, 0);
    CreateTopReads(w, fs, 1);
    CreateDirectory(w, fs, I2(va));
    var x, e := Create(w, fs), Read(w.mem, WindowPd(w), I2(va));
    if IsSplit(e) {
      ReadTable(x.mem, CloneOf(w, fs, I2(va)), I1(va));
      ReadTable(w.mem, e.addr, I1(va));
    }
  }

  /** A new space starts out as the kernel base: every address translates alike, with the same protection. */
  lemma NewSpaceIsKernel(w: World, fs: seq<nat>, va: nat)
    requires CanCreate(w, fs)
    ensures Alike(w.mem, w.kbase, Create(w, fs).mem, fs[0], va)
  {
    hide InWindow; hide Create; hide WorldOk; hide Walk;
    var x := Create(w, fs);
    if InWindow(va) {
      NewWindow(w, fs, va);
    } else {
      CreateKeeps(w, fs);
      NewSpaceThere(w, fs);
      OutsideWindowIsKernel(x, fs[0], va);
      CreateIsolated(w, fs, w.kbase, va);
    }
  }

  lemma NewSpaceThere(w: World, fs: seq<nat>)
    requires CanCreate(w, fs)
    ensures Create(w, fs).spaces.Keys == w.spaces.Keys + {fs[0]} && Create(w, fs).kbase == w.kbase
  {
    hide WorldOk;
  }

  // ---- writable or executable, never both ----

  predicate Exclusive(e: Entry) {
    !(e.present && e.writable && !e.nx)
  }

  /** The leaf an event writes, if any, is not both. Every leaf the kernel builds from a protection is so
      (`UserLeaf`, `KernelLeaf`). */
  predicate Guarded(e: Event) {
    (e.Map? || e.Kernel?) ==> Exclusive(e.leaf)
  }

  ghost predicate WxAt(m: Mem, root: nat, va: nat) {
    PageProt(m, root, va) != Some((true, true))
  }

  predicate Root(w: World, q: nat) {
    q == w.kbase || q in w.spaces
  }

  ghost predicate WxWorld(w: World) {
    forall q: nat, va: nat :: Root(w, q) ==> WxAt(w.mem, q, va)
  }

  lemma AlikeWx(m: Mem, r: nat, n: Mem, q: nat, va: nat)
    requires WxAt(m, r, va) && PageProt(n, q, va) == PageProt(m, r, va)
    ensures WxAt(n, q, va)
  {
  }

  lemma SpawnWx(s: System, fs: seq<nat>, q: nat, va: nat)
    requires SystemOk(s) && Legal(s, Spawn(fs)) && WxWorld(s.w) && Root(Step(s, Spawn(fs)).w, q)
    ensures WxAt(Step(s, Spawn(fs)).w.mem, q, va)
  {
    hide Create; hide WorldOk; hide WxAt; hide PageProt; hide Translate; hide Walk; hide Unshared; hide Covered;
    var x := Create(s.w, fs);
    NewSpaceThere(s.w, fs);
    if q == fs[0] {
      NewSpaceIsKernel(s.w, fs, va);
      assert Root(s.w, s.w.kbase);
      AlikeWx(s.w.mem, s.w.kbase, x.mem, q, va);
    } else {
      assert Root(s.w, q);
      CreateIsolated(s.w, fs, q, va);
      SameWalkView(s.w.mem, x.mem, q, va);
      AlikeWx(s.w.mem, q, x.mem, q, va);
    }
  }

  lemma MapWx(w: World, r: nat, v: nat, spare: nat, leaf: Entry, q: nat, va: nat)
    requires CanMap(w, r, v, spare, leaf) && WxWorld(w) && Exclusive(leaf) && Root(w, q)
    ensures WxAt(MapUser(w, r, v, spare, leaf).mem, q, va)
  {
    hide MapUserPage; hide WorldOk; hide PathPresent; hide InWindow; hide I2; hide I1; hide I4; hide I3; hide Walk;
    hide Translate;
    var x := MapUser(w, r, v, spare, leaf);
    if q == r {
      MapUserChangesOnePage(w, r, v, spare, leaf, va);
    } else {
      MapUserIsolated(w, r, v, spare, leaf, q, va);
      SameWalkView(w.mem, x.mem, q, va);
    }
    assert WxAt(w.mem, q, va);
  }

  lemma EditWx(s: System, v: nat, spare: nat, leaf: Entry, q: nat, va: nat)
    requires SystemOk(s) && Legal(s, Kernel(v, spare, leaf)) && WxWorld(s.w) && Exclusive(leaf) && Root(s.w, q)
    ensures WxAt(KernelEdit(s.w, v, spare, leaf).mem, q, va)
  {
    hide WorldOk; hide PathPresent; hide InWindow; hide I2; hide I1; hide I4; hide I3; hide Walk; hide EditPage;
    hide EditLevel;
    hide SamePage; hide Unshared; hide Covered;
    assert WxAt(s.w.mem, q, va);
    BaseNotSpace(s.w);
    if SamePage(va, v) && (q == s.w.kbase || !InWindow(va)) {
      KernelEditSets(s.w, v, spare, leaf, q, va);
    } else {
      KernelEditView(s.w, v, spare, leaf, q, va);
    }
  }

  lemma StepWx(s: System, e: Event, q: nat, va: nat)
    requires SystemOk(s) && Legal(s, e) && WxWorld(s.w) && Guarded(e) && Root(Step(s, e).w, q)
    ensures WxAt(Step(s, e).w.mem, q, va)
  {
    hide SystemOk; hide WxAt; hide Create; hide MapUserPage; hide EditPage; hide I1; hide I2; hide Walk;
    hide PathPresent; hide InWindow;
    hide EnoughFrames; hide ExclusiveLeaves; hide LeafFrames; hide EditLevel; hide PageProt; hide Translate;
    match e
    case Spawn(fs) => SpawnWx(s, fs, q, va);
    case Map(r, v, spare, leaf) =>
      Fresh(s, spare);
      MapWx(s.w, r, v, spare, leaf, q, va);
    case Reap(r, vas) =>
      Fresh(s, 0);
      BaseNotSpace(s.w);
      assert Root(s.w, q);
      ReapSparesSurvivors(s.w, r, q, va);
      SameWalkView(s.w.mem, Reaped(s.w, r).mem, q, va);
      AlikeWx(s.w.mem, q, Reaped(s.w, r).mem, q, va);
    case Kernel(v, spare, leaf) => EditWx(s, v, spare, leaf, q, va);
  }

  lemma Fresh(s: System, f: nat)
    requires SystemOk(s)
    ensures WorldOk(s.w) && (f in s.avail ==> f !in s.w.mem)
  {
  }

  /** Over any history whose leaves are each writable or executable but not both, no page of any space, the
      kernel base included, ever is both. */
  lemma {:induction false} RunWx(s: System, es: seq<Event>, q: nat, va: nat)
    requires SystemOk(s) && LegalRun(s, es) && WxWorld(s.w)
    requires forall i :: 0 <= i < |es| ==> Guarded(es[i])
    requires Root(Run(s, es).w, q)
    ensures WxAt(Run(s, es).w.mem, q, va)
    decreases |es|
  {
    hide SystemOk; hide Step; hide Legal; hide WxAt; hide Guarded; hide Root;
    if es == [] {
      assert Root(s.w, q);
    } else {
      StepKeeps(s, es[0]);
      var t := Step(s, es[0]);
      forall p: nat, a: nat | Root(t.w, p) ensures WxAt(t.w.mem, p, a) { StepWx(s, es[0], p, a); }
      RunWx(t, es[1..], q, va);
    }
  }

  /** From boot on, over any history: writable or executable, never both, in every space at every address. */
  lemma BootedRunWx(fs: seq<nat>, gibs: nat, hhdm: nat, km: KernelMap, s: System, es: seq<Event>, q: nat, va: nat)
    requires CanBoot(fs, gibs, hhdm, km) && s.w == BootedWorld(fs, gibs, hhdm, km)
    requires SystemOk(s) && LegalRun(s, es) && Root(Run(s, es).w, q)
    requires forall i :: 0 <= i < |es| ==> Guarded(es[i])
    ensures WxAt(Run(s, es).w.mem, q, va)
  {
    hide SystemOk; hide LegalRun; hide Run; hide Guarded; hide BootMem; hide Frames; hide Fits; hide Distinct; hide I4;
    forall p: nat, a: nat | Root(s.w, p) ensures WxAt(s.w.mem, p, a) { BootWriteXorExecute(fs, gibs, hhdm, km, a); }
    RunWx(s, es, q, va);
  }
}

/** What the processor grants on a page. Every level of the path has a say (section 4.6 of the Intel SDM, volume
    3A), while the kernel's own check reads the leaf alone; no link the kernel ever writes withholds anything, so
    the two agree over every history. */
module HardwareView {
  import opened PageTables
  import opened ProcessSpaces
  import opened SpaceMap
  import opened SpaceCreate
  import opened KernelEdits
  import opened SpaceRuns
  import opened PageBoot
  import opened KernelImage
  import opened SpaceProtection
  import opened Options

  /** `(writable, executable)`: granted when every entry on the path grants it. */
  function Granted(m: Mem, root: nat, va: nat): (r: Option<(bool, bool)>) {
    var e4 := Read(m, root, I4(va));
    var e3 := Read(m, e4.addr, I3(va));
    var e2 := Read(m, e3.addr, I2(va));
    var e1 := Read(m, e2.addr, I1(va));
    if !e4.present || !e3.present then None
    else if e3.huge then Some((e4.writable && e3.writable, !e4.nx && !e3.nx))
    else if !e2.present then None
    else if e2.huge then Some((e4.writable && e3.writable && e2.writable, !e4.nx && !e3.nx && !e2.nx))
    else if !e1.present then None
    else Some((e4.writable && e3.writable && e2.writable && e1.writable, !e4.nx && !e3.nx && !e2.nx && !e1.nx))
  }

  predicate Open(e: Entry) {
    e.writable && !e.nx
  }

  /** Entries that lead to a table withhold nothing. */
  ghost predicate LinksOpen(m: Mem, level: map<nat, nat>) {
    forall t, i: nat :: t in m && t in level && level[t] > 1 && i < 512 && Links(Read(m, t, i), level[t]) ==>
      Open(Read(m, t, i))
  }

  lemma OpenGrantsLeaf(m: Mem, level: map<nat, nat>, root: nat, va: nat)
    requires Typed(m, level) && LinksOpen(m, level) && At(level, root, 4)
    ensures Granted(m, root, va) == PageProt(m, root, va)
  {
    hide I4; hide I3; hide I2; hide I1;
    var e4 := Read(m, root, I4(va));
    if e4.present {
      assert Links(e4, 4) && At(level, e4.addr, 3);
      var e3 := Read(m, e4.addr, I3(va));
      if IsSplit(e3) {
        assert Links(e3, 3) && At(level, e3.addr, 2);
        var e2 := Read(m, e3.addr, I2(va));
        assert IsSplit(e2) ==> Links(e2, 2);
      }
    }
  }

  // ---- boot ----

  lemma LowOpen(m: Mem, level: map<nat, nat>, root: nat, i4: nat, pdpt: nat, pds: seq<nat>)
    requires CanMapLow(m, level, root, i4, pdpt, pds) && LinksOpen(m, level)
    ensures LinksOpen(MapLow(m, root, i4, pdpt, pds), LowLevel(level, pdpt, pds))
  {
    hide MapLow; hide HugeTable;
    var n, l := MapLow(m, root, i4, pdpt, pds), LowLevel(level, pdpt, pds);
    forall t, i: nat | t in n && t in l && l[t] > 1 && i < 512 && Links(Read(n, t, i), l[t])
      ensures Open(Read(n, t, i))
    {
      LowReads(m, level, root, i4, pdpt, pds, t, i);
      if t in pds {
        var g: nat :| g < |pds| && pds[g] == t;
        HugeEntries(g, i);
      }
    }
  }

  lemma ImageOpen(m: Mem, level: map<nat, nat>, root: nat, km: KernelMap, pdpt: nat, pd: nat, pt: nat)
    requires CanMapImage(m, level, root, km, pdpt, pd, pt) && LinksOpen(m, level)
    ensures LinksOpen(MapImage(m, root, km, pdpt, pd, pt), ImageLevel(level, pdpt, pd, pt))
  {
    hide MapImage; hide I4; hide I3; hide I2; hide Fits; hide ImageLeaf;
    var n, l := MapImage(m, root, km, pdpt, pd, pt), ImageLevel(level, pdpt, pd, pt);
    forall t, i: nat | t in n && t in l && l[t] > 1 && i < 512 && Links(Read(n, t, i), l[t])
      ensures Open(Read(n, t, i))
    {
      ImageReads(m, level, root, km, pdpt, pd, pt, t, i);
    }
  }

  lemma BootOpen(fs: seq<nat>, gibs: nat, hhdm: nat, km: KernelMap)
    requires CanBoot(fs, gibs, hhdm, km)
    ensures var w := BootedWorld(fs, gibs, hhdm, km); LinksOpen(w.mem, w.level)
  {
    hide MapLow; hide LowLevel; hide CanMapLow; hide MapImage; hide ImageLevel; hide CanMapImage; hide I4; hide Fits;
    hide BootOk; hide Frames; hide LinksOpen;
    var root, p, ps, q, qs := fs[0], fs[1], fs[2..2 + gibs], fs[2 + gibs], fs[3 + gibs..3 + 2 * gibs];
    PartsOfFrames(fs, gibs);
    LowBoot(root, hhdm, p, ps, q, qs);
    BootImageReady(fs, gibs, hhdm, km);
    EmptyOpen(root);
    LowOpen(EmptyRoot(root), map[root := 4], root, 0, p, ps);
    LowOpen(MapLow(EmptyRoot(root), root, 0, p, ps), LowLevel(map[root := 4], p, ps), root, hhdm, q, qs);
    ImageOpen(LowMem(fs, gibs, hhdm), LowLevels(fs, gibs), root, km, fs[3 + 2 * gibs], fs[4 + 2 * gibs],
      fs[5 + 2 * gibs]);
  }

  lemma EmptyOpen(root: nat)
    ensures LinksOpen(EmptyRoot(root), map[root := 4])
  {
  }

  // ---- histories ----

  lemma CreateOpen(w: World, fs: seq<nat>)
    requires CanCreate(w, fs) && LinksOpen(w.mem, w.level)
    ensures LinksOpen(Create(w, fs).mem, Create(w, fs).level)
  {
    hide WorldOk; hide EnoughFrames; hide KernelOk; hide Create;
    var x := Create(w, fs);
    OneWorld(w);
    KernelTables(w);
    KernelTables3(w);
    FreshFrames(w, fs);
    CreateLevels(w, fs);
    forall t, i: nat | t in x.mem && t in x.level && x.level[t] > 1 && i < 512 && Links(Read(x.mem, t, i), x.level[t])
      ensures Open(Read(x.mem, t, i))
    {
      if t in w.mem {
        CreateOldReads(w, fs, t, i);
      } else {
        CreateTopReads(w, fs, i);
        CreateDirectory(w, fs, i);
        assert Links(Read(w.mem, WindowPd(w), i), 2) <==> IsSplit(Read(w.mem, WindowPd(w), i));
        assert Links(Read(w.mem, w.kbase, i), 4) ==> Open(Read(w.mem, w.kbase, i));
        assert Links(Read(w.mem, KernelPdpt(w), i), 3) ==> Open(Read(w.mem, KernelPdpt(w), i));
      }
    }
  }

  lemma MapOpen(w: World, r: nat, v: nat, spare: nat, leaf: Entry)
    requires CanMap(w, r, v, spare, leaf) && LinksOpen(w.mem, w.level)
    ensures LinksOpen(MapUser(w, r, v, spare, leaf).mem, MapUser(w, r, v, spare, leaf).level)
  {
    hide I2; hide I1; hide MapUserPage; hide SplitTable; hide WorldOk; hide PathPresent;
    OneSpace(w, r);
    var x, sp := MapUser(w, r, v, spare, leaf), w.spaces[r];
    WindowPath(w, r, v, spare);
    MapUserKeys(w, r, v, spare, leaf);
    forall t, i: nat | t in x.mem && t in x.level && x.level[t] > 1 && i < 512 && Links(Read(x.mem, t, i), x.level[t])
      ensures Open(Read(x.mem, t, i))
    {
      MapUserReads(w, r, v, spare, leaf, t, i);
    }
  }

  lemma EditOpen(w: World, v: nat, spare: nat, leaf: Entry)
    requires CanEdit(w, v, spare, leaf) && LinksOpen(w.mem, w.level)
    ensures LinksOpen(KernelEdit(w, v, spare, leaf).mem, KernelEdit(w, v, spare, leaf).level)
  {
    hide I4; hide I3; hide I2; hide I1; hide EditPage; hide Supervisor; hide Closed; hide PathPresent;
    OneWorld(w);
    hide WorldOk;
    KernelPath(w, v, spare);
    KernelTables3(w);
    hide KernelOk;
    var x := KernelEdit(w, v, spare, leaf);
    forall t, i: nat | t in x.mem && t in x.level && x.level[t] > 1 && i < 512 && Links(Read(x.mem, t, i), x.level[t])
      ensures Open(Read(x.mem, t, i))
    {
      EditReads(w, v, spare, leaf, t, i);
    }
  }

  lemma ReapOpen(w: World, r: nat)
    requires r in w.spaces && LinksOpen(w.mem, w.level)
    ensures LinksOpen(Reaped(w, r).mem, Reaped(w, r).level)
  {
    var x := Reaped(w, r);
    forall t, i: nat | t in x.mem && t in x.level && x.level[t] > 1 && i < 512 && Links(Read(x.mem, t, i), x.level[t])
      ensures Open(Read(x.mem, t, i))
    {
      assert Read(x.mem, t, i) == Read(w.mem, t, i);
    }
  }

  lemma StepOpen(s: System, e: Event)
    requires SystemOk(s) && Legal(s, e) && LinksOpen(s.w.mem, s.w.level)
    ensures LinksOpen(Step(s, e).w.mem, Step(s, e).w.level)
  {
    hide WorldOk; hide Covered; hide Unshared; hide PathPresent; hide EnoughFrames; hide LinksOpen; hide KernelEdit;
    hide MapUser; hide Create; hide Reaped; hide I2; hide I4; hide I3;
    match e
    case Spawn(fs) => CreateOpen(s.w, fs);
    case Map(r, va, spare, leaf) =>
      Fresh(s, spare);
      MapOpen(s.w, r, va, spare, leaf);
    case Reap(r, vas) => ReapOpen(s.w, r);
    case Kernel(va, spare, leaf) =>
      Fresh(s, spare);
      EditOpen(s.w, va, spare, leaf);
  }

  lemma {:induction false} RunOpen(s: System, es: seq<Event>)
    requires SystemOk(s) && LegalRun(s, es) && LinksOpen(s.w.mem, s.w.level)
    ensures LinksOpen(Run(s, es).w.mem, Run(s, es).w.level)
    decreases |es|
  {
    hide SystemOk; hide Step; hide Legal; hide LinksOpen;
    if es != [] {
      StepKeeps(s, es[0]);
      StepOpen(s, es[0]);
      RunOpen(Step(s, es[0]), es[1..]);
    }
  }

  lemma RootsAreTop(s: System, q: nat)
    requires SystemOk(s) && Root(s.w, q)
    ensures Typed(s.w.mem, s.w.level) && At(s.w.level, q, 4)
  {
    hide Typed; hide Covered; hide Unshared;
    if q in s.w.spaces { OneSpace(s.w, q); }
  }

  /** From boot on, over any history, in every space and at every address: the processor grants exactly what the
      kernel's check of the leaf reports. */
  lemma BootedRunGrants(fs: seq<nat>, gibs: nat, hhdm: nat, km: KernelMap, s: System, es: seq<Event>, q: nat, va: nat)
    requires CanBoot(fs, gibs, hhdm, km) && s.w == BootedWorld(fs, gibs, hhdm, km)
    requires SystemOk(s) && LegalRun(s, es) && Root(Run(s, es).w, q)
    ensures Granted(Run(s, es).w.mem, q, va) == PageProt(Run(s, es).w.mem, q, va)
  {
    hide SystemOk; hide LegalRun; hide Run; hide BootedWorld; hide LinksOpen; hide Typed; hide Granted; hide PageProt;
    BootOpen(fs, gibs, hhdm, km);
    RunOpen(s, es);
    RunKeeps(s, es);
    var t := Run(s, es);
    RootsAreTop(t, q);
    OpenGrantsLeaf(t.w.mem, t.w.level, q, va);
  }
}

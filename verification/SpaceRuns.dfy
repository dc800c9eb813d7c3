/** Reaping a dead process, and whole histories of creating, mapping and reaping. */
module SpaceRuns {
  import opened PageTables
  import opened PageEdits
  import opened ProcessSpaces
  import opened SpaceMap
  import opened SpaceCreate
  import opened KernelEdits
  import opened Options

  // ---- reaping ----

  /** The leaf tables named by the first `n` entries of the directory. */
  function LeafTables(m: Mem, pd: nat, n: nat): (fs: seq<nat>) {
    if n == 0 then []
    else LeafTables(m, pd, n - 1) + (if IsSplit(Read(m, pd, n - 1)) then [Read(m, pd, n - 1).addr] else [])
  }

  /** The frames behind the first `n` listed pages, read through their leaf tables. */
  function ListedLeaves(m: Mem, pd: nat, vas: seq<nat>, n: nat): (fs: seq<nat>)
    requires n <= |vas|
  {
    if n == 0 then []
    else
      var e2 := Read(m, pd, I2(vas[n - 1]));
      var leaf := Read(m, e2.addr, I1(vas[n - 1]));
      ListedLeaves(m, pd, vas, n - 1) + (if IsSplit(e2) && leaf.present then [leaf.addr] else [])
  }

  function ReapedTables(m: Mem, root: nat, pdpt: nat, pd: nat): (fs: seq<nat>) {
    LeafTables(m, pd, 512) + [pd, pdpt, root]
  }

  /** The frames `reap_process_space` frees, in the order it frees them. */
  function Freed(m: Mem, root: nat, vas: seq<nat>): (fs: seq<nat>) {
    var pdpt := Read(m, root, 0).addr;
    var pd := Read(m, pdpt, 1).addr;
    ListedLeaves(m, pd, vas, |vas|) + ReapedTables(m, root, pdpt, pd)
  }

  lemma {:induction false} LeafTablesOk(m: Mem, pd: nat, n: nat)
    requires n <= 512
    requires forall i: nat, j: nat :: i < j < 512 && IsSplit(Read(m, pd, i)) && IsSplit(Read(m, pd, j)) ==>
      Read(m, pd, i).addr != Read(m, pd, j).addr
    ensures Distinct(LeafTables(m, pd, n))
    ensures forall t :: t in LeafTables(m, pd, n) <==>
      exists i: nat :: i < n && IsSplit(Read(m, pd, i)) && Read(m, pd, i).addr == t
  {
    if n > 0 {
      LeafTablesOk(m, pd, n - 1);
      var l := LeafTables(m, pd, n - 1);
      assert IsSplit(Read(m, pd, n - 1)) ==> Read(m, pd, n - 1).addr !in l;
    }
  }

  lemma LeafTablesOwned(w: World, r: nat, t: nat)
    requires WorldOk(w) && r in w.spaces
    ensures var sp := w.spaces[r];
      && Distinct(LeafTables(w.mem, sp.pd, 512))
      && (t in LeafTables(w.mem, sp.pd, 512) <==> LeafTableOf(w, sp, t))
      && (LeafTableOf(w, sp, t) ==> At(w.level, t, 1) && t in sp.owned)
      && (t in sp.owned ==> t == r || t == sp.pdpt || t == sp.pd || LeafTableOf(w, sp, t))
      && r in sp.owned && sp.pdpt in sp.owned && sp.pd in sp.owned
      && At(w.level, r, 4) && At(w.level, sp.pdpt, 3) && At(w.level, sp.pd, 2)
  {
    hide WorldOk; hide LeafTables;
    OneSpace(w, r);
    hide KernelOk; hide PlacedOk;
    LeafTablesOk(w.mem, w.spaces[r].pd, 512);
  }

  lemma FreedTables(w: World, r: nat)
    requires WorldOk(w) && r in w.spaces
    ensures Freed(w.mem, r, []) == ReapedTables(w.mem, r, w.spaces[r].pdpt, w.spaces[r].pd)
  {
    hide WorldOk; hide KernelOk; hide DirectoryOk; hide OwnedOk; hide PlacedOk; hide ReapedTables; hide Read;
    OneSpace(w, r);
    var t := ReapedTables(w.mem, r, w.spaces[r].pdpt, w.spaces[r].pd);
    assert ListedLeaves(w.mem, w.spaces[r].pd, [], 0) + t == t;
  }

  /** The table frames freed are exactly the frames allocated for the process, each once. */
  lemma ReapFreesOwned(w: World, r: nat)
    requires WorldOk(w) && r in w.spaces
    ensures Distinct(Freed(w.mem, r, [])) && Frames(Freed(w.mem, r, [])) == w.spaces[r].owned
  {
    hide WorldOk; hide LeafTables; hide Freed; hide LeafTableOf;
    FreedTables(w, r);
    var sp := w.spaces[r];
    var l := LeafTables(w.mem, sp.pd, 512);
    forall t ensures t in l <==> t in sp.owned && t != r && t != sp.pdpt && t != sp.pd { LeafTablesOwned(w, r, t); }
    LeafTablesOwned(w, r, r);
    var fs := l + [sp.pd, sp.pdpt, r];
    forall t ensures t in fs <==> t in sp.owned {}
  }

  /** The listed pages are placed pages of the process, and their frames are pairwise different and
      hold no page table. */
  ghost predicate ExclusiveLeaves(w: World, sp: Space, vas: seq<nat>) {
    && (forall k :: 0 <= k < |vas| ==>
          (I2(vas[k]), I1(vas[k])) in sp.placed && sp.placed[(I2(vas[k]), I1(vas[k]))].addr !in w.mem)
    && (forall j, k :: 0 <= j < k < |vas| ==>
          sp.placed[(I2(vas[j]), I1(vas[j]))].addr != sp.placed[(I2(vas[k]), I1(vas[k]))].addr)
  }

  lemma {:induction false} ListedLeavesOk(w: World, r: nat, vas: seq<nat>, n: nat)
    requires WorldOk(w) && r in w.spaces && ExclusiveLeaves(w, w.spaces[r], vas) && n <= |vas|
    ensures var sp, l := w.spaces[r], ListedLeaves(w.mem, w.spaces[r].pd, vas, n);
      |l| == n && forall k :: 0 <= k < n ==> l[k] == sp.placed[(I2(vas[k]), I1(vas[k]))].addr
  {
    hide I2; hide I1; hide WorldOk; hide KernelOk; hide TopOk; hide DirectoryOk; hide OwnedOk;
    if n > 0 {
      ListedLeavesOk(w, r, vas, n - 1);
      var sp := w.spaces[r];
      OneSpace(w, r);
      var p := (I2(vas[n - 1]), I1(vas[n - 1]));
      assert p in sp.placed && LeafAt(w, sp, p.0, p.1) == sp.placed[p];
    }
  }

  lemma FreedParts(w: World, r: nat, vas: seq<nat>)
    requires WorldOk(w) && r in w.spaces
    ensures Freed(w.mem, r, vas) == ListedLeaves(w.mem, w.spaces[r].pd, vas, |vas|) + Freed(w.mem, r, [])
  {
    hide WorldOk; hide KernelOk; hide DirectoryOk; hide OwnedOk; hide PlacedOk; hide ReapedTables; hide Read;
    OneSpace(w, r);
    var sp := w.spaces[r];
    var t := ReapedTables(w.mem, r, sp.pdpt, sp.pd);
    assert ListedLeaves(w.mem, sp.pd, [], 0) + t == t;
  }

  lemma AppendTables(l: seq<nat>, fs: seq<nat>, owned: set<nat>)
    requires Distinct(l) && Distinct(fs) && Frames(fs) == owned && forall k :: 0 <= k < |l| ==> l[k] !in owned
    ensures Distinct(l + fs) && |l + fs| == |owned| + |l| && forall f :: f in l + fs <==> f in owned || f in l
  {
    DistinctSize(fs);
    forall f ensures f in fs <==> f in owned { assert f in Frames(fs) <==> f in fs; }
  }

  /** Reaping frees every table of the process and every listed leaf, and no frame twice. */
  lemma ReapFreesEachOnce(w: World, r: nat, vas: seq<nat>)
    requires WorldOk(w) && r in w.spaces && ExclusiveLeaves(w, w.spaces[r], vas)
    ensures Distinct(Freed(w.mem, r, vas)) && |Freed(w.mem, r, vas)| == |w.spaces[r].owned| + |vas|
    ensures forall f :: f in Freed(w.mem, r, vas) <==>
      f in w.spaces[r].owned || exists k :: 0 <= k < |vas| && f == w.spaces[r].placed[(I2(vas[k]), I1(vas[k]))].addr
  {
    hide I2; hide I1; hide WorldOk; hide Freed; hide ListedLeaves; hide LeafTables;
    var sp := w.spaces[r];
    var l := ListedLeaves(w.mem, sp.pd, vas, |vas|);
    ReapFreesOwned(w, r);
    ListedLeavesOk(w, r, vas, |vas|);
    FreedParts(w, r, vas);
    OwnedMapped(w, r);
    AppendTables(l, Freed(w.mem, r, []), sp.owned);
    forall f ensures f in l <==> exists k :: 0 <= k < |vas| && f == sp.placed[(I2(vas[k]), I1(vas[k]))].addr {
      if f in l { var k :| 0 <= k < |l| && l[k] == f; }
      if k :| 0 <= k < |vas| && f == sp.placed[(I2(vas[k]), I1(vas[k]))].addr { assert l[k] == f; }
    }
  }

  lemma OwnedMapped(w: World, r: nat)
    requires WorldOk(w) && r in w.spaces
    ensures w.spaces[r].owned <= w.mem.Keys && w.spaces[r].owned !! w.kernel
  {
    OneSpace(w, r);
  }

  lemma {:induction false} DistinctSize(fs: seq<nat>)
    requires Distinct(fs)
    ensures |Frames(fs)| == |fs|
  {
    if fs == [] {
      assert Frames(fs) == {};
    } else {
      var l := fs[..|fs| - 1];
      DistinctSize(l);
      assert fs == l + [fs[|fs| - 1]];
      assert fs[|fs| - 1] !in Frames(l);
      assert Frames(fs) == Frames(l) + {fs[|fs| - 1]};
    }
  }

  // ---- histories ----

  /** The world and the table frames the allocator can still hand out. */
  datatype System = System(w: World, avail: set<nat>)

  /** A process space is made, a user page mapped in one, one reaped with a list of its leaves, or a kernel
      page mapped or unmapped. */
  datatype Event =
    | Spawn(frames: seq<nat>)
    | Map(root: nat, va: nat, spare: nat, leaf: Entry)
    | Reap(root: nat, vas: seq<nat>)
    | Kernel(va: nat, spare: nat, leaf: Entry)

  ghost predicate Covered(w: World) {
    forall t :: t in w.mem ==> t in w.kernel || exists q :: q in w.spaces && t in w.spaces[q].owned
  }

  ghost predicate SystemOk(s: System) {
    WorldOk(s.w) && Covered(s.w) && Unshared(s.w.mem, s.w.kbase) && s.avail !! s.w.mem.Keys
  }

  /** The frames behind the listed pages of a process. */
  function LeafFrames(sp: Space, vas: seq<nat>): (fs: set<nat>) {
    set k | 0 <= k < |vas| && (I2(vas[k]), I1(vas[k])) in sp.placed :: sp.placed[(I2(vas[k]), I1(vas[k]))].addr
  }

  function Reaped(w: World, r: nat): (x: World)
    requires r in w.spaces
  {
    w.(mem := w.mem - w.spaces[r].owned, level := w.level - w.spaces[r].owned, spaces := w.spaces - {r})
  }

  ghost predicate Legal(s: System, e: Event) {
    match e
    case Spawn(fs) => EnoughFrames(s.w, fs) && Frames(fs) <= s.avail
    case Map(r, va, spare, leaf) =>
      r in s.w.spaces && InWindow(va) && PathPresent(s.w.mem, r, va) && spare in s.avail && leaf.present && leaf.user
    case Reap(r, vas) =>
      r in s.w.spaces && ExclusiveLeaves(s.w, s.w.spaces[r], vas) && LeafFrames(s.w.spaces[r], vas) !! s.avail
    case Kernel(va, spare, leaf) =>
      PathPresent(s.w.mem, s.w.kbase, va) && spare in s.avail && (leaf.present ==> !leaf.user)
  }

  ghost function Step(s: System, e: Event): (t: System)
    requires SystemOk(s) && Legal(s, e)
  {
    match e
    case Spawn(fs) => System(Create(s.w, fs), s.avail - Frames(fs))
    case Map(r, va, spare, leaf) =>
      System(MapUser(s.w, r, va, spare, leaf), if Read(s.w.mem, s.w.spaces[r].pd, I2(va)).huge then s.avail - {spare}
        else s.avail)
    case Reap(r, vas) => System(Reaped(s.w, r), s.avail + s.w.spaces[r].owned + LeafFrames(s.w.spaces[r], vas))
    case Kernel(va, spare, leaf) =>
      System(KernelEdit(s.w, va, spare, leaf), if Read(s.w.mem, PdOf(s.w.mem, s.w.kbase, va), I2(va)).huge
        then s.avail - {spare} else s.avail)
  }

  /** The frames an event brings to the allocator from outside the page tables: the listed leaves. */
  ghost function Returned(s: System, e: Event): (fs: set<nat>)
    requires Legal(s, e)
  {
    if e.Reap? then LeafFrames(s.w.spaces[e.root], e.vas) else {}
  }

  lemma ReapSame(w: World, r: nat, s: set<nat>)
    requires r in w.spaces && s !! w.spaces[r].owned
    ensures SameTables(w, Reaped(w, r), s)
  {
  }

  lemma SurvivorLinks(w: World, r: nat, t: nat, i: nat)
    requires WorldOk(w) && Covered(w) && r in w.spaces && t in w.mem && t in w.level && t !in w.spaces[r].owned
    requires i < 512 && w.level[t] > 1 && Links(Read(w.mem, t, i), w.level[t])
    ensures Read(w.mem, t, i).addr !in w.spaces[r].owned
  {
    OwnedMapped(w, r);
    OneWorld(w);
    if t !in w.kernel {
      var q :| q in w.spaces && t in w.spaces[q].owned;
      assert w.spaces[r].owned !! w.spaces[q].owned;
      OneSpace(w, q);
      hide WorldOk; hide SpaceOk; hide KernelOk; hide Typed;
      SpaceClosed(w, q, w.spaces[q]);
      assert Read(w.mem, t, i).addr in w.kernel + w.spaces[q].owned;
    }
  }

  /** Nothing that survives points at a reaped table. */
  lemma ReapTyped(w: World, r: nat)
    requires WorldOk(w) && Covered(w) && r in w.spaces
    ensures Typed(Reaped(w, r).mem, Reaped(w, r).level)
  {
    hide WorldOk; hide Covered;
    OneWorld(w);
    hide KernelOk;
    var x := Reaped(w, r);
    forall t, i: nat | t in x.mem && x.level[t] > 1 && i < 512 && Links(Read(x.mem, t, i), x.level[t])
      ensures Read(x.mem, t, i).addr in x.level && x.level[Read(x.mem, t, i).addr] == x.level[t] - 1
    {
      assert Read(x.mem, t, i) == Read(w.mem, t, i);
      SurvivorLinks(w, r, t, i);
    }
  }

  lemma OwnedApart(w: World, r: nat, q: nat)
    requires WorldOk(w) && r in w.spaces && q in w.spaces && q != r
    ensures w.spaces[r].owned !! w.spaces[q].owned
  {
  }

  lemma ReapOther(w: World, r: nat, q: nat)
    requires WorldOk(w) && r in w.spaces && q in w.spaces && q != r
    ensures SpaceOk(Reaped(w, r), q, w.spaces[q])
  {
    hide WorldOk; hide KernelOk; hide SpaceOk;
    OwnedMapped(w, r);
    OneSpace(w, q);
    OwnedApart(w, r, q);
    ReapSame(w, r, w.kernel + w.spaces[q].owned);
    SpaceFrame(w, Reaped(w, r), q, w.spaces[q]);
  }

  lemma ReapKernel(w: World, r: nat)
    requires WorldOk(w) && Covered(w) && r in w.spaces
    ensures KernelOk(Reaped(w, r))
  {
    hide WorldOk; hide KernelOk; hide SpaceOk; hide Typed;
    ReapTyped(w, r);
    OneWorld(w);
    OwnedMapped(w, r);
    ReapSame(w, r, w.kernel);
    KernelFrame(w, Reaped(w, r));
  }

  lemma ReapKeeps(w: World, r: nat)
    requires WorldOk(w) && Covered(w) && r in w.spaces
    ensures WorldOk(Reaped(w, r)) && Covered(Reaped(w, r))
  {
    hide KernelOk; hide SpaceOk;
    var x := Reaped(w, r);
    ReapKernel(w, r);
    forall q | q in x.spaces ensures SpaceOk(x, q, x.spaces[q]) { ReapOther(w, r, q); }
    forall t | t in x.mem ensures t in x.kernel || exists q :: q in x.spaces && t in x.spaces[q].owned {
      if t !in w.kernel {
        var q :| q in w.spaces && t in w.spaces[q].owned;
        assert q in x.spaces;
      }
    }
  }

  /** Every surviving translation, the kernel base's included, is as before the reaping. */
  lemma ReapSparesSurvivors(w: World, r: nat, q: nat, va: nat)
    requires WorldOk(w) && r in w.spaces && q != r && (q == w.kbase || q in w.spaces)
    ensures Walk(Reaped(w, r).mem, q, va) == Walk(w.mem, q, va)
  {
    hide WorldOk; hide KernelOk;
    OwnedMapped(w, r);
    if q in w.spaces { OwnedApart(w, r, q); }
    ReapSame(w, r, w.kernel + if q in w.spaces then w.spaces[q].owned else {});
    UntouchedWalks(w, Reaped(w, r), q, va);
  }

  lemma CreateCovered(w: World, fs: seq<nat>)
    requires CanCreate(w, fs) && Covered(w)
    ensures Covered(Create(w, fs))
  {
    var x := Create(w, fs);
    CreateLevels(w, fs);
    FreshFrames(w, fs);
    forall t | t in x.mem ensures t in x.kernel || exists q :: q in x.spaces && t in x.spaces[q].owned {
      if t in w.mem && t !in w.kernel {
        var q :| q in w.spaces && t in w.spaces[q].owned;
        OneSpace(w, q);
        assert q != fs[0] && q in x.spaces && x.spaces[q] == w.spaces[q];
      } else if t !in w.mem {
        assert fs[0] in x.spaces && t in x.spaces[fs[0]].owned;
      }
    }
  }

  lemma MapCovered(w: World, r: nat, v: nat, spare: nat, leaf: Entry)
    requires CanMap(w, r, v, spare, leaf) && Covered(w)
    ensures Covered(MapUser(w, r, v, spare, leaf))
  {
    hide WorldOk; hide MapUserPage; hide I2; hide I1; hide PathPresent; hide InWindow;
    var x := MapUser(w, r, v, spare, leaf);
    MapUserKeys(w, r, v, spare, leaf);
    forall t | t in x.mem ensures t in x.kernel || exists q :: q in x.spaces && t in x.spaces[q].owned {
      if t in w.mem && t !in w.kernel {
        var q :| q in w.spaces && t in w.spaces[q].owned;
        assert q in x.spaces && t in x.spaces[q].owned;
      } else if t !in w.mem {
        assert r in x.spaces && t in x.spaces[r].owned;
      }
    }
  }

  lemma LeavesOutside(w: World, sp: Space, vas: seq<nat>)
    requires ExclusiveLeaves(w, sp, vas)
    ensures LeafFrames(sp, vas) !! w.mem.Keys
  {
    hide I2; hide I1;
  }

  /** Spawns, user maps and reaps leave the kernel's tables alone, hence unshared. */
  lemma StepUnshared(s: System, e: Event)
    requires SystemOk(s) && Legal(s, e)
    ensures Unshared(Step(s, e).w.mem, s.w.kbase)
  {
    hide WorldOk; hide Covered; hide KernelOk; hide EnoughFrames; hide PathPresent; hide MapUserPage; hide I2;
    hide I1; hide Unshared; hide SpaceOk;
    hide SameTables; hide ExclusiveLeaves; hide Typed;
    OneWorld(s.w);
    match e
    case Spawn(fs) =>
      CreateSame(s.w, fs, s.w.kernel);
      UnsharedFrame(s.w, Create(s.w, fs));
    case Map(r, va, spare, leaf) =>
      OwnedMapped(s.w, r);
      OthersUntouched(s.w, r, va, spare, leaf, s.w.kernel);
      UnsharedFrame(s.w, MapUser(s.w, r, va, spare, leaf));
    case Reap(r, vas) =>
      OwnedMapped(s.w, r);
      ReapSame(s.w, r, s.w.kernel);
      UnsharedFrame(s.w, Reaped(s.w, r));
    case Kernel(va, spare, leaf) =>
      KernelEditUnshared(s.w, va, spare, leaf);
  }

  lemma EditCovered(w: World, v: nat, spare: nat, leaf: Entry)
    requires CanEdit(w, v, spare, leaf) && Covered(w)
    ensures Covered(KernelEdit(w, v, spare, leaf))
  {
    hide WorldOk; hide KernelOk; hide EditPage; hide PathPresent; hide I2; hide EditLevel;
    OneWorld(w);
    EditKeys(w, v, spare, leaf);
    var x := KernelEdit(w, v, spare, leaf);
    forall t | t in x.mem
      ensures t in x.kernel || exists q :: q in x.spaces && t in x.spaces[q].owned
    {
      if t in w.mem && t !in w.kernel {
        var q :| q in w.spaces && t in w.spaces[q].owned;
        assert q in x.spaces && t in x.spaces[q].owned;
      }
    }
  }

  /** The step keeps the system in order and conserves frames. */
  ghost predicate Kept(s: System, e: Event, t: System)
    requires Legal(s, e)
  {
    && SystemOk(t) && t.avail + t.w.mem.Keys == s.avail + s.w.mem.Keys + Returned(s, e)
    && t.w.kbase == s.w.kbase && s.w.kernel <= t.w.kernel
  }

  lemma SpawnKeeps(s: System, fs: seq<nat>)
    requires SystemOk(s) && Legal(s, Spawn(fs))
    ensures Kept(s, Spawn(fs), Step(s, Spawn(fs)))
  {
    hide WorldOk; hide Covered; hide EnoughFrames; hide Unshared;
    StepUnshared(s, Spawn(fs));
    CreateKeeps(s.w, fs);
    CreateCovered(s.w, fs);
    CreateLevels(s.w, fs);
    FreshFrames(s.w, fs);
  }

  lemma MapKeeps(s: System, r: nat, va: nat, spare: nat, leaf: Entry)
    requires SystemOk(s) && Legal(s, Map(r, va, spare, leaf))
    ensures Kept(s, Map(r, va, spare, leaf), Step(s, Map(r, va, spare, leaf)))
  {
    hide WorldOk; hide Covered; hide PathPresent; hide MapUserPage; hide I2; hide I1; hide Unshared;
    StepUnshared(s, Map(r, va, spare, leaf));
    MapUserKeeps(s.w, r, va, spare, leaf);
    MapCovered(s.w, r, va, spare, leaf);
    MapUserKeys(s.w, r, va, spare, leaf);
  }

  lemma ReapStepKeeps(s: System, r: nat, vas: seq<nat>)
    requires SystemOk(s) && Legal(s, Reap(r, vas))
    ensures Kept(s, Reap(r, vas), Step(s, Reap(r, vas)))
  {
    hide WorldOk; hide Covered; hide Unshared; hide LeafFrames; hide ExclusiveLeaves;
    StepUnshared(s, Reap(r, vas));
    ReapKeeps(s.w, r);
    OwnedMapped(s.w, r);
    LeavesOutside(s.w, s.w.spaces[r], vas);
  }

  lemma EditKeeps(s: System, va: nat, spare: nat, leaf: Entry)
    requires SystemOk(s) && Legal(s, Kernel(va, spare, leaf))
    ensures Kept(s, Kernel(va, spare, leaf), Step(s, Kernel(va, spare, leaf)))
  {
    hide WorldOk; hide Covered; hide PathPresent; hide I2; hide Unshared; hide EditPage; hide EditLevel;
    StepUnshared(s, Kernel(va, spare, leaf));
    OneWorld(s.w);
    KernelEditKeeps(s.w, va, spare, leaf);
    EditCovered(s.w, va, spare, leaf);
    EditKeys(s.w, va, spare, leaf);
  }

  /** Each step keeps the system in order and conserves frames: a frame is in the allocator or a page
      table, never both, and only listed leaves join them. */
  lemma StepKeeps(s: System, e: Event)
    requires SystemOk(s) && Legal(s, e)
    ensures SystemOk(Step(s, e)) && Step(s, e).avail + Step(s, e).w.mem.Keys == s.avail + s.w.mem.Keys + Returned(s, e)
    ensures Step(s, e).w.kbase == s.w.kbase && s.w.kernel <= Step(s, e).w.kernel
  {
    hide SystemOk; hide Legal; hide Step; hide Returned;
    match e
    case Spawn(fs) => SpawnKeeps(s, fs);
    case Map(r, va, spare, leaf) => MapKeeps(s, r, va, spare, leaf);
    case Reap(r, vas) => ReapStepKeeps(s, r, vas);
    case Kernel(va, spare, leaf) => EditKeeps(s, va, spare, leaf);
  }

  ghost predicate LegalRun(s: System, es: seq<Event>)
    requires SystemOk(s)
    decreases |es|
  {
    es != [] ==> Legal(s, es[0]) && (StepKeeps(s, es[0]); LegalRun(Step(s, es[0]), es[1..]))
  }

  ghost function Run(s: System, es: seq<Event>): (t: System)
    requires SystemOk(s) && LegalRun(s, es)
    decreases |es|
  {
    if es == [] then s else StepKeeps(s, es[0]); Run(Step(s, es[0]), es[1..])
  }

  /** The leaves handed back over a history. */
  ghost function ReturnedOver(s: System, es: seq<Event>): (fs: set<nat>)
    requires SystemOk(s) && LegalRun(s, es)
    decreases |es|
  {
    if es == [] then {} else StepKeeps(s, es[0]); Returned(s, es[0]) + ReturnedOver(Step(s, es[0]), es[1..])
  }

  /** Every history keeps order and conserves frames: those of the allocator and the page tables are those
      there were and the leaves handed back. */
  lemma {:induction false} RunKeeps(s: System, es: seq<Event>)
    requires SystemOk(s) && LegalRun(s, es)
    ensures SystemOk(Run(s, es))
    ensures Run(s, es).avail + Run(s, es).w.mem.Keys == s.avail + s.w.mem.Keys + ReturnedOver(s, es)
    ensures Run(s, es).w.kbase == s.w.kbase && s.w.kernel <= Run(s, es).w.kernel
    decreases |es|
  {
    hide SystemOk; hide Step; hide Legal; hide Returned;
    if es != [] {
      StepKeeps(s, es[0]);
      RunKeeps(Step(s, es[0]), es[1..]);
    }
  }

  /** The event is an edit of space `q`, or of the kernel page that holds `va` where `q` shares it: the
      kernel base does everywhere, a process outside its window. */
  predicate Touches(e: Event, q: nat, va: nat, kbase: nat) {
    match e
    case Spawn(fs) => |fs| > 0 && fs[0] == q
    case Map(r, _, _, _) => r == q
    case Reap(r, _) => r == q
    case Kernel(v, _, _) => SamePage(va, v) && (q == kbase || !InWindow(va))
  }

  lemma CreateIsolated(w: World, fs: seq<nat>, q: nat, va: nat)
    requires CanCreate(w, fs) && (q == w.kbase || q in w.spaces)
    ensures Walk(Create(w, fs).mem, q, va) == Walk(w.mem, q, va)
  {
    hide WorldOk; hide KernelOk; hide EnoughFrames; hide SpaceOk; hide Typed;
    if q in w.spaces { OwnedMapped(w, q); }
    OneWorld(w);
    CreateSame(w, fs, w.kernel + if q in w.spaces then w.spaces[q].owned else {});
    UntouchedWalks(w, Create(w, fs), q, va);
  }

  lemma StepIsolated(s: System, e: Event, q: nat, va: nat)
    requires SystemOk(s) && Legal(s, e) && !Touches(e, q, va, s.w.kbase) && (q == s.w.kbase || q in s.w.spaces)
    ensures SameView(s.w.mem, Step(s, e).w.mem, q, va)
    ensures q in s.w.spaces ==> q in Step(s, e).w.spaces
  {
    hide WorldOk; hide Covered; hide EnoughFrames; hide PathPresent; hide MapUserPage; hide I2; hide I1; hide Walk;
    hide Unshared; hide EditPage; hide EditLevel; hide SamePage; hide InWindow; hide ExclusiveLeaves; hide LeafFrames;
    hide SameView;
    match e
    case Spawn(fs) =>
      CreateIsolated(s.w, fs, q, va);
      SameWalkView(s.w.mem, Create(s.w, fs).mem, q, va);
      FreshFrames(s.w, fs);
    case Map(r, v, spare, leaf) =>
      MapUserIsolated(s.w, r, v, spare, leaf, q, va);
      SameWalkView(s.w.mem, MapUser(s.w, r, v, spare, leaf).mem, q, va);
    case Reap(r, vas) =>
      ReapSparesSurvivors(s.w, r, q, va);
      SameWalkView(s.w.mem, Reaped(s.w, r).mem, q, va);
    case Kernel(v, spare, leaf) =>
      BaseNotSpace(s.w);
      KernelEditView(s.w, v, spare, leaf, q, va);
  }

  lemma SameWalkView(m: Mem, n: Mem, q: nat, va: nat)
    requires Walk(n, q, va) == Walk(m, q, va)
    ensures SameView(m, n, q, va)
  {
  }

  lemma BaseNotSpace(w: World)
    requires WorldOk(w)
    ensures w.kbase !in w.spaces
  {
    if w.kbase in w.spaces { OneSpace(w, w.kbase); }
  }

  /** Over any history, whatever is done in other spaces and at other kernel pages leaves the translation,
      protection and user reach of an address as they were, in a space and in the kernel base. */
  lemma {:induction false} RunIsolated(s: System, es: seq<Event>, q: nat, va: nat)
    requires SystemOk(s) && LegalRun(s, es) && (q == s.w.kbase || q in s.w.spaces)
    requires forall i :: 0 <= i < |es| ==> !Touches(es[i], q, va, s.w.kbase)
    ensures SameView(s.w.mem, Run(s, es).w.mem, q, va)
    ensures q in s.w.spaces ==> q in Run(s, es).w.spaces
    decreases |es|
  {
    hide SystemOk; hide Step; hide Legal; hide Translate; hide PageProt; hide UserReachable; hide Touches;
    if es != [] {
      StepKeeps(s, es[0]);
      StepIsolated(s, es[0], q, va);
      RunIsolated(Step(s, es[0]), es[1..], q, va);
    }
  }

  /** The pages of `r` after one event, given those before it. */
  function PlacedNext(e: Event, r: nat, p: map<(nat, nat), Entry>): (q: map<(nat, nat), Entry>) {
    match e
    case Spawn(fs) => if |fs| > 0 && fs[0] == r then map[] else p
    case Map(q, va, _, leaf) => if q == r then p[(I2(va), I1(va)) := leaf] else p
    case Reap(q, _) => if q == r then map[] else p
    case Kernel(_, _, _) => p
  }

  /** The pages a history placed in `r` and did not discard since, by directory and leaf index:
      read off the events alone. */
  function Latest(es: seq<Event>, r: nat, start: map<(nat, nat), Entry>): (p: map<(nat, nat), Entry>)
    decreases |es|
  {
    if es == [] then start else Latest(es[1..], r, PlacedNext(es[0], r, start))
  }

  function PlacedIn(w: World, r: nat): (p: map<(nat, nat), Entry>) {
    if r in w.spaces then w.spaces[r].placed else map[]
  }

  lemma StepPlaces(s: System, e: Event, r: nat)
    requires SystemOk(s) && Legal(s, e)
    ensures PlacedIn(Step(s, e).w, r) == PlacedNext(e, r, PlacedIn(s.w, r))
  {
    hide WorldOk; hide Covered; hide EnoughFrames; hide PathPresent; hide MapUserPage; hide I2; hide I1;
    hide EditPage; hide EditLevel;
    if e.Spawn? { FreshFrames(s.w, e.frames); }
  }

  lemma {:induction false} RunPlaces(s: System, es: seq<Event>, r: nat)
    requires SystemOk(s) && LegalRun(s, es)
    ensures PlacedIn(Run(s, es).w, r) == Latest(es, r, PlacedIn(s.w, r))
    decreases |es|
  {
    hide SystemOk; hide Step; hide Legal; hide PlacedNext; hide PlacedIn;
    if es != [] {
      StepKeeps(s, es[0]);
      StepPlaces(s, es[0], r);
      RunPlaces(Step(s, es[0]), es[1..], r);
    }
  }

  /** After any history the pages a process reaches in user mode are exactly the latest ones placed in that
      same process, during the history or before it. */
  lemma UserPagesAreTheLatest(s: System, es: seq<Event>, r: nat, va: nat)
    requires SystemOk(s) && LegalRun(s, es) && r in Run(s, es).w.spaces
    ensures var p := Latest(es, r, PlacedIn(s.w, r));
      && (UserReachable(Run(s, es).w.mem, r, va) <==> InWindow(va) && (I2(va), I1(va)) in p)
      && (UserReachable(Run(s, es).w.mem, r, va) ==>
            Walk(Run(s, es).w.mem, r, va) == Some(Access(p[(I2(va), I1(va))], 1, true)))
  {
    hide I4; hide I3; hide I2; hide I1; hide Latest;
    RunKeeps(s, es);
    RunPlaces(s, es, r);
    UserPagesAreThePlacedOnes(Run(s, es).w, r, va);
  }
}

/** Per-process page tables: each process owns a private copy of the path to its window
    [1 GiB, 2 GiB) and shares everything else with the kernel base. */
module ProcessSpaces {
  import opened PageTables
  import opened PageEdits
  import opened Options

  /** The private tables of one process and the pages mapped for user mode in it, by directory
      and leaf index. */
  datatype Space = Space(pdpt: nat, pd: nat, owned: set<nat>, placed: map<(nat, nat), Entry>)

  datatype World = World(mem: Mem, level: map<nat, nat>, kernel: set<nat>, kbase: nat, spaces: map<nat, Space>)

  predicate InWindow(va: nat) {
    I4(va) == 0 && I3(va) == 1
  }

  ghost predicate Closed(m: Mem, level: map<nat, nat>, s: set<nat>) {
    forall t, i: nat :: t in s && t in level && level[t] > 1 && i < 512 && Links(Read(m, t, i), level[t]) ==>
      Read(m, t, i).addr in s
  }

  ghost predicate Supervisor(m: Mem, s: set<nat>) {
    forall t, i: nat :: t in s && i < 512 && Read(m, t, i).present ==> !Read(m, t, i).user
  }

  /** The kernel base: its own closed set of tables, no user bit anywhere, and a directory for
      the process window. */
  ghost predicate KernelOk(w: World) {
    && Typed(w.mem, w.level) && w.kernel <= w.mem.Keys && w.kbase in w.kernel && At(w.level, w.kbase, 4)
    && Closed(w.mem, w.level, w.kernel) && Supervisor(w.mem, w.kernel)
    && Pd(w.mem, w.kbase, 0, 1).Some?
  }

  function KernelPdpt(w: World): (t: nat) {
    Read(w.mem, w.kbase, 0).addr
  }

  predicate IsSplit(e: Entry) {
    e.present && !e.huge
  }

  /** The top two private tables: one entry each is private, the rest are the kernel's. */
  ghost predicate TopOk(w: World, r: nat, sp: Space) {
    && r in sp.owned && sp.pdpt in sp.owned && sp.pd in sp.owned
    && At(w.level, r, 4) && At(w.level, sp.pdpt, 3) && At(w.level, sp.pd, 2)
    && Read(w.mem, r, 0).present && Read(w.mem, r, 0).addr == sp.pdpt
    && (forall i: nat :: 0 < i < 512 ==> Read(w.mem, r, i) == Read(w.mem, w.kbase, i))
    && IsSplit(Read(w.mem, sp.pdpt, 1)) && Read(w.mem, sp.pdpt, 1).addr == sp.pd
    && (forall i: nat :: i < 512 && i != 1 ==> Read(w.mem, sp.pdpt, i) == Read(w.mem, KernelPdpt(w), i))
  }

  /** Every leaf table of the window is private to its directory entry; unsplit blocks stay
      supervisor. */
  ghost predicate DirectoryOk(w: World, sp: Space) {
    && (forall i: nat :: i < 512 && IsSplit(Read(w.mem, sp.pd, i)) ==>
          Read(w.mem, sp.pd, i).addr in sp.owned && At(w.level, Read(w.mem, sp.pd, i).addr, 1))
    && (forall i: nat, j: nat :: i < j < 512 && IsSplit(Read(w.mem, sp.pd, i)) && IsSplit(Read(w.mem, sp.pd, j))
          ==> Read(w.mem, sp.pd, i).addr != Read(w.mem, sp.pd, j).addr)
    && (forall i: nat :: i < 512 && Read(w.mem, sp.pd, i).present && Read(w.mem, sp.pd, i).huge ==>
          !Read(w.mem, sp.pd, i).user)
  }

  /** The owned frames are exactly the tables allocated for the process. */
  ghost predicate OwnedOk(w: World, r: nat, sp: Space) {
    && sp.owned <= w.mem.Keys && sp.owned !! w.kernel
    && (forall t :: t in sp.owned ==> t == r || t == sp.pdpt || t == sp.pd || LeafTableOf(w, sp, t))
  }

  ghost predicate LeafTableOf(w: World, sp: Space, t: nat) {
    exists i: nat :: i < 512 && IsSplit(Read(w.mem, sp.pd, i)) && Read(w.mem, sp.pd, i).addr == t
  }

  function LeafAt(w: World, sp: Space, i: nat, j: nat): (e: Entry) {
    Read(w.mem, Read(w.mem, sp.pd, i).addr, j)
  }

  /** User leaves are exactly the placed pages, and their whole path admits user mode. */
  ghost predicate PlacedOk(w: World, r: nat, sp: Space) {
    && (forall i: nat, j: nat ::
          i < 512 && j < 512 && IsSplit(Read(w.mem, sp.pd, i)) && LeafAt(w, sp, i, j).present
          && LeafAt(w, sp, i, j).user
          ==> (i, j) in sp.placed)
    && (forall p :: p in sp.placed ==>
          && p.0 < 512 && p.1 < 512 && IsSplit(Read(w.mem, sp.pd, p.0)) && LeafAt(w, sp, p.0, p.1) == sp.placed[p]
          && sp.placed[p].present && sp.placed[p].user && Read(w.mem, sp.pd, p.0).user
          && Read(w.mem, r, 0).user && Read(w.mem, sp.pdpt, 1).user)
  }

  ghost predicate SpaceOk(w: World, r: nat, sp: Space) {
    TopOk(w, r, sp) && DirectoryOk(w, sp) && OwnedOk(w, r, sp) && PlacedOk(w, r, sp)
  }

  ghost predicate Apart(w: World) {
    forall r, q :: r in w.spaces && q in w.spaces && r != q ==> w.spaces[r].owned !! w.spaces[q].owned
  }

  ghost predicate WorldOk(w: World) {
    && KernelOk(w) && Apart(w)
    && (forall r :: r in w.spaces ==> SpaceOk(w, r, w.spaces[r]))
  }

  // ---- what a walk can depend on ----

  /** Walks from a root in a closed set read only that set. */
  lemma WalkWithin(m: Mem, n: Mem, level: map<nat, nat>, s: set<nat>, root: nat, va: nat)
    requires Typed(m, level) && Closed(m, level, s) && root in s && At(level, root, 4)
    requires forall t :: t in s && t in m ==> t in n && n[t] == m[t]
    ensures Walk(n, root, va) == Walk(m, root, va)
  {
    hide I4; hide I3; hide I2; hide I1;
    LeafTyped(m, level, root, I4(va), I3(va), I2(va));
    var e4 := Read(m, root, I4(va));
    if e4.present {
      assert Links(e4, 4);
      var e3 := Read(m, e4.addr, I3(va));
      if IsSplit(e3) {
        assert Links(e3, 3);
        assert IsSplit(Read(m, e3.addr, I2(va))) ==> Links(Read(m, e3.addr, I2(va)), 2);
      }
    }
  }

  lemma KernelPdptOk(w: World)
    requires KernelOk(w)
    ensures KernelPdpt(w) in w.kernel && At(w.level, KernelPdpt(w), 3)
  {
    assert Links(Read(w.mem, w.kbase, 0), 4);
  }

  /** A space reads its own tables and the kernel's, and nothing else. */
  lemma SpaceClosed(w: World, r: nat, sp: Space)
    requires KernelOk(w) && SpaceOk(w, r, sp)
    ensures Closed(w.mem, w.level, w.kernel + sp.owned)
  {
    KernelPdptOk(w);
    forall t, i: nat | t in w.kernel + sp.owned && t in w.level && w.level[t] > 1 && i < 512
      && Links(Read(w.mem, t, i), w.level[t])
      ensures Read(w.mem, t, i).addr in w.kernel + sp.owned
    {
      if t in sp.owned {
        if t == r && i > 0 { assert Read(w.mem, w.kbase, i) == Read(w.mem, t, i); }
        if t == sp.pdpt && i != 1 { assert Read(w.mem, KernelPdpt(w), i) == Read(w.mem, t, i); }
        if t == sp.pd { assert IsSplit(Read(w.mem, sp.pd, i)); }
      }
    }
  }

  lemma KernelPagesNotUser(w: World, r: nat, va: nat)
    requires WorldOk(w) && r in w.spaces && !InWindow(va)
    ensures !UserReachable(w.mem, r, va)
  {
    hide I4; hide I3; hide I2; hide I1;
    var sp := w.spaces[r];
    KernelPdptOk(w);
    hide PlacedOk;
    hide OwnedOk;
    if I4(va) != 0 {
      assert Read(w.mem, r, I4(va)) == Read(w.mem, w.kbase, I4(va));
    } else {
      assert Read(w.mem, sp.pdpt, I3(va)) == Read(w.mem, KernelPdpt(w), I3(va));
    }
  }

  lemma WindowPages(w: World, r: nat, sp: Space, va: nat)
    requires KernelOk(w) && SpaceOk(w, r, sp) && InWindow(va)
    ensures UserReachable(w.mem, r, va) <==> (I2(va), I1(va)) in sp.placed
    ensures UserReachable(w.mem, r, va) ==>
      && Walk(w.mem, r, va) == Some(Access(sp.placed[(I2(va), I1(va))], 1, true))
      && Translate(w.mem, r, va) == Some(sp.placed[(I2(va), I1(va))].addr * 0x1000 + va % 0x1000)
  {
    hide I4; hide I3; hide I2; hide I1;
    hide KernelOk;
    hide OwnedOk;
    var e2 := Read(w.mem, sp.pd, I2(va));
    if IsSplit(e2) {
      assert LeafAt(w, sp, I2(va), I1(va)) == Read(w.mem, e2.addr, I1(va));
    }
  }

  /** The pages a process can reach in user mode are exactly the ones placed for it, all inside
      its window, and they read as last placed. */
  lemma UserPagesAreThePlacedOnes(w: World, r: nat, va: nat)
    requires WorldOk(w) && r in w.spaces
    ensures var sp := w.spaces[r];
      && (UserReachable(w.mem, r, va) <==> InWindow(va) && (I2(va), I1(va)) in sp.placed)
      && (UserReachable(w.mem, r, va) ==>
            && Walk(w.mem, r, va) == Some(Access(sp.placed[(I2(va), I1(va))], 1, true))
            && Translate(w.mem, r, va) == Some(sp.placed[(I2(va), I1(va))].addr * 0x1000 + va % 0x1000))
  {
    hide I4; hide I3; hide I2; hide I1;
    hide SpaceOk; hide KernelOk; hide Apart; hide UserReachable; hide Walk; hide Translate;
    if InWindow(va) {
      WindowPages(w, r, w.spaces[r], va);
    } else {
      KernelPagesNotUser(w, r, va);
    }
  }

  /** Outside the window a process and the kernel base translate alike. */
  lemma OutsideWindowIsKernel(w: World, r: nat, va: nat)
    requires WorldOk(w) && r in w.spaces && !InWindow(va)
    ensures Translate(w.mem, r, va) == Translate(w.mem, w.kbase, va)
    ensures PageProt(w.mem, r, va) == PageProt(w.mem, w.kbase, va)
  {
    hide I4; hide I3; hide I2; hide I1;
    var sp := w.spaces[r];
    if I4(va) != 0 {
      assert Read(w.mem, r, I4(va)) == Read(w.mem, w.kbase, I4(va));
    } else {
      assert Read(w.mem, sp.pdpt, I3(va)) == Read(w.mem, KernelPdpt(w), I3(va));
    }
  }

  // ---- changes that stay out of a space ----

  ghost predicate SameTables(w: World, x: World, s: set<nat>) {
    forall t :: t in s && t in w.mem && t in w.level ==>
      t in x.mem && t in x.level && x.mem[t] == w.mem[t] && x.level[t] == w.level[t]
  }

  lemma SameReads(w: World, x: World, s: set<nat>, t: nat, i: nat)
    requires SameTables(w, x, s) && t in s && t in w.mem && t in w.level
    ensures Read(x.mem, t, i) == Read(w.mem, t, i)
  {
  }

  lemma TopFrame(w: World, x: World, r: nat, sp: Space)
    requires KernelOk(w) && TopOk(w, r, sp) && OwnedOk(w, r, sp)
    requires x.kbase == w.kbase && SameTables(w, x, w.kernel + sp.owned)
    ensures TopOk(x, r, sp)
  {
    KernelPdptOk(w);
    forall t, i: nat | t in w.kernel + sp.owned ensures Read(x.mem, t, i) == Read(w.mem, t, i) {
      SameReads(w, x, w.kernel + sp.owned, t, i);
    }
  }

  lemma DirectoryFrame(w: World, x: World, r: nat, sp: Space)
    requires Typed(w.mem, w.level) && TopOk(w, r, sp) && DirectoryOk(w, sp) && OwnedOk(w, r, sp) && PlacedOk(w, r, sp)
    requires x.kernel == w.kernel && SameTables(w, x, sp.owned)
    ensures DirectoryOk(x, sp) && OwnedOk(x, r, sp) && PlacedOk(x, r, sp)
  {
    forall t, i: nat | t in sp.owned ensures Read(x.mem, t, i) == Read(w.mem, t, i) {
      SameReads(w, x, sp.owned, t, i);
    }
    forall i: nat, j: nat | i < 512
      && IsSplit(Read(w.mem, sp.pd, i)) ensures LeafAt(x, sp, i, j) == LeafAt(w, sp, i, j) {}
    forall t | LeafTableOf(w, sp, t) ensures LeafTableOf(x, sp, t) {
      var i: nat :| i < 512 && IsSplit(Read(w.mem, sp.pd, i)) && Read(w.mem, sp.pd, i).addr == t;
      assert IsSplit(Read(x.mem, sp.pd, i));
    }
  }

  /** A space whose tables and the kernel's are untouched stays in order. */
  lemma SpaceFrame(w: World, x: World, r: nat, sp: Space)
    requires KernelOk(w) && SpaceOk(w, r, sp)
    requires x.kbase == w.kbase && x.kernel == w.kernel && SameTables(w, x, w.kernel + sp.owned)
    ensures SpaceOk(x, r, sp)
  {
    hide Typed; hide TopOk; hide DirectoryOk; hide OwnedOk; hide PlacedOk; hide SameTables;
    TopFrame(w, x, r, sp);
    assert SameTables(w, x, sp.owned) by { SameTablesSubset(w, x, w.kernel + sp.owned, sp.owned); }
    DirectoryFrame(w, x, r, sp);
  }

  lemma SameTablesSubset(w: World, x: World, s: set<nat>, s': set<nat>)
    requires SameTables(w, x, s) && s' <= s
    ensures SameTables(w, x, s')
  {
  }

  lemma KernelFrame(w: World, x: World)
    requires KernelOk(w) && Typed(x.mem, x.level)
    requires x.kbase == w.kbase && x.kernel == w.kernel && SameTables(w, x, w.kernel)
    ensures KernelOk(x)
  {
    KernelPdptOk(w);
    forall t, i: nat | t in w.kernel ensures Read(x.mem, t, i) == Read(w.mem, t, i) {
      SameReads(w, x, w.kernel, t, i);
    }
  }

  /** Translations from the kernel base and from any untouched space stay as they were. */
  lemma UntouchedWalks(w: World, x: World, r: nat, va: nat)
    requires WorldOk(w) && (r == w.kbase || r in w.spaces)
    requires SameTables(w, x, w.kernel + if r in w.spaces then w.spaces[r].owned else {})
    ensures Walk(x.mem, r, va) == Walk(w.mem, r, va)
  {
    var s := w.kernel + if r in w.spaces then w.spaces[r].owned else {};
    if r in w.spaces { SpaceClosed(w, r, w.spaces[r]); }
    WalkWithin(w.mem, x.mem, w.level, s, r, va);
  }
}

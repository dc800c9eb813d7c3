/** Edits of the kernel's own pages while processes exist: guard pages under stacks, and their removal. */
module KernelEdits {
  import opened PageTables
  import opened PageEdits
  import opened ProcessSpaces
  import opened SpaceMap
  import opened SpaceCreate
  import opened Options

  /** The page of `v` edited from the kernel base; a split adds a table to the kernel's. */
  function KernelEdit(w: World, v: nat, spare: nat, leaf: Entry): (x: World)
    requires PathPresent(w.mem, w.kbase, v)
  {
    var split := Read(w.mem, PdOf(w.mem, w.kbase, v), I2(v)).huge;
    w.(mem := EditPage(w.mem, w.kbase, v, spare, leaf),
       level := EditLevel(w.mem, w.level, w.kbase, v, spare),
       kernel := if split then w.kernel + {spare} else w.kernel)
  }

  /** A mapping for the supervisor, or none. */
  ghost predicate CanEdit(w: World, v: nat, spare: nat, leaf: Entry) {
    WorldOk(w) && PathPresent(w.mem, w.kbase, v) && spare !in w.mem && (leaf.present ==> !leaf.user)
  }

  /** The directory and the leaf table on the path of `v` are the kernel's. */
  lemma KernelPath(w: World, v: nat, spare: nat)
    requires KernelOk(w) && PathPresent(w.mem, w.kbase, v) && spare !in w.mem
    ensures var pd := PdOf(w.mem, w.kbase, v);
      && pd in w.kernel && At(w.level, pd, 2)
      && var e := Read(w.mem, pd, I2(v));
         !e.user && (!e.huge ==>
           LeafTable(w.mem, w.kbase, v, spare) in w.kernel && At(w.level, LeafTable(w.mem, w.kbase, v, spare), 1))
  {
    hide I4; hide I3; hide I2; hide I1;
    PathTyped(w.mem, w.level, w.kbase, v);
    var e4 := Read(w.mem, w.kbase, I4(v));
    assert Links(e4, 4);
    var e3 := Read(w.mem, e4.addr, I3(v));
    assert Links(e3, 3);
    var e2 := Read(w.mem, e3.addr, I2(v));
    assert !e2.huge ==> Links(e2, 2);
  }

  /** What an edit reads back: the new leaf, the link to a split-off table and its entries, and otherwise
      what was there. */
  lemma EditReads(w: World, v: nat, spare: nat, leaf: Entry, t: nat, i: nat)
    requires KernelOk(w) && PathPresent(w.mem, w.kbase, v) && spare !in w.mem
    ensures var pd, pt, n := PdOf(w.mem, w.kbase, v), LeafTable(w.mem, w.kbase, v, spare),
      EditPage(w.mem, w.kbase, v, spare, leaf);
      var e := Read(w.mem, pd, I2(v));
      Read(n, t, i) == (if t == pt && i == I1(v) then leaf
                        else if e.huge && t == pd && i == I2(v) then TableEntry(spare, false)
                        else if e.huge && t == spare then Read(map[spare := SplitTable(e)], spare, i)
                        else Read(w.mem, t, i))
  {
    hide I4; hide I3; hide I2; hide I1; hide KernelOk; hide SplitTable;
    KernelPath(w, v, spare);
    KernelTables3(w);
    var pd, pt, m := PdOf(w.mem, w.kbase, v), LeafTable(w.mem, w.kbase, v, spare), EnsurePt(w.mem, w.kbase, v, spare);
    var e := Read(w.mem, pd, I2(v));
    ReadWrite(m, pt, I1(v), leaf, t, i);
    if e.huge { ReadWrite(w.mem[spare := SplitTable(e)], pd, I2(v), TableEntry(spare, false), t, i); }
  }

  lemma KernelTables3(w: World)
    requires KernelOk(w)
    ensures w.kernel <= w.mem.Keys && w.mem.Keys == w.level.Keys && At(w.level, w.kbase, 4) && w.kbase in w.kernel
    ensures forall t :: t in w.mem ==> |w.mem[t]| == 512
  {
  }

  /** Tables that are not the kernel's, and its tables above the directories, are untouched. */
  lemma EditSpares(w: World, v: nat, spare: nat, leaf: Entry, t: nat)
    requires KernelOk(w) && PathPresent(w.mem, w.kbase, v) && spare !in w.mem && t in w.mem
    requires t !in w.kernel || w.level[t] > 2
    ensures var x := KernelEdit(w, v, spare, leaf);
      t in x.mem && t in x.level && x.mem[t] == w.mem[t] && x.level[t] == w.level[t]
  {
    hide I4; hide I3; hide I2; hide I1; hide KernelOk; hide SplitTable;
    KernelPath(w, v, spare);
    KernelTables3(w);
  }

  lemma EditSupervisor(w: World, v: nat, spare: nat, leaf: Entry, t: nat, i: nat)
    requires KernelOk(w) && PathPresent(w.mem, w.kbase, v) && spare !in w.mem && (leaf.present ==> !leaf.user)
    requires t in KernelEdit(w, v, spare, leaf).kernel && i < 512
    requires Read(KernelEdit(w, v, spare, leaf).mem, t, i).present
    ensures !Read(KernelEdit(w, v, spare, leaf).mem, t, i).user
  {
    hide I4; hide I3; hide I2; hide I1; hide EditPage; hide LeafTable;
    KernelPath(w, v, spare);
    EditReads(w, v, spare, leaf, t, i);
  }

  lemma EditClosed(w: World, v: nat, spare: nat, leaf: Entry, t: nat, i: nat)
    requires KernelOk(w) && PathPresent(w.mem, w.kbase, v) && spare !in w.mem
    requires var x := KernelEdit(w, v, spare, leaf);
      t in x.kernel && t in x.level && x.level[t] > 1 && i < 512 && Links(Read(x.mem, t, i), x.level[t])
    ensures var x := KernelEdit(w, v, spare, leaf); Read(x.mem, t, i).addr in x.kernel
  {
    hide I4; hide I3; hide I2; hide I1; hide EditPage; hide Typed; hide Supervisor;
    KernelPath(w, v, spare);
    EditReads(w, v, spare, leaf, t, i);
  }

  lemma EditKernelOk(w: World, v: nat, spare: nat, leaf: Entry)
    requires CanEdit(w, v, spare, leaf)
    ensures KernelOk(KernelEdit(w, v, spare, leaf))
  {
    hide WorldOk; hide Typed; hide EditPage; hide I2; hide Pd;
    OneWorld(w);
    var x := KernelEdit(w, v, spare, leaf);
    EditTyped(w.mem, w.level, w.kbase, v, spare, leaf);
    EditDirectories(w.mem, w.level, w.kbase, v, spare, leaf, 0, 1);
    EditKeys(w, v, spare, leaf);
    forall t, i: nat | t in x.kernel && i < 512 && Read(x.mem, t, i).present
      ensures !Read(x.mem, t, i).user
    {
      EditSupervisor(w, v, spare, leaf, t, i);
    }
    forall t, i: nat | t in x.kernel && t in x.level && x.level[t] > 1 && i < 512
      && Links(Read(x.mem, t, i), x.level[t])
      ensures Read(x.mem, t, i).addr in x.kernel
    {
      EditClosed(w, v, spare, leaf, t, i);
    }
  }

  lemma EditKeys(w: World, v: nat, spare: nat, leaf: Entry)
    requires KernelOk(w) && PathPresent(w.mem, w.kbase, v) && spare !in w.mem
    ensures var x := KernelEdit(w, v, spare, leaf);
      && x.mem.Keys == (if Read(w.mem, PdOf(w.mem, w.kbase, v), I2(v)).huge then w.mem.Keys + {spare} else w.mem.Keys)
      && At(x.level, w.kbase, 4) && w.kernel <= x.kernel <= x.mem.Keys && x.kbase in x.kernel
  {
    hide I4; hide I3; hide I2; hide I1; hide SplitTable;
    KernelPath(w, v, spare);
    KernelTables3(w);
  }

  /** A process space keeps its own tables and the kernel's top tables, so it stays in order. */
  lemma EditSpaceOk(w: World, v: nat, spare: nat, leaf: Entry, r: nat)
    requires CanEdit(w, v, spare, leaf) && r in w.spaces
    ensures SpaceOk(KernelEdit(w, v, spare, leaf), r, w.spaces[r])
  {
    hide WorldOk; hide EditPage; hide I2; hide KernelOk; hide PlacedOk; hide DirectoryOk; hide EditLevel;
    hide PathPresent;
    OneSpace(w, r);
    OneWorld(w);
    KernelPdptOk(w);
    KernelTables3(w);
    var sp, x := w.spaces[r], KernelEdit(w, v, spare, leaf);
    EditKeys(w, v, spare, leaf);
    OwnedSame(w, v, spare, leaf, r);
    EditSpares(w, v, spare, leaf, w.kbase);
    EditSpares(w, v, spare, leaf, KernelPdpt(w));
    var y := x.(kernel := w.kernel);
    KernelTyped(w);
    DirectoryFrame(w, y, r, sp);
    SameButKernel(y, x, r, sp);
    SameTop(w, x, r, sp);
  }

  lemma SameTop(w: World, x: World, r: nat, sp: Space)
    requires TopOk(w, r, sp) && sp.owned <= w.mem.Keys && w.mem.Keys == w.level.Keys && SameTables(w, x, sp.owned)
    requires x.kbase == w.kbase
    requires w.kbase in w.mem && w.kbase in x.mem && x.mem[w.kbase] == w.mem[w.kbase]
    requires KernelPdpt(w) in w.mem && KernelPdpt(w) in x.mem && x.mem[KernelPdpt(w)] == w.mem[KernelPdpt(w)]
    ensures TopOk(x, r, sp)
  {
    forall t, i: nat | t in {r, sp.pdpt, w.kbase, KernelPdpt(w)}
      ensures Read(x.mem, t, i) == Read(w.mem, t, i)
    {
      if t in sp.owned { SameReads(w, x, sp.owned, t, i); }
    }
  }

  lemma KernelTyped(w: World)
    requires KernelOk(w)
    ensures Typed(w.mem, w.level)
  {
  }

  lemma SameButKernel(y: World, x: World, r: nat, sp: Space)
    requires x == y.(kernel := x.kernel) && DirectoryOk(y, sp) && PlacedOk(y, r, sp) && OwnedOk(y, r, sp)
    requires sp.owned !! x.kernel
    ensures DirectoryOk(x, sp) && PlacedOk(x, r, sp) && OwnedOk(x, r, sp)
  {
    forall t | LeafTableOf(y, sp, t)
      ensures LeafTableOf(x, sp, t)
    {
      var i: nat :| i < 512 && IsSplit(Read(y.mem, sp.pd, i)) && Read(y.mem, sp.pd, i).addr == t;
      assert IsSplit(Read(x.mem, sp.pd, i));
    }
    forall i: nat, j: nat
      ensures LeafAt(x, sp, i, j) == LeafAt(y, sp, i, j)
    {
    }
  }

  lemma OwnedSame(w: World, v: nat, spare: nat, leaf: Entry, r: nat)
    requires CanEdit(w, v, spare, leaf) && r in w.spaces
    ensures SameTables(w, KernelEdit(w, v, spare, leaf), w.spaces[r].owned)
    ensures w.spaces[r].owned !! KernelEdit(w, v, spare, leaf).kernel
  {
    hide WorldOk; hide EditPage; hide I2; hide KernelOk; hide PlacedOk; hide DirectoryOk; hide EditLevel;
    hide PathPresent;
    OneSpace(w, r);
    OneWorld(w);
    var x := KernelEdit(w, v, spare, leaf);
    forall t | t in w.spaces[r].owned && t in w.mem && t in w.level
      ensures t in x.mem && t in x.level && x.mem[t] == w.mem[t] && x.level[t] == w.level[t]
    {
      EditSpares(w, v, spare, leaf, t);
    }
  }

  /** An edit of a kernel page keeps the kernel base and every process space in order. */
  lemma KernelEditKeeps(w: World, v: nat, spare: nat, leaf: Entry)
    requires CanEdit(w, v, spare, leaf)
    ensures WorldOk(KernelEdit(w, v, spare, leaf))
  {
    hide KernelOk; hide SpaceOk; hide EditPage; hide PathPresent; hide I2; hide EditLevel;
    var x := KernelEdit(w, v, spare, leaf);
    EditKernelOk(w, v, spare, leaf);
    forall r | r in x.spaces
      ensures SpaceOk(x, r, x.spaces[r])
    {
      EditSpaceOk(w, v, spare, leaf, r);
    }
  }

  // ---- what the edit changes ----

  /** The translation, the protection and the user reach of an address are the same in both memories. */
  ghost predicate SameView(m: Mem, n: Mem, root: nat, va: nat) {
    && Translate(n, root, va) == Translate(m, root, va) && PageProt(n, root, va) == PageProt(m, root, va)
    && (UserReachable(n, root, va) <==> UserReachable(m, root, va))
  }

  lemma KernelNotUser(w: World, va: nat)
    requires WorldOk(w)
    ensures !UserReachable(w.mem, w.kbase, va)
  {
    hide I4; hide I3; hide I2; hide I1;
    OneWorld(w);
    assert Read(w.mem, w.kbase, I4(va)).present ==> !Read(w.mem, w.kbase, I4(va)).user;
  }

  /** Inside its window a process walks only its own tables. */
  lemma WindowWalkSame(w: World, x: World, r: nat, sp: Space, va: nat)
    requires KernelOk(w) && SpaceOk(w, r, sp) && InWindow(va) && SameTables(w, x, sp.owned)
    ensures Walk(x.mem, r, va) == Walk(w.mem, r, va)
  {
    hide I4; hide I3; hide I2; hide I1; hide PlacedOk;
    KernelTables3(w);
    forall t, i: nat | t in sp.owned
      ensures Read(x.mem, t, i) == Read(w.mem, t, i)
    {
      SameReads(w, x, sp.owned, t, i);
    }
    hide KernelOk;
  }

  lemma EditedKernelView(w: World, v: nat, spare: nat, leaf: Entry, va: nat)
    requires CanEdit(w, v, spare, leaf) && Unshared(w.mem, w.kbase) && !SamePage(va, v)
    ensures SameView(w.mem, KernelEdit(w, v, spare, leaf).mem, w.kbase, va)
  {
    hide WorldOk; hide KernelOk; hide EditPage; hide PathPresent; hide I4; hide I3; hide I2; hide I1; hide EditLevel;
    hide Translate; hide PageProt; hide UserReachable; hide Unshared; hide Typed;
    OneWorld(w);
    KernelTables3(w);
    KernelEditKeeps(w, v, spare, leaf);
    KernelNotUser(w, va);
    KernelNotUser(KernelEdit(w, v, spare, leaf), va);
    EditChangesOnePage(w.mem, w.level, w.kbase, v, spare, leaf, va);
  }

  /** No space sees a change except at the edited page; and inside its window a process sees none at all. */
  lemma KernelEditView(w: World, v: nat, spare: nat, leaf: Entry, q: nat, va: nat)
    requires CanEdit(w, v, spare, leaf) && Unshared(w.mem, w.kbase) && (q == w.kbase || q in w.spaces)
    requires !SamePage(va, v) || (q in w.spaces && InWindow(va))
    ensures SameView(w.mem, KernelEdit(w, v, spare, leaf).mem, q, va)
  {
    hide WorldOk; hide KernelOk; hide SpaceOk; hide EditPage; hide PathPresent; hide SamePage; hide InWindow;
    hide EditLevel;
    hide I2; hide Walk; hide Unshared;
    var x := KernelEdit(w, v, spare, leaf);
    OneWorld(w);
    if q in w.spaces && InWindow(va) {
      OneSpace(w, q);
      OwnedSame(w, v, spare, leaf, q);
      WindowWalkSame(w, x, q, w.spaces[q], va);
    } else if q in w.spaces {
      KernelEditKeeps(w, v, spare, leaf);
      EditedKernelView(w, v, spare, leaf, va);
      OutsideWindowIsKernel(w, q, va);
      OutsideWindowIsKernel(x, q, va);
      KernelPagesNotUser(w, q, va);
      KernelPagesNotUser(x, q, va);
    } else {
      EditedKernelView(w, v, spare, leaf, va);
    }
  }

  /** At the edited page the kernel base, and every process outside its window, sees the new leaf. */
  lemma KernelEditSets(w: World, v: nat, spare: nat, leaf: Entry, q: nat, va: nat)
    requires CanEdit(w, v, spare, leaf) && Unshared(w.mem, w.kbase) && SamePage(va, v)
    requires q == w.kbase || (q in w.spaces && !InWindow(va))
    ensures var n := KernelEdit(w, v, spare, leaf).mem;
      if leaf.present
        then Translate(n, q, va) == Some(leaf.addr * 0x1000 + va % 0x1000)
        && PageProt(n, q, va) == Some((leaf.writable, !leaf.nx))
      else Translate(n, q, va).None?
  {
    hide WorldOk; hide KernelOk; hide SpaceOk; hide EditPage; hide PathPresent; hide InWindow; hide EditLevel;
    hide I4; hide I3; hide I2; hide I1; hide Walk; hide Unshared; hide Typed;
    OneWorld(w);
    KernelTables3(w);
    KernelEditKeeps(w, v, spare, leaf);
    EditChangesOnePage(w.mem, w.level, w.kbase, v, spare, leaf, va);
    if q in w.spaces && !InWindow(va) { OutsideWindowIsKernel(KernelEdit(w, v, spare, leaf), q, va); }
  }

  /** An edit made while a process's tables are active, at an address outside its window, writes the very
      tables that the same edit through the kernel base would: the two share the path. */
  lemma EditThroughProcess(w: World, r: nat, v: nat, spare: nat, leaf: Entry)
    requires WorldOk(w) && r in w.spaces && !InWindow(v)
    ensures PathPresent(w.mem, r, v) <==> PathPresent(w.mem, w.kbase, v)
    ensures PathPresent(w.mem, r, v) ==>
      EditPage(w.mem, r, v, spare, leaf) == EditPage(w.mem, w.kbase, v, spare, leaf)
  {
    hide I4; hide I3; hide I2; hide I1; hide WorldOk; hide DirectoryOk; hide OwnedOk; hide PlacedOk; hide Typed;
    OneSpace(w, r);
    var sp := w.spaces[r];
    if I4(v) != 0 {
      assert Read(w.mem, r, I4(v)) == Read(w.mem, w.kbase, I4(v));
    } else {
      assert Read(w.mem, sp.pdpt, I3(v)) == Read(w.mem, KernelPdpt(w), I3(v));
    }
  }

  /** The kernel base keeps its tables unshared under its own edits, and under whatever leaves its tables alone. */
  lemma KernelEditUnshared(w: World, v: nat, spare: nat, leaf: Entry)
    requires CanEdit(w, v, spare, leaf) && Unshared(w.mem, w.kbase)
    ensures Unshared(KernelEdit(w, v, spare, leaf).mem, w.kbase)
  {
    hide WorldOk; hide EditPage; hide PathPresent; hide Unshared; hide Typed;
    OneWorld(w);
    EditKeepsUnshared(w.mem, w.level, w.kbase, v, spare, leaf);
  }

  lemma KernelPaths(w: World, x: World, i4: nat, i3: nat, i2: nat)
    requires KernelOk(w) && SameTables(w, x, w.kernel)
    ensures Pd(x.mem, w.kbase, i4, i3) == Pd(w.mem, w.kbase, i4, i3)
    ensures Pt(x.mem, w.kbase, i4, i3, i2) == Pt(w.mem, w.kbase, i4, i3, i2)
  {
    KernelTables3(w);
    SameReads(w, x, w.kernel, w.kbase, i4);
    var e4 := Read(w.mem, w.kbase, i4);
    if e4.present {
      assert i4 < 512 && Links(e4, 4) && e4.addr in w.kernel;
      SameReads(w, x, w.kernel, e4.addr, i3);
      var e3 := Read(w.mem, e4.addr, i3);
      if e3.present && !e3.huge {
        assert i3 < 512 && Links(e3, 3) && e3.addr in w.kernel;
        SameReads(w, x, w.kernel, e3.addr, i2);
      }
    }
  }

  lemma UnsharedFrame(w: World, x: World)
    requires KernelOk(w) && SameTables(w, x, w.kernel) && Unshared(w.mem, w.kbase)
    ensures Unshared(x.mem, w.kbase)
  {
    hide KernelOk; hide SameTables; hide Pd; hide Pt;
    forall i4: nat, i3: nat, i2: nat
      ensures Pt(x.mem, w.kbase, i4, i3, i2) == Pt(w.mem, w.kbase, i4, i3, i2)
    {
      KernelPaths(w, x, i4, i3, i2);
    }
    forall i4: nat, i3: nat
      ensures Pd(x.mem, w.kbase, i4, i3) == Pd(w.mem, w.kbase, i4, i3)
    {
      KernelPaths(w, x, i4, i3, 0);
    }
  }
}

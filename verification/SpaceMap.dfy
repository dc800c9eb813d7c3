/** Mapping a user page into a process: the path is opened to user mode and one leaf is written,
    all inside tables that only this process owns. */
module SpaceMap {
  import opened PageTables
  import opened PageEdits
  import opened ProcessSpaces

  datatype Prot = Rx | Ro | Rw

  /** The leaf `map_user_page` writes; writable and executable together cannot be expressed. */
  function UserLeaf(phys: nat, prot: Prot, pkey: nat): (e: Entry)
    ensures !(e.writable && !e.nx)
  {
    Entry(true, prot.Rw?, true, false, !prot.Rx?, pkey, phys)
  }

  /** `ensure_pt_user`: the user bit on every level of the path, the leaf table split off into
      `spare` if the block was huge. */
  function EnsurePtUser(m: Mem, root: nat, v: nat, spare: nat): (n: Mem)
    requires PathPresent(m, root, v)
  {
    var e4 := Read(m, root, I4(v));
    var e3 := Read(m, e4.addr, I3(v));
    var e2 := Read(m, e3.addr, I2(v));
    var m1 := WriteEntry(m, root, I4(v), e4.(user := true));
    var m2 := WriteEntry(m1, e4.addr, I3(v), e3.(user := true));
    if e2.huge
    then WriteEntry(m2[spare := SplitTable(e2)], e3.addr, I2(v), TableEntry(spare, true))
    else WriteEntry(m2, e3.addr, I2(v), e2.(user := true))
  }

  function MapUserPage(m: Mem, root: nat, v: nat, spare: nat, leaf: Entry): (n: Mem)
    requires PathPresent(m, root, v)
  {
    WriteEntry(EnsurePtUser(m, root, v, spare), LeafTable(m, root, v, spare), I1(v), leaf)
  }

  function MapUser(w: World, r: nat, v: nat, spare: nat, leaf: Entry): (x: World)
    requires r in w.spaces && PathPresent(w.mem, r, v)
  {
    var sp := w.spaces[r];
    var split := Read(w.mem, sp.pd, I2(v)).huge;
    w.(mem := MapUserPage(w.mem, r, v, spare, leaf),
       level := if split then w.level[spare := 1] else w.level,
       spaces := w.spaces[r := sp.(owned := if split then sp.owned + {spare} else sp.owned,
                                   placed := sp.placed[(I2(v), I1(v)) := leaf])])
  }

  ghost predicate CanMap(w: World, r: nat, v: nat, spare: nat, leaf: Entry) {
    WorldOk(w) && r in w.spaces && InWindow(v) && PathPresent(w.mem, r, v) && spare !in w.mem && leaf.present
      && leaf.user
  }

  lemma WindowPath(w: World, r: nat, v: nat, spare: nat)
    requires WorldOk(w) && r in w.spaces && InWindow(v) && PathPresent(w.mem, r, v)
    ensures var sp := w.spaces[r];
      && Read(w.mem, r, I4(v)).addr == sp.pdpt && Read(w.mem, sp.pdpt, I3(v)).addr == sp.pd
      && PdOf(w.mem, r, v) == sp.pd
      && LeafTable(w.mem, r, v, spare) == LeafOf(w, sp, v, spare)
      && Read(w.mem, sp.pd, I2(v)).present
      && (!Read(w.mem, sp.pd, I2(v)).huge ==>
            Read(w.mem, sp.pd, I2(v)).addr in sp.owned && At(w.level, Read(w.mem, sp.pd, I2(v)).addr, 1))
      && r != sp.pdpt && r != sp.pd && sp.pdpt != sp.pd
  {
    assert SpaceOk(w, r, w.spaces[r]);
  }

  lemma OneSpace(w: World, r: nat)
    requires WorldOk(w) && r in w.spaces
    ensures SpaceOk(w, r, w.spaces[r]) && KernelOk(w)
  {
  }

  function LeafOf(w: World, sp: Space, v: nat, spare: nat): (pt: nat) {
    var e2 := Read(w.mem, sp.pd, I2(v));
    if e2.huge then spare else e2.addr
  }

  predicate Full(m: Mem) {
    forall t :: t in m ==> |m[t]| == 512
  }

  lemma WriteFull(m: Mem, t: nat, i: nat, e: Entry)
    requires Full(m)
    ensures Full(WriteEntry(m, t, i, e)) && WriteEntry(m, t, i, e).Keys == m.Keys
  {
  }

  /** What the entries of the mapped space read afterwards. */
  function NewRead(w: World, r: nat, sp: Space, v: nat, spare: nat, leaf: Entry, t: nat, i: nat): (e: Entry) {
    var e2 := Read(w.mem, sp.pd, I2(v));
    if t == LeafOf(w, sp, v, spare) && i == I1(v) then leaf
    else if t == r && i == 0 then Read(w.mem, r, 0).(user := true)
    else if t == sp.pdpt && i == 1 then Read(w.mem, sp.pdpt, 1).(user := true)
    else if t == sp.pd && i == I2(v) then (if e2.huge then TableEntry(spare, true) else e2.(user := true))
    else if t == spare && e2.huge && i < 512 then SplitTable(e2)[i]
    else Read(w.mem, t, i)
  }

  lemma MapUserReads(w: World, r: nat, v: nat, spare: nat, leaf: Entry, t: nat, i: nat)
    requires CanMap(w, r, v, spare, leaf) && i < 512
    ensures Read(MapUser(w, r, v, spare, leaf).mem, t, i) == NewRead(w, r, w.spaces[r], v, spare, leaf, t, i)
  {
    hide I2; hide I1; hide WorldOk; hide SplitTable; hide PathPresent;
    WindowPath(w, r, v, spare);
    var sp := w.spaces[r];
    MapUserKeys(w, r, v, spare, leaf);
    var e4, e3 := Read(w.mem, r, 0), Read(w.mem, sp.pdpt, 1);
    var e2 := Read(w.mem, sp.pd, I2(v));
    var m1 := WriteEntry(w.mem, r, 0, e4.(user := true));
    var m2 := WriteEntry(m1, sp.pdpt, 1, e3.(user := true));
    var m3 := if e2.huge then m2[spare := SplitTable(e2)] else m2;
    var f2 := if e2.huge then TableEntry(spare, true) else e2.(user := true);
    var m4 := WriteEntry(m3, sp.pd, I2(v), f2);
    ReadWrite(w.mem, r, 0, e4.(user := true), t, i);
    ReadWrite(m1, sp.pdpt, 1, e3.(user := true), t, i);
    ReadWrite(m3, sp.pd, I2(v), f2, t, i);
    ReadWrite(m4, LeafOf(w, sp, v, spare), I1(v), leaf, t, i);
  }

  lemma MapUserKeys(w: World, r: nat, v: nat, spare: nat, leaf: Entry)
    requires CanMap(w, r, v, spare, leaf)
    ensures var n, sp := MapUser(w, r, v, spare, leaf).mem, w.spaces[r];
      && Full(n) && n.Keys == w.mem.Keys + (if Read(w.mem, sp.pd, I2(v)).huge then {spare} else {})
      && Full(w.mem) && r in w.mem && sp.pdpt in w.mem && sp.pd in w.mem
      && (!Read(w.mem, sp.pd, I2(v)).huge ==> LeafOf(w, sp, v, spare) in w.mem)
  {
    hide I2; hide I1; hide WorldOk; hide WriteEntry;
    OneSpace(w, r);
    WindowPath(w, r, v, spare);
    var sp := w.spaces[r];
    assert Full(w.mem) && sp.owned <= w.mem.Keys && r in w.mem && sp.pdpt in w.mem && sp.pd in w.mem;
    hide SpaceOk; hide KernelOk; hide Typed;
    var e2 := Read(w.mem, sp.pd, I2(v));
    var m1 := WriteEntry(w.mem, r, 0, Read(w.mem, r, 0).(user := true));
    var m2 := WriteEntry(m1, sp.pdpt, 1, Read(w.mem, sp.pdpt, 1).(user := true));
    WriteFull(w.mem, r, 0, Read(w.mem, r, 0).(user := true));
    WriteFull(m1, sp.pdpt, 1, Read(w.mem, sp.pdpt, 1).(user := true));
    var m3 := if e2.huge then m2[spare := SplitTable(e2)] else m2;
    var f2 := if e2.huge then TableEntry(spare, true) else e2.(user := true);
    WriteFull(m3, sp.pd, I2(v), f2);
    WriteFull(WriteEntry(m3, sp.pd, I2(v), f2), LeafOf(w, sp, v, spare), I1(v), leaf);
  }

  lemma ReadsDecide(m: Mem, n: Mem, t: nat)
    requires t in m && t in n && |m[t]| == 512 && |n[t]| == 512 && forall i: nat :: i < 512 ==>
      Read(n, t, i) == Read(m, t, i)
    ensures n[t] == m[t]
  {
    forall i | 0 <= i < 512 ensures n[t][i] == m[t][i] { assert Read(n, t, i) == Read(m, t, i); }
  }

  /** Tables that the process does not own are left alone. */
  lemma OthersUntouched(w: World, r: nat, v: nat, spare: nat, leaf: Entry, s: set<nat>)
    requires CanMap(w, r, v, spare, leaf) && s !! w.spaces[r].owned && s <= w.mem.Keys
    ensures SameTables(w, MapUser(w, r, v, spare, leaf), s)
  {
    hide I2; hide I1; hide MapUserPage; hide SplitTable; hide WorldOk; hide PathPresent;
    OneSpace(w, r);
    var x, sp := MapUser(w, r, v, spare, leaf), w.spaces[r];
    WindowPath(w, r, v, spare);
    MapUserKeys(w, r, v, spare, leaf);
    forall t | t in s && t in w.mem ensures t in x.mem && x.mem[t] == w.mem[t] {
      forall i: nat | i < 512 ensures Read(x.mem, t, i) == Read(w.mem, t, i) {
        MapUserReads(w, r, v, spare, leaf, t, i);
      }
      ReadsDecide(w.mem, x.mem, t);
    }
  }

  lemma MapUserTyped(w: World, r: nat, v: nat, spare: nat, leaf: Entry)
    requires CanMap(w, r, v, spare, leaf)
    ensures Typed(MapUser(w, r, v, spare, leaf).mem, MapUser(w, r, v, spare, leaf).level)
  {
    hide I2; hide I1; hide MapUserPage; hide SplitTable; hide WorldOk; hide PathPresent;
    OneSpace(w, r);
    var x, sp := MapUser(w, r, v, spare, leaf), w.spaces[r];
    WindowPath(w, r, v, spare);
    MapUserKeys(w, r, v, spare, leaf);
    forall t, i: nat | t in x.mem && x.level[t] > 1 && i < 512 && Links(Read(x.mem, t, i), x.level[t])
      ensures Read(x.mem, t, i).addr in x.level && x.level[Read(x.mem, t, i).addr] == x.level[t] - 1
    {
      MapUserReads(w, r, v, spare, leaf, t, i);
      assert Read(x.mem, t, i).addr == Read(w.mem, t, i).addr || Read(x.mem, t, i) == TableEntry(spare, true);
    }
  }

  lemma MapUserTop(w: World, r: nat, v: nat, spare: nat, leaf: Entry)
    requires CanMap(w, r, v, spare, leaf)
    ensures var x := MapUser(w, r, v, spare, leaf); TopOk(x, r, x.spaces[r])
  {
    hide I2; hide I1; hide MapUserPage; hide SplitTable; hide WorldOk; hide PathPresent;
    OneSpace(w, r);
    var x, sp := MapUser(w, r, v, spare, leaf), w.spaces[r];
    WindowPath(w, r, v, spare);
    KernelPdptOk(w);
    forall t, i: nat | i < 512 ensures Read(x.mem, t, i) == NewRead(w, r, sp, v, spare, leaf, t, i) {
      MapUserReads(w, r, v, spare, leaf, t, i);
    }
  }

  lemma MapUserDirectory(w: World, r: nat, v: nat, spare: nat, leaf: Entry)
    requires CanMap(w, r, v, spare, leaf)
    ensures var x := MapUser(w, r, v, spare, leaf); DirectoryOk(x, x.spaces[r]) && OwnedOk(x, r, x.spaces[r])
  {
    hide I2; hide I1; hide MapUserPage; hide SplitTable; hide WorldOk; hide PathPresent;
    OneSpace(w, r);
    var x, sp := MapUser(w, r, v, spare, leaf), w.spaces[r];
    WindowPath(w, r, v, spare);
    MapUserKeys(w, r, v, spare, leaf);
    forall i: nat | i < 512
      ensures Read(x.mem, sp.pd, i) == if i == I2(v)
        then (if Read(w.mem, sp.pd, i).huge then TableEntry(spare, true) else Read(w.mem, sp.pd, i).(user := true))
                                       else Read(w.mem, sp.pd, i)
    {
      MapUserReads(w, r, v, spare, leaf, sp.pd, i);
    }
    assert spare !in sp.owned;
    forall t | LeafTableOf(w, sp, t) ensures LeafTableOf(x, x.spaces[r], t) {
      var i: nat :| i < 512 && IsSplit(Read(w.mem, sp.pd, i)) && Read(w.mem, sp.pd, i).addr == t;
      assert IsSplit(Read(x.mem, sp.pd, i));
    }
    if Read(w.mem, sp.pd, I2(v)).huge {
      assert IsSplit(Read(x.mem, sp.pd, I2(v))) && Read(x.mem, sp.pd, I2(v)).addr == spare;
      assert LeafTableOf(x, x.spaces[r], spare);
    }
  }

  /** The leaves of the window afterwards: the new one, the split ones without a user bit, and
      the rest as before. */
  lemma MapUserLeaves(w: World, r: nat, v: nat, spare: nat, leaf: Entry, i: nat, j: nat)
    requires CanMap(w, r, v, spare, leaf) && i < 512 && j < 512
    ensures var x, sp := MapUser(w, r, v, spare, leaf), w.spaces[r];
      var e := Read(w.mem, sp.pd, i);
      && (IsSplit(Read(x.mem, sp.pd, i)) <==> IsSplit(e) || (i == I2(v) && e.present))
      && (IsSplit(Read(x.mem, sp.pd, i)) ==>
            if i == I2(v) && j == I1(v) then LeafAt(x, sp, i, j) == leaf
            else if IsSplit(e) then LeafAt(x, sp, i, j) == LeafAt(w, sp, i, j)
            else LeafAt(x, sp, i, j) == SplitTable(e)[j])
      && (i == I2(v) ==> Read(x.mem, sp.pd, i).user)
      && (i != I2(v) ==> Read(x.mem, sp.pd, i) == e)
  {
    hide I2; hide I1; hide MapUserPage; hide SplitTable; hide WorldOk; hide PathPresent;
    OneSpace(w, r);
    var x, sp := MapUser(w, r, v, spare, leaf), w.spaces[r];
    WindowPath(w, r, v, spare);
    MapUserReads(w, r, v, spare, leaf, sp.pd, i);
    MapUserReads(w, r, v, spare, leaf, Read(x.mem, sp.pd, i).addr, j);
    assert spare !in sp.owned;
  }

  lemma MapUserPlaced(w: World, r: nat, v: nat, spare: nat, leaf: Entry)
    requires CanMap(w, r, v, spare, leaf)
    ensures var x := MapUser(w, r, v, spare, leaf); PlacedOk(x, r, x.spaces[r])
  {
    hide I2; hide I1; hide MapUserPage; hide WorldOk; hide PathPresent;
    OneSpace(w, r);
    var x, sp := MapUser(w, r, v, spare, leaf), w.spaces[r];
    var sp' := x.spaces[r];
    WindowPath(w, r, v, spare);
    MapUserReads(w, r, v, spare, leaf, r, 0);
    MapUserReads(w, r, v, spare, leaf, sp.pdpt, 1);
    forall i: nat, j: nat | i < 512 && j < 512 && IsSplit(Read(x.mem, sp.pd, i)) && LeafAt(x, sp', i, j).present
      && LeafAt(x, sp', i, j).user
      ensures (i, j) in sp'.placed
    {
      MapUserLeaves(w, r, v, spare, leaf, i, j);
    }
    forall p | p in sp'.placed
      ensures p.0 < 512 && p.1 < 512 && IsSplit(Read(x.mem, sp.pd, p.0)) && LeafAt(x, sp', p.0, p.1) == sp'.placed[p]
      ensures sp'.placed[p].present && sp'.placed[p].user && Read(x.mem, sp.pd, p.0).user
      ensures Read(x.mem, r, 0).user && Read(x.mem, sp.pdpt, 1).user
    {
      MapUserLeaves(w, r, v, spare, leaf, p.0, p.1);
    }
  }

  lemma MapUserKernel(w: World, r: nat, v: nat, spare: nat, leaf: Entry)
    requires CanMap(w, r, v, spare, leaf)
    ensures KernelOk(MapUser(w, r, v, spare, leaf))
  {
    hide I2; hide I1; hide MapUserPage; hide PathPresent; hide WorldOk;
    OneSpace(w, r);
    MapUserTyped(w, r, v, spare, leaf);
    hide TopOk; hide DirectoryOk; hide PlacedOk; hide Typed;
    OthersUntouched(w, r, v, spare, leaf, w.kernel);
    KernelFrame(w, MapUser(w, r, v, spare, leaf));
  }

  lemma MapUserOther(w: World, r: nat, v: nat, spare: nat, leaf: Entry, q: nat)
    requires CanMap(w, r, v, spare, leaf) && q in w.spaces && q != r
    ensures SpaceOk(MapUser(w, r, v, spare, leaf), q, w.spaces[q])
  {
    hide I2; hide I1; hide MapUserPage; hide PathPresent;
    OneSpace(w, r);
    OneSpace(w, q);
    hide TopOk; hide DirectoryOk; hide PlacedOk; hide Typed;
    OthersUntouched(w, r, v, spare, leaf, w.kernel + w.spaces[q].owned);
    SpaceFrame(w, MapUser(w, r, v, spare, leaf), q, w.spaces[q]);
  }

  lemma MapUserApart(w: World, r: nat, v: nat, spare: nat, leaf: Entry)
    requires CanMap(w, r, v, spare, leaf)
    ensures Apart(MapUser(w, r, v, spare, leaf))
  {
    hide I2; hide I1; hide MapUserPage; hide PathPresent; hide KernelOk; hide TopOk; hide DirectoryOk; hide PlacedOk;
    forall q | q in w.spaces ensures spare !in w.spaces[q].owned {
      assert SpaceOk(w, q, w.spaces[q]);
    }
  }

  /** Mapping a user page keeps every space in order. */
  lemma MapUserKeeps(w: World, r: nat, v: nat, spare: nat, leaf: Entry)
    requires CanMap(w, r, v, spare, leaf)
    ensures WorldOk(MapUser(w, r, v, spare, leaf))
  {
    hide I2; hide I1; hide MapUserPage; hide PathPresent; hide KernelOk; hide Apart;
    hide TopOk; hide DirectoryOk; hide PlacedOk; hide OwnedOk;
    var x := MapUser(w, r, v, spare, leaf);
    MapUserTop(w, r, v, spare, leaf);
    MapUserDirectory(w, r, v, spare, leaf);
    MapUserPlaced(w, r, v, spare, leaf);
    MapUserKernel(w, r, v, spare, leaf);
    MapUserApart(w, r, v, spare, leaf);
    forall q | q in w.spaces && q != r ensures SpaceOk(x, q, x.spaces[q]) {
      MapUserOther(w, r, v, spare, leaf, q);
    }
  }

  /** No other process and not the kernel base sees any translation change. */
  lemma MapUserIsolated(w: World, r: nat, v: nat, spare: nat, leaf: Entry, q: nat, va: nat)
    requires CanMap(w, r, v, spare, leaf) && q != r && (q == w.kbase || q in w.spaces)
    ensures Walk(MapUser(w, r, v, spare, leaf).mem, q, va) == Walk(w.mem, q, va)
  {
    var s := w.kernel + if q in w.spaces then w.spaces[q].owned else {};
    assert SpaceOk(w, r, w.spaces[r]);
    assert q in w.spaces ==> SpaceOk(w, q, w.spaces[q]);
    OthersUntouched(w, r, v, spare, leaf, s);
    UntouchedWalks(w, MapUser(w, r, v, spare, leaf), q, va);
  }
}

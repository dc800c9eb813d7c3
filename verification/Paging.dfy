/** The table code as the kernel runs it: entries written one at a time into table frames taken
    from the allocator, proved to leave exactly the memory the models describe. */
module PagingObject {
  import opened PageTables
  import opened PageEdits
  import opened ProcessSpaces
  import opened SpaceMap
  import opened SpaceCreate
  import opened SpaceRuns
  import opened PageBoot
  import opened KernelImage
  import opened Options

  lemma UpdateLast(done: seq<Entry>, i: nat, e: Entry)
    requires |done| == i < 512
    ensures (done + ZERO_TABLE[i..])[i := e] == done + [e] + ZERO_TABLE[i + 1..]
  {
  }

  lemma PdptGrows(pds: seq<nat>, g: nat)
    requires g < |pds| <= 512
    ensures PdptTable(pds[..g])[g := TableEntry(pds[g], false)] == PdptTable(pds[..g + 1])
  {
  }

  /** Adding a directory and its entry commutes with what was mapped before. */
  lemma GibAdded(base: Mem, pdpt: nat, t: seq<Entry>, u: seq<Entry>, dirs: Mem, pd: nat, table: seq<Entry>)
    requires pd != pdpt && pdpt !in dirs
    ensures (base[pdpt := t] + dirs)[pd := table][pdpt := u] == base[pdpt := u] + dirs[pd := table]
  {
  }

  lemma PrivatisedGrows(t: seq<Entry>, fs: seq<nat>, i: nat)
    requires |t| == 512 && i < 512 && IsSplit(t[i]) && Rank(t, i) < Rank(t, i + 1) <= |fs|
    ensures Privatised(t, fs, i)[i := t[i].(addr := fs[Rank(t, i)])] == Privatised(t, fs, i + 1)
  {
  }

  lemma CloneAdded(m: Mem, clones: Mem, pd: nat, a: seq<Entry>, b: seq<Entry>, priv: nat, table: seq<Entry>)
    requires pd != priv
    ensures (m + clones)[pd := a][priv := table][pd := b] == (m + clones[priv := table])[pd := b]
  {
  }

  class Paging {
    var mem: Mem
    /** The active root (CR3). */
    var active: nat
    /** The frames the allocator hands out next; a table frame is never both here and in `mem`. */
    var avail: seq<nat>

    ghost predicate Valid()
      reads this
    {
      Full(mem) && Distinct(avail) && forall f :: f in avail ==> f !in mem
    }

    method AllocTable() returns (t: nat)
      requires Valid() && avail != []
      modifies this`mem, this`avail
      ensures Valid() && t == old(avail)[0] && avail == old(avail)[1..] && mem == old(mem)[t := ZERO_TABLE]
      ensures t !in old(mem)
    {
      t := avail[0];
      assert t in avail;
      avail := avail[1..];
      mem := mem[t := ZERO_TABLE];
    }

    method WriteAt(t: nat, i: nat, e: Entry)
      requires Valid() && t in mem && i < 512
      modifies this`mem
      ensures Valid() && mem == WriteEntry(old(mem), t, i, e)
    {
      WriteFull(mem, t, i, e);
      mem := mem[t := mem[t][i := e]];
    }

    /** Split the huge entry `e` into a fresh leaf table. */
    method SplitInto(e: Entry) returns (t: nat)
      requires Valid() && avail != []
      modifies this`mem, this`avail
      ensures Valid() && t == old(avail)[0] && avail == old(avail)[1..] && mem == old(mem)[t := SplitTable(e)]
      ensures t !in old(mem)
    {
      t := AllocTable();
      ghost var m := old(mem);
      assert SplitTable(e)[..0] + ZERO_TABLE[0..] == ZERO_TABLE;
      for j := 0 to 512
        invariant Valid() && avail == old(avail)[1..] && mem == m[t := SplitTable(e)[..j] + ZERO_TABLE[j..]]
      {
        UpdateLast(SplitTable(e)[..j], j, SplitTable(e)[j]);
        WriteAt(t, j, e.(huge := false, addr := e.addr / 512 * 512 + j));
        assert SplitTable(e)[..j + 1] == SplitTable(e)[..j] + [SplitTable(e)[j]];
        assert mem == m[t := SplitTable(e)[..j + 1] + ZERO_TABLE[j + 1..]];
      }
      assert SplitTable(e)[..512] + ZERO_TABLE[512..] == SplitTable(e);
    }

    method CloneTable(orig: nat) returns (t: nat)
      requires Valid() && avail != [] && orig in mem
      modifies this`mem, this`avail
      ensures Valid() && t == old(avail)[0] && avail == old(avail)[1..] && mem == old(mem)[t := old(mem)[orig]]
      ensures t !in old(mem)
    {
      t := AllocTable();
      ghost var m := old(mem);
      assert m[orig][..0] + ZERO_TABLE[0..] == ZERO_TABLE;
      for i := 0 to 512
        invariant Valid() && avail == old(avail)[1..] && mem == m[t := m[orig][..i] + ZERO_TABLE[i..]]
      {
        UpdateLast(m[orig][..i], i, m[orig][i]);
        WriteAt(t, i, Read(mem, orig, i));
        assert m[orig][..i + 1] == m[orig][..i] + [m[orig][i]];
        assert mem == m[t := m[orig][..i + 1] + ZERO_TABLE[i + 1..]];
      }
      assert m[orig][..512] + ZERO_TABLE[512..] == m[orig];
    }

    /** One directory of huge pages over the `g`th GiB. */
    method HugeDirectory(g: nat) returns (t: nat)
      requires Valid() && avail != []
      modifies this`mem, this`avail
      ensures Valid() && t == old(avail)[0] && avail == old(avail)[1..] && mem == old(mem)[t := HugeTable(g)]
      ensures t !in old(mem)
    {
      t := AllocTable();
      ghost var m := old(mem);
      assert HugeTable(g)[..0] + ZERO_TABLE[0..] == ZERO_TABLE;
      for j := 0 to 512
        invariant Valid() && avail == old(avail)[1..] && mem == m[t := HugeTable(g)[..j] + ZERO_TABLE[j..]]
      {
        UpdateLast(HugeTable(g)[..j], j, HugeTable(g)[j]);
        WriteAt(t, j, Entry(true, true, false, true, true, 0, g * 0x4_0000 + j * 0x200));
        assert HugeTable(g)[..j + 1] == HugeTable(g)[..j] + [HugeTable(g)[j]];
        assert mem == m[t := HugeTable(g)[..j + 1] + ZERO_TABLE[j + 1..]];
      }
      assert HugeTable(g)[..512] + ZERO_TABLE[512..] == HugeTable(g);
    }

    /** One round of `map_low`: the directory for GiB `g`. */
    method AddGib(pdpt: nat, g: nat, ghost base: Mem, ghost pds: seq<nat>)
      requires Valid() && avail != [] && g < |pds| <= 512 && avail[0] == pds[g] && pdpt in mem
      requires pdpt !in Directories(pds, g)
      requires mem == base[pdpt := PdptTable(pds[..g])] + Directories(pds, g)
      modifies this`mem, this`avail
      ensures Valid() && avail == old(avail)[1..] && pdpt !in Directories(pds, g + 1)
      ensures mem == base[pdpt := PdptTable(pds[..g + 1])] + Directories(pds, g + 1)
    {
      hide HugeTable;
      hide PdptTable;
      hide Full;
      PdptGrows(pds, g);
      ghost var t := PdptTable(pds[..g]);
      var pd := HugeDirectory(g);
      assert mem == (base[pdpt := t] + Directories(pds, g))[pd := HugeTable(g)];
      WriteAt(pdpt, g, TableEntry(pd, false));
      GibAdded(base, pdpt, t, PdptTable(pds[..g + 1]), Directories(pds, g), pd, HugeTable(g));
    }

    /** `map_low` over the first `gibs` GiB. */
    method MapLowAt(root: nat, i4: nat, gibs: nat)
      requires Valid() && root in mem && i4 < 512 && gibs <= 512 && |avail| >= 1 + gibs
      modifies this`mem, this`avail
      ensures Valid() && avail == old(avail)[1 + gibs..]
      ensures mem == MapLow(old(mem), root, i4, old(avail)[0], old(avail)[1..1 + gibs])
    {
      hide HugeTable;
      ghost var base := WriteEntry(mem, root, i4, TableEntry(avail[0], false));
      ghost var pds := avail[1..1 + gibs];
      assert avail[0] in avail;
      var pdpt := AllocTable();
      WriteAt(root, i4, TableEntry(pdpt, false));
      assert PdptTable(pds[..0]) == ZERO_TABLE;
      hide PdptTable; hide Directories; hide Full;
      assert Directories(pds, 0) == map[] by { NoDirectories(pds); }
      for g := 0 to gibs
        invariant Valid() && avail == old(avail)[1 + g..] && pdpt in mem && pdpt !in Directories(pds, g)
        invariant mem == base[pdpt := PdptTable(pds[..g])] + Directories(pds, g)
      {
        AddGib(pdpt, g, base, pds);
      }
      assert pds[..gibs] == pds;
    }

    /** The loop of `map_kernel`: the leaves of the image, up to its end. */
    method ImageLeaves(pt: nat, km: KernelMap)
      requires Valid() && pt in mem && mem[pt] == ZERO_TABLE && Fits(km)
      modifies this`mem
      ensures Valid() && mem == old(mem)[pt := ImageTable(km)]
    {
      hide SectionProt; hide Full;
      ghost var m := old(mem);
      var j := 0;
      PartialStart(km);
      while km.vbase + j * 0x1000 < km.vend
        invariant 0 <= j <= 512 && Valid() && mem == m[pt := PartialImage(km, j)]
        decreases 512 - j
      {
        var v := km.vbase + j * 0x1000;
        InImage(km.vbase, v);
        PartialNext(km, j);
        WriteAt(pt, I1(v), KernelLeaf(km.phys / 0x1000 + j, SectionProt(km, v)));
        j := j + 1;
      }
      PartialEnd(km, j);
    }

    method MapKernelAt(root: nat, km: KernelMap)
      requires Valid() && root in mem && |avail| >= 3 && Fits(km)
      modifies this`mem, this`avail
      ensures Valid() && avail == old(avail)[3..]
      ensures mem == MapImage(old(mem), root, km, old(avail)[0], old(avail)[1], old(avail)[2])
    {
      hide ImageTable; hide OneEntry; hide I4; hide I3; hide I2; hide Fits; hide Full;
      var pdpt := AllocTable();
      WriteAt(root, I4(km.vbase), TableEntry(pdpt, false));
      var pd := AllocTable();
      WriteAt(pdpt, I3(km.vbase), TableEntry(pd, false));
      OneWrite(I3(km.vbase), pd);
      var pt := AllocTable();
      WriteAt(pd, I2(km.vbase), TableEntry(pt, false));
      OneWrite(I2(km.vbase), pt);
      ImageLeaves(pt, km);
      ghost var a, b := OneEntry(I3(km.vbase), pd), OneEntry(I2(km.vbase), pt);
      ImageBuilt(old(mem), root, I4(km.vbase), pdpt, a, pd, b, pt, ImageTable(km));
    }

    /** `build_address_space`: the tables boot leaves, over the frames taken in turn. */
    method BuildAddressSpace(bytes: nat, hhdmOffset: nat, km: KernelMap) returns (root: nat)
      requires Valid() && mem == map[] && Fits(km) && Gibs(bytes) <= 512 && |avail| >= FramesFor(Gibs(bytes))
      modifies this`mem, this`avail
      ensures Valid() && root == old(avail)[0] && avail == old(avail)[FramesFor(Gibs(bytes))..]
      ensures mem == BootMem(old(avail)[..FramesFor(Gibs(bytes))], Gibs(bytes), I4(hhdmOffset), km)
    {
      hide MapLow; hide MapImage; hide I4; hide Fits; hide Full; hide Gibs; hide Distinct; hide EmptyRoot;
      var gibs := Gibs(bytes);
      ghost var fs := avail[..FramesFor(gibs)];
      ghost var ps, qs := fs[2..2 + gibs], fs[3 + gibs..3 + 2 * gibs];
      FramesInTurn(avail, gibs);
      root := AllocTable();
      EmptyRootIs(root);
      MapLowAt(root, 0, gibs);
      MapLowRoot(EmptyRoot(root), root, 0, fs[1], ps);
      MapLowAt(root, I4(hhdmOffset), gibs);
      MapLowRoot(MapLow(EmptyRoot(root), root, 0, fs[1], ps), root, I4(hhdmOffset), fs[2 + gibs], qs);
      MapKernelAt(root, km);
    }

    /** `ensure_pt`: the path to the leaf table, splitting the covering 2 MiB page if need be. */
    method EnsureLeaf(v: nat) returns (pt: nat)
      requires Valid() && avail != [] && PathPresent(mem, active, v) && PdOf(mem, active, v) in mem
      modifies this`mem, this`avail
      ensures Valid() && mem == EnsurePt(old(mem), active, v, old(avail)[0])
      ensures pt == LeafTable(old(mem), active, v, old(avail)[0])
      ensures avail == if Read(old(mem), PdOf(old(mem), active, v), I2(v)).huge then old(avail)[1..] else old(avail)
    {
      hide I4; hide I3; hide I2; hide I1;
      var e4 := Read(mem, active, I4(v));
      var e3 := Read(mem, e4.addr, I3(v));
      var pd := e3.addr;
      var e2 := Read(mem, pd, I2(v));
      if e2.huge {
        pt := SplitInto(e2);
        WriteAt(pd, I2(v), TableEntry(pt, false));
      } else {
        pt := e2.addr;
      }
    }

    /** `map_page` for a present leaf, `install_guard_page` for an absent one. */
    method SetPage(v: nat, leaf: Entry)
      requires Valid() && avail != [] && PathPresent(mem, active, v) && PdOf(mem, active, v) in mem
      requires var e2 := Read(mem, PdOf(mem, active, v), I2(v)); !e2.huge ==> e2.addr in mem
      modifies this`mem, this`avail
      ensures Valid() && mem == EditPage(old(mem), active, v, old(avail)[0], leaf)
      ensures avail == if Read(old(mem), PdOf(old(mem), active, v), I2(v)).huge then old(avail)[1..] else old(avail)
    {
      hide I4; hide I3; hide I2; hide I1; hide SplitTable;
      var pt := EnsureLeaf(v);
      WriteAt(pt, I1(v), leaf);
    }

    /** Copies of the active root, of the table below entry `i4` and of the one below entry `i3` of
        that, each linked to the next. */
    method ClonePath(i4: nat, i3: nat) returns (root: nat, pdpt: nat, pd: nat)
      requires Valid() && |avail| >= 3 && active in mem && i4 < 512 && i3 < 512
      requires var e4 := Read(mem, active, i4); e4.addr in mem && Read(mem, e4.addr, i3).addr in mem
      modifies this`mem, this`avail
      ensures Valid() && avail == old(avail)[3..] && root == old(avail)[0] && pdpt == old(avail)[1]
      ensures pd == old(avail)[2]
      ensures root != pdpt && root != pd && pdpt != pd && root !in old(mem) && pdpt !in old(mem) && pd !in old(mem)
      ensures var m, e4 := old(mem), Read(old(mem), active, i4); var e3 := Read(m, e4.addr, i3);
        mem == m[root := m[active][i4 := e4.(addr := pdpt)]]
                [pdpt := m[e4.addr][i3 := e3.(addr := pd)]][pd := m[e3.addr]]
    {
      root := CloneTable(active);
      var e4 := Read(mem, active, i4);
      pdpt := CloneTable(e4.addr);
      WriteAt(root, i4, e4.(addr := pdpt));
      var e3 := Read(mem, e4.addr, i3);
      pd := CloneTable(e3.addr);
      WriteAt(pdpt, i3, e3.(addr := pd));
    }

    /** `build_domain_excluding`: private copies of the path to `v`, with `v` unmapped. */
    method DomainWithout(v: nat, ghost level: map<nat, nat>) returns (root: nat)
      requires Valid() && |avail| >= 4 && Typed(mem, level) && At(level, active, 4) && PathPresent(mem, active, v)
      modifies this`mem, this`avail
      ensures Valid() && root == old(avail)[0] && avail == old(avail)[4..]
      ensures var fs := old(avail);
        FreshFour(old(mem), fs[0], fs[1], fs[2], fs[3])
          && mem == Domain(old(mem), level, active, v, fs[0], fs[1], fs[2], fs[3])
    {
      hide I4; hide I3; hide I2; hide I1; hide Domain; hide Typed; hide SplitTable; hide FreshFour;
      DomainDefined(mem, level, active, v);
      ghost var m, fs := mem, avail;
      FourFrames(m, fs);
      var e3 := Read(mem, Read(mem, active, I4(v)).addr, I3(v));
      var e2 := Read(mem, e3.addr, I2(v));
      var pdpt, pd;
      root, pdpt, pd := ClonePath(I4(v), I3(v));
      var pt;
      if e2.huge {
        pt := SplitInto(e2);
      } else {
        pt := CloneTable(e2.addr);
      }
      WriteAt(pd, I2(v), TableEntry(pt, false));
      WriteAt(pt, I1(v), ABSENT);
      DomainAs(m, level, active, v, fs, mem);
    }

    method MapUserAt(v: nat, leaf: Entry, ghost w: World)
      requires Valid() && avail != [] && w.mem == mem && CanMap(w, active, v, avail[0], leaf)
      modifies this`mem, this`avail
      ensures Valid() && mem == MapUser(w, active, v, old(avail)[0], leaf).mem
      ensures avail == if Read(w.mem, w.spaces[active].pd, I2(v)).huge then old(avail)[1..] else old(avail)
    {
      hide I4; hide I3; hide I2; hide I1; hide CanMap; hide SplitTable;
      UserPath(w, active, v, avail[0], leaf);
      var e4 := Read(mem, active, I4(v));
      WriteAt(active, I4(v), e4.(user := true));
      var pdpt := e4.addr;
      var e3 := Read(mem, pdpt, I3(v));
      assert e3 == Read(w.mem, pdpt, I3(v));
      WriteAt(pdpt, I3(v), e3.(user := true));
      var pd := e3.addr;
      var e2 := Read(mem, pd, I2(v));
      assert e2 == Read(w.mem, pd, I2(v));
      var pt;
      if e2.huge {
        pt := SplitInto(e2);
        WriteAt(pd, I2(v), TableEntry(pt, true));
      } else {
        pt := e2.addr;
        WriteAt(pd, I2(v), e2.(user := true));
      }
      WriteAt(pt, I1(v), leaf);
    }

    /** The three clones at the top of a process space. */
    method CloneTop(ghost w: World) returns (root: nat, pdpt: nat, pd: nat)
      requires Valid() && WorldOk(w) && w.mem == mem && w.kbase == active && |avail| >= 3
      modifies this`mem, this`avail
      ensures Valid() && avail == old(avail)[3..] && root == old(avail)[0] && pdpt == old(avail)[1]
      ensures pd == old(avail)[2]
      ensures root != pdpt && root != pd && pdpt != pd && root !in w.mem && pdpt !in w.mem && pd !in w.mem
      ensures ClonedTop(w, root, pdpt, pd).Some? && mem == ClonedTop(w, root, pdpt, pd).value[pd := w.mem[WindowPd(w)]]
    {
      hide WorldOk;
      OneWorld(w);
      KernelTables(w);
      hide KernelOk;
      root, pdpt, pd := ClonePath(0, 1);
    }

    /** `new_process_space`: three clones, and a clone of every leaf table of the window. */
    method NewSpaceAt(ghost w: World) returns (root: nat)
      requires Valid() && WorldOk(w) && w.mem == mem && w.kbase == active
      requires WindowPd(w) in mem && |avail| >= 3 + Rank(mem[WindowPd(w)], 512)
      modifies this`mem, this`avail
      ensures var fs := old(avail)[..3 + Rank(w.mem[WindowPd(w)], 512)];
        && CanCreate(w, fs) && mem == Create(w, fs).mem && root == fs[0]
      ensures Valid() && avail == old(avail)[3 + Rank(w.mem[WindowPd(w)], 512)..]
    {
      hide WorldOk; hide KernelOk; hide Create; hide Rank; hide Privatised; hide Clones; hide Typed;
      OneWorld(w);
      WindowLeaves(w);
      ghost var t := w.mem[WindowPd(w)];
      ghost var k := Rank(t, 512);
      ghost var fs := avail[..3 + k];
      assert forall f :: f in fs ==> f in avail;
      var pdpt, pd;
      root, pdpt, pd := CloneTop(w);
      ghost var all, top := avail, ClonedTop(w, root, pdpt, pd).value;
      TopKeepsLeaves(w, root, pdpt, pd);
      Privatise(pd, top, t);
      FramesUsed(top, t, all, 512);
      assert all[..k] == fs[3..];
      CreateAs(w, fs, mem);
    }

    /** Give the directory `pd` its own copy of every leaf table it names. */
    method Privatise(pd: nat, ghost m: Mem, ghost t: seq<Entry>)
      requires Valid() && |t| == 512 && pd !in m && mem == m[pd := t] && Rank(t, 512) <= |avail|
      requires forall i :: 0 <= i < 512 && IsSplit(t[i]) ==> t[i].addr in m
      modifies this`mem, this`avail
      ensures Valid() && avail == old(avail)[Rank(t, 512)..]
      ensures mem == (m + Clones(m, t, old(avail), 512))[pd := Privatised(t, old(avail), 512)]
    {
      assert Privatised(t, avail, 0) == t;
      for i := 0 to 512
        invariant Rank(t, i) <= |old(avail)| && avail == old(avail)[Rank(t, i)..] && Valid()
        invariant mem == (m + Clones(m, t, old(avail), i))[pd := Privatised(t, old(avail), i)]
      {
        var e := Read(mem, pd, i);
        RankMonotone(t, i, 512);
        if IsSplit(e) {
          PrivatiseOne(pd, m, t, old(avail), i, e);
        } else {
          assert Privatised(t, old(avail), i + 1) == Privatised(t, old(avail), i);
        }
      }
    }

    method PrivatiseOne(pd: nat, ghost m: Mem, ghost t: seq<Entry>, ghost fs: seq<nat>, i: nat, e: Entry)
      requires Valid() && |t| == 512 && i < 512 && pd !in m && IsSplit(t[i]) && e == t[i] && e.addr in m
      requires Rank(t, i) < Rank(t, i + 1) <= |fs| && avail == fs[Rank(t, i)..] && Distinct(fs)
      requires (forall f :: f in fs ==> f !in m && f != pd)
      requires mem == (m + Clones(m, t, fs, i))[pd := Privatised(t, fs, i)]
      modifies this`mem, this`avail
      ensures Valid() && avail == fs[Rank(t, i + 1)..]
      ensures mem == (m + Clones(m, t, fs, i + 1))[pd := Privatised(t, fs, i + 1)]
    {
      hide Privatised;
      hide Full;
      ClonesOk(m, t, fs, i);
      PrivatisedGrows(t, fs, i);
      assert forall f :: f in fs[..Rank(t, i)] ==> f in fs;
      ghost var c := Clones(m, t, fs, i);
      var priv := CloneTable(e.addr);
      assert priv == fs[Rank(t, i)] && priv in fs;
      WriteAt(pd, i, e.(addr := priv));
      CloneAdded(m, c, pd, Privatised(t, fs, i), Privatised(t, fs, i + 1), priv, m[e.addr]);
    }

    /** `reap_process_space`: listed leaves, then the leaf tables, then the three clones. */
    method ReapAt(root: nat, vas: seq<nat>, ghost w: World) returns (freed: nat)
      requires Valid() && WorldOk(w) && w.mem == mem && root in w.spaces && ExclusiveLeaves(w, w.spaces[root], vas)
      requires forall f :: f in LeafFrames(w.spaces[root], vas) ==> f !in avail
      modifies this`mem, this`avail
      ensures Valid() && avail == old(avail) + Freed(w.mem, root, vas) && freed == |Freed(w.mem, root, vas)|
      ensures mem == Reaped(w, root).mem
    {
      hide WorldOk; hide LeafTables; hide I2; hide I1; hide Full; hide LeafFrames; hide Distinct; hide ListedLeaves;
      hide ExclusiveLeaves;
      OneSpace(w, root);
      FreedIsNew(w, root, vas, avail);
      ReapedFull(mem, w.spaces[root].owned);
      hide KernelOk; hide DirectoryOk; hide OwnedOk; hide PlacedOk;
      var pdpt := Read(mem, root, 0).addr;
      var pd := Read(mem, pdpt, 1).addr;
      freed := FreeListed(pd, vas);
      var tables := FreeLeafTables(root, pd, w);
      freed := freed + tables;
      avail := avail + [pd];
      avail := avail + [pdpt];
      avail := avail + [root];
      mem := mem - {pd, pdpt, root};
      freed := freed + 3;
      ReapedAs(w, root, mem);
      ghost var l, t := ListedLeaves(w.mem, pd, vas, |vas|), LeafTables(w.mem, pd, 512);
      FreedInOrder(old(avail), l, t, pd, pdpt, root);
    }

    method FreeListed(pd: nat, vas: seq<nat>) returns (freed: nat)
      modifies this`avail
      ensures avail == old(avail) + ListedLeaves(mem, pd, vas, |vas|) && freed == |ListedLeaves(mem, pd, vas, |vas|)|
    {
      hide I2; hide I1;
      freed := 0;
      for k := 0 to |vas|
        invariant avail == old(avail) + ListedLeaves(mem, pd, vas, k) && freed == |ListedLeaves(mem, pd, vas, k)|
      {
        var e2 := Read(mem, pd, I2(vas[k]));
        if IsSplit(e2) {
          var leaf := Read(mem, e2.addr, I1(vas[k]));
          if leaf.present {
            avail := avail + [leaf.addr];
            freed := freed + 1;
          }
        }
      }
    }

    method FreeLeafTables(root: nat, pd: nat, ghost w: World) returns (freed: nat)
      requires WorldOk(w) && w.mem == mem && root in w.spaces && w.spaces[root].pd == pd
      modifies this`mem, this`avail
      ensures avail == old(avail) + LeafTables(w.mem, pd, 512) && freed == |LeafTables(w.mem, pd, 512)|
      ensures mem == w.mem - Frames(LeafTables(w.mem, pd, 512))
    {
      hide WorldOk;
      freed := 0;
      assert mem == w.mem - Frames([]);
      for i := 0 to 512
        invariant avail == old(avail) + LeafTables(w.mem, pd, i) && freed == |LeafTables(w.mem, pd, i)|
        invariant mem == w.mem - Frames(LeafTables(w.mem, pd, i))
      {
        DirectoryStays(w, root, i);
        var e := Read(mem, pd, i);
        if IsSplit(e) {
          avail := avail + [e.addr];
          mem := mem - {e.addr};
          freed := freed + 1;
          assert Frames(LeafTables(w.mem, pd, i + 1)) == Frames(LeafTables(w.mem, pd, i)) + {e.addr};
        }
      }
    }
  }

  /** The fewest GiB that hold `bytes`. */
  function Gibs(bytes: nat): (n: nat)
    ensures (n - 1) * 0x4000_0000 < bytes <= n * 0x4000_0000 || bytes == n == 0
  {
    (bytes + 0x3FFF_FFFF) / 0x4000_0000
  }

  /** What is left after each round of boot, and the frames it starts with. */
  lemma FramesInTurn(a: seq<nat>, gibs: nat)
    requires |a| >= FramesFor(gibs)
    ensures var fs, b, c := a[..FramesFor(gibs)], a[1..], a[2 + gibs..]; var d := a[3 + 2 * gibs..];
      && b[0] == fs[1] && b[1..1 + gibs] == fs[2..2 + gibs] && b[1 + gibs..] == c
      && c[0] == fs[2 + gibs] && c[1..1 + gibs] == fs[3 + gibs..3 + 2 * gibs] && c[1 + gibs..] == d
      && d[0] == fs[3 + 2 * gibs] && d[1] == fs[4 + 2 * gibs] && d[2] == fs[5 + 2 * gibs]
      && d[3..] == a[FramesFor(gibs)..]
  {
  }

  lemma EmptyRootIs(root: nat)
    ensures map[root := ZERO_TABLE] == EmptyRoot(root)
  {
    assert ZERO_TABLE == seq(512, j requires 0 <= j < 512 => ABSENT);
  }

  lemma MapLowRoot(m: Mem, root: nat, i4: nat, pdpt: nat, pds: seq<nat>)
    requires root in m
    ensures root in MapLow(m, root, i4, pdpt, pds)
  {
  }

  /** Writing the tables one after the other, each zeroed first, leaves the last word on each. */
  lemma ImageBuilt(m: Mem, root: nat, i: nat, t3: nat, a: seq<Entry>, t2: nat, b: seq<Entry>, t1: nat, c: seq<Entry>)
    requires root in m && t3 !in m && t2 !in m && t1 !in m && t3 != t2 && t3 != t1 && t2 != t1
    ensures var e := TableEntry(t3, false);
      var m1 := WriteEntry(m[t3 := ZERO_TABLE], root, i, e);
      var m2 := m1[t2 := ZERO_TABLE][t3 := a];
      m2[t1 := ZERO_TABLE][t2 := b][t1 := c] == WriteEntry(m, root, i, e)[t3 := a][t2 := b][t1 := c]
  {
  }

  lemma OneWrite(i: nat, t: nat)
    requires i < 512
    ensures ZERO_TABLE[i := TableEntry(t, false)] == OneEntry(i, t)
  {
  }

  /** The image's leaf table with its first `n` pages written. */
  function PartialImage(km: KernelMap, n: nat): (t: seq<Entry>)
    ensures |t| == 512
  {
    seq(512, j requires 0 <= j < 512 => if j < n then ImageLeaf(km, j) else ABSENT)
  }

  lemma PartialStart(km: KernelMap)
    ensures PartialImage(km, 0) == ZERO_TABLE
  {
  }

  lemma PartialNext(km: KernelMap, n: nat)
    requires n < 512
    ensures PartialImage(km, n)[n := ImageLeaf(km, n)] == PartialImage(km, n + 1)
  {
    hide ImageLeaf;
  }

  lemma PartialEnd(km: KernelMap, n: nat)
    requires n <= 512 && km.vbase + n * 0x1000 >= km.vend
    ensures PartialImage(km, n) == ImageTable(km)
  {
    hide SectionProt;
  }

  lemma FreedInOrder(a: seq<nat>, l: seq<nat>, t: seq<nat>, pd: nat, pdpt: nat, root: nat)
    ensures a + l + t + [pd] + [pdpt] + [root] == a + (l + (t + [pd, pdpt, root]))
    ensures |l + (t + [pd, pdpt, root])| == |l| + |t| + 3
  {
  }

  lemma ReapedFull(m: Mem, owned: set<nat>)
    requires Full(m)
    ensures Full(m - owned)
  {
  }

  /** What a reap frees is in no table that stays and not yet in the allocator's hands. */
  lemma FreedIsNew(w: World, r: nat, vas: seq<nat>, avail: seq<nat>)
    requires WorldOk(w) && r in w.spaces && ExclusiveLeaves(w, w.spaces[r], vas) && Distinct(avail)
    requires forall f :: f in avail ==> f !in w.mem
    requires forall f :: f in LeafFrames(w.spaces[r], vas) ==> f !in avail
    ensures Distinct(avail + Freed(w.mem, r, vas)) && forall f :: f in avail + Freed(w.mem, r, vas) ==>
      f !in Reaped(w, r).mem
  {
    hide WorldOk; hide Freed; hide I2; hide I1;
    OwnedMapped(w, r);
    ReapFreesEachOnce(w, r, vas);
    var fs := Freed(w.mem, r, vas);
    forall f | f in fs
      ensures f !in avail && f !in Reaped(w, r).mem
    {
      if f !in w.spaces[r].owned {
        var k :| 0 <= k < |vas| && f == w.spaces[r].placed[(I2(vas[k]), I1(vas[k]))].addr;
        assert f in LeafFrames(w.spaces[r], vas);
      }
    }
    forall i, j | 0 <= i < j < |avail + fs|
      ensures (avail + fs)[i] != (avail + fs)[j]
    {
      if i < |avail| && j >= |avail| { assert fs[j - |avail|] in fs; }
    }
  }

  lemma NoDirectories(pds: seq<nat>)
    ensures Directories(pds, 0) == map[]
  {
  }

  lemma FourFrames(m: Mem, fs: seq<nat>)
    requires Distinct(fs) && |fs| >= 4 && forall f :: f in fs ==> f !in m
    ensures FreshFour(m, fs[0], fs[1], fs[2], fs[3])
  {
    var s := {fs[0], fs[1], fs[2], fs[3]};
    assert fs[0] in fs && fs[1] in fs && fs[2] in fs && fs[3] in fs;
    assert s == {fs[0]} + {fs[1]} + {fs[2]} + {fs[3]};
  }

  lemma DomainAs(m: Mem, level: map<nat, nat>, root: nat, v: nat, fs: seq<nat>, n: Mem)
    requires Typed(m, level) && At(level, root, 4) && PathPresent(m, root, v) && |fs| >= 4
    requires FreshFour(m, fs[0], fs[1], fs[2], fs[3])
    requires var e4 := Read(m, root, I4(v)); var e3 := Read(m, e4.addr, I3(v)); var e2 := Read(m, e3.addr, I2(v));
      && root in m && |m[root]| == 512 && e4.addr in m && |m[e4.addr]| == 512 && e3.addr in m && |m[e3.addr]| == 512
      && (!e2.huge ==> e2.addr in m && |m[e2.addr]| == 512)
      && n == m[fs[0] := m[root][I4(v) := e4.(addr := fs[1])]][fs[1] := m[e4.addr][I3(v) := e3.(addr := fs[2])]]
               [fs[2] := m[e3.addr][I2(v) := TableEntry(fs[3], false)]]
               [fs[3] := (if e2.huge then SplitTable(e2) else m[e2.addr])[I1(v) := ABSENT]]
    ensures n == Domain(m, level, root, v, fs[0], fs[1], fs[2], fs[3])
  {
    hide I4; hide I3; hide I2; hide I1; hide Typed; hide SplitTable;
    Distinct4(fs[0], fs[1], fs[2], fs[3]);
  }

  /** The directory is not one of the leaf tables freed while it is still being read. */
  lemma DirectoryStays(w: World, r: nat, n: nat)
    requires WorldOk(w) && r in w.spaces && n <= 512
    ensures w.spaces[r].pd !in LeafTables(w.mem, w.spaces[r].pd, n)
  {
    hide WorldOk;
    OneSpace(w, r);
    hide KernelOk; hide PlacedOk; hide OwnedOk;
    LeafTablesOk(w.mem, w.spaces[r].pd, n);
  }

  lemma ReapedAs(w: World, r: nat, n: Mem)
    requires WorldOk(w) && r in w.spaces
    requires n == w.mem - Frames(LeafTables(w.mem, w.spaces[r].pd, 512)) - {w.spaces[r].pd, w.spaces[r].pdpt, r}
    ensures n == Reaped(w, r).mem
  {
    hide WorldOk; hide LeafTables; hide Freed;
    ReapFreesOwned(w, r);
    FreedTables(w, r);
    var sp := w.spaces[r];
    var l := LeafTables(w.mem, sp.pd, 512);
    forall t ensures t in sp.owned <==> t in Frames(l) || t in {sp.pd, sp.pdpt, r} {
      assert t in Frames(l + [sp.pd, sp.pdpt, r]) <==> t in l + [sp.pd, sp.pdpt, r];
    }
  }

  lemma WindowLeaves(w: World)
    requires KernelOk(w)
    ensures WindowPd(w) in w.mem && |w.mem[WindowPd(w)]| == 512
    ensures forall i :: 0 <= i < 512 && IsSplit(w.mem[WindowPd(w)][i]) ==> w.mem[WindowPd(w)][i].addr in w.mem
  {
    KernelTables(w);
    forall i | 0 <= i < 512 && IsSplit(w.mem[WindowPd(w)][i]) ensures w.mem[WindowPd(w)][i].addr in w.mem {
      assert Links(Read(w.mem, WindowPd(w), i), 2);
    }
  }

  lemma {:induction false} ClonesAgree(m: Mem, n: Mem, t: seq<Entry>, fs: seq<nat>, i: nat)
    requires i <= |t| && Rank(t, i) <= |fs| && forall j :: 0 <= j < i && IsSplit(t[j]) ==>
      Table(m, t[j].addr) == Table(n, t[j].addr)
    ensures Clones(m, t, fs, i) == Clones(n, t, fs, i)
  {
    if i > 0 { ClonesAgree(m, n, t, fs, i - 1); }
  }

  /** The kernel tables with the two private tables above the window directory. */
  ghost function ClonedTop(w: World, root: nat, pdpt: nat, pd: nat): (m: Option<Mem>) {
    if w.kbase in w.mem && |w.mem[w.kbase]| == 512 && KernelPdpt(w) in w.mem && |w.mem[KernelPdpt(w)]| == 512
      && WindowPd(w) in w.mem
    then Some(w.mem[root := w.mem[w.kbase][0 := Read(w.mem, w.kbase, 0).(addr := pdpt)]]
                   [pdpt := w.mem[KernelPdpt(w)][1 := Read(w.mem, KernelPdpt(w), 1).(addr := pd)]])
    else None
  }

  lemma TopKeepsLeaves(w: World, root: nat, pdpt: nat, pd: nat)
    requires KernelOk(w) && root !in w.mem && pdpt !in w.mem && pd !in w.mem && root != pd && pdpt != pd
    ensures ClonedTop(w, root, pdpt, pd).Some? && WindowPd(w) in w.mem && |w.mem[WindowPd(w)]| == 512
    ensures var m, t := ClonedTop(w, root, pdpt, pd).value, w.mem[WindowPd(w)];
      pd !in m && forall i :: 0 <= i < 512 && IsSplit(t[i]) ==>
        t[i].addr in m && Table(m, t[i].addr) == Table(w.mem, t[i].addr)
  {
    KernelTables(w);
    WindowLeaves(w);
  }

  /** Only the first frames are used, as many as there are leaf tables. */
  lemma {:induction false} FramesUsed(m: Mem, t: seq<Entry>, fs: seq<nat>, n: nat)
    requires n <= |t| && Rank(t, n) <= Rank(t, |t|) <= |fs|
    ensures Clones(m, t, fs[..Rank(t, |t|)], n) == Clones(m, t, fs, n)
    ensures Privatised(t, fs[..Rank(t, |t|)], n) == Privatised(t, fs, n)
  {
    forall i | 0 <= i < |t| ensures Privatised(t, fs[..Rank(t, |t|)], n)[i] == Privatised(t, fs, n)[i] {
      RankMonotone(t, if i < n then i else n, n);
    }
    if n > 0 {
      RankMonotone(t, n - 1, n);
      FramesUsed(m, t, fs, n - 1);
    }
  }

  lemma CreateAs(w: World, fs: seq<nat>, n: Mem)
    requires WorldOk(w) && EnoughFrames(w, fs) && ClonedTop(w, fs[0], fs[1], fs[2]).Some?
    requires var m, t := ClonedTop(w, fs[0], fs[1], fs[2]).value, w.mem[WindowPd(w)];
      n == (m + Clones(m, t, fs[3..], 512))[fs[2] := Privatised(t, fs[3..], 512)]
    ensures n == Create(w, fs).mem
  {
    hide WorldOk;
    FreshFrames(w, fs);
    OneWorld(w);
    assert fs[0] in Frames(fs) && fs[1] in Frames(fs) && fs[2] in Frames(fs);
    TopKeepsLeaves(w, fs[0], fs[1], fs[2]);
    hide KernelOk; hide EnoughFrames; hide Rank; hide Clones; hide Privatised;
    var m, t := ClonedTop(w, fs[0], fs[1], fs[2]).value, w.mem[WindowPd(w)];
    ClonesAgree(w.mem, m, t, fs[3..], 512);
    MapShuffle(w.mem, Clones(w.mem, t, fs[3..], 512), fs[0], m[fs[0]], fs[1], m[fs[1]], fs[2],
      Privatised(t, fs[3..], 512));
  }

  lemma MapShuffle(m: Mem, c: Mem, a: nat, ta: seq<Entry>, b: nat, tb: seq<Entry>, d: nat, td: seq<Entry>)
    requires a != b && a != d && b != d && a !in c && b !in c && d !in c
    ensures (m[a := ta][b := tb] + c)[d := td] == m + c + map[a := ta, b := tb, d := td]
  {
  }

  /** The four tables on the path are different tables of the memory. */
  lemma UserPath(w: World, r: nat, v: nat, spare: nat, leaf: Entry)
    requires CanMap(w, r, v, spare, leaf)
    ensures r in w.spaces && PathPresent(w.mem, r, v)
    ensures var e4 := Read(w.mem, r, I4(v));
      var e3 := Read(w.mem, e4.addr, I3(v)); var e2 := Read(w.mem, e3.addr, I2(v));
      && r in w.mem && e4.addr in w.mem && e3.addr in w.mem && (!e2.huge ==> e2.addr in w.mem)
      && r != e4.addr && r != e3.addr && e4.addr != e3.addr && w.spaces[r].pd == e3.addr
  {
    hide I4; hide I3; hide I2; hide I1;
    WindowPath(w, r, v, spare);
    MapUserKeys(w, r, v, spare, leaf);
  }
}

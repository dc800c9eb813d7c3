/** Edits of live tables: one page changes and nothing else does. */
module PageEdits {
  import opened PageTables
  import opened Options

  lemma ReadWrite(m: Mem, t: nat, i: nat, e: Entry, s: nat, j: nat)
    ensures Read(WriteEntry(m, t, i, e), s, j) == if s == t && j == i && t in m && i < |m[t]| then e else Read(m, s, j)
  {
  }

  lemma LeafTyped(m: Mem, level: map<nat, nat>, r: nat, i4: nat, i3: nat, i2: nat)
    requires Typed(m, level) && At(level, r, 4) && i4 < 512 && i3 < 512 && i2 < 512
    ensures Pdpt(m, r, i4).Some? ==> At(level, Pdpt(m, r, i4).value, 3)
    ensures Pd(m, r, i4, i3).Some? ==> At(level, Pd(m, r, i4, i3).value, 2)
    ensures Pt(m, r, i4, i3, i2).Some? ==> At(level, Pt(m, r, i4, i3, i2).value, 1)
  {
    var e4 := Read(m, r, i4);
    if e4.present {
      assert Links(e4, 4);
      var e3 := Read(m, e4.addr, i3);
      if e3.present && !e3.huge {
        assert Links(e3, 3);
        assert Read(m, e3.addr, i2).present && !Read(m, e3.addr, i2).huge ==> Links(Read(m, e3.addr, i2), 2);
      }
    }
  }

  /** Writing a leaf-table entry is seen only by walks that end at that entry. */
  lemma LeafWriteIsLocal(m: Mem, level: map<nat, nat>, pt: nat, i1: nat, leaf: Entry, r: nat, va: nat)
    requires Typed(m, level) && At(level, pt, 1) && At(level, r, 4) && i1 < 512
    ensures var n := WriteEntry(m, pt, i1, leaf);
      if Pt(m, r, I4(va), I3(va), I2(va)) == Some(pt) && I1(va) == i1
      then (leaf.present ==>
        Walk(n, r, va).Some? && Walk(n, r, va).value.leaf == leaf && Walk(n, r, va).value.pages == 1)
        && (!leaf.present ==> Walk(n, r, va).None?)
      else Walk(n, r, va) == Walk(m, r, va)
  {
    var n := WriteEntry(m, pt, i1, leaf);
    LeafTyped(m, level, r, I4(va), I3(va), I2(va));
    ReadWrite(m, pt, i1, leaf, r, I4(va));
    var e4 := Read(m, r, I4(va));
    if e4.present {
      ReadWrite(m, pt, i1, leaf, e4.addr, I3(va));
      var e3 := Read(m, e4.addr, I3(va));
      if e3.present && !e3.huge {
        ReadWrite(m, pt, i1, leaf, e3.addr, I2(va));
        var e2 := Read(m, e3.addr, I2(va));
        if e2.present && !e2.huge { ReadWrite(m, pt, i1, leaf, e2.addr, I1(va)); }
      }
    }
  }

  /** Splitting adds one leaf table, reached along the path of `v` only. */
  lemma SplitPaths(m: Mem, level: map<nat, nat>, root: nat, v: nat, spare: nat, i4: nat, i3: nat, i2: nat)
    requires Typed(m, level) && At(level, root, 4) && PathPresent(m, root, v) && spare !in m
    requires DirectoriesUnshared(m, root)
    requires i4 < 512 && i3 < 512 && i2 < 512
    ensures var n := EnsurePt(m, root, v, spare);
      Pt(n, root, i4, i3, i2) == if i4 == I4(v) && i3 == I3(v) && i2 == I2(v) then Some(LeafTable(m, root, v, spare))
        else Pt(m, root, i4, i3, i2)
  {
    PathTyped(m, level, root, v);
    LeafTyped(m, level, root, i4, i3, i2);
    var pd := PdOf(m, root, v);
    var e := Read(m, pd, I2(v));
    if e.huge {
      var base := m[spare := SplitTable(e)];
      ReadWrite(base, pd, I2(v), TableEntry(spare, false), root, i4);
      assert Read(base, root, i4) == Read(m, root, i4);
      if Pdpt(m, root, i4).Some? {
        var t3 := Pdpt(m, root, i4).value;
        ReadWrite(base, pd, I2(v), TableEntry(spare, false), t3, i3);
        assert Read(base, t3, i3) == Read(m, t3, i3);
        if Pd(m, root, i4, i3).Some? {
          var t2 := Pd(m, root, i4, i3).value;
          ReadWrite(base, pd, I2(v), TableEntry(spare, false), t2, i2);
          assert Read(base, t2, i2) == Read(m, t2, i2);
          assert t2 == pd ==> i4 == I4(v) && i3 == I3(v);
        }
      }
    }
  }

  lemma EditedTablePath(m: Mem, level: map<nat, nat>, root: nat, v: nat, spare: nat, va: nat)
    requires Typed(m, level) && At(level, root, 4) && PathPresent(m, root, v) && spare !in m && Unshared(m, root)
    ensures var n, pt := EnsurePt(m, root, v, spare), LeafTable(m, root, v, spare);
      && (Pt(n, root, I4(va), I3(va), I2(va)) == Some(pt) <==> I4(va) == I4(v) && I3(va) == I3(v) && I2(va) == I2(v))
      && var l := if Read(m, PdOf(m, root, v), I2(v)).huge then level[spare := 1] else level;
         Typed(n, l) && At(l, pt, 1) && At(l, root, 4)
  {
    hide I4; hide I3; hide I2; hide I1;
    PathTyped(m, level, root, v);
    EnsurePtTyped(m, level, root, v, spare);
    SplitPaths(m, level, root, v, spare, I4(va), I3(va), I2(va));
    LeafTyped(m, level, root, I4(v), I3(v), I2(v));
    LeafTyped(m, level, root, I4(va), I3(va), I2(va));
  }

  /** Mapping or unmapping one page, with or without a split, changes exactly that page. */
  lemma EditChangesOnePage(m: Mem, level: map<nat, nat>, root: nat, v: nat, spare: nat, leaf: Entry, va: nat)
    requires Typed(m, level) && At(level, root, 4) && PathPresent(m, root, v) && spare !in m && Unshared(m, root)
    ensures var n := EditPage(m, root, v, spare, leaf);
      if SamePage(va, v)
      then (leaf.present ==>
        Translate(n, root, va) == Some(leaf.addr * 0x1000 + va % 0x1000)
        && PageProt(n, root, va) == Some((leaf.writable, !leaf.nx)))
        && (!leaf.present ==> Translate(n, root, va).None?)
      else Translate(n, root, va) == Translate(m, root, va) && PageProt(n, root, va) == PageProt(m, root, va)
  {
    hide I4; hide I3; hide I2; hide I1;
    hide Typed; hide Unshared; hide EnsurePt; hide LeafTable; hide Walk; hide Pt; hide PathPresent; hide WriteEntry;
    var l := if Read(m, PdOf(m, root, v), I2(v)).huge then level[spare := 1] else level;
    SplitKeepsMeaning(m, level, root, v, spare, root, va);
    EditedTablePath(m, level, root, v, spare, va);
    LeafWriteIsLocal(EnsurePt(m, root, v, spare), l, LeafTable(m, root, v, spare), I1(v), leaf, root, va);
  }

  /** The levels after an edit: a split adds one leaf table. */
  function EditLevel(m: Mem, level: map<nat, nat>, root: nat, v: nat, spare: nat): (l: map<nat, nat>)
    requires PathPresent(m, root, v)
  {
    if Read(m, PdOf(m, root, v), I2(v)).huge then level[spare := 1] else level
  }

  lemma LeafTableTyped(m: Mem, level: map<nat, nat>, root: nat, v: nat, spare: nat)
    requires Typed(m, level) && At(level, root, 4) && PathPresent(m, root, v) && spare !in m
    ensures var l := EditLevel(m, level, root, v, spare);
      && Typed(EnsurePt(m, root, v, spare), l) && At(l, LeafTable(m, root, v, spare), 1) && At(l, root, 4)
  {
    hide I4; hide I3; hide I2; hide I1;
    PathTyped(m, level, root, v);
    EnsurePtTyped(m, level, root, v, spare);
    LeafTyped(m, level, root, I4(v), I3(v), I2(v));
  }

  lemma LeafWriteTyped(m: Mem, level: map<nat, nat>, pt: nat, i: nat, leaf: Entry)
    requires Typed(m, level) && At(level, pt, 1)
    ensures Typed(WriteEntry(m, pt, i, leaf), level)
  {
    var n := WriteEntry(m, pt, i, leaf);
    forall t, j: nat | t in n && level[t] > 1
      ensures Read(n, t, j) == Read(m, t, j)
    {
      ReadWrite(m, pt, i, leaf, t, j);
    }
  }

  /** An edit keeps every table at one level. */
  lemma EditTyped(m: Mem, level: map<nat, nat>, root: nat, v: nat, spare: nat, leaf: Entry)
    requires Typed(m, level) && At(level, root, 4) && PathPresent(m, root, v) && spare !in m
    ensures Typed(EditPage(m, root, v, spare, leaf), EditLevel(m, level, root, v, spare))
  {
    hide Typed; hide EnsurePt; hide LeafTable; hide PathPresent; hide WriteEntry; hide EditLevel; hide I1;
    LeafTableTyped(m, level, root, v, spare);
    LeafWriteTyped(EnsurePt(m, root, v, spare), EditLevel(m, level, root, v, spare), LeafTable(m, root, v, spare),
      I1(v), leaf);
  }

  /** No path reads a leaf table, so a leaf write moves none. */
  lemma LeafWritePaths(m: Mem, level: map<nat, nat>, pt: nat, i: nat, leaf: Entry, root: nat, i4: nat, i3: nat, i2: nat)
    requires Typed(m, level) && At(level, pt, 1) && At(level, root, 4)
    ensures var n := WriteEntry(m, pt, i, leaf);
      Pd(n, root, i4, i3) == Pd(m, root, i4, i3) && Pt(n, root, i4, i3, i2) == Pt(m, root, i4, i3, i2)
  {
    ReadWrite(m, pt, i, leaf, root, i4);
    var e4 := Read(m, root, i4);
    if e4.present {
      assert Links(e4, 4) && At(level, e4.addr, 3);
      ReadWrite(m, pt, i, leaf, e4.addr, i3);
      var e3 := Read(m, e4.addr, i3);
      if e3.present && !e3.huge {
        assert Links(e3, 3) && At(level, e3.addr, 2);
        ReadWrite(m, pt, i, leaf, e3.addr, i2);
      }
    }
  }

  /** A split moves no directory. */
  lemma SplitDirectories(m: Mem, level: map<nat, nat>, root: nat, v: nat, spare: nat, i4: nat, i3: nat)
    requires Typed(m, level) && At(level, root, 4) && PathPresent(m, root, v) && spare !in m
    ensures Pd(EnsurePt(m, root, v, spare), root, i4, i3) == Pd(m, root, i4, i3)
  {
    PathTyped(m, level, root, v);
    var pd := PdOf(m, root, v);
    var e := Read(m, pd, I2(v));
    if e.huge {
      var base := m[spare := SplitTable(e)];
      ReadWrite(base, pd, I2(v), TableEntry(spare, false), root, i4);
      var e4 := Read(m, root, i4);
      if e4.present {
        assert Links(e4, 4) && At(level, e4.addr, 3);
        ReadWrite(base, pd, I2(v), TableEntry(spare, false), e4.addr, i3);
      }
    }
  }

  /** An edit moves no directory, shared or not. */
  lemma EditDirectories(m: Mem, level: map<nat, nat>, root: nat, v: nat, spare: nat, leaf: Entry, i4: nat, i3: nat)
    requires Typed(m, level) && At(level, root, 4) && PathPresent(m, root, v) && spare !in m
    ensures Pd(EditPage(m, root, v, spare, leaf), root, i4, i3) == Pd(m, root, i4, i3)
  {
    hide Typed; hide EnsurePt; hide LeafTable; hide PathPresent; hide WriteEntry; hide EditLevel; hide Pd; hide I1;
    LeafTableTyped(m, level, root, v, spare);
    LeafWritePaths(EnsurePt(m, root, v, spare), EditLevel(m, level, root, v, spare), LeafTable(m, root, v, spare),
      I1(v), leaf, root, i4, i3, 0);
    SplitDirectories(m, level, root, v, spare, i4, i3);
  }

  lemma PathBounds(m: Mem, level: map<nat, nat>, root: nat, i4: nat, i3: nat, i2: nat)
    requires Typed(m, level) && At(level, root, 4)
    ensures Pd(m, root, i4, i3).Some? ==> i4 < 512 && i3 < 512
    ensures Pt(m, root, i4, i3, i2).Some? ==> i4 < 512 && i3 < 512 && i2 < 512
  {
    var e4 := Read(m, root, i4);
    if e4.present {
      assert Links(e4, 4) && At(level, e4.addr, 3);
      var e3 := Read(m, e4.addr, i3);
      if e3.present && !e3.huge { assert Links(e3, 3) && At(level, e3.addr, 2); }
    }
  }

  /** The leaf table a path reaches after an edit: the edited one along the path of `v`, the old one elsewhere. */
  lemma EditPaths(m: Mem, level: map<nat, nat>, root: nat, v: nat, spare: nat, leaf: Entry, i4: nat, i3: nat, i2: nat)
    requires Typed(m, level) && At(level, root, 4) && PathPresent(m, root, v) && spare !in m
    requires DirectoriesUnshared(m, root)
    ensures var n := EditPage(m, root, v, spare, leaf);
      && Pd(n, root, i4, i3) == Pd(m, root, i4, i3)
      && (Pt(n, root, i4, i3, i2).Some? ==>
            Pt(n, root, i4, i3, i2) == if i4 == I4(v) && i3 == I3(v) && i2 == I2(v)
              then Some(LeafTable(m, root, v, spare)) else Pt(m, root, i4, i3, i2))
  {
    hide Typed; hide EnsurePt; hide LeafTable; hide PathPresent; hide WriteEntry; hide EditLevel;
    hide I4; hide I3; hide I2; hide I1; hide Pd; hide Pt; hide DirectoriesUnshared;
    var e, l, t := EnsurePt(m, root, v, spare), EditLevel(m, level, root, v, spare), LeafTable(m, root, v, spare);
    LeafTableTyped(m, level, root, v, spare);
    LeafWritePaths(e, l, t, I1(v), leaf, root, i4, i3, i2);
    SplitDirectories(m, level, root, v, spare, i4, i3);
    PathBounds(e, l, root, i4, i3, i2);
    if Pt(e, root, i4, i3, i2).Some? { SplitPaths(m, level, root, v, spare, i4, i3, i2); }
  }

  /** The leaf table of the edited path was reached along no other path, whether it is new or not. */
  lemma EditedTableElsewhere(m: Mem, level: map<nat, nat>, root: nat, v: nat, spare: nat, i4: nat, i3: nat, i2: nat)
    requires Typed(m, level) && At(level, root, 4) && PathPresent(m, root, v) && spare !in m
    requires LeafTablesUnshared(m, root)
    requires Pt(m, root, i4, i3, i2) == Some(LeafTable(m, root, v, spare))
    ensures i4 == I4(v) && i3 == I3(v) && i2 == I2(v)
  {
    hide I4; hide I3; hide I2;
    PathBounds(m, level, root, i4, i3, i2);
    LeafTyped(m, level, root, i4, i3, i2);
    var t := LeafTable(m, root, v, spare);
    assert t in m && t != spare;
    assert Pt(m, root, I4(v), I3(v), I2(v)) == Some(t);
  }

  /** An edit keeps tables unshared. */
  lemma EditKeepsUnshared(m: Mem, level: map<nat, nat>, root: nat, v: nat, spare: nat, leaf: Entry)
    requires Typed(m, level) && At(level, root, 4) && PathPresent(m, root, v) && spare !in m && Unshared(m, root)
    ensures Unshared(EditPage(m, root, v, spare, leaf), root)
  {
    hide Typed; hide EditPage; hide LeafTable; hide PathPresent; hide I4; hide I3; hide I2; hide Pd; hide Pt;
    var n := EditPage(m, root, v, spare, leaf);
    forall a4: nat, a3: nat, a2: nat, b4: nat, b3: nat, b2: nat |
      Pt(n, root, a4, a3, a2).Some? && Pt(n, root, a4, a3, a2) == Pt(n, root, b4, b3, b2)
      ensures a4 == b4 && a3 == b3 && a2 == b2
    {
      EditPaths(m, level, root, v, spare, leaf, a4, a3, a2);
      EditPaths(m, level, root, v, spare, leaf, b4, b3, b2);
      if Pt(m, root, a4, a3, a2) == Some(LeafTable(m, root, v, spare)) {
        EditedTableElsewhere(m, level, root, v, spare, a4, a3, a2);
      }
      if Pt(m, root, b4, b3, b2) == Some(LeafTable(m, root, v, spare)) {
        EditedTableElsewhere(m, level, root, v, spare, b4, b3, b2);
      }
    }
    forall a4: nat, a3: nat, b4: nat, b3: nat |
      Pd(n, root, a4, a3).Some? && Pd(n, root, a4, a3) == Pd(n, root, b4, b3)
      ensures a4 == b4 && a3 == b3
    {
      EditPaths(m, level, root, v, spare, leaf, a4, a3, 0);
      EditPaths(m, level, root, v, spare, leaf, b4, b3, 0);
    }
  }

  // ---- a per-domain view without one page ----

  /** Fresh copies of the four tables on the path of `v`, the page itself unmapped. */
  function DomainExcluding(m: Mem, root: nat, v: nat, f4: nat, f3: nat, f2: nat, f1: nat): (n: Mem)
    requires PathPresent(m, root, v) && root in m
    requires var t3 := Read(m, root, I4(v)).addr;
      t3 in m && |m[t3]| == 512 && PdOf(m, root, v) in m && |m[PdOf(m, root, v)]| == 512
    requires |m[root]| == 512
    requires var e2 := Read(m, PdOf(m, root, v), I2(v)); !e2.huge ==> e2.addr in m && |m[e2.addr]| == 512
  {
    var e4 := Read(m, root, I4(v));
    var e3 := Read(m, e4.addr, I3(v));
    var e2 := Read(m, e3.addr, I2(v));
    var leaves := if e2.huge then SplitTable(e2) else m[e2.addr];
    m[f1 := leaves[I1(v) := ABSENT]]
     [f2 := m[e3.addr][I2(v) := TableEntry(f1, false)]]
     [f3 := m[e4.addr][I3(v) := e3.(addr := f2)]]
     [f4 := m[root][I4(v) := e4.(addr := f3)]]
  }

  lemma DomainDefined(m: Mem, level: map<nat, nat>, root: nat, v: nat)
    requires Typed(m, level) && At(level, root, 4) && PathPresent(m, root, v)
    ensures var t3 := Read(m, root, I4(v)).addr;
      && root in m && |m[root]| == 512 && t3 in m && |m[t3]| == 512
      && PdOf(m, root, v) in m && |m[PdOf(m, root, v)]| == 512
      && var e2 := Read(m, PdOf(m, root, v), I2(v)); !e2.huge ==> e2.addr in m && |m[e2.addr]| == 512
  {
    PathTyped(m, level, root, v);
    LeafTyped(m, level, root, I4(v), I3(v), I2(v));
  }

  /** Every walk from an existing root reads only tables that were there before. */
  lemma OldRootsUnchanged(m: Mem, level: map<nat, nat>, n: Mem, r: nat, va: nat)
    requires Typed(m, level) && At(level, r, 4) && forall t :: t in m ==> t in n && n[t] == m[t]
    ensures Walk(n, r, va) == Walk(m, r, va)
  {
    LeafTyped(m, level, r, I4(va), I3(va), I2(va));
  }

  ghost predicate FreshFour(m: Mem, f4: nat, f3: nat, f2: nat, f1: nat) {
    f4 !in m && f3 !in m && f2 !in m && f1 !in m && |{f4, f3, f2, f1}| == 4
  }

  lemma DomainReads(m: Mem, level: map<nat, nat>, root: nat, v: nat, f4: nat, f3: nat, f2: nat, f1: nat, i: nat)
    requires Typed(m, level) && At(level, root, 4) && PathPresent(m, root, v) && FreshFour(m, f4, f3, f2, f1) && i < 512
    ensures var n := Domain(m, level, root, v, f4, f3, f2, f1);
      var e4 := Read(m, root, I4(v)); var e3 := Read(m, e4.addr, I3(v)); var e2 := Read(m, e3.addr, I2(v));
      && Read(n, f4, i) == (if i == I4(v) then e4.(addr := f3) else Read(m, root, i))
      && Read(n, f3, i) == (if i == I3(v) then e3.(addr := f2) else Read(m, e4.addr, i))
      && Read(n, f2, i) == (if i == I2(v) then TableEntry(f1, false) else Read(m, e3.addr, i))
      && Read(n, f1, i) == (if i == I1(v) then ABSENT else if e2.huge then SplitTable(e2)[i] else Read(m, e2.addr, i))
      && (forall t :: t in m ==> t in n && n[t] == m[t])
  {
    hide I4; hide I3; hide I2; hide I1;
    Distinct4(f4, f3, f2, f1);
    DomainDefined(m, level, root, v);
  }

  ghost function Domain(m: Mem, level: map<nat, nat>, root: nat, v: nat, f4: nat, f3: nat, f2: nat, f1: nat): (n: Mem)
    requires Typed(m, level) && At(level, root, 4) && PathPresent(m, root, v)
  {
    DomainDefined(m, level, root, v);
    DomainExcluding(m, root, v, f4, f3, f2, f1)
  }

  lemma DomainWalk(m: Mem, level: map<nat, nat>, root: nat, v: nat, f4: nat, f3: nat, f2: nat, f1: nat, va: nat)
    requires Typed(m, level) && At(level, root, 4) && PathPresent(m, root, v) && FreshFour(m, f4, f3, f2, f1)
    ensures var n := Domain(m, level, root, v, f4, f3, f2, f1);
      if SamePage(va, v) then Walk(n, f4, va).None? else SameFrameAndProt(Walk(m, root, va), Walk(n, f4, va), va)
  {
    hide I4; hide I3; hide I2; hide I1; hide Domain; hide FreshFour; hide SplitTable; hide Physical;
    var n := Domain(m, level, root, v, f4, f3, f2, f1);
    DomainReads(m, level, root, v, f4, f3, f2, f1, I4(va));
    OldRootsUnchanged(m, level, n, root, va);
    LeafTyped(m, level, root, I4(va), I3(va), I2(va));
    hide Typed;
    var e4 := Read(m, root, I4(v));
    if I4(va) != I4(v) {
      hide WalkPdpt;
      assert Read(n, root, I4(va)) == Read(m, root, I4(va));
      assert Walk(n, f4, va) == Walk(n, root, va);
    } else {
      DomainReads(m, level, root, v, f4, f3, f2, f1, I3(va));
      hide WalkPd;
      assert Walk(n, f4, va) == WalkPdpt(n, f3, va, e4.user) && Walk(m, root, va) == WalkPdpt(m, e4.addr, va, e4.user);
      if I3(va) != I3(v) {
        assert Read(n, e4.addr, I3(va)) == Read(m, e4.addr, I3(va));
        assert Walk(n, root, va) == WalkPdpt(n, e4.addr, va, e4.user);
        assert WalkPdpt(n, f3, va, e4.user) == WalkPdpt(n, e4.addr, va, e4.user);
      } else {
        DomainBelow(m, level, root, v, f4, f3, f2, f1, va, e4.user && Read(m, e4.addr, I3(v)).user);
      }
    }
    AccessPages(m, root, va);
  }

  lemma AccessPages(m: Mem, root: nat, va: nat)
    ensures Walk(m, root, va).Some? ==> Walk(m, root, va).value.pages > 0
  {
  }

  lemma DomainBelow(m: Mem, level: map<nat, nat>, root: nat, v: nat, f4: nat, f3: nat, f2: nat, f1: nat, va: nat,
                    u: bool)
    requires Typed(m, level) && At(level, root, 4) && PathPresent(m, root, v) && FreshFour(m, f4, f3, f2, f1)
    ensures PdOf(m, root, v) == Read(m, Read(m, root, I4(v)).addr, I3(v)).addr
    ensures var n := Domain(m, level, root, v, f4, f3, f2, f1);
      if I2(va) == I2(v) && I1(va) == I1(v) then WalkPd(n, f2, va, u).None?
      else SameFrameAndProt(WalkPd(m, PdOf(m, root, v), va, u), WalkPd(n, f2, va, u), va)
  {
    hide I4; hide I3; hide I2; hide I1; hide Domain; hide FreshFour; hide Physical;
    if I2(va) == I2(v) {
      DomainLeaf(m, level, root, v, f4, f3, f2, f1, va, u);
    } else {
      DomainReads(m, level, root, v, f4, f3, f2, f1, I2(va));
      PathTyped(m, level, root, v);
      var n, e2 := Domain(m, level, root, v, f4, f3, f2, f1), Read(m, PdOf(m, root, v), I2(va));
      assert e2.present && !e2.huge ==> Links(e2, 2);
      assert e2.present && !e2.huge ==> Read(n, e2.addr, I1(va)) == Read(m, e2.addr, I1(va));
    }
  }

  /** From the new root the page is unmapped; every other address translates as before; and every
      walk from a root that existed before is untouched. */
  lemma DomainHidesPage(m: Mem, level: map<nat, nat>, root: nat, v: nat, f4: nat, f3: nat, f2: nat, f1: nat, va: nat,
                        r: nat)
    requires Typed(m, level) && At(level, root, 4) && At(level, r, 4) && PathPresent(m, root, v)
    requires FreshFour(m, f4, f3, f2, f1)
    ensures var n := Domain(m, level, root, v, f4, f3, f2, f1);
      && (SamePage(va, v) ==> Walk(n, f4, va).None?)
      && (!SamePage(va, v) ==>
            Translate(n, f4, va) == Translate(m, root, va) && PageProt(n, f4, va) == PageProt(m, root, va))
      && Walk(n, r, va) == Walk(m, r, va)
  {
    hide I4; hide I3; hide I2; hide I1; hide Domain; hide FreshFour; hide Typed; hide Walk; hide Physical;
    hide PathPresent;
    DomainReads(m, level, root, v, f4, f3, f2, f1, 0);
    OldRootsUnchanged(m, level, Domain(m, level, root, v, f4, f3, f2, f1), r, va);
    DomainWalk(m, level, root, v, f4, f3, f2, f1, va);
  }

  lemma DomainLeaf(m: Mem, level: map<nat, nat>, root: nat, v: nat, f4: nat, f3: nat, f2: nat, f1: nat, va: nat,
                   u: bool)
    requires Typed(m, level) && At(level, root, 4) && PathPresent(m, root, v) && FreshFour(m, f4, f3, f2, f1)
    requires I2(va) == I2(v)
    ensures PdOf(m, root, v) == Read(m, Read(m, root, I4(v)).addr, I3(v)).addr
    ensures var n := Domain(m, level, root, v, f4, f3, f2, f1);
      if I1(va) == I1(v) then WalkPd(n, f2, va, u).None?
      else SameFrameAndProt(WalkPd(m, PdOf(m, root, v), va, u), WalkPd(n, f2, va, u), va)
  {
    hide I4; hide I3; hide I2; hide Domain; hide FreshFour; hide Typed;
    DomainReads(m, level, root, v, f4, f3, f2, f1, I2(va));
    DomainReads(m, level, root, v, f4, f3, f2, f1, I1(va));
    Offsets(va);
    hide I1;
    var n, e2 := Domain(m, level, root, v, f4, f3, f2, f1), Read(m, PdOf(m, root, v), I2(v));
    assert Read(n, f2, I2(va)) == TableEntry(f1, false);
    assert e2.present;
    assert WalkPd(n, f2, va, u) == WalkPt(n, f1, va, false);
    if e2.huge && I1(va) != I1(v) {
      assert Read(n, f1, I1(va)) == e2.(huge := false, addr := e2.addr / 512 * 512 + I1(va));
    }
  }

  lemma Distinct4(a: nat, b: nat, c: nat, d: nat)
    requires |{a, b, c, d}| == 4
    ensures a != b && a != c && a != d && b != c && b != d && c != d
  {
    assert a == b ==> {a, b, c, d} == {b, c, d};
    assert a == c ==> {a, b, c, d} == {b, c, d};
    assert a == d ==> {a, b, c, d} == {b, c, d};
    assert b == c ==> {a, b, c, d} == {a, c, d};
    assert b == d ==> {a, b, c, d} == {a, c, d};
    assert c == d ==> {a, b, c, d} == {a, b, d};
  }
}

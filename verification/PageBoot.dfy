/** The boot tables: low memory mapped linearly with 2 MiB pages, once at the bottom (identity)
    and once in the higher half. */
module PageBoot {
  import Bits
  import opened PageTables
  import opened PageEdits
  import opened ProcessSpaces
  import opened SpaceMap
  import opened SpaceCreate
  import opened Options

  /** 512 supervisor 2 MiB pages over the `g`th GiB, writable and not executable. */
  function HugeTable(g: nat): (t: seq<Entry>)
    ensures |t| == 512
  {
    seq(512, j requires 0 <= j < 512 => Entry(true, true, false, true, true, 0, g * 0x4_0000 + j * 0x200))
  }

  function PdptTable(pds: seq<nat>): (t: seq<Entry>)
    ensures |t| == 512
  {
    seq(512, g requires 0 <= g < 512 => if g < |pds| then TableEntry(pds[g], false) else ABSENT)
  }

  function Directories(pds: seq<nat>, n: nat): (m: Mem)
    requires n <= |pds|
  {
    if n == 0 then map[] else Directories(pds, n - 1)[pds[n - 1] := HugeTable(n - 1)]
  }

  lemma {:induction false} DirectoriesOk(pds: seq<nat>, n: nat)
    requires n <= |pds| && Distinct(pds)
    ensures Directories(pds, n).Keys == Frames(pds[..n])
    ensures forall g :: 0 <= g < n ==> Directories(pds, n)[pds[g]] == HugeTable(g)
  {
    hide HugeTable;
    if n > 0 {
      DirectoriesOk(pds, n - 1);
      assert pds[..n] == pds[..n - 1] + [pds[n - 1]];
    }
  }

  /** `map_low`: one directory of huge pages for each GiB, below entry `i4` of the root. */
  function MapLow(m: Mem, root: nat, i4: nat, pdpt: nat, pds: seq<nat>): (n: Mem) {
    WriteEntry(m, root, i4, TableEntry(pdpt, false))[pdpt := PdptTable(pds)] + Directories(pds, |pds|)
  }

  function LowLevel(level: map<nat, nat>, pdpt: nat, pds: seq<nat>): (l: map<nat, nat>) {
    level[pdpt := 3] + (map f | f in pds :: 2)
  }

  ghost predicate CanMapLow(m: Mem, level: map<nat, nat>, root: nat, i4: nat, pdpt: nat, pds: seq<nat>) {
    && Typed(m, level) && At(level, root, 4) && i4 < 512 && !Read(m, root, i4).present && |pds| <= 512
    && pdpt !in m && Distinct(pds) && pdpt !in pds && (forall f :: f in pds ==> f !in m)
  }

  lemma LowReads(m: Mem, level: map<nat, nat>, root: nat, i4: nat, pdpt: nat, pds: seq<nat>, t: nat, i: nat)
    requires CanMapLow(m, level, root, i4, pdpt, pds) && i < 512
    ensures var n := MapLow(m, root, i4, pdpt, pds);
      && (t == pdpt ==> Read(n, t, i) == if i < |pds| then TableEntry(pds[i], false) else ABSENT)
      && (forall g: nat :: g < |pds| && t == pds[g] ==> Read(n, t, i) == HugeTable(g)[i])
      && (t in m && (t != root || i != i4) ==> Read(n, t, i) == Read(m, t, i))
      && (t == root && i == i4 ==> Read(n, t, i) == TableEntry(pdpt, false))
      && n.Keys == m.Keys + {pdpt} + Frames(pds) && LowLevel(level, pdpt, pds).Keys == n.Keys
      && (t in n ==> |n[t]| == 512)
  {
    DirectoriesOk(pds, |pds|);
    assert pds[..|pds|] == pds;
    WriteFull(m, root, i4, TableEntry(pdpt, false));
    if t in pds {
      var g :| 0 <= g < |pds| && pds[g] == t;
      assert Directories(pds, |pds|)[t] == HugeTable(g);
    }
  }

  lemma LowTyped(m: Mem, level: map<nat, nat>, root: nat, i4: nat, pdpt: nat, pds: seq<nat>)
    requires CanMapLow(m, level, root, i4, pdpt, pds)
    ensures Typed(MapLow(m, root, i4, pdpt, pds), LowLevel(level, pdpt, pds))
  {
    hide MapLow; hide HugeTable;
    var n, l := MapLow(m, root, i4, pdpt, pds), LowLevel(level, pdpt, pds);
    LowReads(m, level, root, i4, pdpt, pds, root, 0);
    forall t | t in n ensures |n[t]| == 512 && 1 <= l[t] <= 4 { LowReads(m, level, root, i4, pdpt, pds, t, 0); }
    forall t, i: nat | t in n && l[t] > 1 && i < 512 && Links(Read(n, t, i), l[t])
      ensures Read(n, t, i).addr in l && l[Read(n, t, i).addr] == l[t] - 1
    {
      LowReads(m, level, root, i4, pdpt, pds, t, i);
      if t in pds {
        var g: nat :| g < |pds| && pds[g] == t;
        assert Read(n, t, i) == HugeTable(g)[i];
        HugeEntries(g, i);
      }
    }
  }

  lemma HugeEntries(g: nat, i: nat)
    requires i < 512
    ensures HugeTable(g)[i] == Entry(true, true, false, true, true, 0, g * 0x4_0000 + i * 0x200)
  {
  }

  lemma LowClosed(m: Mem, level: map<nat, nat>, root: nat, i4: nat, pdpt: nat, pds: seq<nat>, kernel: set<nat>)
    requires CanMapLow(m, level, root, i4, pdpt, pds) && kernel <= m.Keys && root in kernel
    requires Closed(m, level, kernel) && Supervisor(m, kernel)
    ensures var n, l, k := MapLow(m, root, i4, pdpt, pds), LowLevel(level, pdpt, pds), kernel + {pdpt} + Frames(pds);
      k <= n.Keys && Closed(n, l, k) && Supervisor(n, k)
  {
    hide MapLow; hide HugeTable;
    var n, l, k := MapLow(m, root, i4, pdpt, pds), LowLevel(level, pdpt, pds), kernel + {pdpt} + Frames(pds);
    LowReads(m, level, root, i4, pdpt, pds, root, 0);
    forall t, i: nat | t in k && i < 512
      ensures Read(n, t, i).present ==> !Read(n, t, i).user
      ensures t in l && l[t] > 1 && Links(Read(n, t, i), l[t]) ==> Read(n, t, i).addr in k
    {
      LowReads(m, level, root, i4, pdpt, pds, t, i);
      if t in pds {
        var g: nat :| g < |pds| && pds[g] == t;
        HugeEntries(g, i);
      } else if t == pdpt && i < |pds| {
        assert pds[i] in pds;
      }
    }
  }

  lemma VaParts(va: nat)
    ensures var off := va % 0x80_0000_0000;
      && I3(va) == off / 0x4000_0000
      && off == I3(va) * 0x4000_0000 + I2(va) * 0x20_0000 + va % 0x20_0000
  {
    var x, r := va / 0x20_0000, va % 0x20_0000;
    var y, j := x / 512, x % 512;
    var z, g := y / 512, y % 512;
    var off := g * 0x4000_0000 + j * 0x20_0000 + r;
    Bits.RemainderUnique(va, 0x4000_0000, y, j * 0x20_0000 + r);
    Bits.RemainderUnique(va, 0x80_0000_0000, z, off);
    Bits.RemainderUnique(off, 0x4000_0000, g, j * 0x20_0000 + r);
  }

  /** Below `i4`, low memory is mapped linearly, writable, not executable and not for user mode. */
  lemma LowIsLinear(m: Mem, level: map<nat, nat>, root: nat, i4: nat, pdpt: nat, pds: seq<nat>, va: nat)
    requires CanMapLow(m, level, root, i4, pdpt, pds) && I4(va) == i4
    ensures var n, off := MapLow(m, root, i4, pdpt, pds), va % 0x80_0000_0000;
      if off < |pds| * 0x4000_0000
      then Translate(n, root, va) == Some(off) && PageProt(n, root, va) == Some((true, false))
        && !UserReachable(n, root, va)
      else Walk(n, root, va).None?
  {
    VaParts(va);
    hide MapLow; hide I4; hide I3; hide I2; hide I1; hide HugeTable; hide Typed;
    var n, g := MapLow(m, root, i4, pdpt, pds), I3(va);
    LowReads(m, level, root, i4, pdpt, pds, root, i4);
    LowReads(m, level, root, i4, pdpt, pds, pdpt, g);
    if g < |pds| {
      LowReads(m, level, root, i4, pdpt, pds, pds[g], I2(va));
      HugeEntries(g, I2(va));
      HugeFrame(g, I2(va), va);
    }
  }

  lemma HugeFrame(g: nat, j: nat, va: nat)
    requires j < 512
    ensures (g * 0x4_0000 + j * 0x200) / 512 * 512 * 0x1000 == g * 0x4000_0000 + j * 0x20_0000
  {
  }

  /** Everything reached through other root entries is untouched. */
  lemma LowIsLocal(m: Mem, level: map<nat, nat>, root: nat, i4: nat, pdpt: nat, pds: seq<nat>, va: nat)
    requires CanMapLow(m, level, root, i4, pdpt, pds) && I4(va) != i4
    ensures Walk(MapLow(m, root, i4, pdpt, pds), root, va) == Walk(m, root, va)
  {
    hide MapLow; hide I4; hide I3; hide I2; hide I1;
    LeafTyped(m, level, root, I4(va), I3(va), I2(va));
    LowReads(m, level, root, i4, pdpt, pds, root, I4(va));
    var e4 := Read(m, root, I4(va));
    if e4.present {
      LowReads(m, level, root, i4, pdpt, pds, e4.addr, I3(va));
      var e3 := Read(m, e4.addr, I3(va));
      if IsSplit(e3) {
        LowReads(m, level, root, i4, pdpt, pds, e3.addr, I2(va));
        var e2 := Read(m, e3.addr, I2(va));
        if IsSplit(e2) { LowReads(m, level, root, i4, pdpt, pds, e2.addr, I1(va)); }
      }
    }
  }

  lemma LowPaths(m: Mem, level: map<nat, nat>, root: nat, i4: nat, pdpt: nat, pds: seq<nat>, a4: nat, a3: nat, a2: nat)
    requires CanMapLow(m, level, root, i4, pdpt, pds)
    ensures var n := MapLow(m, root, i4, pdpt, pds);
      && Pd(n, root, a4, a3) == (if a4 == i4 then (if a3 < |pds| then Some(pds[a3]) else None) else Pd(m, root, a4, a3))
      && Pt(n, root, a4, a3, a2) == (if a4 == i4 then None else Pt(m, root, a4, a3, a2))
      && (a4 != i4 && Pd(m, root, a4, a3).Some? ==> Pd(m, root, a4, a3).value in m)
  {
    hide MapLow; hide HugeTable;
    var n := MapLow(m, root, i4, pdpt, pds);
    LowReads(m, level, root, i4, pdpt, pds, root, 0);
    assert forall t, i: nat :: i >= 512 ==> Read(n, t, i) == ABSENT by {
      forall t, i: nat | i >= 512 ensures Read(n, t, i) == ABSENT { LowReads(m, level, root, i4, pdpt, pds, t, 0); }
    }
    if a4 < 512 {
      LowReads(m, level, root, i4, pdpt, pds, root, a4);
      if a4 == i4 {
        if a3 < 512 { LowReads(m, level, root, i4, pdpt, pds, pdpt, a3); }
        if a3 < |pds| && a2 < 512 {
          LowReads(m, level, root, i4, pdpt, pds, pds[a3], a2);
          HugeEntries(a3, a2);
        }
      } else {
        var e4 := Read(m, root, a4);
        if e4.present && a3 < 512 {
          assert Links(e4, 4);
          LowReads(m, level, root, i4, pdpt, pds, e4.addr, a3);
          var e3 := Read(m, e4.addr, a3);
          if IsSplit(e3) && a2 < 512 {
            assert Links(e3, 3);
            LowReads(m, level, root, i4, pdpt, pds, e3.addr, a2);
          }
        }
      }
    }
  }

  /** Mapping low memory shares no table between two paths. */
  lemma LowUnshared(m: Mem, level: map<nat, nat>, root: nat, i4: nat, pdpt: nat, pds: seq<nat>)
    requires CanMapLow(m, level, root, i4, pdpt, pds) && Unshared(m, root)
    ensures Unshared(MapLow(m, root, i4, pdpt, pds), root)
  {
    hide MapLow; hide Typed; hide Pd; hide Pt;
    var n := MapLow(m, root, i4, pdpt, pds);
    forall a4: nat, a3: nat, b4: nat, b3: nat | Pd(n, root, a4, a3).Some? && Pd(n, root, a4, a3) == Pd(n, root, b4, b3)
      ensures a4 == b4 && a3 == b3
    {
      LowPaths(m, level, root, i4, pdpt, pds, a4, a3, 0);
      LowPaths(m, level, root, i4, pdpt, pds, b4, b3, 0);
      assert a4 == i4 ==> pds[a3] in pds;
      assert b4 == i4 ==> pds[b3] in pds;
    }
    forall a4: nat, a3: nat, a2: nat, b4: nat, b3: nat, b2: nat
      | Pt(n, root, a4, a3, a2).Some? && Pt(n, root, a4, a3, a2) == Pt(n, root, b4, b3, b2)
      ensures a4 == b4 && a3 == b3 && a2 == b2
    {
      LowPaths(m, level, root, i4, pdpt, pds, a4, a3, a2);
      LowPaths(m, level, root, i4, pdpt, pds, b4, b3, b2);
    }
  }

  /** Tables of the kernel alone: closed, supervisor, no table shared between two paths. */
  ghost predicate BootOk(m: Mem, level: map<nat, nat>, root: nat) {
    Typed(m, level) && At(level, root, 4) && Closed(m, level, m.Keys) && Supervisor(m, m.Keys) && Unshared(m, root)
  }

  lemma LowStep(m: Mem, level: map<nat, nat>, root: nat, i4: nat, pdpt: nat, pds: seq<nat>)
    requires CanMapLow(m, level, root, i4, pdpt, pds) && BootOk(m, level, root)
    ensures BootOk(MapLow(m, root, i4, pdpt, pds), LowLevel(level, pdpt, pds), root)
    ensures MapLow(m, root, i4, pdpt, pds).Keys == m.Keys + {pdpt} + Frames(pds)
    ensures forall i: nat :: i < 512 && i != i4 ==> Read(MapLow(m, root, i4, pdpt, pds), root, i) == Read(m, root, i)
  {
    hide MapLow; hide Unshared;
    LowTyped(m, level, root, i4, pdpt, pds);
    LowClosed(m, level, root, i4, pdpt, pds, m.Keys);
    LowUnshared(m, level, root, i4, pdpt, pds);
    forall i: nat | i < 512 ensures i != i4 ==> Read(MapLow(m, root, i4, pdpt, pds), root, i) == Read(m, root, i) {
      LowReads(m, level, root, i4, pdpt, pds, root, i);
    }
    LowReads(m, level, root, i4, pdpt, pds, root, 0);
    hide Typed; hide Closed; hide Supervisor;
    assert root !in pds && root != pdpt;
  }

  lemma BootWorld(m: Mem, level: map<nat, nat>, root: nat)
    requires BootOk(m, level, root) && Pd(m, root, 0, 1).Some?
    ensures WorldOk(World(m, level, m.Keys, root, map[]))
  {
  }

  /** A root with nothing below it. */
  function EmptyRoot(root: nat): (m: Mem) {
    map[root := seq(512, j requires 0 <= j < 512 => ABSENT)]
  }

  lemma EmptyBoot(root: nat)
    ensures BootOk(EmptyRoot(root), map[root := 4], root)
    ensures forall i: nat :: !Read(EmptyRoot(root), root, i).present
  {
    EmptyUnshared(root);
  }

  lemma LowReady(m: Mem, level: map<nat, nat>, root: nat, i4: nat, pdpt: nat, pds: seq<nat>)
    requires BootOk(m, level, root) && i4 < 512 && !Read(m, root, i4).present && |pds| <= 512
    requires pdpt !in m && Distinct(pds) && pdpt !in pds && forall f :: f in pds ==> f !in m
    ensures CanMapLow(m, level, root, i4, pdpt, pds)
  {
  }

  /** After boot maps low memory at the bottom and at entry `hhdm`, the tables are in order, the process
      window has a directory, and no other entry of the root is taken. */
  lemma LowBoot(root: nat, hhdm: nat, p: nat, ps: seq<nat>, q: nat, qs: seq<nat>)
    requires 0 < hhdm < 512 && 2 <= |ps| <= 512 && |qs| <= 512
    requires Distinct([root, p, q] + ps + qs)
    ensures var m1, l1 := MapLow(EmptyRoot(root), root, 0, p, ps), LowLevel(map[root := 4], p, ps);
      var m := MapLow(m1, root, hhdm, q, qs);
      && CanMapLow(EmptyRoot(root), map[root := 4], root, 0, p, ps) && CanMapLow(m1, l1, root, hhdm, q, qs)
      && BootOk(m, LowLevel(l1, q, qs), root) && Pd(m, root, 0, 1).Some?
      && m.Keys == {root, p, q} + Frames(ps) + Frames(qs)
      && forall i: nat :: 0 < i < 512 && i != hhdm ==> !Read(m, root, i).present
  {
    hide MapLow; hide LowLevel; hide BootOk; hide CanMapLow; hide Pd; hide WorldOk;
    var m0, l0 := EmptyRoot(root), map[root := 4];
    BootFrames(root, p, ps, q, qs);
    EmptyBoot(root);
    LowReady(m0, l0, root, 0, p, ps);
    LowStep(m0, l0, root, 0, p, ps);
    var m1, l1 := MapLow(m0, root, 0, p, ps), LowLevel(l0, p, ps);
    LowReady(m1, l1, root, hhdm, q, qs);
    LowStep(m1, l1, root, hhdm, q, qs);
    LowPaths(m0, l0, root, 0, p, ps, 0, 1, 0);
    LowPaths(m1, l1, root, hhdm, q, qs, 0, 1, 0);
  }

  lemma EmptyUnshared(root: nat)
    ensures Unshared(EmptyRoot(root), root)
  {
    var m := EmptyRoot(root);
    assert forall i: nat :: !Read(m, root, i).present;
  }

  lemma BootFrames(root: nat, p: nat, ps: seq<nat>, q: nat, qs: seq<nat>)
    requires Distinct([root, p, q] + ps + qs)
    ensures root != p && root != q && p != q && root !in ps && root !in qs && p !in ps && p !in qs && q !in ps
    ensures q !in qs
    ensures Distinct(ps) && Distinct(qs) && forall f :: f in ps ==> f !in qs
  {
    var a := [root, p, q] + ps + qs;
    assert a[0] == root && a[1] == p && a[2] == q;
    forall i | 0 <= i < |ps| ensures a[3 + i] == ps[i] {}
    forall i | 0 <= i < |qs| ensures a[3 + |ps| + i] == qs[i] {}
  }
}

/** The last step of boot: the kernel image mapped below its own root entry, each section with its own
    protection, and the address space that boot leaves. */
module KernelImage {
  import Bits
  import opened PageTables
  import opened PageEdits
  import opened PageBoot
  import opened ProcessSpaces
  import opened SpaceMap
  import opened SpaceCreate
  import opened SpaceRuns
  import opened Options

  const TWO_MIB: nat := 0x20_0000

  /** Where the image is linked and loaded, and its executable and writable sections. */
  datatype KernelMap = KernelMap(vbase: nat, vend: nat, phys: nat, text: (nat, nat), data: (nat, nat))

  /** What boot checks before it maps the image: one leaf table is enough for it. */
  predicate Fits(km: KernelMap) {
    km.vbase % TWO_MIB == 0 && km.vend <= km.vbase + TWO_MIB && km.phys % 0x1000 == 0
  }

  function SectionProt(km: KernelMap, v: nat): (p: Prot) {
    if km.text.0 <= v < km.text.1 then Rx else if km.data.0 <= v < km.data.1 then Rw else Ro
  }

  function KernelLeaf(pfn: nat, prot: Prot): (e: Entry)
    ensures !(e.writable && !e.nx)
  {
    Entry(true, prot.Rw?, false, false, !prot.Rx?, 0, pfn)
  }

  function ImageLeaf(km: KernelMap, j: nat): (e: Entry) {
    if km.vbase + j * 0x1000 < km.vend then KernelLeaf(km.phys / 0x1000 + j, SectionProt(km, km.vbase + j * 0x1000))
      else ABSENT
  }

  function ImageTable(km: KernelMap): (t: seq<Entry>)
    ensures |t| == 512
  {
    seq(512, j requires 0 <= j < 512 => ImageLeaf(km, j))
  }

  function OneEntry(i: nat, t: nat): (r: seq<Entry>)
    ensures |r| == 512
  {
    seq(512, j requires 0 <= j < 512 => if j == i then TableEntry(t, false) else ABSENT)
  }

  /** `map_kernel`, with three table frames. */
  function MapImage(m: Mem, root: nat, km: KernelMap, pdpt: nat, pd: nat, pt: nat): (n: Mem) {
    WriteEntry(m, root, I4(km.vbase), TableEntry(pdpt, false))
      [pdpt := OneEntry(I3(km.vbase), pd)][pd := OneEntry(I2(km.vbase), pt)][pt := ImageTable(km)]
  }

  function ImageLevel(level: map<nat, nat>, pdpt: nat, pd: nat, pt: nat): (l: map<nat, nat>) {
    level[pdpt := 3][pd := 2][pt := 1]
  }

  ghost predicate CanMapImage(m: Mem, level: map<nat, nat>, root: nat, km: KernelMap, pdpt: nat, pd: nat, pt: nat) {
    && Typed(m, level) && At(level, root, 4) && Fits(km) && !Read(m, root, I4(km.vbase)).present
    && pdpt !in m && pd !in m && pt !in m && pdpt != pd && pdpt != pt && pd != pt
  }

  lemma ImageReads(m: Mem, level: map<nat, nat>, root: nat, km: KernelMap, pdpt: nat, pd: nat, pt: nat, t: nat, i: nat)
    requires CanMapImage(m, level, root, km, pdpt, pd, pt) && i < 512
    ensures var n := MapImage(m, root, km, pdpt, pd, pt);
      && n.Keys == m.Keys + {pdpt, pd, pt} && ImageLevel(level, pdpt, pd, pt).Keys == n.Keys
      && (t in n ==> |n[t]| == 512)
      && (t == pdpt ==> Read(n, t, i) == if i == I3(km.vbase) then TableEntry(pd, false) else ABSENT)
      && (t == pd ==> Read(n, t, i) == if i == I2(km.vbase) then TableEntry(pt, false) else ABSENT)
      && (t == pt ==> Read(n, t, i) == ImageLeaf(km, i))
      && (t in m && (t != root || i != I4(km.vbase)) ==> Read(n, t, i) == Read(m, t, i))
      && (t == root && i == I4(km.vbase) ==> Read(n, t, i) == TableEntry(pdpt, false))
  {
    hide I4; hide I3; hide I2; hide ImageLeaf;
    WriteFull(m, root, I4(km.vbase), TableEntry(pdpt, false));
  }

  lemma ImageTyped(m: Mem, level: map<nat, nat>, root: nat, km: KernelMap, pdpt: nat, pd: nat, pt: nat)
    requires CanMapImage(m, level, root, km, pdpt, pd, pt)
    ensures Typed(MapImage(m, root, km, pdpt, pd, pt), ImageLevel(level, pdpt, pd, pt))
  {
    hide MapImage; hide I4; hide I3; hide I2; hide Fits; hide ImageLeaf;
    var n, l := MapImage(m, root, km, pdpt, pd, pt), ImageLevel(level, pdpt, pd, pt);
    ImageReads(m, level, root, km, pdpt, pd, pt, root, 0);
    forall t | t in n ensures |n[t]| == 512 && 1 <= l[t] <= 4 { ImageReads(m, level, root, km, pdpt, pd, pt, t, 0); }
    forall t, i: nat | t in n && l[t] > 1 && i < 512 && Links(Read(n, t, i), l[t])
      ensures Read(n, t, i).addr in l && l[Read(n, t, i).addr] == l[t] - 1
    {
      ImageReads(m, level, root, km, pdpt, pd, pt, t, i);
    }
  }

  lemma ImageClosed(m: Mem, level: map<nat, nat>, root: nat, km: KernelMap, pdpt: nat, pd: nat, pt: nat)
    requires CanMapImage(m, level, root, km, pdpt, pd, pt) && Closed(m, level, m.Keys) && Supervisor(m, m.Keys)
    ensures var n := MapImage(m, root, km, pdpt, pd, pt);
      Closed(n, ImageLevel(level, pdpt, pd, pt), n.Keys) && Supervisor(n, n.Keys)
  {
    hide MapImage; hide I4; hide I3; hide I2; hide Fits;
    var n, l := MapImage(m, root, km, pdpt, pd, pt), ImageLevel(level, pdpt, pd, pt);
    forall t, i: nat | t in n && i < 512
      ensures Read(n, t, i).present ==> !Read(n, t, i).user
      ensures t in l && l[t] > 1 && Links(Read(n, t, i), l[t]) ==> Read(n, t, i).addr in n.Keys
    {
      ImageReads(m, level, root, km, pdpt, pd, pt, t, i);
    }
  }

  lemma ImagePaths(m: Mem, level: map<nat, nat>, root: nat, km: KernelMap, pdpt: nat, pd: nat, pt: nat, a4: nat,
                   a3: nat, a2: nat)
    requires CanMapImage(m, level, root, km, pdpt, pd, pt)
    ensures var n := MapImage(m, root, km, pdpt, pd, pt);
      && Pd(n, root, a4, a3) ==
            (if a4 == I4(km.vbase) then (if a3 == I3(km.vbase) then Some(pd) else None) else Pd(m, root, a4, a3))
      && Pt(n, root, a4, a3, a2) == (if a4 == I4(km.vbase)
                                     then (if a3 == I3(km.vbase) && a2 == I2(km.vbase) then Some(pt) else None)
                                     else Pt(m, root, a4, a3, a2))
      && (a4 != I4(km.vbase) && Pd(m, root, a4, a3).Some? ==> Pd(m, root, a4, a3).value in m)
      && (a4 != I4(km.vbase) && Pt(m, root, a4, a3, a2).Some? ==> Pt(m, root, a4, a3, a2).value in m)
  {
    hide MapImage; hide I4; hide I3; hide I2; hide Fits; hide ImageLeaf;
    var n := MapImage(m, root, km, pdpt, pd, pt);
    assert forall t, i: nat :: i >= 512 ==> Read(n, t, i) == ABSENT by {
      forall t, i: nat | i >= 512 ensures Read(n, t, i) == ABSENT {
        ImageReads(m, level, root, km, pdpt, pd, pt, t, 0);
      }
    }
    if a4 < 512 {
      ImageReads(m, level, root, km, pdpt, pd, pt, root, a4);
      if a4 == I4(km.vbase) {
        if a3 < 512 { ImageReads(m, level, root, km, pdpt, pd, pt, pdpt, a3); }
        if a2 < 512 { ImageReads(m, level, root, km, pdpt, pd, pt, pd, a2); }
      } else {
        var e4 := Read(m, root, a4);
        if e4.present && a3 < 512 {
          assert Links(e4, 4);
          ImageReads(m, level, root, km, pdpt, pd, pt, e4.addr, a3);
          var e3 := Read(m, e4.addr, a3);
          if IsSplit(e3) && a2 < 512 {
            assert Links(e3, 3);
            ImageReads(m, level, root, km, pdpt, pd, pt, e3.addr, a2);
            assert IsSplit(Read(m, e3.addr, a2)) ==> Links(Read(m, e3.addr, a2), 2);
          }
        }
      }
    }
  }

  lemma ImageUnshared(m: Mem, level: map<nat, nat>, root: nat, km: KernelMap, pdpt: nat, pd: nat, pt: nat)
    requires CanMapImage(m, level, root, km, pdpt, pd, pt) && Unshared(m, root)
    ensures Unshared(MapImage(m, root, km, pdpt, pd, pt), root)
  {
    hide MapImage; hide Typed; hide Pd; hide Pt; hide I4; hide I3; hide I2; hide Fits;
    var n := MapImage(m, root, km, pdpt, pd, pt);
    forall a4: nat, a3: nat, b4: nat, b3: nat | Pd(n, root, a4, a3).Some? && Pd(n, root, a4, a3) == Pd(n, root, b4, b3)
      ensures a4 == b4 && a3 == b3
    {
      ImagePaths(m, level, root, km, pdpt, pd, pt, a4, a3, 0);
      ImagePaths(m, level, root, km, pdpt, pd, pt, b4, b3, 0);
    }
    forall a4: nat, a3: nat, a2: nat, b4: nat, b3: nat, b2: nat
      | Pt(n, root, a4, a3, a2).Some? && Pt(n, root, a4, a3, a2) == Pt(n, root, b4, b3, b2)
      ensures a4 == b4 && a3 == b3 && a2 == b2
    {
      ImagePaths(m, level, root, km, pdpt, pd, pt, a4, a3, a2);
      ImagePaths(m, level, root, km, pdpt, pd, pt, b4, b3, b2);
    }
  }

  lemma ImageStep(m: Mem, level: map<nat, nat>, root: nat, km: KernelMap, pdpt: nat, pd: nat, pt: nat)
    requires CanMapImage(m, level, root, km, pdpt, pd, pt) && BootOk(m, level, root)
    ensures BootOk(MapImage(m, root, km, pdpt, pd, pt), ImageLevel(level, pdpt, pd, pt), root)
    ensures MapImage(m, root, km, pdpt, pd, pt).Keys == m.Keys + {pdpt, pd, pt}
  {
    hide MapImage; hide Unshared;
    ImageTyped(m, level, root, km, pdpt, pd, pt);
    ImageClosed(m, level, root, km, pdpt, pd, pt);
    ImageUnshared(m, level, root, km, pdpt, pd, pt);
    ImageReads(m, level, root, km, pdpt, pd, pt, root, 0);
  }

  // ---- what the image reads as ----

  /** The upper indices depend on the 2 MiB block alone. */
  lemma BlockIndices(va: nat)
    ensures var d := va / TWO_MIB; I2(va) == d % 512 && I3(va) == d / 512 % 512 && I4(va) == d / 512 / 512 % 512
  {
    var d, r := va / TWO_MIB, va % TWO_MIB;
    var e, j := d / 512, d % 512;
    Bits.RemainderUnique(va, 0x4000_0000, e, j * TWO_MIB + r);
    Bits.RemainderUnique(va, 0x80_0000_0000, e / 512, e % 512 * 0x4000_0000 + j * TWO_MIB + r);
  }

  lemma LeafIndex(d: nat, r: nat)
    requires r < TWO_MIB
    ensures (d * TWO_MIB + r) / 0x1000 == d * 512 + r / 0x1000 && (d * 512 + r / 0x1000) % 512 == r / 0x1000
    ensures (d * TWO_MIB + r) % 0x1000 == r % 0x1000
  {
    Bits.RemainderUnique(d * TWO_MIB + r, 0x1000, d * 512 + r / 0x1000, r % 0x1000);
    Bits.RemainderUnique(d * 512 + r / 0x1000, 512, d, r / 0x1000);
  }

  lemma InImage(vbase: nat, va: nat)
    requires vbase % TWO_MIB == 0 && vbase <= va < vbase + TWO_MIB
    ensures I4(va) == I4(vbase) && I3(va) == I3(vbase) && I2(va) == I2(vbase) && I1(va) == (va - vbase) / 0x1000
    ensures va == vbase + I1(va) * 0x1000 + va % 0x1000
  {
    hide I4; hide I3; hide I2;
    var d, r := vbase / TWO_MIB, va - vbase;
    Bits.RemainderUnique(va, TWO_MIB, d, r);
    BlockIndices(va);
    BlockIndices(vbase);
    LeafIndex(d, r);
  }

  function PageOf(km: KernelMap, va: nat): (v: nat)
    requires va >= km.vbase
  {
    km.vbase + (va - km.vbase) / 0x1000 * 0x1000
  }

  lemma ImagePhysical(km: KernelMap, va: nat, j: nat)
    requires Fits(km) && va >= km.vbase && j == (va - km.vbase) / 0x1000
    requires va == km.vbase + j * 0x1000 + va % 0x1000
    ensures Physical(Access(KernelLeaf(km.phys / 0x1000 + j, Ro), 1, false), va) == km.phys + (va - km.vbase)
    ensures PageOf(km, va) == km.vbase + j * 0x1000
  {
  }

  /** Each page of the image is mapped where the image was loaded and not for user mode: executable in the text
      section, else writable in the data section, else neither. The rest of its 2 MiB is unmapped. */
  lemma ImageIsMapped(m: Mem, level: map<nat, nat>, root: nat, km: KernelMap, pdpt: nat, pd: nat, pt: nat, va: nat)
    requires CanMapImage(m, level, root, km, pdpt, pd, pt) && km.vbase <= va < km.vbase + TWO_MIB
    ensures var n := MapImage(m, root, km, pdpt, pd, pt);
      if PageOf(km, va) < km.vend
      then var v := PageOf(km, va);
        && Translate(n, root, va) == Some(km.phys + (va - km.vbase)) && !UserReachable(n, root, va)
        && (km.text.0 <= v < km.text.1 ==> PageProt(n, root, va) == Some((false, true)))
        && (!(km.text.0 <= v < km.text.1) && km.data.0 <= v < km.data.1 ==>
              PageProt(n, root, va) == Some((true, false)))
        && (!(km.text.0 <= v < km.text.1) && !(km.data.0 <= v < km.data.1) ==>
              PageProt(n, root, va) == Some((false, false)))
      else Walk(n, root, va).None?
  {
    hide MapImage; hide I4; hide I3; hide I2; hide I1; hide Typed;
    InImage(km.vbase, va);
    var j := I1(va);
    ImagePhysical(km, va, j);
    ImageReads(m, level, root, km, pdpt, pd, pt, root, I4(va));
    ImageReads(m, level, root, km, pdpt, pd, pt, pdpt, I3(va));
    ImageReads(m, level, root, km, pdpt, pd, pt, pd, I2(va));
    ImageReads(m, level, root, km, pdpt, pd, pt, pt, j);
  }

  /** Nothing else below the image's root entry is mapped. */
  lemma ImageAlone(m: Mem, level: map<nat, nat>, root: nat, km: KernelMap, pdpt: nat, pd: nat, pt: nat, va: nat)
    requires CanMapImage(m, level, root, km, pdpt, pd, pt)
    requires I4(va) == I4(km.vbase) && (I3(va) != I3(km.vbase) || I2(va) != I2(km.vbase))
    ensures Walk(MapImage(m, root, km, pdpt, pd, pt), root, va).None?
  {
    hide MapImage; hide I4; hide I3; hide I2; hide I1; hide Typed; hide Fits; hide ImageLeaf;
    ImageReads(m, level, root, km, pdpt, pd, pt, root, I4(va));
    ImageReads(m, level, root, km, pdpt, pd, pt, pdpt, I3(va));
    ImageReads(m, level, root, km, pdpt, pd, pt, pd, I2(va));
  }

  /** Everything reached through other root entries is untouched. */
  lemma ImageIsLocal(m: Mem, level: map<nat, nat>, root: nat, km: KernelMap, pdpt: nat, pd: nat, pt: nat, va: nat)
    requires CanMapImage(m, level, root, km, pdpt, pd, pt) && I4(va) != I4(km.vbase)
    ensures Walk(MapImage(m, root, km, pdpt, pd, pt), root, va) == Walk(m, root, va)
  {
    hide MapImage; hide I4; hide I3; hide I2; hide I1; hide Fits; hide ImageLeaf;
    LeafTyped(m, level, root, I4(va), I3(va), I2(va));
    ImageReads(m, level, root, km, pdpt, pd, pt, root, I4(va));
    var e4 := Read(m, root, I4(va));
    if e4.present {
      ImageReads(m, level, root, km, pdpt, pd, pt, e4.addr, I3(va));
      var e3 := Read(m, e4.addr, I3(va));
      if IsSplit(e3) {
        ImageReads(m, level, root, km, pdpt, pd, pt, e3.addr, I2(va));
        var e2 := Read(m, e3.addr, I2(va));
        if IsSplit(e2) { ImageReads(m, level, root, km, pdpt, pd, pt, e2.addr, I1(va)); }
      }
    }
  }

  // ---- the whole of boot ----

  function FramesFor(gibs: nat): (n: nat) {
    2 * gibs + 6
  }

  function LowMem(fs: seq<nat>, gibs: nat, hhdm: nat): (m: Mem)
    requires |fs| == FramesFor(gibs)
  {
    MapLow(MapLow(EmptyRoot(fs[0]), fs[0], 0, fs[1], fs[2..2 + gibs]), fs[0], hhdm, fs[2 + gibs],
      fs[3 + gibs..3 + 2 * gibs])
  }

  function LowLevels(fs: seq<nat>, gibs: nat): (l: map<nat, nat>)
    requires |fs| == FramesFor(gibs)
  {
    LowLevel(LowLevel(map[fs[0] := 4], fs[1], fs[2..2 + gibs]), fs[2 + gibs], fs[3 + gibs..3 + 2 * gibs])
  }

  /** `build_address_space`: low memory at the bottom and at `hhdm`, then the image, over the frames the
      allocator hands out in turn. */
  function BootMem(fs: seq<nat>, gibs: nat, hhdm: nat, km: KernelMap): (m: Mem)
    requires |fs| == FramesFor(gibs)
  {
    MapImage(LowMem(fs, gibs, hhdm), fs[0], km, fs[3 + 2 * gibs], fs[4 + 2 * gibs], fs[5 + 2 * gibs])
  }

  function BootedWorld(fs: seq<nat>, gibs: nat, hhdm: nat, km: KernelMap): (w: World)
    requires |fs| == FramesFor(gibs)
  {
    var m := BootMem(fs, gibs, hhdm, km);
    World(m, ImageLevel(LowLevels(fs, gibs), fs[3 + 2 * gibs], fs[4 + 2 * gibs], fs[5 + 2 * gibs]), m.Keys, fs[0],
      map[])
  }

  /** Distinct frames, memory that reaches the process window, and three root entries apart. */
  ghost predicate CanBoot(fs: seq<nat>, gibs: nat, hhdm: nat, km: KernelMap) {
    && Distinct(fs) && |fs| == FramesFor(gibs) && 2 <= gibs <= 512 && 0 < hhdm < 512
    && Fits(km) && I4(km.vbase) != 0 && I4(km.vbase) != hhdm
  }

  lemma {:induction false} PartsOfFrames(fs: seq<nat>, gibs: nat)
    requires Distinct(fs) && |fs| == FramesFor(gibs)
    ensures var ps, qs := fs[2..2 + gibs], fs[3 + gibs..3 + 2 * gibs];
      && Distinct([fs[0], fs[1], fs[2 + gibs]] + ps + qs)
      && Frames(fs) ==
            {fs[0], fs[1], fs[2 + gibs]} + Frames(ps) + Frames(qs)
            + {fs[3 + 2 * gibs], fs[4 + 2 * gibs], fs[5 + 2 * gibs]}
      && forall i :: 3 + 2 * gibs <= i < |fs| ==> fs[i] !in {fs[0], fs[1], fs[2 + gibs]} + Frames(ps) + Frames(qs)
  {
    var ps, qs := fs[2..2 + gibs], fs[3 + gibs..3 + 2 * gibs];
    forall f | f in Frames(fs)
      ensures f in {fs[0], fs[1], fs[2 + gibs]} + Frames(ps) + Frames(qs)
        + {fs[3 + 2 * gibs], fs[4 + 2 * gibs], fs[5 + 2 * gibs]}
    {
      var i :| 0 <= i < |fs| && fs[i] == f;
      if 2 <= i < 2 + gibs { assert ps[i - 2] == f; }
      if 3 + gibs <= i < 3 + 2 * gibs { assert qs[i - 3 - gibs] == f; }
    }
  }

  lemma BootImageReady(fs: seq<nat>, gibs: nat, hhdm: nat, km: KernelMap)
    requires CanBoot(fs, gibs, hhdm, km)
    ensures CanMapImage(LowMem(fs, gibs, hhdm), LowLevels(fs, gibs), fs[0], km, fs[3 + 2 * gibs], fs[4 + 2 * gibs],
      fs[5 + 2 * gibs])
    ensures BootOk(LowMem(fs, gibs, hhdm), LowLevels(fs, gibs), fs[0]) && Pd(LowMem(fs, gibs, hhdm), fs[0], 0, 1).Some?
    ensures LowMem(fs, gibs, hhdm).Keys + {fs[3 + 2 * gibs], fs[4 + 2 * gibs], fs[5 + 2 * gibs]} == Frames(fs)
  {
    hide MapLow; hide LowLevel; hide I4; hide I3; hide I2; hide Pd; hide Fits; hide CanMapLow; hide Frames;
    hide Typed; hide Unshared; hide Closed; hide Supervisor;
    PartsOfFrames(fs, gibs);
    LowBoot(fs[0], hhdm, fs[1], fs[2..2 + gibs], fs[2 + gibs], fs[3 + gibs..3 + 2 * gibs]);
  }

  /** Boot takes exactly its frames for tables and leaves a system in order: every history from it is
      covered by the laws of such systems. */
  lemma BootEstablishes(fs: seq<nat>, gibs: nat, hhdm: nat, km: KernelMap, avail: set<nat>)
    requires CanBoot(fs, gibs, hhdm, km) && avail !! Frames(fs)
    ensures SystemOk(System(BootedWorld(fs, gibs, hhdm, km), avail))
    ensures BootMem(fs, gibs, hhdm, km).Keys == Frames(fs)
  {
    hide LowMem; hide LowLevels; hide MapImage; hide ImageLevel; hide I4; hide I3; hide I2; hide Pd; hide Fits;
    hide CanMapImage;
    hide Typed; hide Unshared; hide Closed; hide Supervisor; hide Frames; hide WorldOk;
    var m, l := LowMem(fs, gibs, hhdm), LowLevels(fs, gibs);
    var a, b, c := fs[3 + 2 * gibs], fs[4 + 2 * gibs], fs[5 + 2 * gibs];
    BootImageReady(fs, gibs, hhdm, km);
    ImageStep(m, l, fs[0], km, a, b, c);
    ImagePaths(m, l, fs[0], km, a, b, c, 0, 1, 0);
    BootWorld(MapImage(m, fs[0], km, a, b, c), ImageLevel(l, a, b, c), fs[0]);
  }

  /** Low memory in both windows after boot. */
  lemma BootLow(fs: seq<nat>, gibs: nat, hhdm: nat, km: KernelMap, va: nat)
    requires CanBoot(fs, gibs, hhdm, km) && I4(va) != I4(km.vbase)
    ensures var n, off := BootMem(fs, gibs, hhdm, km), va % 0x80_0000_0000;
      if (I4(va) == 0 || I4(va) == hhdm) && off < gibs * 0x4000_0000
      then Translate(n, fs[0], va) == Some(off) && PageProt(n, fs[0], va) == Some((true, false))
        && !UserReachable(n, fs[0], va)
      else Walk(n, fs[0], va).None?
  {
    hide MapLow; hide LowLevel; hide I4; hide I3; hide I2; hide I1; hide CanMapLow; hide MapImage; hide CanMapImage;
    hide Fits; hide BootOk; hide Walk; hide Frames;
    var root, p, ps, q, qs := fs[0], fs[1], fs[2..2 + gibs], fs[2 + gibs], fs[3 + gibs..3 + 2 * gibs];
    var m0, l0 := EmptyRoot(root), map[root := 4];
    var m1, l1 := MapLow(m0, root, 0, p, ps), LowLevel(l0, p, ps);
    PartsOfFrames(fs, gibs);
    LowBoot(root, hhdm, p, ps, q, qs);
    BootImageReady(fs, gibs, hhdm, km);
    ImageIsLocal(LowMem(fs, gibs, hhdm), LowLevels(fs, gibs), root, km, fs[3 + 2 * gibs], fs[4 + 2 * gibs],
      fs[5 + 2 * gibs], va);
    if I4(va) == hhdm {
      LowIsLinear(m1, l1, root, hhdm, q, qs, va);
    } else {
      LowIsLocal(m1, l1, root, hhdm, q, qs, va);
      if I4(va) == 0 {
        LowIsLinear(m0, l0, root, 0, p, ps, va);
      } else {
        LowIsLocal(m0, l0, root, 0, p, ps, va);
        EmptyWalk(root, va);
      }
    }
  }

  lemma EmptyWalk(root: nat, va: nat)
    ensures Walk(EmptyRoot(root), root, va).None?
  {
  }

  /** After boot no address is both writable and executable, and none is open to user mode. */
  lemma BootWriteXorExecute(fs: seq<nat>, gibs: nat, hhdm: nat, km: KernelMap, va: nat)
    requires CanBoot(fs, gibs, hhdm, km)
    ensures var n := BootMem(fs, gibs, hhdm, km);
      PageProt(n, fs[0], va) != Some((true, true)) && !UserReachable(n, fs[0], va)
  {
    hide MapImage; hide LowMem; hide LowLevels; hide I4; hide I3; hide I2; hide Typed; hide Fits; hide BootOk;
    hide Unshared; hide Frames;
    var m, l := LowMem(fs, gibs, hhdm), LowLevels(fs, gibs);
    var a, b, c := fs[3 + 2 * gibs], fs[4 + 2 * gibs], fs[5 + 2 * gibs];
    BootImageReady(fs, gibs, hhdm, km);
    if I4(va) != I4(km.vbase) {
      BootLow(fs, gibs, hhdm, km, va);
    } else if I3(va) != I3(km.vbase) || I2(va) != I2(km.vbase) {
      ImageAlone(m, l, fs[0], km, a, b, c, va);
    } else {
      ImageReads(m, l, fs[0], km, a, b, c, fs[0], I4(va));
      ImageReads(m, l, fs[0], km, a, b, c, a, I3(va));
      ImageReads(m, l, fs[0], km, a, b, c, b, I2(va));
      ImageReads(m, l, fs[0], km, a, b, c, c, I1(va));
    }
  }
}

/** What a loaded process finds in memory: the bytes of its image, at the addresses it asked for. */
module LoadedMemory {
  import opened LittleEndian
  import opened LoaderProofs
  import opened LoaderSpec
  import opened Options
  import opened SpaceMap
  import opened SpaceRuns
  import CSpaceSpec
  import PageTables
  import Pex
  import PexLayout
  import ProcessSpaces

  // ---- memory as the loader's effects leave it ----

  /** What physical memory holds before the load: any bytes at all. */
  type Memory = (nat, nat) -> byte

  predicate Within(f: Effect, pfn: nat) {
    !f.MapAt? && f.pfn <= pfn < f.pfn + f.pages
  }

  /** Byte `o` of a frame after the effects, over what it held before them. */
  function PhysByte(init: Memory, e: seq<Effect>, pfn: nat, o: nat): (b: byte) {
    if e == [] then init(pfn, o)
    else
      var f := e[|e| - 1];
      if f.ZeroAt? && Within(f, pfn) then 0
      else if f.CopyTo? && Within(f, pfn) && (pfn - f.pfn) * PAGE + o < |f.data| then f.data[(pfn - f.pfn) * PAGE + o]
      else PhysByte(init, e[..|e| - 1], pfn, o)
  }

  predicate Maps1(f: Effect, va: nat) {
    f.MapAt? && f.va / PAGE == va / PAGE
  }

  /** The last mapping of the page that holds `va`. */
  function LastMap(e: seq<Effect>, va: nat): (r: Option<Effect>)
    ensures r.Some? ==> r.value.MapAt?
  {
    if e == [] then None
    else if Maps1(e[|e| - 1], va) then Some(e[|e| - 1])
    else LastMap(e[..|e| - 1], va)
  }

  /** The byte read at a virtual address. */
  function ByteAt(init: Memory, e: seq<Effect>, va: nat): (b: Option<byte>) {
    var m := LastMap(e, va);
    if m.None? then None else Some(PhysByte(init, e, m.value.pfn, va % PAGE))
  }

  // ---- effects that do not matter ----

  ghost predicate WritesMiss(e: seq<Effect>, pfn: nat) {
    forall i :: 0 <= i < |e| ==> !Within(e[i], pfn)
  }

  ghost predicate MapsMiss(e: seq<Effect>, va: nat) {
    forall i :: 0 <= i < |e| ==> !Maps1(e[i], va)
  }

  lemma {:induction false} WritesElsewhere(init: Memory, e: seq<Effect>, t: seq<Effect>, pfn: nat, o: nat)
    requires WritesMiss(t, pfn)
    ensures PhysByte(init, e + t, pfn, o) == PhysByte(init, e, pfn, o)
  {
    if t == [] {
      assert e + t == e;
    } else {
      assert (e + t)[..|e + t| - 1] == e + t[..|t| - 1];
      assert (e + t)[|e + t| - 1] == t[|t| - 1];
      WritesElsewhere(init, e, t[..|t| - 1], pfn, o);
    }
  }

  lemma {:induction false} MapsElsewhere(e: seq<Effect>, t: seq<Effect>, va: nat)
    requires MapsMiss(t, va)
    ensures LastMap(e + t, va) == LastMap(e, va)
  {
    if t == [] {
      assert e + t == e;
    } else {
      assert (e + t)[..|e + t| - 1] == e + t[..|t| - 1];
      assert (e + t)[|e + t| - 1] == t[|t| - 1];
      MapsElsewhere(e, t[..|t| - 1], va);
    }
  }

  lemma LastMapIs(e: seq<Effect>, k: nat, va: nat)
    requires k < |e| && Maps1(e[k], va) && MapsMiss(e[k + 1..], va)
    ensures LastMap(e, va) == Some(e[k])
  {
    assert e == e[..k + 1] + e[k + 1..];
    MapsElsewhere(e[..k + 1], e[k + 1..], va);
    assert e[..k + 1][|e[..k + 1]| - 1] == e[k];
  }

  // ---- one segment ----

  /** What byte `x` of a segment should read as. */
  function Expected(data: seq<byte>, x: nat): (b: byte) {
    if x < |data| then data[x] else 0
  }

  lemma PageOf(va: nat, x: nat)
    requires va % PAGE == 0
    ensures (va + x) / PAGE == va / PAGE + x / PAGE && (va + x) % PAGE == x % PAGE
  {
  }

  /** The page of the segment that holds byte `x` is mapped to the frame that was filled for it. */
  lemma SegmentMaps(e: seq<Effect>, s: Pex.Segment, data: seq<byte>, pfn: nat, x: nat)
    requires s.vaddr % PAGE == 0 && s.memSize % PAGE == 0 && x < s.memSize
    ensures LastMap(e + SegmentAsks(s, data, pfn), s.vaddr + x)
         == Some(MapAt(s.vaddr + x / PAGE * PAGE, pfn + x / PAGE, PermToProt(s.perm)))
  {
    hide PermToProt;
    var va, k, t := s.vaddr + x, x / PAGE, SegmentAsks(s, data, pfn);
    PageOf(s.vaddr, x);
    PageOf(s.vaddr, k * PAGE);
    assert t[2 + k] == MapAt(s.vaddr + k * PAGE, pfn + k, PermToProt(s.perm));
    var rest := t[2 + k + 1..];
    forall i | 0 <= i < |rest|
      ensures !Maps1(rest[i], va)
    {
      assert rest[i] == t[k + 3 + i];
      PageOf(s.vaddr, (k + 1 + i) * PAGE);
    }
    LastMapIs(t, 2 + k, va);
    WithTail(e, t, va);
  }

  lemma {:induction false} WithTail(e: seq<Effect>, t: seq<Effect>, va: nat)
    requires LastMap(t, va).Some?
    ensures LastMap(e + t, va) == LastMap(t, va)
  {
    assert (e + t)[..|e + t| - 1] == e + t[..|t| - 1];
    assert (e + t)[|e + t| - 1] == t[|t| - 1];
    if !Maps1(t[|t| - 1], va) { WithTail(e, t[..|t| - 1], va); }
  }

  /** Zeroed and then filled, a frame holds the copied bytes and zero after them, whatever it held before. */
  lemma ZeroedThenFilled(init: Memory, e: seq<Effect>, z: Effect, c: Effect, p: nat, o: nat)
    requires z.ZeroAt? && c.CopyTo? && Within(z, p) && Within(c, p)
    ensures PhysByte(init, e + [z, c], p, o) == Expected(c.data, (p - c.pfn) * PAGE + o)
  {
    assert (e + [z, c])[..|e| + 1] == e + [z];
    assert (e + [z])[|e|] == z;
  }

  lemma MapsWriteNothing(va: nat, pfn: nat, prot: Prot, pages: nat, p: nat)
    ensures WritesMiss(Maps(va, pfn, prot, pages), p)
  {
  }

  /** The frames of a segment hold its bytes, and zero after them. */
  lemma SegmentFills(init: Memory, e: seq<Effect>, s: Pex.Segment, data: seq<byte>, pfn: nat, k: nat, o: nat)
    requires k < s.memSize / PAGE
    ensures PhysByte(init, e + SegmentAsks(s, data, pfn), pfn + k, o) == Expected(data, k * PAGE + o)
  {
    hide PermToProt;
    hide PhysByte;
    hide Expected;
    hide Maps;
    hide WritesMiss;
    var pages := s.memSize / PAGE;
    var z, c, m := ZeroAt(pfn, pages), CopyTo(pfn, pages, data), Maps(s.vaddr, pfn, PermToProt(s.perm), pages);
    assert e + SegmentAsks(s, data, pfn) == (e + [z, c]) + m;
    ZeroedThenFilled(init, e, z, c, pfn + k, o);
    MapsWriteNothing(s.vaddr, pfn, PermToProt(s.perm), pages, pfn + k);
    WritesElsewhere(init, e + [z, c], m, pfn + k, o);
  }

  // ---- the whole image ----

  /** Nothing the later segments ask for reaches the page of `va` or a frame below their mark. */
  ghost predicate NotCovered(img: Pex.Image, i: nat, va: nat) {
    forall j: nat :: i <= j < img.h.segCount ==> var s := SegmentOf(img, j);
      !(s.vaddr / PAGE <= va / PAGE < s.vaddr / PAGE + s.memSize / PAGE)
  }

  lemma AsksMiss(s: Pex.Segment, data: seq<byte>, mark: nat, va: nat, pfn: nat)
    requires s.vaddr % PAGE == 0 && pfn < mark
    requires !(s.vaddr / PAGE <= va / PAGE < s.vaddr / PAGE + s.memSize / PAGE)
    ensures MapsMiss(SegmentAsks(s, data, mark), va) && WritesMiss(SegmentAsks(s, data, mark), pfn)
  {
    hide PermToProt;
    var t := SegmentAsks(s, data, mark);
    forall i | 0 <= i < |t|
      ensures !Maps1(t[i], va)
    {
      if i > 1 { PageOf(s.vaddr, (i - 2) * PAGE); }
    }
  }

  ghost predicate Aligned(img: Pex.Image) {
    forall j: nat :: j < img.h.segCount ==> SegmentOf(img, j).vaddr % PAGE == 0 && SegmentOf(img, j).memSize % PAGE == 0
  }

  /** Loading the segments from `i` on leaves what a page they do not cover reads as. */
  lemma {:induction false} LaterSegments(init: Memory, img: Pex.Image, l: Load, i: nat, va: nat, pfn: nat, o: nat)
    requires UntypedOk(l.loader) && pfn < Mark(l.loader) && NotCovered(img, i, va) && Aligned(img)
    requires LoadSegments(img, l, i).Done?
    ensures var e := LoadSegments(img, l, i).load.effects;
      LastMap(e, va) == LastMap(l.effects, va) && PhysByte(init, e, pfn, o) == PhysByte(init, l.effects, pfn, o)
    decreases img.h.segCount - i
  {
    hide LoadSegment;
    hide SegmentOf;
    hide DataOf;
    hide SegmentAsks;
    hide Mark;
    hide LastMap;
    hide PhysByte;
    if i < img.h.segCount {
      var s, data := SegmentOf(img, i), DataOf(img, i);
      SegmentAdds(s, data, l);
      var r := LoadSegment(s, data, l).load;
      AsksMiss(s, data, Mark(l.loader), va, pfn);
      MapsElsewhere(l.effects, SegmentAsks(s, data, Mark(l.loader)), va);
      WritesElsewhere(init, l.effects, SegmentAsks(s, data, Mark(l.loader)), pfn, o);
      LaterSegments(init, img, r, i + 1, va, pfn, o);
    }
  }

  /** From segment `i` on: byte `x` of segment `k` reads as the image says, if no later segment covers its page. */
  lemma {:induction false} SegmentReads(init: Memory, img: Pex.Image, l: Load, i: nat, k: nat, x: nat, lo: nat, hi: nat)
    requires EffectsOk(l, lo, hi) && Accepted(img) && LoadSegments(img, l, i).Done?
    requires i <= k < img.h.segCount && x < SegmentOf(img, k).memSize
    requires NotCovered(img, k + 1, SegmentOf(img, k).vaddr + x)
    ensures ByteAt(init, LoadSegments(img, l, i).load.effects, SegmentOf(img, k).vaddr + x) ==
      Some(Expected(DataOf(img, k), x))
    ensures var m := LastMap(LoadSegments(img, l, i).load.effects, SegmentOf(img, k).vaddr + x);
      m.Some? && m.value.prot == PermToProt(SegmentOf(img, k).perm)
    decreases img.h.segCount - i
  {
    hide LoadSegment;
    hide SegmentOf;
    hide DataOf;
    hide EffectsOk;
    hide NotCovered;
    hide PhysByte;
    hide LastMap;
    hide SegmentAsks;
    hide Mark;
    hide PermToProt;
    hide Pex.SegmentOk;
    var s, data := SegmentOf(img, i), DataOf(img, i);
    var r := LoadSegment(s, data, l).load;
    SegmentEffects(s, data, l, lo, hi, |img.bytes|);
    if i < k {
      SegmentReads(init, img, r, i + 1, k, x, lo, hi);
    } else {
      ThisSegment(init, img, l, i, x, lo, hi);
    }
  }

  ghost predicate Accepted(img: Pex.Image) {
    forall k: nat :: k < img.h.segCount ==>
      Pex.SegmentOk(|img.bytes|, SegmentOf(img, k)) && |DataOf(img, k)| == SegmentOf(img, k).fileSize
  }

  lemma AcceptedAligned(img: Pex.Image)
    requires Accepted(img)
    ensures Aligned(img)
  {
    hide SegmentOf;
    hide DataOf;
  }

  lemma MarkOf(l: Load, lo: nat, hi: nat)
    requires EffectsOk(l, lo, hi)
    ensures UntypedOk(l.loader)
  {
  }

  lemma ThisSegment(init: Memory, img: Pex.Image, l: Load, i: nat, x: nat, lo: nat, hi: nat)
    requires EffectsOk(l, lo, hi) && Accepted(img) && LoadSegments(img, l, i).Done?
    requires i < img.h.segCount && x < SegmentOf(img, i).memSize && NotCovered(img, i + 1, SegmentOf(img, i).vaddr + x)
    ensures ByteAt(init, LoadSegments(img, l, i).load.effects, SegmentOf(img, i).vaddr + x) ==
      Some(Expected(DataOf(img, i), x))
    ensures var m := LastMap(LoadSegments(img, l, i).load.effects, SegmentOf(img, i).vaddr + x);
      m.Some? && m.value.prot == PermToProt(SegmentOf(img, i).perm)
  {
    hide LoadSegment;
    hide SegmentOf;
    hide DataOf;
    hide EffectsOk;
    hide NotCovered;
    hide PhysByte;
    hide LastMap;
    hide SegmentAsks;
    hide Mark;
    hide PermToProt;
    var s, data := SegmentOf(img, i), DataOf(img, i);
    var r := LoadSegment(s, data, l).load;
    AcceptedAligned(img);
    MarkOf(l, lo, hi);
    SegmentAdds(s, data, l);
    var pfn, k, o := Mark(l.loader), x / PAGE, x % PAGE;
    SegmentMaps(l.effects, s, data, pfn, x);
    assert k < s.memSize / PAGE;
    SegmentFills(init, l.effects, s, data, pfn, k, o);
    LaterSegments(init, img, r, i + 1, s.vaddr + x, pfn + k, o);
    PageOf(s.vaddr, x);
    var f := MapAt(s.vaddr + x / PAGE * PAGE, pfn + x / PAGE, PermToProt(s.perm));
    assert LastMap(LoadSegments(img, l, i).load.effects, s.vaddr + x) == Some(f);
  }

  /** Bit 1 of a segment's permission byte asks for writing. */
  predicate AsksWrite(img: Pex.Image, k: nat) {
    SegmentOf(img, k).perm / 2 % 2 == 1
  }

  /** Bit 2 asks for executing. */
  predicate AsksExecute(img: Pex.Image, k: nat) {
    SegmentOf(img, k).perm / 4 % 2 == 1
  }

  /** Byte `x` of segment `k` reads as the image's byte, or zero past the file's bytes, on a page that is writable
      and executable exactly as the segment asked. */
  predicate ReadsAs(init: Memory, e: seq<Effect>, img: Pex.Image, k: nat, x: nat) {
    var va := SegmentOf(img, k).vaddr + x;
    && ByteAt(init, e, va) == Some(Expected(DataOf(img, k), x)) && LastMap(e, va).Some?
    && (LastMap(e, va).value.prot.Rw? <==> AsksWrite(img, k))
    && (LastMap(e, va).value.prot.Rx? <==> AsksExecute(img, k))
  }

  /** An accepted segment does not ask for both, so its page gets what it asks for. */
  lemma ProtectionAsked(img: Pex.Image, k: nat)
    requires Accepted(img) && k < img.h.segCount
    ensures var p := PermToProt(SegmentOf(img, k).perm);
      (p.Rw? <==> AsksWrite(img, k)) && (p.Rx? <==> AsksExecute(img, k))
  {
    hide SegmentOf; hide DataOf;
    assert Pex.SegmentOk(|img.bytes|, SegmentOf(img, k));
  }

  /** Segment `k` has a byte `x`, and no later segment covers its page. */
  ghost predicate Uncovered(img: Pex.Image, k: nat, x: nat) {
    k < img.h.segCount && x < SegmentOf(img, k).memSize && NotCovered(img, k + 1, SegmentOf(img, k).vaddr + x)
  }

  /** After a load every byte of every segment reads as the image says, whatever was in memory before,
      unless a later segment covers its page. */
  lemma LoadedBytes(init: Memory, bytes: seq<byte>, arch: nat, img: Pex.Image,
                    loader: CSpaceSpec.CS, proc: CSpaceSpec.CS, scratch: nat, k: nat, x: nat)
    requires UntypedOk(loader) && LoadImage(bytes, arch, loader, proc, scratch).Done?
    requires Pex.Parse(bytes, arch) == Pex.Ok(img) && Uncovered(img, k, x)
    ensures ReadsAs(init, LoadImage(bytes, arch, loader, proc, scratch).load.effects, img, k, x)
  {
    hide LoadSegments;
    hide LoadManifest;
    hide Pex.Parse;
    hide LastMap;
    hide ByteAt;
    hide SegmentOf;
    hide DataOf;
    hide NotCovered;
    hide Mark;
    hide PermToProt;
    hide AsksWrite;
    hide AsksExecute;
    var l := Load(loader, proc, scratch, [], [], 0);
    AcceptedSegments(bytes, arch);
    ProtectionAsked(img, k);
    SegmentReads(init, img, l, 0, k, x, Mark(loader), UntypedEnd(loader));
    ManifestEffects(img, LoadSegments(img, l, 0).load, 0);
  }

  /** What was encoded is what is read: an encoded image's segments, with the bytes they were given. */
  lemma EncodedData(arch: Pex.u16, entry: Pex.u64, segs: seq<PexLayout.SegmentSpec>, man: seq<PexLayout.ManifestSpec>,
                    img: Pex.Image, k: nat)
    requires PexLayout.Encodable(segs, man) && PexLayout.ValidInput(entry, segs) && k < |segs|
    requires Pex.Parse(PexLayout.Encoded(arch, entry, segs, man), arch) == Pex.Ok(img)
    ensures k < img.h.segCount && DataOf(img, k) == segs[k].data
    ensures var s := SegmentOf(img, k);
      s.vaddr == segs[k].vaddr && s.memSize == segs[k].memSize && s.perm == segs[k].perm
  {
    hide Pex.Parse;
    hide Pex.SegmentRaw;
    hide Pex.ManifestRaw;
    hide PexLayout.Encoded;
    hide PexLayout.ValidInput;
    PexLayout.RoundTrip(arch, entry, segs, man);
  }

  // ---- through the page tables ----

  /** The loader's mappings as edits of process space `r`: one event per page, each with a frame it may
      need for a split. */
  function MapEvents(e: seq<Effect>, r: nat, spares: seq<nat>, pkey: nat): (es: seq<Event>)
    requires |spares| == |e|
  {
    if e == [] then []
    else
      var n := |e| - 1;
      MapEvents(e[..n], r, spares[..n], pkey)
      + if e[n].MapAt? then [Map(r, e[n].va, spares[n], UserLeaf(e[n].pfn, e[n].prot, pkey))] else []
  }

  lemma {:induction false} LatestAppend(es: seq<Event>, x: Event, r: nat, start: map<(nat, nat), PageTables.Entry>)
    ensures Latest(es + [x], r, start) == PlacedNext(x, r, Latest(es, r, start))
    decreases |es|
  {
    if es == [] {
      assert es + [x] == [x] && [x][1..] == [];
    } else {
      assert (es + [x])[1..] == es[1..] + [x];
      LatestAppend(es[1..], x, r, PlacedNext(es[0], r, start));
    }
  }

  /** Inside the window the directory and leaf index tell pages apart. */
  lemma PageIndex(a: nat, b: nat)
    requires PROC_VA_BASE <= a < PROC_VA_END && PROC_VA_BASE <= b < PROC_VA_END
    ensures (PageTables.I2(a) == PageTables.I2(b) && PageTables.I1(a) == PageTables.I1(b)) <==> a / PAGE == b / PAGE
  {
    PageNumber(a);
    PageNumber(b);
  }

  lemma PageNumber(a: nat)
    requires PROC_VA_BASE <= a < PROC_VA_END
    ensures a / PAGE == 512 * 512 + 512 * PageTables.I2(a) + PageTables.I1(a)
  {
    var d, p := a / 0x20_0000, a / 0x1000;
    assert p / 512 == d;
    assert 512 <= d < 1024;
    assert d % 512 == d - 512;
  }

  ghost predicate AllConfined(e: seq<Effect>) {
    forall i :: 0 <= i < |e| ==> Confined(e[i])
  }

  /** The page placed last at an address is the one mapped last there. */
  lemma {:induction false} LatestIsLastMap(e: seq<Effect>, r: nat, spares: seq<nat>, pkey: nat, va: nat)
    requires |spares| == |e| && AllConfined(e) && PROC_VA_BASE <= va < PROC_VA_END
    ensures var p, i, m := Latest(MapEvents(e, r, spares, pkey), r, map[]), (PageTables.I2(va), PageTables.I1(va)),
      LastMap(e, va);
      && (i in p <==> m.Some?)
      && (m.Some? ==> p[i] == UserLeaf(m.value.pfn, m.value.prot, pkey))
  {
    hide PageTables.I2;
    hide PageTables.I1;
    if e != [] {
      var n := |e| - 1;
      LatestIsLastMap(e[..n], r, spares[..n], pkey, va);
      var es := MapEvents(e[..n], r, spares[..n], pkey);
      if e[n].MapAt? {
        assert Confined(e[n]);
        PageIndex(e[n].va, va);
        LatestAppend(es, Map(r, e[n].va, spares[n], UserLeaf(e[n].pfn, e[n].prot, pkey)), r, map[]);
      } else {
        assert es + [] == es;
      }
    }
  }

  /** The event is of the space rooted at `r`: it makes it, maps in it or reaps it. */
  predicate Concerns(e: Event, r: nat) {
    match e
    case Spawn(fs) => |fs| > 0 && fs[0] == r
    case Map(q, _, _, _) => q == r
    case Reap(q, _) => q == r
    case Kernel(_, _, _) => false
  }

  /** The events of one space, in order, out of a history of all of them. */
  function Own(es: seq<Event>, r: nat): (f: seq<Event>)
    decreases |es|
  {
    if es == [] then [] else (if Concerns(es[0], r) then [es[0]] else []) + Own(es[1..], r)
  }

  lemma OthersPlaceNothing(e: Event, r: nat, start: map<(nat, nat), PageTables.Entry>)
    requires !Concerns(e, r)
    ensures PlacedNext(e, r, start) == start
  {
  }

  lemma {:induction false} LatestOfOwn(es: seq<Event>, r: nat, start: map<(nat, nat), PageTables.Entry>)
    ensures Latest(es, r, start) == Latest(Own(es, r), r, start)
    decreases |es|
  {
    hide Concerns; hide PlacedNext;
    if es != [] {
      var rest := Own(es[1..], r);
      LatestOfOwn(es[1..], r, PlacedNext(es[0], r, start));
      if Concerns(es[0], r) {
        assert Own(es, r) == [es[0]] + rest && ([es[0]] + rest)[1..] == rest;
      } else {
        OthersPlaceNothing(es[0], r, start);
        assert Own(es, r) == [] + rest == rest;
      }
    }
  }

  predicate AllMaps(es: seq<Event>) {
    forall i :: 0 <= i < |es| ==> es[i].Map?
  }

  lemma {:induction false} MapEventsAre(e: seq<Effect>, r: nat, spares: seq<nat>, pkey: nat)
    requires |spares| == |e|
    ensures AllMaps(MapEvents(e, r, spares, pkey))
  {
    if e != [] { MapEventsAre(e[..|e| - 1], r, spares[..|e| - 1], pkey); }
  }

  lemma StepRemains(s: System, e: Event, r: nat)
    requires SystemOk(s) && Legal(s, e) && r in s.w.spaces && (Concerns(e, r) ==> e.Map?)
    ensures r in Step(s, e).w.spaces
  {
    hide SystemOk;
  }

  lemma {:induction false} SpaceRemains(s: System, es: seq<Event>, r: nat)
    requires SystemOk(s) && LegalRun(s, es) && AllMaps(Own(es, r)) && r in s.w.spaces
    ensures r in Run(s, es).w.spaces
    decreases |es|
  {
    hide SystemOk; hide Step; hide Legal; hide Concerns;
    if es != [] {
      StepKeeps(s, es[0]);
      var own, rest := Own(es, r), Own(es[1..], r);
      assert forall i :: 0 <= i < |rest| ==> rest[i] == own[|own| - |rest| + i];
      if Concerns(es[0], r) { assert own[0] == es[0]; }
      StepRemains(s, es[0], r);
      SpaceRemains(Step(s, es[0]), es[1..], r);
    }
  }

  /** A space made by the first event holds what its own events placed since, whatever else goes on. */
  lemma SpawnThenMaps(s: System, fs: seq<nat>, es: seq<Event>)
    requires SystemOk(s) && |fs| > 0 && AllMaps(Own(es, fs[0])) && LegalRun(s, [Spawn(fs)] + es)
    ensures Latest([Spawn(fs)] + es, fs[0], PlacedIn(s.w, fs[0])) == Latest(Own(es, fs[0]), fs[0], map[])
    ensures fs[0] in Run(s, [Spawn(fs)] + es).w.spaces
  {
    hide SystemOk; hide LoadImage;
    assert ([Spawn(fs)] + es)[1..] == es;
    StepKeeps(s, Spawn(fs));
    SpaceRemains(Step(s, Spawn(fs)), es, fs[0]);
    LatestOfOwn(es, fs[0], map[]);
  }

  /** In the space rooted at `r` the byte is reached in user mode, on a page writable and executable exactly as the
      segment asked and tagged with the process's protection key; and the frame it translates to, no page table
      of anyone, holds the image's byte, or zero past the file's bytes. */
  ghost predicate UserReads(init: Memory, m: PageTables.Mem, r: nat, pkey: nat, e: seq<Effect>, img: Pex.Image,
                            k: nat, x: nat) {
    var va := SegmentOf(img, k).vaddr + x;
    && PageTables.UserReachable(m, r, va) && PageTables.Walk(m, r, va).value.leaf.rest == pkey
    && PageTables.PageProt(m, r, va) == Some((AsksWrite(img, k), AsksExecute(img, k)))
    && exists pfn: nat ::
         && PageTables.Translate(m, r, va) == Some(pfn * 0x1000 + va % 0x1000)
         && pfn !in m && PhysByte(init, e, pfn, va % PAGE) == Expected(DataOf(img, k), x)
  }

  lemma ReadsThrough(init: Memory, m: PageTables.Mem, r: nat, pkey: nat, e: seq<Effect>, img: Pex.Image, k: nat, x: nat,
                     leaf: PageTables.Entry)
    requires ReadsAs(init, e, img, k, x)
    requires var va := SegmentOf(img, k).vaddr + x; var f := LastMap(e, va).value;
      && leaf == UserLeaf(f.pfn, f.prot, pkey) && f.pfn !in m
      && PageTables.UserReachable(m, r, va) && PageTables.Walk(m, r, va) == Some(PageTables.Access(leaf, 1, true))
    ensures UserReads(init, m, r, pkey, e, img, k, x)
  {
    hide PageTables.Walk;
    hide SegmentOf;
    hide DataOf;
    hide LastMap;
    hide PhysByte;
    hide AsksWrite;
    hide AsksExecute;
    hide Expected;
    var va := SegmentOf(img, k).vaddr + x;
    assert PageTables.Translate(m, r, va) == Some(LastMap(e, va).value.pfn * 0x1000 + va % 0x1000);
  }

  lemma {:induction false} LastMapFrame(e: seq<Effect>, va: nat, lo: nat, hi: nat)
    requires LastMap(e, va).Some? && forall i :: 0 <= i < |e| ==> FrameBetween(e[i], lo, hi)
    ensures lo <= LastMap(e, va).value.pfn < hi
  {
    var n := |e| - 1;
    assert FrameBetween(e[n], lo, hi);
    if !Maps1(e[n], va) { LastMapFrame(e[..n], va, lo, hi); }
  }

  /** The rest of the loader's Untyped is neither a page table, nor free for one, nor handed back over the history. */
  ghost predicate SetAside(s: System, es: seq<Event>, loader: CSpaceSpec.CS)
    requires UntypedOk(loader) && SystemOk(s) && LegalRun(s, es)
  {
    forall f: nat :: Mark(loader) <= f < UntypedEnd(loader) ==> f !in s.avail + s.w.mem.Keys + ReturnedOver(s, es)
  }

  lemma NeverATable(s: System, es: seq<Event>, loader: CSpaceSpec.CS, f: nat)
    requires UntypedOk(loader) && SystemOk(s) && LegalRun(s, es) && SetAside(s, es, loader)
    requires Mark(loader) <= f < UntypedEnd(loader)
    ensures f !in Run(s, es).w.mem
  {
    hide SystemOk; hide LegalRun; hide Run; hide ReturnedOver; hide Mark; hide UntypedEnd;
    RunKeeps(s, es);
    assert f !in Run(s, es).avail + Run(s, es).w.mem.Keys;
  }

  /** The events map pages, none of them the page of `va`. */
  predicate MapsOtherPages(es: seq<Event>, va: nat) {
    AllMaps(es) && forall i :: 0 <= i < |es| ==> PageKey(es[i].va) != PageKey(va)
  }

  function PageKey(va: nat): (k: (nat, nat)) {
    (PageTables.I2(va), PageTables.I1(va))
  }

  lemma AllMapsAppend(es: seq<Event>, rest: seq<Event>, va: nat)
    requires AllMaps(es) && MapsOtherPages(rest, va)
    ensures AllMaps(es + rest)
  {
  }

  /** Later maps of other pages leave the page placed at `va`. */
  lemma {:induction false} LatestElsewhere(es: seq<Event>, rest: seq<Event>, r: nat, va: nat)
    requires MapsOtherPages(rest, va)
    ensures var p, q := Latest(es, r, map[]), Latest(es + rest, r, map[]);
      && (PageKey(va) in q <==> PageKey(va) in p) && (PageKey(va) in p ==> q[PageKey(va)] == p[PageKey(va)])
    decreases |rest|
  {
    hide PageTables.I2; hide PageTables.I1; hide Latest;
    if rest == [] {
      assert es + rest == es;
    } else {
      var n := |rest| - 1;
      LatestElsewhere(es, rest[..n], r, va);
      assert es + rest == (es + rest[..n]) + [rest[n]];
      LatestAppend(es + rest[..n], rest[n], r, map[]);
    }
  }

  /** End to end: in any system, once a process space is made and, among whatever happens elsewhere, a load's
      pages are mapped into it, and then perhaps its stack and other pages that do not replace this one, the
      process reads its image. */
  lemma ProcessReadsItsImage(init: Memory, s: System, fs: seq<nat>, es: seq<Event>, spares: seq<nat>, pkey: nat,
                             rest: seq<Event>, bytes: seq<byte>, arch: nat, img: Pex.Image,
                             loader: CSpaceSpec.CS, proc: CSpaceSpec.CS, scratch: nat, k: nat, x: nat)
    requires UntypedOk(loader) && LoadImage(bytes, arch, loader, proc, scratch).Done?
    requires Pex.Parse(bytes, arch) == Pex.Ok(img) && Uncovered(img, k, x)
    requires SystemOk(s) && |fs| > 0 && LegalRun(s, [Spawn(fs)] + es) && SetAside(s, [Spawn(fs)] + es, loader)
    requires var e := LoadImage(bytes, arch, loader, proc, scratch).load.effects;
      |spares| == |e| && Own(es, fs[0]) == MapEvents(e, fs[0], spares, pkey) + rest
    requires MapsOtherPages(rest, SegmentOf(img, k).vaddr + x)
    ensures var e := LoadImage(bytes, arch, loader, proc, scratch).load.effects;
      UserReads(init, Run(s, [Spawn(fs)] + es).w.mem, fs[0], pkey, e, img, k, x)
  {
    hide LoadImage;
    hide SegmentOf;
    hide DataOf;
    hide Uncovered;
    hide SystemOk;
    hide PageTables.UserReachable;
    hide PageTables.Walk;
    hide PageTables.I1;
    hide PageTables.I2;
    hide LastMap;
    hide ByteAt;
    hide PermToProt;
    hide UserLeaf;
    hide Confined;
    hide FrameBetween;
    hide Pex.Parse;
    hide MapEvents;
    hide Own;
    hide Expected;
    hide ProcessSpaces.InWindow;
    hide UserReads;
    hide Latest;
    hide LegalRun;
    hide Run;
    hide SetAside;
    hide PlacedIn;
    hide MapsOtherPages;
    var e, r := LoadImage(bytes, arch, loader, proc, scratch).load.effects, fs[0];
    var va, run := SegmentOf(img, k).vaddr + x, [Spawn(fs)] + es;
    var maps := MapEvents(e, r, spares, pkey);
    LoadedBytes(init, bytes, arch, img, loader, proc, scratch, k, x);
    LoadConfined(bytes, arch, loader, proc, scratch);
    LastMapInWindow(e, va);
    LastMapFrame(e, va, Mark(loader), UntypedEnd(loader));
    NeverATable(s, run, loader, LastMap(e, va).value.pfn);
    LatestIsLastMap(e, r, spares, pkey, va);
    MapEventsAre(e, r, spares, pkey);
    AllMapsAppend(maps, rest, va);
    LatestElsewhere(maps, rest, r, va);
    SpawnThenMaps(s, fs, es);
    UserPagesAreTheLatest(s, run, r, va);
    ReadsThrough(init, Run(s, run).w.mem, r, pkey, e, img, k, x, Latest(maps + rest, r, map[])[PageKey(va)]);
  }

  /** A mapped address lies in the window. */
  lemma {:induction false} LastMapInWindow(e: seq<Effect>, va: nat)
    requires AllConfined(e) && LastMap(e, va).Some?
    ensures PROC_VA_BASE <= va < PROC_VA_END && ProcessSpaces.InWindow(va)
  {
    var n := |e| - 1;
    if Maps1(e[n], va) {
      assert Confined(e[n]);
      WindowCheckSuffices(e[n].va, PAGE, 0);
      SamePageInWindow(e[n].va, va);
    } else {
      LastMapInWindow(e[..n], va);
    }
  }

  lemma SamePageInWindow(a: nat, va: nat)
    requires a % PAGE == 0 && PROC_VA_BASE <= a && a + PAGE <= PROC_VA_END && a / PAGE == va / PAGE
    ensures PROC_VA_BASE <= va < PROC_VA_END && ProcessSpaces.InWindow(va)
  {
    assert a <= va < a + PAGE;
    assert va / 0x4000_0000 == 1;
    assert va / 0x80_0000_0000 == 0;
  }
}

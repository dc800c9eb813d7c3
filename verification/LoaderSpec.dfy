/** Loading a process: segments into freshly retyped frames, then exactly the manifest's capabilities. */
module LoaderSpec {
  import opened Caps
  import opened CSpaceSpec
  import opened Options
  import LittleEndian
  import Pex
  import opened SpaceMap

  const PROCESS_SLOTS: nat := 16
  const L_UNTYPED: nat := 0
  const L_SCHED: nat := 1
  const L_ENDPOINT: nat := 2
  const PROC_VA_BASE: nat := 0x4000_0000
  const PROC_VA_END: nat := 0x8000_0000
  const PAGE: nat := 4096
  const U32_LIMIT: nat := 0x1_0000_0000

  datatype LoadError =
    | BadPex(pex: Pex.PexError)
    | UnknownManifestType(code: nat)
    | BadRights
    | BadSegmentRef
    | SegmentVaddrOutOfRange
    | DestSlotOutOfRange
    | Cap(cap: CapError)

  function PermToProt(perm: nat): (p: Prot) {
    if perm / 4 % 2 == 1 then Rx else if perm / 2 % 2 == 1 then Rw else Ro
  }

  /** What the loader does to memory, in order: frames zeroed by a retype, bytes copied to the start of
      `pages` frames, and pages mapped. */
  datatype Effect =
    | ZeroAt(pfn: nat, pages: nat)
    | CopyTo(pfn: nat, pages: nat, data: seq<LittleEndian.byte>)
    | MapAt(va: nat, pfn: nat, prot: Prot)

  function Bit(r: Right): (b: nat) {
    match r
    case READ => 1
    case WRITE => 2
    case EXECUTE => 4
    case MAP => 8
    case GRANT => 16
    case RETYPE => 32
    case SEND => 64
    case RECV => 128
    case SIGNAL => 256
    case DERIVE => 512
    case ENTER => 1024
    case WAIT => 2048
  }

  /** The rights a word of bits names, if it has no bit outside the model. */
  function RightsFromBits(bits: nat): (r: Option<Rights>) {
    if bits >= 4096 then None else Some(set r: Right | bits / Bit(r) % 2 == 1)
  }

  /** The two capability spaces, the next scratch slot, the slot of each segment's frames, the memory
      effects so far and the budget split off. */
  datatype Load = Load(loader: CS, proc: CS, scratch: nat, frames: seq<nat>, effects: seq<Effect>, budget: nat)

  /** A failed load leaves the spaces as far as it got. */
  datatype Outcome = Done(load: Load) | Failed(error: LoadError, load: Load)

  function Maps(va: nat, pfn: nat, prot: Prot, pages: nat): (r: seq<Effect>)
    ensures |r| == pages
  {
    seq(pages, k requires 0 <= k < pages => MapAt(va + k * PAGE, pfn + k, prot))
  }

  /** The calls a space's zeroing hook got since its log was `before`. */
  function NewCalls(before: seq<ZeroCall>, after: seq<ZeroCall>): (z: seq<ZeroCall>) {
    if |before| <= |after| then after[|before|..] else []
  }

  /** The hook clears the frames it is called for. */
  function Zeros(z: seq<ZeroCall>): (r: seq<Effect>)
    ensures |r| == |z|
  {
    seq(|z|, i requires 0 <= i < |z| => ZeroAt(z[i].objref % U32_LIMIT, z[i].size))
  }

  // ---- one segment ----

  function LoadSegment(s: Pex.Segment, data: seq<LittleEndian.byte>, l: Load): (r: Outcome) {
    if s.vaddr + s.memSize >= LittleEndian.U64_LIMIT || s.vaddr < PROC_VA_BASE || s.vaddr + s.memSize > PROC_VA_END then
      Failed(SegmentVaddrOutOfRange, l)
    else if s.memSize / PAGE >= U32_LIMIT then Failed(BadPex(Pex.SegmentTooLarge), l)
    else
      var pages := s.memSize / PAGE;
      var slot, l1 := l.scratch, l.(scratch := l.scratch + 1);
      match Retype(l.loader, L_UNTYPED, Frame, pages, 1, slot)
      case Err(e) => Failed(Cap(e), l1)
      case Ok(cs) =>
        var pfn := cs.slots[slot].cap.objref % U32_LIMIT;
        Done(l1.(loader := cs, frames := l.frames + [slot],
                 effects := l.effects + Zeros(NewCalls(l.loader.zeroed, cs.zeroed))
                            + [CopyTo(pfn, pages, data)] + Maps(s.vaddr, pfn, PermToProt(s.perm), pages)))
  }

  // ---- one manifest entry ----

  function LoadEntry(m: Pex.ManifestEntry, l: Load): (r: Outcome) {
    if m.destSlot >= PROCESS_SLOTS then Failed(DestSlotOutOfRange, l)
    else match RightsFromBits(m.rights)
    case None => Failed(BadRights, l)
    case Some(rights) =>
      if m.capType == Pex.MANIFEST_SCHED then LoadSched(m, rights, l)
      else if m.capType == Pex.MANIFEST_ENDPOINT then Granted(L_ENDPOINT, m, rights, m.param0, l)
      else if m.capType == Pex.MANIFEST_FRAME then
        if m.param0 >= |l.frames| then Failed(BadSegmentRef, l) else Granted(l.frames[m.param0], m, rights, 0, l)
      else Failed(UnknownManifestType(m.capType), l)
  }

  function LoadSched(m: Pex.ManifestEntry, rights: Rights, l: Load): (r: Outcome) {
    var child, l1 := l.scratch, l.(scratch := l.scratch + 1);
    match SplitSched(l.loader, L_SCHED, child, m.param0 % U32_LIMIT)
    case Err(e) => Failed(Cap(e), l1)
    case Ok(cs) =>
      match Grant(cs, child, l.proc, m.destSlot, rights, 0, MoveGrant)
      case Err(e) => Failed(Cap(e), l1.(loader := cs))
      case Ok((a, b)) => Done(l1.(loader := a, proc := b, budget := m.param0 % U32_LIMIT))
  }

  function Granted(src: nat, m: Pex.ManifestEntry, rights: Rights, badge: nat, l: Load): (r: Outcome) {
    match Grant(l.loader, src, l.proc, m.destSlot, rights, badge, MintGrant)
    case Err(e) => Failed(Cap(e), l)
    case Ok((a, b)) => Done(l.(loader := a, proc := b))
  }

  // ---- the whole image ----

  function SegmentOf(img: Pex.Image, i: nat): (s: Pex.Segment) {
    match Pex.SegmentRaw(img.bytes, img.h.segOff, i) case Ok(s) => s case Err(_) => Pex.Segment(0, 0, 0, 0, 0)
  }

  function DataOf(img: Pex.Image, i: nat): (d: seq<LittleEndian.byte>) {
    var s := SegmentOf(img, i);
    if s.fileOff + s.fileSize <= |img.bytes| then img.bytes[s.fileOff..s.fileOff + s.fileSize] else []
  }

  function EntryOf(img: Pex.Image, i: nat): (m: Pex.ManifestEntry) {
    match Pex.ManifestRaw(img.bytes, img.h.manOff, i) case Ok(m) => m case Err(_) => Pex.ManifestEntry(0, 0, 0, 0, 0)
  }

  function LoadSegments(img: Pex.Image, l: Load, i: nat): (r: Outcome)
    decreases img.h.segCount - i
  {
    if i >= img.h.segCount then Done(l)
    else match LoadSegment(SegmentOf(img, i), DataOf(img, i), l)
    case Failed(e, l1) => Failed(e, l1)
    case Done(l1) => LoadSegments(img, l1, i + 1)
  }

  function LoadManifest(img: Pex.Image, l: Load, i: nat): (r: Outcome)
    decreases img.h.manCount - i
  {
    if i >= img.h.manCount then Done(l)
    else match LoadEntry(EntryOf(img, i), l)
    case Failed(e, l1) => Failed(e, l1)
    case Done(l1) => LoadManifest(img, l1, i + 1)
  }

  function LoadImage(bytes: seq<LittleEndian.byte>, arch: nat, loader: CS, proc: CS, scratch: nat): (r: Outcome) {
    var l := Load(loader, proc, scratch, [], [], 0);
    match Pex.Parse(bytes, arch)
    case Err(e) => Failed(BadPex(e), l)
    case Ok(img) =>
      match LoadSegments(img, l, 0)
      case Failed(e, l1) => Failed(e, l1)
      case Done(l1) => LoadManifest(img, l1, 0)
  }

  /** The accessors of an accepted image never take their fallback. */
  lemma AccessorsDefined(bytes: seq<LittleEndian.byte>, arch: nat, i: nat)
    requires Pex.Parse(bytes, arch).Ok?
    ensures var img := Pex.Parse(bytes, arch).value;
      && (i < img.h.segCount ==>
            Pex.SegmentRaw(bytes, img.h.segOff, i) == Pex.Ok(SegmentOf(img, i))
            && |DataOf(img, i)| == SegmentOf(img, i).fileSize)
      && (i < img.h.manCount ==> Pex.ManifestRaw(bytes, img.h.manOff, i) == Pex.Ok(EntryOf(img, i)))
  {
    Pex.AcceptedImageIsSafe(bytes, arch, i);
    hide Pex.Parse;
    hide Pex.SegmentRaw;
    hide Pex.ManifestRaw;
  }
}

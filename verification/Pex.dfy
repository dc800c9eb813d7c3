/** The `.pex` image format: a parser of hostile bytes that accepts exactly the well-formed ones. */
module Pex {
  import opened LittleEndian

  type u16 = x: nat | x < 0x1_0000
  type u32 = x: nat | x < 0x1_0000_0000
  type u64 = x: nat | x < 0x1_0000_0000_0000_0000

  const PEX_MAGIC: u32 := 0x0158_4550
  const PEX_VERSION: u16 := 1
  const HEADER_LEN: nat := 48
  const SEGMENT_LEN: nat := 32
  const MANIFEST_LEN: nat := 32
  const MANIFEST_SCHED: nat := 1
  const MANIFEST_ENDPOINT: nat := 2
  const MANIFEST_FRAME: nat := 3
  const MAX_SEGMENTS: nat := 16
  const MAX_MANIFEST: nat := 32
  const MAX_SEGMENT_PAGES: nat := 4096

  datatype PexError =
    | TooShort | BadMagic | BadVersion | ArchMismatch | LenMismatch | TooManyRecords | TableOutOfBounds
    | SegmentOutOfBounds | BadMemSize | SegmentTooLarge | BadPermission | Unaligned | EntryNotExecutable
    | ReservedNonZero

  datatype Result<+T> = Ok(value: T) | Err(error: PexError) {
    predicate IsFailure() { Err? }
    function PropagateFailure<U>(): Result<U> requires Err? { Err(error) }
    function Extract(): T requires Ok? { value }
  }

  function Need(b: bool, e: PexError): (r: Result<()>) {
    if b then Ok(()) else Err(e)
  }

  // ---- reading ----

  /** The `n`-byte number at `off`, or `TooShort`. */
  function Rd(b: seq<byte>, off: nat, n: nat): (r: Result<nat>) {
    if off + n <= |b| then Ok(LeValue(b[off..off + n])) else Err(TooShort)
  }

  // ---- records ----

  datatype Segment = Segment(fileOff: nat, fileSize: nat, vaddr: nat, memSize: nat, perm: nat) {
    predicate Readable() { perm % 2 == 1 }
    predicate IsWrite() { perm / 2 % 2 == 1 }
    predicate IsExec() { perm / 4 % 2 == 1 }
  }

  datatype ManifestEntry = ManifestEntry(capType: nat, destSlot: nat, rights: nat, param0: nat, param1: nat)

  function SegmentRaw(b: seq<byte>, segOff: nat, i: nat): (r: Result<Segment>) {
    var base := segOff + i * SEGMENT_LEN;
    var fileOff :- Rd(b, base, 4);
    var fileSize :- Rd(b, base + 4, 4);
    var vaddr :- Rd(b, base + 8, 8);
    var memSize :- Rd(b, base + 16, 8);
    var perm :- Rd(b, base + 24, 1);
    Ok(Segment(fileOff, fileSize, vaddr, memSize, perm))
  }

  function ManifestRaw(b: seq<byte>, manOff: nat, i: nat): (r: Result<ManifestEntry>) {
    var base := manOff + i * MANIFEST_LEN;
    var capType :- Rd(b, base, 1);
    var destSlot :- Rd(b, base + 2, 2);
    var rights :- Rd(b, base + 4, 4);
    var param0 :- Rd(b, base + 8, 8);
    var param1 :- Rd(b, base + 16, 8);
    Ok(ManifestEntry(capType, destSlot, rights, param0, param1))
  }

  predicate TableFits(total: nat, off: nat, count: nat, recLen: nat) {
    off + count * recLen <= total
  }

  function ValidatePerm(s: Segment): (r: Result<()>) {
    Need(s.perm < 8 && s.Readable() && !(s.IsWrite() && s.IsExec()), BadPermission)
  }

  function CheckSegment(total: nat, s: Segment): (r: Result<()>) {
    var _ :- ValidatePerm(s);
    var _ :- Need(s.vaddr % 4096 == 0 && s.memSize % 4096 == 0, Unaligned);
    var _ :- Need(s.fileSize <= s.memSize, BadMemSize);
    var _ :- Need(s.memSize / 4096 <= MAX_SEGMENT_PAGES, SegmentTooLarge);
    var _ :- Need(s.fileOff + s.fileSize <= total, SegmentOutOfBounds);
    Need(s.vaddr + s.memSize < U64_LIMIT, Unaligned)
  }

  predicate HoldsEntry(s: Segment, entry: nat) {
    s.IsExec() && s.vaddr <= entry < s.vaddr + s.memSize
  }

  /** Segments `i .. n`: whether one of them, or an earlier one, holds the entry point. */
  function CheckSegments(b: seq<byte>, segOff: nat, entry: nat, i: nat, n: nat, entryOk: bool): (r: Result<bool>)
    requires i <= n
    decreases n - i
  {
    if i == n then Ok(entryOk)
    else
      var s :- SegmentRaw(b, segOff, i);
      var _ :- CheckSegment(|b|, s);
      CheckSegments(b, segOff, entry, i + 1, n, entryOk || HoldsEntry(s, entry))
  }

  function CheckManifest(b: seq<byte>, manOff: nat, i: nat, n: nat): (r: Result<()>)
    requires i <= n
    decreases n - i
  {
    if i == n then Ok(()) else
      var _ :- ManifestRaw(b, manOff, i);
      CheckManifest(b, manOff, i + 1, n)
  }

  datatype Header = Header(entry: nat, segOff: nat, segCount: nat, manOff: nat, manCount: nat)

  /** The header fields, checked. */
  function ParseHeader(b: seq<byte>, arch: nat): (r: Result<Header>) {
    var _ :- Need(|b| >= HEADER_LEN, TooShort);
    var magic :- Rd(b, 0, 4);
    var _ :- Need(magic == PEX_MAGIC, BadMagic);
    var version :- Rd(b, 4, 2);
    var _ :- Need(version == PEX_VERSION, BadVersion);
    var a :- Rd(b, 6, 2);
    var _ :- Need(a == arch, ArchMismatch);
    var entry :- Rd(b, 8, 8);
    var totalLen :- Rd(b, 16, 4);
    var _ :- Need(totalLen == |b|, LenMismatch);
    var segOff :- Rd(b, 20, 4);
    var segCount :- Rd(b, 24, 2);
    var manCount :- Rd(b, 26, 2);
    var manOff :- Rd(b, 28, 4);
    var integOff :- Rd(b, 32, 4);
    var integLen :- Rd(b, 36, 4);
    var reserved :- Rd(b, 40, 8);
    var _ :- Need(reserved == 0, ReservedNonZero);
    var _ :- Need(segCount <= MAX_SEGMENTS && manCount <= MAX_MANIFEST, TooManyRecords);
    var _ :- Need(TableFits(|b|, segOff, segCount, SEGMENT_LEN)
      && TableFits(|b|, manOff, manCount, MANIFEST_LEN), TableOutOfBounds);
    var _ :- Need(integLen != 0 ==> integOff + integLen <= |b|, TableOutOfBounds);
    Ok(Header(entry, segOff, segCount, manOff, manCount))
  }

  /** A validated view of the bytes. */
  datatype Image = Image(bytes: seq<byte>, h: Header)

  function Parse(b: seq<byte>, arch: nat): (r: Result<Image>) {
    var h :- ParseHeader(b, arch);
    var entryOk :- CheckSegments(b, h.segOff, h.entry, 0, h.segCount, false);
    var _ :- Need(entryOk, EntryNotExecutable);
    var _ :- CheckManifest(b, h.manOff, 0, h.manCount);
    Ok(Image(b, h))
  }

  // ---- what acceptance means ----

  /** A segment the loader can map: in bounds, aligned, small, and readable alone (1), with writing (3) or with
      executing (5). */
  predicate SegmentOk(total: nat, s: Segment) {
    && s.perm in {1, 3, 5}
    && s.vaddr % 4096 == 0 && s.memSize % 4096 == 0 && s.fileSize <= s.memSize <= MAX_SEGMENT_PAGES * 4096
    && s.fileOff + s.fileSize <= total && s.vaddr + s.memSize < U64_LIMIT
  }

  ghost predicate WellFormed(b: seq<byte>, arch: nat) {
    && ParseHeader(b, arch).Ok?
    && var h := ParseHeader(b, arch).value;
    && (forall i: nat :: i < h.segCount ==>
          SegmentRaw(b, h.segOff, i).Ok? && SegmentOk(|b|, SegmentRaw(b, h.segOff, i).value))
    && (exists i: nat ::
          i < h.segCount && SegmentRaw(b, h.segOff, i).Ok? && CodeAt(SegmentRaw(b, h.segOff, i).value, h.entry))
  }

  /** The address lies in the segment, and bit 2 of its permission byte makes it executable. */
  predicate CodeAt(s: Segment, a: nat) {
    s.perm / 4 % 2 == 1 && s.vaddr <= a && a < s.vaddr + s.memSize
  }

  lemma CheckSegmentIff(total: nat, s: Segment)
    ensures CheckSegment(total, s).Ok? <==> SegmentOk(total, s)
  {
    assert s.memSize % 4096 == 0 ==> (s.memSize / 4096 <= MAX_SEGMENT_PAGES <==> s.memSize <= MAX_SEGMENT_PAGES * 4096);
  }

  ghost predicate SegmentsFrom(b: seq<byte>, segOff: nat, i: nat, n: nat) {
    forall k: nat :: i <= k < n ==> SegmentRaw(b, segOff, k).Ok? && SegmentOk(|b|, SegmentRaw(b, segOff, k).value)
  }

  ghost predicate EntryFrom(b: seq<byte>, segOff: nat, entry: nat, i: nat, n: nat) {
    exists k: nat :: i <= k < n && SegmentRaw(b, segOff, k).Ok? && CodeAt(SegmentRaw(b, segOff, k).value, entry)
  }

  lemma {:induction false} CheckSegmentsIff(b: seq<byte>, segOff: nat, entry: nat, i: nat, n: nat, entryOk: bool)
    requires i <= n
    ensures CheckSegments(b, segOff, entry, i, n, entryOk).Ok? <==> SegmentsFrom(b, segOff, i, n)
    ensures CheckSegments(b, segOff, entry, i, n, entryOk).Ok? ==>
      (CheckSegments(b, segOff, entry, i, n, entryOk).value <==> entryOk || EntryFrom(b, segOff, entry, i, n))
    decreases n - i
  {
    hide SegmentRaw;
    if i < n {
      var s := SegmentRaw(b, segOff, i);
      if s.Ok? {
        CheckSegmentIff(|b|, s.value);
        assert HoldsEntry(s.value, entry) <==> CodeAt(s.value, entry);
        hide CheckSegment;
        hide SegmentOk;
        hide HoldsEntry;
        hide CodeAt;
        CheckSegmentsIff(b, segOff, entry, i + 1, n, entryOk || HoldsEntry(s.value, entry));
      }
    }
  }

  lemma ManifestInBounds(b: seq<byte>, manOff: nat, n: nat, i: nat)
    requires TableFits(|b|, manOff, n, MANIFEST_LEN) && i < n
    ensures ManifestRaw(b, manOff, i).Ok?
  {
  }

  lemma {:induction false} CheckManifestOk(b: seq<byte>, manOff: nat, i: nat, n: nat)
    requires TableFits(|b|, manOff, n, MANIFEST_LEN) && i <= n
    ensures CheckManifest(b, manOff, i, n).Ok?
    decreases n - i
  {
    if i < n {
      ManifestInBounds(b, manOff, n, i);
      CheckManifestOk(b, manOff, i + 1, n);
    }
  }

  lemma HeaderBounds(b: seq<byte>, arch: nat)
    requires ParseHeader(b, arch).Ok?
    ensures var h := ParseHeader(b, arch).value;
      && h.segCount <= MAX_SEGMENTS && h.manCount <= MAX_MANIFEST
      && TableFits(|b|, h.segOff, h.segCount, SEGMENT_LEN) && TableFits(|b|, h.manOff, h.manCount, MANIFEST_LEN)
  {
    hide Rd;
    hide TableFits;
  }

  /** The parser accepts an image exactly when it is well formed. */
  lemma ParseIffWellFormed(b: seq<byte>, arch: nat)
    ensures Parse(b, arch).Ok? <==> WellFormed(b, arch)
  {
    hide ParseHeader;
    hide SegmentRaw;
    hide CodeAt;
    hide SegmentOk;
    if ParseHeader(b, arch).Ok? {
      var h := ParseHeader(b, arch).value;
      HeaderBounds(b, arch);
      CheckSegmentsIff(b, h.segOff, h.entry, 0, h.segCount, false);
      CheckManifestOk(b, h.manOff, 0, h.manCount);
    }
  }

  /** Every accessor of an accepted image stays inside the buffer, no segment is both writable and
      executable, and the entry point lies in an executable segment. */
  lemma AcceptedImageIsSafe(b: seq<byte>, arch: nat, i: nat)
    requires Parse(b, arch).Ok?
    ensures var p := Parse(b, arch).value;
      && p.bytes == b && p.h == ParseHeader(b, arch).value
      && (i < p.h.segCount ==>
            && SegmentRaw(b, p.h.segOff, i).Ok?
            && var s := SegmentRaw(b, p.h.segOff, i).value;
            && s.fileOff + s.fileSize <= |b| && s.fileSize <= s.memSize && s.memSize / 4096 <= 4096
            && s.perm % 2 == 1 && !(s.perm / 2 % 2 == 1 && s.perm / 4 % 2 == 1))
      && (i < p.h.manCount ==> ManifestRaw(b, p.h.manOff, i).Ok?)
      && (exists k: nat ::
            && k < p.h.segCount && SegmentRaw(b, p.h.segOff, k).Ok?
            && var s := SegmentRaw(b, p.h.segOff, k).value;
            s.perm / 4 % 2 == 1 && s.vaddr <= p.h.entry < s.vaddr + s.memSize)
  {
    hide ParseHeader; hide SegmentRaw; hide SegmentOk; hide CheckSegments; hide CheckManifest; hide ManifestRaw;
    ParseIffWellFormed(b, arch);
    HeaderBounds(b, arch);
    var h := ParseHeader(b, arch).value;
    if i < h.segCount { SegmentBits(|b|, SegmentRaw(b, h.segOff, i).value); }
    if i < h.manCount { ManifestInBounds(b, h.manOff, h.manCount, i); }
  }

  lemma SegmentBits(total: nat, s: Segment)
    requires SegmentOk(total, s)
    ensures s.fileOff + s.fileSize <= total && s.fileSize <= s.memSize && s.memSize / 4096 <= 4096
    ensures s.perm % 2 == 1 && !(s.perm / 2 % 2 == 1 && s.perm / 4 % 2 == 1)
  {
  }

  /** The validation loop. */
  method ParseImage(b: seq<byte>, arch: nat) returns (r: Result<Image>)
    ensures r == Parse(b, arch)
    ensures r.Ok? <==> WellFormed(b, arch)
  {
    ParseIffWellFormed(b, arch);
    hide ParseHeader;
    hide SegmentRaw;
    hide WellFormed;
    hide HoldsEntry;
    hide CheckSegment;
    var h :- ParseHeader(b, arch);
    var entryOk := false;
    for i := 0 to h.segCount
      invariant CheckSegments(b, h.segOff, h.entry, 0, h.segCount, false) ==
        CheckSegments(b, h.segOff, h.entry, i, h.segCount, entryOk)
    {
      var s :- SegmentRaw(b, h.segOff, i);
      var _ :- CheckSegment(|b|, s);
      if HoldsEntry(s, h.entry) {
        entryOk := true;
      }
    }
    if !entryOk {
      return Err(EntryNotExecutable);
    }
    for i := 0 to h.manCount
      invariant CheckManifest(b, h.manOff, 0, h.manCount) == CheckManifest(b, h.manOff, i, h.manCount)
    {
      var _ :- ManifestRaw(b, h.manOff, i);
    }
    return Ok(Image(b, h));
  }
}

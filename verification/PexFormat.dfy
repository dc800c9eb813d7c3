/** The `.pex` format as a relation between bytes and values, and the parser's agreement with it. */
module PexFormat {
  import opened LittleEndian
  import opened Pex

  /** The bytes at `o` are the `n`-byte little-endian form of `v`. */
  predicate Field(b: seq<byte>, o: nat, v: nat, n: nat) {
    v < Pow256(n) && o + n <= |b| && b[o..o + n] == Le(v, n)
  }

  lemma ReadsField(b: seq<byte>, o: nat, v: nat, n: nat)
    ensures Rd(b, o, n) == Ok(v) <==> Field(b, o, v, n)
  {
    if o + n <= |b| {
      LeOfValue(b[o..o + n]);
      LeBound(b[o..o + n]);
      if v < Pow256(n) { LeRoundTrip(v, n); }
    }
  }

  /** The header of an image for `arch` that holds the values `h`. */
  ghost predicate HeaderAt(b: seq<byte>, arch: nat, h: Header) {
    && |b| >= 48
    && Field(b, 0, 0x0158_4550, 4) && Field(b, 4, 1, 2) && Field(b, 6, arch, 2) && Field(b, 8, h.entry, 8)
    && Field(b, 16, |b|, 4)
    && Field(b, 20, h.segOff, 4) && Field(b, 24, h.segCount, 2) && Field(b, 26, h.manCount, 2)
    && Field(b, 28, h.manOff, 4) && Field(b, 40, 0, 8)
    && h.segCount <= 16 && h.manCount <= 32
    && h.segOff + h.segCount * 32 <= |b| && h.manOff + h.manCount * 32 <= |b|
    && (exists off: nat, len: nat :: Field(b, 32, off, 4) && Field(b, 36, len, 4) && (len == 0 || off + len <= |b|))
  }

  predicate SegmentAt(b: seq<byte>, o: nat, s: Segment) {
    Field(b, o, s.fileOff, 4) && Field(b, o + 4, s.fileSize, 4) && Field(b, o + 8, s.vaddr, 8)
      && Field(b, o + 16, s.memSize, 8) && Field(b, o + 24, s.perm, 1)
  }

  predicate ManifestAt(b: seq<byte>, o: nat, m: ManifestEntry) {
    Field(b, o, m.capType, 1) && Field(b, o + 2, m.destSlot, 2) && Field(b, o + 4, m.rights, 4)
      && Field(b, o + 8, m.param0, 8) && Field(b, o + 16, m.param1, 8)
  }

  ghost predicate GoodSegmentAt(b: seq<byte>, o: nat) {
    exists s :: SegmentAt(b, o, s) && SegmentOk(|b|, s)
  }

  ghost predicate EntrySegmentAt(b: seq<byte>, o: nat, entry: nat) {
    exists s :: SegmentAt(b, o, s) && CodeAt(s, entry)
  }

  function RecordOffset(base: nat, i: nat): (o: nat) {
    base + i * 32
  }

  /** The bytes are an image with header values `h`: every segment can be mapped, and the entry point
      lies in an executable one. */
  ghost predicate IsImage(b: seq<byte>, arch: nat, h: Header) {
    && HeaderAt(b, arch, h)
    && (forall i: nat :: i < h.segCount ==> GoodSegmentAt(b, RecordOffset(h.segOff, i)))
    && (exists i: nat :: i < h.segCount && EntrySegmentAt(b, RecordOffset(h.segOff, i), h.entry))
  }

  lemma SegmentReads(b: seq<byte>, segOff: nat, i: nat, s: Segment)
    ensures SegmentRaw(b, segOff, i) == Ok(s) <==> SegmentAt(b, RecordOffset(segOff, i), s)
  {
    hide Rd;
    hide Field;
    var o := RecordOffset(segOff, i);
    ReadsField(b, o, s.fileOff, 4);
    ReadsField(b, o + 4, s.fileSize, 4);
    ReadsField(b, o + 8, s.vaddr, 8);
    ReadsField(b, o + 16, s.memSize, 8);
    ReadsField(b, o + 24, s.perm, 1);
  }

  /** A manifest entry is read from its record exactly as it stands there. */
  lemma ManifestReads(b: seq<byte>, manOff: nat, i: nat, m: ManifestEntry)
    ensures ManifestRaw(b, manOff, i) == Ok(m) <==> ManifestAt(b, RecordOffset(manOff, i), m)
  {
    hide Rd;
    hide Field;
    var o := RecordOffset(manOff, i);
    ReadsField(b, o, m.capType, 1);
    ReadsField(b, o + 2, m.destSlot, 2);
    ReadsField(b, o + 4, m.rights, 4);
    ReadsField(b, o + 8, m.param0, 8);
    ReadsField(b, o + 16, m.param1, 8);
  }

  lemma HeaderReads(b: seq<byte>, arch: nat, h: Header)
    ensures ParseHeader(b, arch) == Ok(h) <==> HeaderAt(b, arch, h)
  {
    hide Field;
    ReadsField(b, 0, PEX_MAGIC, 4);
    ReadsField(b, 4, PEX_VERSION, 2);
    ReadsField(b, 6, arch, 2);
    ReadsField(b, 8, h.entry, 8);
    ReadsField(b, 16, |b|, 4);
    ReadsField(b, 20, h.segOff, 4);
    ReadsField(b, 24, h.segCount, 2);
    ReadsField(b, 26, h.manCount, 2);
    ReadsField(b, 28, h.manOff, 4);
    ReadsField(b, 40, 0, 8);
    if |b| >= HEADER_LEN { Integrity(b); }
    hide Rd;
  }

  /** Why a header is refused: the first of these that fails, in the order they stand. */
  ghost predicate HeaderRefusedFor(b: seq<byte>, arch: nat, e: PexError) {
    var sized := |b| >= 48;
    var magic := sized && Field(b, 0, 0x0158_4550, 4);
    var version := magic && Field(b, 4, 1, 2);
    var target := version && Field(b, 6, arch, 2);
    var whole := target && Field(b, 16, |b|, 4);
    var reserved := whole && Field(b, 40, 0, 8);
    var counted := reserved && exists n: nat, m: nat :: Field(b, 24, n, 2) && Field(b, 26, m, 2) && n <= 16 && m <= 32;
    e == if !sized then TooShort else if !magic then BadMagic else if !version then BadVersion
         else if !target then ArchMismatch else if !whole then LenMismatch else if !reserved then ReservedNonZero
         else if !counted then TooManyRecords else TableOutOfBounds
  }

  lemma HeaderRefused(b: seq<byte>, arch: nat)
    requires ParseHeader(b, arch).Err?
    ensures HeaderRefusedFor(b, arch, ParseHeader(b, arch).error)
  {
    hide Field;
    if |b| >= 48 {
      ReadsField(b, 0, 0x0158_4550, 4);
      ReadsField(b, 4, 1, 2);
      ReadsField(b, 6, arch, 2);
      ReadsField(b, 16, |b|, 4);
      ReadsField(b, 40, 0, 8);
      Counts(b);
    }
    hide Rd;
  }

  lemma Counts(b: seq<byte>)
    requires |b| >= 48
    ensures Rd(b, 24, 2).Ok? && Rd(b, 26, 2).Ok?
    ensures (Rd(b, 24, 2).value <= 16 && Rd(b, 26, 2).value <= 32) <==>
      exists n: nat, m: nat :: Field(b, 24, n, 2) && Field(b, 26, m, 2) && n <= 16 && m <= 32
  {
    forall v: nat
      ensures Rd(b, 24, 2) == Ok(v) <==> Field(b, 24, v, 2)
      ensures Rd(b, 26, 2) == Ok(v) <==> Field(b, 26, v, 2)
    {
      ReadsField(b, 24, v, 2);
      ReadsField(b, 26, v, 2);
    }
  }

  /** Why a segment is refused: its permissions, alignment, sizes and place in the file, in that order. */
  lemma SegmentRefused(total: nat, s: Segment)
    requires CheckSegment(total, s).Err?
    ensures CheckSegment(total, s).error ==
      if s.perm !in {1, 3, 5} then BadPermission
      else if s.vaddr % 4096 != 0 || s.memSize % 4096 != 0 then Unaligned
      else if s.fileSize > s.memSize then BadMemSize
      else if s.memSize > 4096 * 4096 then SegmentTooLarge
      else if s.fileOff + s.fileSize > total then SegmentOutOfBounds
      else Unaligned
  {
  }

  /** An image with a good header is refused for its first bad segment, or, if there is none, because no executable
      segment holds the entry. */
  lemma ImageRefused(b: seq<byte>, arch: nat) returns (i: nat)
    requires ParseHeader(b, arch).Ok? && Parse(b, arch).Err?
    ensures var h, e := ParseHeader(b, arch).value, Parse(b, arch).error;
      && i <= h.segCount && (forall k: nat :: k < i ==> GoodSegmentAt(b, RecordOffset(h.segOff, k)))
      && (i < h.segCount ==>
            && SegmentRaw(b, h.segOff, i).Ok? && CheckSegment(|b|, SegmentRaw(b, h.segOff, i).value) == Err(e)
            && !GoodSegmentAt(b, RecordOffset(h.segOff, i)))
      && (i == h.segCount ==>
            e == EntryNotExecutable && forall k: nat :: k < i ==>
              !EntrySegmentAt(b, RecordOffset(h.segOff, k), h.entry))
  {
    hide ParseHeader; hide SegmentRaw; hide CheckSegment; hide SegmentOk; hide GoodSegmentAt; hide EntrySegmentAt;
    hide RecordOffset; hide TableFits; hide CodeAt; hide HoldsEntry;
    var h := ParseHeader(b, arch).value;
    HeaderBounds(b, arch);
    CheckManifestOk(b, h.manOff, 0, h.manCount);
    CheckSegmentsIff(b, h.segOff, h.entry, 0, h.segCount, false);
    forall k: nat
      ensures SegmentRaw(b, h.segOff, k).Ok? && SegmentOk(|b|, SegmentRaw(b, h.segOff, k).value) <==>
        GoodSegmentAt(b, RecordOffset(h.segOff, k))
      ensures SegmentRaw(b, h.segOff, k).Ok? && CodeAt(SegmentRaw(b, h.segOff, k).value, h.entry) <==>
        EntrySegmentAt(b, RecordOffset(h.segOff, k), h.entry)
    {
      SegmentGood(b, h.segOff, k, h.entry);
    }
    if CheckSegments(b, h.segOff, h.entry, 0, h.segCount, false).Err? {
      i := FirstBad(b, h, 0, false);
      CheckSegmentIff(|b|, SegmentRaw(b, h.segOff, i).value);
    } else {
      i := h.segCount;
    }
  }

  lemma {:induction false} FirstBad(b: seq<byte>, h: Header, j: nat, entryOk: bool) returns (i: nat)
    requires j <= h.segCount && TableFits(|b|, h.segOff, h.segCount, SEGMENT_LEN)
    requires CheckSegments(b, h.segOff, h.entry, j, h.segCount, entryOk).Err?
    ensures j <= i < h.segCount && SegmentsFrom(b, h.segOff, j, i) && SegmentRaw(b, h.segOff, i).Ok?
    ensures CheckSegment(|b|, SegmentRaw(b, h.segOff, i).value)
         == Err(CheckSegments(b, h.segOff, h.entry, j, h.segCount, entryOk).error)
    decreases h.segCount - j
  {
    hide CheckSegment; hide SegmentOk; hide HoldsEntry;
    SegmentInBounds(b, h, j);
    var s := SegmentRaw(b, h.segOff, j).value;
    CheckSegmentIff(|b|, s);
    hide SegmentRaw;
    if CheckSegment(|b|, s).Err? {
      i := j;
    } else {
      i := FirstBad(b, h, j + 1, entryOk || HoldsEntry(s, h.entry));
    }
  }

  lemma SegmentInBounds(b: seq<byte>, h: Header, j: nat)
    requires TableFits(|b|, h.segOff, h.segCount, SEGMENT_LEN) && j < h.segCount
    ensures SegmentRaw(b, h.segOff, j).Ok?
  {
  }

  lemma Integrity(b: seq<byte>)
    requires |b| >= HEADER_LEN
    ensures Rd(b, 32, 4).Ok? && Rd(b, 36, 4).Ok?
    ensures var off, len := Rd(b, 32, 4).value, Rd(b, 36, 4).value;
      (len == 0 || off + len <= |b|) <==>
        exists o: nat, l: nat :: Field(b, 32, o, 4) && Field(b, 36, l, 4) && (l == 0 || o + l <= |b|)
  {
    forall v: nat
      ensures Rd(b, 32, 4) == Ok(v) <==> Field(b, 32, v, 4)
      ensures Rd(b, 36, 4) == Ok(v) <==> Field(b, 36, v, 4)
    {
      ReadsField(b, 32, v, 4);
      ReadsField(b, 36, v, 4);
    }
  }

  lemma SegmentGood(b: seq<byte>, segOff: nat, i: nat, entry: nat)
    ensures SegmentRaw(b, segOff, i).Ok? && SegmentOk(|b|, SegmentRaw(b, segOff, i).value) <==>
      GoodSegmentAt(b, RecordOffset(segOff, i))
    ensures SegmentRaw(b, segOff, i).Ok? && CodeAt(SegmentRaw(b, segOff, i).value, entry) <==>
      EntrySegmentAt(b, RecordOffset(segOff, i), entry)
  {
    hide SegmentRaw;
    hide SegmentAt;
    hide SegmentOk;
    hide CodeAt;
    forall s: Segment
      ensures SegmentRaw(b, segOff, i) == Ok(s) <==> SegmentAt(b, RecordOffset(segOff, i), s)
    {
      SegmentReads(b, segOff, i, s);
    }
  }

  /** The parser accepts exactly the images, and reports the header values they hold. */
  lemma ParserAcceptsImages(b: seq<byte>, arch: nat, h: Header)
    ensures Parse(b, arch) == Ok(Image(b, h)) <==> IsImage(b, arch, h)
  {
    ParseIffWellFormed(b, arch);
    HeaderReads(b, arch, h);
    hide ParseHeader;
    hide HeaderAt;
    hide SegmentRaw;
    hide SegmentOk;
    hide CodeAt;
    hide GoodSegmentAt;
    hide EntrySegmentAt;
    hide RecordOffset;
    hide CheckSegments;
    hide CheckManifest;
    forall i: nat
      ensures SegmentRaw(b, h.segOff, i).Ok? && SegmentOk(|b|, SegmentRaw(b, h.segOff, i).value) <==>
        GoodSegmentAt(b, RecordOffset(h.segOff, i))
      ensures SegmentRaw(b, h.segOff, i).Ok? && CodeAt(SegmentRaw(b, h.segOff, i).value, h.entry) <==>
        EntrySegmentAt(b, RecordOffset(h.segOff, i), h.entry)
    {
      SegmentGood(b, h.segOff, i, h.entry);
    }
  }
}

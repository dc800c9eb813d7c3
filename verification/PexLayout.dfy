/** The layout of an encoded image, and what the parser reads back from it. */
module PexLayout {
  import opened LittleEndian
  import opened Pex

  datatype SegmentSpec = SegmentSpec(vaddr: u64, memSize: u64, perm: byte, data: seq<byte>)

  datatype ManifestSpec = ManifestSpec(capType: byte, destSlot: u16, rights: u32, param0: u64, param1: u64)

  // ---- records as lists of (value, width) fields ----

  type Fields = seq<(nat, nat)>

  function Offset(fs: Fields, k: nat): (o: nat)
    requires k <= |fs|
  {
    if k == 0 then 0 else Offset(fs, k - 1) + fs[k - 1].1
  }

  /** The bytes of the first `k` fields. */
  function Bytes(fs: Fields, k: nat): (b: seq<byte>)
    requires k <= |fs|
    ensures |b| == Offset(fs, k)
  {
    if k == 0 then [] else Bytes(fs, k - 1) + Le(fs[k - 1].0, fs[k - 1].1)
  }

  predicate Fits(fs: Fields) {
    forall k :: 0 <= k < |fs| ==> fs[k].0 < Pow256(fs[k].1)
  }

  lemma {:induction false} FieldBytes(fs: Fields, k: nat, n: nat)
    requires k < n <= |fs|
    ensures Offset(fs, k) + fs[k].1 <= Offset(fs, n)
    ensures Bytes(fs, n)[Offset(fs, k)..Offset(fs, k) + fs[k].1] == Le(fs[k].0, fs[k].1)
  {
    if k < n - 1 { FieldBytes(fs, k, n - 1); }
  }

  lemma SliceInside(pre: seq<byte>, mid: seq<byte>, post: seq<byte>, o: nat, n: nat)
    requires o + n <= |mid|
    ensures (pre + mid + post)[|pre| + o..|pre| + o + n] == mid[o..o + n]
  {
  }

  /** Reading a field of a record anywhere in a buffer gives back the field's value. */
  lemma ReadField(pre: seq<byte>, fs: Fields, post: seq<byte>, k: nat)
    requires k < |fs| && Fits(fs)
    ensures Rd(pre + Bytes(fs, |fs|) + post, |pre| + Offset(fs, k), fs[k].1) == Ok(fs[k].0)
  {
    hide Bytes;
    hide LeValue;
    hide Le;
    hide Pow256;
    FieldBytes(fs, k, |fs|);
    LeRoundTrip(fs[k].0, fs[k].1);
    SliceInside(pre, Bytes(fs, |fs|), post, Offset(fs, k), fs[k].1);
  }

  // ---- the layout ----

  function DataLen(segs: seq<SegmentSpec>, n: nat): (l: nat)
    requires n <= |segs|
  {
    if n == 0 then 0 else DataLen(segs, n - 1) + |segs[n - 1].data|
  }

  function Data(segs: seq<SegmentSpec>, n: nat): (d: seq<byte>)
    requires n <= |segs|
    ensures |d| == DataLen(segs, n)
  {
    if n == 0 then [] else Data(segs, n - 1) + segs[n - 1].data
  }

  function ManOff(segs: seq<SegmentSpec>): (o: nat) {
    HEADER_LEN + |segs| * SEGMENT_LEN
  }

  function DataOff(segs: seq<SegmentSpec>, man: seq<ManifestSpec>): (o: nat) {
    ManOff(segs) + |man| * MANIFEST_LEN
  }

  function Total(segs: seq<SegmentSpec>, man: seq<ManifestSpec>): (t: nat) {
    DataOff(segs, man) + DataLen(segs, |segs|)
  }

  function HeaderFields(arch: u16, entry: u64, segs: seq<SegmentSpec>, man: seq<ManifestSpec>): (fs: Fields)
    ensures |fs| == 12
  {
    [(PEX_MAGIC, 4), (PEX_VERSION, 2), (arch, 2), (entry, 8), (Total(segs, man), 4), (HEADER_LEN, 4), (|segs|, 2),
      (|man|, 2),
     (ManOff(segs), 4), (0, 4), (0, 4), (0, 8)]
  }

  function SegmentFields(s: SegmentSpec, off: nat): (fs: Fields)
    ensures |fs| == 6
  {
    [(off, 4), (|s.data|, 4), (s.vaddr, 8), (s.memSize, 8), (s.perm, 1), (0, 7)]
  }

  function ManifestFields(m: ManifestSpec): (fs: Fields)
    ensures |fs| == 7
  {
    [(m.capType, 1), (0, 1), (m.destSlot, 2), (m.rights, 4), (m.param0, 8), (m.param1, 8), (0, 8)]
  }

  lemma HeaderOffsets(fs: Fields)
    requires |fs| == 12 && fs[0].1 == 4 && fs[1].1 == 2 && fs[2].1 == 2 && fs[3].1 == 8 && fs[4].1 == 4 && fs[5].1 == 4
    requires fs[6].1 == 2 && fs[7].1 == 2 && fs[8].1 == 4 && fs[9].1 == 4 && fs[10].1 == 4 && fs[11].1 == 8
    ensures Offset(fs, 0) == 0 && Offset(fs, 1) == 4 && Offset(fs, 2) == 6 && Offset(fs, 3) == 8
    ensures Offset(fs, 4) == 16 && Offset(fs, 5) == 20
    ensures Offset(fs, 6) == 24 && Offset(fs, 7) == 26 && Offset(fs, 8) == 28 && Offset(fs, 9) == 32
    ensures Offset(fs, 10) == 36
    ensures Offset(fs, 11) == 40 && Offset(fs, 12) == 48
  {
    assert Offset(fs, 1) == 4;
    assert Offset(fs, 2) == 6;
    assert Offset(fs, 3) == 8;
    assert Offset(fs, 4) == 16;
    assert Offset(fs, 5) == 20;
    assert Offset(fs, 6) == 24;
    assert Offset(fs, 7) == 26;
    assert Offset(fs, 8) == 28;
    assert Offset(fs, 9) == 32;
    assert Offset(fs, 10) == 36;
    assert Offset(fs, 11) == 40;
  }

  lemma SegmentOffsets(s: SegmentSpec, off: nat)
    ensures var fs := SegmentFields(s, off);
      Offset(fs, 0) == 0 && Offset(fs, 1) == 4 && Offset(fs, 2) == 8 && Offset(fs, 3) == 16 && Offset(fs, 4) == 24
        && Offset(fs, 5) == 25 && Offset(fs, 6) == 32
  {
    var fs := SegmentFields(s, off);
    assert Offset(fs, 1) == 4;
    assert Offset(fs, 2) == 8;
    assert Offset(fs, 3) == 16;
    assert Offset(fs, 4) == 24;
    assert Offset(fs, 5) == 25;
  }

  lemma ManifestOffsets(m: ManifestSpec)
    ensures var fs := ManifestFields(m);
      Offset(fs, 0) == 0 && Offset(fs, 1) == 1 && Offset(fs, 2) == 2 && Offset(fs, 3) == 4 && Offset(fs, 4) == 8
        && Offset(fs, 5) == 16 && Offset(fs, 6) == 24 && Offset(fs, 7) == 32
  {
    var fs := ManifestFields(m);
    assert Offset(fs, 1) == 1;
    assert Offset(fs, 2) == 2;
    assert Offset(fs, 3) == 4;
    assert Offset(fs, 4) == 8;
    assert Offset(fs, 5) == 16;
    assert Offset(fs, 6) == 24;
  }

  function HeaderBytes(arch: u16, entry: u64, segs: seq<SegmentSpec>, man: seq<ManifestSpec>): (b: seq<byte>)
    ensures |b| == HEADER_LEN
  {
    var fs := HeaderFields(arch, entry, segs, man);
    HeaderOffsets(fs);
    Bytes(fs, 12)
  }

  function SegmentBytes(s: SegmentSpec, off: nat): (b: seq<byte>)
    ensures |b| == SEGMENT_LEN
  {
    SegmentOffsets(s, off);
    Bytes(SegmentFields(s, off), 6)
  }

  function ManifestBytes(m: ManifestSpec): (b: seq<byte>)
    ensures |b| == MANIFEST_LEN
  {
    ManifestOffsets(m);
    Bytes(ManifestFields(m), 7)
  }

  /** The first `n` segment records; their data starts at `cursor`. */
  function SegmentTable(segs: seq<SegmentSpec>, cursor: nat, n: nat): (b: seq<byte>)
    requires n <= |segs|
    ensures |b| == n * SEGMENT_LEN
  {
    if n == 0 then [] else SegmentTable(segs, cursor, n - 1) + SegmentBytes(segs[n - 1], cursor + DataLen(segs, n - 1))
  }

  function ManifestTable(man: seq<ManifestSpec>, n: nat): (b: seq<byte>)
    requires n <= |man|
    ensures |b| == n * MANIFEST_LEN
  {
    if n == 0 then [] else ManifestTable(man, n - 1) + ManifestBytes(man[n - 1])
  }

  /** Header, segment table, manifest table and the segments' bytes, one after the other. */
  function Encoded(arch: u16, entry: u64, segs: seq<SegmentSpec>, man: seq<ManifestSpec>): (b: seq<byte>)
    ensures |b| == Total(segs, man)
  {
    HeaderBytes(arch, entry, segs, man) + SegmentTable(segs, DataOff(segs, man), |segs|) + ManifestTable(man, |man|)
      + Data(segs, |segs|)
  }

  /** The counts and the size the format can express. */
  predicate Encodable(segs: seq<SegmentSpec>, man: seq<ManifestSpec>) {
    |segs| <= MAX_SEGMENTS && |man| <= MAX_MANIFEST && Total(segs, man) < 0x1_0000_0000
  }

  // ---- reading the parts back ----

  lemma {:induction false} SegmentTableAt(segs: seq<SegmentSpec>, cursor: nat, i: nat, n: nat)
    requires i < n <= |segs|
    ensures SegmentTable(segs, cursor, n)[i * SEGMENT_LEN..i * SEGMENT_LEN + SEGMENT_LEN] ==
      SegmentBytes(segs[i], cursor + DataLen(segs, i))
  {
    if i < n - 1 { SegmentTableAt(segs, cursor, i, n - 1); }
  }

  lemma {:induction false} ManifestTableAt(man: seq<ManifestSpec>, i: nat, n: nat)
    requires i < n <= |man|
    ensures ManifestTable(man, n)[i * MANIFEST_LEN..i * MANIFEST_LEN + MANIFEST_LEN] == ManifestBytes(man[i])
  {
    if i < n - 1 { ManifestTableAt(man, i, n - 1); }
  }

  lemma {:induction false} DataAt(segs: seq<SegmentSpec>, i: nat, n: nat)
    requires i < n <= |segs|
    ensures DataLen(segs, i) + |segs[i].data| <= DataLen(segs, n)
    ensures Data(segs, n)[DataLen(segs, i)..DataLen(segs, i) + |segs[i].data|] == segs[i].data
  {
    var before, last, o := Data(segs, n - 1), segs[n - 1].data, DataLen(segs, i);
    assert Data(segs, n) == before + last && DataLen(segs, n) == |before| + |last|;
    hide Data;
    hide DataLen;
    if i < n - 1 {
      DataAt(segs, i, n - 1);
      assert (before + last)[o..o + |segs[i].data|] == before[o..o + |segs[i].data|];
    } else {
      assert (before + last)[|before|..|before| + |last|] == last;
    }
  }

  lemma Around(b: seq<byte>, o: nat, mid: seq<byte>)
    requires o + |mid| <= |b| && b[o..o + |mid|] == mid
    ensures b == b[..o] + mid + b[o + |mid|..]
  {
  }

  lemma ReadSegment(b: seq<byte>, segOff: nat, i: nat, s: SegmentSpec, off: nat)
    requires var o := segOff + i * SEGMENT_LEN; o + SEGMENT_LEN <= |b| && b[o..o + SEGMENT_LEN] == SegmentBytes(s, off)
    requires off < 0x1_0000_0000 && |s.data| < 0x1_0000_0000
    ensures SegmentRaw(b, segOff, i) == Ok(Segment(off, |s.data|, s.vaddr, s.memSize, s.perm))
  {
    var o, fs := segOff + i * SEGMENT_LEN, SegmentFields(s, off);
    Widths();
    assert Pow256(7) >= 1;
    SegmentOffsets(s, off);
    Around(b, o, SegmentBytes(s, off));
    ReadField(b[..o], fs, b[o + SEGMENT_LEN..], 0);
    ReadField(b[..o], fs, b[o + SEGMENT_LEN..], 1);
    ReadField(b[..o], fs, b[o + SEGMENT_LEN..], 2);
    ReadField(b[..o], fs, b[o + SEGMENT_LEN..], 3);
    ReadField(b[..o], fs, b[o + SEGMENT_LEN..], 4);
  }

  lemma ReadManifest(b: seq<byte>, manOff: nat, i: nat, m: ManifestSpec)
    requires var o := manOff + i * MANIFEST_LEN; o + MANIFEST_LEN <= |b| && b[o..o + MANIFEST_LEN] == ManifestBytes(m)
    ensures ManifestRaw(b, manOff, i) == Ok(ManifestEntry(m.capType, m.destSlot, m.rights, m.param0, m.param1))
  {
    var o, fs := manOff + i * MANIFEST_LEN, ManifestFields(m);
    Widths();
    ManifestOffsets(m);
    Around(b, o, ManifestBytes(m));
    ReadField(b[..o], fs, b[o + MANIFEST_LEN..], 0);
    ReadField(b[..o], fs, b[o + MANIFEST_LEN..], 2);
    ReadField(b[..o], fs, b[o + MANIFEST_LEN..], 3);
    ReadField(b[..o], fs, b[o + MANIFEST_LEN..], 4);
    ReadField(b[..o], fs, b[o + MANIFEST_LEN..], 5);
  }

  lemma HeaderFits(arch: u16, entry: u64, segs: seq<SegmentSpec>, man: seq<ManifestSpec>)
    requires Encodable(segs, man)
    ensures Fits(HeaderFields(arch, entry, segs, man))
  {
    Widths();
  }

  lemma HeaderReads(b: seq<byte>, arch: u16, entry: u64, segs: seq<SegmentSpec>, man: seq<ManifestSpec>, k: nat)
    requires Encodable(segs, man) && k < 12 && HeaderBytes(arch, entry, segs, man) <= b
    ensures var fs := HeaderFields(arch, entry, segs, man); Rd(b, Offset(fs, k), fs[k].1) == Ok(fs[k].0)
  {
    hide Bytes;
    hide Fits;
    hide Rd;
    HeaderFits(arch, entry, segs, man);
    HeaderOffsets(HeaderFields(arch, entry, segs, man));
    var h := HeaderBytes(arch, entry, segs, man);
    assert b == [] + h + b[HEADER_LEN..];
    ReadField([], HeaderFields(arch, entry, segs, man), b[HEADER_LEN..], k);
  }

  lemma HeaderParses(b: seq<byte>, arch: u16, entry: u64, segs: seq<SegmentSpec>, man: seq<ManifestSpec>)
    requires Encodable(segs, man) && HeaderBytes(arch, entry, segs, man) <= b && |b| == Total(segs, man)
    ensures ParseHeader(b, arch) == Ok(Header(entry, HEADER_LEN, |segs|, ManOff(segs), |man|))
  {
    HeaderOffsets(HeaderFields(arch, entry, segs, man));
    HeaderReads(b, arch, entry, segs, man, 0);
    HeaderReads(b, arch, entry, segs, man, 1);
    HeaderReads(b, arch, entry, segs, man, 2);
    HeaderReads(b, arch, entry, segs, man, 3);
    HeaderReads(b, arch, entry, segs, man, 4);
    HeaderReads(b, arch, entry, segs, man, 5);
    HeaderReads(b, arch, entry, segs, man, 6);
    HeaderReads(b, arch, entry, segs, man, 7);
    HeaderReads(b, arch, entry, segs, man, 8);
    HeaderReads(b, arch, entry, segs, man, 9);
    HeaderReads(b, arch, entry, segs, man, 10);
    HeaderReads(b, arch, entry, segs, man, 11);
    hide Rd;
    hide Offset;
  }

  lemma SubSlice(b: seq<byte>, p: nat, t: seq<byte>, x: nat, n: nat)
    requires p + |t| <= |b| && b[p..p + |t|] == t && x + n <= |t|
    ensures b[p + x..p + x + n] == t[x..x + n]
  {
    var u, w := b[p + x..p + x + n], t[x..x + n];
    forall j | 0 <= j < |u|
      ensures u[j] == w[j]
    {
      assert b[p..p + |t|][x + j] == t[x + j];
    }
  }

  lemma Parts(h: seq<byte>, t: seq<byte>, m: seq<byte>, d: seq<byte>)
    ensures var b := h + t + m + d;
      && h <= b && b[|h|..|h| + |t|] == t && b[|h| + |t|..|h| + |t| + |m|] == m && b[|h| + |t| + |m|..] == d
  {
  }

  lemma SegmentsRead(arch: u16, entry: u64, segs: seq<SegmentSpec>, man: seq<ManifestSpec>, i: nat)
    requires Encodable(segs, man) && i < |segs|
    ensures var b, off := Encoded(arch, entry, segs, man), DataOff(segs, man) + DataLen(segs, i);
      SegmentRaw(b, HEADER_LEN, i) == Ok(Segment(off, |segs[i].data|, segs[i].vaddr, segs[i].memSize, segs[i].perm))
  {
    hide SegmentTable;
    hide ManifestTable;
    hide HeaderBytes;
    hide SegmentBytes;
    hide SegmentRaw;
    hide Data;
    hide DataLen;
    var b, off := Encoded(arch, entry, segs, man), DataOff(segs, man) + DataLen(segs, i);
    var h, t := HeaderBytes(arch, entry, segs, man), SegmentTable(segs, DataOff(segs, man), |segs|);
    Parts(h, t, ManifestTable(man, |man|), Data(segs, |segs|));
    SegmentTableAt(segs, DataOff(segs, man), i, |segs|);
    DataAt(segs, i, |segs|);
    SubSlice(b, HEADER_LEN, t, i * SEGMENT_LEN, SEGMENT_LEN);
    ReadSegment(b, HEADER_LEN, i, segs[i], off);
  }

  lemma DataReads(arch: u16, entry: u64, segs: seq<SegmentSpec>, man: seq<ManifestSpec>, i: nat)
    requires i < |segs|
    ensures var b, off := Encoded(arch, entry, segs, man), DataOff(segs, man) + DataLen(segs, i);
      off + |segs[i].data| <= |b| && b[off..off + |segs[i].data|] == segs[i].data
  {
    hide SegmentTable;
    hide ManifestTable;
    hide HeaderBytes;
    hide Data;
    hide DataLen;
    var b, d := Encoded(arch, entry, segs, man), Data(segs, |segs|);
    Parts(HeaderBytes(arch, entry, segs, man), SegmentTable(segs, DataOff(segs, man), |segs|),
      ManifestTable(man, |man|), d);
    DataAt(segs, i, |segs|);
    SubSlice(b, DataOff(segs, man), d, DataLen(segs, i), |segs[i].data|);
  }

  lemma ManifestReads(arch: u16, entry: u64, segs: seq<SegmentSpec>, man: seq<ManifestSpec>, i: nat)
    requires i < |man|
    ensures var m := man[i];
      ManifestRaw(Encoded(arch, entry, segs, man), ManOff(segs), i) ==
        Ok(ManifestEntry(m.capType, m.destSlot, m.rights, m.param0, m.param1))
  {
    hide SegmentTable;
    hide ManifestTable;
    hide HeaderBytes;
    hide ManifestBytes;
    hide ManifestRaw;
    hide Data;
    hide DataLen;
    var b, t := Encoded(arch, entry, segs, man), ManifestTable(man, |man|);
    Parts(HeaderBytes(arch, entry, segs, man), SegmentTable(segs, DataOff(segs, man), |segs|), t, Data(segs, |segs|));
    ManifestTableAt(man, i, |man|);
    SubSlice(b, ManOff(segs), t, i * MANIFEST_LEN, MANIFEST_LEN);
    ReadManifest(b, ManOff(segs), i, man[i]);
  }

  // ---- the round trip ----

  function Given(s: SegmentSpec): (r: Segment) {
    Segment(0, |s.data|, s.vaddr, s.memSize, s.perm)
  }

  /** The segments a caller may encode: mappable, and one executable one holds the entry. */
  ghost predicate ValidInput(entry: u64, segs: seq<SegmentSpec>) {
    && (forall i: nat :: i < |segs| ==> SegmentOk(|segs[i].data|, Given(segs[i])))
    && (exists i: nat :: i < |segs| && CodeAt(Given(segs[i]), entry))
  }

  /** Segment record `i` of the image as the parser reads it. */
  function Stored(segs: seq<SegmentSpec>, man: seq<ManifestSpec>, i: nat): (s: Segment)
    requires i < |segs|
  {
    Segment(DataOff(segs, man) + DataLen(segs, i), |segs[i].data|, segs[i].vaddr, segs[i].memSize, segs[i].perm)
  }

  lemma AllSegmentsRead(arch: u16, entry: u64, segs: seq<SegmentSpec>, man: seq<ManifestSpec>)
    requires Encodable(segs, man)
    ensures var b := Encoded(arch, entry, segs, man);
      forall i: nat :: i < |segs| ==> (
        && SegmentRaw(b, HEADER_LEN, i) == Ok(Stored(segs, man, i))
        && Stored(segs, man, i).fileOff + |segs[i].data| <= |b|
        && b[Stored(segs, man, i).fileOff..Stored(segs, man, i).fileOff + |segs[i].data|] == segs[i].data)
  {
    hide SegmentRaw;
    hide Encoded;
    hide DataLen;
    forall i: nat | i < |segs|
      ensures var b := Encoded(arch, entry, segs, man);
        && SegmentRaw(b, HEADER_LEN, i) == Ok(Stored(segs, man, i))
        && Stored(segs, man, i).fileOff + |segs[i].data| <= |b|
        && b[Stored(segs, man, i).fileOff..Stored(segs, man, i).fileOff + |segs[i].data|] == segs[i].data
    {
      SegmentsRead(arch, entry, segs, man, i);
      DataReads(arch, entry, segs, man, i);
    }
  }

  lemma EncodedHeader(arch: u16, entry: u64, segs: seq<SegmentSpec>, man: seq<ManifestSpec>)
    requires Encodable(segs, man)
    ensures ParseHeader(Encoded(arch, entry, segs, man), arch) ==
      Ok(Header(entry, HEADER_LEN, |segs|, ManOff(segs), |man|))
  {
    hide ParseHeader;
    hide HeaderBytes;
    hide SegmentTable;
    hide ManifestTable;
    hide Data;
    Parts(HeaderBytes(arch, entry, segs, man), SegmentTable(segs, DataOff(segs, man), |segs|),
      ManifestTable(man, |man|), Data(segs, |segs|));
    HeaderParses(Encoded(arch, entry, segs, man), arch, entry, segs, man);
  }

  lemma SameVerdict(len: nat, a: Segment, b: Segment, entry: u64)
    requires a.fileOff + a.fileSize <= len && b == a.(fileOff := 0)
    ensures SegmentOk(len, a) <==> SegmentOk(b.fileSize, b)
    ensures CodeAt(a, entry) <==> CodeAt(b, entry)
  {
  }

  /** Parsing an encoded image succeeds exactly when the input was valid. */
  lemma ParsesIffValid(arch: u16, entry: u64, segs: seq<SegmentSpec>, man: seq<ManifestSpec>)
    requires Encodable(segs, man)
    ensures Parse(Encoded(arch, entry, segs, man), arch).Ok? <==> ValidInput(entry, segs)
  {
    hide ParseHeader;
    hide Parse;
    hide SegmentRaw;
    hide Encoded;
    hide DataLen;
    hide SegmentOk;
    hide CodeAt;
    var b := Encoded(arch, entry, segs, man);
    EncodedHeader(arch, entry, segs, man);
    ParseIffWellFormed(b, arch);
    AllSegmentsRead(arch, entry, segs, man);
    forall i: nat | i < |segs|
      ensures SegmentOk(|b|, Stored(segs, man, i)) <==> SegmentOk(|segs[i].data|, Given(segs[i]))
      ensures CodeAt(Stored(segs, man, i), entry) <==> CodeAt(Given(segs[i]), entry)
    {
      SameVerdict(|b|, Stored(segs, man, i), Given(segs[i]), entry);
    }
    hide Stored;
    hide Given;
    if ValidInput(entry, segs) {
      var k: nat :| k < |segs| && CodeAt(Given(segs[k]), entry);
      assert CodeAt(SegmentRaw(b, HEADER_LEN, k).value, entry);
    }
  }

  /** What the parser reads from an encoded image is what was encoded: the entry, every segment with
      its bytes, and every manifest entry. */
  lemma RoundTrip(arch: u16, entry: u64, segs: seq<SegmentSpec>, man: seq<ManifestSpec>)
    requires Encodable(segs, man) && ValidInput(entry, segs)
    ensures var b := Encoded(arch, entry, segs, man);
      && Parse(b, arch) == Ok(Image(b, Header(entry, HEADER_LEN, |segs|, ManOff(segs), |man|)))
      && (forall i: nat :: i < |segs| ==> (
            && SegmentRaw(b, HEADER_LEN, i).Ok?
            && var s := SegmentRaw(b, HEADER_LEN, i).value;
            && s.vaddr == segs[i].vaddr && s.memSize == segs[i].memSize && s.perm == segs[i].perm
            && s.fileOff + s.fileSize <= |b| && b[s.fileOff..s.fileOff + s.fileSize] == segs[i].data))
      && (forall i: nat :: i < |man| ==>
            ManifestRaw(b, ManOff(segs), i) ==
              Ok(ManifestEntry(man[i].capType, man[i].destSlot, man[i].rights, man[i].param0, man[i].param1)))
  {
    hide ParseHeader;
    hide SegmentRaw;
    hide ManifestRaw;
    hide Encoded;
    hide DataLen;
    hide CheckSegments;
    hide CheckManifest;
    hide ValidInput;
    EncodedHeader(arch, entry, segs, man);
    ParsesIffValid(arch, entry, segs, man);
    AllSegmentsRead(arch, entry, segs, man);
    forall i: nat | i < |man|
      ensures ManifestRaw(Encoded(arch, entry, segs, man), ManOff(segs), i)
           == Ok(ManifestEntry(man[i].capType, man[i].destSlot, man[i].rights, man[i].param0, man[i].param1))
    {
      ManifestReads(arch, entry, segs, man, i);
    }
  }
}

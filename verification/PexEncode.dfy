/** The `.pex` encoder, writing in place into the caller's buffer. */
module PexEncode {
  import opened LittleEndian
  import opened Pex
  import opened PexLayout

  function Zeros(n: nat): (z: seq<byte>)
    ensures |z| == n
  {
    seq(n, i => 0)
  }

  lemma {:induction false} LeZero(n: nat)
    ensures Le(0, n) == Zeros(n)
  {
    if n > 0 {
      LeZero(n - 1);
      assert Zeros(n) == [0] + Zeros(n - 1);
    }
  }

  lemma PatchAppend(s: seq<byte>, o: nat, w: seq<byte>, v: seq<byte>)
    requires o + |w| + |v| <= |s|
    ensures Patch(Patch(s, o, w), o + |w|, v) == Patch(s, o, w + v)
  {
  }

  lemma PatchCommute(s: seq<byte>, o: nat, w: seq<byte>, p: nat, v: seq<byte>)
    requires o + |w| <= p && p + |v| <= |s|
    ensures Patch(Patch(s, o, w), p, v) == Patch(Patch(s, p, v), o, w)
  {
  }

  lemma PatchSame(s: seq<byte>, o: nat, n: nat)
    requires o + n <= |s|
    ensures Patch(s, o, s[o..o + n]) == s
  {
  }

  lemma PatchElsewhere(s: seq<byte>, o: nat, w: seq<byte>, p: nat, n: nat)
    requires o + |w| <= |s| && p + n <= |s| && (o + |w| <= p || p + n <= o)
    ensures Patch(s, o, w)[p..p + n] == s[p..p + n]
  {
  }

  // ---- writing a record field by field ----

  /** Writing the next field of a record extends the part of the record that is in place. */
  lemma NextField(s: seq<byte>, base: nat, fs: Fields, k: nat)
    requires k < |fs| && base + Offset(fs, k + 1) <= |s|
    ensures Patch(Patch(s, base, Bytes(fs, k)), base + Offset(fs, k), Le(fs[k].0, fs[k].1)) ==
      Patch(s, base, Bytes(fs, k + 1))
  {
    hide Patch;
    PatchAppend(s, base, Bytes(fs, k), Le(fs[k].0, fs[k].1));
  }

  /** A field whose value is zero is already in place in a zeroed record. */
  lemma ZeroField(s: seq<byte>, base: nat, fs: Fields, k: nat)
    requires k < |fs| && base + Offset(fs, k + 1) <= |s| && fs[k].0 == 0
    requires s[base + Offset(fs, k)..base + Offset(fs, k + 1)] == Zeros(fs[k].1)
    ensures Patch(s, base, Bytes(fs, k)) == Patch(s, base, Bytes(fs, k + 1))
  {
    LeZero(fs[k].1);
    var o, n := base + Offset(fs, k), fs[k].1;
    hide Zeros;
    hide Le;
    PatchElsewhere(s, base, Bytes(fs, k), o, n);
    PatchSame(Patch(s, base, Bytes(fs, k)), o, n);
    NextField(s, base, fs, k);
  }

  lemma PatchOne(s: seq<byte>, o: nat, w: seq<byte>, i: nat)
    requires o + |w| <= |s| && i < |w|
    ensures Patch(s, o, w[..i])[o + i := w[i]] == Patch(s, o, w[..i + 1])
  {
  }

  method Write(out: array<byte>, o: nat, w: seq<byte>)
    requires o + |w| <= out.Length
    modifies out
    ensures out[..] == Patch(old(out[..]), o, w)
  {
    ghost var s := out[..];
    PatchSame(s, o, 0);
    hide Patch;
    for i := 0 to |w|
      invariant out[..] == Patch(s, o, w[..i])
    {
      out[o + i] := w[i];
      PatchOne(s, o, w, i);
      assert out[..] == Patch(s, o, w[..i])[o + i := w[i]];
    }
    assert w[..|w|] == w;
  }

  /** A part of a record is in place: the buffer is `s` with the first `k` fields written at `base`. */
  ghost predicate InPlace(b: seq<byte>, s: seq<byte>, base: nat, fs: Fields, k: nat) {
    k <= |fs| && base + Offset(fs, k) <= |s| && b == Patch(s, base, Bytes(fs, k))
  }

  lemma NothingInPlace(s: seq<byte>, base: nat, fs: Fields)
    requires base <= |s|
    ensures InPlace(s, s, base, fs, 0)
  {
    PatchSame(s, base, 0);
    assert Bytes(fs, 0) == s[base..base];
  }

  lemma ZeroInPlace(b: seq<byte>, s: seq<byte>, base: nat, n: nat, fs: Fields, k: nat)
    requires InPlace(b, s, base, fs, k) && k < |fs| && fs[k].0 == 0 && Offset(fs, k + 1) <= n
    requires base + n <= |s| && s[base..base + n] == Zeros(n)
    ensures InPlace(b, s, base, fs, k + 1)
  {
    ZeroSlice(s, base, n, Offset(fs, k), fs[k].1);
    ZeroField(s, base, fs, k);
  }

  method WriteField(v: nat, n: nat, o: nat, out: array<byte>, ghost s: seq<byte>, ghost base: nat, ghost fs: Fields,
                    ghost k: nat)
    requires InPlace(out[..], s, base, fs, k) && k < |fs| && fs[k] == (v, n)
    requires o == base + Offset(fs, k) && o + n <= out.Length == |s|
    modifies out
    ensures InPlace(out[..], s, base, fs, k + 1)
  {
    Write(out, o, Le(v, n));
    NextField(s, base, fs, k);
  }

  lemma HeaderInPlace(b: seq<byte>, s: seq<byte>, arch: u16, entry: u64, segs: seq<SegmentSpec>, man: seq<ManifestSpec>)
    requires InPlace(b, s, 0, HeaderFields(arch, entry, segs, man), 12)
    ensures HEADER_LEN <= |s| && b == Patch(s, 0, HeaderBytes(arch, entry, segs, man))
  {
    hide Patch;
    HeaderOffsets(HeaderFields(arch, entry, segs, man));
  }

  lemma ManifestInPlace(b: seq<byte>, s: seq<byte>, rec: nat, m: ManifestSpec)
    requires InPlace(b, s, rec, ManifestFields(m), 7)
    ensures rec + MANIFEST_LEN <= |s| && b == Patch(s, rec, ManifestBytes(m))
  {
    hide Patch;
    ManifestOffsets(m);
  }

  method WriteHeader(arch: u16, entry: u64, segs: seq<SegmentSpec>, man: seq<ManifestSpec>, out: array<byte>)
    requires HEADER_LEN <= out.Length && out[..HEADER_LEN] == Zeros(HEADER_LEN)
    modifies out
    ensures out[..] == Patch(old(out[..]), 0, HeaderBytes(arch, entry, segs, man))
  {
    hide InPlace;
    hide Offset;
    hide HeaderBytes;
    hide Zeros;
    hide Patch;
    ghost var s, fs := out[..], HeaderFields(arch, entry, segs, man);
    HeaderOffsets(fs);
    NothingInPlace(s, 0, fs);
    assert s[0..HEADER_LEN] == Zeros(HEADER_LEN);
    WriteField(PEX_MAGIC, 4, 0, out, s, 0, fs, 0);
    WriteField(PEX_VERSION, 2, 4, out, s, 0, fs, 1);
    WriteField(arch, 2, 6, out, s, 0, fs, 2);
    WriteField(entry, 8, 8, out, s, 0, fs, 3);
    WriteField(Total(segs, man), 4, 16, out, s, 0, fs, 4);
    WriteField(HEADER_LEN, 4, 20, out, s, 0, fs, 5);
    WriteField(|segs|, 2, 24, out, s, 0, fs, 6);
    WriteField(|man|, 2, 26, out, s, 0, fs, 7);
    WriteField(ManOff(segs), 4, 28, out, s, 0, fs, 8);
    ZeroInPlace(out[..], s, 0, HEADER_LEN, fs, 9);
    ZeroInPlace(out[..], s, 0, HEADER_LEN, fs, 10);
    ZeroInPlace(out[..], s, 0, HEADER_LEN, fs, 11);
    HeaderInPlace(out[..], s, arch, entry, segs, man);
  }

  lemma ZeroSlice(s: seq<byte>, base: nat, n: nat, o: nat, m: nat)
    requires base + n <= |s| && s[base..base + n] == Zeros(n) && o + m <= n
    ensures s[base + o..base + o + m] == Zeros(m)
  {
    assert Zeros(n)[o..o + m] == Zeros(m);
    SubSlice(s, base, Zeros(n), o, m);
  }

  method WriteSegment(s: SegmentSpec, cursor: nat, rec: nat, out: array<byte>)
    requires rec + SEGMENT_LEN <= out.Length && out[rec..rec + SEGMENT_LEN] == Zeros(SEGMENT_LEN)
    modifies out
    ensures out[..] == Patch(old(out[..]), rec, SegmentBytes(s, cursor))
  {
    ghost var b, fs := out[..], SegmentFields(s, cursor);
    SegmentOffsets(s, cursor);
    NothingInPlace(b, rec, fs);
    assert b[rec..rec + SEGMENT_LEN] == Zeros(SEGMENT_LEN);
    assert forall c :: InPlace(c, b, rec, fs, 6) ==> c == Patch(b, rec, SegmentBytes(s, cursor));
    hide InPlace;
    hide Offset;
    hide SegmentBytes;
    hide Zeros;
    hide Patch;
    WriteField(cursor, 4, rec, out, b, rec, fs, 0);
    WriteField(|s.data|, 4, rec + 4, out, b, rec, fs, 1);
    WriteField(s.vaddr, 8, rec + 8, out, b, rec, fs, 2);
    WriteField(s.memSize, 8, rec + 16, out, b, rec, fs, 3);
    WriteField(s.perm, 1, rec + 24, out, b, rec, fs, 4);
    ZeroInPlace(out[..], b, rec, SEGMENT_LEN, fs, 5);
  }

  method WriteManifest(m: ManifestSpec, rec: nat, out: array<byte>)
    requires rec + MANIFEST_LEN <= out.Length && out[rec..rec + MANIFEST_LEN] == Zeros(MANIFEST_LEN)
    modifies out
    ensures out[..] == Patch(old(out[..]), rec, ManifestBytes(m))
  {
    hide InPlace;
    hide Offset;
    hide ManifestBytes;
    hide Zeros;
    hide Patch;
    ghost var b, fs := out[..], ManifestFields(m);
    ManifestOffsets(m);
    NothingInPlace(b, rec, fs);
    assert b[rec..rec + MANIFEST_LEN] == Zeros(MANIFEST_LEN);
    WriteField(m.capType, 1, rec, out, b, rec, fs, 0);
    ZeroInPlace(out[..], b, rec, MANIFEST_LEN, fs, 1);
    WriteField(m.destSlot, 2, rec + 2, out, b, rec, fs, 2);
    WriteField(m.rights, 4, rec + 4, out, b, rec, fs, 3);
    WriteField(m.param0, 8, rec + 8, out, b, rec, fs, 4);
    WriteField(m.param1, 8, rec + 16, out, b, rec, fs, 5);
    ZeroInPlace(out[..], b, rec, MANIFEST_LEN, fs, 6);
    ManifestInPlace(out[..], b, rec, m);
  }

  // ---- the image ----

  /** The buffer `z` with `i` segments written. */
  function SegmentStage(z: seq<byte>, segs: seq<SegmentSpec>, man: seq<ManifestSpec>, i: nat): (b: seq<byte>)
    requires i <= |segs| && Total(segs, man) <= |z|
    ensures |b| == |z|
  {
    DataGrows(segs, i, |segs|);
    Patch(Patch(z, HEADER_LEN, SegmentTable(segs, DataOff(segs, man), i)), DataOff(segs, man), Data(segs, i))
  }

  /** The buffer `z` with `i` segments and `j` manifest entries written. */
  function Stage(z: seq<byte>, segs: seq<SegmentSpec>, man: seq<ManifestSpec>, i: nat, j: nat): (b: seq<byte>)
    requires i <= |segs| && j <= |man| && Total(segs, man) <= |z|
    ensures |b| == |z|
  {
    Patch(SegmentStage(z, segs, man, i), ManOff(segs), ManifestTable(man, j))
  }

  lemma {:induction false} DataGrows(segs: seq<SegmentSpec>, i: nat, n: nat)
    requires i <= n <= |segs|
    ensures DataLen(segs, i) <= DataLen(segs, n)
  {
    if i < n { DataGrows(segs, i, n - 1); }
  }

  lemma NothingStaged(z: seq<byte>, segs: seq<SegmentSpec>, man: seq<ManifestSpec>)
    requires Total(segs, man) <= |z|
    ensures Stage(z, segs, man, 0, 0) == z
  {
    DataGrows(segs, 0, |segs|);
    PatchSame(z, HEADER_LEN, 0);
    PatchSame(z, ManOff(segs), 0);
    PatchSame(z, DataOff(segs, man), 0);
    hide Patch;
    assert SegmentTable(segs, DataOff(segs, man), 0) == z[HEADER_LEN..HEADER_LEN];
    assert Data(segs, 0) == z[DataOff(segs, man)..DataOff(segs, man)];
    assert ManifestTable(man, 0) == z[ManOff(segs)..ManOff(segs)];
  }

  /** Two writes at `a` and `d` may be extended in either order. */
  lemma Extend2(z: seq<byte>, a: nat, t: seq<byte>, x: seq<byte>, d: nat, u: seq<byte>, y: seq<byte>)
    requires a + |t| + |x| <= d && d + |u| + |y| <= |z|
    ensures Patch(Patch(Patch(Patch(z, a, t), d, u), a + |t|, x), d + |u|, y) == Patch(Patch(z, a, t + x), d, u + y)
  {
    PatchCommute(Patch(z, a, t), a + |t|, x, d, u);
    PatchAppend(z, a, t, x);
    PatchAppend(Patch(z, a, t + x), d, u, y);
    hide Patch;
  }

  lemma StageSegment(z: seq<byte>, segs: seq<SegmentSpec>, man: seq<ManifestSpec>, i: nat)
    requires i < |segs| && Total(segs, man) <= |z|
    ensures DataOff(segs, man) + DataLen(segs, i + 1) <= |z|
    ensures var rec, cursor := HEADER_LEN + i * SEGMENT_LEN, DataOff(segs, man) + DataLen(segs, i);
      Patch(Patch(Stage(z, segs, man, i, 0), rec, SegmentBytes(segs[i], cursor)), cursor, segs[i].data) ==
        Stage(z, segs, man, i + 1, 0)
  {
    hide Patch;
    hide Stage;
    hide SegmentBytes;
    var cursor, t := DataOff(segs, man) + DataLen(segs, i), SegmentTable(segs, DataOff(segs, man), i);
    DataGrows(segs, i + 1, |segs|);
    EmptyPatch(z, segs, man, i);
    EmptyPatch(z, segs, man, i + 1);
    assert SegmentTable(segs, DataOff(segs, man), i + 1) == t + SegmentBytes(segs[i], cursor);
    assert Data(segs, i + 1) == Data(segs, i) + segs[i].data;
    hide SegmentTable;
    hide Data;
    Extend2(z, HEADER_LEN, t, SegmentBytes(segs[i], cursor), DataOff(segs, man), Data(segs, i), segs[i].data);
  }

  lemma EmptyPatch(z: seq<byte>, segs: seq<SegmentSpec>, man: seq<ManifestSpec>, i: nat)
    requires i <= |segs| && Total(segs, man) <= |z|
    ensures Stage(z, segs, man, i, 0) == SegmentStage(z, segs, man, i)
  {
    DataGrows(segs, i, |segs|);
    var b := SegmentStage(z, segs, man, i);
    PatchSame(b, ManOff(segs), 0);
    assert ManifestTable(man, 0) == b[ManOff(segs)..ManOff(segs)];
    hide Patch;
  }

  lemma StageManifest(z: seq<byte>, segs: seq<SegmentSpec>, man: seq<ManifestSpec>, j: nat)
    requires j < |man| && Total(segs, man) <= |z|
    ensures Patch(Stage(z, segs, man, |segs|, j), ManOff(segs) + j * MANIFEST_LEN, ManifestBytes(man[j])) ==
      Stage(z, segs, man, |segs|, j + 1)
  {
    var b := SegmentStage(z, segs, man, |segs|);
    hide Patch;
    PatchAppend(b, ManOff(segs), ManifestTable(man, j), ManifestBytes(man[j]));
  }

  /** The records still to be written are zero. */
  lemma RecordsZero(z: seq<byte>, segs: seq<SegmentSpec>, man: seq<ManifestSpec>, i: nat, j: nat, o: nat, n: nat)
    requires i <= |segs| && j <= |man| && Total(segs, man) <= |z|
    requires z[HEADER_LEN..DataOff(segs, man)] == Zeros(DataOff(segs, man) - HEADER_LEN)
    requires (HEADER_LEN + i * SEGMENT_LEN <= o && o + n <= ManOff(segs))
      || (ManOff(segs) + j * MANIFEST_LEN <= o && o + n <= DataOff(segs, man))
    ensures Stage(z, segs, man, i, j)[o..o + n] == Zeros(n)
  {
    DataGrows(segs, i, |segs|);
    ZeroSlice(z, HEADER_LEN, DataOff(segs, man) - HEADER_LEN, o - HEADER_LEN, n);
    hide Zeros;
    var a := Patch(z, HEADER_LEN, SegmentTable(segs, DataOff(segs, man), i));
    PatchElsewhere(z, HEADER_LEN, SegmentTable(segs, DataOff(segs, man), i), o, n);
    PatchElsewhere(a, DataOff(segs, man), Data(segs, i), o, n);
    PatchElsewhere(Patch(a, DataOff(segs, man), Data(segs, i)), ManOff(segs), ManifestTable(man, j), o, n);
    hide Patch;
  }

  lemma Assembled(z: seq<byte>, h: seq<byte>, t: seq<byte>, m: seq<byte>, d: seq<byte>)
    requires |h| + |t| + |m| + |d| <= |z|
    ensures Patch(Patch(Patch(Patch(z, 0, h), |h|, t), |h| + |t| + |m|, d), |h| + |t|, m) == Patch(z, 0, h + t + m + d)
  {
    PatchAppend(z, 0, h, t);
    PatchCommute(Patch(z, 0, h + t), |h| + |t|, m, |h| + |t| + |m|, d);
    PatchAppend(z, 0, h + t, m);
    PatchAppend(z, 0, h + t + m, d);
    hide Patch;
  }

  /** Everything written, the image stands at the front of the buffer. */
  lemma FullyStaged(s: seq<byte>, arch: u16, entry: u64, segs: seq<SegmentSpec>, man: seq<ManifestSpec>)
    requires Total(segs, man) <= |s|
    ensures Stage(Patch(Patch(s, 0, Zeros(Total(segs, man))), 0, HeaderBytes(arch, entry, segs, man)), segs, man,
      |segs|, |man|)
         == Patch(s, 0, Encoded(arch, entry, segs, man))
  {
    hide HeaderBytes;
    hide SegmentTable;
    hide ManifestTable;
    hide Data;
    var z := Patch(s, 0, Zeros(Total(segs, man)));
    Assembled(z, HeaderBytes(arch, entry, segs, man), SegmentTable(segs, DataOff(segs, man), |segs|),
      ManifestTable(man, |man|), Data(segs, |segs|));
    assert Patch(z, 0, Encoded(arch, entry, segs, man)) == Patch(s, 0, Encoded(arch, entry, segs, man));
  }

  lemma Blank(s: seq<byte>, h: seq<byte>, n: nat, d: nat)
    requires |h| <= d <= n <= |s|
    ensures Patch(Patch(s, 0, Zeros(n)), 0, h)[|h|..d] == Zeros(d - |h|)
  {
  }

  method EncodedLen(segs: seq<SegmentSpec>, man: seq<ManifestSpec>) returns (r: nat)
    ensures r == Total(segs, man)
  {
    r := HEADER_LEN + |segs| * SEGMENT_LEN + |man| * MANIFEST_LEN;
    for i := 0 to |segs|
      invariant r == DataOff(segs, man) + DataLen(segs, i)
    {
      r := r + |segs[i].data|;
    }
  }

  /** Writes the image to the front of `out`, or leaves `out` alone. */
  method Encode(arch: u16, entry: u64, segs: seq<SegmentSpec>, man: seq<ManifestSpec>,
                out: array<byte>) returns (ok: bool, len: nat)
    modifies out
    ensures ok <==> Encodable(segs, man) && Total(segs, man) <= out.Length
    ensures ok ==>
      len == Total(segs, man) && out[..len] == Encoded(arch, entry, segs, man) && out[len..] == old(out[len..])
    ensures !ok ==> out[..] == old(out[..])
    ensures ok ==> (Parse(out[..len], arch).Ok? <==> ValidInput(entry, segs))
  {
    len := 0;
    if |segs| > MAX_SEGMENTS || |man| > MAX_MANIFEST {
      return false, 0;
    }
    var total := EncodedLen(segs, man);
    if out.Length < total || total >= 0x1_0000_0000 {
      return false, 0;
    }
    len := total;
    ghost var s := out[..];
    WriteAll(arch, entry, segs, man, total, out);
    ParsesIffValid(arch, entry, segs, man);
    hide Encoded;
    hide Parse;
    hide ValidInput;
    PatchedFront(s, Encoded(arch, entry, segs, man));
    ok := true;
  }

  lemma PatchedFront(s: seq<byte>, w: seq<byte>)
    requires |w| <= |s|
    ensures Patch(s, 0, w)[..|w|] == w && Patch(s, 0, w)[|w|..] == s[|w|..]
  {
  }

  method WriteAll(arch: u16, entry: u64, segs: seq<SegmentSpec>, man: seq<ManifestSpec>, total: nat, out: array<byte>)
    requires total == Total(segs, man) <= out.Length
    modifies out
    ensures out[..] == Patch(old(out[..]), 0, Encoded(arch, entry, segs, man))
  {
    hide Encoded;
    hide Stage;
    hide SegmentBytes;
    hide ManifestBytes;
    hide DataLen;
    ghost var s, h := out[..], HeaderBytes(arch, entry, segs, man);
    hide HeaderBytes;
    Write(out, 0, Zeros(total));
    Blank(s, [], total, HEADER_LEN);
    Blank(s, h, total, DataOff(segs, man));
    assert out[..HEADER_LEN] == out[..][0..HEADER_LEN];
    hide Zeros;
    WriteHeader(arch, entry, segs, man, out);
    ghost var z := out[..];
    NothingStaged(z, segs, man);
    FullyStaged(s, arch, entry, segs, man);
    hide Patch;
    WriteSegments(segs, man, out, z);
    WriteManifests(segs, man, out, z);
  }

  method WriteSegments(segs: seq<SegmentSpec>, man: seq<ManifestSpec>, out: array<byte>, ghost z: seq<byte>)
    requires Total(segs, man) <= |z| == out.Length && out[..] == Stage(z, segs, man, 0, 0)
    requires z[HEADER_LEN..DataOff(segs, man)] == Zeros(DataOff(segs, man) - HEADER_LEN)
    modifies out
    ensures out[..] == Stage(z, segs, man, |segs|, 0)
  {
    hide Stage;
    hide Patch;
    hide Zeros;
    hide SegmentBytes;
    var cursor := DataOff(segs, man);
    for i := 0 to |segs|
      invariant cursor == DataOff(segs, man) + DataLen(segs, i)
      invariant out[..] == Stage(z, segs, man, i, 0)
    {
      var rec := HEADER_LEN + i * SEGMENT_LEN;
      RecordsZero(z, segs, man, i, 0, rec, SEGMENT_LEN);
      StageSegment(z, segs, man, i);
      assert out[rec..rec + SEGMENT_LEN] == out[..][rec..rec + SEGMENT_LEN];
      WriteSegment(segs[i], cursor, rec, out);
      Write(out, cursor, segs[i].data);
      cursor := cursor + |segs[i].data|;
    }
  }

  method WriteManifests(segs: seq<SegmentSpec>, man: seq<ManifestSpec>, out: array<byte>, ghost z: seq<byte>)
    requires Total(segs, man) <= |z| == out.Length && out[..] == Stage(z, segs, man, |segs|, 0)
    requires z[HEADER_LEN..DataOff(segs, man)] == Zeros(DataOff(segs, man) - HEADER_LEN)
    modifies out
    ensures out[..] == Stage(z, segs, man, |segs|, |man|)
  {
    hide Stage;
    hide Patch;
    hide Zeros;
    hide ManifestBytes;
    for j := 0 to |man|
      invariant out[..] == Stage(z, segs, man, |segs|, j)
    {
      var rec := ManOff(segs) + j * MANIFEST_LEN;
      RecordsZero(z, segs, man, |segs|, j, rec, MANIFEST_LEN);
      StageManifest(z, segs, man, j);
      assert out[rec..rec + MANIFEST_LEN] == out[..][rec..rec + MANIFEST_LEN];
      WriteManifest(man[j], rec, out);
    }
  }
}

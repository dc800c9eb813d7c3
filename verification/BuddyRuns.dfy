/** Whole histories of the buddy allocator: releasing runs of frames, allocating and freeing. */
module BuddyRuns {
  import opened Bits
  import opened BuddyPool
  import opened BuddyCanonical

  ghost predicate Unreleased(p: Pool, base: nat, end: nat) {
    forall f: nat :: base <= f < end ==> !Tracked(p, f)
  }

  lemma AddRunStep(p: Pool, base: nat, end: nat)
    requires base <= end
    ensures base == end ==> AddRun(p, base, end) == p
    ensures base < end ==> var k := RunOrder(base, end);
      base + Pow2(k) <= end && AddRun(p, base, end) == AddRun(Add(p, base, k), base + Pow2(k), end)
  {
    hide RunOrder;
    if base < end { RunOrderFits(base, end); }
  }

  lemma {:induction false} AddRunPartition(p: Pool, base: nat, end: nat, n: nat)
    requires Partition(p, n) && base <= end <= n && Unreleased(p, base, end)
    ensures Partition(AddRun(p, base, end), n)
    ensures forall f: nat :: Tracked(AddRun(p, base, end), f) <==> Tracked(p, f) || base <= f < end
    decreases end - base
  {
    hide RunOrder;
    hide Tracked;
    hide Partition;
    hide Add;
    hide Aligned;
    hide Pow2;
    if base < end {
      var k := RunOrder(base, end);
      RunOrderFits(base, end);
      AddPartition(p, base, k, n);
      AddTracks(p, base, k);
      AddRunPartition(Add(p, base, k), base + Pow2(k), end, n);
    }
  }

  /** `add_frames` makes free exactly the frames of the run. */
  lemma {:induction false} AddRunFrees(p: Pool, base: nat, end: nat)
    requires base <= end && Unreleased(p, base, end)
    ensures forall f: nat :: FrameFree(AddRun(p, base, end), f) <==> FrameFree(p, f) || base <= f < end
    decreases end - base
  {
    hide RunOrder;
    if base < end {
      var k := RunOrder(base, end);
      RunOrderFits(base, end);
      AddTracks(p, base, k);
      AddFrame(p, base, k);
      AddRunFrees(Add(p, base, k), base + Pow2(k), end);
    }
  }

  /** The free block that ends at `base`, if its buddy starts there, is too large for the rest. */
  ghost predicate LeftClosed(p: Pool, base: nat, end: nat) {
    forall c :: c in p && p[c].free && p[c].order < MAX_ORDER && c + Pow2(p[c].order) == base
      && Aligned(c, p[c].order + 1)
      ==> base + Pow2(p[c].order) > end
  }

  lemma {:induction false} FlipBack(d: nat, k: nat)
    ensures FlipBit(FlipBit(d, k), k) == d != FlipBit(d, k)
  {
    if k > 0 {
      assert FlipBit(d, k) / 2 == FlipBit(d / 2, k - 1) && FlipBit(d, k) % 2 == d % 2;
      FlipBack(d / 2, k - 1);
    }
  }

  lemma AddCanonical(p: Pool, b: nat, k: nat)
    requires Canonical(p) && b !in p && (k < MAX_ORDER ==> !FreeAt(p, FlipBit(b, k), k))
    ensures Canonical(Add(p, b, k))
  {
    var q := Add(p, b, k);
    FlipBack(b, k);
    forall d | d in q && q[d].free && q[d].order < MAX_ORDER ensures !FreeAt(q, FlipBit(d, q[d].order), q[d].order) {
      FlipBack(d, q[d].order);
    }
  }

  lemma NoFreeBuddy(p: Pool, base: nat, end: nat)
    requires base < end && Unreleased(p, base, end) && LeftClosed(p, base, end) && !FrameFree(p, end)
    ensures var k := RunOrder(base, end); k < MAX_ORDER ==> !FreeAt(p, FlipBit(base, k), k)
  {
    var k := RunOrder(base, end);
    RunOrderFits(base, end);
    FlipAligned(base, k);
    DownSucc(base, k);
    DownDown(base, k + 1, k + 1);
    var c := FlipBit(base, k);
    assert c in p && p[c].free ==> Holds(p, c, c) && FrameFree(p, c) && Tracked(p, c);
  }

  lemma AddBlockLeftClosed(p: Pool, base: nat, end: nat)
    requires base < end && Unreleased(p, base, end)
    ensures LeftClosed(Add(p, base, RunOrder(base, end)), base + Pow2(RunOrder(base, end)), end)
  {
    var k := RunOrder(base, end);
    RunOrderFits(base, end);
    AddHolds(p, base, k);
    forall c | c in p && c + Pow2(p[c].order) == base + Pow2(k) ensures false {
      var f := if c > base then c else base;
      assert Holds(p, c, f) && Tracked(p, f);
    }
  }

  lemma EndStaysClosed(p: Pool, base: nat, k: nat, end: nat)
    requires Unreleased(p, base, end) && base + Pow2(k) <= end && !FrameFree(p, end)
    ensures !FrameFree(Add(p, base, k), end)
  {
    AddHolds(p, base, k);
    if c: nat :| Holds(Add(p, base, k), c, end) && Add(p, base, k)[c].free {
      assert Holds(p, c, end);
    }
  }

  lemma {:induction false} AddRunCanonical(p: Pool, base: nat, end: nat)
    requires Canonical(p) && base <= end && Unreleased(p, base, end) && LeftClosed(p, base, end) && !FrameFree(p, end)
    ensures Canonical(AddRun(p, base, end))
    decreases end - base
  {
    hide RunOrder; hide Canonical; hide LeftClosed; hide FrameFree;
    if base < end {
      var k := RunOrder(base, end);
      RunOrderFits(base, end);
      NoFreeBuddy(p, base, end);
      AddTracks(p, base, k);
      AddHolds(p, base, k);
      AddCanonical(p, base, k);
      AddBlockLeftClosed(p, base, end);
      EndStaysClosed(p, base, k, end);
      AddRunCanonical(Add(p, base, k), base + Pow2(k), end);
    }
  }

  lemma AddPlus(p: Pool, q: Pool, b: nat, k: nat)
    ensures Add(p, b, k) + q == p + (Add(map[], b, k) + q)
  {
  }

  /** The run is decomposed the same way whatever the pool already holds. */
  lemma {:induction false} AddRunUnion(p: Pool, base: nat, end: nat)
    requires base <= end
    ensures AddRun(p, base, end) == p + AddRun(map[], base, end)
    decreases end - base
  {
    hide RunOrder;
    if base < end {
      var k := RunOrder(base, end);
      RunOrderFits(base, end);
      var rest := base + Pow2(k);
      AddRunUnion(Add(p, base, k), rest, end);
      AddRunUnion(Add(map[], base, k), rest, end);
      AddPlus(p, AddRun(map[], rest, end), base, k);
    } else {
      assert p + map[] == p;
    }
  }

  /** Some block of the run would be the buddy of a block that is already free. */
  ghost predicate MeetsFreeBuddy(p: Pool, base: nat, end: nat)
    requires base <= end
  {
    exists b: nat, k: nat :: k < MAX_ORDER && FreeAt(AddRun(map[], base, end), b, k) && FreeAt(p, FlipBit(b, k), k)
  }

  lemma UnionCanonical(p: Pool, r: Pool)
    requires Canonical(p) && Canonical(r) && p.Keys !! r.Keys
    ensures Canonical(p + r) <==>
      forall b: nat, k: nat :: k < MAX_ORDER && FreeAt(r, b, k) ==> !FreeAt(p, FlipBit(b, k), k)
  {
    var q := p + r;
    forall d: nat, k: nat ensures FreeAt(q, d, k) <==> FreeAt(p, d, k) || FreeAt(r, d, k) {}
    if !Canonical(q) {
      var d :| d in q && q[d].free && q[d].order < MAX_ORDER && FreeAt(q, FlipBit(d, q[d].order), q[d].order);
      var k := q[d].order;
      FlipBack(d, k);
      var b := if d in r then d else FlipBit(d, k);
      assert FreeAt(r, b, k) && FreeAt(p, FlipBit(b, k), k);
    } else {
      forall b: nat, k: nat | k < MAX_ORDER && FreeAt(r, b, k) ensures !FreeAt(p, FlipBit(b, k), k) {
        assert FreeAt(q, b, k);
      }
    }
  }

  /** `add_frames` does not join buddies; it keeps the pool canonical exactly when no block it
      adds meets a free buddy. */
  lemma AddRunCanonicalIff(p: Pool, base: nat, end: nat, n: nat)
    requires Canonical(p) && base <= end <= n && Unreleased(p, base, end)
    ensures Canonical(AddRun(p, base, end)) <==> !MeetsFreeBuddy(p, base, end)
  {
    AddRunUnion(p, base, end);
    AddRunCanonical(map[], base, end);
    RunDisjoint(p, base, end, n);
    UnionCanonical(p, AddRun(map[], base, end));
  }

  /** The order of the last block of a run. */
  ghost function LastOrder(base: nat, end: nat): (k: nat)
    requires base < end
    ensures base + Pow2(k) <= end
    decreases end - base
  {
    RunOrderFits(base, end);
    var k := RunOrder(base, end);
    if base + Pow2(k) == end then k else LastOrder(base + Pow2(k), end)
  }

  /** A run is its first block and the rest. */
  lemma RunIs(base: nat, end: nat)
    requires base < end
    ensures var o := RunOrder(base, end);
      && base + Pow2(o) <= end && Aligned(base, o)
      && AddRun(map[], base, end) == map[base := Block(o, true)] + AddRun(map[], base + Pow2(o), end)
  {
    hide RunOrder;
    hide AddRun;
    RunOrderFits(base, end);
    AddRunStep(map[], base, end);
    AddRunUnion(Add(map[], base, RunOrder(base, end)), base + Pow2(RunOrder(base, end)), end);
    assert Add(map[], base, RunOrder(base, end)) == map[base := Block(RunOrder(base, end), true)];
  }

  /** Where the blocks of a run lie, and which are its first and its last. */
  lemma {:induction false} RunBlocks(base: nat, end: nat, b: nat)
    requires base <= end && b in AddRun(map[], base, end)
    ensures var k := AddRun(map[], base, end)[b].order;
      && FreeAt(AddRun(map[], base, end), b, k) && base <= b && b + Pow2(k) <= end && Aligned(b, k)
      && (b == base ==> k == RunOrder(base, end)) && (b + Pow2(k) == end ==> k == LastOrder(base, end))
    decreases end - base
  {
    hide RunOrder;
    hide Aligned;
    hide AddRun;
    AddRunStep(map[], base, end);
    if base < end {
      RunIs(base, end);
      var rest := base + Pow2(RunOrder(base, end));
      if b in AddRun(map[], rest, end) { RunBlocks(rest, end, b); }
    }
  }

  lemma {:induction false} EndBlocks(base: nat, end: nat)
    requires base < end
    ensures FreeAt(AddRun(map[], base, end), base, RunOrder(base, end))
    ensures FreeAt(AddRun(map[], base, end), end - Pow2(LastOrder(base, end)), LastOrder(base, end))
    decreases end - base
  {
    hide RunOrder;
    hide Aligned;
    hide AddRun;
    RunIs(base, end);
    var rest := base + Pow2(RunOrder(base, end));
    if base in AddRun(map[], rest, end) { RunBlocks(rest, end, base); }
    AddRunStep(map[], rest, end);
    if rest < end { EndBlocks(rest, end); }
  }

  /** A free block stands where the buddy of the block at `b` would be. */
  ghost predicate BuddyFree(p: Pool, b: nat, k: nat) {
    k < MAX_ORDER && FreeAt(p, FlipBit(b, k), k)
  }

  /** Only the first and the last block of a run can meet a free buddy, so two lookups decide. */
  lemma OnlyEndsMeet(p: Pool, base: nat, end: nat)
    requires base < end && Unreleased(p, base, end)
    ensures MeetsFreeBuddy(p, base, end) <==>
      BuddyFree(p, base, RunOrder(base, end)) || BuddyFree(p, end - Pow2(LastOrder(base, end)), LastOrder(base, end))
  {
    hide RunOrder;
    hide LastOrder;
    hide AddRun;
    EndBlocks(base, end);
    if MeetsFreeBuddy(p, base, end) {
      var b: nat, k: nat :| k < MAX_ORDER && FreeAt(AddRun(map[], base, end), b, k) && FreeAt(p, FlipBit(b, k), k);
      RunBlocks(base, end, b);
      FlipAligned(b, k);
      var c := FlipBit(b, k);
      assert c < b ==> Holds(p, c, b - 1);
      assert c > b ==> Holds(p, c, b + Pow2(k));
      assert c < b && base < b ==> Tracked(p, b - 1);
      assert c > b && b + Pow2(k) < end ==> Tracked(p, b + Pow2(k));
      assert b == base || b + Pow2(k) == end;
    }
  }

  lemma RunDisjoint(p: Pool, base: nat, end: nat, n: nat)
    requires base <= end <= n && Unreleased(p, base, end)
    ensures p.Keys !! AddRun(map[], base, end).Keys
  {
    var r := AddRun(map[], base, end);
    assert Unreleased(map[], base, end);
    AddRunPartition(map[], base, end, n);
    forall b | b in p && b in r ensures false {
      assert Holds(r, b, b) && Tracked(r, b);
      assert Holds(p, b, b) && Tracked(p, b);
    }
  }

  /** A run with no free frame just below or just above it never meets a free buddy. */
  lemma ApartRunIsCanonical(p: Pool, base: nat, end: nat)
    requires Canonical(p) && base <= end && Unreleased(p, base, end)
    requires (base > 0 ==> !FrameFree(p, base - 1)) && !FrameFree(p, end)
    ensures Canonical(AddRun(p, base, end))
  {
    forall c | c in p && p[c].free ensures FrameFree(p, c + Pow2(p[c].order) - 1) {
      assert Holds(p, c, c + Pow2(p[c].order) - 1);
    }
    AddRunCanonical(p, base, end);
  }

  /** Released one after the other, two adjacent single frames stay two blocks: the pair is wholly
      free, yet no block of order 1 can be allocated. */
  lemma AdjacentRunsStayApart()
    ensures var p := AddRun(AddRun(map[], 0, 1), 1, 2);
      && Partition(p, 2) && !Canonical(p) && WhollyFree(p, 0, 1)
      && !(exists c :: c in p && p[c].free && p[c].order >= 1)
  {
    var r := AddRun(map[], 0, 1);
    assert Unreleased(map[], 0, 1);
    AddRunPartition(map[], 0, 1, 2);
    AddRunPartition(r, 1, 2, 2);
    AddRunFrees(map[], 0, 1);
    AddRunFrees(r, 1, 2);
    assert RunOrder(0, 1) == 0 && RunOrder(1, 2) == 0;
    RunOrderFits(0, 1);
    RunOrderFits(1, 2);
    var p := AddRun(r, 1, 2);
    assert Pow2(0) == 1 && Pow2(1) == 2;
    assert r == Add(map[], 0, 0) && p == Add(r, 1, 0);
    assert FlipBit(0, 0) == 1 && FreeAt(p, 1, 0);
  }

  // ---- histories ----

  datatype Move = Release(start: nat, end: nat) | Hand(base: nat, order: nat) | Return(base: nat)

  ghost predicate Legal(p: Pool, n: nat, m: Move) {
    match m
    case Release(s, e) => s <= e <= n && Unreleased(p, s, e) && !MeetsFreeBuddy(p, s, e)
    case Hand(b, k) => b in p && p[b].free && k <= p[b].order
    case Return(b) => b in p && !p[b].free && p[b].order <= MAX_ORDER
  }

  ghost function Apply(p: Pool, n: nat, m: Move): (q: Pool)
    requires Legal(p, n, m)
  {
    match m
    case Release(s, e) => AddRun(p, s, e)
    case Hand(b, k) => Alloc(p, b, k)
    case Return(b) => Free(p, b)
  }

  ghost predicate LegalRun(p: Pool, n: nat, ms: seq<Move>)
    decreases |ms|
  {
    ms != [] ==> Legal(p, n, ms[0]) && LegalRun(Apply(p, n, ms[0]), n, ms[1..])
  }

  ghost function Run(p: Pool, n: nat, ms: seq<Move>): (q: Pool)
    requires LegalRun(p, n, ms)
    decreases |ms|
  {
    if ms == [] then p else Run(Apply(p, n, ms[0]), n, ms[1..])
  }

  ghost predicate NoReleases(ms: seq<Move>) {
    forall i :: 0 <= i < |ms| ==> !ms[i].Release?
  }

  /** Every history keeps the partition and the canonical form; only releases add frames. */
  lemma {:induction false} RunKeeps(p: Pool, n: nat, ms: seq<Move>)
    requires Partition(p, n) && Canonical(p) && LegalRun(p, n, ms)
    ensures Partition(Run(p, n, ms), n) && Canonical(Run(p, n, ms))
    ensures forall f: nat :: Tracked(p, f) ==> Tracked(Run(p, n, ms), f)
    ensures NoReleases(ms) ==> forall f: nat :: Tracked(Run(p, n, ms), f) ==> Tracked(p, f)
    decreases |ms|
  {
    if ms != [] {
      match ms[0] {
        case Release(s, e) =>
          AddRunPartition(p, s, e, n);
          AddRunCanonicalIff(p, s, e, n);
        case Hand(b, k) => AllocKeeps(p, b, k, n);
        case Return(b) => FreeKeeps(p, b, n);
      }
      RunKeeps(Apply(p, n, ms[0]), n, ms[1..]);
    }
  }

  ghost predicate AllFree(p: Pool) {
    forall b :: b in p ==> p[b].free
  }

  lemma AllFreeFrames(p: Pool, f: nat)
    requires AllFree(p)
    ensures FrameFree(p, f) <==> Tracked(p, f)
  {
    if b: nat :| Holds(p, b, f) { assert p[b].free; }
  }

  /** Whatever was handed out and returned in between, once nothing is outstanding the blocks are
      exactly the blocks there were at the start. */
  lemma FreeingEverythingRestores(p: Pool, n: nat, ms: seq<Move>)
    requires Partition(p, n) && Canonical(p) && LegalRun(p, n, ms) && NoReleases(ms)
    requires AllFree(p) && AllFree(Run(p, n, ms))
    ensures Run(p, n, ms) == p
  {
    var q := Run(p, n, ms);
    RunKeeps(p, n, ms);
    forall f: nat ensures FrameFree(p, f) <==> FrameFree(q, f) {
      AllFreeFrames(p, f);
      AllFreeFrames(q, f);
    }
    forall b, k ensures FreeAt(p, b, k) <==> FreeAt(q, b, k) {
      CanonicalUnique(p, q, n, b, k);
    }
    assert forall b :: b in p ==> FreeAt(p, b, p[b].order);
    assert forall b :: b in q ==> FreeAt(q, b, q[b].order);
  }
}

/** The buddy allocator seen from outside: which aligned blocks exist, and which of them are free.
    The descriptor array and its intrusive lists (module Buddy) implement exactly this. */
module BuddyPool {
  import opened Bits

  const MAX_ORDER: nat := 18

  datatype Block = Block(order: nat, free: bool)

  /** Block base to block; a block that is not free is outstanding (handed out by `alloc`). */
  type Pool = map<nat, Block>

  ghost predicate Holds(p: Pool, b: nat, f: nat) {
    b in p && b <= f < b + Pow2(p[b].order)
  }

  ghost predicate FreeAt(p: Pool, b: nat, k: nat) {
    b in p && p[b] == Block(k, true)
  }

  ghost predicate FrameFree(p: Pool, f: nat) {
    exists b :: Holds(p, b, f) && p[b].free
  }

  /** Released by `add_frames` at some point: free or outstanding now. */
  ghost predicate Tracked(p: Pool, f: nat) {
    exists b :: Holds(p, b, f)
  }

  ghost function FreeFrames(p: Pool, n: nat): (s: set<nat>) {
    set f: nat | f < n && FrameFree(p, f)
  }

  /** Blocks are aligned and in range, and no frame lies in two of them: free blocks, outstanding
      blocks and never-released frames partition the frames. */
  ghost predicate Partition(p: Pool, n: nat) {
    && (forall b :: b in p ==> p[b].order <= MAX_ORDER && Aligned(b, p[b].order) && b + Pow2(p[b].order) <= n)
    && (forall b, c, f :: Holds(p, b, f) && Holds(p, c, f) ==> b == c)
  }

  /** No two buddies below the largest order are both free. */
  ghost predicate Canonical(p: Pool) {
    forall b :: b in p && p[b].free && p[b].order < MAX_ORDER
      ==> !FreeAt(p, FlipBit(b, p[b].order), p[b].order)
  }

  // ---- the moves the allocator makes ----

  ghost function Mark(p: Pool, b: nat, free: bool): (q: Pool)
    requires b in p
  {
    p[b := Block(p[b].order, free)]
  }

  /** Cut the outstanding block at `b` in half and release the upper half. */
  ghost function Split(p: Pool, b: nat): (q: Pool)
    requires b in p && p[b].order > 0
  {
    var k := p[b].order - 1;
    p[b := Block(k, false)][b + Pow2(k) := Block(k, true)]
  }

  ghost predicate CanMerge(p: Pool, b: nat) {
    b in p && p[b].order < MAX_ORDER && FreeAt(p, FlipBit(b, p[b].order), p[b].order)
  }

  ghost function MergedBase(p: Pool, b: nat): (m: nat)
    requires b in p
  {
    var c := FlipBit(b, p[b].order);
    if c < b then c else b
  }

  /** Join the outstanding block at `b` with its free buddy into one outstanding block. */
  ghost function Merge(p: Pool, b: nat): (q: Pool)
    requires b in p
  {
    (p - {b, FlipBit(b, p[b].order)})[MergedBase(p, b) := Block(p[b].order + 1, false)]
  }

  /** Splitting from the top down to order `k`. */
  ghost function SplitTo(p: Pool, b: nat, k: nat): (q: Pool)
    requires b in p
    decreases p[b].order
  {
    if p[b].order <= k then p else SplitTo(Split(p, b), b, k)
  }

  /** Hand out order `k` from the free block at `b`. */
  ghost function Alloc(p: Pool, b: nat, k: nat): (q: Pool)
    requires b in p
  {
    SplitTo(Mark(p, b, false), b, k)
  }

  /** Release the outstanding block at `b`, joining buddies as far up as they are free. */
  ghost function Free(p: Pool, b: nat): (q: Pool)
    requires b in p && p[b].order <= MAX_ORDER
    decreases MAX_ORDER - p[b].order
  {
    if CanMerge(p, b) then Free(Merge(p, b), MergedBase(p, b)) else Mark(p, b, true)
  }

  ghost function Add(p: Pool, b: nat, k: nat): (q: Pool) {
    p[b := Block(k, true)]
  }

  /** The order `add_frames` picks at `base` in a run that ends at `end`. */
  function RunOrder(base: nat, end: nat): (k: nat)
    requires base < end
  {
    var align := if base == 0 then MAX_ORDER else TrailingZeros(base);
    var size := FloorLog2(end - base);
    var k := if align < size then align else size;
    if k < MAX_ORDER then k else MAX_ORDER
  }

  /** The blocks of the run `base .. end`, added without joining. */
  ghost function AddRun(p: Pool, base: nat, end: nat): (q: Pool)
    requires base <= end
    decreases end - base
  {
    if base == end then p
    else
      var k := RunOrder(base, end);
      RunOrderFits(base, end);
      AddRun(Add(p, base, k), base + Pow2(k), end)
  }

  /** The picked order is the largest that is both aligned and inside the run. */
  lemma RunOrderFits(base: nat, end: nat)
    requires base < end
    ensures RunOrder(base, end) <= MAX_ORDER
    ensures Aligned(base, RunOrder(base, end)) && base + Pow2(RunOrder(base, end)) <= end
    ensures RunOrder(base, end) < MAX_ORDER ==> Aligned(base, RunOrder(base, end) + 1) ==>
      base + Pow2(RunOrder(base, end) + 1) > end
  {
    var k := RunOrder(base, end);
    FitsLog(end - base, k);
    FitsLog(end - base, k + 1);
    if base == 0 {
      AlignedZero(k);
    } else {
      AlignedTrailing(base, k);
      AlignedTrailing(base, k + 1);
    }
  }

  // ---- every move keeps the partition and moves exactly the frames it says ----

  lemma MarkPartition(p: Pool, b: nat, free: bool, n: nat)
    requires Partition(p, n) && b in p
    ensures Partition(Mark(p, b, free), n)
    ensures forall c: nat, f: nat :: Holds(Mark(p, b, free), c, f) <==> Holds(p, c, f)
    ensures forall f: nat :: Tracked(Mark(p, b, free), f) <==> Tracked(p, f)
  {
    var q := Mark(p, b, free);
    assert forall c: nat, f: nat :: Holds(q, c, f) <==> Holds(p, c, f);
  }

  lemma MarkFrame(p: Pool, b: nat, free: bool, f: nat, n: nat)
    requires Partition(p, n) && b in p
    ensures FrameFree(Mark(p, b, free), f) <==> if b <= f < b + Pow2(p[b].order) then free else FrameFree(p, f)
    ensures b <= f < b + Pow2(p[b].order) ==> (FrameFree(p, f) <==> p[b].free) && f < n
  {
    MarkPartition(p, b, free, n);
    if c: nat :| Holds(p, c, f) {
      assert Holds(p, b, f) ==> b == c;
      OutstandingNotFree(p, c, f, n);
      OutstandingNotFree(Mark(p, b, free), c, f, n);
    } else {
      assert !Tracked(p, f) && !Holds(p, b, f);
    }
  }

  lemma MarkFrees(p: Pool, b: nat, n: nat)
    requires Partition(p, n) && b in p && p[b].free
    ensures FreeFrames(p, n) == FreeFrames(Mark(p, b, false), n) + Range(b, Pow2(p[b].order))
    ensures FreeFrames(Mark(p, b, false), n) !! Range(b, Pow2(p[b].order))
  {
    var q, r := Mark(p, b, false), Range(b, Pow2(p[b].order));
    forall f: nat
      ensures f in FreeFrames(q, n) <==> f !in r && f in FreeFrames(p, n)
      ensures f in r ==> f in FreeFrames(p, n)
    {
      MarkFrame(p, b, false, f, n);
    }
  }

  lemma OutstandingNotFree(p: Pool, b: nat, f: nat, n: nat)
    requires Partition(p, n) && Holds(p, b, f)
    ensures FrameFree(p, f) <==> p[b].free
  {
    if c :| Holds(p, c, f) && p[c].free { assert c == b; }
  }

  lemma SplitHolds(p: Pool, b: nat, n: nat)
    requires Partition(p, n) && b in p && p[b].order > 0 && !p[b].free
    ensures var u := b + Pow2(p[b].order - 1);
      && u !in p && u < n && Aligned(b, p[b].order - 1) && Aligned(u, p[b].order - 1)
      && (forall f: nat :: Holds(p, b, f) <==> Holds(Split(p, b), b, f) || Holds(Split(p, b), u, f))
      && (forall f: nat :: !(Holds(Split(p, b), b, f) && Holds(Split(p, b), u, f)))
      && (forall c: nat, f: nat :: c != b && c != u ==> (Holds(Split(p, b), c, f) <==> Holds(p, c, f)))
  {
    var k := p[b].order - 1;
    var u := b + Pow2(k);
    Halves(b, k);
    assert Holds(p, b, u);
    assert u in p ==> Holds(p, u, u);
  }

  lemma SplitPartition(p: Pool, b: nat, n: nat)
    requires Partition(p, n) && b in p && p[b].order > 0 && !p[b].free
    ensures Partition(Split(p, b), n)
    ensures forall f: nat :: Tracked(Split(p, b), f) <==> Tracked(p, f)
  {
    var q, u := Split(p, b), b + Pow2(p[b].order - 1);
    SplitHolds(p, b, n);
    forall c: nat, d: nat, f: nat | Holds(q, c, f) && Holds(q, d, f) ensures c == d {
      assert Holds(p, if c == u then b else c, f) && Holds(p, if d == u then b else d, f);
    }
    forall f: nat ensures Tracked(q, f) <==> Tracked(p, f) {
      if c :| Holds(q, c, f) { assert Holds(p, if c == u then b else c, f); }
      if c :| Holds(p, c, f) { assert Holds(q, c, f) || Holds(q, u, f); }
    }
  }

  lemma SplitFrame(p: Pool, b: nat, f: nat, n: nat)
    requires Partition(p, n) && b in p && p[b].order > 0 && !p[b].free
    ensures var u := b + Pow2(p[b].order - 1);
      && (FrameFree(Split(p, b), f) <==> FrameFree(p, f) || u <= f < u + Pow2(p[b].order - 1))
      && (u <= f < u + Pow2(p[b].order - 1) ==> f < n && !FrameFree(p, f))
  {
    var q, u := Split(p, b), b + Pow2(p[b].order - 1);
    SplitHolds(p, b, n);
    SplitPartition(p, b, n);
    assert Holds(q, u, f) <==> u <= f < u + Pow2(p[b].order - 1);
    if c: nat :| Holds(p, c, f) {
      OutstandingNotFree(p, c, f, n);
      assert Holds(q, u, f) ==> c == b;
      var d := if Holds(q, u, f) then u else c;
      OutstandingNotFree(q, d, f, n);
    } else {
      assert !Tracked(p, f) && !Tracked(q, f);
    }
  }

  lemma SplitFrees(p: Pool, b: nat, n: nat)
    requires Partition(p, n) && b in p && p[b].order > 0 && !p[b].free
    ensures FreeFrames(Split(p, b), n) == FreeFrames(p, n) + Range(b + Pow2(p[b].order - 1), Pow2(p[b].order - 1))
    ensures Range(b + Pow2(p[b].order - 1), Pow2(p[b].order - 1)) !! FreeFrames(p, n)
  {
    var q, k := Split(p, b), p[b].order - 1;
    var u := b + Pow2(k);
    forall f: nat
      ensures f in FreeFrames(q, n) <==> f in FreeFrames(p, n) || f in Range(u, Pow2(k))
      ensures f in Range(u, Pow2(k)) ==> f !in FreeFrames(p, n)
    {
      SplitFrame(p, b, f, n);
    }
  }

  /** A block and its buddy are the two halves of the block one order up. */
  lemma BuddyPair(b: nat, k: nat)
    requires Aligned(b, k)
    ensures var c := FlipBit(b, k);
      var m, o := if c < b then c else b, if c < b then b else c;
      o == m + Pow2(k) && Aligned(m, k + 1) && Pow2(k + 1) == 2 * Pow2(k) && Pow2(k) >= 1
  {
    FlipAligned(b, k);
    DownSucc(b, k);
    DownDown(b, k + 1, k + 1);
  }

  lemma JoinHolds(p: Pool, b: nat, c: nat, m: nat, k: nat)
    requires b in p && c in p && p[b].order == k && p[c].order == k && Pow2(k) >= 1 && Pow2(k + 1) == 2 * Pow2(k)
    requires (m == b && c == b + Pow2(k)) || (m == c && b == c + Pow2(k))
    ensures var q := (p - {b, c})[m := Block(k + 1, false)];
      && (forall f: nat :: Holds(q, m, f) <==> Holds(p, b, f) || Holds(p, c, f))
      && (forall d: nat, f: nat :: d != b && d != c ==> (Holds(q, d, f) <==> Holds(p, d, f)))
      && (forall d: nat :: d in q && d != m ==> d in p && d != b && d != c)
  {
    hide Pow2;
  }

  lemma MergeHolds(p: Pool, b: nat, n: nat)
    requires Partition(p, n) && CanMerge(p, b)
    ensures var m, c := MergedBase(p, b), FlipBit(b, p[b].order);
      && b != c && Aligned(m, p[b].order + 1) && m + Pow2(p[b].order + 1) <= n
      && Merge(p, b)[m] == Block(p[b].order + 1, false)
      && (forall f: nat :: Holds(Merge(p, b), m, f) <==> Holds(p, b, f) || Holds(p, c, f))
      && (forall d: nat, f: nat :: d != b && d != c ==> (Holds(Merge(p, b), d, f) <==> Holds(p, d, f)))
      && (forall d: nat :: d in Merge(p, b) && d != m ==> d in p && d != b && d != c)
  {
    var m, c := MergedBase(p, b), FlipBit(b, p[b].order);
    BuddyPair(b, p[b].order);
    assert b + Pow2(p[b].order) <= n && c + Pow2(p[c].order) <= n;
    hide Partition;
    JoinHolds(p, b, c, m, p[b].order);
    hide Holds;
    hide FlipBit;
    hide Aligned;
    hide Pow2;
  }

  lemma MergePartition(p: Pool, b: nat, n: nat)
    requires Partition(p, n) && CanMerge(p, b)
    ensures Partition(Merge(p, b), n)
    ensures forall f: nat :: Tracked(Merge(p, b), f) <==> Tracked(p, f)
  {
    var q, c, m := Merge(p, b), FlipBit(b, p[b].order), MergedBase(p, b);
    MergeHolds(p, b, n);
    forall d: nat, e: nat, f: nat | Holds(q, d, f) && Holds(q, e, f) ensures d == e {
      assert d != m ==> Holds(p, d, f);
      assert e != m ==> Holds(p, e, f);
    }
    forall f: nat ensures Tracked(q, f) <==> Tracked(p, f) {
      if d :| Holds(p, d, f) { assert Holds(q, if d == b || d == c then m else d, f); }
      if d :| Holds(q, d, f) { assert d != m ==> Holds(p, d, f); }
    }
  }

  lemma MergeFrees(p: Pool, b: nat, n: nat)
    requires Partition(p, n) && CanMerge(p, b) && !p[b].free
    ensures FreeFrames(Merge(p, b), n) == FreeFrames(p, n) - Range(FlipBit(b, p[b].order), Pow2(p[b].order))
    ensures Range(FlipBit(b, p[b].order), Pow2(p[b].order)) <= FreeFrames(p, n)
  {
    var q, k, c, m := Merge(p, b), p[b].order, FlipBit(b, p[b].order), MergedBase(p, b);
    MergeHolds(p, b, n);
    forall f: nat ensures FrameFree(q, f) <==> FrameFree(p, f) && f !in Range(c, Pow2(k)) {
      if d :| Holds(p, d, f) && p[d].free && f !in Range(c, Pow2(k)) { assert d != c; assert Holds(q, d, f); }
      if d :| Holds(q, d, f) && q[d].free { assert Holds(p, d, f); assert Holds(p, c, f) ==> d == c; }
    }
    forall f | f in Range(c, Pow2(k)) ensures FrameFree(p, f) && f < n { assert Holds(p, c, f); }
  }

  lemma AddHolds(p: Pool, b: nat, k: nat)
    requires forall f: nat :: b <= f < b + Pow2(k) ==> !Tracked(p, f)
    ensures b !in p
    ensures forall f: nat :: Holds(Add(p, b, k), b, f) <==> b <= f < b + Pow2(k)
    ensures forall c: nat, f: nat :: c != b ==> (Holds(Add(p, b, k), c, f) <==> Holds(p, c, f))
  {
    assert !Tracked(p, b);
    assert b in p ==> Holds(p, b, b);
  }

  lemma AddPartition(p: Pool, b: nat, k: nat, n: nat)
    requires Partition(p, n) && k <= MAX_ORDER && Aligned(b, k) && b + Pow2(k) <= n
    requires forall f: nat :: b <= f < b + Pow2(k) ==> !Tracked(p, f)
    ensures Partition(Add(p, b, k), n)
  {
    var q := Add(p, b, k);
    AddHolds(p, b, k);
    forall c: nat, d: nat, f: nat | Holds(q, c, f) && Holds(q, d, f) ensures c == d {
      if c != b { assert Holds(p, c, f); assert Tracked(p, f); }
      if d != b { assert Holds(p, d, f); assert Tracked(p, f); }
    }
  }

  lemma UntrackedBase(p: Pool, b: nat)
    requires !Tracked(p, b)
    ensures b !in p
  {
    if b in p { assert Holds(p, b, b); }
  }

  lemma AddTracks(p: Pool, b: nat, k: nat)
    requires forall f: nat :: b <= f < b + Pow2(k) ==> !Tracked(p, f)
    ensures forall f: nat :: Tracked(Add(p, b, k), f) <==> Tracked(p, f) || b <= f < b + Pow2(k)
  {
    var q := Add(p, b, k);
    AddHolds(p, b, k);
    forall f: nat ensures Tracked(q, f) <==> Tracked(p, f) || b <= f < b + Pow2(k) {
      if b <= f < b + Pow2(k) { assert Holds(q, b, f); }
      if c: nat :| Holds(p, c, f) { assert Holds(q, c, f); }
      if c: nat :| Holds(q, c, f) && c != b { assert Holds(p, c, f); }
    }
  }

  lemma AddFrame(p: Pool, b: nat, k: nat)
    requires forall f: nat :: b <= f < b + Pow2(k) ==> !Tracked(p, f)
    ensures forall f: nat :: FrameFree(Add(p, b, k), f) <==> FrameFree(p, f) || b <= f < b + Pow2(k)
  {
    var q := Add(p, b, k);
    AddHolds(p, b, k);
    forall f: nat ensures FrameFree(q, f) <==> FrameFree(p, f) || b <= f < b + Pow2(k) {
      if b <= f < b + Pow2(k) { assert Holds(q, b, f); }
      if c: nat :| Holds(p, c, f) && p[c].free { assert Holds(q, c, f); }
      if c: nat :| Holds(q, c, f) && q[c].free && c != b { assert Holds(p, c, f); }
    }
  }

  lemma AddFrees(p: Pool, b: nat, k: nat, n: nat)
    requires b + Pow2(k) <= n
    requires forall f: nat :: b <= f < b + Pow2(k) ==> !Tracked(p, f)
    ensures FreeFrames(Add(p, b, k), n) == FreeFrames(p, n) + Range(b, Pow2(k))
    ensures Range(b, Pow2(k)) !! FreeFrames(p, n)
  {
    AddFrame(p, b, k);
    forall f | f in Range(b, Pow2(k)) ensures !FrameFree(p, f) {
      assert !Tracked(p, f);
    }
  }

  // ---- counting the free frames ----

  ghost function FreeCount(p: Pool, n: nat): (c: nat) {
    |FreeFrames(p, n)|
  }

  lemma AddRange(a: set<nat>, lo: nat, n: nat)
    requires a !! Range(lo, n)
    ensures |a + Range(lo, n)| == |a| + n
  {
    RangeSize(lo, n);
  }

  lemma HandCounts(p: Pool, b: nat, n: nat)
    requires Partition(p, n) && b in p && p[b].free
    ensures FreeCount(Mark(p, b, false), n) == FreeCount(p, n) - Pow2(p[b].order)
  {
    MarkFrees(p, b, n);
    AddRange(FreeFrames(Mark(p, b, false), n), b, Pow2(p[b].order));
  }

  lemma ReleaseCounts(p: Pool, b: nat, n: nat)
    requires Partition(p, n) && b in p && !p[b].free
    ensures FreeCount(Mark(p, b, true), n) == FreeCount(p, n) + Pow2(p[b].order)
  {
    MarkPartition(p, b, true, n);
    HandCounts(Mark(p, b, true), b, n);
    assert Mark(Mark(p, b, true), b, false) == p;
  }

  lemma SplitCounts(p: Pool, b: nat, n: nat)
    requires Partition(p, n) && b in p && p[b].order > 0 && !p[b].free
    ensures FreeCount(Split(p, b), n) == FreeCount(p, n) + Pow2(p[b].order - 1)
  {
    SplitFrees(p, b, n);
    AddRange(FreeFrames(p, n), b + Pow2(p[b].order - 1), Pow2(p[b].order - 1));
  }

  lemma MergeCounts(p: Pool, b: nat, n: nat)
    requires Partition(p, n) && CanMerge(p, b) && !p[b].free
    ensures FreeCount(Merge(p, b), n) == FreeCount(p, n) - Pow2(p[b].order)
  {
    MergeFrees(p, b, n);
    AddRange(FreeFrames(Merge(p, b), n), FlipBit(b, p[b].order), Pow2(p[b].order));
  }

  lemma AddCounts(p: Pool, b: nat, k: nat, n: nat)
    requires b + Pow2(k) <= n
    requires forall f: nat :: b <= f < b + Pow2(k) ==> !Tracked(p, f)
    ensures FreeCount(Add(p, b, k), n) == FreeCount(p, n) + Pow2(k)
  {
    AddFrees(p, b, k, n);
    AddRange(FreeFrames(p, n), b, Pow2(k));
  }
}

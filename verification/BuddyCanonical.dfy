/** Canonical form: with no two free buddies left unjoined, the free blocks are determined by the
    free frames alone, so neither fragmentation nor a failed allocation depends on history. */
module BuddyCanonical {
  import opened Bits
  import opened BuddyPool

  ghost predicate WhollyFree(p: Pool, b: nat, k: nat) {
    forall f: nat :: b <= f < b + Pow2(k) ==> FrameFree(p, f)
  }

  /** An aligned run that shares a frame with a block at least as large lies inside that block. */
  lemma Nested(b: nat, k: nat, c: nat, j: nat, f: nat)
    requires Aligned(b, k) && Aligned(c, j) && k <= j
    requires b <= f < b + Pow2(k) && c <= f < c + Pow2(j)
    ensures c <= b && b + Pow2(k) <= c + Pow2(j) && Down(b, j) == c
  {
    DownInBlock(f, b, k);
    DownInBlock(f, c, j);
    DownDown(f, k, j);
    DownBounds(b, j);
    var last := b + Pow2(k) - 1;
    DownInBlock(last, b, k);
    DownDown(last, k, j);
    DownBounds(last, j);
  }

  /** In a canonical pool a wholly free aligned run lies inside one free block. */
  lemma {:induction false} FreeRunInBlock(p: Pool, n: nat, b: nat, k: nat) returns (c: nat)
    requires Partition(p, n) && Canonical(p) && k <= MAX_ORDER && Aligned(b, k) && WhollyFree(p, b, k)
    ensures c in p && p[c].free && p[c].order >= k
    ensures c <= b && b + Pow2(k) <= c + Pow2(p[c].order)
    decreases k
  {
    if k == 0 {
      assert FrameFree(p, b);
      c :| Holds(p, c, b) && p[c].free;
    } else {
      Halves(b, k - 1);
      var u := b + Pow2(k - 1);
      c := FreeRunInBlock(p, n, b, k - 1);
      if p[c].order >= k {
        Nested(b, k, c, p[c].order, b);
      } else {
        var d := FreeRunInBlock(p, n, u, k - 1);
        if p[d].order >= k {
          c := d;
          Nested(b, k, c, p[c].order, u);
        } else {
          assert c == b && d == u;
          UpperNotFree(p, b, k);
          assert false;
        }
      }
    }
  }

  /** In a canonical pool the two halves of a block are not both free blocks. */
  lemma UpperNotFree(p: Pool, b: nat, k: nat)
    requires Canonical(p) && 0 < k <= MAX_ORDER && Aligned(b, k) && FreeAt(p, b, k - 1)
    ensures !FreeAt(p, b + Pow2(k - 1), k - 1)
  {
    Halves(b, k - 1);
    FlipAligned(b, k - 1);
  }

  lemma OneHolder(p: Pool, n: nat, b: nat, c: nat, f: nat)
    requires Partition(p, n) && Holds(p, b, f) && Holds(p, c, f)
    ensures b == c
  {
  }

  lemma BlockWhollyFree(p: Pool, c: nat)
    requires c in p && p[c].free
    ensures WhollyFree(p, c, p[c].order)
  {
    forall f: nat | c <= f < c + Pow2(p[c].order) ensures FrameFree(p, f) { assert Holds(p, c, f); }
  }

  lemma FreeBlockIsMaximal(p: Pool, n: nat, b: nat, k: nat)
    requires Partition(p, n) && Canonical(p) && k < MAX_ORDER && FreeAt(p, b, k)
    ensures !WhollyFree(p, Down(b, k + 1), k + 1)
  {
    var m := Down(b, k + 1);
    DownBounds(b, k + 1);
    DownDown(b, k + 1, k + 1);
    if WhollyFree(p, m, k + 1) {
      var c := FreeRunInBlock(p, n, m, k + 1);
      OneHolder(p, n, b, c, b);
    }
  }

  lemma BlockShape(p: Pool, n: nat, c: nat)
    requires Partition(p, n) && c in p
    ensures p[c].order <= MAX_ORDER && Aligned(c, p[c].order)
  {
  }

  lemma RoundedIsAligned(b: nat, k: nat)
    ensures Aligned(Down(b, k), k)
  {
    DownDown(b, k, k);
  }

  lemma MaximalRunIsBlock(p: Pool, n: nat, b: nat, k: nat)
    requires Partition(p, n) && Canonical(p) && k <= MAX_ORDER && Aligned(b, k) && WhollyFree(p, b, k)
    ensures FreeAt(p, b, k) || (k < MAX_ORDER && WhollyFree(p, Down(b, k + 1), k + 1))
  {
    hide Partition;
    hide Canonical;
    hide FrameFree;
    hide Pow2;
    hide Down;
    hide Aligned;
    var c := FreeRunInBlock(p, n, b, k);
    BlockShape(p, n, c);
    if p[c].order != k {
      var m := Down(b, k + 1);
      DownBounds(b, k + 1);
      RoundedIsAligned(b, k + 1);
      Nested(m, k + 1, c, p[c].order, b);
      BlockWhollyFree(p, c);
    }
  }

  /** The free blocks are exactly the maximal aligned blocks of the free frame set. */
  lemma FreeBlocksAreMaximal(p: Pool, n: nat, b: nat, k: nat)
    requires Partition(p, n) && Canonical(p) && k <= MAX_ORDER && Aligned(b, k)
    ensures FreeAt(p, b, k)
       <==> WhollyFree(p, b, k) && (k == MAX_ORDER || !WhollyFree(p, Down(b, k + 1), k + 1))
  {
    if FreeAt(p, b, k) {
      BlockWhollyFree(p, b);
      if k < MAX_ORDER { FreeBlockIsMaximal(p, n, b, k); }
    } else if WhollyFree(p, b, k) {
      MaximalRunIsBlock(p, n, b, k);
    }
  }

  /** Two canonical pools with the same free frames have the same free blocks. */
  lemma CanonicalUnique(p: Pool, q: Pool, n: nat, b: nat, k: nat)
    requires Partition(p, n) && Canonical(p) && Partition(q, n) && Canonical(q)
    requires forall f: nat :: FrameFree(p, f) <==> FrameFree(q, f)
    ensures FreeAt(p, b, k) <==> FreeAt(q, b, k)
  {
    if k <= MAX_ORDER && Aligned(b, k) {
      FreeBlocksAreMaximal(p, n, b, k);
      FreeBlocksAreMaximal(q, n, b, k);
      assert WhollyFree(p, b, k) <==> WhollyFree(q, b, k);
      assert WhollyFree(p, Down(b, k + 1), k + 1) <==> WhollyFree(q, Down(b, k + 1), k + 1);
    }
  }

  /** A block of order `k` or more is on the lists exactly when some aligned run of `2^k` frames
      is wholly free: an allocation fails only when it must. */
  lemma AllocatableIffFreeRun(p: Pool, n: nat, k: nat)
    requires Partition(p, n) && Canonical(p) && k <= MAX_ORDER
    ensures (exists c :: c in p && p[c].free && p[c].order >= k)
       <==> (exists b :: Aligned(b, k) && WhollyFree(p, b, k))
  {
    if b :| Aligned(b, k) && WhollyFree(p, b, k) {
      var c := FreeRunInBlock(p, n, b, k);
    }
    if c :| c in p && p[c].free && p[c].order >= k {
      Pow2Monotone(k, p[c].order);
      DownDown(c, k, p[c].order);
      BlockWhollyFree(p, c);
      assert Aligned(c, k) && WhollyFree(p, c, k);
    }
  }

  // ---- canonical form is kept ----

  lemma SplitCanonical(p: Pool, b: nat, n: nat)
    requires Partition(p, n) && Canonical(p) && b in p && p[b].order > 0 && !p[b].free
    ensures Canonical(Split(p, b))
  {
    var k := p[b].order - 1;
    var u := b + Pow2(k);
    SplitHolds(p, b, n);
    Halves(b, k);
    FlipAligned(b, k);
    FlipAligned(u, k);
    var q := Split(p, b);
    forall c | c in q && q[c].free && q[c].order < MAX_ORDER
      ensures !FreeAt(q, FlipBit(c, q[c].order), q[c].order)
    {
      if c != u {
        assert c in p && p[c] == q[c];
        if FlipBit(c, q[c].order) == u && q[c].order == k { FlipAligned(c, k); }
      }
    }
  }

  lemma {:induction false} SplitToKeeps(p: Pool, b: nat, k: nat, n: nat)
    requires Partition(p, n) && b in p && !p[b].free
    ensures var q := SplitTo(p, b, k);
      && Partition(q, n)
      && (Canonical(p) ==> Canonical(q))
      && b in q && q[b] == Block(if p[b].order <= k then p[b].order else k, false)
    ensures forall f: nat :: Tracked(SplitTo(p, b, k), f) <==> Tracked(p, f)
    decreases p[b].order
  {
    if p[b].order > k {
      SplitPartition(p, b, n);
      if Canonical(p) { SplitCanonical(p, b, n); }
      SplitToKeeps(Split(p, b), b, k, n);
    }
  }

  /** Handing out a block keeps the partition, the canonical form and the released frames. */
  lemma AllocKeeps(p: Pool, b: nat, k: nat, n: nat)
    requires Partition(p, n) && b in p && p[b].free && k <= p[b].order
    ensures Partition(Alloc(p, b, k), n)
    ensures Canonical(p) ==> Canonical(Alloc(p, b, k))
    ensures b in Alloc(p, b, k) && Alloc(p, b, k)[b] == Block(k, false)
    ensures forall f: nat :: Tracked(Alloc(p, b, k), f) <==> Tracked(p, f)
  {
    MarkPartition(p, b, false, n);
    SplitToKeeps(Mark(p, b, false), b, k, n);
  }

  /** Releasing a block joins it as far as it goes, so a canonical pool stays canonical. */
  lemma {:induction false} FreeKeeps(p: Pool, b: nat, n: nat)
    requires Partition(p, n) && b in p && !p[b].free
    ensures Partition(Free(p, b), n)
    ensures Canonical(p) ==> Canonical(Free(p, b))
    ensures forall f: nat :: Tracked(Free(p, b), f) <==> Tracked(p, f)
    decreases MAX_ORDER - p[b].order
  {
    if CanMerge(p, b) {
      MergePartition(p, b, n);
      MergeHolds(p, b, n);
      FreeKeeps(Merge(p, b), MergedBase(p, b), n);
    } else {
      MarkPartition(p, b, true, n);
      if Canonical(p) { ReleaseCanonical(p, b, n); }
    }
  }

  lemma ReleaseCanonical(p: Pool, b: nat, n: nat)
    requires Partition(p, n) && Canonical(p) && b in p && !p[b].free && !CanMerge(p, b)
    ensures Canonical(Mark(p, b, true))
  {
    var q, k := Mark(p, b, true), p[b].order;
    forall c | c in q && q[c].free && q[c].order < MAX_ORDER ensures !FreeAt(q, FlipBit(c, q[c].order), q[c].order) {
      FlipAligned(c, q[c].order);
      FlipAligned(b, k);
    }
  }
}

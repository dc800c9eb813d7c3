/** The allocator object: descriptors and list heads updated in place, proved to move its pool of
    blocks exactly as BuddyPool describes. */
module BuddyAllocator {
  import opened Bits
  import opened BuddyPool
  import opened BuddyRuns
  import opened BuddyLists
  import opened Options

  /** No free block is large enough for order `k`. */
  ghost predicate NoneLargeEnough(p: Pool, k: nat) {
    forall b :: b in p && p[b].free ==> p[b].order < k
  }

  /** `b` heads a smallest free block that is large enough for order `k`. */
  ghost predicate SmallestFit(p: Pool, b: nat, k: nat) {
    && b in p && p[b].free && k <= p[b].order
    && (forall c :: c in p && p[c].free && k <= p[c].order ==> p[b].order <= p[c].order)
  }

  class Buddy {
    var desc: array<FrameDesc>
    var heads: array<nat>
    var nframes: nat
    var freeFrames: nat
    ghost var lists: seq<seq<nat>>
    ghost var pool: Pool

    /** The lists hold the free blocks, and outstanding blocks other than `moving` have their
        order on record. */
    ghost predicate Consistent(moving: set<nat>)
      reads this, desc, heads
    {
      && Partition(pool, nframes)
      && Represents(desc[..], nframes, heads[..], lists, pool)
      && OrdersKnown(desc[..], pool, moving)
    }

    ghost predicate Valid()
      reads this, desc, heads
    {
      Consistent({}) && freeFrames == FreeCount(pool, nframes)
    }

    constructor (d: array<FrameDesc>)
      modifies d
      ensures Valid() && desc == d && fresh(heads)
      ensures nframes == d.Length % 0x1_0000_0000 && pool == map[]
    {
      desc := d;
      heads := new nat[MAX_ORDER + 1](_ => NIL);
      nframes := d.Length % 0x1_0000_0000;
      freeFrames := 0;
      lists := seq(MAX_ORDER + 1, _ => []);
      pool := map[];
      new;
      for i := 0 to d.Length
        modifies d
        invariant desc == d && forall j :: 0 <= j < i ==> d[j] == RESERVED
      {
        d[i] := RESERVED;
      }
      assert FreeFrames(pool, nframes) == {};
    }

    method Insert(base: nat, order: nat)
      requires base < desc.Length && order < heads.Length && (heads[order] == NIL || heads[order] < desc.Length)
      modifies desc, heads
      ensures desc[..] == InsertDesc(old(desc[..]), old(heads[order]), base, order)
      ensures heads[..] == old(heads[..])[order := base]
    {
      var head := heads[order];
      desc[base] := FrameDesc(head, NIL, order, true);
      if head != NIL {
        desc[head] := desc[head].(prev := base);
      }
      heads[order] := base;
    }

    method Unlink(base: nat, order: nat)
      requires base < desc.Length && order < heads.Length
      requires desc[base].next == NIL || desc[base].next < desc.Length
      requires desc[base].prev == NIL || desc[base].prev < desc.Length
      modifies desc, heads
      ensures desc[..] == UnlinkDesc(old(desc[..]), base)
      ensures heads[..] == if old(desc[base].prev) == NIL then old(heads[..])[order := old(desc[base].next)]
        else old(heads[..])
    {
      var next, prev := desc[base].next, desc[base].prev;
      if prev != NIL {
        desc[prev] := desc[prev].(next := next);
      } else {
        heads[order] := next;
      }
      if next != NIL {
        desc[next] := desc[next].(prev := prev);
      }
      desc[base] := desc[base].(free := false);
    }

    /** Put the block at `base` on its list; the pool becomes `q`. */
    method List(base: nat, order: nat, ghost q: Pool, ghost moving: set<nat>)
      requires Consistent(moving) && Partition(q, nframes) && base < nframes && Enlists(pool, q, base, order, moving)
      modifies this`lists, this`pool, desc, heads
      ensures Consistent(moving) && pool == q
    {
      ghost var d, hs := desc[..], heads[..];
      InsertRepresents(d, nframes, hs, lists, pool, base, order, q, moving);
      InsertOrders(d, hs[order], pool, base, order, q, moving);
      Insert(base, order);
      lists := lists[order := [base] + lists[order]];
      pool := q;
    }

    /** Take the free block at `base` off its list; the pool becomes `q`. */
    method Delist(base: nat, order: nat, ghost q: Pool, ghost moving: set<nat>)
      requires Consistent(moving) && Partition(q, nframes) && Delists(pool, q, base, order, moving)
      modifies this`lists, this`pool, desc, heads
      ensures Consistent(moving) && pool == q
    {
      ghost var d, hs := desc[..], heads[..];
      assert base in lists[order];
      ghost var i :| 0 <= i < |lists[order]| && lists[order][i] == base;
      UnlinkRepresents(d, nframes, hs, lists, pool, i, order, q, moving);
      UnlinkOrders(d, pool, base, order, q, moving);
      Unlink(base, order);
      lists := lists[order := Without(lists[order], i)];
      pool := q;
    }

    /** One round of `add_frames`: release the largest aligned block at `base`. */
    method AddBlock(base: nat, ghost end: nat, order: nat)
      requires Valid() && base < end <= nframes && order == RunOrder(base, end) && Unreleased(pool, base, end)
      modifies this`freeFrames, this`lists, this`pool, desc, heads
      ensures Valid() && pool == Add(old(pool), base, order)
      ensures base + Pow2(order) <= end && Unreleased(pool, base + Pow2(order), end)
    {
      hide RunOrder;
      hide Represents;
      hide OrdersKnown;
      hide Partition;
      hide FreeCount;
      hide Tracked;
      hide Aligned;
      hide Pow2;
      hide Add;
      hide Enlists;
      RunOrderFits(base, end);
      AddPartition(pool, base, order, nframes);
      AddTracks(pool, base, order);
      UntrackedBase(pool, base);
      AddCounts(pool, base, order, nframes);
      AddEnlists(pool, base, order);
      freeFrames := freeFrames + Pow2(order);
      List(base, order, Add(pool, base, order), {});
    }

    method AddFrames(start: nat, count: nat)
      requires Valid() && start + count <= nframes && Unreleased(pool, start, start + count)
      modifies this`freeFrames, this`lists, this`pool, desc, heads
      ensures Valid() && pool == AddRun(old(pool), start, start + count)
    {
      hide RunOrder;
      hide AddRun;
      hide Unreleased;
      hide Represents;
      hide Partition;
      hide OrdersKnown;
      AddRunStep(pool, start, start + count);
      if count == 0 {
        return;
      }
      var end := start + count;
      var base := start;
      while base < end
        invariant start <= base <= end && Valid() && Unreleased(pool, base, end)
        invariant AddRun(pool, base, end) == AddRun(old(pool), start, end)
        decreases end - base
      {
        var order := RunOrder(base, end);
        AddRunStep(pool, base, end);
        AddBlock(base, end, order);
        base := base + Pow2(order);
      }
      AddRunStep(pool, base, end);
    }

    /** The smallest order from `order` up whose list is not empty, or `MAX_ORDER + 1`. */
    method FindOrder(order: nat) returns (o: nat)
      requires Consistent({}) && order <= MAX_ORDER
      ensures order <= o <= MAX_ORDER + 1
      ensures forall b :: b in pool && pool[b].free && order <= pool[b].order ==> o <= pool[b].order
      ensures o <= MAX_ORDER ==> FreeAt(pool, heads[o], o)
    {
      o := order;
      while o <= MAX_ORDER && heads[o] == NIL
        invariant order <= o <= MAX_ORDER + 1
        invariant forall k: nat, b: nat :: order <= k < o ==> !FreeAt(pool, b, k)
      {
        assert Linked(desc[..], nframes, heads[..][o], lists[o]);
        assert lists[o] == [];
        o := o + 1;
      }
      assert forall b :: b in pool && pool[b].free ==> FreeAt(pool, b, pool[b].order);
      if o <= MAX_ORDER {
        assert Linked(desc[..], nframes, heads[..][o], lists[o]);
        assert heads[o] in lists[o];
      }
    }

    method SplitOnce(base: nat, o: nat)
      requires 0 < o <= MAX_ORDER && Consistent({base}) && base in pool && pool[base] == Block(o, false)
      requires freeFrames == FreeCount(pool, nframes) + Pow2(o)
      modifies this`lists, this`pool, desc, heads
      ensures Consistent({base}) && pool == Split(old(pool), base)
      ensures base in pool && pool[base] == Block(o - 1, false)
      ensures freeFrames == FreeCount(pool, nframes) + Pow2(o - 1)
    {
      hide Represents;
      hide OrdersKnown;
      hide Partition;
      hide FreeCount;
      SplitEnlists(pool, base, nframes);
      SplitPartition(pool, base, nframes);
      SplitCounts(pool, base, nframes);
      var upper := base + Pow2(o - 1);
      List(upper, o - 1, Split(pool, base), {base});
    }

    /** Cut the block at `base` from order `o0` down to `order`, releasing each upper half. */
    method SplitDown(base: nat, o0: nat, order: nat)
      requires order <= o0 <= MAX_ORDER && Consistent({base})
      requires base in pool && pool[base] == Block(o0, false)
      requires freeFrames == FreeCount(pool, nframes) + Pow2(o0)
      modifies this`lists, this`pool, desc, heads
      ensures Consistent({base}) && pool == SplitTo(old(pool), base, order)
      ensures base in pool && pool[base] == Block(order, false)
      ensures freeFrames == FreeCount(pool, nframes) + Pow2(order)
    {
      hide Consistent;
      hide FreeCount;
      var o := o0;
      while o > order
        invariant order <= o <= MAX_ORDER && Consistent({base})
        invariant base in pool && pool[base] == Block(o, false)
        invariant freeFrames == FreeCount(pool, nframes) + Pow2(o)
        invariant SplitTo(pool, base, order) == SplitTo(old(pool), base, order)
      {
        SplitOnce(base, o);
        o := o - 1;
      }
    }

    /** Note the order of a block about to be handed out. */
    method Record(base: nat, order: nat)
      requires Consistent({base}) && base in pool && pool[base] == Block(order, false)
      requires freeFrames == FreeCount(pool, nframes) + Pow2(order)
      modifies this`freeFrames, desc
      ensures Valid()
    {
      assert !FreeAt(pool, base, desc[base].order);
      RecordRepresents(desc[..], nframes, heads[..], lists, pool, base, order);
      ghost var d := desc[..];
      desc[base] := desc[base].(order := order);
      desc[base] := desc[base].(free := false);
      assert desc[..] == d[base := d[base].(order := order)];
      freeFrames := freeFrames - Pow2(order);
    }

    method Alloc(order: nat) returns (r: Option<nat>)
      requires Valid()
      modifies this`freeFrames, this`lists, this`pool, desc, heads
      ensures Valid()
      ensures r.None? <==> order > MAX_ORDER || NoneLargeEnough(old(pool), order)
      ensures r.None? ==> pool == old(pool)
      ensures r.Some? ==> SmallestFit(old(pool), r.value, order) && pool == BuddyPool.Alloc(old(pool), r.value, order)
    {
      if order > MAX_ORDER {
        return None;
      }
      var o := FindOrder(order);
      if o > MAX_ORDER {
        return None;
      }
      var base := heads[o];
      HandCounts(pool, base, nframes);
      MarkPartition(pool, base, false, nframes);
      MarkLists(pool, base);
      Delist(base, o, Mark(pool, base, false), {base});
      SplitDown(base, o, order);
      Record(base, order);
      return Some(base);
    }

    method Free(base: nat)
      requires Valid() && base in pool && !pool[base].free
      modifies this`freeFrames, this`lists, this`pool, desc, heads
      ensures Valid() && pool == BuddyPool.Free(old(pool), base)
      ensures freeFrames == old(freeFrames) + Pow2(old(pool)[base].order)
    {
      var order := desc[base].order;
      freeFrames := freeFrames + Pow2(order);
      Coalesce(base, order);
    }

    method MergeOnce(base: nat, order: nat, buddy: nat)
      requires Consistent({base}) && base in pool && pool[base] == Block(order, false)
      requires CanMerge(pool, base) && buddy == FlipBit(base, order)
      requires freeFrames == FreeCount(pool, nframes) + Pow2(order)
      modifies this`lists, this`pool, desc, heads
      ensures pool == Merge(old(pool), base) && Consistent({MergedBase(old(pool), base)})
      ensures MergedBase(old(pool), base) in pool && pool[MergedBase(old(pool), base)] == Block(order + 1, false)
      ensures freeFrames == FreeCount(pool, nframes) + Pow2(order + 1)
    {
      MergeDelists(pool, base, nframes);
      MergePartition(pool, base, nframes);
      MergeCounts(pool, base, nframes);
      ghost var m := MergedBase(pool, base);
      Delist(buddy, order, Merge(pool, base), {base, m});
      assert base in pool ==> base == m;
    }

    method ListFree(base: nat, order: nat)
      requires Consistent({base}) && base in pool && pool[base] == Block(order, false)
      requires freeFrames == FreeCount(pool, nframes) + Pow2(order)
      modifies this`lists, this`pool, desc, heads
      ensures Valid() && pool == Mark(old(pool), base, true)
    {
      ReleaseCounts(pool, base, nframes);
      MarkPartition(pool, base, true, nframes);
      MarkLists(pool, base);
      List(base, order, Mark(pool, base, true), {base});
    }

    method Coalesce(base0: nat, order0: nat)
      requires Consistent({}) && base0 in pool && pool[base0] == Block(order0, false)
      requires freeFrames == FreeCount(pool, nframes) + Pow2(order0)
      modifies this`lists, this`pool, desc, heads
      ensures Valid() && pool == BuddyPool.Free(old(pool), base0)
    {
      var base: nat, order: nat := base0, order0;
      while order < MAX_ORDER
        invariant order <= MAX_ORDER && Consistent({base})
        invariant base in pool && pool[base] == Block(order, false)
        invariant freeFrames == FreeCount(pool, nframes) + Pow2(order)
        invariant BuddyPool.Free(pool, base) == BuddyPool.Free(old(pool), base0)
      {
        var buddy := FlipBit(base, order);
        if buddy >= nframes {
          break;
        }
        if !desc[buddy].free || desc[buddy].order != order {
          break;
        }
        MergeOnce(base, order, buddy);
        if buddy < base {
          base := buddy;
        }
        order := order + 1;
      }
      assert !CanMerge(pool, base);
      ListFree(base, order);
    }
  }
}

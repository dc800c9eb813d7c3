/** A slab cache: a free list threaded through the free slots' own bytes. */
module SlabSpec {
  import Bits
  import opened LittleEndian
  import opened Options

  const LINK: nat := 8
  const NIL_OFF: nat := U64_LIMIT - 1

  /** The region's bytes with the cache's head and count. */
  datatype Cache = Cache(mem: seq<byte>, head: nat, count: nat)

  function ReadLink(mem: seq<byte>, off: nat): (v: nat)
    requires off + LINK <= |mem|
  {
    LeValue(mem[off..off + LINK])
  }

  function WriteLink(mem: seq<byte>, off: nat, v: nat): (r: seq<byte>)
    requires off + LINK <= |mem|
    ensures |r| == |mem|
  {
    Patch(mem, off, Le(v, LINK))
  }

  function RoundUp(x: nat, align: nat): (r: nat)
    requires align > 0
    ensures r % align == 0 && x <= r < x + align
  {
    Bits.RemainderUnique((x + align - 1) / align * align, align, (x + align - 1) / align, 0);
    (x + align - 1) / align * align
  }

  function Max(a: nat, b: nat): (m: nat) {
    if a < b then b else a
  }

  function SlotSize(objSize: nat, align: nat): (s: nat)
    ensures s >= LINK && s >= objSize && s % Max(align, LINK) == 0
  {
    RoundUp(Max(objSize, LINK), Max(align, LINK))
  }

  /** Byte offset of slot `i`. */
  function Off(slot: nat, i: nat): (o: nat) {
    i * slot
  }

  function Give(c: Cache, off: nat): (r: Cache)
    requires off + LINK <= |c.mem|
  {
    Cache(WriteLink(c.mem, off, c.head), off, c.count + 1)
  }

  /** The list threaded through slots `i` and up. */
  function Thread(mem: seq<byte>, slot: nat, capacity: nat, i: nat): (c: Cache)
    requires slot >= LINK && i <= capacity && capacity * slot <= |mem|
    ensures |c.mem| == |mem|
    decreases capacity - i
  {
    if i == capacity then Cache(mem, NIL_OFF, 0)
    else
      SlotInside(slot, capacity, i);
      Give(Thread(mem, slot, capacity, i + 1), Off(slot, i))
  }

  predicate Readable(c: Cache) {
    c.head == NIL_OFF || (c.head + LINK <= |c.mem| && c.count > 0)
  }

  function Take(c: Cache): (r: (Option<nat>, Cache))
    requires Readable(c)
  {
    if c.head == NIL_OFF then (None, c) else (Some(c.head), Cache(c.mem, ReadLink(c.mem, c.head), c.count - 1))
  }

  // ---- the list and the slots ----

  lemma SlotInside(slot: nat, capacity: nat, i: nat)
    requires i < capacity
    ensures Off(slot, i) + slot <= capacity * slot
  {
    assert (i + 1) * slot <= capacity * slot;
  }

  /** As many slots as the region holds. */
  function Capacity(len: nat, slot: nat): (n: nat)
    requires slot > 0
    ensures n * slot <= len < (n + 1) * slot
  {
    len / slot
  }

  lemma SlotsApart(slot: nat, i: nat, j: nat)
    requires i < j
    ensures Off(slot, i) + slot <= Off(slot, j)
  {
    assert (i + 1) * slot <= j * slot;
  }

  /** The link a slot at position `k` of the list holds. */
  function LinkAt(slot: nat, free: seq<nat>, k: nat): (v: nat) {
    if k < |free| then Off(slot, free[k]) else NIL_OFF
  }

  ghost predicate Holds(mem: seq<byte>, slot: nat, free: seq<nat>, k: nat)
    requires k < |free|
  {
    Off(slot, free[k]) + LINK <= |mem| && ReadLink(mem, Off(slot, free[k])) == LinkAt(slot, free, k + 1)
  }

  /** The head and the links of the region spell the list `free` of slot numbers. */
  ghost predicate Threads(c: Cache, slot: nat, free: seq<nat>) {
    && c.head == LinkAt(slot, free, 0) && c.count == |free|
    && (forall k: nat :: k < |free| ==> Holds(c.mem, slot, free, k))
  }

  /** Every slot is either on the list, once, or live. */
  ghost predicate Splits(capacity: nat, free: seq<nat>, live: set<nat>) {
    && (forall k :: 0 <= k < |free| ==> free[k] < capacity && free[k] !in live)
    && (forall j, k :: 0 <= j < k < |free| ==> free[j] != free[k])
    && (forall i :: i in live ==> i < capacity)
    && (forall i: nat :: i < capacity ==> i in live || i in free)
    && |free| + |live| == capacity
  }

  ghost predicate Fits(c: Cache, slot: nat, capacity: nat) {
    slot >= LINK && capacity * slot <= |c.mem| < U64_LIMIT
  }

  ghost predicate Good(c: Cache, slot: nat, capacity: nat, free: seq<nat>, live: set<nat>) {
    Fits(c, slot, capacity) && Threads(c, slot, free) && Splits(capacity, free, live)
  }

  lemma LinkRoundTrip(mem: seq<byte>, off: nat, v: nat)
    requires off + LINK <= |mem| && v < U64_LIMIT
    ensures ReadLink(WriteLink(mem, off, v), off) == v
  {
    Widths();
    LeRoundTrip(v, LINK);
    assert WriteLink(mem, off, v)[off..off + LINK] == Le(v, LINK);
    hide LeValue;
    hide Le;
  }

  /** Bytes written in one slot leave the links of the other slots. */
  lemma OtherLink(mem: seq<byte>, slot: nat, off: nat, w: seq<byte>, i: nat, j: nat)
    requires slot >= LINK && i != j && off + |w| <= |mem| && Off(slot, j) + LINK <= |mem|
    requires Off(slot, i) <= off && off + |w| <= Off(slot, i) + slot
    ensures ReadLink(Patch(mem, off, w), Off(slot, j)) == ReadLink(mem, Off(slot, j))
  {
    if i < j { SlotsApart(slot, i, j); } else { SlotsApart(slot, j, i); }
    var o := Off(slot, j);
    hide Off;
    assert Patch(mem, off, w)[o..o + LINK] == mem[o..o + LINK];
    hide LeValue;
  }

  /** Bytes written inside a slot that is not on the list leave the list. */
  lemma WriteKeepsList(c: Cache, slot: nat, capacity: nat, free: seq<nat>, i: nat, off: nat, w: seq<byte>)
    requires Fits(c, slot, capacity) && i !in free && off + |w| <= |c.mem|
    requires Off(slot, i) <= off && off + |w| <= Off(slot, i) + slot
    requires forall k: nat :: k < |free| ==> Holds(c.mem, slot, free, k)
    ensures forall k: nat :: k < |free| ==> Holds(Patch(c.mem, off, w), slot, free, k)
  {
    forall k: nat | k < |free|
      ensures Holds(Patch(c.mem, off, w), slot, free, k)
    {
      assert Holds(c.mem, slot, free, k);
      OtherLink(c.mem, slot, off, w, i, free[k]);
    }
  }

  // ---- the operations ----

  lemma GiveThreads(c: Cache, slot: nat, capacity: nat, free: seq<nat>, i: nat)
    requires Fits(c, slot, capacity) && Threads(c, slot, free) && i < capacity && i !in free
    requires forall k :: 0 <= k < |free| ==> free[k] < capacity
    ensures Off(slot, i) + LINK <= |c.mem|
    ensures Fits(Give(c, Off(slot, i)), slot, capacity) && Threads(Give(c, Off(slot, i)), slot, [i] + free)
  {
    SlotInside(slot, capacity, i);
    if free != [] { SlotInside(slot, capacity, free[0]); }
    LinkRoundTrip(c.mem, Off(slot, i), c.head);
    WriteKeepsList(c, slot, capacity, free, i, Off(slot, i), Le(c.head, LINK));
    hide Off;
    hide ReadLink;
    var r, l := Give(c, Off(slot, i)), [i] + free;
    forall k: nat | k < |l|
      ensures Holds(r.mem, slot, l, k)
    {
      if k > 0 { assert Holds(r.mem, slot, free, k - 1); }
    }
  }

  /** Giving a live slot back puts it at the front of the list. */
  lemma GiveGood(c: Cache, slot: nat, capacity: nat, free: seq<nat>, live: set<nat>, i: nat)
    requires Good(c, slot, capacity, free, live) && i in live
    ensures Off(slot, i) + LINK <= |c.mem|
    ensures Good(Give(c, Off(slot, i)), slot, capacity, [i] + free, live - {i})
  {
    GiveThreads(c, slot, capacity, free, i);
    hide Threads;
    hide Fits;
  }

  /** A slot is handed out exactly when some slot is not live; it is the front of the list, which
      was not live, and the rest of the list stays. */
  lemma TakeGood(c: Cache, slot: nat, capacity: nat, free: seq<nat>, live: set<nat>)
    requires Good(c, slot, capacity, free, live)
    ensures Readable(c)
    ensures Take(c).0.Some? <==> |live| < capacity
    ensures Take(c).0.Some? ==>
      && free != [] && Take(c).0.value == Off(slot, free[0]) && free[0] !in live
      && Good(Take(c).1, slot, capacity, free[1..], live + {free[0]})
    ensures Take(c).0.None? ==> Take(c).1 == c
  {
    if free != [] {
      SlotInside(slot, capacity, free[0]);
      hide Off;
      assert Holds(c.mem, slot, free, 0);
      var rest, r := free[1..], Take(c).1;
      forall k: nat | k < |rest|
        ensures Holds(r.mem, slot, rest, k)
      {
        assert Holds(c.mem, slot, free, k + 1);
      }
      forall i: nat | i < capacity
        ensures i in live + {free[0]} || i in rest
      {
        if i !in live { var k :| 0 <= k < |free| && free[k] == i; assert k > 0 ==> rest[k - 1] == i; }
      }
    }
  }

  /** A client that writes only inside a live slot does not disturb the cache. */
  lemma PokeGood(c: Cache, slot: nat, capacity: nat, free: seq<nat>, live: set<nat>, i: nat, off: nat, w: seq<byte>)
    requires Good(c, slot, capacity, free, live) && i in live
    requires Off(slot, i) <= off && off + |w| <= Off(slot, i) + slot
    ensures off + |w| <= |c.mem|
    ensures Good(c.(mem := Patch(c.mem, off, w)), slot, capacity, free, live)
  {
    SlotInside(slot, capacity, i);
    WriteKeepsList(c, slot, capacity, free, i, off, w);
    hide Off;
    hide ReadLink;
  }

  function Ascending(capacity: nat, i: nat): (l: seq<nat>)
    requires i <= capacity
    ensures |l| == capacity - i && forall k :: 0 <= k < |l| ==> l[k] == i + k
    decreases capacity - i
  {
    if i == capacity then [] else [i] + Ascending(capacity, i + 1)
  }

  lemma {:induction false} ThreadThreads(mem: seq<byte>, slot: nat, capacity: nat, i: nat)
    requires slot >= LINK && i <= capacity && capacity * slot <= |mem| < U64_LIMIT
    ensures Threads(Thread(mem, slot, capacity, i), slot, Ascending(capacity, i))
    decreases capacity - i
  {
    if i < capacity {
      ThreadThreads(mem, slot, capacity, i + 1);
      GiveThreads(Thread(mem, slot, capacity, i + 1), slot, capacity, Ascending(capacity, i + 1), i);
    }
  }

  /** Threading the list makes every slot free, lowest first. */
  lemma InitGood(mem: seq<byte>, slot: nat, capacity: nat)
    requires slot >= LINK && capacity * slot <= |mem| < U64_LIMIT
    ensures Good(Thread(mem, slot, capacity, 0), slot, capacity, Ascending(capacity, 0), {})
  {
    ThreadThreads(mem, slot, capacity, 0);
    AllFree(capacity);
    hide Threads;
    hide Thread;
    hide Splits;
    hide Ascending;
  }

  lemma AllFree(capacity: nat)
    ensures Splits(capacity, Ascending(capacity, 0), {})
  {
    var l := Ascending(capacity, 0);
    forall i: nat | i < capacity
      ensures i in l
    {
      assert l[i] == i;
    }
  }

  // ---- runs ----

  datatype Op =
    | TakeOp
    | GiveOp(slot: nat)
    | PokeOp(slot: nat, off: nat, bytes: seq<byte>)

  /** The cache, and the slots its clients hold. */
  datatype World = World(c: Cache, live: set<nat>)

  /** A client frees and writes only what it holds. */
  ghost predicate Legal(w: World, slot: nat, op: Op) {
    match op
    case TakeOp => true
    case GiveOp(i) => i in w.live
    case PokeOp(i, off, bytes) => i in w.live && Off(slot, i) <= off && off + |bytes| <= Off(slot, i) + slot
  }

  /** The operation stays inside the region. */
  ghost predicate Safe(w: World, slot: nat, op: Op) {
    match op
    case TakeOp => Readable(w.c)
    case GiveOp(i) => Off(slot, i) + LINK <= |w.c.mem|
    case PokeOp(i, off, bytes) => off + |bytes| <= |w.c.mem|
  }

  ghost function Step(w: World, slot: nat, op: Op): (r: World)
    requires slot >= LINK
  {
    if !Safe(w, slot, op) then w else
    match op
    case TakeOp => var t := Take(w.c); World(t.1, if t.0.Some? then w.live + {t.0.value / slot} else w.live)
    case GiveOp(i) => World(Give(w.c, Off(slot, i)), w.live - {i})
    case PokeOp(i, off, bytes) => World(w.c.(mem := Patch(w.c.mem, off, bytes)), w.live)
  }

  ghost function FreeAfter(free: seq<nat>, op: Op): (r: seq<nat>) {
    match op
    case TakeOp => if free == [] then [] else free[1..]
    case GiveOp(i) => [i] + free
    case PokeOp(_, _, _) => free
  }

  lemma OffDiv(slot: nat, i: nat)
    requires slot > 0
    ensures Off(slot, i) / slot == i && Off(slot, i) % slot == 0
  {
    Bits.RemainderUnique(Off(slot, i), slot, i, 0);
  }

  lemma StepGood(w: World, slot: nat, capacity: nat, free: seq<nat>, op: Op)
    requires Good(w.c, slot, capacity, free, w.live) && Legal(w, slot, op)
    ensures Safe(w, slot, op) && Good(Step(w, slot, op).c, slot, capacity, FreeAfter(free, op), Step(w, slot, op).live)
  {
    TakeGood(w.c, slot, capacity, free, w.live);
    assert free == [] <==> |w.live| == capacity;
    match op {
      case TakeOp => if free != [] { OffDiv(slot, free[0]); }
      case GiveOp(i) => GiveGood(w.c, slot, capacity, free, w.live, i);
      case PokeOp(i, off, bytes) => PokeGood(w.c, slot, capacity, free, w.live, i, off, bytes);
    }
  }

  /** A run in which each client touches only what it holds. */
  ghost predicate LegalRun(w: World, slot: nat, ops: seq<Op>)
    requires slot >= LINK
    decreases |ops|
  {
    ops == [] || (Legal(w, slot, ops[0]) && LegalRun(Step(w, slot, ops[0]), slot, ops[1..]))
  }

  ghost predicate SafeRun(w: World, slot: nat, ops: seq<Op>)
    requires slot >= LINK
    decreases |ops|
  {
    ops == [] || (Safe(w, slot, ops[0]) && SafeRun(Step(w, slot, ops[0]), slot, ops[1..]))
  }

  ghost function Run(w: World, slot: nat, ops: seq<Op>): (r: World)
    requires slot >= LINK
    decreases |ops|
  {
    if ops == [] then w else Run(Step(w, slot, ops[0]), slot, ops[1..])
  }

  ghost function FreeAfterRun(free: seq<nat>, ops: seq<Op>): (r: seq<nat>)
    decreases |ops|
  {
    if ops == [] then free else FreeAfterRun(FreeAfter(free, ops[0]), ops[1..])
  }

  lemma {:induction false} RunGood(w: World, slot: nat, capacity: nat, free: seq<nat>, ops: seq<Op>)
    requires slot >= LINK && Good(w.c, slot, capacity, free, w.live) && LegalRun(w, slot, ops)
    ensures SafeRun(w, slot, ops)
    ensures Good(Run(w, slot, ops).c, slot, capacity, FreeAfterRun(free, ops), Run(w, slot, ops).live)
    decreases |ops|
  {
    if ops != [] {
      StepGood(w, slot, capacity, free, ops[0]);
      hide Good;
      RunGood(Step(w, slot, ops[0]), slot, capacity, FreeAfter(free, ops[0]), ops[1..]);
    }
  }

  /** From `init`, after any run: the list visits each slot that is not live once, the counter is its
      length, and a further `alloc` succeeds exactly when fewer than `capacity` slots are live, with the
      offset of a slot that is in range and not live. */
  lemma EveryRunIsSafe(mem: seq<byte>, slot: nat, capacity: nat, ops: seq<Op>)
    requires slot >= LINK && capacity * slot <= |mem| < U64_LIMIT
    requires LegalRun(World(Thread(mem, slot, capacity, 0), {}), slot, ops)
    ensures var w := Run(World(Thread(mem, slot, capacity, 0), {}), slot, ops);
      && SafeRun(World(Thread(mem, slot, capacity, 0), {}), slot, ops)
      && Good(w.c, slot, capacity, FreeAfterRun(Ascending(capacity, 0), ops), w.live)
      && Readable(w.c) && w.c.count == capacity - |w.live|
      && (Take(w.c).0.Some? <==> |w.live| < capacity)
      && (Take(w.c).0.Some? ==>
            Take(w.c).0.value % slot == 0 && Take(w.c).0.value / slot < capacity && Take(w.c).0.value / slot !in w.live)
  {
    var w0 := World(Thread(mem, slot, capacity, 0), {});
    InitGood(mem, slot, capacity);
    RunGood(w0, slot, capacity, Ascending(capacity, 0), ops);
    var w, free := Run(w0, slot, ops), FreeAfterRun(Ascending(capacity, 0), ops);
    TakeGood(w.c, slot, capacity, free, w.live);
    if free != [] { OffDiv(slot, free[0]); }
    hide Run;
    hide FreeAfterRun;
    hide Thread;
  }

  /** Every slot offset has the alignment, a power of two, that the objects need. */
  lemma OffsetsAligned(objSize: nat, k: nat, i: nat)
    ensures Off(SlotSize(objSize, Bits.Pow2(k)), i) % Bits.Pow2(k) == 0
  {
    var align := Bits.Pow2(k);
    var a, slot := Max(align, LINK), SlotSize(objSize, align);
    if align < LINK { SmallPowers(k); } else { Bits.RemainderUnique(align, align, 1, 0); }
    hide SlotSize;
    hide Off;
    hide Bits.Pow2;
    MultipleOfMultiple(slot, a, align);
    OffDiv(slot, i);
    MultipleOfMultiple(Off(slot, i), slot, align);
  }

  lemma MultipleOfMultiple(x: nat, y: nat, z: nat)
    requires y > 0 && z > 0 && x % y == 0 && y % z == 0
    ensures x % z == 0
  {
    var q, p := x / y, y / z;
    assert q * (p * z) == (q * p) * z;
    assert x == (q * p) * z by { assert x == q * y && y == p * z; }
    Bits.RemainderUnique(x, z, q * p, 0);
  }

  lemma SmallPowers(k: nat)
    requires Bits.Pow2(k) < LINK
    ensures LINK % Bits.Pow2(k) == 0
  {
    if k >= 3 {
      Bits.Pow2Monotone(3, k);
    }
  }
}

module SlabObject {
  import opened LittleEndian
  import opened SlabSpec
  import opened Options

  class SlabCache {
    const slotSize: nat
    const capacity: nat
    var freeHead: nat
    var freeCount: nat

    constructor (objSize: nat, align: nat, regionLen: nat)
      requires align > 0
      ensures slotSize == SlotSize(objSize, align) && capacity == Capacity(regionLen, slotSize)
      ensures freeHead == NIL_OFF && freeCount == 0
    {
      var slot := SlotSize(objSize, align);
      slotSize := slot;
      capacity := Capacity(regionLen, slot);
      freeHead := NIL_OFF;
      freeCount := 0;
    }

    /** The cache over the bytes of the region. */
    ghost function View(mem: array<byte>): (c: Cache)
      reads this, mem
    {
      Cache(mem[..], freeHead, freeCount)
    }

    method WriteAt(mem: array<byte>, off: nat, v: nat)
      requires off + LINK <= mem.Length
      modifies mem
      ensures mem[..] == WriteLink(old(mem[..]), off, v)
    {
      var w := Le(v, LINK);
      ghost var s := mem[..];
      forall k | 0 <= k < LINK {
        mem[off + k] := w[k];
      }
      hide Le;
    }

    /** Puts the slot at `off` in front of the list. */
    method Push(mem: array<byte>, off: nat)
      requires off + LINK <= mem.Length
      modifies this, mem
      ensures View(mem) == Give(old(View(mem)), off)
    {
      WriteAt(mem, off, freeHead);
      freeHead := off;
      freeCount := freeCount + 1;
    }

    /** Threads the list through every slot, from the last down, so that it runs low to high. */
    method Init(mem: array<byte>)
      requires slotSize >= LINK && capacity * slotSize <= mem.Length < U64_LIMIT
      modifies this, mem
      ensures View(mem) == Thread(old(mem[..]), slotSize, capacity, 0)
      ensures Good(View(mem), slotSize, capacity, Ascending(capacity, 0), {})
    {
      hide Good;
      hide Off;
      hide Give;
      InitGood(mem[..], slotSize, capacity);
      freeHead := NIL_OFF;
      freeCount := 0;
      var i: nat := capacity;
      while i > 0
        invariant i <= capacity
        invariant View(mem) == Thread(old(mem[..]), slotSize, capacity, i)
      {
        i := i - 1;
        SlotInside(slotSize, capacity, i);
        Push(mem, Off(slotSize, i));
      }
    }

    /** Pops the front of the list; the region is not written. */
    method Alloc(mem: array<byte>, ghost free: seq<nat>, ghost live: set<nat>) returns (r: Option<nat>)
      requires Good(View(mem), slotSize, capacity, free, live)
      modifies this
      ensures (r, View(mem)) == Take(old(View(mem)))
      ensures r.Some? <==> |live| < capacity
      ensures r.Some? ==> free != [] && r.value == Off(slotSize, free[0]) && free[0] !in live
                          && Good(View(mem), slotSize, capacity, free[1..], live + {free[0]})
      ensures r.None? ==> Good(View(mem), slotSize, capacity, free, live)
    {
      TakeGood(View(mem), slotSize, capacity, free, live);
      hide Good;
      if freeHead == NIL_OFF {
        return None;
      }
      var off := freeHead;
      freeHead := LeValue(mem[off..off + LINK]);
      freeCount := freeCount - 1;
      assert mem[..][off..off + LINK] == mem[off..off + LINK];
      return Some(off);
    }

    /** Pushes a live slot back. */
    method Free(mem: array<byte>, off: nat, ghost free: seq<nat>, ghost live: set<nat>)
      requires Good(View(mem), slotSize, capacity, free, live)
      requires off % slotSize == 0 && off / slotSize in live
      modifies this, mem
      ensures off + LINK <= mem.Length && View(mem) == Give(old(View(mem)), off)
      ensures Good(View(mem), slotSize, capacity, [off / slotSize] + free, live - {off / slotSize})
    {
      hide Threads;
      hide Splits;
      hide Give;
      ghost var i := off / slotSize;
      GiveGood(View(mem), slotSize, capacity, free, live, i);
      assert Off(slotSize, i) == off;
      Push(mem, off);
    }
  }
}

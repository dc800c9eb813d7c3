/** The page tables over the buddy allocator: the frames a history can take are the allocator's free frames
    throughout, and a process that comes and goes leaves the allocator as it found it. */
module SpaceBuddy {
  import opened Bits
  import opened BuddyCanonical
  import opened BuddyPool
  import opened KernelEdits
  import opened KernelImage
  import opened PageTables
  import opened ProcessSpaces
  import opened SpaceCreate
  import opened SpaceMap
  import opened SpaceRuns
  import BuddyRuns

  /** A single frame, handed out. */
  ghost predicate Single(p: Pool, f: nat) {
    f in p && p[f] == Block(0, false)
  }

  /** What is handed out in `p`, but for the block at `b`, is so in `q`. */
  ghost predicate KeepsOthers(p: Pool, q: Pool, b: nat) {
    forall c :: c in p && !p[c].free && c != b ==> c in q && q[c] == p[c]
  }

  // ---- one allocation and one release ----

  lemma {:induction false} SplitToFrames(p: Pool, b: nat, n: nat, f: nat)
    requires Partition(p, n) && b in p && !p[b].free
    ensures FrameFree(SplitTo(p, b, 0), f) <==> FrameFree(p, f) || b < f < b + Pow2(p[b].order)
    ensures KeepsOthers(p, SplitTo(p, b, 0), b)
    decreases p[b].order
  {
    hide FrameFree; hide Partition;
    if p[b].order > 0 {
      SplitHolds(p, b, n);
      SplitPartition(p, b, n);
      SplitFrame(p, b, f, n);
      SplitToFrames(Split(p, b), b, n, f);
    }
  }

  /** Handing out a single frame takes that frame and nothing else. */
  lemma HandsOne(p: Pool, b: nat, n: nat)
    requires Partition(p, n) && b in p && p[b].free
    ensures var q := Alloc(p, b, 0);
      FreeFrames(q, n) == FreeFrames(p, n) - {b} && b in FreeFrames(p, n) && Single(q, b) && KeepsOthers(p, q, b)
  {
    hide FrameFree; hide Partition; hide SplitTo;
    var m := Mark(p, b, false);
    MarkPartition(p, b, false, n);
    AllocKeeps(p, b, 0, n);
    forall f: nat ensures FrameFree(Alloc(p, b, 0), f) <==> FrameFree(p, f) && f != b {
      MarkFrame(p, b, false, f, n);
      SplitToFrames(m, b, n, f);
    }
    MarkFrame(p, b, false, b, n);
    SplitToFrames(m, b, n, b);
  }

  lemma MergeFrame(p: Pool, b: nat, n: nat, f: nat)
    requires Partition(p, n) && CanMerge(p, b) && !p[b].free
    ensures var m, q := MergedBase(p, b), Merge(p, b);
      (FrameFree(q, f) || Holds(q, m, f)) <==> (FrameFree(p, f) || Holds(p, b, f))
  {
    MergeFrees(p, b, n);
    MergeHolds(p, b, n);
    var c := FlipBit(b, p[b].order);
    assert Holds(p, c, f) <==> f in Range(c, Pow2(p[b].order));
    if f in Range(c, Pow2(p[b].order)) {
      assert f in FreeFrames(p, n);
    } else {
      assert f in FreeFrames(Merge(p, b), n) <==> f in FreeFrames(p, n);
      FreeInRange(p, n, f);
      MergePartition(p, b, n);
      FreeInRange(Merge(p, b), n, f);
    }
  }

  lemma FreeInRange(p: Pool, n: nat, f: nat)
    requires Partition(p, n)
    ensures FrameFree(p, f) ==> f < n
  {
    if b :| Holds(p, b, f) && p[b].free {}
  }

  lemma HoldsIs(p: Pool, b: nat, f: nat)
    requires b in p
    ensures Holds(p, b, f) <==> b <= f < b + Pow2(p[b].order)
  {
  }

  lemma MergeKeepsOthers(p: Pool, b: nat, n: nat)
    requires Partition(p, n) && CanMerge(p, b) && !p[b].free
    ensures KeepsOthers(p, Merge(p, b), b) && MergedBase(p, b) in Merge(p, b)
    ensures MergedBase(p, b) == b || p[MergedBase(p, b)].free
  {
    hide Partition; hide FlipBit;
  }

  lemma {:induction false} FreeFrame(p: Pool, b: nat, n: nat, f: nat)
    requires Partition(p, n) && b in p && !p[b].free
    ensures FrameFree(Free(p, b), f) <==> FrameFree(p, f) || Holds(p, b, f)
    ensures KeepsOthers(p, Free(p, b), b)
    decreases MAX_ORDER - p[b].order
  {
    hide FrameFree; hide Partition; hide Holds; hide CanMerge;
    BlockShape(p, n, b);
    if CanMerge(p, b) {
      MergePartition(p, b, n);
      MergeHolds(p, b, n);
      MergeFrame(p, b, n, f);
      MergeKeepsOthers(p, b, n);
      FreeFrame(Merge(p, b), MergedBase(p, b), n, f);
    } else {
      MarkFrame(p, b, true, f, n);
      assert Holds(p, b, f) <==> b <= f < b + Pow2(p[b].order) by { HoldsIs(p, b, f); }
    }
  }

  /** Releasing a single frame gives back that frame and nothing else. */
  lemma ReturnsOne(p: Pool, b: nat, n: nat)
    requires Partition(p, n) && Single(p, b)
    ensures var q := Free(p, b);
      FreeFrames(q, n) == FreeFrames(p, n) + {b} && b !in FreeFrames(p, n) && KeepsOthers(p, q, b)
  {
    hide FrameFree; hide Free;
    assert Pow2(0) == 1;
    forall f: nat ensures FrameFree(Free(p, b), f) <==> FrameFree(p, f) || f == b { FreeFrame(p, b, n, f); }
    FreeFrame(p, b, n, b);
    OutstandingNotFree(p, b, b, n);
  }

  // ---- many, one after the other ----

  function Hands(fs: seq<nat>): (ms: seq<BuddyRuns.Move>)
    ensures |ms| == |fs|
  {
    seq(|fs|, i requires 0 <= i < |fs| => BuddyRuns.Hand(fs[i], 0))
  }

  function Returns(fs: seq<nat>): (ms: seq<BuddyRuns.Move>)
    ensures |ms| == |fs|
  {
    seq(|fs|, i requires 0 <= i < |fs| => BuddyRuns.Return(fs[i]))
  }

  ghost predicate Sound(p: Pool, n: nat) {
    Partition(p, n) && Canonical(p)
  }

  ghost predicate KeepsAllBut(p: Pool, q: Pool, s: set<nat>) {
    forall c :: c in p && !p[c].free && c !in s ==> c in q && q[c] == p[c]
  }

  lemma FirstFrame(fs: seq<nat>)
    requires fs != []
    ensures Frames(fs) == {fs[0]} + Frames(fs[1..])
    ensures Hands(fs)[0] == BuddyRuns.Hand(fs[0], 0) && Hands(fs)[1..] == Hands(fs[1..])
    ensures Returns(fs)[0] == BuddyRuns.Return(fs[0]) && Returns(fs)[1..] == Returns(fs[1..])
  {
    assert fs == [fs[0]] + fs[1..];
  }

  lemma {:induction false} HandsAll(p: Pool, n: nat, fs: seq<nat>)
    requires Sound(p, n) && BuddyRuns.LegalRun(p, n, Hands(fs))
    ensures var q := BuddyRuns.Run(p, n, Hands(fs));
      && Sound(q, n) && FreeFrames(q, n) == FreeFrames(p, n) - Frames(fs) && Frames(fs) <= FreeFrames(p, n)
      && KeepsAllBut(p, q, {}) && forall f :: f in fs ==> Single(q, f)
    decreases |fs|
  {
    hide Partition; hide Canonical; hide FreeFrames; hide Frames; hide Alloc;
    if fs == [] {
      assert Frames(fs) == {} by { NoFrames(); }
    } else {
      FirstFrame(fs);
      var q := Alloc(p, fs[0], 0);
      AllocKeeps(p, fs[0], 0, n);
      HandsOne(p, fs[0], n);
      HandsAll(q, n, fs[1..]);
      var r := BuddyRuns.Run(q, n, Hands(fs[1..]));
      assert Single(q, fs[0]) && Single(r, fs[0]);
      forall f | f in fs ensures Single(r, f) {
        if f != fs[0] { assert f in fs[1..]; }
      }
    }
  }

  lemma NoFrames()
    ensures Frames([]) == {}
  {
  }

  lemma {:induction false} ReturnsAll(p: Pool, n: nat, fs: seq<nat>)
    requires Sound(p, n) && Distinct(fs) && forall f :: f in fs ==> Single(p, f)
    ensures BuddyRuns.LegalRun(p, n, Returns(fs))
    ensures var q := BuddyRuns.Run(p, n, Returns(fs));
      Sound(q, n) && FreeFrames(q, n) == FreeFrames(p, n) + Frames(fs) && KeepsAllBut(p, q, Frames(fs))
    decreases |fs|
  {
    hide Partition; hide Canonical; hide FreeFrames; hide Free;
    if fs == [] {
      assert Frames(fs) == {};
    } else {
      FirstFrame(fs);
      var b := fs[0];
      var q := Free(p, b);
      assert Single(p, b);
      FreeKeeps(p, b, n);
      ReturnsOne(p, b, n);
      forall f | f in fs[1..] ensures Single(q, f) {
        var i :| 0 <= i < |fs| - 1 && fs[1..][i] == f;
        assert f == fs[i + 1] && f != b && f in fs && Single(p, f);
      }
      ReturnsAll(q, n, fs[1..]);
    }
  }

  // ---- page tables and allocator together ----

  datatype Machine = Machine(s: System, p: Pool)

  /** The frames the page tables can take are the allocator's free ones, and each table is a single frame the
      allocator has handed out. */
  ghost predicate Backed(k: Machine, n: nat) {
    && SystemOk(k.s) && Sound(k.p, n) && k.s.avail == FreeFrames(k.p, n)
    && forall t :: t in k.s.w.mem ==> Single(k.p, t)
  }

  /** What an event asks of the allocator: frames for the tables it makes, or the frames of a reaped process
      back, in the order the reaper frees them. */
  ghost function MovesOf(s: System, e: Event): (ms: seq<BuddyRuns.Move>)
    requires Legal(s, e)
  {
    match e
    case Spawn(fs) => Hands(fs)
    case Map(r, va, spare, _) => if Read(s.w.mem, s.w.spaces[r].pd, I2(va)).huge then Hands([spare]) else []
    case Reap(r, vas) => Returns(Freed(s.w.mem, r, vas))
    case Kernel(va, spare, _) => if Read(s.w.mem, PdOf(s.w.mem, s.w.kbase, va), I2(va)).huge then Hands([spare]) else []
  }

  /** An event of the page tables, or the rest of the kernel taking or returning a block. */
  datatype Act = Tables(e: Event) | Other(m: BuddyRuns.Move)

  ghost predicate CanAct(k: Machine, n: nat, a: Act) {
    match a
    case Tables(e) =>
      && Legal(k.s, e)
      && if e.Reap? then forall f :: f in LeafFrames(k.s.w.spaces[e.root], e.vas) ==> Single(k.p, f)
         else BuddyRuns.LegalRun(k.p, n, MovesOf(k.s, e))
    case Other(m) => !m.Release? && BuddyRuns.Legal(k.p, n, m) && (m.Return? ==> m.base !in k.s.w.mem)
  }

  /** A reaped process's tables and listed leaves can all be released, and are released exactly once. */
  lemma ReapReturns(k: Machine, n: nat, r: nat, vas: seq<nat>)
    requires Backed(k, n) && CanAct(k, n, Tables(Reap(r, vas)))
    ensures var w := k.s.w; var fs := Freed(w.mem, r, vas);
      && Distinct(fs) && Frames(fs) == w.spaces[r].owned + LeafFrames(w.spaces[r], vas)
      && BuddyRuns.LegalRun(k.p, n, Returns(fs))
      && var q := BuddyRuns.Run(k.p, n, Returns(fs));
      Sound(q, n) && FreeFrames(q, n) == FreeFrames(k.p, n) + Frames(fs) && KeepsAllBut(k.p, q, Frames(fs))
  {
    hide WorldOk; hide Freed; hide I2; hide I1; hide Covered; hide Unshared; hide Sound; hide FreeFrames; hide Single;
    var w := k.s.w;
    var sp, fs := w.spaces[r], Freed(w.mem, r, vas);
    ReapFreesEachOnce(w, r, vas);
    OwnedMapped(w, r);
    ListedPlaced(w, sp, vas);
    forall f
      ensures f in fs <==> f in sp.owned || f in LeafFrames(sp, vas)
    {
      if f in LeafFrames(sp, vas) {
        var i :| 0 <= i < |vas| && (I2(vas[i]), I1(vas[i])) in sp.placed
          && f == sp.placed[(I2(vas[i]), I1(vas[i]))].addr;
      }
      if f in fs && f !in sp.owned {
        var i :| 0 <= i < |vas| && f == sp.placed[(I2(vas[i]), I1(vas[i]))].addr;
        assert (I2(vas[i]), I1(vas[i])) in sp.placed;
      }
    }
    ReturnsAll(k.p, n, fs);
  }

  lemma ListedPlaced(w: World, sp: Space, vas: seq<nat>)
    requires ExclusiveLeaves(w, sp, vas)
    ensures forall i :: 0 <= i < |vas| ==> (I2(vas[i]), I1(vas[i])) in sp.placed
  {
    hide I2; hide I1;
  }

  lemma MovesLegal(k: Machine, n: nat, e: Event)
    requires Backed(k, n) && CanAct(k, n, Tables(e))
    ensures BuddyRuns.LegalRun(k.p, n, MovesOf(k.s, e))
  {
    hide Backed; hide Legal; hide I2; hide Read;
    if e.Reap? { ReapReturns(k, n, e.root, e.vas); }
  }

  ghost function After(k: Machine, n: nat, a: Act): (r: Machine)
    requires Backed(k, n) && CanAct(k, n, a)
  {
    match a
    case Tables(e) =>
      MovesLegal(k, n, e);
      Machine(Step(k.s, e), BuddyRuns.Run(k.p, n, MovesOf(k.s, e)))
    case Other(m) =>
      var q := BuddyRuns.Apply(k.p, n, m);
      Machine(k.s.(avail := FreeFrames(q, n)), q)
  }

  lemma OtherKeeps(k: Machine, n: nat, m: BuddyRuns.Move)
    requires Backed(k, n) && CanAct(k, n, Other(m))
    ensures Backed(After(k, n, Other(m)), n)
  {
    hide WorldOk; hide Covered; hide Unshared; hide Partition; hide Canonical; hide Alloc; hide Free;
    var q := BuddyRuns.Apply(k.p, n, m);
    match m {
      case Hand(b, j) =>
        AllocKeeps(k.p, b, j, n);
        AllocKeepsOthers(k.p, b, j, n);
      case Return(b) =>
        FreeKeeps(k.p, b, n);
        FreeFrame(k.p, b, n, 0);
    }
    forall t | t in k.s.w.mem ensures Single(q, t) && t !in FreeFrames(q, n) {
      assert Single(k.p, t);
      SingleNotFree(q, t, n);
    }
  }

  lemma SingleNotFree(p: Pool, f: nat, n: nat)
    requires Partition(p, n) && Single(p, f)
    ensures f !in FreeFrames(p, n)
  {
    assert Pow2(0) == 1;
    OutstandingNotFree(p, f, f, n);
  }

  lemma {:induction false} SplitToKeepsOthers(p: Pool, b: nat, j: nat, n: nat)
    requires Partition(p, n) && b in p && !p[b].free
    ensures KeepsOthers(p, SplitTo(p, b, j), b)
    decreases p[b].order
  {
    hide Partition;
    if p[b].order > j {
      SplitHolds(p, b, n);
      SplitPartition(p, b, n);
      SplitToKeepsOthers(Split(p, b), b, j, n);
    }
  }

  lemma AllocKeepsOthers(p: Pool, b: nat, j: nat, n: nat)
    requires Partition(p, n) && b in p && p[b].free
    ensures KeepsOthers(p, Alloc(p, b, j), b)
  {
    MarkPartition(p, b, false, n);
    SplitToKeepsOthers(Mark(p, b, false), b, j, n);
  }

  lemma TakeKeeps(k: Machine, n: nat, e: Event, fs: seq<nat>)
    requires Backed(k, n) && CanAct(k, n, Tables(e)) && !e.Reap? && MovesOf(k.s, e) == Hands(fs)
    requires var t := Step(k.s, e); t.avail == k.s.avail - Frames(fs) && t.w.mem.Keys == k.s.w.mem.Keys + Frames(fs)
    ensures Backed(After(k, n, Tables(e)), n)
  {
    hide Step; hide MovesOf; hide Sound; hide FreeFrames; hide SystemOk; hide Legal;
    StepKeeps(k.s, e);
    HandsAll(k.p, n, fs);
    var q := BuddyRuns.Run(k.p, n, Hands(fs));
    forall t | t in Step(k.s, e).w.mem ensures Single(q, t) {
      if t in k.s.w.mem { assert Single(k.p, t); }
    }
  }

  lemma SpawnTakes(s: System, fs: seq<nat>)
    requires SystemOk(s) && Legal(s, Spawn(fs))
    ensures Step(s, Spawn(fs)).w.mem.Keys == s.w.mem.Keys + Frames(fs)
  {
    hide WorldOk; hide Covered; hide Unshared; hide EnoughFrames;
    CreateLevels(s.w, fs);
  }

  lemma EditTakes(s: System, e: Event)
    requires SystemOk(s) && Legal(s, e) && (e.Map? || e.Kernel?)
    ensures var fs := if MovesOf(s, e) == [] then [] else [e.spare];
      && MovesOf(s, e) == Hands(fs) && Step(s, e).avail == s.avail - Frames(fs)
      && Step(s, e).w.mem.Keys == s.w.mem.Keys + Frames(fs)
  {
    hide WorldOk; hide Covered; hide Unshared; hide PathPresent; hide MapUserPage; hide EditPage; hide I2; hide I1;
    assert Frames([]) == {} && Frames([e.spare]) == {e.spare};
    if e.Map? {
      MapUserKeys(s.w, e.root, e.va, e.spare, e.leaf);
    } else {
      OneWorld(s.w);
      EditKeys(s.w, e.va, e.spare, e.leaf);
    }
  }

  lemma ReapKept(k: Machine, n: nat, r: nat, vas: seq<nat>)
    requires Backed(k, n) && CanAct(k, n, Tables(Reap(r, vas)))
    ensures Backed(After(k, n, Tables(Reap(r, vas))), n)
  {
    hide WorldOk; hide Covered; hide Unshared; hide Sound; hide FreeFrames; hide Freed; hide LeafFrames;
      hide ExclusiveLeaves;
    StepKeeps(k.s, Reap(r, vas));
    ReapReturns(k, n, r, vas);
    LeavesOutside(k.s.w, k.s.w.spaces[r], vas);
    var t, q := Step(k.s, Reap(r, vas)), BuddyRuns.Run(k.p, n, MovesOf(k.s, Reap(r, vas)));
    assert t.avail == k.s.avail + Frames(Freed(k.s.w.mem, r, vas));
    forall x | x in t.w.mem ensures Single(q, x) { assert Single(k.p, x); }
  }

  /** Whatever the page tables and the rest of the kernel do, what the tables can take is what the allocator has
      free, and every table is a frame it has handed out. */
  lemma ActKeeps(k: Machine, n: nat, a: Act)
    requires Backed(k, n) && CanAct(k, n, a)
    ensures Backed(After(k, n, a), n)
  {
    hide Backed; hide After; hide Step; hide BuddyRuns.LegalRun;
    match a
    case Other(m) => OtherKeeps(k, n, m);
    case Tables(e) =>
      BackedSystem(k, n);
      match e {
        case Spawn(fs) =>
          SpawnTakes(k.s, fs);
          SpawnAvail(k.s, fs);
          TakeKeeps(k, n, e, fs);
        case Reap(r, vas) => ReapKept(k, n, r, vas);
        case Map(_, _, spare, _) =>
          EditTakes(k.s, e);
          TakeKeeps(k, n, e, if MovesOf(k.s, e) == [] then [] else [spare]);
        case Kernel(_, spare, _) =>
          EditTakes(k.s, e);
          TakeKeeps(k, n, e, if MovesOf(k.s, e) == [] then [] else [spare]);
      }
  }

  lemma BackedSystem(k: Machine, n: nat)
    requires Backed(k, n)
    ensures SystemOk(k.s)
  {
  }

  lemma SpawnAvail(s: System, fs: seq<nat>)
    requires SystemOk(s) && Legal(s, Spawn(fs))
    ensures Step(s, Spawn(fs)).avail == s.avail - Frames(fs)
  {
    hide SystemOk;
  }

  /** Boot takes the frames of its tables from the allocator, and every history starts from there. */
  lemma BootBacked(p: Pool, n: nat, fs: seq<nat>, gibs: nat, hhdm: nat, km: KernelMap)
    requires Sound(p, n) && BuddyRuns.LegalRun(p, n, Hands(fs)) && CanBoot(fs, gibs, hhdm, km)
    ensures var q := BuddyRuns.Run(p, n, Hands(fs));
      Backed(Machine(System(BootedWorld(fs, gibs, hhdm, km), FreeFrames(q, n)), q), n)
  {
    hide CanBoot; hide BootMem; hide Sound; hide FreeFrames; hide SystemOk;
    HandsAll(p, n, fs);
    BootNumber(fs, gibs, hhdm, km);
    BootEstablishes(fs, gibs, hhdm, km, FreeFrames(BuddyRuns.Run(p, n, Hands(fs)), n));
  }

  lemma BootNumber(fs: seq<nat>, gibs: nat, hhdm: nat, km: KernelMap)
    requires CanBoot(fs, gibs, hhdm, km)
    ensures |fs| == FramesFor(gibs)
  {
  }

  // ---- histories ----

  ghost predicate CanRun(k: Machine, n: nat, acts: seq<Act>)
    requires Backed(k, n)
    decreases |acts|
  {
    acts != [] ==> CanAct(k, n, acts[0]) && (ActKeeps(k, n, acts[0]); CanRun(After(k, n, acts[0]), n, acts[1..]))
  }

  ghost function RunAll(k: Machine, n: nat, acts: seq<Act>): (r: Machine)
    requires Backed(k, n) && CanRun(k, n, acts)
    decreases |acts|
  {
    if acts == [] then k else ActKeeps(k, n, acts[0]); RunAll(After(k, n, acts[0]), n, acts[1..])
  }

  /** Over any history of the page tables among whatever else the kernel allocates, the frames the tables can take
      stay the allocator's free ones, and every table stays a frame it has handed out. */
  lemma {:induction false} RunBacked(k: Machine, n: nat, acts: seq<Act>)
    requires Backed(k, n) && CanRun(k, n, acts)
    ensures Backed(RunAll(k, n, acts), n)
    decreases |acts|
  {
    hide Backed; hide CanAct; hide After;
    if acts != [] {
      ActKeeps(k, n, acts[0]);
      RunBacked(After(k, n, acts[0]), n, acts[1..]);
    }
  }

  // ---- the life of a process ----

  /** While the process at `r` is set up: pages are mapped into it, and frames are taken for it. */
  predicate ForProcess(a: Act, r: nat) {
    match a
    case Tables(e) => e.Map? && e.root == r
    case Other(m) => m.Hand? && m.order == 0
  }

  /** The frames taken for it. */
  function Taken(acts: seq<Act>): (fs: set<nat>) {
    set a | a in acts && a.Other? && a.m.Hand? :: a.m.base
  }

  /** What the process holds, its tables and what was taken for it, and what is left, make up what there was. */
  ghost predicate Accounted(k0: Machine, k: Machine, r: nat, taken: set<nat>) {
    && r in k.s.w.spaces && k.s.w.mem.Keys == k0.s.w.mem.Keys + k.s.w.spaces[r].owned
    && k0.s.w.mem.Keys !! k.s.w.spaces[r].owned
    && k.s.avail + k.s.w.spaces[r].owned + taken == k0.s.avail
  }

  lemma SpawnAccounted(k: Machine, n: nat, fs: seq<nat>)
    requires Backed(k, n) && CanAct(k, n, Tables(Spawn(fs))) && |fs| > 0
    ensures Accounted(k, After(k, n, Tables(Spawn(fs))), fs[0], {})
  {
    hide WorldOk; hide Covered; hide Unshared; hide EnoughFrames; hide Sound; hide FreeFrames; hide Single;
    CreateLevels(k.s.w, fs);
    FreshFrames(k.s.w, fs);
  }

  lemma MapAccounted(k0: Machine, k: Machine, n: nat, r: nat, taken: set<nat>, e: Event)
    requires Backed(k, n) && CanAct(k, n, Tables(e)) && e.Map? && e.root == r && Accounted(k0, k, r, taken)
    requires k0.s.avail !! k0.s.w.mem.Keys
    ensures Accounted(k0, After(k, n, Tables(e)), r, taken)
  {
    hide WorldOk; hide Covered; hide Unshared; hide Sound; hide FreeFrames; hide Single; hide PathPresent;
      hide MapUserPage;
    hide I2; hide I1; hide BuddyRuns.LegalRun; hide BuddyRuns.Run;
    MapUserKeys(k.s.w, r, e.va, e.spare, e.leaf);
  }

  lemma HandAccounted(k0: Machine, k: Machine, n: nat, r: nat, taken: set<nat>, b: nat)
    requires Backed(k, n) && CanAct(k, n, Other(BuddyRuns.Hand(b, 0))) && Accounted(k0, k, r, taken)
    ensures Accounted(k0, After(k, n, Other(BuddyRuns.Hand(b, 0))), r, taken + {b})
  {
    hide SystemOk; hide Partition; hide Canonical; hide FreeFrames; hide Alloc;
    HandsOne(k.p, b, n);
  }

  lemma {:induction false} SetupAccounted(k0: Machine, k: Machine, n: nat, r: nat, taken: set<nat>, acts: seq<Act>)
    requires Backed(k, n) && CanRun(k, n, acts) && Accounted(k0, k, r, taken) && k0.s.avail !! k0.s.w.mem.Keys
    requires forall i :: 0 <= i < |acts| ==> ForProcess(acts[i], r)
    ensures Accounted(k0, RunAll(k, n, acts), r, taken + Taken(acts))
    decreases |acts|
  {
    hide Backed; hide CanAct; hide After; hide Accounted;
    if acts == [] {
      assert taken + Taken(acts) == taken;
    } else {
      var a := acts[0];
      assert ForProcess(a, r);
      var more := if a.Other? then {a.m.base} else {};
      if a.Other? { HandAccounted(k0, k, n, r, taken, a.m.base); } else { MapAccounted(k0, k, n, r, taken, a.e); }
      ActKeeps(k, n, a);
      assert taken + more == if a.Other? then taken + {a.m.base} else taken;
      SetupAccounted(k0, After(k, n, a), n, r, taken + more, acts[1..]);
      TakenFirst(acts);
      assert taken + more + Taken(acts[1..]) == taken + Taken(acts);
    }
  }

  lemma TakenFirst(acts: seq<Act>)
    requires acts != []
    ensures Taken(acts) == Taken(acts[1..]) + if acts[0].Other? && acts[0].m.Hand? then {acts[0].m.base} else {}
  {
    assert acts == [acts[0]] + acts[1..];
  }

  lemma ReapRestores(k0: Machine, k: Machine, n: nat, r: nat, vas: seq<nat>)
    requires Backed(k, n) && CanAct(k, n, Tables(Reap(r, vas)))
    requires Accounted(k0, k, r, LeafFrames(k.s.w.spaces[r], vas))
    ensures var t := After(k, n, Tables(Reap(r, vas))); t.s.avail == k0.s.avail && t.s.w.mem.Keys == k0.s.w.mem.Keys
  {
    hide SystemOk; hide Sound; hide FreeFrames; hide Single; hide LeafFrames; hide Freed; hide BuddyRuns.Run;
      hide ExclusiveLeaves;
  }

  /** A process's life: made from `fs`, set up by `acts`, and reaped with exactly the frames taken for it listed. */
  ghost predicate CanLive(k: Machine, n: nat, fs: seq<nat>, acts: seq<Act>, vas: seq<nat>)
    requires Backed(k, n)
  {
    && |fs| > 0 && CanAct(k, n, Tables(Spawn(fs))) && (forall i :: 0 <= i < |acts| ==> ForProcess(acts[i], fs[0]))
    && (ActKeeps(k, n, Tables(Spawn(fs)));
        var k1 := After(k, n, Tables(Spawn(fs)));
        && CanRun(k1, n, acts)
        && (RunBacked(k1, n, acts);
            var k2 := RunAll(k1, n, acts);
            && CanAct(k2, n, Tables(Reap(fs[0], vas)))
            && Taken(acts) == LeafFrames(k2.s.w.spaces[fs[0]], vas)))
  }

  ghost function Lived(k: Machine, n: nat, fs: seq<nat>, acts: seq<Act>, vas: seq<nat>): (t: Machine)
    requires Backed(k, n) && CanLive(k, n, fs, acts, vas)
  {
    ActKeeps(k, n, Tables(Spawn(fs)));
    var k1 := After(k, n, Tables(Spawn(fs)));
    RunBacked(k1, n, acts);
    After(RunAll(k1, n, acts), n, Tables(Reap(fs[0], vas)))
  }

  lemma LifeAccounted(k: Machine, n: nat, fs: seq<nat>, acts: seq<Act>, vas: seq<nat>)
    requires Backed(k, n) && CanLive(k, n, fs, acts, vas)
    ensures var t := Lived(k, n, fs, acts, vas);
      Backed(t, n) && t.s.avail == k.s.avail && t.s.w.mem.Keys == k.s.w.mem.Keys
  {
    hide Backed; hide CanAct; hide After; hide Accounted; hide RunAll; hide CanRun; hide LeafFrames; hide Taken;
    var k1 := After(k, n, Tables(Spawn(fs)));
    ActKeeps(k, n, Tables(Spawn(fs)));
    RunBacked(k1, n, acts);
    var k2 := RunAll(k1, n, acts);
    SpawnAccounted(k, n, fs);
    TablesNotFree(k, n);
    SetupAccounted(k, k1, n, fs[0], {}, acts);
    assert {} + Taken(acts) == Taken(acts);
    ReapRestores(k, k2, n, fs[0], vas);
    ActKeeps(k2, n, Tables(Reap(fs[0], vas)));
  }

  /** A process that is made, given pages and frames, and reaped with those frames listed leaves the allocator's
      free blocks, hence their number, exactly as they were: no leak, and nothing freed that was not its own. */
  lemma ProcessLifeRestores(k: Machine, n: nat, fs: seq<nat>, acts: seq<Act>, vas: seq<nat>)
    requires Backed(k, n) && CanLive(k, n, fs, acts, vas)
    ensures var t := Lived(k, n, fs, acts, vas);
      && (forall b: nat, j: nat :: FreeAt(t.p, b, j) <==> FreeAt(k.p, b, j))
      && FreeCount(t.p, n) == FreeCount(k.p, n) && t.s.w.mem.Keys == k.s.w.mem.Keys
  {
    hide Backed; hide CanLive; hide Lived; hide FreeAt; hide FreeCount;
    LifeAccounted(k, n, fs, acts, vas);
    SameFreeBlocks(k, Lived(k, n, fs, acts, vas), n);
  }

  lemma TablesNotFree(k: Machine, n: nat)
    requires Backed(k, n)
    ensures k.s.avail !! k.s.w.mem.Keys
  {
  }

  /** What is free decides the allocator's free blocks. */
  lemma SameFreeBlocks(k: Machine, t: Machine, n: nat)
    requires Backed(k, n) && Backed(t, n) && t.s.avail == k.s.avail
    ensures forall b: nat, j: nat :: FreeAt(t.p, b, j) <==> FreeAt(k.p, b, j)
    ensures FreeCount(t.p, n) == FreeCount(k.p, n)
  {
    hide SystemOk; hide Canonical;
    forall f: nat ensures FrameFree(t.p, f) <==> FrameFree(k.p, f) {
      FreeInRange(t.p, n, f);
      FreeInRange(k.p, n, f);
      assert f in FreeFrames(t.p, n) <==> f in FreeFrames(k.p, n);
    }
    forall b: nat, j: nat ensures FreeAt(t.p, b, j) <==> FreeAt(k.p, b, j) { CanonicalUnique(t.p, k.p, n, b, j); }
  }
}

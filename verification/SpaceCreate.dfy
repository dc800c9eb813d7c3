/** Building a process space: clones of three kernel tables, and of every leaf table the kernel
    already split off in the process window. */
module SpaceCreate {
  import opened PageTables
  import opened ProcessSpaces
  import opened SpaceMap

  /** How many of the first `n` entries point at leaf tables: how many clones they take. */
  function Rank(t: seq<Entry>, n: nat): (k: nat)
    requires n <= |t|
    ensures k <= n
  {
    if n == 0 then 0 else Rank(t, n - 1) + (if IsSplit(t[n - 1]) then 1 else 0)
  }

  lemma {:induction false} RankMonotone(t: seq<Entry>, i: nat, n: nat)
    requires i <= n <= |t|
    ensures Rank(t, i) <= Rank(t, n)
    ensures i < n && IsSplit(t[i]) ==> Rank(t, i) < Rank(t, n)
  {
    if i < n { RankMonotone(t, i, n - 1); }
  }

  lemma {:induction false} RankOnto(t: seq<Entry>, n: nat, k: nat) returns (i: nat)
    requires n <= |t| && k < Rank(t, n)
    ensures i < n && IsSplit(t[i]) && Rank(t, i) == k
  {
    if k < Rank(t, n - 1) { i := RankOnto(t, n - 1, k); } else { i := n - 1; }
  }

  function Table(m: Mem, t: nat): (s: seq<Entry>) {
    if t in m then m[t] else []
  }

  /** The directory with its first `n` leaf tables replaced by the clones `fs`. */
  function Privatised(t: seq<Entry>, fs: seq<nat>, n: nat): (p: seq<Entry>)
    requires n <= |t| && Rank(t, n) <= |fs|
    ensures |p| == |t|
  {
    seq(|t|, i requires 0 <= i < |t| =>
      RankMonotone(t, if i < n then i else n, n);
      if i < n && IsSplit(t[i]) then t[i].(addr := fs[Rank(t, i)]) else t[i])
  }

  function Clones(m: Mem, t: seq<Entry>, fs: seq<nat>, n: nat): (c: Mem)
    requires n <= |t| && Rank(t, n) <= |fs|
  {
    if n == 0 then map[]
    else if IsSplit(t[n - 1]) then Clones(m, t, fs, n - 1)[fs[Rank(t, n - 1)] := Table(m, t[n - 1].addr)]
    else Clones(m, t, fs, n - 1)
  }

  predicate Distinct(fs: seq<nat>) {
    forall i, j :: 0 <= i < j < |fs| ==> fs[i] != fs[j]
  }

  function Frames(fs: seq<nat>): (s: set<nat>) {
    set f | f in fs
  }

  lemma {:induction false} ClonesOk(m: Mem, t: seq<Entry>, fs: seq<nat>, n: nat)
    requires n <= |t| && Rank(t, n) <= |fs| && Distinct(fs)
    ensures Clones(m, t, fs, n).Keys == Frames(fs[..Rank(t, n)])
    ensures forall i :: 0 <= i < n && IsSplit(t[i]) ==>
      Rank(t, i) < Rank(t, n) && Clones(m, t, fs, n)[fs[Rank(t, i)]] == Table(m, t[i].addr)
  {
    if n > 0 {
      ClonesOk(m, t, fs, n - 1);
      if IsSplit(t[n - 1]) { assert fs[..Rank(t, n)] == fs[..Rank(t, n - 1)] + [fs[Rank(t, n - 1)]]; }
    }
  }

  function WindowPd(w: World): (t: nat) {
    Read(w.mem, KernelPdpt(w), 1).addr
  }

  /** Frames `new_process_space` takes: three clones and the window's leaf tables. */
  predicate EnoughFrames(w: World, fs: seq<nat>) {
    && WindowPd(w) in w.mem && |w.mem[WindowPd(w)]| == 512 && |fs| == 3 + Rank(w.mem[WindowPd(w)], 512)
    && Distinct(fs) && (forall f :: f in fs ==> f !in w.mem)
  }

  function CreateMem(w: World, fs: seq<nat>): (n: Mem)
    requires EnoughFrames(w, fs) && w.kbase in w.mem && |w.mem[w.kbase]| == 512 && KernelPdpt(w) in w.mem
    requires |w.mem[KernelPdpt(w)]| == 512
  {
    var e0, e1 := Read(w.mem, w.kbase, 0), Read(w.mem, KernelPdpt(w), 1);
    var t := w.mem[WindowPd(w)];
    w.mem + Clones(w.mem, t, fs[3..], 512)
      + map[fs[0] := w.mem[w.kbase][0 := e0.(addr := fs[1])],
            fs[1] := w.mem[KernelPdpt(w)][1 := e1.(addr := fs[2])],
            fs[2] := Privatised(t, fs[3..], 512)]
  }

  function CreateLevel(w: World, fs: seq<nat>): (l: map<nat, nat>)
    requires |fs| >= 3
  {
    w.level + (map f | f in fs[3..] :: 1) + map[fs[0] := 4, fs[1] := 3, fs[2] := 2]
  }

  function NewSpace(fs: seq<nat>): (sp: Space)
    requires |fs| >= 3
  {
    Space(fs[1], fs[2], Frames(fs), map[])
  }

  ghost predicate CanCreate(w: World, fs: seq<nat>) {
    WorldOk(w) && EnoughFrames(w, fs)
  }

  lemma KernelTables(w: World)
    requires KernelOk(w)
    ensures w.kbase in w.mem && |w.mem[w.kbase]| == 512 && KernelPdpt(w) in w.mem && |w.mem[KernelPdpt(w)]| == 512
    ensures IsSplit(Read(w.mem, KernelPdpt(w), 1)) && Read(w.mem, w.kbase, 0).present
    ensures WindowPd(w) in w.kernel && At(w.level, WindowPd(w), 2) && WindowPd(w) in w.mem
    ensures |w.mem[WindowPd(w)]| == 512
    ensures At(w.level, KernelPdpt(w), 3) && KernelPdpt(w) in w.kernel
  {
    KernelPdptOk(w);
    assert Links(Read(w.mem, KernelPdpt(w), 1), 3);
  }

  ghost function Create(w: World, fs: seq<nat>): (x: World)
    requires CanCreate(w, fs)
  {
    KernelTables(w);
    w.(mem := CreateMem(w, fs), level := CreateLevel(w, fs), spaces := w.spaces[fs[0] := NewSpace(fs)])
  }

  lemma FramesParts(fs: seq<nat>)
    requires |fs| >= 3
    ensures Frames(fs) == {fs[0], fs[1], fs[2]} + Frames(fs[3..])
  {
    forall f ensures f in Frames(fs) <==> f in {fs[0], fs[1], fs[2]} + Frames(fs[3..]) {
      if f in fs {
        var i :| 0 <= i < |fs| && fs[i] == f;
        assert i >= 3 ==> fs[3..][i - 3] == f;
      }
      if f in fs[3..] { assert f in fs; }
    }
  }

  lemma OneWorld(w: World)
    requires WorldOk(w)
    ensures KernelOk(w) && w.mem.Keys == w.level.Keys && w.kernel <= w.mem.Keys && Typed(w.mem, w.level)
  {
  }

  lemma FreshFrames(w: World, fs: seq<nat>)
    requires EnoughFrames(w, fs)
    ensures |fs| >= 3 && Frames(fs) !! w.mem.Keys && Frames(fs) == {fs[0], fs[1], fs[2]} + Frames(fs[3..])
    ensures fs[0] != fs[1] && fs[0] != fs[2] && fs[1] != fs[2] && {fs[0], fs[1], fs[2]} !! Frames(fs[3..])
    ensures Distinct(fs[3..])
    ensures Rank(w.mem[WindowPd(w)], 512) == |fs[3..]|
    ensures Clones(w.mem, w.mem[WindowPd(w)], fs[3..], 512).Keys == Frames(fs[3..])
  {
    FramesParts(fs);
    var t := w.mem[WindowPd(w)];
    ClonesOk(w.mem, t, fs[3..], 512);
    assert fs[3..][..Rank(t, 512)] == fs[3..];
  }

  /** The new tables, table by table. */
  lemma CreateTables(w: World, fs: seq<nat>, t: nat)
    requires CanCreate(w, fs)
    ensures var x := Create(w, fs);
      Table(x.mem, t) ==
        if t == fs[0] then w.mem[w.kbase][0 := Read(w.mem, w.kbase, 0).(addr := fs[1])]
        else if t == fs[1] then w.mem[KernelPdpt(w)][1 := Read(w.mem, KernelPdpt(w), 1).(addr := fs[2])]
        else if t == fs[2] then Privatised(w.mem[WindowPd(w)], fs[3..], 512)
        else if t in Frames(fs[3..]) then Table(Clones(w.mem, w.mem[WindowPd(w)], fs[3..], 512), t)
        else Table(w.mem, t)
  {
    KernelTables(w);
    FreshFrames(w, fs);
    hide WorldOk; hide KernelOk; hide Clones; hide Privatised; hide Rank;
    var c := Clones(w.mem, w.mem[WindowPd(w)], fs[3..], 512);
    assert t in c <==> t in Frames(fs[3..]);
  }

  lemma CreateLevels(w: World, fs: seq<nat>)
    requires CanCreate(w, fs)
    ensures var x := Create(w, fs);
      && x.kernel == w.kernel && x.kbase == w.kbase
      && x.mem.Keys == w.mem.Keys + Frames(fs) && x.level.Keys == x.mem.Keys
      && x.level[fs[0]] == 4 && x.level[fs[1]] == 3 && x.level[fs[2]] == 2
      && (forall f :: f in Frames(fs[3..]) ==> x.level[f] == 1)
      && (forall f :: f in w.mem ==> x.level[f] == w.level[f])
  {
    KernelTables(w);
    FreshFrames(w, fs);
    OneWorld(w);
    hide WorldOk; hide KernelOk; hide Clones; hide Privatised; hide Rank; hide Typed;
    var x := Create(w, fs);
    forall f ensures f in x.level.Keys <==> f in w.level.Keys + Frames(fs) {}
    forall f ensures f in x.mem.Keys <==> f in w.mem.Keys + Frames(fs) {}
  }

  /** The clone that stands in for the window's leaf table `i`. */
  function CloneOf(w: World, fs: seq<nat>, i: nat): (f: nat)
    requires EnoughFrames(w, fs) && i < 512
  {
    var k := Rank(w.mem[WindowPd(w)], i);
    if 3 + k < |fs| then fs[3 + k] else 0
  }

  lemma CloneOk(w: World, fs: seq<nat>, i: nat)
    requires EnoughFrames(w, fs) && i < 512 && IsSplit(Read(w.mem, WindowPd(w), i))
    ensures CloneOf(w, fs, i) in Frames(fs[3..])
    ensures Table(Clones(w.mem, w.mem[WindowPd(w)], fs[3..], 512), CloneOf(w, fs, i)) ==
      Table(w.mem, Read(w.mem, WindowPd(w), i).addr)
    ensures Rank(w.mem[WindowPd(w)], 512) <= |fs[3..]|
    ensures Privatised(w.mem[WindowPd(w)], fs[3..], 512)[i] == Read(w.mem, WindowPd(w), i).(addr := CloneOf(w, fs, i))
  {
    var t := w.mem[WindowPd(w)];
    RankMonotone(t, i, 512);
    FreshFrames(w, fs);
    ClonesOk(w.mem, t, fs[3..], 512);
    assert fs[3..][Rank(t, i)] == CloneOf(w, fs, i);
    assert CloneOf(w, fs, i) in fs[3..];
  }

  lemma CloneAt(w: World, fs: seq<nat>, i: nat, k: nat)
    requires EnoughFrames(w, fs) && i < 512 && k < |fs[3..]| && Rank(w.mem[WindowPd(w)], i) == k
    ensures CloneOf(w, fs, i) == fs[3..][k]
  {
  }

  lemma CloneInjective(w: World, fs: seq<nat>, i: nat, j: nat)
    requires EnoughFrames(w, fs) && i < j < 512 && IsSplit(Read(w.mem, WindowPd(w), i))
    requires IsSplit(Read(w.mem, WindowPd(w), j))
    ensures CloneOf(w, fs, i) != CloneOf(w, fs, j)
  {
    var t := w.mem[WindowPd(w)];
    RankMonotone(t, i, j);
    RankMonotone(t, j, 512);
  }

  /** Each of the window's leaf tables is a private copy of the kernel's. */
  lemma CreateDirectory(w: World, fs: seq<nat>, i: nat)
    requires CanCreate(w, fs) && i < 512
    ensures var x := Create(w, fs); var e := Read(w.mem, WindowPd(w), i);
      && (!IsSplit(e) ==> Read(x.mem, fs[2], i) == e)
      && (IsSplit(e) ==>
            && Read(x.mem, fs[2], i) == e.(addr := CloneOf(w, fs, i))
            && CloneOf(w, fs, i) in Frames(fs[3..]) && e.addr in w.kernel && At(w.level, e.addr, 1)
            && Table(x.mem, CloneOf(w, fs, i)) == Table(w.mem, e.addr))
  {
    KernelTables(w);
    FreshFrames(w, fs);
    OneWorld(w);
    var e := Read(w.mem, WindowPd(w), i);
    CreateTables(w, fs, fs[2]);
    if IsSplit(e) {
      assert Links(e, 2);
      CloneOk(w, fs, i);
      CreateTables(w, fs, CloneOf(w, fs, i));
    }
  }

  lemma ReadTable(m: Mem, t: nat, i: nat)
    ensures Read(m, t, i) == if i < |Table(m, t)| then Table(m, t)[i] else ABSENT
  {
  }

  lemma CreateSame(w: World, fs: seq<nat>, s: set<nat>)
    requires CanCreate(w, fs) && s <= w.mem.Keys
    ensures SameTables(w, Create(w, fs), s)
  {
    CreateLevels(w, fs);
    FreshFrames(w, fs);
    hide WorldOk; hide EnoughFrames;
    var x := Create(w, fs);
    forall t | t in s ensures t in x.mem && x.mem[t] == w.mem[t] {
      CreateTables(w, fs, t);
    }
  }

  lemma CreateOldReads(w: World, fs: seq<nat>, t: nat, i: nat)
    requires CanCreate(w, fs) && t in w.mem
    ensures Read(Create(w, fs).mem, t, i) == Read(w.mem, t, i)
  {
    FreshFrames(w, fs);
    CreateTables(w, fs, t);
  }

  lemma CreateTopReads(w: World, fs: seq<nat>, i: nat)
    requires CanCreate(w, fs) && i < 512
    ensures var x := Create(w, fs);
      && Read(x.mem, fs[0], i) == (if i == 0 then Read(w.mem, w.kbase, 0).(addr := fs[1]) else Read(w.mem, w.kbase, i))
      && Read(x.mem, fs[1], i) ==
            (if i == 1 then Read(w.mem, KernelPdpt(w), 1).(addr := fs[2]) else Read(w.mem, KernelPdpt(w), i))
  {
    KernelTables(w);
    FreshFrames(w, fs);
    CreateTables(w, fs, fs[0]);
    CreateTables(w, fs, fs[1]);
    ReadTable(Create(w, fs).mem, fs[0], i);
    ReadTable(Create(w, fs).mem, fs[1], i);
  }

  lemma CreateNewLinks(w: World, fs: seq<nat>, i: nat)
    requires CanCreate(w, fs) && i < 512
    ensures var x := Create(w, fs);
      && (Links(Read(x.mem, fs[0], i), 4) ==> At(x.level, Read(x.mem, fs[0], i).addr, 3))
      && (Links(Read(x.mem, fs[1], i), 3) ==> At(x.level, Read(x.mem, fs[1], i).addr, 2))
      && (Links(Read(x.mem, fs[2], i), 2) ==> At(x.level, Read(x.mem, fs[2], i).addr, 1))
  {
    KernelTables(w);
    OneWorld(w);
    CreateLevels(w, fs);
    hide WorldOk; hide EnoughFrames; hide Create; hide KernelOk;
    CreateTopReads(w, fs, i);
    CreateDirectory(w, fs, i);
    assert Links(Read(w.mem, w.kbase, i), 4) ==> At(w.level, Read(w.mem, w.kbase, i).addr, 3);
    assert Links(Read(w.mem, KernelPdpt(w), i), 3) ==> At(w.level, Read(w.mem, KernelPdpt(w), i).addr, 2);
    assert Links(Read(w.mem, WindowPd(w), i), 2) <==> IsSplit(Read(w.mem, WindowPd(w), i));
  }

  /** In the new memory links go one level down. */
  lemma CreateLinks(w: World, fs: seq<nat>, t: nat, i: nat)
    requires CanCreate(w, fs) && i < 512 && t in Create(w, fs).mem && t in Create(w, fs).level
    ensures var x := Create(w, fs);
      x.level[t] > 1 && Links(Read(x.mem, t, i), x.level[t]) ==> At(x.level, Read(x.mem, t, i).addr, x.level[t] - 1)
  {
    hide WorldOk; hide EnoughFrames; hide KernelOk; hide Create;
    var x := Create(w, fs);
    FreshFrames(w, fs);
    CreateLevels(w, fs);
    CreateNewLinks(w, fs, i);
    if t in w.mem {
      OneWorld(w);
        CreateOldReads(w, fs, t, i);
    }
  }

  lemma {:induction false} ClonesFull(m: Mem, t: seq<Entry>, fs: seq<nat>, n: nat)
    requires n <= |t| && Rank(t, n) <= |fs| && forall i :: 0 <= i < n && IsSplit(t[i]) ==> |Table(m, t[i].addr)| == 512
    ensures forall f :: f in Clones(m, t, fs, n) ==> |Clones(m, t, fs, n)[f]| == 512
  {
    if n > 0 { ClonesFull(m, t, fs, n - 1); }
  }

  lemma WindowLeavesFull(w: World, i: nat)
    requires KernelOk(w) && i < 512 && IsSplit(Read(w.mem, WindowPd(w), i))
    ensures |Table(w.mem, Read(w.mem, WindowPd(w), i).addr)| == 512
  {
    KernelTables(w);
    assert Links(Read(w.mem, WindowPd(w), i), 2);
  }

  lemma CreateFull(w: World, fs: seq<nat>, t: nat)
    requires CanCreate(w, fs) && t in Create(w, fs).mem
    ensures |Table(Create(w, fs).mem, t)| == 512
  {
    hide WorldOk; hide EnoughFrames; hide KernelOk; hide Create;
    hide Clones; hide Rank; hide Privatised;
    OneWorld(w);
    FreshFrames(w, fs);
    KernelTables(w);
    CreateTables(w, fs, t);
    CreateLevels(w, fs);
    var d := w.mem[WindowPd(w)];
    forall i | 0 <= i < 512 && IsSplit(d[i]) ensures |Table(w.mem, d[i].addr)| == 512 {
      assert Read(w.mem, WindowPd(w), i) == d[i];
      WindowLeavesFull(w, i);
    }
    ClonesFull(w.mem, d, fs[3..], 512);
    if t in w.mem { assert |w.mem[t]| == 512; }
  }

  lemma CreateTyped(w: World, fs: seq<nat>)
    requires CanCreate(w, fs)
    ensures Typed(Create(w, fs).mem, Create(w, fs).level)
  {
    hide WorldOk; hide EnoughFrames; hide KernelOk; hide Create;
    var x := Create(w, fs);
    CreateLevels(w, fs);
    FreshFrames(w, fs);
    OneWorld(w);
    forall t | t in x.mem ensures |x.mem[t]| == 512 && 1 <= x.level[t] <= 4 {
      CreateFull(w, fs, t);
      assert t in w.mem || t in Frames(fs);
    }
    forall t, i: nat | t in x.mem && x.level[t] > 1 && i < 512 && Links(Read(x.mem, t, i), x.level[t])
      ensures Read(x.mem, t, i).addr in x.level && x.level[Read(x.mem, t, i).addr] == x.level[t] - 1
    {
      CreateLinks(w, fs, t, i);
    }
  }

  lemma CreateTop(w: World, fs: seq<nat>)
    requires CanCreate(w, fs)
    ensures TopOk(Create(w, fs), fs[0], NewSpace(fs))
  {
    var x := Create(w, fs);
    KernelTables(w);
    CreateLevels(w, fs);
    assert x.kbase == w.kbase;
    OneWorld(w);
    forall i: nat | i < 512
      ensures Read(x.mem, fs[0], i) ==
        (if i == 0 then Read(w.mem, w.kbase, 0).(addr := fs[1]) else Read(w.mem, w.kbase, i))
      ensures Read(x.mem, fs[1], i) ==
        (if i == 1 then Read(w.mem, KernelPdpt(w), 1).(addr := fs[2]) else Read(w.mem, KernelPdpt(w), i))
      ensures Read(x.mem, w.kbase, i) == Read(w.mem, w.kbase, i)
      ensures Read(x.mem, KernelPdpt(w), i) == Read(w.mem, KernelPdpt(w), i)
    {
      CreateTopReads(w, fs, i);
      CreateOldReads(w, fs, w.kbase, i);
      CreateOldReads(w, fs, KernelPdpt(w), i);
    }
    FreshFrames(w, fs);
    hide WorldOk; hide EnoughFrames; hide Create; hide KernelOk;
    assert KernelPdpt(x) == KernelPdpt(w);
  }

  lemma CreateSelf(w: World, fs: seq<nat>)
    requires CanCreate(w, fs)
    ensures var x, sp := Create(w, fs), NewSpace(fs); DirectoryOk(x, sp) && PlacedOk(x, fs[0], sp)
  {
    hide WorldOk; hide EnoughFrames; hide KernelOk; hide Create;
    hide CloneOf; hide Rank; hide Frames;
    OneWorld(w);
    FreshFrames(w, fs);
    var x, sp := Create(w, fs), NewSpace(fs);
    KernelTables(w);
    CreateLevels(w, fs);
    assert Supervisor(w.mem, w.kernel);
    forall i: nat | i < 512
      ensures IsSplit(Read(x.mem, sp.pd, i)) <==> IsSplit(Read(w.mem, WindowPd(w), i))
      ensures IsSplit(Read(x.mem, sp.pd, i)) ==>
        Read(x.mem, sp.pd, i).addr == CloneOf(w, fs, i) && CloneOf(w, fs, i) in sp.owned
          && At(x.level, CloneOf(w, fs, i), 1)
      ensures Read(x.mem, sp.pd, i).present ==> !Read(x.mem, sp.pd, i).user
    {
      CreateDirectory(w, fs, i);
    }
    forall i: nat, j: nat | i < j < 512 && IsSplit(Read(x.mem, sp.pd, i)) && IsSplit(Read(x.mem, sp.pd, j))
      ensures Read(x.mem, sp.pd, i).addr != Read(x.mem, sp.pd, j).addr
    {
      CloneInjective(w, fs, i, j);
    }
    forall i: nat, j: nat | i < 512 && j < 512 && IsSplit(Read(x.mem, sp.pd, i)) && LeafAt(x, sp, i, j).present
      ensures !LeafAt(x, sp, i, j).user
    {
      CreateDirectory(w, fs, i);
      ReadTable(x.mem, CloneOf(w, fs, i), j);
      ReadTable(w.mem, Read(w.mem, WindowPd(w), i).addr, j);
    }
  }

  lemma CreateOwned(w: World, fs: seq<nat>)
    requires CanCreate(w, fs)
    ensures OwnedOk(Create(w, fs), fs[0], NewSpace(fs))
  {
    hide WorldOk; hide EnoughFrames; hide KernelOk; hide Create;
    hide CloneOf; hide Rank;
    OneWorld(w);
    FreshFrames(w, fs);
    var x, sp := Create(w, fs), NewSpace(fs);
    KernelTables(w);
    CreateLevels(w, fs);
    var d := w.mem[WindowPd(w)];
    forall t | t in Frames(fs[3..]) ensures LeafTableOf(x, sp, t) {
      var k :| 0 <= k < |fs[3..]| && fs[3..][k] == t;
      var i := RankOnto(d, 512, k);
      assert Read(w.mem, WindowPd(w), i) == d[i];
      CreateDirectory(w, fs, i);
      CloneAt(w, fs, i, k);
      assert IsSplit(Read(x.mem, sp.pd, i));
    }
  }

  lemma CreateOther(w: World, fs: seq<nat>, q: nat)
    requires CanCreate(w, fs) && q in w.spaces
    ensures SpaceOk(Create(w, fs), q, w.spaces[q]) && q !in fs && w.spaces[q].owned !! Frames(fs)
  {
    OneSpace(w, q);
    CreateSame(w, fs, w.kernel + w.spaces[q].owned);
    hide WorldOk;
    SpaceFrame(w, Create(w, fs), q, w.spaces[q]);
    FreshFrames(w, fs);
  }

  lemma CreateKernel(w: World, fs: seq<nat>)
    requires CanCreate(w, fs)
    ensures KernelOk(Create(w, fs))
  {
    OneWorld(w);
    CreateSame(w, fs, w.kernel);
    CreateTyped(w, fs);
    hide WorldOk; hide EnoughFrames; hide Typed;
    KernelFrame(w, Create(w, fs));
  }

  lemma CreateApart(w: World, fs: seq<nat>)
    requires CanCreate(w, fs)
    ensures Apart(Create(w, fs))
  {
    forall q | q in w.spaces ensures q != fs[0] && w.spaces[q].owned !! Frames(fs) {
      CreateOther(w, fs, q);
      assert fs[0] in fs;
    }
  }

  /** A new space joins the world without disturbing it. */
  lemma CreateKeeps(w: World, fs: seq<nat>)
    requires CanCreate(w, fs)
    ensures WorldOk(Create(w, fs))
  {
    hide SpaceOk; hide KernelOk; hide EnoughFrames; hide TopOk; hide DirectoryOk; hide PlacedOk; hide OwnedOk;
    hide Apart;
    var x := Create(w, fs);
    FreshFrames(w, fs);
    CreateKernel(w, fs);
    CreateApart(w, fs);
    CreateTop(w, fs);
    CreateSelf(w, fs);
    CreateOwned(w, fs);
    SpaceOkIntro(x, fs[0], NewSpace(fs));
    forall q | q in x.spaces ensures SpaceOk(x, q, x.spaces[q]) {
      if q != fs[0] { CreateOther(w, fs, q); }
    }
  }

  lemma SpaceOkIntro(w: World, r: nat, sp: Space)
    requires TopOk(w, r, sp) && DirectoryOk(w, sp) && OwnedOk(w, r, sp) && PlacedOk(w, r, sp)
    ensures SpaceOk(w, r, sp)
  {
  }
}

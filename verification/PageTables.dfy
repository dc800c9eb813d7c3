/** Four-level x86-64 page tables: entries, the walk, and what a walk means. The translation and
    access rules are those of sections 4.5 and 4.6 of the Intel SDM, volume 3A. */
module PageTables {
  import opened Options

  /** A page-table entry by field; `addr` is a frame number and `rest` holds every bit the kernel
      copies without reading (protection key, caching, accessed and dirty bits). */
  datatype Entry = Entry(present: bool, writable: bool, user: bool, huge: bool, nx: bool, rest: nat, addr: nat)

  const ABSENT: Entry := Entry(false, false, false, false, false, 0, 0)

  const ZERO_TABLE: seq<Entry> := seq(512, _ => ABSENT)

  /** Table frame to its 512 entries. */
  type Mem = map<nat, seq<Entry>>

  function I4(va: nat): (i: nat) ensures i < 512 { va / 0x80_0000_0000 % 512 }
  function I3(va: nat): (i: nat) ensures i < 512 { va / 0x4000_0000 % 512 }
  function I2(va: nat): (i: nat) ensures i < 512 { va / 0x20_0000 % 512 }
  function I1(va: nat): (i: nat) ensures i < 512 { va / 0x1000 % 512 }

  predicate SamePage(a: nat, b: nat) {
    I4(a) == I4(b) && I3(a) == I3(b) && I2(a) == I2(b) && I1(a) == I1(b)
  }

  function Read(m: Mem, t: nat, i: nat): (e: Entry) {
    if t in m && i < |m[t]| then m[t][i] else ABSENT
  }

  /** What a walk finds: the leaf, how many 4 KiB pages it spans, and whether every level on the
      way admits user mode. */
  datatype Access = Access(leaf: Entry, pages: nat, user: bool)

  function WalkPt(m: Mem, pt: nat, va: nat, user: bool): (r: Option<Access>) {
    var e := Read(m, pt, I1(va));
    if !e.present then None else Some(Access(e, 1, user && e.user))
  }

  function WalkPd(m: Mem, pd: nat, va: nat, user: bool): (r: Option<Access>) {
    var e := Read(m, pd, I2(va));
    if !e.present then None
    else if e.huge then Some(Access(e, 512, user && e.user))
    else WalkPt(m, e.addr, va, user && e.user)
  }

  function WalkPdpt(m: Mem, pdpt: nat, va: nat, user: bool): (r: Option<Access>) {
    var e := Read(m, pdpt, I3(va));
    if !e.present then None
    else if e.huge then Some(Access(e, 512 * 512, user && e.user))
    else WalkPd(m, e.addr, va, user && e.user)
  }

  function Walk(m: Mem, root: nat, va: nat): (r: Option<Access>) {
    var e := Read(m, root, I4(va));
    if !e.present then None else WalkPdpt(m, e.addr, va, e.user)
  }

  function Physical(a: Access, va: nat): (pa: nat)
    requires a.pages > 0
  {
    a.leaf.addr / a.pages * a.pages * 0x1000 + va % (a.pages * 0x1000)
  }

  function Translate(m: Mem, root: nat, va: nat): (r: Option<nat>) {
    match Walk(m, root, va)
    case None => None
    case Some(a) => Some(Physical(a, va))
  }

  /** `(writable, executable)`. */
  function PageProt(m: Mem, root: nat, va: nat): (r: Option<(bool, bool)>) {
    match Walk(m, root, va)
    case None => None
    case Some(a) => Some((a.leaf.writable, !a.leaf.nx))
  }

  predicate UserReachable(m: Mem, root: nat, va: nat) {
    Walk(m, root, va).Some? && Walk(m, root, va).value.user
  }

  // ---- typed memory: every table sits at one level, and links go one level down ----

  ghost predicate Links(e: Entry, level: nat) {
    e.present && (level == 4 || !e.huge)
  }

  ghost predicate Typed(m: Mem, level: map<nat, nat>) {
    && m.Keys == level.Keys
    && (forall t :: t in m ==> |m[t]| == 512 && 1 <= level[t] <= 4)
    && (forall t, i: nat :: t in m && level[t] > 1 && i < 512 && Links(Read(m, t, i), level[t])
          ==> Read(m, t, i).addr in level && level[Read(m, t, i).addr] == level[t] - 1)
  }

  ghost predicate At(level: map<nat, nat>, t: nat, l: nat) {
    t in level && level[t] == l
  }

  // ---- the walker's view ----

  function Pdpt(m: Mem, root: nat, i4: nat): (r: Option<nat>) {
    var e := Read(m, root, i4);
    if e.present then Some(e.addr) else None
  }

  function Pd(m: Mem, root: nat, i4: nat, i3: nat): (r: Option<nat>) {
    match Pdpt(m, root, i4)
    case None => None
    case Some(t) => var e := Read(m, t, i3); if e.present && !e.huge then Some(e.addr) else None
  }

  function Pt(m: Mem, root: nat, i4: nat, i3: nat, i2: nat): (r: Option<nat>) {
    match Pd(m, root, i4, i3)
    case None => None
    case Some(t) => var e := Read(m, t, i2); if e.present && !e.huge then Some(e.addr) else None
  }

  /** From `root`, no leaf table is reached along two different index paths. */
  ghost predicate LeafTablesUnshared(m: Mem, root: nat) {
    forall a4: nat, a3: nat, a2: nat, b4: nat, b3: nat, b2: nat ::
      Pt(m, root, a4, a3, a2).Some? && Pt(m, root, a4, a3, a2) == Pt(m, root, b4, b3, b2) ==>
        a4 == b4 && a3 == b3 && a2 == b2
  }

  /** From `root`, no page directory is reached along two different index paths. */
  ghost predicate DirectoriesUnshared(m: Mem, root: nat) {
    forall a4: nat, a3: nat, b4: nat, b3: nat ::
      Pd(m, root, a4, a3).Some? && Pd(m, root, a4, a3) == Pd(m, root, b4, b3) ==> a4 == b4 && a3 == b3
  }

  ghost predicate Unshared(m: Mem, root: nat) {
    LeafTablesUnshared(m, root) && DirectoriesUnshared(m, root)
  }

  lemma Offsets(va: nat)
    ensures va % (512 * 0x1000) == I1(va) * 0x1000 + va % 0x1000
  {
  }

  // ---- splitting a 2 MiB page and editing one 4 KiB page ----

  /** The 512 entries that mean what the huge entry `e` means. */
  function SplitTable(e: Entry): (t: seq<Entry>)
    ensures |t| == 512
  {
    seq(512, j requires 0 <= j < 512 => e.(huge := false, addr := e.addr / 512 * 512 + j))
  }

  function TableEntry(t: nat, user: bool): (e: Entry) {
    Entry(true, true, user, false, false, 0, t)
  }

  /** The assertions of `ensure_pt`: the path to the directory entry exists. */
  predicate PathPresent(m: Mem, root: nat, v: nat) {
    var pd := Pd(m, root, I4(v), I3(v));
    pd.Some? && Read(m, pd.value, I2(v)).present
  }

  function PdOf(m: Mem, root: nat, v: nat): (pd: nat)
    requires PathPresent(m, root, v)
  {
    Pd(m, root, I4(v), I3(v)).value
  }

  /** Memory after the directory entry for `v` leads to a leaf table, `spare` if it was huge. */
  function EnsurePt(m: Mem, root: nat, v: nat, spare: nat): (r: Mem)
    requires PathPresent(m, root, v)
  {
    var pd := PdOf(m, root, v);
    var e := Read(m, pd, I2(v));
    if e.huge then WriteEntry(m[spare := SplitTable(e)], pd, I2(v), TableEntry(spare, false)) else m
  }

  function LeafTable(m: Mem, root: nat, v: nat, spare: nat): (pt: nat)
    requires PathPresent(m, root, v)
  {
    var e := Read(m, PdOf(m, root, v), I2(v));
    if e.huge then spare else e.addr
  }

  function WriteEntry(m: Mem, t: nat, i: nat, e: Entry): (r: Mem) {
    if t in m && i < |m[t]| then m[t := m[t][i := e]] else m
  }

  /** `map_page` with `leaf`, or `install_guard_page` with an absent one. */
  function EditPage(m: Mem, root: nat, v: nat, spare: nat, leaf: Entry): (r: Mem)
    requires PathPresent(m, root, v)
  {
    WriteEntry(EnsurePt(m, root, v, spare), LeafTable(m, root, v, spare), I1(v), leaf)
  }

  lemma PathTyped(m: Mem, level: map<nat, nat>, root: nat, v: nat)
    requires Typed(m, level) && At(level, root, 4) && PathPresent(m, root, v)
    ensures At(level, PdOf(m, root, v), 2) && PdOf(m, root, v) in m && |m[PdOf(m, root, v)]| == 512
  {
    var e4 := Read(m, root, I4(v));
    assert Links(e4, 4);
    assert Links(Read(m, e4.addr, I3(v)), 3);
  }

  lemma EnsurePtTyped(m: Mem, level: map<nat, nat>, root: nat, v: nat, spare: nat)
    requires Typed(m, level) && At(level, root, 4) && PathPresent(m, root, v) && spare !in m
    ensures Typed(EnsurePt(m, root, v, spare), if Read(m, PdOf(m, root, v), I2(v)).huge then level[spare := 1]
      else level)
  {
    PathTyped(m, level, root, v);
    var pd := PdOf(m, root, v);
    var n := EnsurePt(m, root, v, spare);
    if Read(m, pd, I2(v)).huge {
      var l := level[spare := 1];
      forall t, i: nat | t in n && l[t] > 1 && i < 512 && Links(Read(n, t, i), l[t])
        ensures Read(n, t, i).addr in l && l[Read(n, t, i).addr] == l[t] - 1
      {
        assert t != spare;
        if t != pd || i != I2(v) { assert Read(n, t, i) == Read(m, t, i); }
      }
    }
  }

  /** For every root and address the walk after a split finds the same frame and protection. */
  lemma SplitKeepsMeaning(m: Mem, level: map<nat, nat>, root: nat, v: nat, spare: nat, r: nat, va: nat)
    requires Typed(m, level) && At(level, root, 4) && At(level, r, 4) && PathPresent(m, root, v) && spare !in m
    ensures var n := EnsurePt(m, root, v, spare);
      Translate(n, r, va) == Translate(m, r, va) && PageProt(n, r, va) == PageProt(m, r, va)
  {
    PathTyped(m, level, root, v);
    var pd, n := PdOf(m, root, v), EnsurePt(m, root, v, spare);
    var e4 := Read(m, r, I4(va));
    assert Read(n, r, I4(va)) == e4;
    if e4.present {
      assert Links(e4, 4) && At(level, e4.addr, 3);
      var e3 := Read(m, e4.addr, I3(va));
      assert Read(n, e4.addr, I3(va)) == e3;
      if e3.present && !e3.huge {
        assert Links(e3, 3) && At(level, e3.addr, 2);
        SplitDirectoryMeaning(m, level, pd, I2(v), n, spare, e3.addr, va);
      }
    }
  }

  lemma SplitDirectoryMeaning(m: Mem, level: map<nat, nat>, pd: nat, i2: nat, n: Mem, spare: nat, d: nat, va: nat)
    requires Typed(m, level) && At(level, pd, 2) && At(level, d, 2) && spare !in m && i2 < 512
    requires var e := Read(m, pd, i2);
      n == if e.present && e.huge then WriteEntry(m[spare := SplitTable(e)], pd, i2, TableEntry(spare, false)) else m
    ensures forall u, w :: SameFrameAndProt(WalkPd(m, d, va, u), WalkPd(n, d, va, w), va)
  {
    var e := Read(m, d, I2(va));
    Offsets(va);
    if d == pd && I2(va) == i2 && e.present && e.huge {
      assert Read(n, d, I2(va)) == TableEntry(spare, false);
      assert Read(n, spare, I1(va)) == e.(huge := false, addr := e.addr / 512 * 512 + I1(va));
    } else {
      assert Read(n, d, I2(va)) == e;
      if e.present && !e.huge {
        assert Links(e, 2) && At(level, e.addr, 1);
        assert Read(n, e.addr, I1(va)) == Read(m, e.addr, I1(va));
      }
    }
  }

  ghost predicate SameFrameAndProt(a: Option<Access>, b: Option<Access>, va: nat) {
    if a.None? || b.None? then a.None? && b.None?
    else
      && a.value.pages > 0 && b.value.pages > 0 && Physical(a.value, va) == Physical(b.value, va)
      && a.value.leaf.writable == b.value.leaf.writable && a.value.leaf.nx == b.value.leaf.nx
  }
}

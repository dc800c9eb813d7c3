/** The derivation tree: parent links form a forest, so the bounded walk decides descent. */
module CSpaceForest {
  import opened Caps
  import opened CSpaceSpec
  import opened Options

  /** The slot `k` parent links above `d`. */
  ghost function Up(s: Slots, d: nat, k: nat): (l: Link)
    decreases k
  {
    if k == 0 then To(d)
    else if d < |s| && s[d].parent.To? then Up(s, s[d].parent.slot, k - 1)
    else Nil
  }

  /** `d` is derived from `a`, transitively. */
  ghost predicate Descends(s: Slots, d: nat, a: nat) {
    exists k: nat :: k > 0 && Up(s, d, k) == To(a)
  }

  ghost predicate LinksLive(s: Slots) {
    forall i: nat :: i < |s| && s[i].parent.To? ==> Live(s, i) && Live(s, s[i].parent.slot)
  }

  /** Every parent link goes to a smaller rank: there is no cycle. */
  ghost predicate Ranked(s: Slots, rank: seq<nat>) {
    |rank| == |s| && forall i: nat :: i < |s| && s[i].parent.To? ==>
      s[i].parent.slot < |s| && rank[s[i].parent.slot] < rank[i]
  }

  /** Empty slots are unlinked, parents are live, nothing derives from itself. */
  ghost predicate Forest(s: Slots) {
    LinksLive(s) && exists rank :: Ranked(s, rank)
  }

  // ---- the walk decides descent ----

  ghost predicate MetWithin(s: Slots, d: nat, a: nat, steps: nat) {
    exists k: nat :: 0 < k <= steps && Up(s, d, k) == To(a)
  }

  lemma {:induction false} WalkMeetsUp(s: Slots, d: nat, a: nat, steps: nat)
    ensures WalkMeets(s, d, a, steps) <==> MetWithin(s, d, a, steps)
    decreases steps
  {
    if steps > 0 && d < |s| && s[d].parent.To? {
      var p := s[d].parent.slot;
      WalkMeetsUp(s, p, a, steps - 1);
      assert Up(s, d, 1) == Up(s, p, 0);
      forall k: nat ensures Up(s, d, k + 1) == Up(s, p, k) {}
      if MetWithin(s, d, a, steps) {
        var k: nat :| 0 < k <= steps && Up(s, d, k) == To(a);
        assert Up(s, p, k - 1) == To(a);
      }
      if MetWithin(s, p, a, steps - 1) {
        var k: nat :| 0 < k <= steps - 1 && Up(s, p, k) == To(a);
        assert Up(s, d, k + 1) == To(a);
      }
    }
  }

  /** The slots met on the first `k` steps up from `d`, `d` first. */
  ghost function Path(s: Slots, d: nat, k: nat): (p: seq<nat>)
    requires Up(s, d, k).To?
    ensures |p| == k + 1 && p[0] == d
    decreases k
  {
    if k == 0 then [d] else [d] + Path(s, s[d].parent.slot, k - 1)
  }

  lemma {:induction false} PathDescending(s: Slots, rank: seq<nat>, d: nat, k: nat)
    requires Ranked(s, rank) && d < |s| && Up(s, d, k).To?
    ensures forall i :: 0 <= i <= k ==> Path(s, d, k)[i] < |s|
    ensures forall i, j :: 0 <= i < j <= k ==> rank[Path(s, d, k)[j]] < rank[Path(s, d, k)[i]]
    decreases k
  {
    if k > 0 { PathDescending(s, rank, s[d].parent.slot, k - 1); }
  }

  /** Pigeonhole: distinct numbers below `n` are at most `n`. */
  lemma {:induction false} DistinctBelow(p: seq<nat>, n: nat)
    requires forall i :: 0 <= i < |p| ==> p[i] < n
    requires forall i, j :: 0 <= i < j < |p| ==> p[i] != p[j]
    ensures |p| <= n
    decreases n
  {
    if p == [] {
      return;
    }
    assert p[0] < n;
    if j :| 0 <= j < |p| && p[j] == n - 1 {
      DistinctBelow(p[..j] + p[j + 1..], n - 1);
    } else {
      DistinctBelow(p, n - 1);
    }
  }

  lemma PathShort(s: Slots, rank: seq<nat>, d: nat, k: nat)
    requires Ranked(s, rank) && d < |s| && Up(s, d, k).To?
    ensures k < |s|
  {
    PathDescending(s, rank, d, k);
    DistinctBelow(Path(s, d, k), |s|);
  }

  /** The `N + 1`-step walk of `is_descendant` finds exactly the transitive derivations. */
  lemma WalkDecidesDescent(s: Slots, d: nat, a: nat)
    requires Forest(s) && d < |s|
    ensures IsDescendant(s, d, a) <==> Descends(s, d, a)
  {
    WalkMeetsUp(s, d, a, |s| + 1);
    if MetWithin(s, d, a, |s| + 1) { assert Descends(s, d, a); }
    if Descends(s, d, a) {
      var k: nat :| k > 0 && Up(s, d, k) == To(a);
      var rank :| Ranked(s, rank);
      PathShort(s, rank, d, k);
    }
  }

  lemma {:induction false} UpRank(s: Slots, rank: seq<nat>, d: nat, k: nat)
    requires Ranked(s, rank) && d < |s| && Up(s, d, k).To?
    ensures Up(s, d, k).slot < |s| && rank[Up(s, d, k).slot] <= rank[d]
    ensures k > 0 ==> rank[Up(s, d, k).slot] < rank[d]
    decreases k
  {
    if k > 0 { UpRank(s, rank, s[d].parent.slot, k - 1); }
  }

  lemma {:induction false} UpPlus(s: Slots, d: nat, j: nat, k: nat)
    requires Up(s, d, j).To?
    ensures Up(s, d, j + k) == Up(s, Up(s, d, j).slot, k)
    decreases j
  {
    if j > 0 { UpPlus(s, s[d].parent.slot, j - 1, k); }
  }

  lemma DescentIsStrict(s: Slots, d: nat)
    requires Forest(s) && d < |s|
    ensures !Descends(s, d, d)
  {
    var rank :| Ranked(s, rank);
    if k: nat :| k > 0 && Up(s, d, k) == To(d) { UpRank(s, rank, d, k); }
  }

  lemma ChildDescends(s: Slots, k: nat, d: nat, a: nat)
    requires k < |s| && s[k].parent == To(d) && (d == a || Descends(s, d, a))
    ensures Descends(s, k, a)
  {
    if d == a {
      assert Up(s, d, 0) == To(a);
      assert Up(s, k, 1) == To(a);
    } else {
      var j: nat :| j > 0 && Up(s, d, j) == To(a);
      assert Up(s, k, j + 1) == To(a);
    }
  }

  /** A descendant is linked, hence live, and its parent is the ancestor or another descendant. */
  lemma DescendsParent(s: Slots, d: nat, a: nat)
    requires Descends(s, d, a)
    ensures d < |s| && s[d].parent.To? && (s[d].parent.slot == a || Descends(s, s[d].parent.slot, a))
  {
    var k: nat :| k > 0 && Up(s, d, k) == To(a);
    assert Up(s, s[d].parent.slot, k - 1) == To(a);
  }

  /** Below every node with descendants there is a leaf. */
  lemma {:induction false} LeafBelow(s: Slots, rank: seq<nat>, bound: nat, c: nat, d: nat) returns (leaf: nat)
    requires LinksLive(s) && Ranked(s, rank) && d < |s| && Descends(s, d, c)
    requires forall i :: 0 <= i < |s| ==> rank[i] <= bound
    ensures leaf < |s| && Live(s, leaf) && Descends(s, leaf, c) && !HasChildren(s, leaf)
    decreases bound - rank[d]
  {
    DescendsParent(s, d, c);
    if HasChildren(s, d) {
      var k :| 0 <= k < |s| && !s[k].cap.ty.Null? && s[k].parent == To(d);
      ChildDescends(s, k, d, c);
      leaf := LeafBelow(s, rank, bound, c, k);
    } else {
      leaf := d;
    }
  }

  lemma {:induction false} BoundExists(rank: seq<nat>) returns (bound: nat)
    ensures forall i :: 0 <= i < |rank| ==> rank[i] <= bound
  {
    if rank == [] {
      bound := 0;
    } else {
      var b := BoundExists(rank[..|rank| - 1]);
      bound := if b < rank[|rank| - 1] then rank[|rank| - 1] else b;
      assert forall i :: 0 <= i < |rank| - 1 ==> rank[i] == rank[..|rank| - 1][i];
    }
  }

  /** When the revoke loop finds no leaf to destroy, nothing derived from `c` is left. */
  lemma NoLeafNoDescendants(s: Slots, c: nat, d: nat)
    requires Forest(s) && c < |s| && FirstLeaf(s, c, 0).None?
    ensures !Descends(s, d, c)
  {
    if Descends(s, d, c) {
      DescendsParent(s, d, c);
      var rank :| Ranked(s, rank);
      var bound := BoundExists(rank);
      var leaf := LeafBelow(s, rank, bound, c, d);
      WalkDecidesDescent(s, leaf, c);
      DescentIsStrict(s, c);
      assert RevokableLeaf(s, c, leaf);
    }
  }

  // ---- the forest is kept ----

  /** A new leaf under a live parent, or a new root. */
  lemma PlaceForest(s: Slots, dest: nat, cap: RawCap, parent: Link)
    requires Forest(s) && dest < |s| && !Live(s, dest) && !cap.ty.Null?
    requires parent.To? ==> Live(s, parent.slot)
    ensures Forest(s[dest := Cte(cap, parent)])
  {
    var rank :| Ranked(s, rank);
    var t := s[dest := Cte(cap, parent)];
    assert Ranked(t, rank[dest := if parent.To? then rank[parent.slot] + 1 else 0]);
  }

  /** Changing a live capability in place keeps its links. */
  lemma UpdateForest(s: Slots, i: nat, cap: RawCap)
    requires Forest(s) && Live(s, i) && !cap.ty.Null?
    ensures Forest(s[i := s[i].(cap := cap)])
  {
    var rank :| Ranked(s, rank);
    assert Ranked(s[i := s[i].(cap := cap)], rank);
  }

  /** Emptying a slot without children. */
  lemma RemoveForest(s: Slots, d: nat)
    requires Forest(s) && Live(s, d) && !HasChildren(s, d)
    ensures Forest(s[d := EMPTY])
  {
    var rank :| Ranked(s, rank);
    assert Ranked(s[d := EMPTY], rank);
  }

  lemma MoveForest(s: Slots, src: nat, dest: nat)
    requires Forest(s) && Live(s, src) && dest < |s| && !Live(s, dest)
    ensures Forest(Reparent(s, src, dest)[dest := s[src]][src := EMPTY])
  {
    var rank :| Ranked(s, rank);
    var t := Reparent(s, src, dest)[dest := s[src]][src := EMPTY];
    assert Ranked(t, rank[dest := rank[src]]);
  }
}

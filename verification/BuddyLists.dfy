/** The intrusive free lists: each order's list is threaded through the frame descriptors. */
module BuddyLists {
  import opened Bits
  import opened BuddyPool

  /** The null link, `u32::MAX`. */
  const NIL: nat := 0xFFFF_FFFF

  datatype FrameDesc = FrameDesc(next: nat, prev: nat, order: nat, free: bool)

  const RESERVED: FrameDesc := FrameDesc(NIL, NIL, 0, false)

  function At(l: seq<nat>, i: int): (f: nat) {
    if 0 <= i < |l| then l[i] else NIL
  }

  ghost predicate NodeAt(desc: seq<FrameDesc>, n: nat, l: seq<nat>, i: nat)
    requires n <= |desc| && i < |l|
  {
    l[i] < n && desc[l[i]].next == At(l, i + 1) && desc[l[i]].prev == At(l, i - 1)
  }

  /** From `head`, the links run through exactly `l`, forwards and backwards, without repeating. */
  ghost predicate Linked(desc: seq<FrameDesc>, n: nat, head: nat, l: seq<nat>)
    requires n <= |desc|
  {
    && head == At(l, 0)
    && (forall i :: 0 <= i < |l| ==> l[i] < n)
    && (forall i :: 0 <= i < |l| ==> NodeAt(desc, n, l, i))
    && (forall i, j :: 0 <= i < j < |l| ==> l[i] != l[j])
  }

  /** Push `b` at the front of a list. */
  function InsertDesc(desc: seq<FrameDesc>, head: nat, b: nat, k: nat): (r: seq<FrameDesc>)
    requires b < |desc| && (head == NIL || head < |desc|)
  {
    var d := desc[b := FrameDesc(head, NIL, k, true)];
    if head != NIL then d[head := d[head].(prev := b)] else d
  }

  /** Bypass `b` in its list. */
  function UnlinkDesc(desc: seq<FrameDesc>, b: nat): (r: seq<FrameDesc>)
    requires b < |desc| && (desc[b].next == NIL || desc[b].next < |desc|)
    requires desc[b].prev == NIL || desc[b].prev < |desc|
    ensures |r| == |desc|
  {
    var FrameDesc(next, prev, _, _) := desc[b];
    var d1 := if prev != NIL then desc[prev := desc[prev].(next := next)] else desc;
    var d2 := if next != NIL then d1[next := d1[next].(prev := prev)] else d1;
    d2[b := d2[b].(free := false)]
  }

  function Without(l: seq<nat>, i: nat): (r: seq<nat>)
    requires i < |l|
  {
    l[..i] + l[i + 1..]
  }

  ghost predicate Apart(l: seq<nat>, m: seq<nat>) {
    forall i, j :: 0 <= i < |l| && 0 <= j < |m| ==> l[i] != m[j]
  }

  lemma InsertLinked(desc: seq<FrameDesc>, n: nat, head: nat, l: seq<nat>, b: nat, k: nat)
    requires n <= |desc| && n <= NIL && Linked(desc, n, head, l) && b < n && b !in l
    ensures Linked(InsertDesc(desc, head, b, k), n, b, [b] + l)
  {
    var d, m := InsertDesc(desc, head, b, k), [b] + l;
    assert l != [] ==> NodeAt(desc, n, l, 0);
    forall i | 0 <= i < |m| ensures NodeAt(d, n, m, i) {
      if i > 0 { assert NodeAt(desc, n, l, i - 1); }
    }
  }

  lemma InsertOther(desc: seq<FrameDesc>, n: nat, head: nat, l: seq<nat>, b: nat, k: nat, head': nat, l': seq<nat>)
    requires n <= |desc| && n <= NIL && Linked(desc, n, head, l) && b < n
    requires Linked(desc, n, head', l') && Apart(l, l') && b !in l'
    ensures Linked(InsertDesc(desc, head, b, k), n, head', l')
  {
    var d := InsertDesc(desc, head, b, k);
    assert l != [] ==> NodeAt(desc, n, l, 0);
    forall i | 0 <= i < |l'| ensures NodeAt(d, n, l', i) {
      assert NodeAt(desc, n, l', i);
      assert d[l'[i]] == desc[l'[i]];
    }
  }

  /** Unlinking rewrites a link only in the two neighbours and clears one free bit. */
  lemma UnlinkFields(desc: seq<FrameDesc>, b: nat, x: nat)
    requires b < |desc| && (desc[b].next == NIL || desc[b].next < |desc|) && x < |desc|
    requires desc[b].prev == NIL || desc[b].prev < |desc|
    ensures var d := UnlinkDesc(desc, b);
      && d[x].next == (if x != NIL && x == desc[b].prev then desc[b].next else desc[x].next)
      && d[x].prev == (if x != NIL && x == desc[b].next then desc[b].prev else desc[x].prev)
      && d[x].order == desc[x].order && d[x].free == (x != b && desc[x].free)
  {
  }

  lemma UnlinkNode(desc: seq<FrameDesc>, n: nat, head: nat, l: seq<nat>, i: nat, j: nat)
    requires n <= |desc| && n <= NIL && Linked(desc, n, head, l) && i < |l| && NodeAt(desc, n, l, i)
    requires j < |l| - 1
    ensures NodeAt(UnlinkDesc(desc, l[i]), n, Without(l, i), j)
  {
    hide UnlinkDesc;
    var t := if j < i then j else j + 1;
    assert Without(l, i)[j] == l[t] && NodeAt(desc, n, l, t);
    WithoutAt(l, i, j);
    UnlinkFields(desc, l[i], l[t]);
    assert i > 0 ==> l[i - 1] < n;
    assert i + 1 < |l| ==> l[i + 1] < n;
  }

  lemma UnlinkLinked(desc: seq<FrameDesc>, n: nat, head: nat, l: seq<nat>, i: nat)
    requires n <= |desc| && n <= NIL && Linked(desc, n, head, l) && i < |l| && NodeAt(desc, n, l, i)
    ensures Linked(UnlinkDesc(desc, l[i]), n, if i == 0 then desc[l[i]].next else head, Without(l, i))
  {
    hide UnlinkDesc;
    var d, m := UnlinkDesc(desc, l[i]), Without(l, i);
    forall j: nat | j < |m| ensures m[j] < n && NodeAt(d, n, m, j) { UnlinkNode(desc, n, head, l, i, j); }
    assert |d| == |desc| && At(m, 0) == if i == 0 then At(l, 1) else At(l, 0);
  }

  /** The neighbours of a node after a removal. */
  lemma WithoutAt(l: seq<nat>, i: nat, j: nat)
    requires i < |l| && j + 1 < |l|
    ensures At(Without(l, i), j + 1) == if j + 1 < i then At(l, j + 1) else At(l, j + 2)
    ensures At(Without(l, i), j - 1) == if j - 1 < i then At(l, j - 1) else At(l, j)
  {
  }

  lemma UnlinkOther(desc: seq<FrameDesc>, n: nat, head: nat, l: seq<nat>, i: nat, head': nat, l': seq<nat>)
    requires n <= |desc| && n <= NIL && Linked(desc, n, head, l) && i < |l| && NodeAt(desc, n, l, i)
    requires Linked(desc, n, head', l') && Apart(l, l')
    ensures Linked(UnlinkDesc(desc, l[i]), n, head', l')
  {
    var d := UnlinkDesc(desc, l[i]);
    assert i > 0 ==> NodeAt(desc, n, l, i - 1);
    assert i + 1 < |l| ==> NodeAt(desc, n, l, i + 1);
    forall j | 0 <= j < |l'| ensures NodeAt(d, n, l', j) {
      assert NodeAt(desc, n, l', j);
      assert d[l'[j]] == desc[l'[j]];
    }
  }

  // ---- the descriptors hold exactly the free blocks of a pool ----

  ghost predicate Listed(desc: seq<FrameDesc>, n: nat, heads: seq<nat>, lists: seq<seq<nat>>)
    requires n <= |desc|
  {
    && |heads| == |lists| == MAX_ORDER + 1
    && (forall k :: 0 <= k <= MAX_ORDER ==> Linked(desc, n, heads[k], lists[k]))
  }

  ghost predicate Represents(desc: seq<FrameDesc>, n: nat, heads: seq<nat>, lists: seq<seq<nat>>, p: Pool) {
    && n <= |desc| && n <= NIL
    && Listed(desc, n, heads, lists)
    && (forall k: nat, b: nat :: k <= MAX_ORDER ==> (b in lists[k] <==> FreeAt(p, b, k)))
    && (forall b: nat, k: nat :: FreeAt(p, b, k) <==> b < n && desc[b].free && desc[b].order == k)
  }

  lemma ListsApart(desc: seq<FrameDesc>, n: nat, heads: seq<nat>, lists: seq<seq<nat>>, p: Pool, j: nat, k: nat)
    requires Represents(desc, n, heads, lists, p) && j <= MAX_ORDER && k <= MAX_ORDER && j != k
    ensures Apart(lists[j], lists[k])
  {
    forall a, c | 0 <= a < |lists[j]| && 0 <= c < |lists[k]| ensures lists[j][a] != lists[k][c] {
      assert lists[j][a] in lists[j] && lists[k][c] in lists[k];
      assert FreeAt(p, lists[j][a], j) && FreeAt(p, lists[k][c], k);
    }
  }

  lemma InsertRepresents(desc: seq<FrameDesc>, n: nat, heads: seq<nat>, lists: seq<seq<nat>>, p: Pool, b: nat, k: nat,
                         q: Pool, moving: set<nat>)
    requires Represents(desc, n, heads, lists, p) && b < n && Enlists(p, q, b, k, moving)
    ensures heads[k] == NIL || heads[k] < n
    ensures Represents(InsertDesc(desc, heads[k], b, k), n, heads[k := b], lists[k := [b] + lists[k]], q)
  {
    assert Linked(desc, n, heads[k], lists[k]);
    assert lists[k] != [] ==> NodeAt(desc, n, lists[k], 0);
    var d, hs, ls := InsertDesc(desc, heads[k], b, k), heads[k := b], lists[k := [b] + lists[k]];
    forall j: nat | j <= MAX_ORDER ensures b !in lists[j] {
      assert !FreeAt(p, b, j);
    }
    forall j | 0 <= j <= MAX_ORDER ensures Linked(d, n, hs[j], ls[j]) {
      assert Linked(desc, n, heads[j], lists[j]);
      if j == k {
        InsertLinked(desc, n, heads[k], lists[k], b, k);
      } else {
        ListsApart(desc, n, heads, lists, p, k, j);
        InsertOther(desc, n, heads[k], lists[k], b, k, heads[j], lists[j]);
      }
    }
  }

  lemma UnlinkListed(desc: seq<FrameDesc>, n: nat, heads: seq<nat>, lists: seq<seq<nat>>, p: Pool, i: nat, k: nat)
    requires Represents(desc, n, heads, lists, p) && k <= MAX_ORDER && i < |lists[k]| && NodeAt(desc, n, lists[k], i)
    ensures var b := lists[k][i];
      var hs := if desc[b].prev == NIL then heads[k := desc[b].next] else heads;
      Listed(UnlinkDesc(desc, b), n, hs, lists[k := Without(lists[k], i)])
  {
    hide UnlinkDesc; hide Without;
    var b := lists[k][i];
    assert Linked(desc, n, heads[k], lists[k]);
    assert desc[b].prev == NIL <==> i == 0 by { FirstHasNoPrev(desc, n, heads[k], lists[k], i); }
    var d, ls := UnlinkDesc(desc, b), lists[k := Without(lists[k], i)];
    var hs := if desc[b].prev == NIL then heads[k := desc[b].next] else heads;
    forall j | 0 <= j <= MAX_ORDER ensures Linked(d, n, hs[j], ls[j]) {
      assert Linked(desc, n, heads[j], lists[j]);
      if j == k {
        UnlinkLinked(desc, n, heads[k], lists[k], i);
      } else {
        ListsApart(desc, n, heads, lists, p, k, j);
        UnlinkOther(desc, n, heads[k], lists[k], i, heads[j], lists[j]);
      }
    }
  }

  lemma FirstHasNoPrev(desc: seq<FrameDesc>, n: nat, head: nat, l: seq<nat>, i: nat)
    requires n <= |desc| && n <= NIL && Linked(desc, n, head, l) && i < |l|
    ensures desc[l[i]].prev == NIL <==> i == 0
  {
    assert NodeAt(desc, n, l, i);
  }

  lemma UnlinkRepresents(desc: seq<FrameDesc>, n: nat, heads: seq<nat>, lists: seq<seq<nat>>, p: Pool, i: nat, k: nat,
                         q: Pool, moving: set<nat>)
    requires Represents(desc, n, heads, lists, p) && k <= MAX_ORDER && i < |lists[k]|
    requires Delists(p, q, lists[k][i], k, moving)
    ensures var b := lists[k][i];
      && b < n && (desc[b].next == NIL || desc[b].next < n) && (desc[b].prev == NIL || desc[b].prev < n)
      && var hs := if desc[b].prev == NIL then heads[k := desc[b].next] else heads;
      Represents(UnlinkDesc(desc, b), n, hs, lists[k := Without(lists[k], i)], q)
  {
    hide UnlinkDesc; hide Without;
    assert Linked(desc, n, heads[k], lists[k]);
    var b := lists[k][i];
    assert b in lists[k] && NodeAt(desc, n, lists[k], i);
    assert i > 0 ==> NodeAt(desc, n, lists[k], i - 1);
    assert i + 1 < |lists[k]| ==> NodeAt(desc, n, lists[k], i + 1);
    UnlinkListed(desc, n, heads, lists, p, i, k);
    hide NodeAt; hide Listed;
    var d := UnlinkDesc(desc, b);
    forall c: nat | c < n ensures d[c].order == desc[c].order && d[c].free == (c != b && desc[c].free) {
      UnlinkFields(desc, b, c);
    }
    forall c: nat ensures c in Without(lists[k], i) <==> c in lists[k] && c != b { WithoutMember(lists[k], i, c); }
  }

  lemma WithoutMember(l: seq<nat>, i: nat, c: nat)
    requires i < |l| && forall s, t :: 0 <= s < t < |l| ==> l[s] != l[t]
    ensures c in Without(l, i) <==> c in l && c != l[i]
  {
    if c in l && c != l[i] {
      var t :| 0 <= t < |l| && l[t] == c;
      assert Without(l, i)[if t < i then t else t - 1] == c;
    }
  }

  /** From `p` to `q` exactly the block at `b` of order `k` becomes free. */
  ghost predicate Enlists(p: Pool, q: Pool, b: nat, k: nat, moving: set<nat>) {
    && k <= MAX_ORDER && !(b in p && p[b].free)
    && (forall c: nat, j: nat :: FreeAt(q, c, j) <==> FreeAt(p, c, j) || (c == b && j == k))
    && (forall c :: c in q && !q[c].free && c !in moving ==> c in p && p[c] == q[c])
  }

  /** From `p` to `q` exactly the block at `b` of order `k` stops being free. */
  ghost predicate Delists(p: Pool, q: Pool, b: nat, k: nat, moving: set<nat>) {
    && k <= MAX_ORDER && FreeAt(p, b, k)
    && (forall c: nat, j: nat :: FreeAt(q, c, j) <==> FreeAt(p, c, j) && c != b)
    && (forall c :: c in q && !q[c].free && c !in moving ==> c in p && p[c] == q[c])
  }

  lemma AddEnlists(p: Pool, b: nat, k: nat)
    requires b !in p && k <= MAX_ORDER
    ensures Enlists(p, Add(p, b, k), b, k, {})
  {
  }

  lemma MarkLists(p: Pool, b: nat)
    requires b in p && p[b].order <= MAX_ORDER
    ensures p[b].free ==> Delists(p, Mark(p, b, false), b, p[b].order, {b})
    ensures !p[b].free ==> Enlists(p, Mark(p, b, true), b, p[b].order, {b})
  {
  }

  lemma SplitEnlists(p: Pool, b: nat, n: nat)
    requires Partition(p, n) && b in p && p[b].order > 0 && !p[b].free
    ensures Enlists(p, Split(p, b), b + Pow2(p[b].order - 1), p[b].order - 1, {b})
    ensures b in Split(p, b) && Split(p, b)[b] == Block(p[b].order - 1, false)
    ensures b + Pow2(p[b].order - 1) < n
  {
    SplitHolds(p, b, n);
  }

  lemma MergeDelists(p: Pool, b: nat, n: nat)
    requires Partition(p, n) && CanMerge(p, b) && !p[b].free
    ensures Delists(p, Merge(p, b), FlipBit(b, p[b].order), p[b].order, {MergedBase(p, b)})
    ensures MergedBase(p, b) in Merge(p, b) && Merge(p, b)[MergedBase(p, b)] == Block(p[b].order + 1, false)
  {
    MergeHolds(p, b, n);
  }

  /** Outstanding blocks other than `moving` have their order on record. */
  ghost predicate OrdersKnown(desc: seq<FrameDesc>, p: Pool, moving: set<nat>) {
    forall b :: b in p && !p[b].free && b !in moving ==> b < |desc| && desc[b].order == p[b].order
  }

  lemma InsertOrders(desc: seq<FrameDesc>, head: nat, p: Pool, b: nat, k: nat, q: Pool, moving: set<nat>)
    requires b < |desc| && (head == NIL || head < |desc|) && OrdersKnown(desc, p, moving) && Enlists(p, q, b, k, moving)
    ensures OrdersKnown(InsertDesc(desc, head, b, k), q, moving)
  {
    assert FreeAt(q, b, k);
  }

  lemma UnlinkOrders(desc: seq<FrameDesc>, p: Pool, b: nat, k: nat, q: Pool, moving: set<nat>)
    requires b < |desc| && (desc[b].next == NIL || desc[b].next < |desc|)
    requires (desc[b].prev == NIL || desc[b].prev < |desc|)
    requires OrdersKnown(desc, p, moving) && Delists(p, q, b, k, moving)
    ensures OrdersKnown(UnlinkDesc(desc, b), q, moving)
  {
  }

  /** Writing the order of an outstanding block disturbs nothing. */
  lemma RecordRepresents(desc: seq<FrameDesc>, n: nat, heads: seq<nat>, lists: seq<seq<nat>>, p: Pool, b: nat, k: nat)
    requires Represents(desc, n, heads, lists, p) && b < n && !desc[b].free
    ensures Represents(desc[b := desc[b].(order := k)], n, heads, lists, p)
  {
    var d := desc[b := desc[b].(order := k)];
    forall j: nat | j <= MAX_ORDER ensures Linked(d, n, heads[j], lists[j]) {
      assert Linked(desc, n, heads[j], lists[j]);
      forall i | 0 <= i < |lists[j]| ensures NodeAt(d, n, lists[j], i) {
        assert NodeAt(desc, n, lists[j], i);
      }
    }
  }
}

/** Powers of two, aligned blocks of frame numbers and single-bit flips, all by recursion on the
    binary digits, so that every law below is proved by linear arithmetic. */
module Bits {

  function Pow2(k: nat): (p: nat)
    ensures p >= 1
  {
    if k == 0 then 1 else 2 * Pow2(k - 1)
  }

  /** The base of the aligned block of `2^k` numbers that holds `f`: the low `k` bits cleared. */
  function Down(f: nat, k: nat): (b: nat) {
    if k == 0 then f else 2 * Down(f / 2, k - 1)
  }

  predicate Aligned(b: nat, k: nat) {
    Down(b, k) == b
  }

  /** `b ^ (1 << k)`. */
  function FlipBit(b: nat, k: nat): (r: nat) {
    if k == 0 then (if b % 2 == 0 then b + 1 else b - 1)
    else 2 * FlipBit(b / 2, k - 1) + b % 2
  }

  /** `b.trailing_zeros()` for a non-zero `b`. */
  function TrailingZeros(b: nat): (k: nat)
    requires b > 0
  {
    if b % 2 == 1 then 0 else 1 + TrailingZeros(b / 2)
  }

  /** `31 - n.leading_zeros()` for a non-zero 32-bit `n`: the floor of its binary logarithm. */
  function FloorLog2(n: nat): (k: nat)
    requires n > 0
  {
    if n == 1 then 0 else 1 + FloorLog2(n / 2)
  }

  lemma {:induction false} DownBounds(f: nat, k: nat)
    ensures Down(f, k) <= f < Down(f, k) + Pow2(k)
  {
    if k > 0 { DownBounds(f / 2, k - 1); }
  }

  /** Clearing more bits after clearing fewer is the same as clearing more at once. */
  lemma {:induction false} DownDown(f: nat, j: nat, k: nat)
    requires j <= k
    ensures Down(Down(f, j), k) == Down(f, k)
    ensures Down(Down(f, k), j) == Down(f, k)
  {
    if j > 0 { DownDown(f / 2, j - 1, k - 1); }
  }

  /** An aligned block holds exactly the numbers that round down to its base. */
  lemma {:induction false} DownInBlock(f: nat, b: nat, k: nat)
    requires Aligned(b, k)
    ensures b <= f < b + Pow2(k) <==> Down(f, k) == b
  {
    if k > 0 { DownInBlock(f / 2, b / 2, k - 1); }
  }

  /** The block that holds an aligned block is it or, one order up, the pair it belongs to. */
  lemma {:induction false} DownSucc(f: nat, k: nat)
    ensures Down(f, k + 1) == Down(f, k) || Down(f, k + 1) + Pow2(k) == Down(f, k)
  {
    if k > 0 { DownSucc(f / 2, k - 1); }
  }

  /** An aligned block of order `k + 1` is two aligned blocks of order `k`. */
  lemma {:induction false} Halves(b: nat, k: nat)
    requires Aligned(b, k + 1)
    ensures Aligned(b, k) && Aligned(b + Pow2(k), k) && Down(b + Pow2(k), k + 1) == b
    ensures !Aligned(b + Pow2(k), k + 1)
  {
    if k > 0 {
      Halves(b / 2, k - 1);
      assert (b + Pow2(k)) / 2 == b / 2 + Pow2(k - 1);
    }
  }

  /** On an aligned base, flipping bit `k` reaches the other half of the pair. */
  lemma {:induction false} FlipAligned(b: nat, k: nat)
    requires Aligned(b, k)
    ensures FlipBit(b, k) == if Aligned(b, k + 1) then b + Pow2(k) else b - Pow2(k)
    ensures Aligned(FlipBit(b, k), k)
    ensures FlipBit(FlipBit(b, k), k) == b
    ensures Down(FlipBit(b, k), k + 1) == Down(b, k + 1)
  {
    assert Down(b, k + 1) == 2 * Down(b / 2, k);
    if k > 0 {
      FlipAligned(b / 2, k - 1);
      assert b % 2 == 0;
      assert FlipBit(b, k) / 2 == FlipBit(b / 2, k - 1);
    }
  }

  lemma {:induction false} AlignedTrailing(b: nat, k: nat)
    requires b > 0
    ensures Aligned(b, k) <==> k <= TrailingZeros(b)
  {
    if k > 0 {
      assert Down(b, k) == 2 * Down(b / 2, k - 1);
      if b % 2 == 0 { AlignedTrailing(b / 2, k - 1); }
    }
  }

  lemma {:induction false} FitsLog(n: nat, k: nat)
    requires n > 0
    ensures Pow2(k) <= n <==> k <= FloorLog2(n)
  {
    if k > 0 && n > 1 { FitsLog(n / 2, k - 1); }
  }

  lemma {:induction false} AlignedZero(k: nat)
    ensures Aligned(0, k)
  {
    if k > 0 { AlignedZero(k - 1); }
  }

  lemma {:induction false} Pow2Monotone(j: nat, k: nat)
    requires j <= k
    ensures Pow2(j) <= Pow2(k)
  {
    if j < k { Pow2Monotone(j, k - 1); }
  }

  lemma RemainderUnique(b: nat, m: nat, q: nat, r: nat)
    requires m > 0 && b == q * m + r && r < m
    ensures b % m == r && b / m == q
  {
    var d := b / m - q;
    assert d * m == r - b % m;
    assert d >= 1 ==> d * m >= m;
    assert d <= -1 ==> d * m <= -(m as int);
  }

  ghost predicate InRange(f: nat, lo: nat, n: nat) {
    lo <= f < lo + n
  }

  ghost function Range(lo: nat, n: nat): (r: set<nat>) {
    set f: nat | f < lo + n && InRange(f, lo, n)
  }

  lemma {:induction false} RangeSize(lo: nat, n: nat)
    ensures |Range(lo, n)| == n
  {
    if n == 0 {
      assert Range(lo, n) == {};
    } else {
      RangeSize(lo, n - 1);
      assert forall f: nat :: InRange(f, lo, n) <==> InRange(f, lo, n - 1) || f == lo + n - 1;
      assert Range(lo, n) == Range(lo, n - 1) + {lo + n - 1};
    }
  }
}

/** Numbers as little-endian bytes, and bytes written in place. */
module LittleEndian {
  import Bits

  type byte = x: nat | x < 256

  const U64_LIMIT: nat := 0x1_0000_0000_0000_0000

  function Pow256(n: nat): (p: nat)
    ensures p >= 1
  {
    if n == 0 then 1 else 256 * Pow256(n - 1)
  }

  function Le(v: nat, n: nat): (s: seq<byte>)
    ensures |s| == n
  {
    if n == 0 then [] else [v % 256] + Le(v / 256, n - 1)
  }

  function LeValue(s: seq<byte>): (v: nat) {
    if s == [] then 0 else s[0] + 256 * LeValue(s[1..])
  }

  lemma {:induction false} LeRoundTrip(v: nat, n: nat)
    requires v < Pow256(n)
    ensures LeValue(Le(v, n)) == v
  {
    if n > 0 { LeRoundTrip(v / 256, n - 1); }
  }

  lemma {:induction false} LeBound(s: seq<byte>)
    ensures LeValue(s) < Pow256(|s|)
  {
    if s != [] { LeBound(s[1..]); }
  }

  lemma {:induction false} LeOfValue(s: seq<byte>)
    ensures Le(LeValue(s), |s|) == s
  {
    if s != [] {
      LeOfValue(s[1..]);
      assert LeValue(s) / 256 == LeValue(s[1..]) && LeValue(s) % 256 == s[0];
    }
  }

  /** The byte at position `i` is the digit of weight 256 to the `i`: the lowest comes first. */
  lemma {:induction false} LeDigit(s: seq<byte>, i: nat)
    requires i < |s|
    ensures LeValue(s) / Pow256(i) % 256 == s[i]
  {
    var v, w := LeValue(s), LeValue(s[1..]);
    assert v / 256 == w && v % 256 == s[0];
    if i > 0 {
      LeDigit(s[1..], i - 1);
      DivDiv(v, Pow256(i - 1));
    }
  }

  lemma DivDiv(v: nat, p: nat)
    requires p > 0
    ensures v / (256 * p) == v / 256 / p
  {
    var q, r := v / 256 / p, v / 256 % p;
    assert v == 256 * (q * p + r) + v % 256;
    assert v == q * (256 * p) + (256 * r + v % 256);
    assert 256 * r + v % 256 < 256 * p;
    Bits.RemainderUnique(v, 256 * p, q, 256 * r + v % 256);
  }

  lemma Widths()
    ensures Pow256(1) == 256 && Pow256(2) == 0x1_0000 && Pow256(4) == 0x1_0000_0000 && Pow256(8) == U64_LIMIT
  {
    assert Pow256(1) == 256 * Pow256(0);
    assert Pow256(2) == 256 * Pow256(1);
    assert Pow256(3) == 256 * Pow256(2);
    assert Pow256(4) == 256 * Pow256(3);
    assert Pow256(5) == 256 * Pow256(4);
    assert Pow256(6) == 256 * Pow256(5);
    assert Pow256(7) == 256 * Pow256(6);
    assert Pow256(8) == 256 * Pow256(7);
  }

  /** Bytes written in place. */
  function Patch(s: seq<byte>, o: nat, w: seq<byte>): (r: seq<byte>)
    requires o + |w| <= |s|
    ensures |r| == |s|
  {
    s[..o] + w + s[o + |w|..]
  }
}

/** Bytes, little-endian words, and stretches of a byte memory. */
module Bytes {

  type byte = x: int | 0 <= x < 256

  function Pow256(k: nat): (p: nat)
    ensures p >= 1
  {
    if k == 0 then 1 else 256 * Pow256(k - 1)
  }

  /** `v` in `k` bytes, least significant first. */
  function Word(v: nat, k: nat): (bs: seq<byte>)
    ensures |bs| == k
  {
    if k == 0 then [] else [(v % 256) as byte] + Word(v / 256, k - 1)
  }

  function Value(bs: seq<byte>): nat {
    if bs == [] then 0 else bs[0] + 256 * Value(bs[1..])
  }

  lemma {:induction false} ValueOfWord(v: nat, k: nat)
    requires v < Pow256(k)
    ensures Value(Word(v, k)) == v
  {
    if k > 0 {
      ValueOfWord(v / 256, k - 1);
      assert Word(v, k)[1..] == Word(v / 256, k - 1);
    }
  }

  lemma Pow256Values()
    ensures Pow256(4) == 0x1_0000_0000 && Pow256(8) == 0x1_0000_0000_0000_0000
  {
    assert Pow256(2) == 65536;
    assert Pow256(4) == 65536 * 65536;
    assert Pow256(6) == 65536 * Pow256(4);
    assert Pow256(8) == 65536 * Pow256(6);
  }

  /** `m` with the bytes from `a` on replaced by `bs`. */
  function Put(m: seq<byte>, a: nat, bs: seq<byte>): (r: seq<byte>)
    requires a + |bs| <= |m|
    ensures |r| == |m|
  {
    m[..a] + bs + m[a + |bs|..]
  }

  /** A write leaves every stretch beside it alone. */
  lemma PutElsewhere(m: seq<byte>, a: nat, bs: seq<byte>, b: nat, n: nat)
    requires a + |bs| <= |m| && b + n <= |m| && (b + n <= a || a + |bs| <= b)
    ensures Put(m, a, bs)[b..b + n] == m[b..b + n]
  {}

  /** The next multiple of eight. */
  function Align8(n: nat): (r: nat)
    ensures r % 8 == 0 && n <= r < n + 8
    ensures n % 8 == 0 ==> r == n
  {
    (n + 7) / 8 * 8
  }

  lemma PutFrame(m: seq<byte>, a: nat, bs: seq<byte>)
    requires a + |bs| <= |m|
    ensures forall i :: 0 <= i < |m| && !(a <= i < a + |bs|) ==> Put(m, a, bs)[i] == m[i]
  {}

  lemma PutSlice(m: seq<byte>, a: nat, bs: seq<byte>)
    requires a + |bs| <= |m|
    ensures Put(m, a, bs)[a..a + |bs|] == bs
  {}

  /** The bytes before the first zero byte: what `strlen` and `strcpy` see. */
  function CString(bs: seq<byte>): (r: seq<byte>)
    ensures |r| <= |bs| && r == bs[..|r|] && 0 !in r
    ensures |r| < |bs| ==> bs[|r|] == 0
  {
    if bs == [] || bs[0] == 0 then [] else [bs[0]] + CString(bs[1..])
  }
}

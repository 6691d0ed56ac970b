/** Bytes and little-endian integers. */
module Bytes {

  type byte = x: int | 0 <= x < 256

  /** 256 to the power w: one more than the largest value a w-byte field holds. */
  function Limit(w: nat): (r: nat)
    ensures r > 0
  {
    if w == 0 then 1 else 256 * Limit(w - 1)
  }

  /** The w-byte little-endian form of n (htol16, htol32, htol64). */
  function ToLe(n: nat, w: nat): (s: seq<byte>)
    ensures |s| == w
    decreases w
  {
    if w == 0 then [] else [n % 256] + ToLe(n / 256, w - 1)
  }

  /** The value of a little-endian field (ltoh16, ltoh32, ltoh64). */
  function FromLe(s: seq<byte>): (n: nat)
    ensures n < Limit(|s|)
  {
    if s == [] then 0 else s[0] + 256 * FromLe(s[1..])
  }

  lemma {:induction false} LeRoundTrip(n: nat, w: nat)
    requires n < Limit(w)
    ensures FromLe(ToLe(n, w)) == n
    decreases w
  {
    if w > 0 {
      LeRoundTrip(n / 256, w - 1);
      assert ToLe(n, w)[1..] == ToLe(n / 256, w - 1);
    }
  }

  lemma {:induction false} LeOfValue(s: seq<byte>)
    ensures ToLe(FromLe(s), |s|) == s
    decreases |s|
  {
    if s != [] {
      LeOfValue(s[1..]);
      LowByte(s[0], FromLe(s[1..]));
      assert s == [s[0]] + s[1..];
    }
  }

  lemma LowByte(b: byte, n: nat)
    ensures (b + 256 * n) % 256 == b && (b + 256 * n) / 256 == n
  {
  }

  lemma Limits()
    ensures Limit(1) == 0x100 && Limit(2) == 0x1_0000 && Limit(4) == 0x1_0000_0000
    ensures Limit(8) == 0x1_0000_0000_0000_0000
  {
    assert Limit(3) == 0x100_0000;
    assert Limit(5) == 256 * Limit(4);
    assert Limit(6) == 256 * Limit(5);
    assert Limit(7) == 256 * Limit(6);
  }

  /** The low byte comes first. */
  lemma LeBytes(n: nat)
    ensures n < 0x1_0000 ==> ToLe(n, 2) == [n % 0x100, n / 0x100]
    ensures n < 0x1_0000_0000 ==> ToLe(n, 4) == [n % 0x100, n / 0x100 % 0x100, n / 0x1_0000 % 0x100, n / 0x100_0000]
  {
    assert n / 0x100 / 0x100 == n / 0x1_0000 && n / 0x100 / 0x100 / 0x100 == n / 0x100_0000;
    assert ToLe(n / 0x100, 1) == [n / 0x100 % 0x100];
    assert ToLe(n / 0x100_0000, 1) == [n / 0x100_0000 % 0x100];
    assert ToLe(n / 0x1_0000, 2) == [n / 0x1_0000 % 0x100] + ToLe(n / 0x100_0000, 1);
  }

  /** The sequence with b written at off. */
  function Splice(s: seq<byte>, off: nat, b: seq<byte>): (r: seq<byte>)
    requires off + |b| <= |s|
    ensures |r| == |s|
  {
    s[..off] + b + s[off + |b|..]
  }

  lemma SpliceBytes(s: seq<byte>, off: nat, b: seq<byte>)
    requires off + |b| <= |s|
    ensures forall i :: 0 <= i < |s| ==> Splice(s, off, b)[i] == if off <= i < off + |b| then b[i - off] else s[i]
  {
  }

  /** memcpy of b to a + off */
  method WriteAt(a: array<byte>, off: nat, b: seq<byte>)
    requires off + |b| <= a.Length
    modifies a
    ensures a[..] == Splice(old(a[..]), off, b) && a[..off + |b|] == old(a[..off]) + b
  {
    forall k | 0 <= k < |b| { a[off + k] := b[k]; }
  }
}

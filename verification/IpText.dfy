/** ipToLong and longToIp on the four octets of a dotted quad. */
module IpText {
  import opened BitMath

  /** (p0 << 24) | (p1 << 16) | (p2 << 8) | p3 */
  function ToLong(p: seq<nat>): (ip: nat)
    requires |p| == 4
  {
    hide Pow2;
    Or(Or(Or(p[0] * Pow2(24), p[1] * Pow2(16)), p[2] * Pow2(8)), p[3])
  }

  /** (ip >> 24) & 0xFF, (ip >> 16) & 0xFF, (ip >> 8) & 0xFF, ip & 0xFF */
  function ToOctets(ip: nat): (p: seq<nat>) {
    hide Pow2;
    [And(ip / Pow2(24), 0xFF), And(ip / Pow2(16), 0xFF), And(ip / Pow2(8), 0xFF), And(ip, 0xFF)]
  }

  predicate IsQuad(p: seq<nat>) { |p| == 4 && forall i :: 0 <= i < 4 ==> p[i] < 0x100 }

  lemma LongIs(p: seq<nat>)
    requires IsQuad(p)
    ensures ToLong(p) == p[0] * 0x100_0000 + p[1] * 0x1_0000 + p[2] * 0x100 + p[3]
  {
    hide Pow2, Or;
    Pow2Values();
    OrLow(p[0] * Pow2(24), p[1] * Pow2(16), 24);
    OrLow(p[0] * Pow2(24) + p[1] * Pow2(16), p[2] * Pow2(8), 16);
    OrLow(p[0] * Pow2(24) + p[1] * Pow2(16) + p[2] * Pow2(8), p[3], 8);
  }

  lemma OctetsAre(ip: nat)
    ensures ToOctets(ip) == [ip / 0x100_0000 % 0x100, ip / 0x1_0000 % 0x100, ip / 0x100 % 0x100, ip % 0x100]
  {
    hide Pow2, And;
    Pow2Values();
    AndLowMask(ip / Pow2(24), 8);
    AndLowMask(ip / Pow2(16), 8);
    AndLowMask(ip / Pow2(8), 8);
    AndLowMask(ip, 8);
  }

  lemma DigitsOf(a: nat, b: nat, c: nat, d: nat)
    requires a < 0x100 && b < 0x100 && c < 0x100 && d < 0x100
    ensures var n := a * 0x100_0000 + b * 0x1_0000 + c * 0x100 + d;
            n / 0x100_0000 == a && n / 0x1_0000 == a * 0x100 + b && n / 0x100 == a * 0x1_0000 + b * 0x100 + c
            && n % 0x100 == d
  {
  }

  lemma Octets(a: nat, b: nat, c: nat, d: nat)
    requires a < 0x100 && b < 0x100 && c < 0x100 && d < 0x100
    ensures var n := a * 0x100_0000 + b * 0x1_0000 + c * 0x100 + d;
            && n < 0x1_0000_0000
            && [n / 0x100_0000 % 0x100, n / 0x1_0000 % 0x100, n / 0x100 % 0x100, n % 0x100] == [a, b, c, d]
  {
    DigitsOf(a, b, c, d);
    assert (a * 0x1_0000 + b * 0x100 + c) % 0x100 == c;
    assert (a * 0x100 + b) % 0x100 == b;
  }

  lemma FromDigits(n: nat)
    requires n < 0x1_0000_0000
    ensures n == n / 0x100_0000 % 0x100 * 0x100_0000 + n / 0x1_0000 % 0x100 * 0x1_0000 + n / 0x100 % 0x100 * 0x100 + n % 0x100
  {
    var x, y, z := n / 0x100, n / 0x1_0000, n / 0x100_0000;
    assert n == x * 0x100 + n % 0x100;
    assert x == y * 0x100 + x % 0x100;
    assert y == z * 0x100 + y % 0x100;
    assert z < 0x100;
  }

  /** The two conversions are inverse: on every dotted quad ... */
  lemma QuadRoundTrip(p: seq<nat>)
    requires IsQuad(p)
    ensures ToOctets(ToLong(p)) == p && ToLong(p) < 0x1_0000_0000
  {
    hide ToLong, ToOctets;
    LongIs(p);
    OctetsAre(ToLong(p));
    Octets(p[0], p[1], p[2], p[3]);
    assert p == [p[0], p[1], p[2], p[3]];
  }

  /** ... and on every 32-bit address. */
  lemma LongRoundTrip(ip: nat)
    requires ip < 0x1_0000_0000
    ensures IsQuad(ToOctets(ip)) && ToLong(ToOctets(ip)) == ip
  {
    hide ToLong, ToOctets;
    OctetsAre(ip);
    LongIs(ToOctets(ip));
    FromDigits(ip);
  }
}

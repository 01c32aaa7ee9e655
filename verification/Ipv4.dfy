/**
  IPv4 addresses as numbers and as byte strings. The byte-wise loops of pkg/ipam/allocator.go are
  proved against the arithmetic of prefixes (section 3.1 of RFC 4632).
 */
module Ipv4 {
  import opened Bits

  const ADDRESSES := 0x1_0000_0000

  type Addr = a: int | 0 <= a < ADDRESSES

  type Byte = b: int | 0 <= b < 256

  type Prefix = p: int | 0 <= p <= 32

  /** A subnet as net.IPNet stores it: the masked address and the mask, byte by byte. */
  datatype IpNet = IpNet(ip: seq<Byte>, mask: seq<Byte>)

  lemma WordSize()
    ensures Pow2(8) == 256 && Pow2(32) == ADDRESSES
  {
    Pow2Add(8, 8);
    Pow2Add(16, 16);
  }

  /** The number of addresses under a prefix. */
  function Size(p: Prefix): (r: nat)
    ensures 1 <= r <= ADDRESSES
    ensures p <= 31 ==> r % 2 == 0
    ensures p <= 30 ==> r % 4 == 0
  {
    WordSize();
    Pow2Monotone(32 - p, 32);
    Pow2(32 - p)
  }

  /** The first address under the prefix of length p that contains a. */
  function Network(a: Addr, p: Prefix): (r: Addr)
    ensures r <= a < r + Size(p)
    ensures r + Size(p) <= ADDRESSES
    ensures r % Size(p) == 0
  {
    NetworkFits(a, p);
    a - a % Size(p)
  }

  /** The last address under the prefix of length p that contains a. */
  function Broadcast(a: Addr, p: Prefix): Addr {
    Network(a, p) + Size(p) - 1
  }

  lemma NetworkFits(a: Addr, p: Prefix)
    ensures 0 <= a - a % Size(p) <= a
    ensures a - a % Size(p) + Size(p) <= ADDRESSES
    ensures (a - a % Size(p)) % Size(p) == 0
  {
    WordSize();
    Pow2Add(p, 32 - p);
    BlockFits(a, Size(p), Pow2(p));
  }

  lemma BlockFits(a: nat, s: nat, k: nat)
    requires s >= 1 && a < k * s
    ensures 0 <= a - a % s <= a
    ensures a - a % s + s <= k * s
    ensures (a - a % s) % s == 0
  {
    var q := a / s;
    assert a == q * s + a % s;
    DivModUnique(q * s, q, s, 0);
    if q >= k {
      MulLe(k, q, s);
    } else {
      MulLe(q + 1, k, s);
    }
  }

  lemma MulLe(a: int, b: int, s: nat)
    requires a <= b
    ensures a * s <= b * s
  {
    assert (b - a) * s >= 0;
  }

  // ----- byte strings -----

  /** The big-endian number spelled by a byte string. */
  function ToInt(b: seq<Byte>): nat {
    if |b| == 0 then 0 else Join(8, ToInt(b[..|b| - 1]), b[|b| - 1])
  }

  function FromInt(a: Addr): (r: seq<Byte>)
    ensures |r| == 4
  {
    [a / 0x100_0000, a / 0x1_0000 % 256, a / 0x100 % 256, a % 256]
  }

  lemma ToIntStep(b: seq<Byte>, k: nat)
    requires k < |b|
    ensures ToInt(b[..k + 1]) == ToInt(b[..k]) * 256 + b[k]
  {
    WordSize();
    assert b[..k + 1][..k] == b[..k];
    JoinIsShift(8, ToInt(b[..k]), b[k]);
  }

  lemma ToIntFour(b: seq<Byte>)
    requires |b| == 4
    ensures ToInt(b) == b[0] as int * 0x100_0000 + b[1] as int * 0x1_0000 + b[2] as int * 0x100 + b[3]
  {
    ToIntStep(b, 0);
    ToIntStep(b, 1);
    ToIntStep(b, 2);
    ToIntStep(b, 3);
    assert b[..4] == b && b[..0] == [];
  }

  /** Writing an address as bytes and reading it back is the identity. */
  lemma BytesRoundTrip(a: Addr)
    ensures ToInt(FromInt(a)) == a
  {
    ToIntFour(FromInt(a));
    Digits(a);
  }

  lemma Digits(a: nat)
    ensures a == a / 0x100_0000 * 0x100_0000 + a / 0x1_0000 % 256 * 0x1_0000 + a / 0x100 % 256 * 0x100 + a % 256
  {
    var a1, a2, a3 := a / 0x100, a / 0x1_0000, a / 0x100_0000;
    assert a2 == a1 / 256 && a3 == a2 / 256;
  }

  /** The bytes of net.CIDRMask(p, 32). */
  function CidrMask(p: Prefix): (r: seq<Byte>)
    ensures |r| == 4
  {
    WordSize();
    seq(4, i requires 0 <= i < 4 => MaskByte(p, i))
  }

  function MaskByte(p: Prefix, i: nat): Byte {
    WordSize();
    Mask(8, if p <= 8 * i then 0 else if p >= 8 * i + 8 then 8 else p - 8 * i)
  }

  /** The bytes of the mask spell a word with p leading ones. */
  lemma {:induction false} CidrMaskIsMask(p: Prefix, j: nat)
    requires j <= 4
    ensures ToInt(CidrMask(p)[..j]) == Mask(8 * j, if p <= 8 * j then p else 8 * j)
  {
    if j > 0 {
      CidrMaskIsMask(p, j - 1);
      var m := CidrMask(p);
      assert m[..j][..j - 1] == m[..j - 1];
      JoinIsShift(8, ToInt(m[..j - 1]), m[j - 1]);
      MaskConcat(8 * (j - 1), 8, if p <= 8 * j then p else 8 * j);
    }
  }

  /** A byte-wise AND spells the AND of the two words. */
  lemma {:induction false} AndBytes(x: seq<Byte>, m: seq<Byte>, r: seq<Byte>)
    requires |x| == |m| == |r|
    requires forall i :: 0 <= i < |r| ==> r[i] == And(8, x[i], m[i])
    ensures ToInt(r) == And(8 * |r|, ToInt(x), ToInt(m))
  {
    if |r| > 0 {
      var k := |r| - 1;
      AndBytes(x[..k], m[..k], r[..k]);
      AndConcat(8 * k, 8, ToInt(x[..k]), x[k], ToInt(m[..k]), m[k]);
    }
  }

  /** `x | ^m` on one byte. */
  function OrNotByte(x: Byte, m: Byte): Byte {
    WordSize();
    Or(8, x, Not(8, m))
  }

  lemma OrNotStep(n: nat, hx: nat, x: Byte, hm: nat, m: Byte)
    ensures Join(8, Or(n, hx, Not(n, hm)), OrNotByte(x, m)) == Or(n + 8, Join(8, hx, x), Not(n + 8, Join(8, hm, m)))
  {
    NotConcat(n, 8, hm, m);
    OrConcat(n, 8, hx, x, Not(n, hm), Not(8, m));
  }

  /** A byte-wise `ip | ^mask` spells the same operation on the two words. */
  lemma {:induction false} OrNotBytes(x: seq<Byte>, m: seq<Byte>, r: seq<Byte>)
    requires |x| == |m| == |r|
    requires forall i :: 0 <= i < |r| ==> r[i] == OrNotByte(x[i], m[i])
    ensures ToInt(r) == Or(8 * |r|, ToInt(x), Not(8 * |r|, ToInt(m)))
  {
    if |r| > 0 {
      var k := |r| - 1;
      OrNotBytes(x[..k], m[..k], r[..k]);
      OrNotStep(8 * k, ToInt(x[..k]), x[k], ToInt(m[..k]), m[k]);
    }
  }

  /** net.ParseCIDR of an address and a prefix length. */
  function ParsedNet(a: Addr, p: Prefix): (n: IpNet)
    ensures |n.ip| == |n.mask| == 4
  {
    IpNet(FromInt(Network(a, p)), CidrMask(p))
  }

  /** net.IP.Mask: a byte-wise AND. */
  function MaskBytes(x: seq<Byte>, m: seq<Byte>): (r: seq<Byte>)
    requires |x| == |m| == 4
    ensures |r| == 4
  {
    WordSize();
    seq(4, i requires 0 <= i < 4 => And(8, x[i], m[i]))
  }

  /** Masking the bytes of any address with a CIDR mask yields the network under that prefix. */
  lemma MaskBytesIsNetwork(a: Addr, p: Prefix)
    ensures ToInt(MaskBytes(FromInt(a), CidrMask(p))) == Network(a, p)
  {
    var r := MaskBytes(FromInt(a), CidrMask(p));
    AndBytes(FromInt(a), CidrMask(p), r);
    BytesRoundTrip(a);
    WholeMask(p);
    ClearHostBits(a, p);
  }

  lemma ClearHostBits(a: Addr, p: Prefix)
    ensures And(32, a, Mask(32, p)) == Network(a, p)
  {
    WordSize();
    AndMask(32, a, p);
  }

  lemma ToIntInjective(x: seq<Byte>, y: seq<Byte>)
    requires |x| == |y| == 4 && ToInt(x) == ToInt(y)
    ensures x == y
  {
    ToIntFour(x);
    ToIntFour(y);
    DigitsUnique(x[0] as int * 0x1_0000 + x[1] as int * 0x100 + x[2], x[3],
                 y[0] as int * 0x1_0000 + y[1] as int * 0x100 + y[2], y[3]);
    DigitsUnique(x[0] as int * 0x100 + x[1], x[2], y[0] as int * 0x100 + y[1], y[2]);
    DigitsUnique(x[0], x[1], y[0], y[1]);
  }

  lemma DigitsUnique(h: nat, l: Byte, h': nat, l': Byte)
    requires h * 256 + l == h' * 256 + l'
    ensures h == h' && l == l'
  {
  }

  /** allocator.go networkIP: the subnet's address under its own mask. */
  method NetworkIp(n: IpNet, ghost a: Addr, ghost p: Prefix) returns (network: seq<Byte>)
    requires n == ParsedNet(a, p)
    ensures ToInt(network) == Network(a, p)
  {
    network := MaskBytes(n.ip, n.mask);
    MaskBytesIsNetwork(Network(a, p), p);
  }

  lemma WholeMask(p: Prefix)
    ensures ToInt(CidrMask(p)) == Mask(32, p)
  {
    CidrMaskIsMask(p, 4);
    assert CidrMask(p)[..4] == CidrMask(p);
  }

  lemma HostBits(n: IpNet, a: Addr, p: Prefix, r: seq<Byte>)
    requires n == ParsedNet(a, p)
    requires |r| == 4
    requires forall i :: 0 <= i < 4 ==> r[i] == OrNotByte(n.ip[i], n.mask[i])
    ensures ToInt(r) == Broadcast(a, p)
  {
    OrNotBytes(n.ip, n.mask, r);
    BytesRoundTrip(Network(a, p));
    WholeMask(p);
    SetHostBits(Network(a, p), p);
  }

  lemma SetHostBits(x: Addr, p: Prefix)
    requires x % Size(p) == 0
    ensures Or(32, x, Not(32, Mask(32, p))) == x + Size(p) - 1
  {
    WordSize();
    OrNotMask(32, x, p);
  }

  method FillHostBits(ip: seq<Byte>, mask: seq<Byte>) returns (result: seq<Byte>)
    requires |ip| == |mask|
    ensures |result| == |ip| && forall i :: 0 <= i < |ip| ==> result[i] == OrNotByte(ip[i], mask[i])
  {
    var broadcast := new Byte[|ip|];
    for i := 0 to |ip|
      invariant forall k :: 0 <= k < i ==> broadcast[k] == OrNotByte(ip[k], mask[k])
    {
      broadcast[i] := OrNotByte(ip[i], mask[i]);
    }
    result := broadcast[..];
  }

  /** allocator.go broadcastIP: fill a buffer byte by byte with `ip | ^mask`. */
  method BroadcastIp(n: IpNet, ghost a: Addr, ghost p: Prefix) returns (result: seq<Byte>)
    requires n == ParsedNet(a, p)
    ensures |result| == 4
    ensures ToInt(result) == Broadcast(a, p)
  {
    result := FillHostBits(n.ip, n.mask);
    HostBits(n, a, p, result);
  }

  method AppendHostBits(ip: seq<Byte>, mask: seq<Byte>) returns (end: seq<Byte>)
    requires |ip| == |mask|
    ensures |end| == |ip| && forall i :: 0 <= i < |ip| ==> end[i] == OrNotByte(ip[i], mask[i])
  {
    end := [];
    for i := 0 to |ip|
      invariant |end| == i
      invariant forall k :: 0 <= k < i ==> end[k] == OrNotByte(ip[k], mask[k])
    {
      end := end + [OrNotByte(ip[i], mask[i])];
    }
  }

  /** allocator.go lastIP: append the same bytes, then decrement the last one in place. */
  method LastIp(n: IpNet, ghost a: Addr, ghost p: Prefix) returns (end: seq<Byte>)
    requires n == ParsedNet(a, p)
    requires p <= 31
    ensures |end| == 4
    ensures ToInt(end) == Network(a, p) + Size(p) - 2
  {
    end := AppendHostBits(n.ip, n.mask);
    HostBits(n, a, p, end);
    LastByteOdd(end, a, p);
    ghost var before := end;
    end := end[3 := end[3] - 1];
    ToIntFour(before);
    ToIntFour(end);
  }

  /** The broadcast address of a subnet with host bits is odd, so its last byte is not zero. */
  lemma LastByteOdd(b: seq<Byte>, a: Addr, p: Prefix)
    requires |b| == 4 && p <= 31
    requires ToInt(b) == Broadcast(a, p)
    ensures b[3] >= 1
  {
    ToIntFour(b);
    var s, n := Size(p), Network(a, p);
    assert s == 2 * Pow2(31 - p);
    HalfMod(n, Pow2(31 - p));
    assert n % 2 == 0;
  }
}

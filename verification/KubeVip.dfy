/** pkg/controller/ippool/kubevip/kubevip.go: turning a start-end pair into a pool range. */
module KubeVip {
  import opened Common
  import opened Ipv4
  import opened Ranges
  import Bits

  /** Both addresses lie under one prefix of length p. */
  predicate Shared(a: Addr, b: Addr, p: Prefix) {
    Network(a, p) == Network(b, p)
  }

  lemma SharedAsBytes(a: Addr, b: Addr, p: Prefix)
    ensures MaskBytes(FromInt(a), CidrMask(p)) == MaskBytes(FromInt(b), CidrMask(p)) <==> Shared(a, b, p)
  {
    MaskBytesIsNetwork(a, p);
    MaskBytesIsNetwork(b, p);
    if Shared(a, b, p) {
      ToIntInjective(MaskBytes(FromInt(a), CidrMask(p)), MaskBytes(FromInt(b), CidrMask(p)));
    }
  }

  /** The subnet getIPNet picks: the longest prefix of at most 31 bits that both endpoints share. */
  ghost predicate Tightest(start: Addr, end: Addr, p: Prefix) {
    p <= 31 && Shared(start, end, p) && forall q: Prefix :: p < q <= 31 ==> !Shared(start, end, q)
  }

  /** kubevip.go getIPNet: the first hit of a descending search over prefix lengths. */
  method GetIpNet(start: Addr, end: Addr) returns (prefixLen: Prefix)
    ensures Tightest(start, end, prefixLen)
  {
    prefixLen := 0;
    var i := 31;
    while i >= 0
      invariant -1 <= i <= 31
      invariant prefixLen == 0
      invariant forall q: Prefix :: i < q <= 31 ==> !Shared(start, end, q)
    {
      var mask := CidrMask(i);
      SharedAsBytes(start, end, i);
      if MaskBytes(FromInt(start), mask) == MaskBytes(FromInt(end), mask) {
        prefixLen := i;
        return;
      }
      i := i - 1;
    }
    EverythingShared(start, end);
  }

  lemma EverythingShared(a: Addr, b: Addr)
    ensures Shared(a, b, 0)
  {
    WordSize();
    assert Size(0) == ADDRESSES;
  }

  function Converted(start: Addr, end: Addr, p: Prefix): LbRange {
    LbRange(Ip(start), Ip(end), Cidr(Network(start, p), p), Absent)
  }

  function WholeSubnet(ip: Addr, p: Prefix): LbRange {
    LbRange(Absent, Absent, Cidr(Network(ip, p), p), Absent)
  }

  datatype Format = CidrFormat | RangeFormat | OtherFormat

  /** One comma-separated piece of a pool, as each format scans it; the pair is None unless it is two addresses. */
  datatype Piece = Piece(subnet: CidrText, pair: Option<(Addr, Addr)>)

  predicate Readable(x: Piece, format: Format) {
    match format
    case CidrFormat => x.subnet.Cidr?
    case RangeFormat => x.pair.Some?
    case OtherFormat => false
  }

  ghost predicate Stands(x: Piece, format: Format, r: LbRange) {
    match format
    case CidrFormat =>
      x.subnet.Cidr? && r == WholeSubnet(x.subnet.ip, x.subnet.prefix)
    case RangeFormat =>
      x.pair.Some? && var (start, end) := x.pair.value;
      exists p: Prefix :: Tightest(start, end, p) && r == Converted(start, end, p)
    case OtherFormat => false
  }

  /** kubevip.go parseKubevipIPPool: every piece becomes one range in order, or the whole pool is refused. */
  method ParsePool(pieces: seq<Piece>, format: Format) returns (r: Option<seq<LbRange>>)
    ensures r.Some? <==> forall i :: 0 <= i < |pieces| ==> Readable(pieces[i], format)
    ensures r.Some? ==> |r.value| == |pieces| && forall i :: 0 <= i < |pieces| ==> Stands(pieces[i], format, r.value[i])
  {
    var ranges := [];
    for i := 0 to |pieces|
      invariant |ranges| == i
      invariant forall k :: 0 <= k < i ==> Readable(pieces[k], format) && Stands(pieces[k], format, ranges[k])
    {
      var x := pieces[i];
      if !Readable(x, format) {
        return None;
      }
      var range;
      if format.CidrFormat? {
        range := WholeSubnet(x.subnet.ip, x.subnet.prefix);
      } else {
        var (start, end) := x.pair.value;
        var p := GetIpNet(start, end);
        range := Converted(start, end, p);
        assert Tightest(start, end, p);
      }
      ranges := ranges + [range];
    }
    return Some(ranges);
  }

  /**
    MakeRange accepts the converted range exactly when neither endpoint is the first or the last
    address of the chosen subnet, and then offers exactly the addresses between the endpoints.
   */
  lemma ConvertedAccepted(start: Addr, end: Addr, p: Prefix)
    requires p <= 31 && Shared(start, end, p)
    ensures var n, b := Network(start, p), Broadcast(start, p);
            var out := RangeOf(Converted(start, end, p));
            && (out.Ok? <==> start != n && start != b && end != n && end != b)
            && (out.Ok? ==>
                  && out.value.start == (if start <= end then start else end)
                  && out.value.end == (if start <= end then end else start)
                  && out.value.gateway == Some(n + 1)
                  && forall a: Addr :: out.value.Contains(a) <==> start <= a <= end || end <= a <= start)
  {
    OutsideBlock(end, start, p);
    OutsideBlock(Network(start, p), start, p);
  }

  /** A kube-vip range of one address, or of the two addresses of a /31, is never accepted. */
  lemma TinyRangesRefused(start: Addr, end: Addr, p: Prefix)
    requires Tightest(start, end, p)
    ensures start == end ==> p == 31
    ensures p == 31 ==> RangeOf(Converted(start, end, p)).Err?
  {
    if start == end {
      assert Shared(start, end, 31);
    }
    if p == 31 {
      assert Size(31) == 2 by { assert Bits.Pow2(1) == 2; }
      ConvertedAccepted(start, end, p);
    }
  }

  /** A subnet from the cidr format offers, up to /30, exactly the addresses strictly inside it. */
  lemma WholeSubnetOffers(ip: Addr, p: Prefix)
    requires p <= 30
    ensures var out := RangeOf(WholeSubnet(ip, p));
            && out.Ok?
            && forall a: Addr :: out.value.Contains(a) <==> Network(ip, p) < a < Broadcast(ip, p)
  {
    OutsideBlock(Network(ip, p), ip, p);
    FieldsDecideRange(WholeSubnet(ip, p));
  }
}

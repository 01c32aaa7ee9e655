/**
  Address ranges of a pool: pkg/ipam/allocator.go (MakeRange, parseIP, countIP, NewAllocator),
  pkg/ipam/rangeset.go and the range checks of pkg/webhook/ippool/validator.go.
  Text is taken as already scanned: a field is empty, unreadable, or an IPv4 address.
 */
module Ranges {
  import opened Common
  import opened Ipv4

  datatype IpText = Absent | Malformed | Ip(addr: Addr)

  datatype CidrText = BadCidr | Cidr(ip: Addr, prefix: Prefix)

  /** A range as a user writes it into the pool's spec. */
  datatype LbRange = LbRange(start: IpText, end: IpText, subnet: CidrText, gateway: IpText)

  /** A range as the allocator uses it. */
  datatype Range = Range(start: Addr, end: Addr, gateway: Option<Addr>, network: Addr, prefix: Prefix) {
    predicate Contains(a: Addr) {
      start <= a <= end
    }

    predicate Overlaps(r: Range) {
      start <= r.end && r.start <= end
    }

    /** The addresses the allocator may hand out. */
    ghost function Usable(): set<Addr> {
      set a: Addr | start <= a <= end && Some(a) != gateway
    }
  }

  datatype RangeError = EmptyRanges | InvalidCidr | InvalidStart | InvalidEnd | InvalidGateway

  predicate Covers(rs: seq<Range>, a: Addr) {
    exists i :: 0 <= i < |rs| && rs[i].Contains(a)
  }

  // ----- MakeRange -----

  /** An explicit address is accepted when it lies strictly between network and broadcast. */
  predicate Accepted(text: IpText, ip: Addr, p: Prefix) {
    text.Absent? || (text.Ip? && Network(ip, p) < text.addr < Broadcast(ip, p))
  }

  function Choose(text: IpText, default: Option<Addr>): Option<Addr> {
    if text.Ip? then Some(text.addr) else default
  }

  function DefaultStart(ip: Addr, p: Prefix): Addr {
    if p == 32 then ip else Network(ip, p) + 1
  }

  function DefaultEnd(ip: Addr, p: Prefix): Addr {
    if p == 32 then ip else Network(ip, p) + Size(p) - 2
  }

  function DefaultGateway(ip: Addr, p: Prefix): Option<Addr> {
    if p == 32 then None else Some(Network(ip, p) + 1)
  }

  /** The range a spec entry denotes, or the first field that is rejected. */
  function RangeOf(r: LbRange): Result<Range, RangeError> {
    match r.subnet
    case BadCidr => Err(InvalidCidr)
    case Cidr(ip, p) =>
      if !Accepted(r.start, ip, p) then Err(InvalidStart)
      else if !Accepted(r.end, ip, p) then Err(InvalidEnd)
      else if !Accepted(r.gateway, ip, p) then Err(InvalidGateway)
      else
        var s := Choose(r.start, Some(DefaultStart(ip, p))).value;
        var e := Choose(r.end, Some(DefaultEnd(ip, p))).value;
        Ok(Range(if s <= e then s else e, if s <= e then e else s,
                 Choose(r.gateway, DefaultGateway(ip, p)), Network(ip, p), p))
  }

  /** allocator.go parseIP. */
  method ParseIp(text: IpText, n: IpNet, ip: Addr, p: Prefix, default: Option<Addr>)
    returns (r: Result<Option<Addr>, ()>)
    requires n == ParsedNet(ip, p)
    ensures r.Ok? <==> Accepted(text, ip, p)
    ensures r.Ok? ==> r.value == Choose(text, default)
  {
    if text.Absent? {
      return Ok(default);
    }
    if text.Malformed? {
      return Err(());
    }
    // IPNet.Contains: the address has the subnet's prefix
    if Network(text.addr, p) != Network(ip, p) {
      OutsideBlock(text.addr, ip, p);
      return Err(());
    }
    var network := NetworkIp(n, ip, p);
    if text.addr == ToInt(network) {
      return Err(());
    }
    var broadcast := BroadcastIp(n, ip, p);
    if text.addr == ToInt(broadcast) {
      return Err(());
    }
    return Ok(Some(text.addr));
  }

  /** Two addresses have the same network under a prefix exactly when one lies in the other's block. */
  lemma OutsideBlock(a: Addr, ip: Addr, p: Prefix)
    ensures Network(a, p) == Network(ip, p) <==> Network(ip, p) <= a <= Broadcast(ip, p)
  {
    SameBlock(a, ip, Size(p));
  }

  lemma SameBlock(a: nat, b: nat, s: nat)
    requires s >= 1
    ensures a - a % s == b - b % s <==> b - b % s <= a <= b - b % s + s - 1
  {
    var n := b - b % s;
    assert n == b / s * s;
    if n <= a < n + s {
      Bits.DivModUnique(a, b / s, s, a - n);
    }
  }

  /** The defaults: a /32 offers its own address and has no gateway. */
  method Defaults(n: IpNet, ip: Addr, p: Prefix) returns (start: Addr, end: Addr, gateway: Option<Addr>)
    requires n == ParsedNet(ip, p)
    ensures start == DefaultStart(ip, p) && end == DefaultEnd(ip, p) && gateway == DefaultGateway(ip, p)
  {
    start, end, gateway := ip, ip, None;
    if p != 32 {
      var last := LastIp(n, ip, p);
      BytesRoundTrip(Network(ip, p));
      start, end, gateway := ToInt(n.ip) + 1, ToInt(last), Some(ToInt(n.ip) + 1);
    }
  }

  /** allocator.go MakeRange: defaults, three parsed fields and one swap. */
  method MakeRange(r: LbRange) returns (result: Result<Range, RangeError>)
    ensures result == RangeOf(r)
  {
    if r.subnet.BadCidr? {
      return Err(InvalidCidr);
    }
    var ip, p := r.subnet.ip, r.subnet.prefix;
    var n := ParsedNet(ip, p);
    var defaultStart, defaultEnd, defaultGateway := Defaults(n, ip, p);
    var start := ParseIp(r.start, n, ip, p, Some(defaultStart));
    if start.Err? {
      return Err(InvalidStart);
    }
    var end := ParseIp(r.end, n, ip, p, Some(defaultEnd));
    if end.Err? {
      return Err(InvalidEnd);
    }
    var gateway := ParseIp(r.gateway, n, ip, p, defaultGateway);
    if gateway.Err? {
      return Err(InvalidGateway);
    }
    var s, e := start.value.value, end.value.value;
    if s > e {
      s, e := e, s;
    }
    return Ok(Range(s, e, gateway.value, Network(ip, p), p));
  }

  /**
    Up to /30 a range is accepted exactly when every explicit field is strictly inside the subnet,
    and then start, end and gateway all are, in order.
   */
  lemma RangeInsideSubnet(r: LbRange)
    requires r.subnet.Cidr? && r.subnet.prefix <= 30
    ensures var ip, p := r.subnet.ip, r.subnet.prefix;
            var out := RangeOf(r);
            && (out.Ok? <==> Accepted(r.start, ip, p) && Accepted(r.end, ip, p) && Accepted(r.gateway, ip, p))
            && (out.Ok? ==>
                 && Network(ip, p) < out.value.start <= out.value.end < Broadcast(ip, p)
                 && out.value.gateway.Some?
                 && Network(ip, p) < out.value.gateway.value < Broadcast(ip, p))
  {
    assert Size(r.subnet.prefix) >= 4;
  }

  /**
    What the fields of an accepted entry become: an explicit gateway is the range's and is never
    handed out, explicit bounds are the bounds up to order, and a missing field is the default.
   */
  lemma FieldsDecideRange(r: LbRange)
    requires RangeOf(r).Ok?
    ensures var out, ip, p := RangeOf(r).value, r.subnet.ip, r.subnet.prefix;
            && out.network == Network(ip, p) && out.prefix == p && out.start <= out.end
            && (r.gateway.Ip? ==> out.gateway == Some(r.gateway.addr) && r.gateway.addr !in out.Usable())
            && (r.gateway.Absent? ==> out.gateway == if p == 32 then None else Some(Network(ip, p) + 1))
            && (r.start.Ip? && r.end.Ip? ==>
                  || (out.start == r.start.addr && out.end == r.end.addr)
                  || (out.start == r.end.addr && out.end == r.start.addr))
            && (p <= 30 && r.start.Absent? ==> out.start == Network(ip, p) + 1)
            && (p <= 30 && r.end.Absent? ==> out.end == Broadcast(ip, p) - 1)
            && (p <= 30 && r.start.Ip? && r.end.Absent? ==> out.start == r.start.addr)
            && (p <= 30 && r.start.Absent? && r.end.Ip? ==> out.end == r.end.addr)
  {
    if r.subnet.prefix <= 30 {
      assert Size(r.subnet.prefix) >= 4;
    }
  }

  /** A field that is unreadable, or not strictly between network and broadcast. */
  predicate Rejected(text: IpText, ip: Addr, p: Prefix) {
    text.Malformed? || (text.Ip? && (text.addr <= Network(ip, p) || Broadcast(ip, p) <= text.addr))
  }

  /** Which error an entry gets: the subnet first, then start, end and gateway. */
  lemma FirstBadFieldDecides(r: LbRange)
    ensures RangeOf(r) == Err(InvalidCidr) <==> r.subnet.BadCidr?
    ensures r.subnet.Cidr? ==>
              var ip, p := r.subnet.ip, r.subnet.prefix;
              && (RangeOf(r) == Err(InvalidStart) <==> Rejected(r.start, ip, p))
              && (RangeOf(r) == Err(InvalidEnd) <==> !Rejected(r.start, ip, p) && Rejected(r.end, ip, p))
              && (RangeOf(r) == Err(InvalidGateway) <==>
                    !Rejected(r.start, ip, p) && !Rejected(r.end, ip, p) && Rejected(r.gateway, ip, p))
              && (RangeOf(r).Ok? <==>
                    !Rejected(r.start, ip, p) && !Rejected(r.end, ip, p) && !Rejected(r.gateway, ip, p))
  {
  }

  /** The two point-to-point cases: a default /31 also offers the network address, a /32 only itself. */
  lemma PointToPointRanges(ip: Addr)
    ensures RangeOf(LbRange(Absent, Absent, Cidr(ip, 31), Absent))
            == Ok(Range(Network(ip, 31), Network(ip, 31) + 1, Some(Network(ip, 31) + 1), Network(ip, 31), 31))
    ensures RangeOf(LbRange(Absent, Absent, Cidr(ip, 32), Absent)) == Ok(Range(ip, ip, None, ip, 32))
    ensures forall a :: !Accepted(Ip(a), ip, 31) && !Accepted(Ip(a), ip, 32)
  {
    assert Size(31) == 2 by { assert Bits.Pow2(1) == 2; }
    assert Size(32) == 1 by { assert Bits.Pow2(0) == 1; }
  }

  /** Without explicit fields the network and broadcast addresses are offered exactly from /31 on. */
  lemma DefaultOffersNetworkIff(ip: Addr, p: Prefix)
    ensures var out := RangeOf(LbRange(Absent, Absent, Cidr(ip, p), Absent));
            && out.Ok?
            && (out.value.Contains(Network(ip, p)) <==> p >= 31)
            && (out.value.Contains(Broadcast(ip, p)) <==> p >= 31)
  {
    if p <= 30 {
      RangeInsideSubnet(LbRange(Absent, Absent, Cidr(ip, p), Absent));
    } else {
      PointToPointRanges(ip);
      assert Size(31) == 2 by { assert Bits.Pow2(1) == 2; }
      assert Size(32) == 1 by { assert Bits.Pow2(0) == 1; }
    }
  }

  // ----- range sets -----

  /** All entries converted in order, or the first error. */
  function RangesOf(rs: seq<LbRange>): Result<seq<Range>, RangeError> {
    if |rs| == 0 then Ok([])
    else
      var init := RangesOf(rs[..|rs| - 1]);
      if init.Err? then init
      else
        var last := RangeOf(rs[|rs| - 1]);
        if last.Err? then Err(last.error) else Ok(init.value + [last.value])
  }

  lemma {:induction false} RangesOfPrefix(rs: seq<LbRange>, n: nat)
    requires n <= |rs|
    requires RangesOf(rs[..n]).Err?
    ensures RangesOf(rs) == RangesOf(rs[..n])
    decreases |rs|
  {
    if n < |rs| {
      assert rs[..|rs| - 1][..n] == rs[..n];
      RangesOfPrefix(rs[..|rs| - 1], n);
    } else {
      assert rs[..n] == rs;
    }
  }

  lemma {:induction false} RangesOfElements(rs: seq<LbRange>)
    requires RangesOf(rs).Ok?
    ensures |RangesOf(rs).value| == |rs|
    ensures forall i :: 0 <= i < |rs| ==> RangeOf(rs[i]) == Ok(RangesOf(rs).value[i])
  {
    if |rs| > 0 {
      RangesOfElements(rs[..|rs| - 1]);
    }
  }

  /** rangeset.go LBRangesToAllocatorRangeSet: fill a preallocated slice, stop at the first error. */
  method RangeSetOf(ranges: seq<LbRange>) returns (result: Result<seq<Range>, RangeError>)
    ensures result == RangesOf(ranges)
  {
    var blank := Range(0, 0, None, 0, 0);
    var ars := new Range[|ranges|](_ => blank);
    for i := 0 to |ranges|
      invariant RangesOf(ranges[..i]) == Ok(ars[..i])
    {
      var ar := MakeRange(ranges[i]);
      assert ranges[..i + 1][..i] == ranges[..i];
      if ar.Err? {
        RangesOfPrefix(ranges, i + 1);
        return Err(ar.error);
      }
      ars[i] := ar.value;
      assert ars[..i + 1] == ars[..i] + [ar.value];
    }
    assert ranges[..|ranges|] == ranges && ars[..|ranges|] == ars[..];
    return Ok(ars[..]);
  }

  // ----- counting -----

  /** allocator.go countIP. */
  function Count(r: Range): int {
    r.end - r.start + 1 - (if r.gateway.Some? && r.Contains(r.gateway.value) then 1 else 0)
  }

  function Total(rs: seq<Range>): int {
    if |rs| == 0 then 0 else Total(rs[..|rs| - 1]) + Count(rs[|rs| - 1])
  }

  ghost function Interval(lo: Addr, hi: Addr): set<Addr> {
    Range(lo, hi, None, lo, 32).Usable()
  }

  lemma {:induction false} IntervalSize(lo: Addr, hi: Addr)
    requires lo <= hi
    ensures |Interval(lo, hi)| == hi - lo + 1
    decreases hi - lo
  {
    if lo == hi {
      assert Interval(lo, hi) == {lo};
    } else {
      IntervalSize(lo, hi - 1);
      assert Interval(lo, hi) == Interval(lo, hi - 1) + {hi};
    }
  }

  /** countIP is the number of addresses the allocator may hand out. */
  lemma CountIsSize(r: Range)
    requires r.start <= r.end
    ensures Count(r) == |r.Usable()|
  {
    IntervalSize(r.start, r.end);
    if r.gateway.Some? && r.Contains(r.gateway.value) {
      assert r.Usable() == Interval(r.start, r.end) - {r.gateway.value};
    } else {
      assert r.Usable() == Interval(r.start, r.end);
    }
  }

  ghost predicate Disjoint(rs: seq<Range>) {
    forall i, j :: 0 <= i < j < |rs| ==> !rs[i].Overlaps(rs[j])
  }

  ghost predicate Ordered(rs: seq<Range>) {
    forall i :: 0 <= i < |rs| ==> rs[i].start <= rs[i].end
  }

  /** Every address some range may hand out. */
  ghost function UsableOf(rs: seq<Range>): set<Addr> {
    if |rs| == 0 then {} else UsableOf(rs[..|rs| - 1]) + rs[|rs| - 1].Usable()
  }

  lemma {:induction false} UsableOfMeans(rs: seq<Range>, a: Addr)
    ensures a in UsableOf(rs) <==> exists i :: 0 <= i < |rs| && a in rs[i].Usable()
  {
    if |rs| > 0 {
      var k := |rs| - 1;
      UsableOfMeans(rs[..k], a);
      if a in rs[k].Usable() {
        assert 0 <= k < |rs|;
      }
      forall i | 0 <= i < |rs| && a in rs[i].Usable()
        ensures a in UsableOf(rs)
      {
        if i < k {
          assert rs[..k][i] == rs[i];
        }
      }
    }
  }

  /** On disjoint ranges the accumulated total is the number of distinct addresses on offer. */
  lemma {:induction false} TotalIsSize(rs: seq<Range>)
    requires Ordered(rs) && Disjoint(rs)
    ensures Total(rs) == |UsableOf(rs)|
  {
    if |rs| > 0 {
      var k := |rs| - 1;
      TotalIsSize(rs[..k]);
      CountIsSize(rs[k]);
      UsableApart(rs, k);
    }
  }

  lemma UsableApart(rs: seq<Range>, k: nat)
    requires Disjoint(rs) && k < |rs|
    ensures UsableOf(rs[..k]) !! rs[k].Usable()
  {
    forall a | a in UsableOf(rs[..k]) ensures a !in rs[k].Usable() {
      UsableOfMeans(rs[..k], a);
      var i :| 0 <= i < k && a in rs[..k][i].Usable();
      assert !rs[i].Overlaps(rs[k]);
    }
  }

  /** allocator.go NewAllocator: convert every range and accumulate the count. */
  method NewAllocator(ranges: seq<LbRange>) returns (result: Result<(seq<Range>, int), RangeError>)
    ensures |ranges| == 0 ==> result == Err(EmptyRanges)
    ensures |ranges| > 0 && RangesOf(ranges).Err? ==> result == Err(RangesOf(ranges).error)
    ensures |ranges| > 0 && RangesOf(ranges).Ok? ==>
              && result == Ok((RangesOf(ranges).value, Total(RangesOf(ranges).value)))
              && (Disjoint(result.value.0) ==> result.value.1 == |UsableOf(result.value.0)|)
  {
    if |ranges| == 0 {
      return Err(EmptyRanges);
    }
    var rangeSlice, total := [], 0;
    for i := 0 to |ranges|
      invariant RangesOf(ranges[..i]) == Ok(rangeSlice)
      invariant Ordered(rangeSlice)
      invariant total == Total(rangeSlice)
    {
      var element := MakeRange(ranges[i]);
      assert ranges[..i + 1][..i] == ranges[..i];
      if element.Err? {
        RangesOfPrefix(ranges, i + 1);
        return Err(element.error);
      }
      assert (rangeSlice + [element.value])[..|rangeSlice|] == rangeSlice;
      rangeSlice := rangeSlice + [element.value];
      total := total + Count(element.value);
    }
    assert ranges[..|ranges|] == ranges;
    if Disjoint(rangeSlice) {
      TotalIsSize(rangeSlice);
    }
    return Ok((rangeSlice, total));
  }

  // ----- admission of ranges -----

  predicate Clash(rs: seq<Range>, others: seq<Range>) {
    exists i, j :: 0 <= i < |rs| && 0 <= j < |others| && rs[i].Overlaps(others[j])
  }

  /** validator.go checkRange: accepts exactly when nothing overlaps. */
  method CheckRange(r: seq<Range>, others: seq<seq<Range>>) returns (ok: bool)
    ensures ok <==> Disjoint(r) && forall k :: 0 <= k < |others| ==> !Clash(r, others[k])
  {
    for i := 0 to |r|
      invariant forall a, b :: 0 <= a < i && a < b < |r| ==> !r[a].Overlaps(r[b])
    {
      for j := i + 1 to |r|
        invariant forall b :: i < b < j ==> !r[i].Overlaps(r[b])
      {
        if r[i].Overlaps(r[j]) {
          return false;
        }
      }
    }
    for k := 0 to |others|
      invariant forall a :: 0 <= a < k ==> !Clash(r, others[a])
    {
      if Clash(r, others[k]) {
        return false;
      }
    }
    return true;
  }

  /** validator.go checkAllocated: accepts exactly when every booked address is inside the ranges. */
  method CheckAllocated(rs: seq<Range>, booked: map<Addr, string>) returns (ok: bool)
    ensures ok <==> forall a :: a in booked ==> Covers(rs, a)
  {
    var todo := booked.Keys;
    while todo != {}
      invariant todo <= booked.Keys
      invariant forall a :: a in booked && a !in todo ==> Covers(rs, a)
    {
      var a :| a in todo;
      if !Covers(rs, a) {
        return false;
      }
      todo := todo - {a};
    }
    return true;
  }

  /** Ranges overlap exactly when they share an address. */
  lemma OverlapIsShared(r: Range, s: Range)
    requires r.start <= r.end && s.start <= s.end
    ensures r.Overlaps(s) <==> exists a: Addr :: r.Contains(a) && s.Contains(a)
  {
    if r.Overlaps(s) {
      var a: Addr := if r.start <= s.start then s.start else r.start;
      assert r.Contains(a) && s.Contains(a);
    }
  }

  /** Two range sets clash exactly when some address lies in both. */
  lemma ClashIsShared(r: seq<Range>, s: seq<Range>)
    requires Ordered(r) && Ordered(s)
    ensures Clash(r, s) <==> exists a: Addr :: Covers(r, a) && Covers(s, a)
  {
    if Clash(r, s) {
      var i, j :| 0 <= i < |r| && 0 <= j < |s| && r[i].Overlaps(s[j]);
      OverlapIsShared(r[i], s[j]);
      var a: Addr :| r[i].Contains(a) && s[j].Contains(a);
      assert Covers(r, a) && Covers(s, a);
    }
    forall a: Addr | Covers(r, a) && Covers(s, a) ensures Clash(r, s) {
      var i :| 0 <= i < |r| && r[i].Contains(a);
      var j :| 0 <= j < |s| && s[j].Contains(a);
      assert r[i].Overlaps(s[j]);
    }
  }

  /** Ranges are disjoint exactly when no address lies in two of them. */
  lemma DisjointIff(rs: seq<Range>)
    requires Ordered(rs)
    ensures Disjoint(rs) <==>
            forall i, j, a: Addr :: 0 <= i < j < |rs| && rs[i].Contains(a) ==> !rs[j].Contains(a)
  {
    forall i, j | 0 <= i < j < |rs|
      ensures rs[i].Overlaps(rs[j]) <==> exists a: Addr :: rs[i].Contains(a) && rs[j].Contains(a)
    {
      OverlapIsShared(rs[i], rs[j]);
    }
  }
}

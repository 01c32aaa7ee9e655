/**
  The pool webhooks as a whole: pkg/webhook/ippool/mutator.go keeps the global label in step with
  the spec, pkg/webhook/ippool/validator.go admits creates, updates and deletes. Admission sees the
  current pools, in any listing order; pools are created with nothing booked.
 */
module PoolAdmission {
  import opened Common
  import opened Ipv4
  import opened Ranges
  import opened Selection

  datatype Spec = Spec(ranges: seq<LbRange>, selector: Selector)

  /** A stored pool: its spec, its global label and its booked addresses. */
  datatype Entry = Entry(spec: Spec, tag: bool, booked: map<Addr, string>)

  type Pools = map<string, Entry>

  /** getLabelPatch: the stored label is what the spec says, whatever label the request carried. */
  function Labelled(spec: Spec, requested: bool, booked: map<Addr, string>): (e: Entry)
    ensures e.tag == IsGlobal(spec.selector) && e.spec == spec && e.booked == booked
  {
    var isGlobal := IsGlobal(spec.selector);
    if requested == isGlobal then Entry(spec, requested, booked) else Entry(spec, isGlobal, booked)
  }

  function CandidateOf(name: string, e: Entry): Candidate {
    Candidate(name, e.spec.selector, e.tag)
  }

  /** One listing of the pools: every pool once, in some order. */
  ghost predicate Listing(pools: Pools, names: seq<string>) {
    && (forall i, j :: 0 <= i < j < |names| ==> names[i] != names[j])
    && (forall n :: n in names <==> n in pools)
  }

  ghost function Candidates(pools: Pools, names: seq<string>): (r: seq<Candidate>)
    requires forall n :: n in names ==> n in pools
    ensures |r| == |names|
  {
    seq(|names|, i requires 0 <= i < |names| => CandidateOf(names[i], pools[names[i]]))
  }

  // ----- what the validator accepts -----

  ghost predicate RangesAdmitted(pools: Pools, name: string, ranges: seq<LbRange>) {
    && |ranges| > 0 && RangesOf(ranges).Ok? && Disjoint(RangesOf(ranges).value)
    && forall n :: n in pools && n != name ==>
         RangesOf(pools[n].spec.ranges).Ok? && !Clash(RangesOf(ranges).value, RangesOf(pools[n].spec.ranges).value)
  }

  ghost predicate SelectorAdmitted(pools: Pools, name: string, s: Selector) {
    if IsGlobal(s) then forall n :: n in pools && n != name ==> !pools[n].tag
    else
      && SelfDisjoint(s)
      && forall n :: n in pools && n != name && !IsGlobal(pools[n].spec.selector) ==>
           Compatible(s, pools[n].spec.selector)
  }

  ghost predicate BookedInside(ranges: seq<LbRange>, booked: map<Addr, string>)
    requires RangesOf(ranges).Ok?
  {
    forall a :: a in booked ==> Covers(RangesOf(ranges).value, a)
  }

  ghost predicate Admitted(pools: Pools, name: string, e: Entry) {
    && RangesAdmitted(pools, name, e.spec.ranges)
    && BookedInside(e.spec.ranges, e.booked)
    && SelectorAdmitted(pools, name, e.spec.selector)
  }

  predicate HasRanges(pools: Pools, n: string, rs: seq<Range>) {
    n in pools && RangesOf(pools[n].spec.ranges) == Ok(rs)
  }

  /** The range set belongs to some other pool. */
  ghost predicate FromOther(pools: Pools, name: string, rs: seq<Range>) {
    exists n :: n != name && HasRanges(pools, n, rs)
  }

  /** The pool's range set is in the list. */
  ghost predicate Collected(pools: Pools, n: string, sets: seq<seq<Range>>) {
    exists k :: 0 <= k < |sets| && HasRanges(pools, n, sets[k])
  }

  /** validator.go getOtherPoolsRanges. */
  method OtherRanges(pools: Pools, names: seq<string>, name: string) returns (r: Result<seq<seq<Range>>, RangeError>)
    requires Listing(pools, names)
    ensures r.Ok? <==> forall n :: n in pools && n != name ==> RangesOf(pools[n].spec.ranges).Ok?
    ensures r.Ok? ==>
              && (forall k :: 0 <= k < |r.value| ==> FromOther(pools, name, r.value[k]))
              && (forall n :: n in pools && n != name ==> Collected(pools, n, r.value))
  {
    var sets := [];
    for i := 0 to |names|
      invariant forall m :: 0 <= m < i && names[m] != name ==> Collected(pools, names[m], sets)
      invariant forall k :: 0 <= k < |sets| ==> FromOther(pools, name, sets[k])
    {
      assert names[i] in names;
      if names[i] != name {
        var rs := RangeSetOf(pools[names[i]].spec.ranges);
        if rs.Err? {
          return Err(rs.error);
        }
        assert HasRanges(pools, names[i], rs.value);
        CollectMore(pools, sets, rs.value);
        sets := sets + [rs.value];
        assert HasRanges(pools, names[i], sets[|sets| - 1]);
      }
    }
    forall n | n in pools && n != name ensures Collected(pools, n, sets) {
      assert n in names;
    }
    return Ok(sets);
  }

  lemma CollectMore(pools: Pools, sets: seq<seq<Range>>, rs: seq<Range>)
    ensures forall n :: Collected(pools, n, sets) ==> Collected(pools, n, sets + [rs])
  {
    forall n | Collected(pools, n, sets) ensures Collected(pools, n, sets + [rs]) {
      var k :| 0 <= k < |sets| && HasRanges(pools, n, sets[k]);
      assert (sets + [rs])[k] == sets[k];
    }
  }

  lemma OthersClash(pools: Pools, name: string, rs: seq<Range>, others: seq<seq<Range>>)
    requires forall k :: 0 <= k < |others| ==> FromOther(pools, name, others[k])
    requires forall n :: n in pools && n != name ==> Collected(pools, n, others)
    ensures (forall k :: 0 <= k < |others| ==> !Clash(rs, others[k]))
            <==> forall n :: n in pools && n != name ==>
                   RangesOf(pools[n].spec.ranges).Ok? && !Clash(rs, RangesOf(pools[n].spec.ranges).value)
  {
  }

  method CheckRanges(pools: Pools, names: seq<string>, name: string, ranges: seq<LbRange>) returns (ok: bool)
    requires Listing(pools, names)
    ensures ok <==> RangesAdmitted(pools, name, ranges)
  {
    if |ranges| == 0 {
      return false;
    }
    var rs := RangeSetOf(ranges);
    if rs.Err? {
      return false;
    }
    var others := OtherRanges(pools, names, name);
    if others.Err? {
      return false;
    }
    ok := CheckRange(rs.value, others.value);
    OthersClash(pools, name, rs.value, others.value);
  }

  /** validator.go checkSelector with checkGlobalIPPool. */
  method CheckSelector(pools: Pools, names: seq<string>, name: string, e: Entry) returns (ok: bool)
    requires Listing(pools, names)
    ensures ok <==> SelectorAdmitted(pools, name, e.spec.selector)
  {
    if IsGlobal(e.spec.selector) {
      for i := 0 to |names|
        invariant forall m :: 0 <= m < i && names[m] != name ==> !pools[names[m]].tag
      {
        assert names[i] in names;
        if pools[names[i]].tag && names[i] != name {
          return false;
        }
      }
      return true;
    }
    var itself := CheckSelectorItself(e.spec.selector);
    if !itself {
      return false;
    }
    var listed := [];
    for i := 0 to |names|
      invariant |listed| == i
      invariant forall m :: 0 <= m < i ==> names[m] in pools && listed[m] == CandidateOf(names[m], pools[names[m]])
    {
      assert names[i] in names;
      listed := listed + [CandidateOf(names[i], pools[names[i]])];
    }
    ok := CheckSelectorWithOthers(CandidateOf(name, e), listed);
    if ok {
      forall n | n in pools && n != name && !IsGlobal(pools[n].spec.selector)
        ensures Compatible(e.spec.selector, pools[n].spec.selector)
      {
        assert n in names;
        var k :| 0 <= k < |names| && names[k] == n;
        assert listed[k].name == n;
      }
    } else {
      ghost var k :| 0 <= k < |listed| && listed[k].name != name && !IsGlobal(listed[k].selector)
               && !Compatible(e.spec.selector, listed[k].selector);
      assert names[k] in pools;
    }
  }

  /** Create and Update of the validator, after the mutator has set the label. */
  method Admit(pools: Pools, names: seq<string>, name: string, e: Entry) returns (ok: bool)
    requires Listing(pools, names)
    ensures ok <==> Admitted(pools, name, e)
  {
    ok := CheckRanges(pools, names, name, e.spec.ranges);
    if !ok {
      return;
    }
    var rs := RangeSetOf(e.spec.ranges);
    ok := CheckAllocated(rs.value, e.booked);
    if !ok {
      return;
    }
    ok := CheckSelector(pools, names, name, e);
  }

  // ----- runs -----

  datatype Request =
    | CreatePool(name: string, spec: Spec, tag: bool)
    | UpdatePool(name: string, spec: Spec, tag: bool)
    | DeletePool(name: string)
    | BookAddress(name: string, ip: Addr, id: string)
    | FreeAddress(name: string, ip: Addr)

  /** The pools after a request: unchanged when it is rejected. */
  ghost function Handle(pools: Pools, q: Request): Pools {
    match q
    case CreatePool(name, spec, tag) =>
      var e := Labelled(spec, tag, map[]);
      if name !in pools && Admitted(pools, name, e) then pools[name := e] else pools
    case UpdatePool(name, spec, tag) =>
      if name in pools then
        var e := Labelled(spec, tag, pools[name].booked);
        if Admitted(pools, name, e) then pools[name := e] else pools
      else pools
    case DeletePool(name) =>
      if name in pools && |pools[name].booked| == 0 then pools - {name} else pools
    case BookAddress(name, ip, id) =>
      if name in pools && ip !in pools[name].booked then
        var e := pools[name].(booked := pools[name].booked[ip := id]);
        if Admitted(pools, name, e) then pools[name := e] else pools
      else pools
    case FreeAddress(name, ip) =>
      if name in pools then
        var e := pools[name].(booked := pools[name].booked - {ip});
        if Admitted(pools, name, e) then pools[name := e] else pools
      else pools
  }

  ghost function HandleAll(pools: Pools, qs: seq<Request>): Pools
    decreases |qs|
  {
    if |qs| == 0 then pools else HandleAll(Handle(pools, qs[0]), qs[1..])
  }

  ghost predicate EntryOk(e: Entry) {
    && e.tag == IsGlobal(e.spec.selector)
    && RangesOf(e.spec.ranges).Ok? && Disjoint(RangesOf(e.spec.ranges).value)
    && BookedInside(e.spec.ranges, e.booked)
    && (!e.tag ==> SelfDisjoint(e.spec.selector))
  }

  ghost predicate PairOk(d: Entry, e: Entry)
    requires EntryOk(d) && EntryOk(e)
  {
    && !Clash(RangesOf(d.spec.ranges).value, RangesOf(e.spec.ranges).value)
    && !(d.tag && e.tag)
    && (!d.tag && !e.tag ==> Compatible(d.spec.selector, e.spec.selector))
  }

  ghost predicate Inv(pools: Pools) {
    && (forall n :: n in pools ==> EntryOk(pools[n]))
    && (forall m, n :: m in pools && n in pools && m != n ==> PairOk(pools[m], pools[n]))
  }

  lemma ClashSymmetric(r: seq<Range>, s: seq<Range>)
    ensures Clash(r, s) <==> Clash(s, r)
  {
    if i, j :| 0 <= i < |r| && 0 <= j < |s| && r[i].Overlaps(s[j]) {
      assert s[j].Overlaps(r[i]);
    }
    if i, j :| 0 <= i < |s| && 0 <= j < |r| && s[i].Overlaps(r[j]) {
      assert r[j].Overlaps(s[i]);
    }
  }

  lemma PairSymmetric(d: Entry, e: Entry)
    requires EntryOk(d) && EntryOk(e) && PairOk(d, e)
    ensures PairOk(e, d)
  {
    ClashSymmetric(RangesOf(d.spec.ranges).value, RangesOf(e.spec.ranges).value);
    CompatibleSymmetric(d.spec.selector, e.spec.selector);
  }

  /** Storing an admitted entry keeps the invariant. */
  lemma StoreAdmitted(pools: Pools, name: string, e: Entry)
    requires Inv(pools) && Admitted(pools, name, e) && e.tag == IsGlobal(e.spec.selector)
    ensures Inv(pools[name := e])
  {
    assert EntryOk(e);
    forall n | n in pools && n != name ensures PairOk(e, pools[n]) && PairOk(pools[n], e) {
      assert EntryOk(pools[n]);
      assert PairOk(e, pools[n]);
      PairSymmetric(e, pools[n]);
    }
  }

  lemma HandleKeeps(pools: Pools, q: Request)
    requires Inv(pools)
    ensures Inv(Handle(pools, q))
  {
    match q {
      case CreatePool(name, spec, tag) =>
        var e := Labelled(spec, tag, map[]);
        if name !in pools && Admitted(pools, name, e) {
          StoreAdmitted(pools, name, e);
        }
      case UpdatePool(name, spec, tag) =>
        if name in pools {
          var e := Labelled(spec, tag, pools[name].booked);
          if Admitted(pools, name, e) {
            StoreAdmitted(pools, name, e);
          }
        }
      case DeletePool(name) =>
      case BookAddress(name, ip, id) =>
        if name in pools && ip !in pools[name].booked {
          var e := pools[name].(booked := pools[name].booked[ip := id]);
          assert EntryOk(pools[name]);
          if Admitted(pools, name, e) {
            StoreAdmitted(pools, name, e);
          }
        }
      case FreeAddress(name, ip) =>
        if name in pools {
          var e := pools[name].(booked := pools[name].booked - {ip});
          assert EntryOk(pools[name]);
          if Admitted(pools, name, e) {
            StoreAdmitted(pools, name, e);
          }
        }
    }
  }

  lemma {:induction false} RunsKeep(pools: Pools, qs: seq<Request>)
    requires Inv(pools)
    ensures Inv(HandleAll(pools, qs))
    decreases |qs|
  {
    if |qs| > 0 {
      HandleKeeps(pools, qs[0]);
      RunsKeep(Handle(pools, qs[0]), qs[1..]);
    }
  }

  /**
    After any sequence of requests, ranges are disjoint within and across pools, booked addresses
    lie in their own pool's ranges, and so no address is booked in two pools.
   */
  lemma NoAddressInTwoPools(qs: seq<Request>, m: string, n: string, a: Addr)
    requires var pools := HandleAll(map[], qs);
             m in pools && n in pools && a in pools[m].booked && a in pools[n].booked
    ensures Inv(HandleAll(map[], qs)) && m == n
  {
    RunsKeep(map[], qs);
    var pools := HandleAll(map[], qs);
    CommonAddressClashes(pools[m], pools[n], a);
  }

  lemma CommonAddressClashes(d: Entry, e: Entry, a: Addr)
    requires EntryOk(d) && EntryOk(e) && a in d.booked && a in e.booked
    ensures Clash(RangesOf(d.spec.ranges).value, RangesOf(e.spec.ranges).value)
  {
    var r, s := RangesOf(d.spec.ranges).value, RangesOf(e.spec.ranges).value;
    assert Covers(r, a) && Covers(s, a);
    var i :| 0 <= i < |r| && r[i].Contains(a);
    var j :| 0 <= j < |s| && s[j].Contains(a);
    assert r[i].Overlaps(s[j]);
  }

  // ----- selection over admitted pools -----

  lemma ListedConsistent(pools: Pools, names: seq<string>)
    requires Inv(pools) && Listing(pools, names)
    ensures var l := Candidates(pools, names);
            && Consistent(l)
            && (forall c, d :: c in l && d in l && c != d && !c.global && !d.global ==>
                  Compatible(c.selector, d.selector))
  {
    var l := Candidates(pools, names);
    forall c, d | c in l && d in l && c != d
      ensures !(c.global && d.global)
      ensures !c.global && !d.global ==> Compatible(c.selector, d.selector)
    {
      var i :| 0 <= i < |l| && l[i] == c;
      var j :| 0 <= j < |l| && l[j] == d;
      assert names[i] in names && names[j] in names;
      assert PairOk(pools[names[i]], pools[names[j]]);
    }
  }

  lemma SameCandidates(pools: Pools, names: seq<string>, names': seq<string>)
    requires Listing(pools, names) && Listing(pools, names')
    ensures forall c :: c in Candidates(pools, names) <==> c in Candidates(pools, names')
  {
    forall c | c in Candidates(pools, names) ensures c in Candidates(pools, names') {
      OneWay(pools, names, names', c);
    }
    forall c | c in Candidates(pools, names') ensures c in Candidates(pools, names) {
      OneWay(pools, names', names, c);
    }
  }

  lemma OneWay(pools: Pools, names: seq<string>, names': seq<string>, c: Candidate)
    requires Listing(pools, names) && Listing(pools, names') && c in Candidates(pools, names)
    ensures c in Candidates(pools, names')
  {
    var l := Candidates(pools, names);
    var i :| 0 <= i < |l| && l[i] == c;
    assert names[i] in names;
    assert names[i] in names';
    var j :| 0 <= j < |names'| && names'[j] == names[i];
    assert Candidates(pools, names')[j] == c;
  }

  /**
    Strict selection of a plain requirement gives the same answer for every listing of the pools
    reached by any sequence of requests: the one matching non-global pool of highest priority, else
    the one global pool, else none.
   */
  lemma StrictSelectionIsUnambiguous(qs: seq<Request>, names: seq<string>, names': seq<string>, r: Requirement)
    requires Plain(r)
    requires Listing(HandleAll(map[], qs), names) && Listing(HandleAll(map[], qs), names')
    ensures var l := Candidates(HandleAll(map[], qs), names);
            var l' := Candidates(HandleAll(map[], qs), names');
            var out := SelectOf(l, r, false);
            && out == SelectOf(l', r, false)
            && (forall c :: c in l && Eligible(c, r, false) ==>
                  && out.Some? && Eligible(out.value, r, false)
                  && (c == out.value || c.selector.priority < out.value.selector.priority))
            && ((forall c :: c in l ==> !Eligible(c, r, false)) ==>
                  && (out.None? <==> forall c :: c in l ==> !c.global)
                  && (forall c :: c in l && c.global ==> out == Some(c)))
  {
    var pools := HandleAll(map[], qs);
    RunsKeep(map[], qs);
    var l, l' := Candidates(pools, names), Candidates(pools, names');
    ListedConsistent(pools, names);
    PlainStrictIsUntied(l, r);
    SameCandidates(pools, names, names');
    UntiedIsOrderFree(l, l', r, false);
    BestIsBest(l, r, false);
    LastGlobalIsGlobal(l);
    if Best(l, r, false).Some? {
      WinnerIsStrict(l, r, Best(l, r, false).value);
    }
  }

  lemma WinnerIsStrict(l: seq<Candidate>, r: Requirement, b: Candidate)
    requires Plain(r) && b in l && Eligible(b, r, false)
    requires forall c, d :: c in l && d in l && c != d && !c.global && !d.global ==> Compatible(c.selector, d.selector)
    requires forall c :: c in l && Eligible(c, r, false) ==> c.selector.priority <= b.selector.priority
    ensures forall c :: c in l && Eligible(c, r, false) ==> c == b || c.selector.priority < b.selector.priority
  {
    forall c | c in l && Eligible(c, r, false) && c != b
      ensures c.selector.priority != b.selector.priority
    {
      var i :| 0 <= i < |c.selector.scope| && IsMatch(c.selector.scope[i], r, false);
      var j :| 0 <= j < |b.selector.scope| && IsMatch(b.selector.scope[j], r, false);
      assert Overlap(c.selector.scope[i], b.selector.scope[j]);
    }
  }

  // ----- a tie among admitted pools -----

  function Single(c: Candidate, ip: Addr): Spec {
    Spec([LbRange(Absent, Absent, Cidr(ip, 32), Absent)], c.selector)
  }

  function Created(c: Candidate, ip: Addr): Entry {
    Entry(Single(c, ip), false, map[])
  }

  lemma SingleRanges(c: Candidate, ip: Addr)
    ensures RangesOf(Single(c, ip).ranges) == Ok([Range(ip, ip, None, ip, 32)])
  {
    PointToPointRanges(ip);
    var r := LbRange(Absent, Absent, Cidr(ip, 32), Absent);
    assert [r][..0] == [] && RangesOf([]) == Ok([]);
    assert [] + [RangeOf(r).value] == [Range(ip, ip, None, ip, 32)];
    assert RangesOf([r]) == Ok([] + [RangeOf(r).value]);
  }

  lemma FirstCreate(c: Candidate, ip: Addr)
    requires |c.selector.scope| == 1 && !IsGlobal(c.selector)
    ensures Handle(map[], CreatePool(c.name, Single(c, ip), false)) == map[c.name := Created(c, ip)]
  {
    SingleRanges(c, ip);
  }

  lemma SecondCreate(c: Candidate, ip: Addr, d: Candidate, ip': Addr)
    requires |d.selector.scope| == 1 && !IsGlobal(d.selector) && c.name != d.name && ip != ip'
    requires Compatible(d.selector, c.selector)
    ensures var pools := map[c.name := Created(c, ip)];
            Handle(pools, CreatePool(d.name, Single(d, ip'), false)) == pools[d.name := Created(d, ip')]
  {
    SingleRanges(c, ip);
    SingleRanges(d, ip');
  }

  /**
    Two creates that the webhook admits and a requirement with a "*" field for which strict
    selection depends on the listing order: the absence of "*" is needed above.
   */
  lemma StarTieIsAdmitted()
    ensures exists qs, names, names', r ::
              && |qs| == 2 && Listing(HandleAll(map[], qs), names) && Listing(HandleAll(map[], qs), names')
              && SelectOf(Candidates(HandleAll(map[], qs), names), r, false)
                 != SelectOf(Candidates(HandleAll(map[], qs), names'), r, false)
  {
    var c, d, r := OneScope("c", "a"), OneScope("d", "b"), Requirement("net", ALL, "n", "k");
    StarRequirementCanTie();
    CompatibleSymmetric(c.selector, d.selector);
    var q, q' := CreatePool("c", Single(c, 1), false), CreatePool("d", Single(d, 2), false);
    FirstCreate(c, 1);
    SecondCreate(c, 1, d, 2);
    HandleTwo(q, q');
    TwoListings(c, d);
    assert HandleAll(map[], [q, q']) == map["c" := Created(c, 1), "d" := Created(d, 2)];
  }

  lemma TwoListings(c: Candidate, d: Candidate)
    requires c.name == "c" && d.name == "d" && !c.global && !d.global
    ensures var pools := map["c" := Created(c, 1), "d" := Created(d, 2)];
            && Listing(pools, ["c", "d"]) && Listing(pools, ["d", "c"])
            && Candidates(pools, ["c", "d"]) == [c, d] && Candidates(pools, ["d", "c"]) == [d, c]
  {
  }

  lemma HandleTwo(q: Request, q': Request)
    ensures HandleAll(map[], [q, q']) == Handle(Handle(map[], q), q')
  {
    assert [q, q'][1..] == [q'] && [q'][1..] == [];
    assert HandleAll(Handle(map[], q), [q']) == HandleAll(Handle(Handle(map[], q), q'), []);
  }

  // ----- what admission means -----

  /**
    A selector is admitted exactly when: for the global one, no other pool carries the label; for any
    other, no plain requirement is admitted by two of its scopes, and every other non-global pool has
    another priority, or both have 0 and no plain requirement is served by both.
   */
  lemma SelectorAdmittedIff(pools: Pools, name: string, s: Selector)
    ensures IsGlobal(s) ==>
              (SelectorAdmitted(pools, name, s) <==> forall n :: n in pools && n != name ==> !pools[n].tag)
    ensures !IsGlobal(s) ==>
              (SelectorAdmitted(pools, name, s) <==>
               && (forall i, j, r :: 0 <= i < j < |s.scope| && Plain(r) && Admits(s.scope[i], r) ==>
                     !Admits(s.scope[j], r))
               && forall n :: n in pools && n != name && !IsGlobal(pools[n].spec.selector) ==>
                    var t := pools[n].spec.selector;
                    || s.priority != t.priority
                    || (s.priority == 0 && forall r :: Plain(r) ==> !(Serves(s, r) && Serves(t, r))))
  {
    forall n | n in pools && n != name
      ensures var t := pools[n].spec.selector;
              Compatible(s, t) <==>
              || s.priority != t.priority
              || (s.priority == 0 && forall r :: Plain(r) ==> !(Serves(s, r) && Serves(t, r)))
    {
      CompatibleIff(s, pools[n].spec.selector);
    }
  }

  lemma {:induction false} RangesOrdered(rs: seq<LbRange>)
    requires RangesOf(rs).Ok?
    ensures Ordered(RangesOf(rs).value)
  {
    RangesOfElements(rs);
    forall i | 0 <= i < |rs| ensures RangesOf(rs).value[i].start <= RangesOf(rs).value[i].end {
      FieldsDecideRange(rs[i]);
    }
  }

  /** Ranges are admitted exactly when all are valid, none shares an address, and no other pool has one of them. */
  lemma RangesAdmittedIff(pools: Pools, name: string, ranges: seq<LbRange>)
    requires forall n :: n in pools ==> RangesOf(pools[n].spec.ranges).Ok?
    ensures RangesAdmitted(pools, name, ranges) <==>
            && |ranges| > 0 && RangesOf(ranges).Ok? && Disjoint(RangesOf(ranges).value)
            && forall n, a: Addr :: n in pools && n != name && Covers(RangesOf(ranges).value, a) ==>
                 !Covers(RangesOf(pools[n].spec.ranges).value, a)
  {
    if RangesOf(ranges).Ok? {
      var rs := RangesOf(ranges).value;
      RangesOrdered(ranges);
      forall n | n in pools && n != name
        ensures var ss := RangesOf(pools[n].spec.ranges).value;
                Clash(rs, ss) <==> exists a: Addr :: Covers(rs, a) && Covers(ss, a)
      {
        RangesOrdered(pools[n].spec.ranges);
        ClashIsShared(rs, RangesOf(pools[n].spec.ranges).value);
      }
    }
  }
}

/**
  Booking and admission together: as long as pool ranges are set only as the webhook admits them, no
  two LoadBalancers record the same address, whichever pools they got it from.
 */
module CrossPool {
  import opened Common
  import opened Ipv4
  import opened Ranges
  import opened PoolStore
  import opened Allocation
  import opened Booking
  import PA = PoolAdmission

  /** The newest ranges of any two pools do not overlap. */
  ghost predicate PoolsApart(pools: map<string, Log>) {
    forall p, q :: p in pools && q in pools && p != q ==> !Clash(Head(pools[p]).ranges, Head(pools[q]).ranges)
  }

  /** The ranges overlap no other pool's. */
  ghost predicate Fits(pools: map<string, Log>, pool: string, ranges: seq<Range>) {
    forall q :: q in pools && q != pool ==> !Clash(ranges, Head(pools[q]).ranges)
  }

  /** What checkRange demands of an action that sets ranges. */
  ghost predicate RangesFit(w: World, a: Action) {
    (a.AddPool? || a.EditRanges?) ==> Fits(w.pools, a.pool, a.ranges)
  }

  ghost predicate AllRangesFit(w: World, actions: seq<Action>)
    decreases |actions|
  {
    |actions| > 0 ==> RangesFit(w, actions[0]) && AllRangesFit(Next(w, actions[0]), actions[1..])
  }

  /** The validator's view of the pools agrees with the stored ones. */
  ghost predicate Mirrors(entries: PA.Pools, pools: map<string, Log>) {
    && entries.Keys == pools.Keys
    && forall n :: n in pools ==> RangesOf(entries[n].spec.ranges) == Ok(Head(pools[n]).ranges)
  }

  /** An entry the validator admits has ranges that fit. */
  lemma AdmittedFits(entries: PA.Pools, pools: map<string, Log>, name: string, e: PA.Entry)
    requires Mirrors(entries, pools) && PA.Admitted(entries, name, e)
    ensures Fits(pools, name, RangesOf(e.spec.ranges).value)
  {
  }

  // ----- which actions change ranges -----

  lemma GetKeepsRanges(log: Log, id: string, version: nat, pick: Option<Addr>, order: seq<Addr>, fault: Fault)
    requires AllGood(log) && version < |log|
    requires Scanned(log[version].status, id, pick) && Candidates(log[version].ranges, order)
    ensures Head(GetWrite(log, version, DecideGet(log[version], id, pick, order), fault)).ranges == Head(log).ranges
  {
    var d := DecideGet(log[version], id, pick, order);
    assert GoodPool(log[version]);
    if d.Try? {
      TryKeepsGood(log[version], id, pick, order);
    }
  }

  ghost predicate SameRanges(pools: map<string, Log>, pools': map<string, Log>) {
    && pools'.Keys == pools.Keys
    && forall p :: p in pools ==> Head(pools'[p]).ranges == Head(pools[p]).ranges
  }

  lemma AllocateKeepsRanges(w: World, a: Action)
    requires PoolsOk(w.pools) && a.Allocate? && Enabled(w, a)
    ensures SameRanges(w.pools, Next(w, a).pools)
  {
    assert AllGood(w.pools[a.pool]);
    GetKeepsRanges(w.pools[a.pool], a.id, a.version, a.pick, a.order, a.fault);
  }

  lemma WriteKeepsRanges(pools: map<string, Log>, pool: string, log: Log)
    requires pool in pools && Head(log).ranges == Head(pools[pool]).ranges
    ensures SameRanges(pools, pools[pool := log])
  {
  }

  lemma RecordsKeepRanges(w: World, a: Action)
    requires !a.AddPool? && !a.EditRanges? && !a.Allocate? && Enabled(w, a)
    requires !a.ReleaseOld? && !a.ReleaseDuplicate? && !a.Remove? && !a.ReleaseStray?
    ensures SameRanges(w.pools, Next(w, a).pools)
  {
    if a.Refresh? || a.ClearRequest? {
      WriteKeepsRanges(w.pools, a.pool, Next(w, a).pools[a.pool]);
    }
  }

  lemma ReleasesKeepRanges(w: World, a: Action)
    requires Enabled(w, a) && (a.ReleaseOld? || a.ReleaseDuplicate? || a.Remove? || a.ReleaseStray?)
    ensures SameRanges(w.pools, Next(w, a).pools)
  {
    if a.ReleaseOld? {
      var pool := w.lbs[a.id].log[w.lbs[a.id].phase.read].status.value.pool;
      WriteKeepsRanges(w.pools, pool, ReleaseWrite(w.pools[pool], a.version, a.pick, a.fault));
    } else if a.Remove? {
      RemoveKeepsRanges(w, a);
    } else {
      WriteKeepsRanges(w.pools, a.pool, ReleaseWrite(w.pools[a.pool], a.version, a.pick, a.fault));
    }
  }

  lemma RemoveKeepsRanges(w: World, a: Action)
    requires Enabled(w, a) && a.Remove?
    ensures SameRanges(w.pools, Next(w, a).pools)
  {
    var o := Last(w.lbs[a.id].log);
    if o.pooled && o.status.Some? {
      var pool := o.status.value.pool;
      WriteKeepsRanges(w.pools, pool, ReleaseWrite(w.pools[pool], a.version, a.pick, a.fault));
    }
  }

  lemma OthersKeepRanges(w: World, a: Action)
    requires PoolsOk(w.pools) && !a.AddPool? && !a.EditRanges?
    ensures SameRanges(w.pools, Next(w, a).pools)
  {
    if Enabled(w, a) {
      if a.Allocate? {
        AllocateKeepsRanges(w, a);
      } else if a.ReleaseOld? || a.ReleaseDuplicate? || a.Remove? || a.ReleaseStray? {
        ReleasesKeepRanges(w, a);
      } else {
        RecordsKeepRanges(w, a);
      }
    }
  }

  lemma ClashBothWays(r: seq<Range>, s: seq<Range>)
    ensures Clash(r, s) <==> Clash(s, r)
  {
    if i, j :| 0 <= i < |r| && 0 <= j < |s| && r[i].Overlaps(s[j]) {
      assert s[j].Overlaps(r[i]);
    }
    if i, j :| 0 <= i < |s| && 0 <= j < |r| && s[i].Overlaps(r[j]) {
      assert r[j].Overlaps(s[i]);
    }
  }

  lemma SetKeepsApart(pools: map<string, Log>, pool: string, log: Log)
    requires PoolsApart(pools) && Fits(pools, pool, Head(log).ranges)
    ensures PoolsApart(pools[pool := log])
  {
    forall q | q in pools && q != pool ensures !Clash(Head(pools[q]).ranges, Head(log).ranges) {
      ClashBothWays(Head(log).ranges, Head(pools[q]).ranges);
    }
  }

  lemma NextKeepsApart(w: World, a: Action)
    requires PoolsOk(w.pools) && PoolsApart(w.pools) && RangesFit(w, a)
    ensures PoolsApart(Next(w, a).pools)
  {
    if a.AddPool? || a.EditRanges? {
      if Enabled(w, a) {
        SetKeepsApart(w.pools, a.pool, Next(w, a).pools[a.pool]);
      }
    } else {
      OthersKeepRanges(w, a);
    }
  }

  lemma {:induction false} RunsKeepApart(w: World, actions: seq<Action>)
    requires Inv(w) && PoolsApart(w.pools) && ReadsOwnWrites(w, actions) && AllRangesFit(w, actions)
    ensures Inv(RunAll(w, actions)) && PoolsApart(RunAll(w, actions).pools)
    decreases |actions|
  {
    if |actions| > 0 {
      NextKeeps(w, actions[0]);
      NextKeepsApart(w, actions[0]);
      RunsKeepApart(Next(w, actions[0]), actions[1..]);
    }
  }

  lemma OwnedIsCovered(pools: map<string, Log>, id: string, a: Address)
    requires PoolsOk(pools) && Owns(pools, id, a)
    ensures Covers(Head(pools[a.pool]).ranges, a.ip)
  {
    assert AllGood(pools[a.pool]);
    assert GoodPool(Head(pools[a.pool]));
  }

  /** With ranges apart, an address is booked in one pool only. */
  lemma OwnedInOnePool(pools: map<string, Log>, x: string, a: Address, y: string, b: Address)
    requires PoolsOk(pools) && PoolsApart(pools) && Owns(pools, x, a) && Owns(pools, y, b) && a.ip == b.ip
    ensures x == y && a == b
  {
    OwnedIsCovered(pools, x, a);
    OwnedIsCovered(pools, y, b);
    var r, s := Head(pools[a.pool]).ranges, Head(pools[b.pool]).ranges;
    var i :| 0 <= i < |r| && r[i].Contains(a.ip);
    var j :| 0 <= j < |s| && s[j].Contains(a.ip);
    assert r[i].Overlaps(s[j]);
  }

  /**
    From an empty cluster, over every run whose ranges are set as the webhook admits: no two settled
    LoadBalancers record the same address, in the same pool or in different ones.
   */
  lemma NoAddressRecordedTwice(actions: seq<Action>, w: World, x: string, y: string)
    requires ReadsOwnWrites(World(map[], map[]), actions) && AllRangesFit(World(map[], map[]), actions)
    requires w == RunAll(World(map[], map[]), actions)
    requires x in w.lbs && Settled(w.lbs[x].log) && y in w.lbs && Settled(w.lbs[y].log)
    requires Last(w.lbs[x].log).status.value.ip == Last(w.lbs[y].log).status.value.ip
    ensures x == y
  {
    RunsStaySafe(World(map[], map[]), actions);
    RunsKeepApart(World(map[], map[]), actions);
    assert LbSafe(w.pools, x, w.lbs[x]) && LbSafe(w.pools, y, w.lbs[y]);
    OwnedInOnePool(w.pools, x, Last(w.lbs[x].log).status.value, y, Last(w.lbs[y].log).status.value);
  }
}

/**
  Allocator.Get of pkg/ipam/allocator.go on top of the host-local allocator's contract: a requested
  address must be in range and not the gateway; without a request, an id that already holds an
  address in range is a duplicate, and otherwise candidates are tried until one can be reserved.
  One call reads one version of the pool.
 */
module Allocation {
  import opened Common
  import opened Ipv4
  import opened Ranges
  import opened PoolStore

  /** The range the allocator finds for an address. */
  function RangeFor(rs: seq<Range>, a: Addr): (r: Option<Range>)
    ensures r.Some? <==> Covers(rs, a)
    ensures r.Some? ==> r.value in rs && r.value.Contains(a)
  {
    if |rs| == 0 then None
    else if rs[0].Contains(a) then Some(rs[0])
    else
      var rest := RangeFor(rs[1..], a);
      assert Covers(rs, a) <==> Covers(rs[1..], a) by {
        if i :| 0 <= i < |rs| && rs[i].Contains(a) {
          assert rs[1..][i - 1] == rs[i];
        }
      }
      rest
  }

  predicate Requestable(rs: seq<Range>, a: Addr) {
    var r := RangeFor(rs, a);
    r.Some? && r.value.gateway != Some(a)
  }

  /** The candidates of an undirected search: in range, never a gateway, each at most once. */
  ghost predicate Candidates(rs: seq<Range>, order: seq<Addr>) {
    && (forall i :: 0 <= i < |order| ==> Requestable(rs, order[i]))
    && (forall i, j :: 0 <= i < j < |order| ==> order[i] != order[j])
  }

  /** Some address whose history names the id, as a scan of the history meets one. */
  ghost predicate Scanned(s: Status, id: string, pick: Option<Addr>) {
    match pick
    case Some(k) => k in s.history && s.history[k] == id
    case None => forall k :: k in s.history ==> s.history[k] != id
  }

  ghost predicate HoldsInRange(p: Pool, id: string) {
    exists a :: Holds(p.status, id, a) && Covers(p.ranges, a)
  }

  datatype GetDecision =
    | Refused                     // the remembered address cannot be handed out
    | Duplicate                   // the id already holds an address in range
    | Exhausted                   // no candidate is free
    | Granted(ip: Addr)           // already booked for this id, nothing to write
    | Try(ip: Addr, copy: Pool)   // write this copy; granted if the write succeeds

  function RequestAt(p: Pool, id: string, ip: Addr): GetDecision {
    if !Requestable(p.ranges, ip) then Refused
    else
      match DecideReserve(p, id, ip)
      case Taken => Refused
      case Already => Granted(ip)
      case Book(copy) => Try(ip, copy)
  }

  function Search(p: Pool, id: string, order: seq<Addr>): (d: GetDecision)
    ensures !d.Refused? && !d.Duplicate?
  {
    if |order| == 0 then Exhausted
    else
      match DecideReserve(p, id, order[0])
      case Taken => Search(p, id, order[1..])
      case Already => Granted(order[0])
      case Book(copy) => Try(order[0], copy)
  }

  ghost function DecideGet(p: Pool, id: string, pick: Option<Addr>, order: seq<Addr>): GetDecision {
    if pick.Some? then RequestAt(p, id, pick.value)
    else if HoldsInRange(p, id) then Duplicate
    else Search(p, id, order)
  }

  datatype GetError = CacheMiss | NotAvailable | DuplicateAllocation | NoAddresses | StoreFailed

  class Allocator {
    const store: Store

    constructor (store: Store)
      ensures this.store == store
    {
      this.store := store;
    }

    /** Scan the history for the id, then ask for that address or search. */
    method Get(id: string, order: seq<Addr>, view: Option<nat>, fault: Fault)
      returns (r: Result<Addr, GetError>, ghost pick: Option<Addr>)
      requires Readable(store.api.pools, store.poolName, view)
      modifies store.api
      ensures view.None? ==> r == Err(CacheMiss) && store.api.pools == old(store.api.pools)
      ensures view.Some? ==>
                var log := old(store.api.pools)[store.poolName];
                var p := log[view.value];
                && Scanned(p.status, id, pick)
                && match DecideGet(p, id, pick, order)
                   case Refused => r == Err(NotAvailable) && store.api.pools == old(store.api.pools)
                   case Duplicate => r == Err(DuplicateAllocation) && store.api.pools == old(store.api.pools)
                   case Exhausted => r == Err(NoAddresses) && store.api.pools == old(store.api.pools)
                   case Granted(ip) => r == Ok(ip) && store.api.pools == old(store.api.pools)
                   case Try(ip, copy) =>
                     && r == (if WriteFails(log, view.value, fault) then Err(StoreFailed) else Ok(ip))
                     && store.api.pools
                        == old(store.api.pools)[store.poolName := Write(log, view.value, copy, fault)]
    {
      pick := None;
      if view.None? {
        return Err(CacheMiss), None;
      }
      var pool := store.api.pools[store.poolName][view.value];
      var todo := pool.status.history.Keys;
      while todo != {}
        invariant todo <= pool.status.history.Keys
        invariant forall k :: k in pool.status.history && k !in todo ==> pool.status.history[k] != id
        invariant store.api.pools == old(store.api.pools)
      {
        var k :| k in todo;
        if pool.status.history[k] == id {
          pick := Some(k);
          r := GetRequested(id, k, view, fault);
          return;
        }
        todo := todo - {k};
      }
      r := GetAny(id, order, view, fault);
    }

    /** The host-local allocator asked for one address. */
    method GetRequested(id: string, ip: Addr, view: Option<nat>, fault: Fault) returns (r: Result<Addr, GetError>)
      requires view.Some? && Readable(store.api.pools, store.poolName, view)
      modifies store.api
      ensures var log := old(store.api.pools)[store.poolName];
              match RequestAt(log[view.value], id, ip)
              case Granted(a) => r == Ok(a) && store.api.pools == old(store.api.pools)
              case Try(a, copy) =>
                && r == (if WriteFails(log, view.value, fault) then Err(StoreFailed) else Ok(a))
                && store.api.pools
                   == old(store.api.pools)[store.poolName := Write(log, view.value, copy, fault)]
              case _ => r == Err(NotAvailable) && store.api.pools == old(store.api.pools)
    {
      var pool := store.api.pools[store.poolName][view.value];
      if !Requestable(pool.ranges, ip) {
        return Err(NotAvailable);
      }
      var reserved, err := store.Reserve(id, ip, view, fault);
      if err {
        return Err(StoreFailed);
      }
      return if reserved then Ok(ip) else Err(NotAvailable);
    }

    /** The host-local allocator asked for any address. */
    method GetAny(id: string, order: seq<Addr>, view: Option<nat>, fault: Fault) returns (r: Result<Addr, GetError>)
      requires view.Some? && Readable(store.api.pools, store.poolName, view)
      modifies store.api
      ensures var log := old(store.api.pools)[store.poolName];
              var p := log[view.value];
              if HoldsInRange(p, id) then r == Err(DuplicateAllocation) && store.api.pools == old(store.api.pools)
              else
                match Search(p, id, order)
                case Granted(a) => r == Ok(a) && store.api.pools == old(store.api.pools)
                case Try(a, copy) =>
                  && r == (if WriteFails(log, view.value, fault) then Err(StoreFailed) else Ok(a))
                  && store.api.pools
                     == old(store.api.pools)[store.poolName := Write(log, view.value, copy, fault)]
                case _ => r == Err(NoAddresses) && store.api.pools == old(store.api.pools)
    {
      var pool := store.api.pools[store.poolName][view.value];
      var held := store.GetById(id, view);
      for i := 0 to |held|
        invariant forall k :: 0 <= k < i ==> !Covers(pool.ranges, held[k])
      {
        if Covers(pool.ranges, held[i]) {
          assert held[i] in held;
          return Err(DuplicateAllocation);
        }
      }
      assert !HoldsInRange(pool, id);
      var j := 0;
      while j < |order|
        invariant 0 <= j <= |order|
        invariant Search(pool, id, order) == Search(pool, id, order[j..])
        invariant store.api.pools == old(store.api.pools)
      {
        var reserved, err := store.Reserve(id, order[j], view, fault);
        if err {
          return Err(StoreFailed);
        }
        if reserved {
          return Ok(order[j]);
        }
        assert order[j..][1..] == order[j + 1..];
        j := j + 1;
      }
      return Err(NoAddresses);
    }
  }

  // ----- what a decision means on a good pool -----

  /** With unique ids the scan finds the same address whatever order the map yields. */
  lemma ScanIsDeterministic(s: Status, id: string, pick: Option<Addr>, pick': Option<Addr>)
    requires OncePerId(s) && Scanned(s, id, pick) && Scanned(s, id, pick')
    ensures pick == pick'
  {
    if pick.Some? && pick'.Some? {
      assert Occurs(s, id, pick.value) && Occurs(s, id, pick'.value);
    }
  }

  lemma {:induction false} SearchFinds(p: Pool, id: string, order: seq<Addr>)
    requires !HoldsInRange(p, id)
    requires forall i :: 0 <= i < |order| ==> Requestable(p.ranges, order[i])
    ensures var d := Search(p, id, order);
            && (d.Exhausted? || d.Try?)
            && (d.Exhausted? <==> forall a :: a in order ==> a in p.status.booked)
            && (d.Try? ==>
                  && d.ip in order && d.ip !in p.status.booked
                  && d.copy == p.(status := Booked(p.status, id, d.ip)))
    decreases |order|
  {
    if |order| > 0 {
      SearchFinds(p, id, order[1..]);
      assert Requestable(p.ranges, order[0]);
    }
  }

  /**
    A grant always goes through a write of this very call: one snapshot can never show the id
    holding the address it is about to be granted.
   */
  lemma GrantsAreWrites(p: Pool, id: string, pick: Option<Addr>, order: seq<Addr>)
    requires OncePerId(p.status) && Scanned(p.status, id, pick) && Candidates(p.ranges, order)
    ensures !DecideGet(p, id, pick, order).Granted?
  {
    if pick.None? && !HoldsInRange(p, id) {
      SearchFinds(p, id, order);
    }
  }

  /** A written grant keeps every invariant and books exactly the granted address. */
  lemma TryKeepsGood(p: Pool, id: string, pick: Option<Addr>, order: seq<Addr>)
    requires GoodPool(p) && Scanned(p.status, id, pick) && Candidates(p.ranges, order)
    requires DecideGet(p, id, pick, order).Try?
    ensures var d := DecideGet(p, id, pick, order);
            && GoodPool(d.copy)
            && d.ip !in p.status.booked
            && d.copy == p.(status := Booked(p.status, id, d.ip))
            && Requestable(p.ranges, d.ip)
  {
    var d := DecideGet(p, id, pick, order);
    if pick.None? {
      SearchFinds(p, id, order);
    }
    assert Requestable(p.ranges, d.ip);
    BookedAccounted(p.status, id, d.ip);
    forall a | Occurs(p.status, id, a)
      ensures a == d.ip
    {
      if pick.Some? {
        assert Occurs(p.status, id, pick.value);
      }
      assert Holds(p.status, id, a) && Covers(p.ranges, a) ==> HoldsInRange(p, id);
    }
    BookedOnce(p.status, id, d.ip);
  }

  lemma FreedKeepsGood(p: Pool, ip: Addr)
    requires GoodPool(p) && ip in p.status.booked
    ensures GoodPool(p.(status := Freed(p.status, ip)))
  {
    FreedAccounted(p.status, ip);
    FreedOnce(p.status, ip);
  }

  lemma RefreshedKeepsGood(p: Pool, total: int)
    requires GoodPool(p)
    ensures GoodPool(Refreshed(p, total))
  {
    var t := Refreshed(p, total).status;
    assert forall id, a :: Occurs(t, id, a) ==> Occurs(p.status, id, a);
  }

  /** On a good pool an id holds at most one address. */
  lemma HoldsOne(s: Status, id: string, a: Addr, b: Addr)
    requires OncePerId(s) && Holds(s, id, a) && Holds(s, id, b)
    ensures a == b
  {
    assert Occurs(s, id, a) && Occurs(s, id, b);
  }

  // ----- runs of get and release -----

  datatype Call =
    | GetCall(id: string, pick: Option<Addr>, order: seq<Addr>)
    | ReleaseCall(id: string, freed: Addr)
    | RefreshCall(total: int)

  /** One call by any applicant, reading any version, with any fault on its write. */
  datatype CallStep = CallStep(call: Call, version: nat, fault: Fault)

  ghost function CallWrites(p: Pool, c: Call): Option<Pool> {
    match c
    case GetCall(id, pick, order) =>
      if Scanned(p.status, id, pick) && Candidates(p.ranges, order) then
        var d := DecideGet(p, id, pick, order);
        if d.Try? then Some(d.copy) else None
      else None
    case ReleaseCall(id, freed) => Wanted(p, ReleaseByIdOp(id, freed))
    case RefreshCall(total) => Wanted(p, UpdateStatusOp(total))
  }

  ghost function Perform(log: Log, step: CallStep): (r: Log)
    ensures log <= r
  {
    if step.version >= |log| then log
    else
      var wanted := CallWrites(log[step.version], step.call);
      if wanted.None? then log else Write(log, step.version, wanted.value, step.fault)
  }

  ghost function PerformAll(log: Log, steps: seq<CallStep>): Log
    decreases |steps|
  {
    if |steps| == 0 then log else PerformAll(Perform(log, steps[0]), steps[1..])
  }

  ghost predicate AllGood(log: Log) {
    forall v :: 0 <= v < |log| ==> GoodPool(log[v])
  }

  lemma PerformKeepsGood(log: Log, step: CallStep)
    requires AllGood(log)
    ensures AllGood(Perform(log, step))
  {
    if step.version < |log| && CallWrites(log[step.version], step.call).Some? {
      var p := log[step.version];
      assert GoodPool(p);
      match step.call {
        case GetCall(id, pick, order) => TryKeepsGood(p, id, pick, order);
        case ReleaseCall(id, freed) => FreedKeepsGood(p, freed);
        case RefreshCall(total) => RefreshedKeepsGood(p, total);
      }
    }
  }

  /** After any run of gets, releases and status refreshes each id still occurs at most once. */
  lemma {:induction false} RunsKeepIdsUnique(log: Log, steps: seq<CallStep>)
    requires AllGood(log)
    ensures AllGood(PerformAll(log, steps))
    ensures OncePerId(Head(PerformAll(log, steps)).status)
    decreases |steps|
  {
    if |steps| > 0 {
      PerformKeepsGood(log, steps[0]);
      RunsKeepIdsUnique(Perform(log, steps[0]), steps[1..]);
    }
  }

  // ----- the counter promises an address -----

  /** The candidates of a search are all addresses on offer. */
  ghost predicate Covering(p: Pool, order: seq<Addr>) {
    && Ordered(p.ranges) && Disjoint(p.ranges)
    && Candidates(p.ranges, order) && forall a :: a in UsableOf(p.ranges) ==> a in order
  }

  /**
    How many addresses are free. Available is off by what Total is off, and by the bookings that are
    not on offer any more because a gateway was moved onto them.
   */
  ghost function FreeCount(p: Pool): int {
    p.status.available + (Total(p.ranges) - p.status.total) + |p.status.booked.Keys - UsableOf(p.ranges)|
  }

  lemma FreeCountIsSize(p: Pool)
    requires Accounted(p.status) && Ordered(p.ranges) && Disjoint(p.ranges)
    ensures FreeCount(p) == |UsableOf(p.ranges) - p.status.booked.Keys|
  {
    TotalIsSize(p.ranges);
    DifferenceSizes(p.status.booked.Keys, UsableOf(p.ranges));
  }

  lemma DifferenceSizes(s: set<Addr>, t: set<Addr>)
    ensures |t - s| == |t| - |s| + |s - t|
  {
    var common := s * t;
    assert s == common + (s - t) && common !! s - t;
    assert t == common + (t - s) && common !! t - s;
    assert |s| == |common| + |s - t|;
    assert |t| == |common| + |t - s|;
  }

  /**
    Who is granted an address, on every good pool and for every applicant: nobody who holds one; an
    applicant that the pool remembers exactly when its old address may still be requested, whatever
    is free; any other exactly when something is free. With the right Total and no gateway on a
    booked address, what is free is Available.
   */
  lemma AvailableMeansGranted(p: Pool, id: string, pick: Option<Addr>, order: seq<Addr>)
    requires GoodPool(p) && Covering(p, order) && Scanned(p.status, id, pick)
    ensures DecideGet(p, id, pick, order).Try? <==>
            && HoldsNothing(p.status, id)
            && if pick.Some? then Requestable(p.ranges, pick.value) else FreeCount(p) > 0
    ensures p.status.total == Total(p.ranges) && p.status.booked.Keys <= UsableOf(p.ranges) ==>
              FreeCount(p) == p.status.available
  {
    FreeCountIsAvailable(p);
    if !HoldsNothing(p.status, id) {
      var a :| Holds(p.status, id, a);
      HolderIsNotGranted(p, id, a, pick, order);
    } else if pick.Some? {
      RememberedGranted(p, id, pick.value, order);
    } else {
      NewcomerGranted(p, id, order);
    }
  }

  ghost predicate HoldsNothing(s: Status, id: string) {
    forall a :: !Holds(s, id, a)
  }

  lemma FreeCountIsAvailable(p: Pool)
    ensures p.status.total == Total(p.ranges) && p.status.booked.Keys <= UsableOf(p.ranges) ==>
              FreeCount(p) == p.status.available
  {
    if p.status.booked.Keys <= UsableOf(p.ranges) {
      assert p.status.booked.Keys - UsableOf(p.ranges) == {};
    }
  }

  lemma RememberedGranted(p: Pool, id: string, ip: Addr, order: seq<Addr>)
    requires OncePerId(p.status) && ip in p.status.history
    ensures DecideGet(p, id, Some(ip), order).Try? <==> Requestable(p.ranges, ip)
  {
  }

  lemma HolderIsNotGranted(p: Pool, id: string, a: Addr, pick: Option<Addr>, order: seq<Addr>)
    requires GoodPool(p) && Holds(p.status, id, a) && Scanned(p.status, id, pick)
    ensures DecideGet(p, id, pick, order) == Duplicate
  {
    assert Occurs(p.status, id, a);
    assert pick.Some? ==> Occurs(p.status, id, pick.value);
    assert HoldsInRange(p, id);
  }

  lemma NewcomerGranted(p: Pool, id: string, order: seq<Addr>)
    requires GoodPool(p) && Covering(p, order) && HoldsNothing(p.status, id)
    ensures DecideGet(p, id, None, order).Try? <==> FreeCount(p) > 0
  {
    FreeCountIsSize(p);
    SearchFinds(p, id, order);
    var free := UsableOf(p.ranges) - p.status.booked.Keys;
    if FreeCount(p) > 0 {
      var a :| a in free;
      assert a in order;
    } else {
      forall a | a in order ensures a in p.status.booked {
        RequestableIsUsable(p.ranges, a);
        assert a !in free;
      }
    }
  }

  /** The newest version remembers, for this applicant, an address in range that may not be requested: a gateway. */
  ghost predicate Stuck(p: Pool, id: string, ip: Addr) {
    && ip in p.status.history && p.status.history[ip] == id
    && Covers(p.ranges, ip) && !Requestable(p.ranges, ip)
  }

  lemma StuckStays(p: Pool, c: Call, id: string, ip: Addr)
    requires GoodPool(p) && Stuck(p, id, ip) && CallWrites(p, c).Some?
    ensures Stuck(CallWrites(p, c).value, id, ip) && CallWrites(p, c).value.ranges == p.ranges
  {
    if c.GetCall? {
      TryKeepsGood(p, c.id, c.pick, c.order);
    }
  }

  lemma StuckStep(log: Log, step: CallStep, id: string, ip: Addr)
    requires AllGood(log) && Stuck(Head(log), id, ip)
    ensures Stuck(Head(Perform(log, step)), id, ip)
  {
    PerformHead(log, step);
    if CallWrites(Head(log), step.call).Some? {
      assert GoodPool(Head(log));
      StuckStays(Head(log), step.call, id, ip);
    }
  }

  /** A step leaves the newest version, or puts what the call makes of it on top. */
  lemma PerformHead(log: Log, step: CallStep)
    ensures var wanted := CallWrites(Head(log), step.call);
            Head(Perform(log, step)) == Head(log) || (wanted.Some? && Head(Perform(log, step)) == wanted.value)
  {
  }

  /**
    Such an applicant is refused for good: no run of gets, releases and status refreshes, its own
    included, with any stale reads and faults, ever makes the newest version grant it an address.
   */
  lemma {:induction false} StuckForever(log: Log, steps: seq<CallStep>, id: string, ip: Addr, pick: Option<Addr>,
                                        order: seq<Addr>)
    requires AllGood(log) && Stuck(Head(log), id, ip)
    requires Scanned(Head(PerformAll(log, steps)).status, id, pick)
    ensures Stuck(Head(PerformAll(log, steps)), id, ip)
    ensures DecideGet(Head(PerformAll(log, steps)), id, pick, order) == Refused
    decreases |steps|
  {
    if |steps| > 0 {
      PerformKeepsGood(log, steps[0]);
      StuckStep(log, steps[0], id, ip);
      StuckForever(Perform(log, steps[0]), steps[1..], id, ip, pick, order);
    } else {
      assert GoodPool(Head(log));
      ScanIsDeterministic(Head(log).status, id, pick, Some(ip));
    }
  }

  const OLD: Addr := 10

  const LINE := Range(10, 12, Some(OLD), 0, 24)

  /** A pool whose gateway was moved onto an address that an applicant had and gave back. */
  const MOVED := Pool([LINE], None, Status(2, 2, Some(OLD), map[], map[OLD := "x"]))

  lemma MovedIsGood()
    ensures GoodPool(MOVED)
  {
    assert Inside(MOVED);
    assert OncePerId(MOVED.status);
  }

  lemma LineOffers()
    ensures Candidates([LINE], [11, 12]) && Ordered([LINE]) && Disjoint([LINE])
  {
    assert [LINE][0].Contains(11) && [LINE][0].Contains(12);
  }

  lemma LineIsCovered()
    ensures Total([LINE]) == 2 && UsableOf([LINE]) == {11, 12}
  {
    assert [LINE][..0] == [];
    assert Total([LINE]) == Total([]) + Count(LINE);
    assert UsableOf([LINE]) == UsableOf([]) + LINE.Usable();
    assert LINE.Usable() == {11, 12};
  }

  /** Only a held address in range makes a duplicate; one outside the ranges does not stop a search. */
  lemma OutOfRangeIsNoDuplicate(p: Pool, id: string, order: seq<Addr>)
    requires forall a :: Holds(p.status, id, a) ==> forall i :: 0 <= i < |p.ranges| ==> !p.ranges[i].Contains(a)
    ensures !DecideGet(p, id, None, order).Duplicate?
  {
  }

  /** Such an applicant exists, with two addresses free and a newcomer served. */
  lemma StuckApplicant()
    ensures GoodPool(MOVED) && Stuck(MOVED, "x", OLD) && FreeCount(MOVED) == 2
    ensures DecideGet(MOVED, "y", None, [11, 12]).Try?
  {
    MovedIsGood();
    LineOffers();
    LineIsCovered();
    assert MOVED.ranges[0].Contains(OLD);
    AvailableMeansGranted(MOVED, "y", None, [11, 12]);
  }

  /** The same pool with the gateway moved onto an address that is still booked. */
  const TIGHT := Pool([LINE], None, Status(2, 0, Some(11), map[OLD := "x", 11 := "z"], map[]))

  lemma TightIsGood()
    ensures GoodPool(TIGHT)
  {
    assert TIGHT.status.booked.Keys == {OLD, 11};
    assert [LINE][0].Contains(OLD) && [LINE][0].Contains(11);
    assert Inside(TIGHT);
    assert OncePerId(TIGHT.status);
  }

  /** There Available is 0 and a newcomer is served all the same, which leaves Available at -1. */
  lemma ServedBelowZero()
    ensures GoodPool(TIGHT) && TIGHT.status.total == Total(TIGHT.ranges) && TIGHT.status.available == 0
    ensures FreeCount(TIGHT) == 1
    ensures var d := DecideGet(TIGHT, "y", None, [11, 12]);
            d.Try? && GoodPool(d.copy) && d.copy.status.available == -1
  {
    TightIsGood();
    LineOffers();
    LineIsCovered();
    assert TIGHT.status.booked.Keys - UsableOf(TIGHT.ranges) == {OLD};
    AvailableMeansGranted(TIGHT, "y", None, [11, 12]);
    TryKeepsGood(TIGHT, "y", None, [11, 12]);
  }

  lemma RequestableIsUsable(rs: seq<Range>, a: Addr)
    requires Requestable(rs, a)
    ensures a in UsableOf(rs)
  {
    UsableOfMeans(rs, a);
    var r := RangeFor(rs, a).value;
    var i :| 0 <= i < |rs| && rs[i] == r;
    assert a in rs[i].Usable();
  }
}

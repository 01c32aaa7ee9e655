/**
  The booking store of pkg/ipam/store/store.go over a version-guarded API server.

  The server keeps, for every pool, the log of all versions ever stored; the informer cache may
  show any of them. The store's own locks do nothing, so the version check on Update is the only
  mutual exclusion. A nil map of the source is an empty map here: no branch tells them apart.
 */
module PoolStore {
  import opened Common
  import opened Ipv4
  import opened Ranges

  /** IPPoolStatus; `booked` is Allocated and `history` is AllocatedHistory. */
  datatype Status = Status(
    total: int,
    available: int,
    last: Option<Addr>,
    booked: map<Addr, string>,
    history: map<Addr, string>)

  /** An IPPool: its spec ranges, its manual-release annotation and its status. */
  datatype Pool = Pool(ranges: seq<Range>, request: Option<string>, status: Status)

  /** Every version of one pool, oldest first; never empty. */
  type Log = l: seq<Pool> | |l| > 0 witness [Pool([], None, Status(0, 0, None, map[], map[]))]

  function Head(log: Log): Pool {
    log[|log| - 1]
  }

  // ----- the two edits -----

  function Booked(s: Status, id: string, ip: Addr): Status {
    s.(booked := s.booked[ip := id], history := s.history - {ip}, last := Some(ip), available := s.available - 1)
  }

  function Freed(s: Status, ip: Addr): Status
    requires ip in s.booked
  {
    s.(history := s.history[ip := s.booked[ip]], booked := s.booked - {ip}, available := s.available + 1)
  }

  predicate Holds(s: Status, id: string, ip: Addr) {
    ip in s.booked && s.booked[ip] == id
  }

  /** What a booking and a release change, field by field, and what they leave. */
  lemma EditsAreLocal(s: Status, id: string, ip: Addr, other: Addr)
    ensures var t := Booked(s, id, ip);
            && Holds(t, id, ip) && ip !in t.history && t.last == Some(ip)
            && t.available == s.available - 1 && t.total == s.total
            && (other != ip ==>
                  && (other in t.booked <==> other in s.booked)
                  && (other in s.booked ==> t.booked[other] == s.booked[other])
                  && (other in t.history <==> other in s.history)
                  && (other in s.history ==> t.history[other] == s.history[other]))
    ensures ip in s.booked ==>
              var t := Freed(s, ip);
              && ip !in t.booked && ip in t.history && t.history[ip] == s.booked[ip]
              && t.last == s.last && t.available == s.available + 1 && t.total == s.total
              && (other != ip ==>
                    && (other in t.booked <==> other in s.booked)
                    && (other in s.booked ==> t.booked[other] == s.booked[other])
                    && (other in t.history <==> other in s.history)
                    && (other in s.history ==> t.history[other] == s.history[other]))
  {
  }

  // ----- invariants of a status -----

  /** The counter adds up and no address is both booked and remembered as free. */
  predicate Accounted(s: Status) {
    && s.available + |s.booked| == s.total
    && s.booked.Keys !! s.history.Keys
  }

  ghost predicate Occurs(s: Status, id: string, ip: Addr) {
    || (ip in s.booked && s.booked[ip] == id)
    || (ip in s.history && s.history[ip] == id)
  }

  /** Each applicant occurs at most once in Allocated and AllocatedHistory together. */
  ghost predicate OncePerId(s: Status) {
    && s.booked.Keys !! s.history.Keys
    && forall id, a, b :: Occurs(s, id, a) && Occurs(s, id, b) ==> a == b
  }

  /** Every booked address lies in the pool's own ranges. */
  ghost predicate Inside(p: Pool) {
    forall a :: a in p.status.booked ==> Covers(p.ranges, a)
  }

  ghost predicate GoodPool(p: Pool) {
    Accounted(p.status) && OncePerId(p.status) && Inside(p)
  }

  lemma BookedAccounted(s: Status, id: string, ip: Addr)
    requires Accounted(s) && ip !in s.booked
    ensures Accounted(Booked(s, id, ip))
  {
    assert Booked(s, id, ip).booked.Keys == s.booked.Keys + {ip};
  }

  lemma FreedAccounted(s: Status, ip: Addr)
    requires Accounted(s) && ip in s.booked
    ensures Accounted(Freed(s, ip))
  {
    assert Freed(s, ip).booked.Keys == s.booked.Keys - {ip};
  }

  /** Booking keeps ids unique when the id was nowhere, or only in the history of that very address. */
  lemma BookedOnce(s: Status, id: string, ip: Addr)
    requires OncePerId(s) && ip !in s.booked
    requires forall a :: Occurs(s, id, a) ==> a == ip
    ensures OncePerId(Booked(s, id, ip))
  {
    var t := Booked(s, id, ip);
    forall x, a, b | Occurs(t, x, a) && Occurs(t, x, b)
      ensures a == b
    {
      if x == id {
        assert a == ip || Occurs(s, id, a);
        assert b == ip || Occurs(s, id, b);
      } else {
        assert Occurs(s, x, a) && Occurs(s, x, b);
      }
    }
  }

  lemma FreedOnce(s: Status, ip: Addr)
    requires OncePerId(s) && ip in s.booked
    ensures OncePerId(Freed(s, ip))
    ensures forall id, a :: Occurs(Freed(s, ip), id, a) <==> Occurs(s, id, a)
  {
    assert forall id, a :: Occurs(Freed(s, ip), id, a) <==> Occurs(s, id, a);
  }

  // ----- version-guarded writes -----

  predicate WriteFails(log: Log, version: nat, fault: Fault) {
    fault != NoFault || version != |log| - 1
  }

  function Write(log: Log, version: nat, copy: Pool, fault: Fault): (r: Log)
    ensures log <= r
  {
    if fault != Dropped && version == |log| - 1 then log + [copy] else log
  }

  /** What Reserve decides from the version it reads. */
  datatype ReserveDecision = Taken | Already | Book(copy: Pool)

  function DecideReserve(p: Pool, id: string, ip: Addr): ReserveDecision {
    if ip in p.status.booked then
      if p.status.booked[ip] != id then Taken else Already
    else
      Book(p.(status := Booked(p.status, id, ip)))
  }

  /** The API server: all pools by name. */
  class ApiServer {
    var pools: map<string, Log>

    constructor (pools: map<string, Log>)
      ensures this.pools == pools
    {
      this.pools := pools;
    }

    /** IPPoolClient.Update of a copy taken from the given version. */
    method Update(name: string, version: nat, copy: Pool, fault: Fault) returns (err: bool)
      modifies this
      ensures name !in old(pools) ==> err && pools == old(pools)
      ensures name in old(pools) ==>
                && err == WriteFails(old(pools)[name], version, fault)
                && pools == old(pools)[name := Write(old(pools)[name], version, copy, fault)]
    {
      if name !in pools {
        return true;
      }
      err := WriteFails(pools[name], version, fault);
      pools := pools[name := Write(pools[name], version, copy, fault)];
    }
  }

  /** What the informer cache answers for a pool: an error, or one version of its log. */
  predicate Readable(pools: map<string, Log>, name: string, view: Option<nat>) {
    view.Some? ==> name in pools && view.value < |pools[name]|
  }

  class Store {
    const poolName: string
    const api: ApiServer

    constructor (poolName: string, api: ApiServer)
      ensures this.poolName == poolName && this.api == api
    {
      this.poolName, this.api := poolName, api;
    }

    method Reserve(id: string, ip: Addr, view: Option<nat>, fault: Fault) returns (ok: bool, err: bool)
      requires Readable(api.pools, poolName, view)
      modifies api
      ensures view.None? ==> !ok && err && api.pools == old(api.pools)
      ensures view.Some? ==>
                var log := old(api.pools)[poolName];
                match DecideReserve(log[view.value], id, ip)
                case Taken => !ok && !err && api.pools == old(api.pools)
                case Already => ok && !err && api.pools == old(api.pools)
                case Book(copy) =>
                  && err == WriteFails(log, view.value, fault)
                  && ok == !err
                  && api.pools == old(api.pools)[poolName := Write(log, view.value, copy, fault)]
    {
      if view.None? {
        return false, true;
      }
      var pool := api.pools[poolName][view.value];
      if ip in pool.status.booked {
        return pool.status.booked[ip] == id, false;
      }
      var copy := pool.status;
      copy := copy.(history := copy.history - {ip});
      copy := copy.(booked := copy.booked[ip := id]);
      copy := copy.(last := Some(ip));
      copy := copy.(available := copy.available - 1);
      err := api.Update(poolName, view.value, pool.(status := copy), fault);
      ok := !err;
    }

    /** LastReservedIP: the address of the last booking the version shows. */
    method LastReservedIp(view: Option<nat>) returns (ip: Option<Addr>, err: bool)
      requires Readable(api.pools, poolName, view)
      ensures err == view.None?
      ensures view.Some? ==> ip == api.pools[poolName][view.value].status.last
    {
      if view.None? {
        return None, true;
      }
      return api.pools[poolName][view.value].status.last, false;
    }

    method Release(ip: Addr, view: Option<nat>, fault: Fault) returns (err: bool)
      requires Readable(api.pools, poolName, view)
      modifies api
      ensures view.None? ==> err && api.pools == old(api.pools)
      ensures view.Some? ==>
                var log := old(api.pools)[poolName];
                var p := log[view.value];
                if ip in p.status.booked then
                  && err == WriteFails(log, view.value, fault)
                  && api.pools
                     == old(api.pools)[poolName := Write(log, view.value, p.(status := Freed(p.status, ip)), fault)]
                else !err && api.pools == old(api.pools)
    {
      if view.None? {
        return true;
      }
      var pool := api.pools[poolName][view.value];
      err := false;
      if ip in pool.status.booked {
        var copy := pool.status;
        copy := copy.(history := copy.history[ip := pool.status.booked[ip]]);
        copy := copy.(booked := copy.booked - {ip});
        copy := copy.(available := copy.available + 1);
        err := api.Update(poolName, view.value, pool.(status := copy), fault);
      }
    }

    /** Frees one address of the id, the first that the map iteration meets. */
    method ReleaseById(id: string, view: Option<nat>, fault: Fault) returns (err: bool, ghost freed: Option<Addr>)
      requires Readable(api.pools, poolName, view)
      modifies api
      ensures view.None? ==> err && freed.None? && api.pools == old(api.pools)
      ensures view.Some? ==>
                var log := old(api.pools)[poolName];
                var p := log[view.value];
                if freed.Some? then
                  && Holds(p.status, id, freed.value)
                  && err == WriteFails(log, view.value, fault)
                  && api.pools
                     == old(api.pools)[poolName :=
                          Write(log, view.value, p.(status := Freed(p.status, freed.value)), fault)]
                else
                  && (forall a :: !Holds(p.status, id, a))
                  && !err && api.pools == old(api.pools)
    {
      freed := None;
      if view.None? {
        return true, None;
      }
      var pool := api.pools[poolName][view.value];
      var copy, found := pool.status, false;
      var todo := pool.status.booked.Keys;
      while todo != {}
        invariant todo <= pool.status.booked.Keys
        invariant !found && copy == pool.status && freed.None?
        invariant forall a :: a in pool.status.booked && a !in todo ==> pool.status.booked[a] != id
        invariant api.pools == old(api.pools)
      {
        var ip :| ip in todo;
        if pool.status.booked[ip] == id {
          copy := copy.(history := copy.history[ip := id]);
          copy := copy.(booked := copy.booked - {ip});
          copy := copy.(available := copy.available + 1);
          found, freed := true, Some(ip);
          break;
        }
        todo := todo - {ip};
      }
      err := false;
      if found {
        err := api.Update(poolName, view.value, pool.(status := copy), fault);
      }
    }

    method GetById(id: string, view: Option<nat>) returns (ips: seq<Addr>)
      requires Readable(api.pools, poolName, view)
      ensures view.None? ==> ips == []
      ensures view.Some? ==>
                forall a :: a in ips <==> Holds(api.pools[poolName][view.value].status, id, a)
    {
      ips := [];
      if view.None? {
        return;
      }
      var status := api.pools[poolName][view.value].status;
      var todo := status.booked.Keys;
      while todo != {}
        invariant todo <= status.booked.Keys
        invariant forall a :: a in ips <==> a !in todo && Holds(status, id, a)
      {
        var ip :| ip in todo;
        if status.booked[ip] == id {
          ips := ips + [ip];
        }
        todo := todo - {ip};
      }
    }
  }

  // ----- runs of store writes -----

  /** correctAllocatedHistory of pkg/controller/ippool/controller.go: forget addresses outside the ranges. */
  function CorrectedHistory(p: Pool): map<Addr, string> {
    map a | a in p.status.history && Covers(p.ranges, a) :: p.status.history[a]
  }

  /** updateStatus of pkg/controller/ippool/controller.go. */
  function Refreshed(p: Pool, total: int): Pool {
    p.(status := p.status.(
       available := total - |p.status.booked|,
       total := total,
       history := CorrectedHistory(p)))
  }

  datatype StoreOp =
    | ReserveOp(id: string, ip: Addr)
    | ReleaseOp(ip: Addr)
    | ReleaseByIdOp(id: string, pick: Addr)  // pick: the address the map iteration meets first
    | UpdateStatusOp(total: int)
    | ClearRequestOp

  /** What one operation writes, computed from the version it read. */
  function Wanted(p: Pool, op: StoreOp): Option<Pool> {
    match op
    case ReserveOp(id, ip) =>
      var d := DecideReserve(p, id, ip);
      if d.Book? then Some(d.copy) else None
    case ReleaseOp(ip) =>
      if ip in p.status.booked then Some(p.(status := Freed(p.status, ip))) else None
    case ReleaseByIdOp(id, pick) =>
      if Holds(p.status, id, pick) then Some(p.(status := Freed(p.status, pick))) else None
    case UpdateStatusOp(total) => Some(Refreshed(p, total))
    case ClearRequestOp => Some(p.(request := None))
  }

  /** One operation reading version `version`, with any fault on its write. */
  datatype StoreStep = StoreStep(op: StoreOp, version: nat, fault: Fault)

  function Apply(log: Log, step: StoreStep): (r: Log)
    ensures log <= r
  {
    if step.version >= |log| then log
    else
      var wanted := Wanted(log[step.version], step.op);
      if wanted.None? then log else Write(log, step.version, wanted.value, step.fault)
  }

  function Run(log: Log, steps: seq<StoreStep>): Log
    decreases |steps|
  {
    if |steps| == 0 then log else Run(Apply(log, steps[0]), steps[1..])
  }

  ghost predicate AllAccounted(log: Log) {
    forall v :: 0 <= v < |log| ==> Accounted(log[v].status)
  }

  lemma WantedAccounted(p: Pool, op: StoreOp)
    requires Accounted(p.status) && Wanted(p, op).Some?
    ensures Accounted(Wanted(p, op).value.status)
  {
    match op {
      case ReserveOp(id, ip) => BookedAccounted(p.status, id, ip);
      case ReleaseOp(ip) => FreedAccounted(p.status, ip);
      case ReleaseByIdOp(id, pick) => FreedAccounted(p.status, pick);
      case UpdateStatusOp(total) =>
      case ClearRequestOp =>
    }
  }

  /** Conservation: in every run, with any stale reads and any faults, every stored version adds up. */
  lemma {:induction false} RunsStayAccounted(log: Log, steps: seq<StoreStep>)
    requires AllAccounted(log)
    ensures AllAccounted(Run(log, steps))
    decreases |steps|
  {
    if |steps| > 0 {
      var step := steps[0];
      if step.version < |log| && Wanted(log[step.version], step.op).Some? {
        WantedAccounted(log[step.version], step.op);
      }
      RunsStayAccounted(Apply(log, step), steps[1..]);
    }
  }
}

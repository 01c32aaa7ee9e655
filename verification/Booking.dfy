/**
  The two-object booking protocol of pkg/controller/loadbalancer/controller.go.

  A reconcile books an address in a pool first and records it in the LoadBalancer's status second.
  Both objects live on the API server as logs of versions, every write is version-guarded, every
  read of a pool may show any version, every write may be lost or have its answer lost, and the
  controller may crash between any two steps. Reconciles of one key never overlap.
 */
module Booking {
  import opened Common
  import opened Ipv4
  import opened Ranges
  import opened PoolStore
  import opened Allocation

  datatype Address = Address(pool: string, ip: Addr)

  /** A LoadBalancer: spec.ipPool (None when empty), status.allocatedAddress, deletion mark, spec.ipam == pool. */
  datatype LbObject = LbObject(spec: Option<string>, status: Option<Address>, deleting: bool, pooled: bool)

  type LbLog = l: seq<LbObject> | |l| > 0 witness [LbObject(None, None, false, true)]

  /** Where the controller stands with one LoadBalancer; `read` is the version the reconcile works on. */
  datatype Phase =
    | Idle
    | Reading(read: nat)
    | Releasing(read: nat)                            // met the duplicate error
    | Recording(read: nat, address: Option<Address>)  // about to write the status

  datatype Lb = Lb(log: LbLog, phase: Phase)

  datatype World = World(pools: map<string, Log>, lbs: map<string, Lb>)

  function Last(log: LbLog): LbObject {
    log[|log| - 1]
  }

  /** The version is no older than the last write that changed the status. */
  ghost predicate Fresh(log: LbLog, read: nat) {
    read < |log| && forall v :: read <= v < |log| ==> log[v].status == log[read].status
  }

  /** lb.Spec.IPPool is set and differs from the pool the status names (controller.go:270). */
  predicate PoolChanged(o: LbObject) {
    o.spec.Some? && o.status.Some? && o.spec.value != o.status.value.pool
  }

  /** The address ReleaseByID meets, None when the id holds nothing. */
  ghost predicate Held(s: Status, id: string, pick: Option<Addr>) {
    match pick
    case Some(a) => Holds(s, id, a)
    case None => forall a :: !Holds(s, id, a)
  }

  function ReleaseWrite(log: Log, version: nat, pick: Option<Addr>, fault: Fault): (r: Log)
    requires version < |log|
    requires pick.Some? ==> pick.value in log[version].status.booked
    ensures log <= r
  {
    if pick.None? then log
    else Write(log, version, log[version].(status := Freed(log[version].status, pick.value)), fault)
  }

  predicate ReleaseFails(log: Log, version: nat, pick: Option<Addr>, fault: Fault) {
    pick.Some? && WriteFails(log, version, fault)
  }

  // ----- actions -----

  datatype Action =
    // LoadBalancer objects
    | Create(id: string, spec: Option<string>, pooled: bool)
    | Edit(id: string, spec: Option<string>)
    | MarkDeleted(id: string)
    // the LoadBalancer controller
    | Start(id: string, read: nat)
    | ReleaseOld(id: string, version: nat, pick: Option<Addr>, fault: Fault)
    | Allocate(id: string, pool: string, version: nat, pick: Option<Addr>, order: seq<Addr>, fault: Fault)
    | ReleaseDuplicate(id: string, pool: string, version: nat, pick: Option<Addr>, fault: Fault)
    | Record(id: string, fault: Fault)
    | Crash(id: string)
    | Remove(id: string, version: nat, pick: Option<Addr>, fault: Fault, held: bool)  // held: a later step failed
    // pools and their controller
    | AddPool(pool: string, ranges: seq<Range>)
    | EditRanges(pool: string, ranges: seq<Range>)
    | Refresh(pool: string, version: nat, total: int, fault: Fault)
    | ClearRequest(pool: string, version: nat, fault: Fault)
    | ReleaseStray(id: string, pool: string, version: nat, pick: Option<Addr>, fault: Fault)

  ghost predicate CanRead(w: World, pool: string, version: nat) {
    pool in w.pools && version < |w.pools[pool]|
  }

  ghost predicate CanRelease(w: World, id: string, pool: string, version: nat, pick: Option<Addr>) {
    CanRead(w, pool, version) && Held(w.pools[pool][version].status, id, pick)
  }

  /** The pool a reconcile uses: the one the spec names, or any pool the selector may return. */
  predicate PoolFor(o: LbObject, pool: string) {
    o.spec.Some? ==> o.spec.value == pool
  }

  ghost predicate Enabled(w: World, a: Action) {
    match a
    case Create(id, spec, pooled) => id !in w.lbs
    case Edit(id, spec) => id in w.lbs
    case MarkDeleted(id) => id in w.lbs
    case Start(id, read) =>
      && id in w.lbs && w.lbs[id].phase.Idle?
      && read < |w.lbs[id].log| && !w.lbs[id].log[read].deleting
    case ReleaseOld(id, version, pick, fault) =>
      && id in w.lbs && w.lbs[id].phase.Reading? && w.lbs[id].phase.read < |w.lbs[id].log|
      && var o := w.lbs[id].log[w.lbs[id].phase.read];
      && PoolChanged(o) && CanRelease(w, id, o.status.value.pool, version, pick)
    case Allocate(id, pool, version, pick, order, fault) =>
      && id in w.lbs && w.lbs[id].phase.Reading? && w.lbs[id].phase.read < |w.lbs[id].log|
      && var o := w.lbs[id].log[w.lbs[id].phase.read];
      && o.status.None? && PoolFor(o, pool) && CanRead(w, pool, version)
      && Scanned(w.pools[pool][version].status, id, pick)
      && Candidates(w.pools[pool][version].ranges, order)
    case ReleaseDuplicate(id, pool, version, pick, fault) =>
      && id in w.lbs && w.lbs[id].phase.Releasing? && w.lbs[id].phase.read < |w.lbs[id].log|
      && PoolFor(w.lbs[id].log[w.lbs[id].phase.read], pool)
      && CanRelease(w, id, pool, version, pick)
    case Record(id, fault) => id in w.lbs && w.lbs[id].phase.Recording?
    case Crash(id) => id in w.lbs
    case Remove(id, version, pick, fault, held) =>
      && id in w.lbs && w.lbs[id].phase.Idle? && Last(w.lbs[id].log).deleting
      && var o := Last(w.lbs[id].log);
      && (o.pooled && o.status.Some? ==> CanRelease(w, id, o.status.value.pool, version, pick))
    case AddPool(pool, ranges) => pool !in w.pools
    case EditRanges(pool, ranges) =>
      pool in w.pools && forall a :: a in Head(w.pools[pool]).status.booked ==> Covers(ranges, a)
    case Refresh(pool, version, total, fault) => CanRead(w, pool, version)
    case ClearRequest(pool, version, fault) => CanRead(w, pool, version)
    case ReleaseStray(id, pool, version, pick, fault) =>
      id !in w.lbs && CanRelease(w, id, pool, version, pick)
  }

  function SetPhase(w: World, id: string, phase: Phase): World
    requires id in w.lbs
  {
    w.(lbs := w.lbs[id := w.lbs[id].(phase := phase)])
  }

  function Append(w: World, id: string, o: LbObject, phase: Phase): World
    requires id in w.lbs
  {
    w.(lbs := w.lbs[id := Lb(w.lbs[id].log + [o], phase)])
  }

  function EmptyPool(ranges: seq<Range>): Pool {
    Pool(ranges, None, Status(0, 0, None, map[], map[]))
  }

  /** The controller's phase after a decision of Allocator.Get. */
  function AfterGet(log: Log, version: nat, read: nat, pool: string, d: GetDecision, fault: Fault): Phase {
    match d
    case Duplicate => Releasing(read)
    case Granted(ip) => Recording(read, Some(Address(pool, ip)))
    case Try(ip, copy) =>
      if WriteFails(log, version, fault) then Idle else Recording(read, Some(Address(pool, ip)))
    case _ => Idle
  }

  function GetWrite(log: Log, version: nat, d: GetDecision, fault: Fault): Log {
    if d.Try? then Write(log, version, d.copy, fault) else log
  }

  ghost function Next(w: World, a: Action): World {
    if !Enabled(w, a) then w
    else
      match a
      case Create(id, spec, pooled) => w.(lbs := w.lbs[id := Lb([LbObject(spec, None, false, pooled)], Idle)])
      case Edit(id, spec) => Append(w, id, Last(w.lbs[id].log).(spec := spec), w.lbs[id].phase)
      case MarkDeleted(id) => Append(w, id, Last(w.lbs[id].log).(deleting := true), w.lbs[id].phase)
      case Start(id, read) => SetPhase(w, id, Reading(read))
      case ReleaseOld(id, version, pick, fault) =>
        var read := w.lbs[id].phase.read;
        var pool := w.lbs[id].log[read].status.value.pool;
        var log := w.pools[pool];
        var phase := if ReleaseFails(log, version, pick, fault) then Idle else Recording(read, None);
        SetPhase(w.(pools := w.pools[pool := ReleaseWrite(log, version, pick, fault)]), id, phase)
      case Allocate(id, pool, version, pick, order, fault) =>
        var log := w.pools[pool];
        var d := DecideGet(log[version], id, pick, order);
        var phase := AfterGet(log, version, w.lbs[id].phase.read, pool, d, fault);
        SetPhase(w.(pools := w.pools[pool := GetWrite(log, version, d, fault)]), id, phase)
      case ReleaseDuplicate(id, pool, version, pick, fault) =>
        SetPhase(w.(pools := w.pools[pool := ReleaseWrite(w.pools[pool], version, pick, fault)]), id, Idle)
      case Record(id, fault) =>
        var lb := w.lbs[id];
        if fault != Dropped && lb.phase.read == |lb.log| - 1 then
          Append(w, id, Last(lb.log).(status := lb.phase.address), Idle)
        else SetPhase(w, id, Idle)
      case Crash(id) => SetPhase(w, id, Idle)
      case Remove(id, version, pick, fault, held) =>
        var o := Last(w.lbs[id].log);
        if o.pooled && o.status.Some? then
          var log := w.pools[o.status.value.pool];
          var pools := w.pools[o.status.value.pool := ReleaseWrite(log, version, pick, fault)];
          World(pools, if ReleaseFails(log, version, pick, fault) || held then w.lbs else w.lbs - {id})
        else w.(lbs := if held then w.lbs else w.lbs - {id})
      case AddPool(pool, ranges) => w.(pools := w.pools[pool := [EmptyPool(ranges)]])
      case EditRanges(pool, ranges) =>
        w.(pools := w.pools[pool := w.pools[pool] + [Head(w.pools[pool]).(ranges := ranges)]])
      case Refresh(pool, version, total, fault) =>
        var log := w.pools[pool];
        w.(pools := w.pools[pool := Write(log, version, Refreshed(log[version], total), fault)])
      case ClearRequest(pool, version, fault) =>
        var log := w.pools[pool];
        w.(pools := w.pools[pool := Write(log, version, log[version].(request := None), fault)])
      case ReleaseStray(id, pool, version, pick, fault) =>
        w.(pools := w.pools[pool := ReleaseWrite(w.pools[pool], version, pick, fault)])
  }

  ghost function RunAll(w: World, actions: seq<Action>): World
    decreases |actions|
  {
    if |actions| == 0 then w else RunAll(Next(w, actions[0]), actions[1..])
  }

  /** Every reconcile sees at least its own last status write. */
  ghost predicate ReadsOwnWrites(w: World, actions: seq<Action>)
    decreases |actions|
  {
    |actions| > 0 ==>
      && (actions[0].Start? && actions[0].id in w.lbs ==> Fresh(w.lbs[actions[0].id].log, actions[0].read))
      && ReadsOwnWrites(Next(w, actions[0]), actions[1..])
  }

  // ----- safety -----

  ghost predicate Owns(pools: map<string, Log>, id: string, a: Address) {
    a.pool in pools && Holds(Head(pools[a.pool]).status, id, a.ip)
  }

  /**
    The LoadBalancer is not being deleted, records an address, and no version since that record
    asked for another pool.
   */
  ghost predicate Settled(log: LbLog) {
    && Last(log).status.Some? && !Last(log).deleting
    && forall v :: 0 <= v < |log| && Fresh(log, v) ==> !PoolChanged(log[v])
  }

  ghost predicate LbSafe(pools: map<string, Log>, id: string, lb: Lb) {
    Settled(lb.log) ==> Owns(pools, id, Last(lb.log).status.value)
  }

  /** Every settled LoadBalancer owns, in its pool, the address its stored status names. */
  ghost predicate Safe(w: World) {
    forall id :: id in w.lbs ==> LbSafe(w.pools, id, w.lbs[id])
  }

  ghost predicate PhaseOk(pools: map<string, Log>, id: string, lb: Lb) {
    match lb.phase
    case Idle => true
    case Reading(read) => Fresh(lb.log, read)
    case Releasing(read) => Fresh(lb.log, read) && lb.log[read].status.None?
    case Recording(read, address) =>
      && Fresh(lb.log, read)
      && match address
         case Some(a) => lb.log[read].status.None? && Owns(pools, id, a)
         case None => PoolChanged(lb.log[read])
  }

  ghost predicate LbOk(pools: map<string, Log>, id: string, lb: Lb) {
    LbSafe(pools, id, lb) && PhaseOk(pools, id, lb)
  }

  ghost predicate PoolsOk(pools: map<string, Log>) {
    forall p :: p in pools ==> AllGood(pools[p])
  }

  ghost predicate Inv(w: World) {
    && PoolsOk(w.pools)
    && forall id :: id in w.lbs ==> LbOk(w.pools, id, w.lbs[id])
  }

  // ----- writes disturb nobody else -----

  /** Whatever another id held before, it holds after. */
  ghost predicate Keeps(pools: map<string, Log>, pools': map<string, Log>, actor: string) {
    forall id, a :: id != actor && Owns(pools, id, a) ==> Owns(pools', id, a)
  }

  ghost predicate KeepsAll(pools: map<string, Log>, pools': map<string, Log>) {
    forall id, a :: Owns(pools, id, a) ==> Owns(pools', id, a)
  }

  lemma LogReplaced(pools: map<string, Log>, pool: string, log: Log)
    requires PoolsOk(pools) && AllGood(log)
    requires pool in pools ==>
               forall id, ip :: Holds(Head(pools[pool]).status, id, ip) ==> Holds(Head(log).status, id, ip)
    ensures PoolsOk(pools[pool := log]) && KeepsAll(pools, pools[pool := log])
  {
  }

  lemma ReleaseKeeps(pools: map<string, Log>, pool: string, id: string, version: nat, pick: Option<Addr>, fault: Fault)
    requires PoolsOk(pools) && pool in pools && version < |pools[pool]|
    requires Held(pools[pool][version].status, id, pick)
    ensures var pools' := pools[pool := ReleaseWrite(pools[pool], version, pick, fault)];
            PoolsOk(pools') && Keeps(pools, pools', id)
  {
    var log := pools[pool];
    assert AllGood(log);
    if pick.Some? {
      FreedKeepsGood(log[version], pick.value);
      WriteGood(log, version, log[version].(status := Freed(log[version].status, pick.value)), fault);
    }
  }

  lemma WriteGood(log: Log, version: nat, copy: Pool, fault: Fault)
    requires AllGood(log) && version < |log| && GoodPool(copy)
    ensures AllGood(Write(log, version, copy, fault))
    ensures Head(Write(log, version, copy, fault)) == Head(log)
            || (version == |log| - 1 && Head(Write(log, version, copy, fault)) == copy)
    ensures !WriteFails(log, version, fault) ==> Head(Write(log, version, copy, fault)) == copy
  {
  }

  lemma BookedWriteGood(log: Log, id: string, version: nat, ip: Addr, copy: Pool, fault: Fault)
    requires AllGood(log) && version < |log| && GoodPool(copy)
    requires ip !in log[version].status.booked && copy == log[version].(status := Booked(log[version].status, id, ip))
    ensures var log' := Write(log, version, copy, fault);
            && AllGood(log')
            && (forall x, a :: Holds(Head(log).status, x, a) ==> Holds(Head(log').status, x, a))
            && (!WriteFails(log, version, fault) ==> Holds(Head(log').status, id, ip))
  {
    WriteGood(log, version, copy, fault);
  }

  lemma GetWriteGood(log: Log, id: string, version: nat, pick: Option<Addr>, order: seq<Addr>, fault: Fault)
    requires AllGood(log) && version < |log|
    requires Scanned(log[version].status, id, pick) && Candidates(log[version].ranges, order)
    ensures var d := DecideGet(log[version], id, pick, order);
            var log' := GetWrite(log, version, d, fault);
            && AllGood(log')
            && (forall x, ip :: Holds(Head(log).status, x, ip) ==> Holds(Head(log').status, x, ip))
            && !d.Granted?
            && (d.Try? && !WriteFails(log, version, fault) ==> Holds(Head(log').status, id, d.ip))
  {
    var d := DecideGet(log[version], id, pick, order);
    assert GoodPool(log[version]);
    GrantsAreWrites(log[version], id, pick, order);
    if d.Try? {
      TryKeepsGood(log[version], id, pick, order);
      BookedWriteGood(log, id, version, d.ip, d.copy, fault);
    }
  }

  lemma GetKeeps(pools: map<string, Log>, pool: string, id: string, version: nat, pick: Option<Addr>,
                 order: seq<Addr>, fault: Fault)
    requires PoolsOk(pools) && pool in pools && version < |pools[pool]|
    requires Scanned(pools[pool][version].status, id, pick) && Candidates(pools[pool][version].ranges, order)
    ensures var d := DecideGet(pools[pool][version], id, pick, order);
            var pools' := pools[pool := GetWrite(pools[pool], version, d, fault)];
            && PoolsOk(pools') && KeepsAll(pools, pools')
            && !d.Granted?
            && (d.Try? && !WriteFails(pools[pool], version, fault) ==> Owns(pools', id, Address(pool, d.ip)))
  {
    assert AllGood(pools[pool]);
    GetWriteGood(pools[pool], id, version, pick, order, fault);
    LogReplaced(pools, pool, GetWrite(pools[pool], version, DecideGet(pools[pool][version], id, pick, order), fault));
  }

  /** A step that touches no LoadBalancer other than the actor's keeps all the others in order. */
  lemma OthersUndisturbed(w: World, w': World, actor: string)
    requires Inv(w) && PoolsOk(w'.pools)
    requires Keeps(w.pools, w'.pools, actor)
    requires forall id :: id in w'.lbs && id != actor ==> id in w.lbs && w'.lbs[id] == w.lbs[id]
    requires actor in w'.lbs ==> LbOk(w'.pools, actor, w'.lbs[actor])
    ensures Inv(w')
  {
    forall id | id in w'.lbs ensures LbOk(w'.pools, id, w'.lbs[id]) {
      if id != actor {
        assert LbOk(w.pools, id, w.lbs[id]);
      }
    }
  }

  /** The same for a step that touches no LoadBalancer and keeps every holding. */
  lemma NobodyDisturbed(w: World, w': World)
    requires Inv(w) && PoolsOk(w'.pools) && w'.lbs == w.lbs
    requires KeepsAll(w.pools, w'.pools)
    ensures Inv(w')
  {
    forall id | id in w'.lbs ensures LbOk(w'.pools, id, w'.lbs[id]) {
      assert LbOk(w.pools, id, w.lbs[id]);
    }
  }

  // ----- each action keeps the invariant -----

  /** Appending a version with the same status keeps older versions fresh and adds none. */
  lemma SameStatusAppended(log: LbLog, o: LbObject)
    requires o.status == Last(log).status
    ensures forall v: nat :: Fresh(log, v) ==> Fresh(log + [o], v)
    ensures Settled(log + [o]) && !Last(log).deleting ==> Settled(log)
  {
    var log': LbLog := log + [o];
    forall v: nat | Fresh(log, v) ensures Fresh(log', v) {
      assert log[|log| - 1].status == log[v].status;
    }
    if Settled(log') {
      forall v | 0 <= v < |log| && Fresh(log, v) ensures !PoolChanged(log[v]) {
        assert Fresh(log', v);
        assert log'[v] == log[v];
      }
    }
  }

  lemma EditKeeps(w: World, id: string, o: LbObject)
    requires Inv(w) && id in w.lbs
    requires o.status == Last(w.lbs[id].log).status
    requires !o.deleting ==> !Last(w.lbs[id].log).deleting
    ensures Inv(Append(w, id, o, w.lbs[id].phase))
  {
    var lb := w.lbs[id];
    var lb' := Lb(lb.log + [o], lb.phase);
    assert LbOk(w.pools, id, lb);
    SameStatusAppended(lb.log, o);
    assert PhaseOk(w.pools, id, lb') by {
      if !lb.phase.Idle? {
        assert Fresh(lb'.log, lb.phase.read) && lb'.log[lb.phase.read] == lb.log[lb.phase.read];
      }
    }
    OthersUndisturbed(w, Append(w, id, o, lb.phase), id);
  }

  lemma RecordKeeps(w: World, id: string, fault: Fault)
    requires Inv(w) && Enabled(w, Record(id, fault))
    ensures Inv(Next(w, Record(id, fault)))
  {
    var w', lb := Next(w, Record(id, fault)), w.lbs[id];
    assert LbOk(w.pools, id, lb);
    if fault != Dropped && lb.phase.read == |lb.log| - 1 {
      assert Last(w'.lbs[id].log).status == lb.phase.address;
    }
    assert LbOk(w'.pools, id, w'.lbs[id]);
    OthersUndisturbed(w, w', id);
  }

  lemma ReleaseOldKeeps(w: World, id: string, version: nat, pick: Option<Addr>, fault: Fault)
    requires Inv(w) && Enabled(w, ReleaseOld(id, version, pick, fault))
    ensures Inv(Next(w, ReleaseOld(id, version, pick, fault)))
  {
    var w', lb := Next(w, ReleaseOld(id, version, pick, fault)), w.lbs[id];
    assert LbOk(w.pools, id, lb);
    assert !Settled(lb.log);
    ReleaseKeeps(w.pools, lb.log[lb.phase.read].status.value.pool, id, version, pick, fault);
    OthersUndisturbed(w, w', id);
  }

  lemma AllocateKeeps(w: World, id: string, pool: string, version: nat, pick: Option<Addr>,
                      order: seq<Addr>, fault: Fault)
    requires Inv(w) && Enabled(w, Allocate(id, pool, version, pick, order, fault))
    ensures Inv(Next(w, Allocate(id, pool, version, pick, order, fault)))
  {
    var w', lb := Next(w, Allocate(id, pool, version, pick, order, fault)), w.lbs[id];
    assert LbOk(w.pools, id, lb);
    GetKeeps(w.pools, pool, id, version, pick, order, fault);
    assert Last(lb.log).status.None?;
    OthersUndisturbed(w, w', id);
  }

  lemma ReleaseDuplicateKeeps(w: World, id: string, pool: string, version: nat, pick: Option<Addr>, fault: Fault)
    requires Inv(w) && Enabled(w, ReleaseDuplicate(id, pool, version, pick, fault))
    ensures Inv(Next(w, ReleaseDuplicate(id, pool, version, pick, fault)))
  {
    var lb := w.lbs[id];
    assert LbOk(w.pools, id, lb);
    assert Last(lb.log).status.None?;
    ReleaseKeeps(w.pools, pool, id, version, pick, fault);
    OthersUndisturbed(w, Next(w, ReleaseDuplicate(id, pool, version, pick, fault)), id);
  }

  lemma RemoveKeeps(w: World, id: string, version: nat, pick: Option<Addr>, fault: Fault, held: bool)
    requires Inv(w) && Enabled(w, Remove(id, version, pick, fault, held))
    ensures Inv(Next(w, Remove(id, version, pick, fault, held)))
  {
    var o := Last(w.lbs[id].log);
    if o.pooled && o.status.Some? {
      ReleaseKeeps(w.pools, o.status.value.pool, id, version, pick, fault);
    }
    OthersUndisturbed(w, Next(w, Remove(id, version, pick, fault, held)), id);
  }

  lemma PoolActionKeeps(w: World, a: Action)
    requires Inv(w) && Enabled(w, a)
    requires a.AddPool? || a.EditRanges? || a.Refresh? || a.ClearRequest?
    ensures Inv(Next(w, a))
  {
    var w' := Next(w, a);
    if !a.AddPool? {
      var log := w.pools[a.pool];
      assert AllGood(log);
      PoolWriteGood(log, w'.pools[a.pool], a);
    }
    LogReplaced(w.pools, a.pool, w'.pools[a.pool]);
    NobodyDisturbed(w, w');
  }

  lemma PoolWriteGood(log: Log, log': Log, a: Action)
    requires AllGood(log)
    requires match a
             case EditRanges(_, ranges) =>
               && (forall x :: x in Head(log).status.booked ==> Covers(ranges, x))
               && log' == log + [Head(log).(ranges := ranges)]
             case Refresh(_, version, total, fault) =>
               version < |log| && log' == Write(log, version, Refreshed(log[version], total), fault)
             case ClearRequest(_, version, fault) =>
               version < |log| && log' == Write(log, version, log[version].(request := None), fault)
             case _ => log' == log
    ensures AllGood(log') && Head(log').status.booked == Head(log).status.booked
  {
    assert GoodPool(Head(log));
    if a.Refresh? {
      assert GoodPool(log[a.version]);
      RefreshedKeepsGood(log[a.version], a.total);
    } else if a.ClearRequest? {
      assert GoodPool(log[a.version].(request := None));
    }
  }

  lemma NextKeeps(w: World, a: Action)
    requires Inv(w)
    requires a.Start? && a.id in w.lbs ==> Fresh(w.lbs[a.id].log, a.read)
    ensures Inv(Next(w, a))
  {
    if Enabled(w, a) {
      match a {
        case Create(id, spec, pooled) => OthersUndisturbed(w, Next(w, a), id);
        case Edit(id, spec) => EditKeeps(w, id, Last(w.lbs[id].log).(spec := spec));
        case MarkDeleted(id) => EditKeeps(w, id, Last(w.lbs[id].log).(deleting := true));
        case Start(id, read) =>
          assert LbOk(w.pools, id, w.lbs[id]);
          OthersUndisturbed(w, Next(w, a), id);
        case ReleaseOld(id, version, pick, fault) => ReleaseOldKeeps(w, id, version, pick, fault);
        case Allocate(id, pool, version, pick, order, fault) =>
          AllocateKeeps(w, id, pool, version, pick, order, fault);
        case ReleaseDuplicate(id, pool, version, pick, fault) =>
          ReleaseDuplicateKeeps(w, id, pool, version, pick, fault);
        case Record(id, fault) => RecordKeeps(w, id, fault);
        case Crash(id) =>
          assert LbOk(w.pools, id, w.lbs[id]);
          OthersUndisturbed(w, Next(w, a), id);
        case Remove(id, version, pick, fault, held) => RemoveKeeps(w, id, version, pick, fault, held);
        case ReleaseStray(id, pool, version, pick, fault) =>
          ReleaseKeeps(w.pools, pool, id, version, pick, fault);
          OthersUndisturbed(w, Next(w, a), id);
        case _ => PoolActionKeeps(w, a);
      }
    }
  }

  /** Safety over whole runs: every interleaving keeps every settled LoadBalancer's address its own. */
  lemma {:induction false} RunsStaySafe(w: World, actions: seq<Action>)
    requires Inv(w) && ReadsOwnWrites(w, actions)
    ensures Inv(RunAll(w, actions)) && Safe(RunAll(w, actions))
    decreases |actions|
  {
    if |actions| > 0 {
      NextKeeps(w, actions[0]);
      RunsStaySafe(Next(w, actions[0]), actions[1..]);
    } else {
      forall id | id in w.lbs ensures LbSafe(w.pools, id, w.lbs[id]) {
        assert LbOk(w.pools, id, w.lbs[id]);
      }
    }
  }

  /** From an empty cluster, no two settled LoadBalancers ever record the same address of a pool. */
  lemma AddressesStayUnique(actions: seq<Action>, x: string, y: string)
    requires ReadsOwnWrites(World(map[], map[]), actions)
    requires var w := RunAll(World(map[], map[]), actions);
             && x in w.lbs && Settled(w.lbs[x].log)
             && y in w.lbs && Settled(w.lbs[y].log)
             && Last(w.lbs[x].log).status == Last(w.lbs[y].log).status
    ensures x == y
  {
    var w := RunAll(World(map[], map[]), actions);
    RunsStaySafe(World(map[], map[]), actions);
    assert LbSafe(w.pools, x, w.lbs[x]) && LbSafe(w.pools, y, w.lbs[y]);
  }

  /**
    Leaks, exactly: when a removal takes the object away, an address stays booked for it if and only
    if it was booked and is not the one the removal releases. It releases one only for pool IPAM,
    only in the pool the status names, and only if the version it reads shows the booking.
   */
  lemma RemoveLeavesBookedIff(w: World, id: string, version: nat, pick: Option<Addr>, fault: Fault, a: Address)
    requires Inv(w) && Enabled(w, Remove(id, version, pick, fault, false))
    requires id !in Next(w, Remove(id, version, pick, fault, false)).lbs
    ensures var o := Last(w.lbs[id].log);
            Owns(Next(w, Remove(id, version, pick, fault, false)).pools, id, a) <==>
            Owns(w.pools, id, a) && !(o.pooled && o.status.Some? && o.status.value.pool == a.pool && pick.Some?)
  {
    var o := Last(w.lbs[id].log);
    if o.pooled && o.status.Some? && o.status.value.pool == a.pool && pick.Some? {
      var log := w.pools[a.pool];
      assert AllGood(log);
      assert version == |log| - 1 && GoodPool(log[version]);
      if Owns(w.pools, id, a) {
        HoldsOne(Head(log).status, id, a.ip, pick.value);
      }
    }
  }

  /** Running one sequence after the other. */
  lemma {:induction false} RunConcat(w: World, a: seq<Action>, b: seq<Action>)
    ensures RunAll(w, a + b) == RunAll(RunAll(w, a), b)
    ensures ReadsOwnWrites(w, a + b) <==> ReadsOwnWrites(w, a) && ReadsOwnWrites(RunAll(w, a), b)
    decreases |a|
  {
    if |a| == 0 {
      assert a + b == b;
    } else {
      assert (a + b)[1..] == a[1..] + b;
      RunConcat(Next(w, a[0]), a[1..], b);
    }
  }

  lemma RunOne(w: World, a: Action)
    ensures RunAll(w, [a]) == Next(w, a)
    ensures ReadsOwnWrites(w, [a])
            <==> (a.Start? && a.id in w.lbs ==> Fresh(w.lbs[a.id].log, a.read))
  {
    assert [a][1..] == [];
    assert RunAll(Next(w, a), []) == Next(w, a);
  }
}

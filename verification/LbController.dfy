/**
  The handlers of pkg/controller/loadbalancer/controller.go that touch pools. Run without
  interference, each handler's effect is a run of the actions of module Booking.
 */
module LbController {
  import opened Common
  import opened Ipv4
  import opened PoolStore
  import opened Allocation
  import opened Booking
  import S = Selection
  import PA = PoolAdmission
  import R = Recovery

  /** The deep copy of a LoadBalancer whose status the handlers edit. */
  class LbCopy {
    var address: Option<Address>

    constructor (o: LbObject)
      ensures address == o.status
    {
      address := o.status;
    }
  }

  /** What the annotations, the namespace and the workload type of a LoadBalancer ask of a pool. */
  datatype Ask = Ask(network: string, project: string, annotated: string, namespace: string, cluster: string,
                     isCluster: bool)

  /** One listing of the pools by the cache, None when it fails. */
  type Listed = Option<seq<S.Candidate>>

  /** What the environment supplies to one allocator call; the loose retry lists the pools again. */
  datatype Call = Call(strict: Listed, loose: Listed, view: Option<nat>, order: seq<Addr>, fault: Fault)

  datatype LbError = NoMatchedPool | NoAllocator | GetFailed(get: GetError) | ReleaseFailed | DeleteFailed

  function RequirementOf(ask: Ask): S.Requirement {
    S.Requirement(ask.network, ask.project, if ask.annotated == "" then ask.namespace else ask.annotated, ask.cluster)
  }

  /** The strict answer, else the loose one for guest clusters, else none. */
  function SelectedPool(ask: Ask, strict: Listed, loose: Listed): Option<string> {
    if strict.None? then None
    else
      var first := S.SelectOf(strict.value, RequirementOf(ask), false);
      if first.Some? then Some(first.value.name)
      else if !ask.isCluster || loose.None? then None
      else
        var second := S.SelectOf(loose.value, RequirementOf(ask), true);
        if second.Some? then Some(second.value.name) else None
  }

  /** The pool a reconcile uses: the one the spec names, or the selected one. */
  function PoolOf(lb: LbObject, ask: Ask, call: Call): Option<string> {
    if lb.spec.Some? then lb.spec else SelectedPool(ask, call.strict, call.loose)
  }

  /** The version an allocator call on that pool reads exists, and its candidates are the ranges'. */
  ghost predicate Offers(pools: map<string, Log>, pool: Option<string>, call: Call) {
    pool.Some? ==>
      && Readable(pools, pool.value, call.view)
      && (call.view.Some? ==> Candidates(pools[pool.value][call.view.value].ranges, call.order))
  }

  /** The reconcile of this id has just read this object. */
  ghost predicate HasRead(w: World, id: string, lb: LbObject) {
    id in w.lbs && w.lbs[id].phase.Reading? && ReadIs(w.lbs[id], w.lbs[id].phase.read, lb)
  }

  ghost predicate ReadIs(l: Lb, read: nat, lb: LbObject) {
    read < |l.log| && l.log[read] == lb
  }

  /** Only the phase of this LoadBalancer differs, and pools. */
  ghost predicate OnlyPhase(w: World, w': World, id: string) {
    && id in w.lbs && id in w'.lbs && w'.lbs[id].log == w.lbs[id].log
    && forall x :: x in w.lbs && x != id ==> x in w'.lbs && w'.lbs[x] == w.lbs[x]
  }

  /** Pool actions of this one id, so the run reads its own writes. */
  ghost predicate HandlerRun(w: World, trace: seq<Action>, id: string) {
    && ReadsOwnWrites(w, trace)
    && forall a :: a in trace ==> (a.Allocate? || a.ReleaseOld? || a.ReleaseDuplicate? || a.Remove?) && a.id == id
  }

  /** The run is exactly the allocation that this call makes. */
  ghost predicate Allocates(w: World, trace: seq<Action>, id: string, pool: string, call: Call) {
    && |trace| == 1 && call.view.Some? && pool in w.pools && call.view.value < |w.pools[pool]|
    && trace[0].Allocate?
    && trace[0] == Allocate(id, pool, call.view.value, trace[0].pick, call.order, call.fault)
    && Scanned(w.pools[pool][call.view.value].status, id, trace[0].pick)
  }

  /** The run is exactly the duplicate release that this call makes. */
  ghost predicate Frees(w: World, trace: seq<Action>, id: string, pool: string, call: Call) {
    && |trace| == 1 && call.view.Some? && trace[0].ReleaseDuplicate?
    && trace[0] == ReleaseDuplicate(id, pool, call.view.value, trace[0].pick, call.fault)
    && CanRelease(w, id, pool, call.view.value, trace[0].pick)
  }

  class Handler {
    const api: ApiServer
    const allocators: map<string, Allocator>

    constructor (api: ApiServer, allocators: map<string, Allocator>)
      ensures this.api == api && this.allocators == allocators
    {
      this.api, this.allocators := api, allocators;
    }

    ghost predicate Valid() {
      forall n :: n in allocators ==> allocators[n].store.poolName == n && allocators[n].store.api == api
    }

    /** The cached version an allocator call would read exists. */
    ghost predicate Sees(pool: string, view: Option<nat>)
      reads api
    {
      Readable(api.pools, pool, view)
    }

    method Release(id: string, pool: string, view: Option<nat>, fault: Fault)
      returns (err: Option<LbError>, ghost pick: Option<Addr>, ghost called: bool)
      requires Valid() && Sees(pool, view)
      modifies api
      ensures called <==> pool in allocators && view.Some?
      ensures pool !in allocators ==> err == Some(NoAllocator)
      ensures !called ==> err.Some? && api.pools == old(api.pools)
      ensures called ==>
                && view.Some? && pool in old(api.pools)
                && Held(old(api.pools)[pool][view.value].status, id, pick)
                && api.pools == old(api.pools)[pool := ReleaseWrite(old(api.pools)[pool], view.value, pick, fault)]
                && (err.Some? <==> ReleaseFails(old(api.pools)[pool], view.value, pick, fault))
    {
      called, pick := false, None;
      if pool !in allocators {
        return Some(NoAllocator), pick, called;
      }
      var failed;
      failed, pick := allocators[pool].store.ReleaseById(id, view, fault);
      called := view.Some?;
      err := if failed then Some(ReleaseFailed) else None;
      assert called && pick.None? ==> api.pools == old(api.pools)[pool := old(api.pools)[pool]];
    }

    /** controller.go selectIPPool: strict first, then loose for guest clusters. */
    method SelectIpPool(ask: Ask, strict: Listed, loose: Listed) returns (pool: Option<string>)
      ensures pool == SelectedPool(ask, strict, loose)
    {
      if strict.None? {
        return None;
      }
      var r := RequirementOf(ask);
      var found := S.Select(strict.value, r, false);
      if found.Some? {
        return Some(found.value.name);
      }
      if ask.isCluster {
        if loose.None? {
          return None;
        }
        found := S.Select(loose.value, r, true);
        if found.Some? {
          return Some(found.value.name);
        }
      }
      return None;
    }

    /** controller.go allocateIPFromPool and requestIP. */
    method AllocateIpFromPool(id: string, lb: LbObject, ask: Ask, call: Call)
      returns (r: Result<Address, LbError>, ghost pick: Option<Addr>, ghost called: bool)
      requires Valid() && Offers(api.pools, PoolOf(lb, ask, call), call)
      modifies api
      ensures called <==> Callable(PoolOf(lb, ask, call), call.view)
      ensures r == Err(NoMatchedPool) <==> PoolOf(lb, ask, call).None?
      ensures r == Err(NoAllocator) <==> PoolOf(lb, ask, call).Some? && PoolOf(lb, ask, call).value !in allocators
      ensures !called ==> r.Err? && !Duplicated(r) && api.pools == old(api.pools)
      ensures called ==>
                && PoolOf(lb, ask, call).Some? && call.view.Some?
                && var pool := PoolOf(lb, ask, call).value;
                && pool in old(api.pools)
                && var log, v := old(api.pools)[pool], call.view.value;
                && Scanned(log[v].status, id, pick)
                && var d := DecideGet(log[v], id, pick, call.order);
                && api.pools == old(api.pools)[pool := GetWrite(log, v, d, call.fault)]
                && (r.Ok? <==> d.Granted? || (d.Try? && !WriteFails(log, v, call.fault)))
                && (r.Ok? ==> r.value == Address(pool, d.ip))
                && (Duplicated(r) <==> d.Duplicate?)
                && (d.Refused? ==> r == Err(GetFailed(NotAvailable)))
                && (d.Exhausted? ==> r == Err(GetFailed(NoAddresses)))
                && (d.Try? && WriteFails(log, v, call.fault) ==> r == Err(GetFailed(StoreFailed)))
    {
      called, pick := false, None;
      var pool := lb.spec;
      if pool.None? {
        pool := SelectIpPool(ask, call.strict, call.loose);
      }
      if pool.None? {
        return Err(NoMatchedPool), pick, called;
      }
      if pool.value !in allocators {
        return Err(NoAllocator), pick, called;
      }
      var got;
      got, pick := allocators[pool.value].Get(id, call.order, call.view, call.fault);
      called := call.view.Some?;
      assert called ==> old(api.pools) == old(api.pools)[pool.value := old(api.pools)[pool.value]];
      if got.Err? {
        return Err(GetFailed(got.error)), pick, called;
      }
      return Ok(Address(pool.value, got.value)), pick, called;
    }

    /** There is an allocator for the pool, and the cache shows the pool to it. */
    predicate Callable(pool: Option<string>, view: Option<nat>) {
      pool.Some? && pool.value in allocators && view.Some?
    }

    predicate Duplicated(r: Result<Address, LbError>) {
      r == Err(GetFailed(DuplicateAllocation))
    }

    /**
      controller.go ensureAllocatedAddressPool. The ghost world `w` is the protocol state in which
      the reconcile has just read this object; the ghost trace is the run the handler amounts to.
     */
    method EnsureAllocatedAddressPool(lbCopy: LbCopy, id: string, lb: LbObject, ask: Ask, first: Call, second: Call,
                                      ghost w: World)
      returns (err: Option<LbError>, ghost trace: seq<Action>)
      requires Valid()
      requires w.pools == api.pools && HasRead(w, id, lb) && lbCopy.address == lb.status
      requires PoolChanged(lb) ==> Sees(lb.status.value.pool, first.view)
      requires Offers(api.pools, PoolOf(lb, ask, first), first) && Offers(api.pools, PoolOf(lb, ask, second), second)
      modifies api, lbCopy
      ensures var w' := RunAll(w, trace);
              && api.pools == w'.pools && OnlyPhase(w, w', id)
              && (err.Some? ==> lbCopy.address == lb.status && !w'.lbs[id].phase.Recording?)
              && (err.None? && lb.status.Some? && !PoolChanged(lb) ==> trace == [] && lbCopy.address == lb.status)
              && (err.None? && (lb.status.None? || PoolChanged(lb)) ==>
                    && w'.lbs[id].phase == Recording(w.lbs[id].phase.read, lbCopy.address)
                    && (lbCopy.address.None? <==> PoolChanged(lb)))
      ensures HandlerRun(w, trace, id) && |trace| <= 2 && forall a :: a in trace ==> !a.Remove?
      ensures PoolChanged(lb) ==>
                && (|trace| == 1 <==> Callable(Some(lb.status.value.pool), first.view))
                && forall a :: a in trace ==> a.ReleaseOld?
      ensures lb.status.None? ==> Settles(w, trace, id, lb, ask, first, second, err, lbCopy.address)
      ensures Inv(w) ==> Inv(RunAll(w, trace)) && Safe(RunAll(w, trace))
    {
      trace := [];
      assert RunAll(w, []) == w;
      err := None;
      if PoolChanged(lb) {
        err, trace := ReleaseOldPool(lbCopy, id, lb, first, w);
      } else if lb.status.None? {
        err, trace := BookOrFree(lbCopy, id, lb, ask, first, second, w);
      }
      HandlerRunIsSafe(w, trace, id);
    }

    /** What the branch without a recorded address does, and exactly when it does it. */
    ghost predicate Settles(w: World, trace: seq<Action>, id: string, lb: LbObject, ask: Ask, first: Call, second: Call,
                            err: Option<LbError>, address: Option<Address>) {
      if !Callable(PoolOf(lb, ask, first), first.view) then trace == [] && err.Some?
      else
        && |trace| >= 1 && Allocates(w, trace[..1], id, PoolOf(lb, ask, first).value, first)
        && var log, v := w.pools[PoolOf(lb, ask, first).value], first.view.value;
        && var d := DecideGet(log[v], id, trace[0].pick, first.order);
        && (d.Try? && !WriteFails(log, v, first.fault) ==>
              trace == trace[..1] && err.None? && address == Some(Address(PoolOf(lb, ask, first).value, d.ip)))
        && (d.Duplicate? ==>
              && err == Some(GetFailed(DuplicateAllocation))
              && if Callable(PoolOf(lb, ask, second), second.view)
                 then Frees(RunAll(w, trace[..1]), trace[1..], id, PoolOf(lb, ask, second).value, second)
                 else trace == trace[..1])
    }

    /** The branch without a recorded address: book one, or release what turns out to be a duplicate. */
    method BookOrFree(lbCopy: LbCopy, id: string, lb: LbObject, ask: Ask, first: Call, second: Call, ghost w: World)
      returns (err: Option<LbError>, ghost trace: seq<Action>)
      requires Valid()
      requires w.pools == api.pools && HasRead(w, id, lb) && lbCopy.address == lb.status && lb.status.None?
      requires Offers(api.pools, PoolOf(lb, ask, first), first) && Offers(api.pools, PoolOf(lb, ask, second), second)
      modifies api, lbCopy
      ensures var w' := RunAll(w, trace);
              && api.pools == w'.pools && OnlyPhase(w, w', id)
              && (err.Some? ==> lbCopy.address.None? && !w'.lbs[id].phase.Recording?)
              && (err.None? ==>
                    lbCopy.address.Some? && w'.lbs[id].phase == Recording(w.lbs[id].phase.read, lbCopy.address))
      ensures HandlerRun(w, trace, id) && |trace| <= 2 && forall a :: a in trace ==> !a.Remove?
      ensures Settles(w, trace, id, lb, ask, first, second, err, lbCopy.address)
    {
      var r;
      r, trace := BookAddress(id, lb, ask, first, w);
      ghost var one := trace;
      assert one[..|one|] == one;
      if r.Ok? {
        lbCopy.address := Some(r.value);
        return None, trace;
      }
      if Duplicated(r) {
        ghost var more := TryReleaseDuplicated(id, lb, ask, second, RunAll(w, one));
        RunConcat(w, one, more);
        trace := one + more;
        assert trace[..1] == one && trace[1..] == more;
      }
      err := Some(r.error);
    }

    /** The allocator call of a reconcile and the action it is. */
    method BookAddress(id: string, lb: LbObject, ask: Ask, call: Call, ghost w: World)
      returns (r: Result<Address, LbError>, ghost trace: seq<Action>)
      requires Valid()
      requires w.pools == api.pools && HasRead(w, id, lb) && lb.status.None?
      requires Offers(api.pools, PoolOf(lb, ask, call), call)
      modifies api
      ensures var w' := RunAll(w, trace);
              && api.pools == w'.pools && OnlyPhase(w, w', id)
              && (r.Ok? ==> w'.lbs[id].phase == Recording(w.lbs[id].phase.read, Some(r.value)))
              && (Duplicated(r) ==> w'.pools == w.pools && w'.lbs[id].phase == Releasing(w.lbs[id].phase.read))
              && (r.Err? ==> !w'.lbs[id].phase.Recording?)
      ensures HandlerRun(w, trace, id)
      ensures if Callable(PoolOf(lb, ask, call), call.view)
              then Allocates(w, trace, id, PoolOf(lb, ask, call).value, call)
              else trace == [] && r.Err? && !Duplicated(r)
      ensures trace != [] ==>
                var pool := trace[0].pool;
                var d := DecideGet(w.pools[pool][trace[0].version], id, trace[0].pick, call.order);
                && (Duplicated(r) <==> d.Duplicate?)
                && (d.Try? && !WriteFails(w.pools[pool], trace[0].version, call.fault) ==> r == Ok(Address(pool, d.ip)))
    {
      trace := [];
      assert RunAll(w, []) == w;
      ghost var pick, called;
      r, pick, called := AllocateIpFromPool(id, lb, ask, call);
      if called {
        ghost var pool := PoolOf(lb, ask, call).value;
        assert w.pools == w.pools[pool := w.pools[pool]];
        trace := [Allocate(id, pool, call.view.value, pick, call.order, call.fault)];
        RunOne(w, trace[0]);
      }
    }

    /** The branch of a changed pool: release the old address, then clear the copy's status. */
    method ReleaseOldPool(lbCopy: LbCopy, id: string, lb: LbObject, call: Call, ghost w: World)
      returns (err: Option<LbError>, ghost trace: seq<Action>)
      requires Valid()
      requires w.pools == api.pools && HasRead(w, id, lb)
      requires PoolChanged(lb) && lbCopy.address == lb.status && Sees(lb.status.value.pool, call.view)
      modifies api, lbCopy
      ensures var w' := RunAll(w, trace);
              && api.pools == w'.pools && OnlyPhase(w, w', id)
              && (err.Some? ==> lbCopy.address == lb.status && !w'.lbs[id].phase.Recording?)
              && (err.None? ==> lbCopy.address == None && w'.lbs[id].phase == Recording(w.lbs[id].phase.read, None))
      ensures HandlerRun(w, trace, id) && |trace| <= 1 && forall a :: a in trace ==> a.ReleaseOld?
      ensures |trace| == 1 <==> Callable(Some(lb.status.value.pool), call.view)
      ensures |trace| == 1 ==> call.view == Some(trace[0].version) && trace[0].fault == call.fault
    {
      trace := [];
      assert RunAll(w, []) == w;
      ghost var pick, called;
      err, pick, called := Release(id, lb.status.value.pool, call.view, call.fault);
      if called {
        trace := [ReleaseOld(id, call.view.value, pick, call.fault)];
        RunOne(w, trace[0]);
      }
      if err.None? {
        lbCopy.address := None;
      }
    }

    /** controller.go tryReleaseDuplicatedIPToPool; its own error is only logged. */
    method TryReleaseDuplicated(id: string, lb: LbObject, ask: Ask, call: Call, ghost w: World)
      returns (ghost trace: seq<Action>)
      requires Valid()
      requires w.pools == api.pools && id in w.lbs && w.lbs[id].phase.Releasing?
      requires ReadIs(w.lbs[id], w.lbs[id].phase.read, lb)
      requires Offers(api.pools, PoolOf(lb, ask, call), call)
      modifies api
      ensures var w' := RunAll(w, trace);
              api.pools == w'.pools && OnlyPhase(w, w', id) && !w'.lbs[id].phase.Recording?
      ensures HandlerRun(w, trace, id)
      ensures if Callable(PoolOf(lb, ask, call), call.view) then Frees(w, trace, id, PoolOf(lb, ask, call).value, call)
              else trace == []
    {
      trace := [];
      assert RunAll(w, []) == w;
      var pool := lb.spec;
      if pool.None? {
        pool := SelectIpPool(ask, call.strict, call.loose);
        if pool.None? {
          return;
        }
      }
      ghost var pick, called;
      var err;
      err, pick, called := Release(id, pool.value, call.view, call.fault);
      if called {
        trace := [ReleaseDuplicate(id, pool.value, call.view.value, pick, call.fault)];
        RunOne(w, trace[0]);
      }
    }

    /**
      controller.go OnRemove: release the address, then delete the service of a VM LoadBalancer.
      The finalizer goes only when neither failed; the release is not undone when the second fails.
     */
    method OnRemove(id: string, lb: LbObject, isVm: bool, deleteFails: bool, view: Option<nat>, fault: Fault,
                    ghost w: World)
      returns (err: Option<LbError>, ghost trace: seq<Action>)
      requires Valid()
      requires w.pools == api.pools && id in w.lbs && w.lbs[id].phase.Idle?
      requires lb == Last(w.lbs[id].log) && lb.deleting
      requires lb.status.Some? ==> Sees(lb.status.value.pool, view)
      modifies api
      ensures var w' := RunAll(w, trace);
              && api.pools == w'.pools
              && (id !in w'.lbs <==> err.None?)
              && (forall x :: x != id ==> (x in w'.lbs <==> x in w.lbs) && (x in w.lbs ==> w'.lbs[x] == w.lbs[x]))
              && (err.Some? ==> (lb.pooled && lb.status.Some?) || (isVm && deleteFails))
              && (isVm && deleteFails ==> err.Some?)
              && (!lb.pooled || lb.status.None? ==> api.pools == w.pools)
      ensures HandlerRun(w, trace, id) && |trace| <= 1 && forall a :: a in trace ==> a.Remove?
      ensures |trace| == 1 <==> (lb.pooled && lb.status.Some? ==> Callable(Some(lb.status.value.pool), view))
      ensures |trace| == 1 && lb.pooled && lb.status.Some? ==> view == Some(trace[0].version) && trace[0].fault == fault
      ensures Inv(w) ==> Inv(RunAll(w, trace)) && Safe(RunAll(w, trace))
    {
      trace := [];
      assert RunAll(w, []) == w;
      err := None;
      ghost var v, pick, called := 0, None, true;
      if lb.pooled && lb.status.Some? {
        err, pick, called := Release(id, lb.status.value.pool, view, fault);
        if called {
          v := view.value;
        }
      }
      if err.None? && isVm && deleteFails {
        err := Some(DeleteFailed);
      }
      if called {
        trace := [Remove(id, v, pick, fault, isVm && deleteFails)];
        RunOne(w, trace[0]);
      }
      HandlerRunIsSafe(w, trace, id);
    }
  }

  /**
    What the runs of a call come to on the newest version without a fault: a grant is booked for the
    id, and after a duplicate release the id holds nothing in that pool.
   */
  lemma GrantIsBooked(w: World, trace: seq<Action>, id: string, pool: string, call: Call)
    requires PoolsOk(w.pools) && Allocates(w, trace, id, pool, call) && Enabled(w, trace[0])
    requires call.view.value == |w.pools[pool]| - 1 && call.fault == NoFault
    requires DecideGet(Head(w.pools[pool]), id, trace[0].pick, call.order).Try?
    ensures var d := DecideGet(Head(w.pools[pool]), id, trace[0].pick, call.order);
            Owns(RunAll(w, trace).pools, id, Address(pool, d.ip))
  {
    RunOne(w, trace[0]);
    assert trace == [trace[0]];
    assert AllGood(w.pools[pool]);
    assert GoodPool(Head(w.pools[pool]));
    TryKeepsGood(Head(w.pools[pool]), id, trace[0].pick, call.order);
  }

  lemma DuplicateIsFreed(w: World, trace: seq<Action>, id: string, pool: string, call: Call)
    requires PoolsOk(w.pools) && Frees(w, trace, id, pool, call) && Enabled(w, trace[0])
    requires call.view.value == |w.pools[pool]| - 1 && call.fault == NoFault
    ensures pool in RunAll(w, trace).pools && HoldsNothing(Head(RunAll(w, trace).pools[pool]).status, id)
  {
    RunOne(w, trace[0]);
    assert trace == [trace[0]];
    FreesEffect(w, id, pool, call.view.value, trace[0].pick);
    ReleasedHoldsNothing(w.pools[pool], id, trace[0].pick);
  }

  lemma FreesEffect(w: World, id: string, pool: string, version: nat, pick: Option<Addr>)
    requires Enabled(w, ReleaseDuplicate(id, pool, version, pick, NoFault))
    ensures var pools := Next(w, ReleaseDuplicate(id, pool, version, pick, NoFault)).pools;
            pool in pools && pools[pool] == ReleaseWrite(w.pools[pool], version, pick, NoFault)
  {
  }

  lemma ReleasedHoldsNothing(log: Log, id: string, pick: Option<Addr>)
    requires AllGood(log) && Held(Head(log).status, id, pick)
    ensures HoldsNothing(Head(ReleaseWrite(log, |log| - 1, pick, NoFault)).status, id)
  {
    assert GoodPool(Head(log));
    var s := Head(log).status;
    if pick.Some? {
      forall a ensures !Holds(Freed(s, pick.value), id, a) {
        if Holds(s, id, a) {
          HoldsOne(s, id, a, pick.value);
        }
      }
    }
  }

  // ----- the recovery of a lost write is what the handler does -----

  lemma AllocateRun(w: World, one: seq<Action>, id: string, pool: string, pick: Option<Addr>, order: seq<Addr>)
    requires pool in w.pools && one == [Allocate(id, pool, |w.pools[pool]| - 1, pick, order, NoFault)]
    ensures RunAll(w, one) == R.AllocateNow(w, id, pool, pick, order)
  {
    RunOne(w, one[0]);
  }

  lemma ReleaseRun(w: World, more: seq<Action>, id: string, pool: string, ip: Addr)
    requires pool in w.pools && more == [ReleaseDuplicate(id, pool, |w.pools[pool]| - 1, Some(ip), NoFault)]
    ensures RunAll(w, more) == R.ReleaseNow(w, id, pool, ip)
  {
    RunOne(w, more[0]);
  }

  lemma AllocationIs(w: World, one: seq<Action>, id: string, pool: string, pick: Option<Addr>, call: Call)
    requires PoolsOk(w.pools) && Allocates(w, one, id, pool, call) && Scanned(Head(w.pools[pool]).status, id, pick)
    requires call.view.value == |w.pools[pool]| - 1 && call.fault == NoFault
    ensures one == [Allocate(id, pool, |w.pools[pool]| - 1, pick, call.order, NoFault)]
  {
    assert AllGood(w.pools[pool]);
    assert GoodPool(Head(w.pools[pool]));
    ScanIsDeterministic(Head(w.pools[pool]).status, id, one[0].pick, pick);
  }

  lemma ReleaseIs(w: World, more: seq<Action>, id: string, pool: string, ip: Addr, call: Call)
    requires PoolsOk(w.pools) && Frees(w, more, id, pool, call) && Holds(Head(w.pools[pool]).status, id, ip)
    requires call.view.value == |w.pools[pool]| - 1 && call.fault == NoFault
    ensures more == [ReleaseDuplicate(id, pool, |w.pools[pool]| - 1, Some(ip), NoFault)]
  {
    assert AllGood(w.pools[pool]);
    assert GoodPool(Head(w.pools[pool]));
    if more[0].pick.Some? {
      HoldsOne(Head(w.pools[pool]).status, id, ip, more[0].pick.value);
    }
  }

  /** With the booking still there, the handler's first action is the one that meets the duplicate. */
  lemma DuplicateRunIsRecovery(w: World, one: seq<Action>, id: string, pool: string, ip: Addr, call: Call)
    requires PoolsOk(w.pools) && Allocates(w, one, id, pool, call) && Holds(Head(w.pools[pool]).status, id, ip)
    requires call.view.value == |w.pools[pool]| - 1 && call.fault == NoFault
    ensures RunAll(w, one) == R.AllocateNow(w, id, pool, None, call.order)
  {
    assert Scanned(Head(w.pools[pool]).status, id, None) by {
      assert AllGood(w.pools[pool]);
      assert GoodPool(Head(w.pools[pool]));
      R.HolderNotRemembered(Head(w.pools[pool]), id, ip);
    }
    AllocationIs(w, one, id, pool, None, call);
    AllocateRun(w, one, id, pool, None, call.order);
  }

  /** And its second action is the release of the first reconcile. */
  lemma ReleaseRunIsRecovery(w: World, more: seq<Action>, id: string, pool: string, ip: Addr, call: Call)
    requires PoolsOk(w.pools) && Frees(w, more, id, pool, call) && Holds(Head(w.pools[pool]).status, id, ip)
    requires call.view.value == |w.pools[pool]| - 1 && call.fault == NoFault
    ensures RunAll(w, more) == R.ReleaseNow(w, id, pool, ip)
  {
    ReleaseIs(w, more, id, pool, ip, call);
    ReleaseRun(w, more, id, pool, ip);
  }

  /** With the address remembered, the handler's one action is the booking step of the second reconcile. */
  lemma GrantRunIsRecovery(w: World, one: seq<Action>, id: string, pool: string, ip: Addr, call: Call)
    requires PoolsOk(w.pools) && Allocates(w, one, id, pool, call) && Scanned(Head(w.pools[pool]).status, id, Some(ip))
    requires call.view.value == |w.pools[pool]| - 1 && call.fault == NoFault
    ensures RunAll(w, one) == R.AllocateNow(w, id, pool, Some(ip), call.order)
  {
    AllocationIs(w, one, id, pool, Some(ip), call);
    AllocateRun(w, one, id, pool, Some(ip), call.order);
  }

  /** The safety theorem applies to every handler call. */
  lemma HandlerRunIsSafe(w: World, trace: seq<Action>, id: string)
    requires HandlerRun(w, trace, id)
    ensures Inv(w) ==> Inv(RunAll(w, trace)) && Safe(RunAll(w, trace))
  {
    if Inv(w) {
      RunsStaySafe(w, trace);
    }
  }

  /**
    On any pool set the webhooks let through, a LoadBalancer whose requirement has no "*" field
    selects the same pool at every reconcile, however the cache lists the pools, unless it is a
    guest cluster's and falls through to the loose retry.
   */
  lemma SelectedPoolIsStable(qs: seq<PA.Request>, pools: PA.Pools, names: seq<string>, names': seq<string>, ask: Ask,
                             loose: Listed, loose': Listed)
    requires pools == PA.HandleAll(map[], qs) && PA.Listing(pools, names) && PA.Listing(pools, names')
    requires S.Plain(RequirementOf(ask))
    requires ask.isCluster ==> S.SelectOf(PA.Candidates(pools, names), RequirementOf(ask), false).Some?
    ensures SelectedPool(ask, Some(PA.Candidates(pools, names)), loose)
            == SelectedPool(ask, Some(PA.Candidates(pools, names')), loose')
  {
    PA.StrictSelectionIsUnambiguous(qs, names, names', RequirementOf(ask));
  }

  // ----- what the selection means -----

  lemma SelectOfMeans(l: seq<S.Candidate>, r: S.Requirement, loose: bool)
    ensures S.SelectOf(l, r, loose).None? <==> forall c :: c in l ==> !c.global && !S.Eligible(c, r, loose)
    ensures S.SelectOf(l, r, loose).Some? ==>
              var c := S.SelectOf(l, r, loose).value;
              c in l && (S.Eligible(c, r, loose) || (c.global && forall d :: d in l ==> !S.Eligible(d, r, loose)))
  {
    S.BestIsBest(l, r, loose);
    S.LastGlobalIsGlobal(l);
  }

  /**
    A selected pool is a strict match, or the global pool when nothing matches; only a guest cluster
    for which the strict listing has neither may get a loose match. The namespace asked for is the
    annotated one, or the LoadBalancer's own when that is empty.
   */
  lemma SelectedPoolMeans(ask: Ask, strict: seq<S.Candidate>, loose: seq<S.Candidate>)
    ensures var r := RequirementOf(ask);
            var none := forall c :: c in strict ==> !c.global && !S.Eligible(c, r, false);
            var out := SelectedPool(ask, Some(strict), Some(loose));
            && r.network == ask.network && r.project == ask.project && r.cluster == ask.cluster
            && (r.namespace == if ask.annotated != "" then ask.annotated else ask.namespace)
            && (!none ==> out.Some? && exists c :: c in strict && c.name == out.value
                                                   && (S.Eligible(c, r, false) || c.global))
            && ((exists c :: c in strict && S.Eligible(c, r, false)) ==>
                  exists c :: c in strict && c.name == out.value && S.Eligible(c, r, false))
            && (none && !ask.isCluster ==> out.None?)
            && (none && ask.isCluster ==>
                  && (out.None? <==> forall c :: c in loose ==> !c.global && !S.Eligible(c, r, true))
                  && (out.Some? ==>
                        exists c :: c in loose && c.name == out.value && (S.Eligible(c, r, true) || c.global)))
  {
    SelectOfMeans(strict, RequirementOf(ask), false);
    SelectOfMeans(loose, RequirementOf(ask), true);
  }
}

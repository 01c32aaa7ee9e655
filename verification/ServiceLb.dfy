/**
  The manager of pkg/lb/servicelb/manager.go: it owns the stored EndpointSlice of a LoadBalancer and,
  through the embedded prober manager, the workers that watch its endpoints.
 */
module ServiceLb {
  import opened Common
  import opened LbSpecs
  import opened Text
  import opened EndpointSlices
  import opened ProbeWorker
  import PM = ProbeManager

  const NANOS: int := 1_000_000_000

  /** marshalPorberAddress. */
  function ProberAddress(hc: HealthCheck, e: Endpoint): string
    requires |e.addresses| > 0
  {
    Key(e.addresses[0], ':', Itoa(ToInt64(hc.port)))
  }

  /** generateOneProber, with its own defaults for fields that are 0. */
  function OneProber(hc: HealthCheck, e: Endpoint): HealthOption
    requires |e.addresses| > 0
  {
    HealthOption(
      ProberAddress(hc, e),
      if hc.successThreshold == 0 then 1 else hc.successThreshold,
      if hc.failureThreshold == 0 then 3 else hc.failureThreshold,
      if hc.timeoutSeconds == 0 then 3 * NANOS else Seconds(hc.timeoutSeconds),
      if hc.periodSeconds == 0 then 5 * NANOS else Seconds(hc.periodSeconds),
      if e.ready.Some? then e.ready.value else true)
  }

  predicate Watched(e: Endpoint) {
    |e.addresses| > 0 && !IsDummy(e)
  }

  /** The target map of ensureProbes: a later endpoint with the same address wins. */
  function TargetOf(hc: HealthCheck, es: seq<Endpoint>): map<string, HealthOption> {
    if |es| == 0 then map[]
    else
      var init, e := TargetOf(hc, es[..|es| - 1]), es[|es| - 1];
      if Watched(e) then init[ProberAddress(hc, e) := OneProber(hc, e)] else init
  }

  /** The addresses of the endpoints that have one and are not the dummy. */
  ghost function WatchedAddresses(hc: HealthCheck, es: seq<Endpoint>): set<string> {
    set e | e in es && |e.addresses| > 0 && !(e.target.Some? && e.target.value.uid == DUMMY_ID) :: ProberAddress(hc, e)
  }

  /** The target watches exactly the addresses of the real endpoints, each under its own address. */
  lemma {:induction false} TargetWatchesReal(hc: HealthCheck, es: seq<Endpoint>)
    ensures TargetOf(hc, es).Keys == WatchedAddresses(hc, es)
    ensures forall a :: a in TargetOf(hc, es) ==> TargetOf(hc, es)[a].address == a
  {
    if |es| > 0 {
      var init, e := es[..|es| - 1], es[|es| - 1];
      TargetWatchesReal(hc, init);
      assert es == init + [e];
      assert WatchedAddresses(hc, es)
          == WatchedAddresses(hc, init) + (if Watched(e) then {ProberAddress(hc, e)} else {});
    }
  }

  /** What the workers of this LoadBalancer are after its probes are ensured. */
  ghost predicate ProbesEnsured(before: map<string, PM.WorkerMap>, now: map<string, PM.WorkerMap>, first: nat,
                                lb: LbSpec, es: seq<Endpoint>) {
    && now - {lb.Uid()} == before - {lb.Uid()}
    && if lb.Probing() then
         var target := TargetOf(lb.healthCheck.value, es);
         PM.Reached(PM.WorkersOf(before, lb.Uid()), target, PM.WorkersOf(now, lb.Uid()), first)
       else lb.Uid() !in now
  }

  /** A virtual machine instance as the cache lists it. */
  datatype Vmi = Vmi(server: Server, deleting: bool)

  /**
    What EnsureBackendServers finds: the service, whether the slice cache answers, whether the spec
    selects servers at all, and the selected machines (None when the selector or the listing fails).
   */
  datatype Lookups = Lookups(service: bool, slice: bool, selecting: bool, machines: Option<seq<Vmi>>)

  function Live(vmis: seq<Vmi>): seq<Server> {
    if |vmis| == 0 then []
    else
      var init, v := Live(vmis[..|vmis| - 1]), vmis[|vmis| - 1];
      if v.deleting then init else init + [v.server]
  }

  function ServersFound(found: Lookups): Option<seq<Server>> {
    if !found.selecting then Some([])
    else if found.machines.None? then None
    else Some(Addressed(Live(found.machines.value)))
  }

  predicate Answered(found: Lookups) {
    found.service && found.slice && ServersFound(found).Some?
  }

  lemma AddressedSnoc(servers: seq<Server>, s: Server)
    ensures Addressed(servers + [s]) == Addressed(servers) + (if s.address.Some? then [s] else [])
  {
    assert (servers + [s])[..|servers|] == servers;
  }

  class Manager {
    var stored: Store
    const probers: PM.Manager

    constructor (st: Store)
      ensures stored == st && probers.workers == map[] && fresh(probers)
    {
      stored := st;
      probers := new PM.Manager();
    }

    method Write(slice: Slice, version: nat, fault: Fault) returns (err: bool)
      modifies this
      ensures (stored, err) == Put(old(stored), version, slice, fault)
    {
      var r := Put(stored, version, slice, fault);
      stored, err := r.0, r.1;
    }

    method UpdateAllConditions(eps: Slice, version: nat, ready: bool, fault: Fault) returns (err: bool)
      modifies this
      ensures (stored, err) == ConditionsOf(old(stored), eps, version, ready, fault)
    {
      var copy := eps.endpoints;
      var updated := false;
      for i := 0 to |copy|
        invariant |copy| == |eps.endpoints| && stored == old(stored)
        invariant forall k :: 0 <= k < i ==> copy[k] == AllSet(eps.endpoints, ready)[k]
        invariant forall k :: i <= k < |copy| ==> copy[k] == eps.endpoints[k]
        invariant updated <==> exists k :: 0 <= k < i && copy[k] != eps.endpoints[k]
      {
        if !IsDummy(copy[i]) && NeedsUpdate(copy[i], ready) {
          copy := copy[i := copy[i].(ready := Some(ready))];
          updated := true;
          assert copy[i] != eps.endpoints[i];
        }
      }
      assert copy == AllSet(eps.endpoints, ready);
      err := false;
      if updated {
        err := Write(eps.(endpoints := copy), version, fault);
      }
    }

    method EnsureDummyEndpoint(eps: Slice, version: nat, lb: LbSpec, fault: Fault) returns (err: bool)
      modifies this
      ensures (stored, err) == DummyOf(old(stored), eps, version, lb, fault)
    {
      var dummyCount, activeCount := 0, 0;
      var es := eps.endpoints;
      for i := 0 to |es|
        invariant dummyCount > 0 <==> exists k :: 0 <= k < i && IsDummy(es[k])
        invariant activeCount > 0 <==> exists k :: 0 <= k < i && !IsDummy(es[k]) && IsReady(es[k])
        invariant dummyCount >= 0 && activeCount >= 0 && stored == old(stored)
      {
        if IsDummy(es[i]) {
          dummyCount := dummyCount + 1;
        } else if IsReady(es[i]) {
          activeCount := activeCount + 1;
        }
      }
      err := false;
      if activeCount == 0 && dummyCount == 0 {
        err := Write(eps.(endpoints := es + [DummyEndpoint(lb)]), version, fault);
      } else if activeCount > 0 && dummyCount > 0 {
        err := Write(eps.(endpoints := WithoutDummies(es)), version, fault);
      }
    }

    /** ensureProbes, up to the conditions it sets when probing is off. */
    method EnsureProbers(lb: LbSpec, eps: Slice)
      requires PM.Filed(PM.WorkersOf(probers.workers, lb.Uid()))
      modifies probers
      ensures ProbesEnsured(old(probers.workers), probers.workers, old(probers.nextId), lb, eps.endpoints)
      ensures PM.Filed(PM.WorkersOf(probers.workers, lb.Uid()))
    {
      if !lb.Probing() {
        var _ := probers.RemoveWorkersByUid(lb.Uid());
        return;
      }
      var hc, es := lb.healthCheck.value, eps.endpoints;
      var target := map[];
      for i := 0 to |es|
        invariant target == TargetOf(hc, es[..i]) && probers.workers == old(probers.workers)
                  && probers.nextId == old(probers.nextId)
      {
        assert es[..i + 1][..i] == es[..i];
        if |es[i].addresses| == 0 || IsDummy(es[i]) {
          continue;
        }
        target := target[ProberAddress(hc, es[i]) := OneProber(hc, es[i])];
      }
      assert es[..|es|] == es;
      TargetWatchesReal(hc, es);
      var active := probers.GetWorkerHealthOptionMap(lb.Uid());
      probers.UpdateAllProbers(lb.Uid(), active, target);
    }

    /** getServiceBackendServers: the live machines that have an address, in listing order, and how many live. */
    method BackendServers(found: Lookups) returns (r: Option<seq<Server>>, matched: nat)
      ensures r == ServersFound(found)
      ensures r.None? <==> found.selecting && found.machines.None?
      ensures !found.selecting ==> r == Some([])
      ensures r.Some? && found.selecting ==> matched == |Live(found.machines.value)|
    {
      if !found.selecting {
        return Some([]), 0;
      }
      if found.machines.None? {
        return None, 0;
      }
      var vmis := found.machines.value;
      var servers := [];
      matched := 0;
      for i := 0 to |vmis|
        invariant servers == Addressed(Live(vmis[..i])) && matched == |Live(vmis[..i])|
      {
        assert vmis[..i + 1][..i] == vmis[..i];
        if vmis[i].deleting {
          continue;
        }
        AddressedSnoc(Live(vmis[..i]), vmis[i].server);
        matched := matched + 1;
        if vmis[i].server.address.Some? {
          servers := servers + [vmis[i].server];
        }
      }
      assert vmis[..|vmis|] == vmis;
      return Some(servers), matched;
    }

    /** EnsureBackendServers: a lookup that fails changes nothing. */
    method EnsureBackendServers(lb: LbSpec, found: Lookups, f: Faults) returns (err: bool)
      requires PM.Filed(PM.WorkersOf(probers.workers, lb.Uid()))
      modifies this, probers
      ensures Answered(found) <==> found.service && found.slice && (found.selecting ==> found.machines.Some?)
      ensures !Answered(found) ==> err && stored == old(stored) && probers.workers == old(probers.workers)
      ensures Answered(found) ==>
                var servers := ServersFound(found).value;
                && (stored, err) == EnsureOf(old(stored), lb, servers, f)
                && (!err && (forall s :: s in servers ==> s.uid != DUMMY_ID) ==>
                      stored.slice.Some? && Routable(stored.slice.value.endpoints))
                && (!err ==> var es := ConstructOf(old(stored).slice, lb, servers).value.endpoints;
                             ProbesEnsured(old(probers.workers), probers.workers, old(probers.nextId), lb, es))
      ensures PM.Filed(PM.WorkersOf(probers.workers, lb.Uid()))
      ensures probers.workers - {lb.Uid()} == old(probers.workers) - {lb.Uid()}
    {
      if !found.service || !found.slice {
        return true;
      }
      var servers, _ := BackendServers(found);
      if servers.None? {
        return true;
      }
      err := EnsureServers(lb, servers.value, f);
    }

    /** The rest of it, for the servers found. */
    method EnsureServers(lb: LbSpec, servers: seq<Server>, f: Faults) returns (err: bool)
      requires PM.Filed(PM.WorkersOf(probers.workers, lb.Uid()))
      modifies this, probers
      ensures (stored, err) == EnsureOf(old(stored), lb, servers, f)
      ensures PM.Filed(PM.WorkersOf(probers.workers, lb.Uid()))
      ensures !err && (forall s :: s in servers ==> s.uid != DUMMY_ID) ==>
                stored.slice.Some? && Routable(stored.slice.value.endpoints)
      ensures !err ==> var es := ConstructOf(old(stored).slice, lb, servers).value.endpoints;
                       ProbesEnsured(old(probers.workers), probers.workers, old(probers.nextId), lb, es)
      ensures probers.workers - {lb.Uid()} == old(probers.workers) - {lb.Uid()}
    {
      var built := Construct(stored.slice, lb, servers);
      if built.Err? {
        return true;
      }
      err := false;
      if stored.slice != Some(built.value) {
        err := Write(built.value, stored.version, f.main);
        if err {
          return;
        }
      }
      var version := stored.version;
      EnsureProbers(lb, built.value);
      if !lb.Probing() {
        err := UpdateAllConditions(built.value, version, true, f.conditions);
        if err {
          return;
        }
      }
      err := EnsureDummyEndpoint(built.value, version, lb, f.dummy);
      if !err && forall s :: s in servers ==> s.uid != DUMMY_ID {
        EnsuredIsRoutable(old(stored), lb, servers, f);
      }
    }

    /**
      updateHealthCondition, the consumer's handler, on the slice and version the cache holds (maybe
      an old one). The LoadBalancer controller is notified before the write.
     */
    method UpdateHealthCondition(uid: string, address: string, healthy: bool, cached: Option<(Slice, nat)>,
                                 notifyFails: bool, fault: Fault)
      returns (err: bool)
      modifies this
      ensures (stored, err) == NoticeOf(old(stored), uid, address, healthy, cached, notifyFails, fault)
    {
      var lbName := UnmarshalPair(uid, '/');
      if lbName.Err? {
        return true;
      }
      if cached.None? {
        return false;
      }
      var parts := UnmarshalPair(address, ':');
      if parts.Err? {
        return true;
      }
      var ip, eps := parts.value.0, cached.value.0;
      var es := eps.endpoints;
      for i := 0 to |es|
        invariant stored == old(stored)
        invariant forall k :: 0 <= k < i ==> Passed(es[k], ip)
      {
        HealthDecidedAt(es, i, ip, healthy);
        if |es[i].addresses| != 1 {
          return true;
        }
        if es[i].addresses[0] == ip {
          assert es[i].addresses == [ip];
          if NeedsUpdate(es[i], healthy) {
            if notifyFails {
              return true;
            }
            var copy := es[i := es[i].(ready := Some(healthy))];
            err := Write(eps.(endpoints := copy), cached.value.1, fault);
            return;
          }
          return false;
        }
      }
      HealthDecidedAt(es, |es|, ip, healthy);
      return false;
    }
  }

  /** One health notice against the stored slice. */
  function NoticeOf(st: Store, uid: string, address: string, healthy: bool, cached: Option<(Slice, nat)>,
                    notifyFails: bool, fault: Fault): (Store, bool) {
    if UnmarshalPair(uid, '/').Err? then (st, true)
    else if cached.None? then (st, false)
    else
      var parts := UnmarshalPair(address, ':');
      if parts.Err? then (st, true)
      else
        var r := HealthOf(cached.value.0.endpoints, parts.value.0, healthy);
        if r.Err? then (st, true)
        else if r.value.None? then (st, false)
        else if notifyFails then (st, true)
        else Put(st, cached.value.1, cached.value.0.(endpoints := r.value.value), fault)
  }

  /**
    From worker to endpoint: the notice a worker sends under the address it was given lands on the
    endpoint it was made for, and only on its condition.
   */
  lemma WorkerNoticeLands(st: Store, lb: LbSpec, i: nat, healthy: bool)
    requires lb.Probing() && '/' !in lb.namespace && '/' !in lb.name && st.slice.Some?
    requires forall e :: e in st.slice.value.endpoints ==> |e.addresses| == 1
    requires var es := st.slice.value.endpoints; forall k, l :: 0 <= k < l < |es| ==> es[k].addresses != es[l].addresses
    requires i < |st.slice.value.endpoints| && ':' !in st.slice.value.endpoints[i].addresses[0]
    ensures var slice := st.slice.value;
            var e := slice.endpoints[i];
            var address := ProberAddress(lb.healthCheck.value, e);
            var r := NoticeOf(st, lb.Uid(), address, healthy, Some((slice, st.version)), false, NoFault);
            && !r.1
            && r.0.slice == Some(slice.(endpoints := slice.endpoints[i := e.(ready := Some(healthy))]))
  {
    var es := st.slice.value.endpoints;
    var e := es[i];
    UidRoundTrip(lb.namespace, lb.name);
    ProberAddressRoundTrip(e.addresses[0], ToInt64(lb.healthCheck.value.port));
    assert e in es && e.addresses == [e.addresses[0]];
    NoticeReachesItsEndpoint(es, i, e.addresses[0], healthy);
    if !NeedsUpdate(e, healthy) {
      assert es[i := e.(ready := Some(healthy))] == es;
    }
  }

  // ----- what is probed, and how -----

  /** A prober connects to the endpoint's address on the health check's port. */
  lemma ProberAddressNames(hc: HealthCheck, e: Endpoint)
    requires |e.addresses| > 0 && hc.port < TWO63
    ensures ':' !in e.addresses[0] ==>
              && UnmarshalPair(ProberAddress(hc, e), ':') == Ok((e.addresses[0], Itoa(hc.port)))
              && (forall i :: 0 <= i < |Itoa(hc.port)| ==> '0' <= Itoa(hc.port)[i] <= '9')
              && Value(Itoa(hc.port)) == hc.port
  {
    ProberAddressRoundTrip(e.addresses[0], hc.port);
    DigitsSpell(hc.port);
  }

  /** The settings of a prober: the spec's, or 1, 3, three seconds and five; it starts from the endpoint's condition. */
  lemma ProberSettings(hc: HealthCheck, e: Endpoint)
    requires |e.addresses| > 0
    ensures var o := OneProber(hc, e);
            && o.address == ProberAddress(hc, e)
            && (o.successThreshold == if hc.successThreshold > 0 then hc.successThreshold else 1)
            && (o.failureThreshold == if hc.failureThreshold > 0 then hc.failureThreshold else 3)
            && (o.timeout == if hc.timeoutSeconds > 0 then Seconds(hc.timeoutSeconds) else 3_000_000_000)
            && (o.period == if hc.periodSeconds > 0 then Seconds(hc.periodSeconds) else 5_000_000_000)
            && (o.initialCondition <==> e.ready != Some(false))
  {
  }

  /** Each real endpoint is watched with its own settings, unless a later one has the same address. */
  lemma {:induction false} TargetHasItsProber(hc: HealthCheck, es: seq<Endpoint>, i: nat)
    requires i < |es| && Watched(es[i])
    requires forall k :: i < k < |es| && Watched(es[k]) ==> ProberAddress(hc, es[k]) != ProberAddress(hc, es[i])
    ensures ProberAddress(hc, es[i]) in TargetOf(hc, es)
    ensures TargetOf(hc, es)[ProberAddress(hc, es[i])] == OneProber(hc, es[i])
  {
    if i < |es| - 1 {
      var init := es[..|es| - 1];
      assert init[i] == es[i];
      assert forall k :: i < k < |init| && Watched(init[k]) ==> init[k] == es[k];
      TargetHasItsProber(hc, init, i);
    }
  }

  /** Live keeps exactly the machines that are not being deleted, in order. */
  lemma {:induction false} LiveFilters(a: seq<Vmi>, b: seq<Vmi>, v: Vmi)
    ensures Live(a + b) == Live(a) + Live(b)
    ensures Live([v]) == if v.deleting then [] else [v.server]
    decreases |b|
  {
    assert [v][..0] == [];
    if |b| == 0 {
      assert a + b == a;
    } else {
      var init := b[..|b| - 1];
      LiveFilters(a, init, v);
      assert (a + b)[..|a + b| - 1] == a + init;
    }
  }

  /** A notice that cannot be placed or announced leaves the slice: when it is an error and when it is not. */
  lemma NoticeWithoutWrite(st: Store, uid: string, address: string, healthy: bool, cached: Option<(Slice, nat)>,
                           fault: Fault)
    ensures UnmarshalPair(uid, '/').Err? ==>
              forall fails :: NoticeOf(st, uid, address, healthy, cached, fails, fault) == (st, true)
    ensures UnmarshalPair(uid, '/').Ok? && cached.None? ==>
              forall fails :: NoticeOf(st, uid, address, healthy, cached, fails, fault) == (st, false)
    ensures UnmarshalPair(uid, '/').Ok? && cached.Some? && UnmarshalPair(address, ':').Err? ==>
              forall fails :: NoticeOf(st, uid, address, healthy, cached, fails, fault) == (st, true)
    ensures NoticeOf(st, uid, address, healthy, cached, true, fault).0 == st
    ensures NoticeOf(st, uid, address, healthy, cached, false, fault).0 != st ==>
              NoticeOf(st, uid, address, healthy, cached, true, fault).1
  {
  }
}

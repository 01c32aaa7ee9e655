/**
  EndpointSlice reconciliation of pkg/lb/servicelb/manager.go. The stored slice is version-guarded;
  a reconcile reads the current slice and no other writer interleaves.
 */
module EndpointSlices {
  import opened Common
  import opened LbSpecs

  datatype Ref = Ref(namespace: string, name: string, uid: string)

  datatype Endpoint = Endpoint(addresses: seq<string>, target: Option<Ref>, ready: Option<bool>)

  datatype Port = Port(name: string, protocol: string, port: Int32)

  datatype Slice = Slice(ports: seq<Port>, endpoints: seq<Endpoint>)

  /** A backend server; the address is None when no interface has an IPv4 address. */
  datatype Server = Server(namespace: string, name: string, uid: string, address: Option<string>)

  const DUMMY_ID := "dummy347-546a-4642-9da6-5608endpoint"

  const DUMMY_ADDRESS := "10.52.0.255"

  function DummyEndpoint(lb: LbSpec): Endpoint {
    Endpoint([DUMMY_ADDRESS], Some(Ref(lb.namespace, lb.name, DUMMY_ID)), Some(true))
  }

  predicate IsDummy(e: Endpoint) {
    e.target.Some? && e.target.value.uid == DUMMY_ID
  }

  predicate IsReady(e: Endpoint) {
    e.ready == Some(true)
  }

  predicate NeedsUpdate(e: Endpoint, ready: bool) {
    e.ready != Some(ready)
  }

  // ----- construction -----

  predicate SameBackend(e: Endpoint, s: Server) {
    e.target.Some? && e.target.value.uid == s.uid && s.address.Some? && e.addresses == [s.address.value]
  }

  function NewEndpoint(s: Server): Endpoint
    requires s.address.Some?
  {
    Endpoint([s.address.value], Some(Ref(s.namespace, s.name, s.uid)), Some(false))
  }

  /** Look for the server among the old endpoints; a malformed endpoint met on the way is an error. */
  function Scan(old_: seq<Endpoint>, s: Server): Result<Option<Endpoint>, ()> {
    if |old_| == 0 then Ok(None)
    else if |old_[0].addresses| != 1 then Err(())
    else if SameBackend(old_[0], s) then Ok(Some(old_[0]))
    else Scan(old_[1..], s)
  }

  /** The endpoints for the servers, in order. */
  function Built(old_: seq<Endpoint>, servers: seq<Server>): Result<seq<Endpoint>, ()> {
    if |servers| == 0 then Ok([])
    else
      var init, s := Built(old_, servers[..|servers| - 1]), servers[|servers| - 1];
      if init.Err? || s.address.None? then init
      else
        match Scan(old_, s)
        case Err(_) => Err(())
        case Ok(found) => Ok(init.value + [if found.Some? then found.value else NewEndpoint(s)])
  }

  /** One slice port per listener, on its backend port. */
  function PortsOf(ls: seq<Listener>): (r: seq<Port>)
    ensures |r| == |ls|
  {
    seq(|ls|, i requires 0 <= i < |ls| => Port(ls[i].name, ls[i].protocol, ls[i].backendPort))
  }

  function OldEndpoints(cur: Option<Slice>): seq<Endpoint> {
    if cur.Some? then cur.value.endpoints else []
  }

  function ConstructOf(cur: Option<Slice>, lb: LbSpec, servers: seq<Server>): Result<Slice, ()> {
    match Built(OldEndpoints(cur), servers)
    case Err(_) => Err(())
    case Ok(es) => Ok(Slice(PortsOf(lb.listeners), if |es| == 0 then [DummyEndpoint(lb)] else es))
  }

  lemma {:induction false} BuiltErrSticks(old_: seq<Endpoint>, servers: seq<Server>, n: nat)
    requires n <= |servers| && Built(old_, servers[..n]).Err?
    ensures Built(old_, servers).Err?
    decreases |servers|
  {
    if n < |servers| {
      assert servers[..|servers| - 1][..n] == servers[..n];
      BuiltErrSticks(old_, servers[..|servers| - 1], n);
    } else {
      assert servers[..n] == servers;
    }
  }

  /** constructEndpointSliceFromBackendServers. */
  method Construct(cur: Option<Slice>, lb: LbSpec, servers: seq<Server>) returns (r: Result<Slice, ()>)
    ensures r == ConstructOf(cur, lb, servers)
  {
    var ports := [];
    for i := 0 to |lb.listeners|
      invariant ports == PortsOf(lb.listeners)[..i]
    {
      var l := lb.listeners[i];
      ports := ports + [Port(l.name, l.protocol, l.backendPort)];
    }
    assert ports == PortsOf(lb.listeners);
    var old_ := OldEndpoints(cur);
    var endpoints := [];
    for i := 0 to |servers|
      invariant Built(old_, servers[..i]) == Ok(endpoints)
    {
      assert servers[..i + 1][..i] == servers[..i];
      var s := servers[i];
      if s.address.None? {
        continue;
      }
      var existing := false;
      var j := 0;
      while j < |old_|
        invariant 0 <= j <= |old_| && !existing
        invariant Scan(old_, s) == Scan(old_[j..], s)
      {
        if |old_[j].addresses| != 1 {
          BuiltErrSticks(old_, servers, i + 1);
          return Err(());
        }
        if old_[j].target.Some? && s.uid == old_[j].target.value.uid && s.address.value == old_[j].addresses[0] {
          assert old_[j].addresses == [s.address.value];
          existing := true;
          endpoints := endpoints + [old_[j]];
          break;
        }
        assert old_[j..][1..] == old_[j + 1..];
        j := j + 1;
      }
      if !existing {
        endpoints := endpoints + [NewEndpoint(s)];
      }
    }
    assert servers[..|servers|] == servers;
    if |endpoints| == 0 {
      endpoints := endpoints + [DummyEndpoint(lb)];
      assert endpoints == [DummyEndpoint(lb)];
    }
    return Ok(Slice(ports, endpoints));
  }

  function Addressed(servers: seq<Server>): (r: seq<Server>)
    ensures forall i :: 0 <= i < |r| ==> r[i] in servers && r[i].address.Some?
  {
    if |servers| == 0 then []
    else
      var init := Addressed(servers[..|servers| - 1]);
      if servers[|servers| - 1].address.Some? then init + [servers[|servers| - 1]] else init
  }

  /** Addressed keeps exactly the servers with an address, in order: it maps concatenation to concatenation. */
  lemma {:induction false} AddressedFilters(a: seq<Server>, b: seq<Server>, s: Server)
    ensures Addressed(a + b) == Addressed(a) + Addressed(b)
    ensures Addressed([s]) == if s.address.Some? then [s] else []
    decreases |b|
  {
    assert [s][..0] == [];
    if |b| == 0 {
      assert a + b == a;
    } else {
      var init, last := b[..|b| - 1], b[|b| - 1];
      AddressedFilters(a, init, s);
      assert (a + b)[..|a + b| - 1] == a + init;
    }
  }

  lemma ScanMeans(old_: seq<Endpoint>, s: Server)
    requires Scan(old_, s).Ok?
    ensures Scan(old_, s).value.Some? <==> exists e :: e in old_ && SameBackend(e, s)
    ensures Scan(old_, s).value.Some? ==> Scan(old_, s).value.value in old_ && SameBackend(Scan(old_, s).value.value, s)
  {
    if |old_| > 0 && !SameBackend(old_[0], s) {
      ScanMeans(old_[1..], s);
      assert old_ == [old_[0]] + old_[1..];
    }
  }

  /** The scan fails exactly when a malformed endpoint comes before the first match. */
  lemma {:induction false} ScanFailsIff(old_: seq<Endpoint>, s: Server)
    ensures Scan(old_, s).Err? <==>
            exists j :: 0 <= j < |old_| && |old_[j].addresses| != 1
                        && forall k :: 0 <= k < j ==> !SameBackend(old_[k], s)
  {
    if |old_| > 0 {
      var rest := old_[1..];
      ScanFailsIff(rest, s);
      if j :| 0 <= j < |rest| && |rest[j].addresses| != 1 && forall k :: 0 <= k < j ==> !SameBackend(rest[k], s) {
        if !SameBackend(old_[0], s) {
          assert |old_[j + 1].addresses| != 1;
          assert forall k :: 0 < k < j + 1 ==> old_[k] == rest[k - 1];
        }
      }
      if j :| 0 < j < |old_| && |old_[j].addresses| != 1 && forall k :: 0 <= k < j ==> !SameBackend(old_[k], s) {
        assert |rest[j - 1].addresses| != 1;
        assert forall k :: 0 <= k < j - 1 ==> rest[k] == old_[k + 1];
      }
    }
  }

  /** Construction fails exactly when the scan for some addressed server does. */
  lemma {:induction false} BuiltFailsIff(old_: seq<Endpoint>, servers: seq<Server>)
    ensures Built(old_, servers).Err? <==>
            exists i :: 0 <= i < |servers| && servers[i].address.Some? && Scan(old_, servers[i]).Err?
  {
    if |servers| > 0 {
      var init, last := servers[..|servers| - 1], |servers| - 1;
      BuiltFailsIff(old_, init);
      if i :| 0 <= i < |init| && init[i].address.Some? && Scan(old_, init[i]).Err? {
        assert servers[i] == init[i];
      }
      if i :| 0 <= i < |servers| && servers[i].address.Some? && Scan(old_, servers[i]).Err? {
        assert i < last ==> init[i] == servers[i];
      }
    }
  }

  /** What an endpoint of the new slice has to do with its server and with the old slice. */
  ghost predicate Stands(old_: seq<Endpoint>, s: Server, e: Endpoint) {
    && s.address.Some? && e.addresses == [s.address.value]
    && e.target.Some? && e.target.value.uid == s.uid
    && (if exists o :: o in old_ && o.target.Some? && o.target.value.uid == s.uid && o.addresses == [s.address.value]
        then e in old_ else e.ready == Some(false) && e.target == Some(Ref(s.namespace, s.name, s.uid)))
  }

  /**
    One endpoint per addressed server, in server order: the old endpoint with its condition exactly
    when one matches the server's uid and address, otherwise a new one that is not ready.
   */
  lemma {:induction false} BuiltStands(old_: seq<Endpoint>, servers: seq<Server>)
    requires Built(old_, servers).Ok?
    ensures var es, ss := Built(old_, servers).value, Addressed(servers);
            && |es| == |ss|
            && forall i :: 0 <= i < |ss| ==> Stands(old_, ss[i], es[i])
  {
    if |servers| > 0 {
      var init, s := servers[..|servers| - 1], servers[|servers| - 1];
      BuiltStands(old_, init);
      if s.address.Some? {
        ScanMeans(old_, s);
      }
    }
  }

  /** A slice built from nothing has no ready endpoint but a dummy: nobody gets traffic unprobed. */
  lemma FreshSliceIsNotReady(lb: LbSpec, servers: seq<Server>)
    requires forall s :: s in servers ==> s.uid != DUMMY_ID
    ensures ConstructOf(None, lb, servers).Ok?
    ensures var es := ConstructOf(None, lb, servers).value.endpoints;
            forall i :: 0 <= i < |es| ==> IsDummy(es[i]) || es[i].ready == Some(false)
  {
    NothingToTrip(servers);
    BuiltStands([], servers);
    var es, ss := Built([], servers).value, Addressed(servers);
    forall i | 0 <= i < |es| ensures es[i].ready == Some(false) {
      assert Stands([], ss[i], es[i]);
    }
  }

  lemma {:induction false} NothingToTrip(servers: seq<Server>)
    ensures Built([], servers).Ok?
  {
    if |servers| > 0 {
      NothingToTrip(servers[..|servers| - 1]);
    }
  }

  /** The ports of a constructed slice are the listeners', in order, on their backend ports. */
  lemma PortsFollowListeners(cur: Option<Slice>, lb: LbSpec, servers: seq<Server>)
    requires ConstructOf(cur, lb, servers).Ok?
    ensures var ports := ConstructOf(cur, lb, servers).value.ports;
            && |ports| == |lb.listeners|
            && forall i :: 0 <= i < |ports| ==>
                 && ports[i].name == lb.listeners[i].name && ports[i].protocol == lb.listeners[i].protocol
                 && ports[i].port == lb.listeners[i].backendPort
  {
  }

  /** The new slice holds only real endpoints, or exactly one dummy; every endpoint has a target. */
  lemma ConstructShape(cur: Option<Slice>, lb: LbSpec, servers: seq<Server>)
    requires ConstructOf(cur, lb, servers).Ok?
    requires forall s :: s in servers ==> s.uid != DUMMY_ID
    ensures var es := ConstructOf(cur, lb, servers).value.endpoints;
            && |es| > 0
            && (forall i :: 0 <= i < |es| ==> es[i].target.Some? && |es[i].addresses| == 1)
            && (es == [DummyEndpoint(lb)] || forall i :: 0 <= i < |es| ==> !IsDummy(es[i]))
            && (es == [DummyEndpoint(lb)] <==> |Addressed(servers)| == 0)
            && (|Addressed(servers)| == 0 ==>
                  var ref := Ref(lb.namespace, lb.name, "dummy347-546a-4642-9da6-5608endpoint");
                  es == [Endpoint(["10.52.0.255"], Some(ref), Some(true))])
  {
    var old_ := OldEndpoints(cur);
    BuiltStands(old_, servers);
    var es, ss := Built(old_, servers).value, Addressed(servers);
    forall i | 0 <= i < |es| ensures es[i].target.Some? && |es[i].addresses| == 1 && !IsDummy(es[i]) {
      assert Stands(old_, ss[i], es[i]);
    }
    if |es| > 0 {
      assert !IsDummy(es[0]);
    }
  }

  // ----- idempotence -----

  ghost predicate Distinct(ss: seq<Server>) {
    forall i, j :: 0 <= i < j < |ss| ==> ss[i].uid != ss[j].uid || ss[i].address != ss[j].address
  }

  /** Among endpoints that stand for distinct servers, each server finds its own. */
  lemma {:induction false} ScanFindsOwn(es: seq<Endpoint>, ss: seq<Server>, i: nat, k: nat)
    requires |es| == |ss| && k <= i < |ss| && Distinct(ss)
    requires forall j :: 0 <= j < |ss| ==> SameBackend(es[j], ss[j])
    ensures Scan(es[k..], ss[i]) == Ok(Some(es[i]))
    decreases i - k
  {
    assert es[k..][0] == es[k];
    if k < i {
      assert es[k..][1..] == es[k + 1..];
      assert !SameBackend(es[k], ss[i]);
      ScanFindsOwn(es, ss, i, k + 1);
    }
  }

  lemma BuiltOneMore(es: seq<Endpoint>, servers: seq<Server>, m: nat)
    requires |servers| > 0 && m < |es| && servers[|servers| - 1].address.Some?
    requires Built(es, servers[..|servers| - 1]) == Ok(es[..m])
    requires Scan(es, servers[|servers| - 1]) == Ok(Some(es[m]))
    ensures Built(es, servers) == Ok(es[..m + 1])
  {
    assert es[..m] + [es[m]] == es[..m + 1];
  }

  lemma {:induction false} RebuiltIsSame(es: seq<Endpoint>, servers: seq<Server>, n: nat)
    requires |es| == |Addressed(servers)| && Distinct(Addressed(servers)) && n <= |servers|
    requires forall j :: 0 <= j < |es| ==> SameBackend(es[j], Addressed(servers)[j])
    ensures |Addressed(servers[..n])| <= |es|
    ensures Addressed(servers[..n]) == Addressed(servers)[..|Addressed(servers[..n])|]
    ensures Built(es, servers[..n]) == Ok(es[..|Addressed(servers[..n])|])
  {
    AddressedPrefix(servers, n);
    if n > 0 {
      RebuiltIsSame(es, servers, n - 1);
      assert servers[..n][..n - 1] == servers[..n - 1];
      var s, m := servers[n - 1], |Addressed(servers[..n - 1])|;
      if s.address.Some? {
        assert Addressed(servers)[m] == s;
        ScanFindsOwn(es, Addressed(servers), m, 0);
        assert es[0..] == es;
        BuiltOneMore(es, servers[..n], m);
      }
    }
  }

  lemma {:induction false} AddressedPrefix(servers: seq<Server>, n: nat)
    requires n <= |servers|
    ensures Addressed(servers[..n]) <= Addressed(servers)
    decreases |servers|
  {
    if n < |servers| {
      var init := servers[..|servers| - 1];
      assert init[..n] == servers[..n];
      AddressedPrefix(init, n);
    } else {
      assert servers[..n] == servers;
    }
  }

  /** Constructing again from the result, for servers with distinct uid and address, changes nothing. */
  lemma ConstructIsIdempotent(cur: Option<Slice>, lb: LbSpec, servers: seq<Server>)
    requires ConstructOf(cur, lb, servers).Ok? && Distinct(Addressed(servers))
    ensures ConstructOf(Some(ConstructOf(cur, lb, servers).value), lb, servers) == ConstructOf(cur, lb, servers)
  {
    var out := ConstructOf(cur, lb, servers).value;
    BuiltStands(OldEndpoints(cur), servers);
    var es := Built(OldEndpoints(cur), servers).value;
    assert servers[..|servers|] == servers;
    if |es| == 0 {
      NobodyBuilt(out.endpoints, servers);
    } else {
      forall j | 0 <= j < |es| ensures SameBackend(es[j], Addressed(servers)[j]) {
        assert Stands(OldEndpoints(cur), Addressed(servers)[j], es[j]);
      }
      RebuiltIsSame(es, servers, |servers|);
      assert es[..|es|] == es;
    }
  }

  lemma {:induction false} NobodyBuilt(old_: seq<Endpoint>, servers: seq<Server>)
    requires |Addressed(servers)| == 0
    ensures Built(old_, servers) == Ok([])
  {
    if |servers| > 0 {
      NobodyBuilt(old_, servers[..|servers| - 1]);
    }
  }

  // ----- the stored slice -----

  datatype Store = Store(slice: Option<Slice>, version: nat)

  datatype Faults = Faults(main: Fault, conditions: Fault, dummy: Fault)

  function Put(st: Store, version: nat, slice: Slice, fault: Fault): (Store, bool) {
    (if fault != Dropped && version == st.version then Store(Some(slice), st.version + 1) else st,
     fault != NoFault || version != st.version)
  }

  /** Every real endpoint gets the given condition. */
  function AllSet(es: seq<Endpoint>, ready: bool): (r: seq<Endpoint>)
    ensures |r| == |es|
    ensures forall i :: 0 <= i < |es| ==> r[i] == (if IsDummy(es[i]) then es[i] else es[i].(ready := Some(ready)))
  {
    seq(|es|, i requires 0 <= i < |es| => if IsDummy(es[i]) then es[i] else es[i].(ready := Some(ready)))
  }

  /** updateAllConditions, on the slice and version the caller holds. */
  function ConditionsOf(st: Store, eps: Slice, version: nat, ready: bool, fault: Fault): (Store, bool) {
    var updated := AllSet(eps.endpoints, ready);
    if updated == eps.endpoints then (st, false) else Put(st, version, eps.(endpoints := updated), fault)
  }

  predicate HasDummy(es: seq<Endpoint>) {
    exists i :: 0 <= i < |es| && IsDummy(es[i])
  }

  predicate HasActive(es: seq<Endpoint>) {
    exists i :: 0 <= i < |es| && !IsDummy(es[i]) && IsReady(es[i])
  }

  function WithoutDummies(es: seq<Endpoint>): seq<Endpoint> {
    if |es| == 0 then []
    else
      var init := WithoutDummies(es[..|es| - 1]);
      if IsDummy(es[|es| - 1]) then init else init + [es[|es| - 1]]
  }

  /** ensureDummyEndpoint, on the slice and version the caller holds. */
  function DummyOf(st: Store, eps: Slice, version: nat, lb: LbSpec, fault: Fault): (Store, bool) {
    if !HasActive(eps.endpoints) && !HasDummy(eps.endpoints) then
      Put(st, version, eps.(endpoints := eps.endpoints + [DummyEndpoint(lb)]), fault)
    else if HasActive(eps.endpoints) && HasDummy(eps.endpoints) then
      Put(st, version, eps.(endpoints := WithoutDummies(eps.endpoints)), fault)
    else (st, false)
  }

  /** The first write of EnsureBackendServers: create, update or nothing. */
  function MainWrite(st: Store, slice: Slice, fault: Fault): (Store, bool) {
    if st.slice == Some(slice) then (st, false) else Put(st, st.version, slice, fault)
  }

  /** EnsureBackendServers as a function of the stored slice. */
  function EnsureOf(st: Store, lb: LbSpec, servers: seq<Server>, f: Faults): (Store, bool) {
    var built := ConstructOf(st.slice, lb, servers);
    if built.Err? then (st, true)
    else
      var (st1, err1) := MainWrite(st, built.value, f.main);
      if err1 then (st1, true)
      else
        var (st2, err2) :=
          if lb.Probing() then (st1, false) else ConditionsOf(st1, built.value, st1.version, true, f.conditions);
        if err2 then (st2, true) else DummyOf(st2, built.value, st1.version, lb, f.dummy)
  }

  // ----- what a successful run leaves -----

  function Dummies(es: seq<Endpoint>): nat {
    if |es| == 0 then 0 else Dummies(es[..|es| - 1]) + (if IsDummy(es[|es| - 1]) then 1 else 0)
  }

  /** Some endpoint is ready; exactly one dummy if no real one is, none otherwise. */
  ghost predicate Routable(es: seq<Endpoint>) {
    && (exists i :: 0 <= i < |es| && IsReady(es[i]))
    && Dummies(es) == (if HasActive(es) then 0 else 1)
  }

  lemma {:induction false} NoDummies(es: seq<Endpoint>)
    requires !HasDummy(es)
    ensures Dummies(es) == 0
  {
    if |es| > 0 {
      assert !IsDummy(es[|es| - 1]);
      assert !HasDummy(es[..|es| - 1]);
      NoDummies(es[..|es| - 1]);
    }
  }

  lemma LoneDummyRoutable(lb: LbSpec)
    ensures var es := [DummyEndpoint(lb)];
            Routable(es) && HasDummy(es) && !HasActive(es) && AllSet(es, true) == es
  {
    var es := [DummyEndpoint(lb)];
    assert IsDummy(es[0]) && IsReady(es[0]);
    assert es[..0] == [] && Dummies([]) == 0;
    assert Dummies(es) == 1;
  }

  lemma DummyAppendedRoutable(es: seq<Endpoint>, lb: LbSpec)
    requires !HasDummy(es) && !HasActive(es)
    ensures Routable(es + [DummyEndpoint(lb)])
  {
    var r := es + [DummyEndpoint(lb)];
    NoDummies(es);
    assert r[..|es|] == es;
    assert IsDummy(r[|es|]) && IsReady(r[|es|]);
    assert !HasActive(r) by {
      forall i | 0 <= i < |r| ensures IsDummy(r[i]) || !IsReady(r[i]) {
        if i < |es| {
          assert r[i] == es[i];
        }
      }
    }
  }

  lemma ActiveRoutable(es: seq<Endpoint>)
    requires !HasDummy(es) && HasActive(es)
    ensures Routable(es)
  {
    NoDummies(es);
  }

  lemma AllSetActive(es: seq<Endpoint>)
    requires !HasDummy(es) && |es| > 0
    ensures !HasDummy(AllSet(es, true)) && HasActive(AllSet(es, true))
    ensures !HasActive(es) ==> AllSet(es, true) != es
  {
    var r := AllSet(es, true);
    forall i | 0 <= i < |r| ensures !IsDummy(r[i]) {
      assert !IsDummy(es[i]);
    }
    assert !IsDummy(r[0]) && IsReady(r[0]);
  }

  /**
    Whenever EnsureBackendServers returns without error, the stored slice is routable, whatever was
    stored before and whichever writes failed.
   */
  lemma EnsuredIsRoutable(st: Store, lb: LbSpec, servers: seq<Server>, f: Faults)
    requires forall s :: s in servers ==> s.uid != DUMMY_ID
    requires !EnsureOf(st, lb, servers, f).1
    ensures var out := EnsureOf(st, lb, servers, f).0;
            out.slice.Some? && Routable(out.slice.value.endpoints)
  {
    var slice := ConstructOf(st.slice, lb, servers).value;
    var es := slice.endpoints;
    ConstructShape(st.slice, lb, servers);
    LoneDummyRoutable(lb);
    if es != [DummyEndpoint(lb)] {
      assert !HasDummy(es);
      AllSetActive(es);
      if HasActive(es) {
        ActiveRoutable(es);
      } else {
        DummyAppendedRoutable(es, lb);
      }
      ActiveRoutable(AllSet(es, true));
    }
  }

  /** Deleting the dummies leaves exactly the real endpoints: a ready one survives. */
  lemma {:induction false} DeletingKeepsReal(es: seq<Endpoint>)
    ensures forall e :: e in WithoutDummies(es) <==> e in es && !IsDummy(e)
    ensures |WithoutDummies(es)| + Dummies(es) == |es|
  {
    if |es| > 0 {
      var init, last := es[..|es| - 1], es[|es| - 1];
      DeletingKeepsReal(init);
      InLonger(es, init, last);
      if !IsDummy(last) {
        InLonger(WithoutDummies(es), WithoutDummies(init), last);
      }
    }
  }

  lemma InLonger(es: seq<Endpoint>, init: seq<Endpoint>, last: Endpoint)
    requires es == init + [last]
    ensures forall e :: e in es <==> e in init || e == last
  {
  }

  /**
    ensureDummyEndpoint alone: called with the stored slice, it makes any slice routable that has at
    most one dummy and only ready dummies.
   */
  lemma DummyEnsuredIsRoutable(st: Store, lb: LbSpec, fault: Fault)
    requires st.slice.Some? && Dummies(st.slice.value.endpoints) <= 1
    requires forall e :: e in st.slice.value.endpoints && IsDummy(e) ==> IsReady(e)
    requires !DummyOf(st, st.slice.value, st.version, lb, fault).1
    ensures var out := DummyOf(st, st.slice.value, st.version, lb, fault).0;
            out.slice.Some? && Routable(out.slice.value.endpoints)
  {
    var es := st.slice.value.endpoints;
    DeletingKeepsReal(es);
    if HasActive(es) {
      ActiveSurvives(es);
      if !HasDummy(es) {
        ActiveRoutable(es);
      }
    } else if HasDummy(es) {
      var i :| 0 <= i < |es| && IsDummy(es[i]);
      SomeDummy(es, i);
      assert es[i] in es && IsReady(es[i]);
    } else {
      DummyAppendedRoutable(es, lb);
    }
  }

  lemma ActiveSurvives(es: seq<Endpoint>)
    requires HasActive(es)
    ensures Routable(WithoutDummies(es))
  {
    var r := WithoutDummies(es);
    DeletingKeepsReal(es);
    var i :| 0 <= i < |es| && !IsDummy(es[i]) && IsReady(es[i]);
    assert es[i] in es && es[i] in r;
    var j :| 0 <= j < |r| && r[j] == es[i];
    assert forall k :: 0 <= k < |r| ==> r[k] in r;
    ActiveRoutable(r);
  }

  lemma {:induction false} SomeDummy(es: seq<Endpoint>, i: nat)
    requires i < |es| && IsDummy(es[i])
    ensures Dummies(es) >= 1
  {
    if i < |es| - 1 {
      SomeDummy(es[..|es| - 1], i);
    }
  }

  /**
    With health checks off and no endpoint ready yet, the write of updateAllConditions makes the
    dummy write that follows conflict: the run returns an error, but it leaves all real endpoints
    ready, and the next run succeeds without writing.
   */
  lemma ConflictHealsOnRetry(st: Store, lb: LbSpec, servers: seq<Server>)
    requires !lb.Probing() && ConstructOf(st.slice, lb, servers).Ok? && Distinct(Addressed(servers))
    requires forall s :: s in servers ==> s.uid != DUMMY_ID
    requires |Addressed(servers)| > 0 && !HasActive(ConstructOf(st.slice, lb, servers).value.endpoints)
    ensures var f := Faults(NoFault, NoFault, NoFault);
            var first := EnsureOf(st, lb, servers, f);
            && first.1
            && var es := ConstructOf(st.slice, lb, servers).value.endpoints;
            && first.0.slice == Some(Slice(PortsOf(lb.listeners), AllSet(es, true)))
            && EnsureOf(first.0, lb, servers, f) == (first.0, false)
  {
    var slice := ConstructOf(st.slice, lb, servers).value;
    var es := slice.endpoints;
    ConstructShape(st.slice, lb, servers);
    assert !HasDummy(es);
    AllSetActive(es);
    var ready := AllSet(es, true);
    SetThenConstruct(st.slice, lb, servers);
    assert AllSet(ready, true) == ready;
  }

  /**
    Exactly when a run without any fault returns an error: a malformed old endpoint was met, or
    health checks are off and the addressed servers have no ready endpoint yet.
   */
  lemma FaultFreeFailsIff(st: Store, lb: LbSpec, servers: seq<Server>)
    requires forall s :: s in servers ==> s.uid != DUMMY_ID
    ensures var built := ConstructOf(st.slice, lb, servers);
            EnsureOf(st, lb, servers, Faults(NoFault, NoFault, NoFault)).1 <==>
            built.Err? || (!lb.Probing() && |Addressed(servers)| > 0 && !HasActive(built.value.endpoints))
  {
    if ConstructOf(st.slice, lb, servers).Ok? {
      var es := ConstructOf(st.slice, lb, servers).value.endpoints;
      ConstructShape(st.slice, lb, servers);
      LoneDummyRoutable(lb);
      if es != [DummyEndpoint(lb)] {
        assert !HasDummy(es);
        AllSetActive(es);
      }
    }
  }

  /** Conditions do not affect which endpoints are kept. */
  lemma SetThenConstruct(cur: Option<Slice>, lb: LbSpec, servers: seq<Server>)
    requires ConstructOf(cur, lb, servers).Ok? && Distinct(Addressed(servers)) && |Addressed(servers)| > 0
    ensures var out := Slice(PortsOf(lb.listeners), AllSet(ConstructOf(cur, lb, servers).value.endpoints, true));
            ConstructOf(Some(out), lb, servers) == Ok(out)
  {
    var old_ := OldEndpoints(cur);
    BuiltStands(old_, servers);
    var es := Built(old_, servers).value;
    var r := AllSet(es, true);
    forall j | 0 <= j < |r| ensures SameBackend(r[j], Addressed(servers)[j]) {
      assert Stands(old_, Addressed(servers)[j], es[j]);
    }
    RebuiltIsSame(r, servers, |servers|);
    assert servers[..|servers|] == servers && r[..|r|] == r;
  }

  /**
    Exactly when the slice stored by the first write has a ready endpoint, for every stored slice:
    no server has an address, or a kept endpoint is ready. Otherwise the service has none until the
    second write.
   */
  lemma FirstWriteReadyIff(st: Store, lb: LbSpec, servers: seq<Server>)
    requires ConstructOf(st.slice, lb, servers).Ok?
    requires forall s :: s in servers ==> s.uid != DUMMY_ID
    ensures var slice := ConstructOf(st.slice, lb, servers).value;
            var out := MainWrite(st, slice, NoFault);
            && !out.1 && out.0.slice == Some(slice)
            && ((exists i :: 0 <= i < |slice.endpoints| && IsReady(slice.endpoints[i])) <==>
                |Addressed(servers)| == 0 || HasActive(slice.endpoints))
  {
    var es := ConstructOf(st.slice, lb, servers).value.endpoints;
    ConstructShape(st.slice, lb, servers);
    LoneDummyRoutable(lb);
    if es != [DummyEndpoint(lb)] && exists i :: 0 <= i < |es| && IsReady(es[i]) {
      var i :| 0 <= i < |es| && IsReady(es[i]);
      assert !IsDummy(es[i]);
    }
  }

  /**
    With health checks on and no server ready, every run on its own result first removes the dummy
    and then adds it again: between its two writes the stored slice has no ready endpoint.
   */
  lemma DummyFlickers(st: Store, lb: LbSpec, servers: seq<Server>)
    requires lb.Probing() && ConstructOf(st.slice, lb, servers).Ok? && Distinct(Addressed(servers))
    requires forall s :: s in servers ==> s.uid != DUMMY_ID
    requires |Addressed(servers)| > 0 && !HasActive(ConstructOf(st.slice, lb, servers).value.endpoints)
    requires var es := ConstructOf(st.slice, lb, servers).value.endpoints;
             st.slice == Some(Slice(PortsOf(lb.listeners), es + [DummyEndpoint(lb)]))
    ensures var f := Faults(NoFault, NoFault, NoFault);
            var slice := ConstructOf(st.slice, lb, servers).value;
            && MainWrite(st, slice, NoFault) == (Store(Some(slice), st.version + 1), false)
            && (forall i :: 0 <= i < |slice.endpoints| ==> !IsReady(slice.endpoints[i]))
            && EnsureOf(st, lb, servers, f) == (Store(st.slice, st.version + 2), false)
  {
    ConstructShape(st.slice, lb, servers);
    FirstWriteReadyIff(st, lb, servers);
    var slice := ConstructOf(st.slice, lb, servers).value;
    assert !HasDummy(slice.endpoints);
    assert |slice.endpoints + [DummyEndpoint(lb)]| != |slice.endpoints|;
    DummyComesBack(Store(Some(slice), st.version + 1), lb);
  }

  lemma DummyComesBack(st: Store, lb: LbSpec)
    requires st.slice.Some? && !HasDummy(st.slice.value.endpoints) && !HasActive(st.slice.value.endpoints)
    ensures var slice := st.slice.value;
            DummyOf(st, slice, st.version, lb, NoFault)
            == (Store(Some(slice.(endpoints := slice.endpoints + [DummyEndpoint(lb)])), st.version + 1), false)
  {
  }

  // ----- the health handler -----

  /** updateHealthCondition: the first endpoint with this address gets the condition. */
  function HealthOf(es: seq<Endpoint>, ip: string, healthy: bool): Result<Option<seq<Endpoint>>, ()> {
    if |es| == 0 then Ok(None)
    else if |es[0].addresses| != 1 then Err(())
    else if es[0].addresses[0] == ip then
      Ok(if NeedsUpdate(es[0], healthy) then Some([es[0].(ready := Some(healthy))] + es[1..]) else None)
    else
      match HealthOf(es[1..], ip, healthy)
      case Ok(Some(rest)) => Ok(Some([es[0]] + rest))
      case other => other
  }

  predicate Passed(e: Endpoint, ip: string) {
    |e.addresses| == 1 && e.addresses[0] != ip
  }

  /** The answer is decided at the first endpoint that is malformed or has the address. */
  lemma {:induction false} HealthDecidedAt(es: seq<Endpoint>, n: nat, ip: string, healthy: bool)
    requires n <= |es| && forall k :: 0 <= k < n ==> Passed(es[k], ip)
    ensures n == |es| ==> HealthOf(es, ip, healthy) == Ok(None)
    ensures n < |es| && |es[n].addresses| != 1 ==> HealthOf(es, ip, healthy).Err?
    ensures n < |es| && es[n].addresses == [ip] ==>
              HealthOf(es, ip, healthy)
              == Ok(if NeedsUpdate(es[n], healthy) then Some(es[n := es[n].(ready := Some(healthy))]) else None)
  {
    if n == 0 {
      assert |es| > 0 ==> es[0 := es[0].(ready := Some(healthy))] == [es[0].(ready := Some(healthy))] + es[1..];
    } else {
      var rest := es[1..];
      assert forall k :: 0 <= k < |rest| ==> rest[k] == es[k + 1];
      assert Passed(es[0], ip);
      HealthDecidedAt(rest, n - 1, ip, healthy);
      assert n < |es| ==>
          es[n := es[n].(ready := Some(healthy))] == [es[0]] + rest[n - 1 := es[n].(ready := Some(healthy))];
    }
  }

  /** It touches one endpoint with that address, and only its condition. */
  lemma {:induction false} HealthTouchesOne(es: seq<Endpoint>, ip: string, healthy: bool) returns (k: nat)
    requires HealthOf(es, ip, healthy).Ok? && HealthOf(es, ip, healthy).value.Some?
    ensures k < |es| && es[k].addresses == [ip] && NeedsUpdate(es[k], healthy)
    ensures HealthOf(es, ip, healthy).value.value == es[k := es[k].(ready := Some(healthy))]
    ensures forall i :: 0 <= i < k ==> es[i].addresses != [ip]
  {
    if es[0].addresses[0] == ip {
      k := 0;
      assert es[0 := es[0].(ready := Some(healthy))] == [es[0].(ready := Some(healthy))] + es[1..];
    } else {
      var j := HealthTouchesOne(es[1..], ip, healthy);
      k := j + 1;
      assert es[k := es[k].(ready := Some(healthy))] == [es[0]] + es[1..][j := es[k].(ready := Some(healthy))];
    }
  }

  /** The notice for an endpoint's own address changes that endpoint and no other, if addresses are distinct. */
  lemma NoticeReachesItsEndpoint(es: seq<Endpoint>, i: nat, ip: string, healthy: bool)
    requires forall k :: 0 <= k < |es| ==> |es[k].addresses| == 1
    requires forall k, l :: 0 <= k < l < |es| ==> es[k].addresses != es[l].addresses
    requires i < |es| && es[i].addresses == [ip]
    ensures HealthOf(es, ip, healthy)
            == Ok(if NeedsUpdate(es[i], healthy) then Some(es[i := es[i].(ready := Some(healthy))]) else None)
  {
    forall k | 0 <= k < i ensures Passed(es[k], ip) {
      assert es[k].addresses != es[i].addresses;
      assert es[k].addresses == [es[k].addresses[0]];
    }
    HealthDecidedAt(es, i, ip, healthy);
  }
}

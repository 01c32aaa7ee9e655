/** Admission of a LoadBalancer's listeners and health check: pkg/webhook/loadbalancer. */
module Listeners {
  import opened Common
  import opened LbSpecs
  import opened Text
  import opened EndpointSlices
  import opened ServiceLb

  const MAX_PORT: int := 65535

  const TCP := "TCP"

  // ----- listeners -----

  datatype ListenerError =
    | NoListener
    | DuplicateName(name: string)
    | DuplicatePort(name: string, key: string, other: string)
    | DuplicateBackend(name: string, key: string, other: string)
    | PortOutOfRange(port: int)

  function PortKey(l: Listener): string {
    Key(l.protocol, ':', Itoa(l.port))
  }

  function BackendKey(l: Listener): string {
    Key(l.protocol, ':', Itoa(l.backendPort))
  }

  /** What two listeners of one LoadBalancer must not share. */
  predicate Apart(a: Listener, b: Listener) {
    && a.name != b.name
    && (a.protocol != b.protocol || a.port != b.port)
    && (a.protocol != b.protocol || a.backendPort != b.backendPort)
  }

  ghost predicate PairwiseApart(ls: seq<Listener>) {
    forall i, j :: 0 <= i < j < |ls| ==> Apart(ls[i], ls[j])
  }

  predicate PortsInRange(l: Listener) {
    1 <= l.port <= MAX_PORT && 1 <= l.backendPort <= MAX_PORT
  }

  ghost predicate WellFormed(ls: seq<Listener>) {
    && |ls| > 0
    && PairwiseApart(ls)
    && forall i :: 0 <= i < |ls| ==> PortsInRange(ls[i])
  }

  ghost function Names(ls: seq<Listener>): (r: seq<string>)
    ensures |r| == |ls| && forall i :: 0 <= i < |ls| ==> r[i] == ls[i].name
  {
    seq(|ls|, i requires 0 <= i < |ls| => ls[i].name)
  }

  ghost function PortKeys(ls: seq<Listener>): (r: seq<string>)
    ensures |r| == |ls| && forall i :: 0 <= i < |ls| ==> r[i] == PortKey(ls[i])
  {
    seq(|ls|, i requires 0 <= i < |ls| => PortKey(ls[i]))
  }

  ghost function BackendKeys(ls: seq<Listener>): (r: seq<string>)
    ensures |r| == |ls| && forall i :: 0 <= i < |ls| ==> r[i] == BackendKey(ls[i])
  {
    seq(|ls|, i requires 0 <= i < |ls| => BackendKey(ls[i]))
  }

  ghost predicate NoRepeat(keys: seq<string>, n: nat)
    requires n <= |keys|
  {
    forall i, j :: 0 <= i < j < n ==> keys[i] != keys[j]
  }

  /** The map holds exactly the first n keys, each with an index where it stands. */
  ghost predicate Index(keys: seq<string>, n: nat, m: map<string, nat>)
    requires n <= |keys|
  {
    && (forall i :: 0 <= i < n ==> keys[i] in m)
    && (forall k :: k in m ==> m[k] < n && keys[m[k]] == k)
  }

  lemma IndexGrows(keys: seq<string>, n: nat, m: map<string, nat>)
    requires n < |keys| && Index(keys, n, m) && NoRepeat(keys, n) && keys[n] !in m
    ensures Index(keys, n + 1, m[keys[n] := n]) && NoRepeat(keys, n + 1)
  {
  }

  ghost predicate Seen(keys: seq<string>, n: nat, s: set<string>)
    requires n <= |keys|
  {
    forall k :: k in s <==> k in keys[..n]
  }

  lemma SeenGrows(keys: seq<string>, n: nat, s: set<string>)
    requires n < |keys| && Seen(keys, n, s) && NoRepeat(keys, n) && keys[n] !in s
    ensures Seen(keys, n + 1, s + {keys[n]}) && NoRepeat(keys, n + 1)
  {
    assert keys[..n + 1] == keys[..n] + [keys[n]];
    assert forall i :: 0 <= i < n ==> keys[i] in keys[..n];
  }

  lemma KeysTellApart(a: Listener, b: Listener)
    ensures PortKey(a) == PortKey(b) <==> a.protocol == b.protocol && a.port == b.port
    ensures BackendKey(a) == BackendKey(b) <==> a.protocol == b.protocol && a.backendPort == b.backendPort
  {
    if PortKey(a) == PortKey(b) {
      PortKeyInjective(a.protocol, a.port, b.protocol, b.port);
    }
    if BackendKey(a) == BackendKey(b) {
      PortKeyInjective(a.protocol, a.backendPort, b.protocol, b.backendPort);
    }
  }

  /** No key repeats exactly when the listeners are pairwise apart. */
  lemma NoRepeatMeansApart(ls: seq<Listener>)
    ensures PairwiseApart(ls) <==>
            NoRepeat(Names(ls), |ls|) && NoRepeat(PortKeys(ls), |ls|) && NoRepeat(BackendKeys(ls), |ls|)
  {
    var names, ports, backends := Names(ls), PortKeys(ls), BackendKeys(ls);
    forall i, j | 0 <= i < j < |ls|
      ensures Apart(ls[i], ls[j]) <==> names[i] != names[j] && ports[i] != ports[j] && backends[i] != backends[j]
    {
      KeysTellApart(ls[i], ls[j]);
    }
  }

  /** What the error says is so. */
  ghost predicate Justified(ls: seq<Listener>, e: ListenerError) {
    match e
    case NoListener => |ls| == 0
    case DuplicateName(name) =>
      exists i, j :: 0 <= i < j < |ls| && ls[i].name == name && ls[j].name == name
    case DuplicatePort(name, key, other) =>
      exists i, j :: 0 <= i < j < |ls| && ls[i].name == other && ls[j].name == name
                     && key == PortKey(ls[i]) == PortKey(ls[j])
    case DuplicateBackend(name, key, other) =>
      exists i, j :: 0 <= i < j < |ls| && ls[i].name == other && ls[j].name == name
                     && key == BackendKey(ls[i]) == BackendKey(ls[j])
    case PortOutOfRange(p) =>
      !(1 <= p <= MAX_PORT) && exists i :: 0 <= i < |ls| && (ls[i].port == p || ls[i].backendPort == p)
  }

  lemma SameName(ls: seq<Listener>, j: nat)
    requires j < |ls| && ls[j].name in Names(ls)[..j]
    ensures !PairwiseApart(ls) && Justified(ls, DuplicateName(ls[j].name))
  {
    var i :| 0 <= i < j && Names(ls)[..j][i] == ls[j].name;
    assert ls[i].name == ls[j].name && !Apart(ls[i], ls[j]);
  }

  lemma SamePort(ls: seq<Listener>, i: nat, j: nat)
    requires i < j < |ls| && PortKey(ls[i]) == PortKey(ls[j])
    ensures !PairwiseApart(ls) && Justified(ls, DuplicatePort(ls[j].name, PortKey(ls[j]), ls[i].name))
  {
    KeysTellApart(ls[i], ls[j]);
    assert !Apart(ls[i], ls[j]);
  }

  lemma SameBackendPort(ls: seq<Listener>, i: nat, j: nat)
    requires i < j < |ls| && BackendKey(ls[i]) == BackendKey(ls[j])
    ensures !PairwiseApart(ls) && Justified(ls, DuplicateBackend(ls[j].name, BackendKey(ls[j]), ls[i].name))
  {
    KeysTellApart(ls[i], ls[j]);
    assert !Apart(ls[i], ls[j]);
  }

  /** checkListeners: one map lookup per rule decides pairwise distinctness. */
  method CheckListeners(lb: LbSpec) returns (r: Result<(), ListenerError>)
    ensures r.Ok? <==> lb.isCluster || WellFormed(lb.listeners)
    ensures r.Err? ==> Justified(lb.listeners, r.error)
  {
    if lb.isCluster {
      return Ok(());
    }
    var ls := lb.listeners;
    if |ls| == 0 {
      return Err(NoListener);
    }
    r := CheckKeys(ls);
    if r.Err? {
      return;
    }
    for i := 0 to |ls|
      invariant forall k :: 0 <= k < i ==> PortsInRange(ls[k])
    {
      var l := ls[i];
      if l.port > MAX_PORT || l.port < 1 {
        return Err(PortOutOfRange(l.port));
      }
      if l.backendPort > MAX_PORT || l.backendPort < 1 {
        return Err(PortOutOfRange(l.backendPort));
      }
    }
    return Ok(());
  }

  /** Its first loop, over the three maps. */
  method CheckKeys(ls: seq<Listener>) returns (r: Result<(), ListenerError>)
    ensures r.Ok? <==> PairwiseApart(ls)
    ensures r.Err? ==> Justified(ls, r.error)
  {
    ghost var nk, pk, bk := Names(ls), PortKeys(ls), BackendKeys(ls);
    var names: set<string>, ports: map<string, nat>, backends: map<string, nat> := {}, map[], map[];
    for i := 0 to |ls|
      invariant Seen(nk, i, names) && Index(pk, i, ports) && Index(bk, i, backends)
      invariant NoRepeat(nk, i) && NoRepeat(pk, i) && NoRepeat(bk, i)
    {
      var l := ls[i];
      if l.name in names {
        SameName(ls, i);
        return Err(DuplicateName(l.name));
      }
      SeenGrows(nk, i, names);
      var portKey := PortKey(l);
      if portKey in ports {
        SamePort(ls, ports[portKey], i);
        return Err(DuplicatePort(l.name, portKey, ls[ports[portKey]].name));
      }
      IndexGrows(pk, i, ports);
      var backendKey := BackendKey(l);
      if backendKey in backends {
        SameBackendPort(ls, backends[backendKey], i);
        return Err(DuplicateBackend(l.name, backendKey, ls[backends[backendKey]].name));
      }
      IndexGrows(bk, i, backends);
      names, ports, backends := names + {l.name}, ports[portKey := i], backends[backendKey := i];
    }
    NoRepeatMeansApart(ls);
    return Ok(());
  }

  // ----- the health check -----

  datatype HealthError = ZeroSuccess | ZeroFailure | ZeroPeriod | ZeroTimeout | NotTcp | NotListed

  /** The listener's backend port, as a uint, is the port of the health check. */
  predicate Answers(l: Listener, port: Uint) {
    ToUint(l.backendPort) == port
  }

  function FieldsVerdict(hc: HealthCheck): Result<(), HealthError> {
    if hc.successThreshold == 0 then Err(ZeroSuccess)
    else if hc.failureThreshold == 0 then Err(ZeroFailure)
    else if hc.periodSeconds == 0 then Err(ZeroPeriod)
    else if hc.timeoutSeconds == 0 then Err(ZeroTimeout)
    else Ok(())
  }

  ghost predicate SomeAnswers(ls: seq<Listener>, port: Uint) {
    exists i :: 0 <= i < |ls| && Answers(ls[i], port)
  }

  ghost predicate SomeTcpAnswers(ls: seq<Listener>, port: Uint) {
    exists i :: 0 <= i < |ls| && Answers(ls[i], port) && ls[i].protocol == TCP
  }

  /** The verdict without a scan: listeners before the first TCP one with the port do not matter. */
  ghost function HealthVerdict(lb: LbSpec): Result<(), HealthError> {
    if lb.isCluster || !lb.Probing() then Ok(())
    else
      var hc := lb.healthCheck.value;
      if SomeTcpAnswers(lb.listeners, hc.port) then FieldsVerdict(hc)
      else if SomeAnswers(lb.listeners, hc.port) then Err(NotTcp)
      else Err(NotListed)
  }

  /** checkHealthyCheck, with its wrongProtocol flag. */
  method CheckHealthyCheck(lb: LbSpec) returns (r: Result<(), HealthError>)
    ensures r == HealthVerdict(lb)
  {
    if lb.isCluster {
      return Ok(());
    }
    if lb.healthCheck.Some? && lb.healthCheck.value.port != 0 {
      var hc, ls := lb.healthCheck.value, lb.listeners;
      var wrongProtocol := false;
      for i := 0 to |ls|
        invariant wrongProtocol <==> exists k :: 0 <= k < i && Answers(ls[k], hc.port)
        invariant forall k :: 0 <= k < i && Answers(ls[k], hc.port) ==> ls[k].protocol != TCP
      {
        if ToUint(ls[i].backendPort) == hc.port {
          assert Answers(ls[i], hc.port);
          if ls[i].protocol == TCP {
            if hc.successThreshold == 0 {
              return Err(ZeroSuccess);
            }
            if hc.failureThreshold == 0 {
              return Err(ZeroFailure);
            }
            if hc.periodSeconds == 0 {
              return Err(ZeroPeriod);
            }
            if hc.timeoutSeconds == 0 {
              return Err(ZeroTimeout);
            }
            return Ok(());
          }
          wrongProtocol := true;
        }
      }
      if wrongProtocol {
        return Err(NotTcp);
      }
      return Err(NotListed);
    }
    return Ok(());
  }

  // ----- the mutator -----

  function OrElse(x: Uint, d: Uint): Uint {
    if x == 0 then d else x
  }

  /** The object after the mutator's patch. */
  function Mutated(lb: LbSpec): LbSpec {
    if !lb.Probing() then lb
    else
      var hc := lb.healthCheck.value;
      lb.(healthCheck := Some(HealthCheck(hc.port, OrElse(hc.successThreshold, 2), OrElse(hc.failureThreshold, 2),
                                          OrElse(hc.periodSeconds, 1), OrElse(hc.timeoutSeconds, 1))))
  }

  /** getHealthyCheckPatch: a replacement health check exactly when some field has to change. */
  method HealthyCheckPatch(lb: LbSpec) returns (patch: Option<HealthCheck>)
    ensures patch.Some? <==> Mutated(lb) != lb
    ensures patch.Some? <==> lb.Probing() && FieldsVerdict(lb.healthCheck.value).Err?
    ensures patch.Some? ==> Mutated(lb) == lb.(healthCheck := patch)
  {
    if lb.healthCheck.None? || lb.healthCheck.value.port == 0 {
      return None;
    }
    var hc := lb.healthCheck.value;
    var patched := false;
    if hc.successThreshold == 0 {
      hc := hc.(successThreshold := 2);
      patched := true;
    }
    if hc.failureThreshold == 0 {
      hc := hc.(failureThreshold := 2);
      patched := true;
    }
    if hc.periodSeconds == 0 {
      hc := hc.(periodSeconds := 1);
      patched := true;
    }
    if hc.timeoutSeconds == 0 {
      hc := hc.(timeoutSeconds := 1);
      patched := true;
    }
    return if patched then Some(hc) else None;
  }

  // ----- the two together -----

  /**
    On an accepted list of a VM LoadBalancer an enabled health check passes after the patch exactly
    when some TCP listener has that backend port; the uint conversion never matters there.
   */
  lemma PatchedCheckAccepted(lb: LbSpec)
    requires !lb.isCluster && lb.Probing() && WellFormed(lb.listeners)
    ensures HealthVerdict(Mutated(lb)).Ok? <==>
            exists i :: 0 <= i < |lb.listeners| && lb.listeners[i].protocol == "TCP"
              && lb.listeners[i].backendPort == lb.healthCheck.value.port
    ensures Mutated(Mutated(lb)) == Mutated(lb)
  {
    var ls, port := lb.listeners, lb.healthCheck.value.port;
    forall i | 0 <= i < |ls| ensures Answers(ls[i], port) <==> ls[i].backendPort == port {
      assert PortsInRange(ls[i]);
    }
  }

  /** That listener is then the only one: the accepted list has one TCP listener per backend port. */
  lemma CheckedListenerIsUnique(lb: LbSpec, i: nat, j: nat)
    requires !lb.isCluster && WellFormed(lb.listeners) && i < |lb.listeners| && j < |lb.listeners|
    requires lb.listeners[i].protocol == TCP && lb.listeners[j].protocol == TCP
    requires lb.listeners[i].backendPort == lb.listeners[j].backendPort
    ensures i == j
  {
    assert i < j ==> Apart(lb.listeners[i], lb.listeners[j]);
    assert j < i ==> Apart(lb.listeners[j], lb.listeners[i]);
  }

  /**
    For an admitted health check, generateOneProber never falls back to its own defaults: thresholds
    and durations are the object's, and the thresholds are at least 1, as the worker needs.
   */
  lemma OwnDefaultsUnused(lb: LbSpec, e: Endpoint)
    requires lb.Probing() && |e.addresses| > 0
    requires (!lb.isCluster && HealthVerdict(lb).Ok?) || Mutated(lb) == lb
    ensures var hc, o := lb.healthCheck.value, OneProber(lb.healthCheck.value, e);
            && o.successThreshold == hc.successThreshold >= 1
            && o.failureThreshold == hc.failureThreshold >= 1
            && o.timeout == Seconds(hc.timeoutSeconds)
            && o.period == Seconds(hc.periodSeconds)
  {
    assert FieldsVerdict(lb.healthCheck.value).Ok?;
  }

  /**
    Admission checks that the period is not 0, not that it fits a duration: the prober's ticker
    period is positive exactly when the low word of the nanoseconds is, in particular for up to
    MAX_SECONDS seconds.
   */
  lemma PositivePeriodIff(lb: LbSpec, e: Endpoint)
    requires lb.Probing() && |e.addresses| > 0
    requires (!lb.isCluster && HealthVerdict(lb).Ok?) || Mutated(lb) == lb
    ensures var n := lb.healthCheck.value.periodSeconds;
            && (OneProber(lb.healthCheck.value, e).period > 0 <==> 0 < (n * 1_000_000_000) % TWO64 < TWO63)
            && (n <= MAX_SECONDS ==> OneProber(lb.healthCheck.value, e).period > 0)
  {
    OwnDefaultsUnused(lb, e);
    SecondsExactIff(lb.healthCheck.value.periodSeconds);
  }

  /** An admitted health check whose period wraps below zero. */
  lemma AdmittedPeriodCanBeNegative(e: Endpoint) returns (lb: LbSpec)
    requires |e.addresses| > 0
    ensures !lb.isCluster && lb.Probing() && WellFormed(lb.listeners) && HealthVerdict(lb).Ok? && Mutated(lb) == lb
    ensures OneProber(lb.healthCheck.value, e).period < 0
  {
    var hc := HealthCheck(80, 1, 1, 0x4_0000_0000, 1);
    lb := LbSpec("ns", "lb", false, [Listener("http", TCP, 80, 80)], Some(hc));
    assert Answers(lb.listeners[0], 80) && PortsInRange(lb.listeners[0]);
    assert SomeTcpAnswers(lb.listeners, 80);
    assert 0x4_0000_0000 * 1_000_000_000 == 17_179_869_184_000_000_000;
    WrapIsModular(0x4_0000_0000);
  }

  /** The patch fills in what is 0 and touches nothing the user set, and nothing else of the object. */
  lemma PatchKeepsUserFields(lb: LbSpec)
    ensures !lb.Probing() ==> Mutated(lb) == lb
    ensures lb.Probing() ==>
              var old_, new_ := lb.healthCheck.value, Mutated(lb).healthCheck;
              && new_.Some? && Mutated(lb) == lb.(healthCheck := new_)
              && new_.value.port == old_.port
              && new_.value.successThreshold == (if old_.successThreshold != 0 then old_.successThreshold else 2)
              && new_.value.failureThreshold == (if old_.failureThreshold != 0 then old_.failureThreshold else 2)
              && new_.value.periodSeconds == (if old_.periodSeconds != 0 then old_.periodSeconds else 1)
              && new_.value.timeoutSeconds == (if old_.timeoutSeconds != 0 then old_.timeoutSeconds else 1)
  {
  }

  /** The uint conversion keeps a backend port, and a negative one answers no port a listener may have. */
  lemma NegativeNeverAnswers(l: Listener, port: Uint)
    ensures l.backendPort >= 0 ==> (Answers(l, port) <==> l.backendPort == port)
    ensures l.backendPort < 0 ==> (Answers(l, port) <==> port == 0x1_0000_0000_0000_0000 + l.backendPort)
    ensures l.backendPort < 0 && port <= MAX_PORT ==> !Answers(l, port)
  {
  }

  /** The rule for listeners in full. */
  lemma ListenersRule(ls: seq<Listener>)
    ensures WellFormed(ls) <==>
            && |ls| > 0
            && (forall i :: 0 <= i < |ls| ==> 1 <= ls[i].port <= 65535 && 1 <= ls[i].backendPort <= 65535)
            && forall i, j :: 0 <= i < j < |ls| ==>
                 && ls[i].name != ls[j].name
                 && (ls[i].protocol == ls[j].protocol ==>
                       ls[i].port != ls[j].port && ls[i].backendPort != ls[j].backendPort)
  {
    forall i, j | 0 <= i < j < |ls|
      ensures Apart(ls[i], ls[j]) <==>
              && ls[i].name != ls[j].name
              && (ls[i].protocol == ls[j].protocol ==>
                    ls[i].port != ls[j].port && ls[i].backendPort != ls[j].backendPort)
    {
    }
  }

  /** What each refusal of an enabled health check says about the listeners and the fields. */
  lemma HealthErrorMeans(lb: LbSpec)
    requires !lb.isCluster && lb.Probing() && HealthVerdict(lb).Err?
    ensures var hc, ls, e := lb.healthCheck.value, lb.listeners, HealthVerdict(lb).error;
            && (e == NotListed <==> forall i :: 0 <= i < |ls| ==> ToUint(ls[i].backendPort) != hc.port)
            && (e == NotTcp ==> forall i :: 0 <= i < |ls| && ToUint(ls[i].backendPort) == hc.port ==>
                                  ls[i].protocol != "TCP")
            && (e == ZeroSuccess ==> hc.successThreshold == 0)
            && (e == ZeroFailure ==> hc.failureThreshold == 0)
            && (e == ZeroPeriod ==> hc.periodSeconds == 0)
            && (e == ZeroTimeout ==> hc.timeoutSeconds == 0)
  {
    var hc, ls := lb.healthCheck.value, lb.listeners;
    forall i | 0 <= i < |ls| ensures Answers(ls[i], hc.port) <==> ToUint(ls[i].backendPort) == hc.port {
    }
  }
}

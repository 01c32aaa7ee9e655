/** pkg/controller/ippool/controller.go: allocators, pool status and manual release requests. */
module PoolController {
  import opened Common
  import opened Ipv4
  import opened Ranges
  import opened PoolStore
  import opened Allocation
  import opened Text
  import B = Booking

  /** The LoadBalancer cache's answer. */
  datatype LbLookup = Found | NotFound | LookupError

  /** The allocator map (the spec ranges each allocator was built from) and the stored pools. */
  datatype Books = Books(entries: map<string, seq<LbRange>>, pools: map<string, Log>)

  /** The spec text and the pool's ranges agree wherever the text can be read. */
  ghost predicate Denotes(spec: seq<LbRange>, ranges: seq<Range>) {
    RangesOf(spec).Ok? ==> ranges == RangesOf(spec).value
  }

  function RefreshLog(log: Log, version: nat, total: int, fault: Fault): Log
    requires version < |log|
  {
    var copy := Refreshed(log[version], total);
    if copy == log[version] then log else Write(log, version, copy, fault)
  }

  predicate RefreshFails(log: Log, version: nat, total: int, fault: Fault)
    requires version < |log|
  {
    Refreshed(log[version], total) != log[version] && WriteFails(log, version, fault)
  }

  /** The allocator in the map was built from these very ranges; the checksum is their equality. */
  predicate Registered(b: Books, name: string, spec: seq<LbRange>) {
    name in b.entries && b.entries[name] == spec
  }

  /** NewAllocator takes the ranges. */
  predicate Usable(spec: seq<LbRange>) {
    |spec| > 0 && RangesOf(spec).Ok?
  }

  /** What NewAllocator counts. */
  function TotalOf(spec: seq<LbRange>): int
    requires Usable(spec)
  {
    Total(RangesOf(spec).value)
  }

  /** What OnChange leaves behind, and whether it returns an error. */
  function OnChangeOf(b: Books, name: string, version: nat, spec: seq<LbRange>, fault: Fault): (Books, bool)
    requires name in b.pools && version < |b.pools[name]|
  {
    var log := b.pools[name];
    if Registered(b, name, spec) then (b, false)
    else if !Usable(spec) then (b, true)
    else
      (Books(b.entries[name := spec], b.pools[name := RefreshLog(log, version, TotalOf(spec), fault)]),
       RefreshFails(log, version, TotalOf(spec), fault))
  }

  class Handler {
    const api: ApiServer
    var entries: map<string, seq<LbRange>>

    constructor (api: ApiServer)
      ensures this.api == api && entries == map[]
    {
      this.api, entries := api, map[];
    }

    /** correctAllocatedHistory: rebuild the history from the addresses that are still in range. */
    method CorrectAllocatedHistory(p: Pool, spec: seq<LbRange>) returns (r: Result<map<Addr, string>, RangeError>)
      requires Denotes(spec, p.ranges)
      ensures RangesOf(spec).Err? ==> r == Err(RangesOf(spec).error)
      ensures RangesOf(spec).Ok? ==> r == Ok(CorrectedHistory(p))
    {
      var rs := RangeSetOf(spec);
      if rs.Err? {
        return Err(rs.error);
      }
      var history: map<Addr, string> := map[];
      var todo := p.status.history.Keys;
      while todo != {}
        invariant todo <= p.status.history.Keys
        invariant history == map a | a in p.status.history && a !in todo && Covers(p.ranges, a) :: p.status.history[a]
      {
        var a :| a in todo;
        if Covers(rs.value, a) {
          history := history[a := p.status.history[a]];
        }
        todo := todo - {a};
      }
      assert history == CorrectedHistory(p);
      return Ok(history);
    }

    method UpdateStatus(name: string, version: nat, spec: seq<LbRange>, total: int, fault: Fault) returns (err: bool)
      requires name in api.pools && version < |api.pools[name]| && Denotes(spec, api.pools[name][version].ranges)
      modifies api
      ensures RangesOf(spec).Err? ==> err && api.pools == old(api.pools)
      ensures RangesOf(spec).Ok? ==>
                && err == RefreshFails(old(api.pools)[name], version, total, fault)
                && api.pools == old(api.pools)[name := RefreshLog(old(api.pools)[name], version, total, fault)]
    {
      var pool := api.pools[name][version];
      var copy := pool.status;
      copy := copy.(available := total - |pool.status.booked|);
      copy := copy.(total := total);
      var history := CorrectAllocatedHistory(pool, spec);
      if history.Err? {
        return true;
      }
      copy := copy.(history := history.value);
      if pool.status == copy {
        assert api.pools == api.pools[name := api.pools[name]];
        return false;
      }
      err := api.Update(name, version, pool.(status := copy), fault);
    }

    /** OnChange: build the allocator first, write the status second. */
    method OnChange(name: string, version: nat, spec: seq<LbRange>, fault: Fault) returns (err: bool)
      requires name in api.pools && version < |api.pools[name]| && Denotes(spec, api.pools[name][version].ranges)
      modifies this, api
      ensures (Books(entries, api.pools), err) == OnChangeOf(old(Books(entries, api.pools)), name, version, spec, fault)
    {
      if name !in entries || entries[name] != spec {
        var a := NewAllocator(spec);
        if a.Err? {
          return true;
        }
        entries := entries[name := spec];
        err := UpdateStatus(name, version, spec, a.value.1, fault);
        return;
      }
      return false;
    }

    /** OnChangeToReleaseAnIP; `view` is the version the allocator's release reads. */
    method OnChangeToReleaseAnIp(name: string, version: nat, lb: LbLookup, view: Option<nat>, release: Fault,
                                 clear: Fault)
      returns (err: bool, ghost pick: Option<Addr>)
      requires name in api.pools && version < |api.pools[name]| && Readable(api.pools, name, view)
      modifies api
      ensures var log := old(api.pools)[name];
              var p := log[version];
              match DecideManual(p, lb)
              case Nothing => !err && api.pools == old(api.pools)
              case RetryLater => err && api.pools == old(api.pools)
              case ClearOnly =>
                && err == WriteFails(log, version, clear)
                && api.pools == old(api.pools)[name := Write(log, version, Cleared(p), clear)]
              case ReleaseAndClear(id) =>
                if name !in entries || view.None? then err && api.pools == old(api.pools)
                else
                  && B.Held(log[view.value].status, id, pick)
                  && var log' := B.ReleaseWrite(log, view.value, pick, release);
                  && if B.ReleaseFails(log, view.value, pick, release) then
                       err && api.pools == old(api.pools)[name := log']
                     else
                       && err == WriteFails(log', version, clear)
                       && api.pools == old(api.pools)[name := Write(log', version, Cleared(p), clear)]
    {
      pick := None;
      var pool := api.pools[name][version];
      if pool.request.None? || pool.request.value == "" {
        return false, pick;
      }
      var parsed := SplitIpAllocated(pool.request.value);
      if parsed.Err? {
        err := RemoveAnnotation(name, version, clear);
        return;
      }
      var (ip, ns, lbName) := parsed.value;
      var lbStr := LookupText(pool.status.booked, ip);
      if lbStr == "" || lbStr != Key(ns, '/', lbName) {
        err := RemoveAnnotation(name, version, clear);
        return;
      }
      if lb.Found? {
        err := RemoveAnnotation(name, version, clear);
        return;
      }
      if !lb.NotFound? {
        return true, pick;
      }
      if name !in entries {
        return true, pick;
      }
      err, pick := ReleaseThenClear(name, version, pool, Key(ns, '/', lbName), view, release, clear);
    }

    /** The last two steps: the allocator's release, then the annotation on the version read before it. */
    method ReleaseThenClear(name: string, version: nat, pool: Pool, id: string, view: Option<nat>, release: Fault,
                            clear: Fault)
      returns (err: bool, ghost pick: Option<Addr>)
      requires name in api.pools && Readable(api.pools, name, view)
      modifies api
      ensures view.None? ==> err && api.pools == old(api.pools)
      ensures view.Some? ==>
                var log := old(api.pools)[name];
                && B.Held(log[view.value].status, id, pick)
                && var log' := B.ReleaseWrite(log, view.value, pick, release);
                && if B.ReleaseFails(log, view.value, pick, release) then
                     err && api.pools == old(api.pools)[name := log']
                   else
                     && err == WriteFails(log', version, clear)
                     && api.pools == old(api.pools)[name := Write(log', version, Cleared(pool), clear)]
    {
      var store := new Store(name, api);
      err, pick := store.ReleaseById(id, view, release);
      assert view.Some? && pick.None? ==> api.pools == old(api.pools)[name := old(api.pools)[name]];
      if err {
        return;
      }
      err := WriteCleared(name, version, pool, clear);
    }

    /** removeAnnotationKeyManuallyReleaseIP on the version the handler was given. */
    method RemoveAnnotation(name: string, version: nat, fault: Fault) returns (err: bool)
      requires name in api.pools && version < |api.pools[name]|
      modifies api
      ensures var log := old(api.pools)[name];
              && err == WriteFails(log, version, fault)
              && api.pools == old(api.pools)[name := Write(log, version, Cleared(log[version]), fault)]
    {
      err := WriteCleared(name, version, api.pools[name][version], fault);
    }

    method WriteCleared(name: string, version: nat, pool: Pool, fault: Fault) returns (err: bool)
      requires name in api.pools
      modifies api
      ensures var log := old(api.pools)[name];
              && err == WriteFails(log, version, fault)
              && api.pools == old(api.pools)[name := Write(log, version, Cleared(pool), fault)]
    {
      var copy := pool.(request := None);
      err := api.Update(name, version, copy, fault);
    }
  }

  /** Allocated[text]: the empty string when no booked address has this text. */
  method LookupText(booked: map<Addr, string>, text: string) returns (id: string)
    ensures forall a :: a in booked && AddrText(a) == text ==> id == booked[a]
    ensures (forall a :: a in booked ==> AddrText(a) != text) ==> id == ""
  {
    id := "";
    var todo := booked.Keys;
    while todo != {}
      invariant todo <= booked.Keys
      invariant id == "" || exists a :: a in booked && AddrText(a) == text && booked[a] == id
      invariant forall a :: a in booked && a !in todo && AddrText(a) == text ==> id == booked[a]
    {
      var a :| a in todo;
      if AddrText(a) == text {
        id := booked[a];
        forall b | b in booked && AddrText(b) == text ensures b == a {
          AddrTextInjective(a, b);
        }
      }
      todo := todo - {a};
    }
  }

  // ----- OnChange -----

  /** What happens to one pool in one life of the process: the handler runs again, or another writer writes. */
  datatype PoolEvent = Handled(version: nat, fault: Fault) | Written(step: StoreStep)

  /** The other writers' part of the events. */
  function StepsOf(events: seq<PoolEvent>): seq<StoreStep>
    decreases |events|
  {
    if |events| == 0 then []
    else (if events[0].Written? then [events[0].step] else []) + StepsOf(events[1..])
  }

  function Happen(b: Books, name: string, spec: seq<LbRange>, e: PoolEvent): (r: Books)
    requires name in b.pools
    ensures name in r.pools
  {
    match e
    case Handled(version, fault) =>
      if version < |b.pools[name]| then OnChangeOf(b, name, version, spec, fault).0 else b
    case Written(step) => b.(pools := b.pools[name := Apply(b.pools[name], step)])
  }

  function HappenAll(b: Books, name: string, spec: seq<LbRange>, events: seq<PoolEvent>): (r: Books)
    requires name in b.pools
    ensures name in r.pools
    decreases |events|
  {
    if |events| == 0 then b else HappenAll(Happen(b, name, spec, events[0]), name, spec, events[1..])
  }

  /** The newest version after the handler's run on one version and any later events. */
  function Final(b: Books, name: string, version: nat, spec: seq<LbRange>, fault: Fault, events: seq<PoolEvent>): Pool
    requires name in b.pools && version < |b.pools[name]|
  {
    Head(HappenAll(OnChangeOf(b, name, version, spec, fault).0, name, spec, events).pools[name])
  }

  /** Once the allocator is registered, the handler is silent whatever the other writers do. */
  lemma {:induction false} QuietForever(b: Books, name: string, spec: seq<LbRange>, events: seq<PoolEvent>)
    requires name in b.pools && Registered(b, name, spec)
    ensures HappenAll(b, name, spec, events).pools[name] == Run(b.pools[name], StepsOf(events))
    decreases |events|
  {
    if |events| > 0 {
      var b1 := Happen(b, name, spec, events[0]);
      QuietForever(b1, name, spec, events[1..]);
      if events[0].Written? {
        assert ([events[0].step] + StepsOf(events[1..]))[1..] == StepsOf(events[1..]);
      } else {
        assert [] + StepsOf(events[1..]) == StepsOf(events[1..]);
      }
    }
  }

  /**
    The status refresh gets one chance in the life of the process: whatever else is written to the
    pool and however often the handler runs again on these ranges, the pool is what the other writers
    make of the log after that one attempt.
   */
  lemma RefreshHasOneChance(b: Books, name: string, version: nat, spec: seq<LbRange>, fault: Fault,
                            events: seq<PoolEvent>)
    requires name in b.pools && version < |b.pools[name]| && Usable(spec)
    requires name !in b.entries || b.entries[name] != spec
    ensures HappenAll(OnChangeOf(b, name, version, spec, fault).0, name, spec, events).pools[name]
            == Run(RefreshLog(b.pools[name], version, TotalOf(spec), fault), StepsOf(events))
  {
    QuietForever(OnChangeOf(b, name, version, spec, fault).0, name, spec, events);
  }

  /** In particular a stale or dropped status write is never repeated: only the others' writes remain. */
  lemma FailedRefreshIsNeverRetried(b: Books, name: string, version: nat, spec: seq<LbRange>, fault: Fault,
                                    events: seq<PoolEvent>)
    requires name in b.pools && version < |b.pools[name]| && Usable(spec)
    requires name !in b.entries || b.entries[name] != spec
    requires version != |b.pools[name]| - 1 || fault == Dropped
    ensures HappenAll(OnChangeOf(b, name, version, spec, fault).0, name, spec, events).pools[name]
            == Run(b.pools[name], StepsOf(events))
  {
    RefreshHasOneChance(b, name, version, spec, fault, events);
  }

  /** Only the handler itself refreshes the status; bookings, releases and clearing do not. */
  ghost predicate OtherWriters(steps: seq<StoreStep>) {
    forall i :: 0 <= i < |steps| ==> !steps[i].op.UpdateStatusOp?
  }

  lemma {:induction false} OthersKeepTotal(log: Log, steps: seq<StoreStep>)
    requires OtherWriters(steps)
    ensures Head(Run(log, steps)).status.total == Head(log).status.total
    decreases |steps|
  {
    if |steps| > 0 {
      OthersKeepTotal(Apply(log, steps[0]), steps[1..]);
    }
  }

  /**
    When the refresh lands, for every read version and every fault: Total ends at the count of the
    ranges exactly when it already was there or the handler read the newest version and its write
    was not dropped. Without other writers this decides the whole status. A lost reply counts as
    landing although the handler returns an error.
   */
  lemma RefreshLandsIff(b: Books, name: string, version: nat, spec: seq<LbRange>, fault: Fault, events: seq<PoolEvent>)
    requires name in b.pools && version < |b.pools[name]| && Usable(spec)
    requires name !in b.entries || b.entries[name] != spec
    requires OtherWriters(StepsOf(events))
    ensures var log, total := b.pools[name], TotalOf(spec);
            var head := Final(b, name, version, spec, fault, events);
            var lands := version == |log| - 1 && fault != Dropped;
            && (head.status.total == total <==> Head(log).status.total == total || lands)
            && (StepsOf(events) == [] ==>
                  (head == Refreshed(Head(log), total) <==> Refreshed(Head(log), total) == Head(log) || lands))
  {
    RefreshHasOneChance(b, name, version, spec, fault, events);
    OthersKeepTotal(RefreshLog(b.pools[name], version, TotalOf(spec), fault), StepsOf(events));
  }

  /** And with it the counter: Available is what the count of the ranges leaves exactly in those cases. */
  lemma AvailableIsRightIff(b: Books, name: string, version: nat, spec: seq<LbRange>, fault: Fault,
                            events: seq<PoolEvent>)
    requires name in b.pools && version < |b.pools[name]| && Usable(spec)
    requires name !in b.entries || b.entries[name] != spec
    requires OtherWriters(StepsOf(events)) && AllAccounted(b.pools[name])
    ensures var log, total := b.pools[name], TotalOf(spec);
            var s := Final(b, name, version, spec, fault, events).status;
            s.available == total - |s.booked| <==>
            Head(log).status.total == total || (version == |log| - 1 && fault != Dropped)
  {
    RefreshLandsIff(b, name, version, spec, fault, events);
    RefreshHasOneChance(b, name, version, spec, fault, events);
    RefreshStaysAccounted(b.pools[name], version, TotalOf(spec), fault, StepsOf(events));
  }

  lemma RefreshStaysAccounted(log: Log, version: nat, total: int, fault: Fault, steps: seq<StoreStep>)
    requires version < |log| && AllAccounted(log)
    ensures Accounted(Head(Run(RefreshLog(log, version, total, fault), steps)).status)
  {
    var after := RefreshLog(log, version, total, fault);
    WantedAccounted(log[version], UpdateStatusOp(total));
    RunsStayAccounted(after, steps);
    assert Accounted(Head(Run(after, steps)).status);
  }

  /** What a refresh that lands leaves: the count, a balanced counter, the same bookings, a trimmed history. */
  lemma OnChangeSetsTotal(b: Books, name: string, version: nat, spec: seq<LbRange>, fault: Fault)
    requires name in b.pools && version == |b.pools[name]| - 1 && fault != Dropped
    requires Usable(spec) && (name !in b.entries || b.entries[name] != spec)
    ensures var p := Head(b.pools[name]);
            var s := Head(OnChangeOf(b, name, version, spec, fault).0.pools[name]).status;
            && s.total == TotalOf(spec) && s.available + |s.booked| == s.total
            && s.booked == p.status.booked
            && forall a :: a in s.history <==> a in p.status.history && Covers(p.ranges, a)
  {
    assert Head(OnChangeOf(b, name, version, spec, fault).0.pools[name])
           == Refreshed(Head(b.pools[name]), TotalOf(spec));
  }

  // ----- several lives of the process -----

  /** A restart empties the allocator map and leaves the pools. */
  datatype LifeEvent = Event(event: PoolEvent) | Restarted

  function Lived(b: Books, name: string, spec: seq<LbRange>, e: LifeEvent): (r: Books)
    requires name in b.pools
    ensures name in r.pools
  {
    if e.Event? then Happen(b, name, spec, e.event) else b.(entries := map[])
  }

  function LivedAll(b: Books, name: string, spec: seq<LbRange>, es: seq<LifeEvent>): (r: Books)
    requires name in b.pools
    ensures name in r.pools
    decreases |es|
  {
    if |es| == 0 then b else LivedAll(Lived(b, name, spec, es[0]), name, spec, es[1..])
  }

  /** A handler run that makes the one attempt of its life, on the newest version, and is not dropped. */
  predicate Attempts(b: Books, name: string, spec: seq<LbRange>, e: LifeEvent)
    requires name in b.pools
  {
    && e.Event? && e.event.Handled? && (name !in b.entries || b.entries[name] != spec)
    && e.event.version == |b.pools[name]| - 1 && e.event.fault != Dropped
  }

  predicate SomeAttemptLands(b: Books, name: string, spec: seq<LbRange>, es: seq<LifeEvent>)
    requires name in b.pools
    decreases |es|
  {
    |es| > 0 && (Attempts(b, name, spec, es[0]) || SomeAttemptLands(Lived(b, name, spec, es[0]), name, spec, es[1..]))
  }

  /** Apart from the handler nobody refreshes the status. */
  ghost predicate OnlyHandlerRefreshes(es: seq<LifeEvent>) {
    forall i :: 0 <= i < |es| ==> es[i].Event? && es[i].event.Written? ==> !es[i].event.step.op.UpdateStatusOp?
  }

  lemma LivedTotal(b: Books, name: string, spec: seq<LbRange>, e: LifeEvent)
    requires name in b.pools && Usable(spec)
    requires e.Event? && e.event.Written? ==> !e.event.step.op.UpdateStatusOp?
    ensures Head(Lived(b, name, spec, e).pools[name]).status.total == TotalOf(spec) <==>
            Head(b.pools[name]).status.total == TotalOf(spec) || Attempts(b, name, spec, e)
  {
  }

  /**
    Over any number of restarts: Total ends right exactly when it was right or, in some life of the
    process, the first handler run on these ranges reads the newest version and is not dropped.
   */
  lemma {:induction false} TotalIsRightIff(b: Books, name: string, spec: seq<LbRange>, es: seq<LifeEvent>)
    requires name in b.pools && Usable(spec) && OnlyHandlerRefreshes(es)
    ensures Head(LivedAll(b, name, spec, es).pools[name]).status.total == TotalOf(spec) <==>
            Head(b.pools[name]).status.total == TotalOf(spec) || SomeAttemptLands(b, name, spec, es)
    decreases |es|
  {
    if |es| > 0 {
      LivedTotal(b, name, spec, es[0]);
      TotalIsRightIff(Lived(b, name, spec, es[0]), name, spec, es[1..]);
    }
  }

  // ----- the ranges change -----

  /** The pool after its owner edited the spec: a new version with the ranges the text denotes. */
  function Respec(b: Books, name: string, spec: seq<LbRange>): (r: Books)
    requires name in b.pools && Usable(spec)
    ensures name in r.pools
  {
    b.(pools := b.pools[name := b.pools[name] + [Head(b.pools[name]).(ranges := RangesOf(spec).value)]])
  }

  /**
    An edit of the ranges is followed: the next handler run replaces the allocator whatever happens
    to its write, and if it reads the newest version and is not dropped, Total, Available and history
    follow the new ranges.
   */
  lemma EditIsFollowed(b: Books, name: string, spec: seq<LbRange>, spec': seq<LbRange>, version: nat, fault: Fault)
    requires name in b.pools && name in b.entries && b.entries[name] == spec && spec != spec' && Usable(spec')
    requires version < |Respec(b, name, spec').pools[name]|
    ensures var p := Head(b.pools[name]);
            var b' := OnChangeOf(Respec(b, name, spec'), name, version, spec', fault).0;
            var s := Head(b'.pools[name]).status;
            && b'.entries == b.entries[name := spec']
            && (version == |b.pools[name]| && fault != Dropped ==>
                  && s.total == TotalOf(spec') && s.available == TotalOf(spec') - |s.booked|
                  && s.booked == p.status.booked
                  && forall a :: a in s.history <==> a in p.status.history && Covers(RangesOf(spec').value, a))
  {
    if version == |b.pools[name]| && fault != Dropped {
      OnChangeSetsTotal(Respec(b, name, spec'), name, version, spec', fault);
    }
  }

  /**
    A whole run in which the ranges change: after any events under the old ranges, an edit and any
    events under the new ones, Total is the new count exactly when it was by chance or an attempt
    under the new ranges lands.
   */
  lemma EditedRunIff(b: Books, name: string, spec: seq<LbRange>, es: seq<LifeEvent>, spec': seq<LbRange>,
                     es': seq<LifeEvent>)
    requires name in b.pools && Usable(spec') && OnlyHandlerRefreshes(es')
    ensures var mid := LivedAll(b, name, spec, es);
            var edited := Respec(mid, name, spec');
            Head(LivedAll(edited, name, spec', es').pools[name]).status.total == TotalOf(spec') <==>
            Head(mid.pools[name]).status.total == TotalOf(spec') || SomeAttemptLands(edited, name, spec', es')
  {
    TotalIsRightIff(Respec(LivedAll(b, name, spec, es), name, spec'), name, spec', es');
  }

  // ----- manual release -----

  datatype Manual = Nothing | ClearOnly | RetryLater | ReleaseAndClear(id: string)

  function Cleared(p: Pool): Pool {
    p.(request := None)
  }

  ghost predicate RecordedFor(s: Status, text: string, id: string) {
    exists a :: Holds(s, id, a) && AddrText(a) == text
  }

  ghost function DecideManual(p: Pool, lb: LbLookup): Manual {
    if p.request.None? || p.request.value == "" then Nothing
    else
      match SplitIpAllocated(p.request.value)
      case Err(_) => ClearOnly
      case Ok((ip, ns, name)) =>
        if !RecordedFor(p.status, ip, Key(ns, '/', name)) || lb.Found? then ClearOnly
        else if lb.NotFound? then ReleaseAndClear(Key(ns, '/', name))
        else RetryLater
  }

  /** The address the release meets, for a run that decides to release. */
  ghost predicate Picked(p: Pool, lb: LbLookup, pick: Option<Addr>) {
    var d := DecideManual(p, lb);
    d.ReleaseAndClear? ==> B.Held(p.status, d.id, pick)
  }

  /** The log after one handler run that decides d and whose allocator reads the same version. */
  function ManualLog(log: Log, version: nat, d: Manual, pick: Option<Addr>, release: Fault, clear: Fault): Log
    requires version < |log|
    requires d.ReleaseAndClear? && pick.Some? ==> pick.value in log[version].status.booked
  {
    var p := log[version];
    match d
    case Nothing => log
    case RetryLater => log
    case ClearOnly => Write(log, version, Cleared(p), clear)
    case ReleaseAndClear(id) =>
      var log' := B.ReleaseWrite(log, version, pick, release);
      if B.ReleaseFails(log, version, pick, release) then log' else Write(log', version, Cleared(p), clear)
  }

  /** The address and the applicant a request names. */
  ghost predicate Names(p: Pool, ip: Addr, id: string) {
    && p.request.Some? && p.request.value != ""
    && var r := SplitIpAllocated(p.request.value);
    && r.Ok? && r.value.0 == AddrText(ip) && Key(r.value.1, '/', r.value.2) == id
  }

  /** A run that decides to release frees exactly the address the request names. */
  lemma ReleasesTheNamed(p: Pool, lb: LbLookup, pick: Option<Addr>)
    requires GoodPool(p) && DecideManual(p, lb).ReleaseAndClear? && Picked(p, lb, pick)
    ensures lb.NotFound? && pick.Some?
    ensures var id := DecideManual(p, lb).id;
            Names(p, pick.value, id) && Holds(p.status, id, pick.value)
  {
    var id := DecideManual(p, lb).id;
    var text := SplitIpAllocated(p.request.value).value.0;
    assert RecordedFor(p.status, text, id);
    var a :| Holds(p.status, id, a) && AddrText(a) == text;
    HoldsOne(p.status, id, a, pick.value);
  }

  /** A release that takes effect makes the annotation write that follows a stale one. */
  lemma ReleaseStands(log: Log, version: nat, id: string, ip: Addr, release: Fault, clear: Fault)
    requires version < |log| && ip in log[version].status.booked
    ensures var log' := ManualLog(log, version, ReleaseAndClear(id), Some(ip), release, clear);
            || log' == log
            || (version == |log| - 1 && Head(log') == Head(log).(status := Freed(Head(log).status, ip)))
  {
  }

  /**
    A run changes the bookings only by freeing the named address, only when the pool records it for
    the named LoadBalancer and that LoadBalancer is absent; the stale annotation write that follows
    then cannot take effect, so the release stands and the request is still there.
   */
  lemma ManualReleaseIsExact(log: Log, version: nat, lb: LbLookup, pick: Option<Addr>, release: Fault, clear: Fault)
    requires AllGood(log) && version < |log| && Picked(log[version], lb, pick)
    ensures var d := DecideManual(log[version], lb);
            var log' := ManualLog(log, version, d, pick, release, clear);
            || Head(log').status == Head(log).status
            || (&& version == |log| - 1 && lb.NotFound? && d.ReleaseAndClear? && pick.Some?
                && Names(Head(log), pick.value, d.id) && Holds(Head(log).status, d.id, pick.value)
                && Head(log') == Head(log).(status := Freed(Head(log).status, pick.value)))
  {
    var d := DecideManual(log[version], lb);
    if d.ReleaseAndClear? {
      assert GoodPool(log[version]);
      ReleasesTheNamed(log[version], lb, pick);
      ReleaseStands(log, version, d.id, pick.value, release, clear);
    } else {
      OthersKeepStatus(log, version, d, pick, release, clear);
    }
  }

  /** Without a release the status is what it was. */
  lemma OthersKeepStatus(log: Log, version: nat, d: Manual, pick: Option<Addr>, release: Fault, clear: Fault)
    requires version < |log| && !d.ReleaseAndClear?
    ensures Head(ManualLog(log, version, d, pick, release, clear)).status == Head(log).status
  {
  }

  /** Once the address is free, any run on that version decides only to clear the request. */
  lemma FreedRequestIsCleared(p: Pool, ip: Addr, id: string, lb: LbLookup)
    requires Names(p, ip, id) && ip !in p.status.booked
    ensures DecideManual(p, lb) == ClearOnly
  {
    var text := SplitIpAllocated(p.request.value).value.0;
    forall a | Holds(p.status, id, a) ensures AddrText(a) != text {
      if AddrText(a) == AddrText(ip) {
        AddrTextInjective(a, ip);
      }
    }
    assert !RecordedFor(p.status, text, id);
  }

  lemma DecidesToRelease(p: Pool, ip: Addr, id: string)
    requires Names(p, ip, id) && Holds(p.status, id, ip)
    ensures DecideManual(p, NotFound) == ReleaseAndClear(id)
  {
    assert RecordedFor(p.status, SplitIpAllocated(p.request.value).value.0, id);
  }

  /** The two runs together: release first, then clear; nothing else changes. */
  lemma ManualReleaseCompletes(log: Log, ip: Addr, id: string, clear: Fault, log1: Log, again: LbLookup)
    requires Names(Head(log), ip, id) && Holds(Head(log).status, id, ip)
    requires log1 == ManualLog(log, |log| - 1, ReleaseAndClear(id), Some(ip), NoFault, clear)
    ensures DecideManual(Head(log), NotFound) == ReleaseAndClear(id)
    ensures DecideManual(Head(log1), again) == ClearOnly
    ensures Head(ManualLog(log1, |log1| - 1, ClearOnly, None, NoFault, NoFault))
            == Cleared(Head(log).(status := Freed(Head(log).status, ip)))
  {
    DecidesToRelease(Head(log), ip, id);
    ReleaseStands(log, |log| - 1, id, ip, NoFault, clear);
    assert Head(log1) == Head(log).(status := Freed(Head(log).status, ip));
    FreedRequestIsCleared(Head(log1), ip, id, again);
  }

  /**
    The three answers about a LoadBalancer whose address the request names: an error changes nothing
    and is retried, an existing LoadBalancer keeps its address and loses the request, and an absent
    one loses the address.
   */
  lemma LookupDecides(p: Pool, ip: Addr, id: string)
    requires Names(p, ip, id) && Holds(p.status, id, ip)
    ensures DecideManual(p, LookupError) == RetryLater
    ensures DecideManual(p, Found) == ClearOnly
    ensures DecideManual(p, NotFound) == ReleaseAndClear(id)
  {
    assert RecordedFor(p.status, SplitIpAllocated(p.request.value).value.0, id);
  }

  /** Without a request nothing happens; one that cannot be read is cleared. */
  lemma UnreadableIsCleared(p: Pool, lb: LbLookup)
    ensures DecideManual(p, lb) == Nothing <==> p.request.None? || p.request == Some("")
    ensures p.request.Some? && p.request.value != "" && SplitIpAllocated(p.request.value).Err? ==>
              DecideManual(p, lb) == ClearOnly
    ensures Cleared(p).request.None? && Cleared(p).status == p.status && Cleared(p).ranges == p.ranges
  {
  }
}

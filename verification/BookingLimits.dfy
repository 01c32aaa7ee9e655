/**
  Where the booking protocol stops being safe. Each lemma exhibits a run of the modelled code; the
  conditions of Booking.RunsStaySafe are therefore needed.
 */
module BookingLimits {
  import opened Common
  import opened Ipv4
  import opened Ranges
  import opened PoolStore
  import opened Allocation
  import opened Booking

  const IP: Addr := 10

  const RANGE := Range(10, 20, None, 0, 24)

  const EMPTY := World(map[], map[])

  const OPEN := AddPool("p", [RANGE])

  function Version(w: World): nat
    requires "p" in w.pools
  {
    |w.pools["p"]| - 1
  }

  /** The pool is there, the address is free, and the id is a stranger to it. */
  ghost predicate Free(w: World, id: string) {
    && "p" in w.pools
    && var p := Head(w.pools["p"]);
    && p.ranges == [RANGE] && IP !in p.status.booked
    && Scanned(p.status, id, None) && forall a :: !Holds(p.status, id, a)
  }

  function Asking(id: string): LbObject {
    LbObject(Some("p"), None, false, true)
  }

  function Recorded(id: string): LbObject {
    LbObject(Some("p"), Some(Address("p", IP)), false, true)
  }

  lemma Push(w: World, acts: seq<Action>, a: Action)
    ensures RunAll(w, acts + [a]) == Next(RunAll(w, acts), a)
    ensures var w' := RunAll(w, acts);
            ReadsOwnWrites(w, acts + [a])
            <==> ReadsOwnWrites(w, acts)
                 && (a.Start? && a.id in w'.lbs ==> Fresh(w'.lbs[a.id].log, a.read))
  {
    RunConcat(w, acts, [a]);
    RunOne(RunAll(w, acts), a);
  }

  // ----- one LoadBalancer is created, books the address and records it -----

  ghost function Joining(w: World, id: string): seq<Action>
    requires "p" in w.pools
  {
    [Create(id, Some("p"), true)] + [Start(id, 0)]
    + [Allocate(id, "p", Version(w), None, [IP], NoFault)] + [Record(id, NoFault)]
  }

  ghost function Joined(w: World, id: string): World
    requires "p" in w.pools
  {
    var p := Head(w.pools["p"]);
    World(w.pools["p" := w.pools["p"] + [p.(status := Booked(p.status, id, IP))]],
          w.lbs[id := Lb([Asking(id), Recorded(id)], Idle)])
  }

  lemma JoinStarts(w: World, id: string)
    requires Free(w, id) && id !in w.lbs
    ensures var acts := [Create(id, Some("p"), true)] + [Start(id, 0)];
            && RunAll(w, acts) == w.(lbs := w.lbs[id := Lb([Asking(id)], Reading(0))])
            && ReadsOwnWrites(w, acts)
  {
    RunOne(w, Create(id, Some("p"), true));
    Push(w, [Create(id, Some("p"), true)], Start(id, 0));
  }

  lemma JoinBooks(w: World, w2: World, id: string)
    requires Free(w, id) && w2 == w.(lbs := w.lbs[id := Lb([Asking(id)], Reading(0))])
    ensures Next(w2, Allocate(id, "p", Version(w), None, [IP], NoFault))
            == World(Joined(w, id).pools,
                     w.lbs[id := Lb([Asking(id)], Recording(0, Some(Address("p", IP))))])
  {
    GrantStep(Head(w.pools["p"]), id);
    var w3 := Next(w2, Allocate(id, "p", Version(w), None, [IP], NoFault));
    assert w3.pools == Joined(w, id).pools;
    assert w3.lbs == w.lbs[id := Lb([Asking(id)], Recording(0, Some(Address("p", IP))))];
  }

  lemma JoinRecords(w: World, w3: World, id: string)
    requires "p" in w.pools
    requires w3 == World(Joined(w, id).pools,
                         w.lbs[id := Lb([Asking(id)], Recording(0, Some(Address("p", IP))))])
    ensures Next(w3, Record(id, NoFault)) == Joined(w, id)
  {
    assert [Asking(id)] + [Recorded(id)] == [Asking(id), Recorded(id)];
    assert Next(w3, Record(id, NoFault)).lbs == Joined(w, id).lbs;
  }

  lemma JoinRuns(w: World, id: string)
    requires Free(w, id) && id !in w.lbs
    ensures RunAll(w, Joining(w, id)) == Joined(w, id)
    ensures ReadsOwnWrites(w, Joining(w, id))
  {
    var start := [Create(id, Some("p"), true)] + [Start(id, 0)];
    var get := Allocate(id, "p", Version(w), None, [IP], NoFault);
    JoinStarts(w, id);
    var w2 := RunAll(w, start);
    JoinBooks(w, w2, id);
    JoinRecords(w, Next(w2, get), id);
    Push(w, start, get);
    Push(w, start + [get], Record(id, NoFault));
  }

  lemma GrantStep(p: Pool, id: string)
    requires p.ranges == [RANGE] && IP !in p.status.booked && forall a :: !Holds(p.status, id, a)
    ensures Candidates(p.ranges, [IP])
    ensures DecideGet(p, id, None, [IP]) == Try(IP, p.(status := Booked(p.status, id, IP)))
  {
    assert [RANGE][0].Contains(IP);
    assert Requestable(p.ranges, IP);
    assert !HoldsInRange(p, id);
  }

  ghost predicate Owner(w: World, id: string) {
    && Owns(w.pools, id, Address("p", IP))
    && Head(w.pools["p"]).ranges == [RANGE]
    && Scanned(Head(w.pools["p"]).status, id, None)
  }

  ghost function Vacated(w: World): map<string, Log>
    requires "p" in w.pools && IP in Head(w.pools["p"]).status.booked
  {
    var p := Head(w.pools["p"]);
    w.pools["p" := w.pools["p"] + [p.(status := Freed(p.status, IP))]]
  }

  // ----- a reconcile that does not see its own status write -----

  ghost function Relapsing(w: World, id: string): seq<Action>
    requires "p" in w.pools
  {
    [Start(id, 0)] + [Allocate(id, "p", Version(w), None, [IP], NoFault)]
    + [ReleaseDuplicate(id, "p", Version(w), Some(IP), NoFault)]
  }

  /** The LoadBalancer is idle and its oldest version asks for an address. */
  predicate Askable(w: World, id: string) {
    id in w.lbs && w.lbs[id].phase.Idle? && w.lbs[id].log[0] == Asking(id)
  }

  lemma RelapseRuns(w: World, id: string)
    requires Owner(w, id) && Askable(w, id)
    ensures RunAll(w, Relapsing(w, id)) == w.(pools := Vacated(w))
    ensures ReadsOwnWrites(w, Relapsing(w, id)) <==> Fresh(w.lbs[id].log, 0)
  {
    var a1, a2 := Start(id, 0), Allocate(id, "p", Version(w), None, [IP], NoFault);
    var a3 := ReleaseDuplicate(id, "p", Version(w), Some(IP), NoFault);
    RunOne(w, a1);
    var w1 := Next(w, a1);
    assert w1 == SetPhase(w, id, Reading(0));
    Push(w, [a1], a2);
    RelapseMeets(w, w1, id);
    Push(w, [a1] + [a2], a3);
    RelapseReleases(w, SetPhase(w, id, Releasing(0)), id);
  }

  lemma RelapseMeets(w: World, w1: World, id: string)
    requires Owner(w, id) && Askable(w, id)
    requires w1 == SetPhase(w, id, Reading(0))
    ensures Next(w1, Allocate(id, "p", Version(w), None, [IP], NoFault)) == SetPhase(w, id, Releasing(0))
  {
    DuplicateStep(Head(w.pools["p"]), id);
    assert w1.pools["p" := w1.pools["p"]] == w1.pools;
  }

  lemma RelapseReleases(w: World, w2: World, id: string)
    requires Owner(w, id) && Askable(w, id)
    requires w2 == SetPhase(w, id, Releasing(0))
    ensures Next(w2, ReleaseDuplicate(id, "p", Version(w), Some(IP), NoFault)) == w.(pools := Vacated(w))
  {
    assert Next(w2, ReleaseDuplicate(id, "p", Version(w), Some(IP), NoFault)).lbs == w.lbs;
  }

  lemma DuplicateStep(p: Pool, id: string)
    requires p.ranges == [RANGE] && Holds(p.status, id, IP)
    ensures Candidates(p.ranges, [IP]) && DecideGet(p, id, None, [IP]).Duplicate?
  {
    assert [RANGE][0].Contains(IP);
    assert Requestable(p.ranges, IP);
    assert Holds(p.status, id, IP) && Covers(p.ranges, IP);
  }

  // ----- the stages both failures share: x joins, x loses the address, y joins -----

  lemma OpenPool() returns (w: World)
    ensures w == RunAll(EMPTY, [OPEN]) && ReadsOwnWrites(EMPTY, [OPEN])
    ensures w == World(map["p" := [EmptyPool([RANGE])]], map[]) && Free(w, "x")
  {
    RunOne(EMPTY, OPEN);
    w := Next(EMPTY, OPEN);
  }

  lemma FirstJoin() returns (w: World, acts: seq<Action>)
    ensures w == RunAll(EMPTY, acts) && ReadsOwnWrites(EMPTY, acts)
    ensures Owner(w, "x") && w.lbs == map["x" := Lb([Asking("x"), Recorded("x")], Idle)]
    ensures Head(w.pools["p"]).status.booked == map[IP := "x"] && Head(w.pools["p"]).status.history == map[]
  {
    var w0 := OpenPool();
    JoinRuns(w0, "x");
    acts := [OPEN] + Joining(w0, "x");
    RunConcat(EMPTY, [OPEN], Joining(w0, "x"));
    w := Joined(w0, "x");
    assert Head(w.pools["p"]).status.history == map[];
  }

  lemma VacantForY(w: World, w': World)
    requires Owner(w, "x") && Head(w.pools["p"]).status.booked == map[IP := "x"]
    requires Head(w.pools["p"]).status.history == map[]
    requires w'.pools == Vacated(w)
    ensures Free(w', "y")
  {
    var p := Head(w'.pools["p"]);
    assert p.status.booked == map[] && p.status.history == map[IP := "x"];
  }

  ghost predicate Collide(w: World, x: string, y: string) {
    && x != y && x in w.lbs && y in w.lbs
    && !Last(w.lbs[x].log).deleting && !Last(w.lbs[y].log).deleting
    && Last(w.lbs[x].log).status.Some?
    && Last(w.lbs[x].log).status == Last(w.lbs[y].log).status
  }

  /**
    Both failures are releases of a recorded address. Exactly these writes keep it: another pool's,
    one computed from an older version, or a dropped one.
   */
  lemma ReleaseKeepsOwnIff(pools: map<string, Log>, id: string, a: Address, pool: string, version: nat, pick: Addr,
                           fault: Fault)
    requires PoolsOk(pools) && Owns(pools, id, a)
    requires pool in pools && version < |pools[pool]| && Holds(pools[pool][version].status, id, pick)
    ensures Owns(pools[pool := ReleaseWrite(pools[pool], version, Some(pick), fault)], id, a) <==>
            a.pool != pool || version != |pools[pool]| - 1 || fault == Dropped
  {
    if a.pool == pool && version == |pools[pool]| - 1 {
      assert AllGood(pools[pool]);
      assert GoodPool(Head(pools[pool]));
      HoldsOne(Head(pools[pool]).status, id, a.ip, pick);
    }
  }

  /**
    If a reconcile reads an object older than its own status write, the duplicate branch releases
    the recorded address, and another settled LoadBalancer can record the same one.
   */
  lemma StaleStatusReadCollides()
    ensures exists acts :: var w := RunAll(EMPTY, acts);
              Collide(w, "x", "y") && Settled(w.lbs["x"].log) && Settled(w.lbs["y"].log)
  {
    var w1, acts1 := FirstJoin();
    RelapseRuns(w1, "x");
    RunConcat(EMPTY, acts1, Relapsing(w1, "x"));
    var acts2, w2 := acts1 + Relapsing(w1, "x"), w1.(pools := Vacated(w1));
    VacantForY(w1, w2);
    JoinRuns(w2, "y");
    RunConcat(EMPTY, acts2, Joining(w2, "y"));
    SettledOnceRecorded("x");
    SettledOnceRecorded("y");
    assert RunAll(EMPTY, acts2 + Joining(w2, "y")) == Joined(w2, "y");
  }

  lemma SettledOnceRecorded(id: string)
    ensures Settled([Asking(id), Recorded(id)])
  {
    var log: LbLog := [Asking(id), Recorded(id)];
    assert log[1].status != log[0].status;
  }

  // ----- a pool change that is undone before the status is cleared -----

  ghost function Wavering(w: World, id: string): seq<Action>
    requires "p" in w.pools
  {
    [Edit(id, Some("q"))] + [Start(id, 2)] + [ReleaseOld(id, Version(w), Some(IP), NoFault)]
    + [Crash(id)] + [Edit(id, Some("p"))]
  }

  function Wavered(id: string): LbLog {
    [Asking(id), Recorded(id), Recorded(id).(spec := Some("q"))]
  }

  lemma WaverEdits(w: World, id: string)
    requires id in w.lbs && w.lbs[id] == Lb([Asking(id), Recorded(id)], Idle)
    ensures Next(w, Edit(id, Some("q"))) == w.(lbs := w.lbs[id := Lb(Wavered(id), Idle)])
  {
    assert [Asking(id), Recorded(id)] + [Recorded(id).(spec := Some("q"))] == Wavered(id);
  }

  lemma WaverStarts(w: World, id: string)
    requires Owner(w, id) && id in w.lbs && w.lbs[id] == Lb([Asking(id), Recorded(id)], Idle)
    ensures var acts := [Edit(id, Some("q"))] + [Start(id, 2)];
            && RunAll(w, acts) == w.(lbs := w.lbs[id := Lb(Wavered(id), Reading(2))])
            && ReadsOwnWrites(w, acts)
  {
    var a1 := Edit(id, Some("q"));
    RunOne(w, a1);
    WaverEdits(w, id);
    Push(w, [a1], Start(id, 2));
  }

  lemma WaverReleases(w: World, w2: World, id: string)
    requires Owner(w, id) && w2 == w.(lbs := w.lbs[id := Lb(Wavered(id), Reading(2))])
    ensures var w3 := Next(w2, ReleaseOld(id, Version(w), Some(IP), NoFault));
            Next(w3, Crash(id)) == World(Vacated(w), w.lbs[id := Lb(Wavered(id), Idle)])
  {
    var w3 := Next(w2, ReleaseOld(id, Version(w), Some(IP), NoFault));
    assert w3 == World(Vacated(w), w.lbs[id := Lb(Wavered(id), Recording(2, None))]);
    assert Next(w3, Crash(id)).lbs == w.lbs[id := Lb(Wavered(id), Idle)];
  }

  lemma WaverReturns(w: World, w4: World, id: string)
    requires Owner(w, id) && w4 == World(Vacated(w), w.lbs[id := Lb(Wavered(id), Idle)])
    ensures Next(w4, Edit(id, Some("p")))
            == World(Vacated(w), w.lbs[id := Lb(Wavered(id) + [Recorded(id)], Idle)])
  {
    assert Next(w4, Edit(id, Some("p"))).lbs == w.lbs[id := Lb(Wavered(id) + [Recorded(id)], Idle)];
  }

  lemma WaverRuns(w: World, id: string)
    requires Owner(w, id) && id in w.lbs && w.lbs[id] == Lb([Asking(id), Recorded(id)], Idle)
    ensures RunAll(w, Wavering(w, id))
            == World(Vacated(w), w.lbs[id := Lb(Wavered(id) + [Recorded(id)], Idle)])
    ensures ReadsOwnWrites(w, Wavering(w, id))
  {
    var start := [Edit(id, Some("q"))] + [Start(id, 2)];
    var a3, a4, a5 := ReleaseOld(id, Version(w), Some(IP), NoFault), Crash(id), Edit(id, Some("p"));
    WaverStarts(w, id);
    var w2 := RunAll(w, start);
    WaverReleases(w, w2, id);
    WaverReturns(w, Next(Next(w2, a3), a4), id);
    Push(w, start, a3);
    Push(w, start + [a3], a4);
    Push(w, start + [a3] + [a4], a5);
  }

  /**
    A spec.ipPool that is changed and changed back can leave two LoadBalancers, both live and both
    asking for the pool they record, with one address: the check must look at every version since
    the record, not only at the current one.
   */
  lemma ChangingThePoolBackCollides()
    ensures exists acts :: ReadsOwnWrites(EMPTY, acts) && var w := RunAll(EMPTY, acts);
              Collide(w, "x", "y") && !PoolChanged(Last(w.lbs["x"].log)) && !PoolChanged(Last(w.lbs["y"].log))
  {
    var w1, acts1 := FirstJoin();
    WaverRuns(w1, "x");
    RunConcat(EMPTY, acts1, Wavering(w1, "x"));
    var acts2, w2 := acts1 + Wavering(w1, "x"), RunAll(w1, Wavering(w1, "x"));
    VacantForY(w1, w2);
    JoinRuns(w2, "y");
    RunConcat(EMPTY, acts2, Joining(w2, "y"));
    assert RunAll(EMPTY, acts2 + Joining(w2, "y")) == Joined(w2, "y");
    assert ReadsOwnWrites(EMPTY, acts2 + Joining(w2, "y"));
  }

  // ----- a reconcile that crashes between the booking and the record -----

  ghost function Losing(w: World, id: string): seq<Action>
    requires "p" in w.pools
  {
    [Create(id, Some("p"), true)] + [Start(id, 0)]
    + [Allocate(id, "p", Version(w), None, [IP], NoFault)] + [Crash(id)]
  }

  ghost function Lost(w: World, id: string): World
    requires "p" in w.pools
  {
    World(Joined(w, id).pools, w.lbs[id := Lb([Asking(id)], Idle)])
  }

  lemma LoseRuns(w: World, id: string)
    requires Free(w, id) && id !in w.lbs
    ensures RunAll(w, Losing(w, id)) == Lost(w, id)
    ensures ReadsOwnWrites(w, Losing(w, id))
  {
    var start := [Create(id, Some("p"), true)] + [Start(id, 0)];
    var get := Allocate(id, "p", Version(w), None, [IP], NoFault);
    JoinStarts(w, id);
    var w2 := RunAll(w, start);
    JoinBooks(w, w2, id);
    Push(w, start, get);
    Push(w, start + [get], Crash(id));
    assert Next(Next(w2, get), Crash(id)).lbs == Lost(w, id).lbs;
  }

  lemma FirstLoss() returns (w: World, acts: seq<Action>)
    ensures w == RunAll(EMPTY, acts) && ReadsOwnWrites(EMPTY, acts)
    ensures Owner(w, "x") && w.lbs == map["x" := Lb([Asking("x")], Idle)]
    ensures w.pools == map["p" := [EmptyPool([RANGE]), Taken("x")]]
    ensures Head(w.pools["p"]).status.booked == map[IP := "x"] && Head(w.pools["p"]).status.history == map[]
  {
    var w0 := OpenPool();
    LoseRuns(w0, "x");
    acts := [OPEN] + Losing(w0, "x");
    RunConcat(EMPTY, [OPEN], Losing(w0, "x"));
    w := Lost(w0, "x");
    assert Head(w.pools["p"]).status.history == map[];
    assert w.pools["p"] == [EmptyPool([RANGE]), Taken("x")];
  }

  function Taken(id: string): Pool {
    EmptyPool([RANGE]).(status := Booked(EmptyPool([RANGE]).status, id, IP))
  }

  /**
    The leak of Booking.RemoveLeavesBookedIff, reached: a crash falls between the booking and the
    record, the LoadBalancer is deleted, its removal finds no address in the status and releases
    nothing, and the booking outlives its owner.
   */
  lemma CrashThenDeleteLeaks()
    ensures exists acts :: ReadsOwnWrites(EMPTY, acts) && var w := RunAll(EMPTY, acts);
              "x" !in w.lbs && Owns(w.pools, "x", Address("p", IP))
  {
    var w1, acts1 := FirstLoss();
    var a, b := MarkDeleted("x"), Remove("x", 0, None, NoFault, false);
    Push(EMPTY, acts1, a);
    var w2 := Next(w1, a);
    assert w2 == w1.(lbs := w1.lbs["x" := Lb([Asking("x")] + [Asking("x").(deleting := true)], Idle)]);
    Push(EMPTY, acts1 + [a], b);
    assert Next(w2, b) == w2.(lbs := w2.lbs - {"x"});
    assert ReadsOwnWrites(EMPTY, acts1 + [a] + [b]);
  }

  // ----- one allocator call reading two versions -----

  /** The decision of a call that finds the address in the history of one version and reserves against another. */
  function SplitDecision(log: Log, id: string, reserve: nat, ip: Addr): GetDecision
    requires reserve < |log|
  {
    RequestAt(log[reserve], id, ip)
  }

  ghost predicate SplitEnabled(w: World, id: string, pool: string, scan: nat, reserve: nat, ip: Addr) {
    && Enabled(w, Allocate(id, pool, scan, Some(ip), [], NoFault))
    && scan <= reserve < |w.pools[pool]|
  }

  /**
    The Allocate action with two snapshots: the history of version `scan`, the bookings of a version
    `reserve` that the cache shows later.
   */
  ghost function SplitAllocate(w: World, id: string, pool: string, scan: nat, reserve: nat, ip: Addr,
                               fault: Fault): World {
    if !SplitEnabled(w, id, pool, scan, reserve, ip) then w
    else
      var log := w.pools[pool];
      var d := SplitDecision(log, id, reserve, ip);
      SetPhase(w.(pools := w.pools[pool := GetWrite(log, reserve, d, fault)]), id,
               AfterGet(log, reserve, w.lbs[id].phase.read, pool, d, fault))
  }

  /** With one snapshot it is the protocol's own action. */
  lemma SplitOfOneIsAllocate(w: World, id: string, pool: string, version: nat, ip: Addr, fault: Fault)
    ensures SplitAllocate(w, id, pool, version, version, ip, fault)
            == Next(w, Allocate(id, pool, version, Some(ip), [], fault))
  {
  }

  /**
    A grant of such a call is the id's own exactly when the version it reserved against does not book
    the address, so that the call had to write, or the newest version still books it for the id.
   */
  lemma SplitOwnsIff(w: World, id: string, pool: string, scan: nat, reserve: nat, ip: Addr, fault: Fault)
    requires SplitEnabled(w, id, pool, scan, reserve, ip)
    requires SplitAllocate(w, id, pool, scan, reserve, ip, fault).lbs[id].phase.Recording?
    ensures Owns(SplitAllocate(w, id, pool, scan, reserve, ip, fault).pools, id, Address(pool, ip)) <==>
            ip !in w.pools[pool][reserve].status.booked || Holds(Head(w.pools[pool]).status, id, ip)
  {
  }

  // ----- x books, crashes and releases, twice; y takes the address -----

  ghost function Rebooking(w: World, id: string): seq<Action>
    requires "p" in w.pools
  {
    [Start(id, 0)] + [Allocate(id, "p", Version(w), Some(IP), [], NoFault)] + [Crash(id)]
  }

  ghost function Rebooked(w: World, id: string): World
    requires "p" in w.pools
  {
    var p := Head(w.pools["p"]);
    w.(pools := w.pools["p" := w.pools["p"] + [p.(status := Booked(p.status, id, IP))]])
  }

  lemma RebookBooks(w: World, w1: World, id: string)
    requires Askable(w, id) && w1 == SetPhase(w, id, Reading(0)) && "p" in w.pools
    requires Head(w.pools["p"]).ranges == [RANGE] && IP !in Head(w.pools["p"]).status.booked
    requires Scanned(Head(w.pools["p"]).status, id, Some(IP))
    ensures Next(w1, Allocate(id, "p", Version(w), Some(IP), [], NoFault))
            == SetPhase(Rebooked(w, id), id, Recording(0, Some(Address("p", IP))))
  {
    assert [RANGE][0].Contains(IP);
    assert Requestable([RANGE], IP);
  }

  lemma RebookRuns(w: World, id: string)
    requires Askable(w, id) && "p" in w.pools
    requires Head(w.pools["p"]).ranges == [RANGE] && IP !in Head(w.pools["p"]).status.booked
    requires Scanned(Head(w.pools["p"]).status, id, Some(IP))
    ensures RunAll(w, Rebooking(w, id)) == Rebooked(w, id)
    ensures ReadsOwnWrites(w, Rebooking(w, id)) <==> Fresh(w.lbs[id].log, 0)
  {
    var a1, a2, a3 := Start(id, 0), Allocate(id, "p", Version(w), Some(IP), [], NoFault), Crash(id);
    RunOne(w, a1);
    RebookBooks(w, Next(w, a1), id);
    Push(w, [a1], a2);
    Push(w, [a1] + [a2], a3);
    assert Next(SetPhase(Rebooked(w, id), id, Recording(0, Some(Address("p", IP)))), a3) == Rebooked(w, id);
  }

  /** x has booked and released the address and booked it again: versions 1, 2 and 3. */
  lemma TwiceBooked() returns (w: World, acts: seq<Action>)
    ensures w == RunAll(EMPTY, acts) && ReadsOwnWrites(EMPTY, acts)
    ensures Owner(w, "x") && w.lbs == map["x" := Lb([Asking("x")], Idle)]
    ensures |w.pools["p"]| == 4 && w.pools.Keys == {"p"}
    ensures Released(w.pools["p"][2]) && Confirmed(w.pools["p"][3])
  {
    var w1, acts1 := FirstLoss();
    RelapseRuns(w1, "x");
    RunConcat(EMPTY, acts1, Relapsing(w1, "x"));
    var acts2, w2 := acts1 + Relapsing(w1, "x"), w1.(pools := Vacated(w1));
    assert Released(Head(w2.pools["p"]));
    RebookRuns(w2, "x");
    RunConcat(EMPTY, acts2, Rebooking(w2, "x"));
    acts, w := acts2 + Rebooking(w2, "x"), Rebooked(w2, "x");
    assert (map[IP := "x"]) - {IP} == map[];
  }

  /** The pool remembers the address for x. */
  ghost predicate Released(p: Pool) {
    p.ranges == [RANGE] && p.status.booked == map[] && p.status.history == map[IP := "x"]
  }

  /** The pool books the address for x. */
  ghost predicate Confirmed(p: Pool) {
    p.ranges == [RANGE] && p.status.booked == map[IP := "x"] && p.status.history == map[]
  }

  /** x releases again, y takes and records the address, and x starts once more. */
  lemma SecondThoughts() returns (w: World, acts: seq<Action>)
    ensures w == RunAll(EMPTY, acts) && ReadsOwnWrites(EMPTY, acts)
    ensures "p" in w.pools && |w.pools["p"]| == 6
    ensures Released(w.pools["p"][2]) && Confirmed(w.pools["p"][3])
    ensures w.lbs == map["x" := Lb([Asking("x")], Reading(0)), "y" := Lb([Asking("y"), Recorded("y")], Idle)]
  {
    var w1, acts1 := TwiceBooked();
    RelapseRuns(w1, "x");
    RunConcat(EMPTY, acts1, Relapsing(w1, "x"));
    var acts2, w2 := acts1 + Relapsing(w1, "x"), w1.(pools := Vacated(w1));
    VacantForY(w1, w2);
    JoinRuns(w2, "y");
    RunConcat(EMPTY, acts2, Joining(w2, "y"));
    acts := acts2 + Joining(w2, "y");
    Push(EMPTY, acts, Start("x", 0));
    acts := acts + [Start("x", 0)];
    w := Next(Joined(w2, "y"), Start("x", 0));
    assert w == SetPhase(Joined(w2, "y"), "x", Reading(0));
  }

  /**
    If one call scanned one version and reserved against a later one, Reserve could confirm a booking
    that is gone by then: a run that reads its own writes, with one such call in which the cache only
    moves forward, as that of a restarted controller that is catching up, ends with two settled
    LoadBalancers on one address.
   */
  lemma TwoSnapshotsInOneCallCollide()
    ensures exists acts, scan, reserve :: ReadsOwnWrites(EMPTY, acts) && scan < reserve &&
              var w := RunAll(EMPTY, acts);
              && SplitEnabled(w, "x", "p", scan, reserve, IP)
              && SettledCollide(Next(SplitAllocate(w, "x", "p", scan, reserve, IP, NoFault), Record("x", NoFault)))
  {
    var w, acts := SecondThoughts();
    SplitGrants(w);
    SplitRecords(SplitAllocate(w, "x", "p", 2, 3, IP, NoFault));
    assert ReadsOwnWrites(EMPTY, acts) && RunAll(EMPTY, acts) == w;
  }

  /** Two settled LoadBalancers record one address. */
  ghost predicate SettledCollide(w: World) {
    Collide(w, "x", "y") && Settled(w.lbs["x"].log) && Settled(w.lbs["y"].log)
  }

  lemma SplitGrants(w: World)
    requires "p" in w.pools && |w.pools["p"]| == 6
    requires Released(w.pools["p"][2]) && Confirmed(w.pools["p"][3])
    requires w.lbs == map["x" := Lb([Asking("x")], Reading(0)), "y" := Lb([Asking("y"), Recorded("y")], Idle)]
    ensures SplitEnabled(w, "x", "p", 2, 3, IP)
    ensures SplitAllocate(w, "x", "p", 2, 3, IP, NoFault).lbs
            == w.lbs["x" := Lb([Asking("x")], Recording(0, Some(Address("p", IP))))]
  {
    SplitConfirms(w.pools["p"]);
  }

  lemma SplitRecords(w: World)
    requires w.lbs == map["x" := Lb([Asking("x")], Recording(0, Some(Address("p", IP)))),
                          "y" := Lb([Asking("y"), Recorded("y")], Idle)]
    ensures SettledCollide(Next(w, Record("x", NoFault)))
  {
    var w' := Next(w, Record("x", NoFault));
    assert [Asking("x")] + [Recorded("x")] == [Asking("x"), Recorded("x")];
    assert w'.lbs["x"] == Lb([Asking("x"), Recorded("x")], Idle) && w'.lbs["y"] == w.lbs["y"];
    SettledOnceRecorded("x");
    SettledOnceRecorded("y");
  }

  lemma SplitConfirms(log: Log)
    requires |log| == 6 && Released(log[2]) && Confirmed(log[3])
    ensures Scanned(log[2].status, "x", Some(IP)) && SplitDecision(log, "x", 3, IP) == Granted(IP)
  {
    assert [RANGE][0].Contains(IP);
  }
}

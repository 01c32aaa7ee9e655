/**
  Lost-write recovery: a pool books an address for a LoadBalancer whose status write was lost.
  One reconcile meets the duplicate error and releases the address, the next one finds it in the
  history and books it again.
 */
module Recovery {
  import opened Common
  import opened Ipv4
  import opened Ranges
  import opened PoolStore
  import opened Allocation
  import opened Booking

  /** What a pool says about who holds what, and how many addresses are left. */
  datatype Ledger = Ledger(booked: map<Addr, string>, available: int)

  function LedgerOf(s: Status): Ledger {
    Ledger(s.booked, s.available)
  }

  /** The effect of one successful pool write on the ledger. */
  datatype LedgerEdit = BookEdit(id: string, ip: Addr) | FreeEdit(ip: Addr) | RecountEdit(total: int)

  function Edited(l: Ledger, e: LedgerEdit): Ledger {
    match e
    case BookEdit(id, ip) => Ledger(l.booked[ip := id], l.available - 1)
    case FreeEdit(ip) => Ledger(l.booked - {ip}, l.available + 1)
    case RecountEdit(total) => Ledger(l.booked, total - |l.booked|)
  }

  function EditedAll(l: Ledger, es: seq<LedgerEdit>): Ledger {
    if |es| == 0 then l else Edited(EditedAll(l, es[..|es| - 1]), es[|es| - 1])
  }

  predicate Avoids(e: LedgerEdit, ip: Addr) {
    e.RecountEdit? || e.ip != ip
  }

  ghost predicate AllAvoid(es: seq<LedgerEdit>, ip: Addr) {
    forall i :: 0 <= i < |es| ==> Avoids(es[i], ip)
  }

  lemma UpdatesCommute(m: map<Addr, string>, a: Addr, x: string, b: Addr, y: string)
    requires a != b
    ensures m[a := x][b := y] == m[b := y][a := x]
    ensures (m - {a})[b := y] == m[b := y] - {a}
  {
  }

  lemma NewKeyCounts(m: map<Addr, string>, a: Addr, x: string)
    requires a !in m
    ensures |m[a := x]| == |m| + 1
  {
    assert m[a := x].Keys == m.Keys + {a};
  }

  lemma EditCommutes(m: Ledger, e: LedgerEdit, id: string, ip: Addr)
    requires Avoids(e, ip) && ip !in m.booked
    ensures ip !in Edited(m, e).booked
    ensures Edited(Edited(m, e), BookEdit(id, ip)) == Edited(Edited(m, BookEdit(id, ip)), e)
  {
    if e.RecountEdit? {
      NewKeyCounts(m.booked, ip, id);
    } else {
      UpdatesCommute(m.booked, e.ip, if e.BookEdit? then e.id else "", ip, id);
    }
  }

  /** Booking one address commutes with any edits of the others. */
  lemma {:induction false} BookingCommutes(l: Ledger, es: seq<LedgerEdit>, id: string, ip: Addr)
    requires AllAvoid(es, ip) && ip !in l.booked
    ensures ip !in EditedAll(l, es).booked
    ensures Edited(EditedAll(l, es), BookEdit(id, ip)) == EditedAll(Edited(l, BookEdit(id, ip)), es)
  {
    if |es| > 0 {
      var init, e := es[..|es| - 1], es[|es| - 1];
      BookingCommutes(l, init, id, ip);
      EditCommutes(EditedAll(l, init), e, id, ip);
    }
  }

  // ----- what the others may do in between -----

  predicate Mentions(a: Action, id: string) {
    match a
    case AddPool(_, _) => false
    case EditRanges(_, _) => false
    case Refresh(_, _, _, _) => false
    case ClearRequest(_, _, _) => false
    case _ => a.id == id
  }

  /** The pool books the address for the id (held), or remembers it as free. */
  ghost predicate KeepsIn(p: Pool, id: string, ip: Addr, held: bool) {
    && Requestable(p.ranges, ip)
    && if held then Holds(p.status, id, ip)
       else ip !in p.status.booked && ip in p.status.history && p.status.history[ip] == id
  }

  ghost predicate KeepsFor(w: World, pool: string, id: string, ip: Addr, held: bool) {
    pool in w.pools && KeepsIn(Head(w.pools[pool]), id, ip, held)
  }

  ghost predicate Unbooked(w: World, pool: string, ip: Addr) {
    pool in w.pools && ip !in Head(w.pools[pool]).status.booked
  }

  /**
    Anything by anybody else, as long as the pool keeps its ranges and, while the address is free,
    nobody books it.
   */
  ghost predicate Elsewhere(w: World, actions: seq<Action>, pool: string, id: string, ip: Addr, held: bool)
    decreases |actions|
  {
    |actions| > 0 ==>
      && !Mentions(actions[0], id)
      && !(actions[0].EditRanges? && actions[0].pool == pool)
      && (actions[0].Start? && actions[0].id in w.lbs ==> Fresh(w.lbs[actions[0].id].log, actions[0].read))
      && (held || Unbooked(Next(w, actions[0]), pool, ip))
      && Elsewhere(Next(w, actions[0]), actions[1..], pool, id, ip, held)
  }

  lemma FreeElsewhere(p: Pool, other: Addr, id: string, ip: Addr, held: bool)
    requires KeepsIn(p, id, ip, held) && other in p.status.booked && other != ip
    ensures KeepsIn(p.(status := Freed(p.status, other)), id, ip, held)
    ensures LedgerOf(Freed(p.status, other)) == Edited(LedgerOf(p.status), FreeEdit(other))
  {
  }

  lemma BookElsewhere(p: Pool, x: string, other: Addr, id: string, ip: Addr, held: bool)
    requires KeepsIn(p, id, ip, held) && other != ip
    ensures KeepsIn(p.(status := Booked(p.status, x, other)), id, ip, held)
    ensures LedgerOf(Booked(p.status, x, other)) == Edited(LedgerOf(p.status), BookEdit(x, other))
  {
  }

  lemma RecountElsewhere(p: Pool, total: int, id: string, ip: Addr, held: bool)
    requires KeepsIn(p, id, ip, held)
    ensures KeepsIn(Refreshed(p, total), id, ip, held)
    ensures LedgerOf(Refreshed(p, total).status) == Edited(LedgerOf(p.status), RecountEdit(total))
  {
    assert Covers(p.ranges, ip);
  }

  /** One log after one step, as seen from the kept address. */
  ghost predicate LogStep(log: Log, log': Log, e: Option<LedgerEdit>, id: string, ip: Addr, held: bool) {
    && KeepsIn(Head(log'), id, ip, held) && Head(log').ranges == Head(log).ranges
    && (e.Some? ==> Avoids(e.value, ip))
    && LedgerOf(Head(log').status)
       == (if e.Some? then Edited(LedgerOf(Head(log).status), e.value) else LedgerOf(Head(log).status))
  }

  // ----- what one action does to the ledger of a pool, read off the action -----

  /** A write computed from this version takes effect. */
  predicate Takes(log: Log, version: nat, fault: Fault) {
    version == |log| - 1 && fault != Dropped
  }

  function ReleaseEdit(log: Log, version: nat, pick: Option<Addr>, fault: Fault): Option<LedgerEdit> {
    if pick.Some? && Takes(log, version, fault) then Some(FreeEdit(pick.value)) else None
  }

  function GetEdit(log: Log, version: nat, x: string, d: GetDecision, fault: Fault): Option<LedgerEdit> {
    if d.Try? && Takes(log, version, fault) then Some(BookEdit(x, d.ip)) else None
  }

  /** The edit of an action: a release frees its pick, a get books its decision, a refresh recounts. */
  ghost function StepEdit(w: World, a: Action, pool: string): Option<LedgerEdit>
    requires pool in w.pools
  {
    var log := w.pools[pool];
    if !Enabled(w, a) then None
    else if Releases(a) then
      if ReleasedPool(w, a) == Some(pool) then ReleaseEdit(log, a.version, a.pick, a.fault) else None
    else if a.Allocate? then
      if a.pool == pool then GetEdit(log, a.version, a.id, DecideGet(log[a.version], a.id, a.pick, a.order), a.fault)
      else None
    else if a.Refresh? && a.pool == pool && Takes(log, a.version, a.fault) then Some(RecountEdit(a.total))
    else None
  }

  /** The edits a run makes to the ledger of a pool, in order. */
  ghost function EditsOf(w: World, actions: seq<Action>, pool: string): seq<LedgerEdit>
    decreases |actions|
  {
    if |actions| == 0 || pool !in w.pools then []
    else
      var e := StepEdit(w, actions[0], pool);
      (if e.Some? then [e.value] else []) + EditsOf(Next(w, actions[0]), actions[1..], pool)
  }

  lemma ReleaseIsEdit(log: Log, x: string, version: nat, pick: Option<Addr>, fault: Fault,
                      id: string, ip: Addr, held: bool)
    requires version < |log| && x != id && (pick.Some? ==> Holds(log[version].status, x, pick.value))
    requires KeepsIn(Head(log), id, ip, held)
    ensures LogStep(log, ReleaseWrite(log, version, pick, fault), ReleaseEdit(log, version, pick, fault), id, ip, held)
  {
    if pick.Some? && Takes(log, version, fault) {
      FreeElsewhere(Head(log), pick.value, id, ip, held);
    }
  }

  lemma GetIsEdit(log: Log, x: string, version: nat, pick: Option<Addr>, order: seq<Addr>, fault: Fault,
                  id: string, ip: Addr, held: bool)
    requires AllGood(log) && version < |log|
    requires Scanned(log[version].status, x, pick) && Candidates(log[version].ranges, order)
    requires KeepsIn(Head(log), id, ip, held)
    requires held || ip !in Head(GetWrite(log, version, DecideGet(log[version], x, pick, order), fault)).status.booked
    ensures var d := DecideGet(log[version], x, pick, order);
            LogStep(log, GetWrite(log, version, d, fault), GetEdit(log, version, x, d, fault), id, ip, held)
  {
    var d := DecideGet(log[version], x, pick, order);
    assert GoodPool(log[version]);
    if d.Try? {
      TryKeepsGood(log[version], x, pick, order);
    }
    DecisionIsEdit(log, d, x, version, fault, id, ip, held);
  }

  lemma DecisionIsEdit(log: Log, d: GetDecision, x: string, version: nat, fault: Fault,
                       id: string, ip: Addr, held: bool)
    requires version < |log| && KeepsIn(Head(log), id, ip, held)
    requires d.Try? ==>
               && d.ip !in log[version].status.booked
               && d.copy == log[version].(status := Booked(log[version].status, x, d.ip))
    requires held || ip !in Head(GetWrite(log, version, d, fault)).status.booked
    ensures LogStep(log, GetWrite(log, version, d, fault), GetEdit(log, version, x, d, fault), id, ip, held)
  {
    if d.Try? && Takes(log, version, fault) {
      BookIsEdit(log, x, d.ip, d.copy, id, ip, held);
    }
  }

  lemma BookIsEdit(log: Log, x: string, other: Addr, copy: Pool, id: string, ip: Addr, held: bool)
    requires KeepsIn(Head(log), id, ip, held) && other !in Head(log).status.booked
    requires copy == Head(log).(status := Booked(Head(log).status, x, other))
    requires held || ip !in copy.status.booked
    ensures LogStep(log, log + [copy], Some(BookEdit(x, other)), id, ip, held)
  {
    BookElsewhere(Head(log), x, other, id, ip, held);
  }

  predicate Releases(a: Action) {
    a.ReleaseOld? || a.ReleaseDuplicate? || a.ReleaseStray? || a.Remove?
  }

  /** The pool a releasing action writes to. */
  ghost function ReleasedPool(w: World, a: Action): Option<string>
    requires Enabled(w, a) && Releases(a)
  {
    match a
    case ReleaseOld(x, _, _, _) => Some(w.lbs[x].log[w.lbs[x].phase.read].status.value.pool)
    case Remove(x, _, _, _, _) =>
      var o := Last(w.lbs[x].log);
      if o.pooled && o.status.Some? then Some(o.status.value.pool) else None
    case _ => Some(a.pool)
  }

  lemma ReleaseActionWrites(w: World, a: Action, pool: string)
    requires Enabled(w, a) && pool in w.pools && Releases(a)
    ensures var log := w.pools[pool];
            && pool in Next(w, a).pools
            && (ReleasedPool(w, a) != Some(pool) ==> Next(w, a).pools[pool] == log)
            && (ReleasedPool(w, a) == Some(pool) ==>
                  && a.version < |log| && (a.pick.Some? ==> Holds(log[a.version].status, a.id, a.pick.value))
                  && Next(w, a).pools[pool] == ReleaseWrite(log, a.version, a.pick, a.fault))
  {
  }

  lemma PoolActionIsEdit(w: World, a: Action, pool: string, id: string, ip: Addr, held: bool)
    requires Enabled(w, a) && KeepsFor(w, pool, id, ip, held)
    requires a.AddPool? || (a.EditRanges? && a.pool != pool) || a.Refresh? || a.ClearRequest?
    ensures LogStep(w.pools[pool], Next(w, a).pools[pool], StepEdit(w, a, pool), id, ip, held)
  {
    if a.Refresh? && a.pool == pool {
      RefreshIsEdit(w.pools[pool], a.version, a.total, a.fault, id, ip, held);
    }
  }

  lemma RefreshIsEdit(log: Log, version: nat, total: int, fault: Fault, id: string, ip: Addr, held: bool)
    requires version < |log| && KeepsIn(Head(log), id, ip, held)
    ensures LogStep(log, Write(log, version, Refreshed(log[version], total), fault),
                    if Takes(log, version, fault) then Some(RecountEdit(total)) else None, id, ip, held)
  {
    RecountElsewhere(Head(log), total, id, ip, held);
  }

  /** The one write, if any, that an action of somebody else makes to a pool. */
  lemma StepIsEdit(w: World, a: Action, pool: string, id: string, ip: Addr, held: bool)
    requires PoolsOk(w.pools) && KeepsFor(w, pool, id, ip, held) && !Mentions(a, id)
    requires !(a.EditRanges? && a.pool == pool)
    requires held || Unbooked(Next(w, a), pool, ip)
    ensures pool in Next(w, a).pools
    ensures LogStep(w.pools[pool], Next(w, a).pools[pool], StepEdit(w, a, pool), id, ip, held)
  {
    if Enabled(w, a) {
      if Releases(a) {
        ReleaseActionWrites(w, a, pool);
        if ReleasedPool(w, a) == Some(pool) {
          ReleaseIsEdit(w.pools[pool], a.id, a.version, a.pick, a.fault, id, ip, held);
        }
      } else if a.Allocate? {
        if a.pool == pool {
          assert AllGood(w.pools[pool]);
          GetIsEdit(w.pools[pool], a.id, a.version, a.pick, a.order, a.fault, id, ip, held);
        }
      } else if a.AddPool? || a.EditRanges? || a.Refresh? || a.ClearRequest? {
        PoolActionIsEdit(w, a, pool, id, ip, held);
      }
    }
  }

  lemma OtherLbsUntouched(w: World, a: Action, id: string)
    requires !Mentions(a, id) && id in w.lbs
    ensures id in Next(w, a).lbs && Next(w, a).lbs[id] == w.lbs[id]
  {
  }

  /** A gap: the others' run keeps the address and the LoadBalancer, and edits the ledger elsewhere. */
  ghost predicate Gap(w: World, w': World, pool: string, id: string, ip: Addr, held: bool, es: seq<LedgerEdit>) {
    && Inv(w') && KeepsFor(w, pool, id, ip, held) && KeepsFor(w', pool, id, ip, held)
    && Head(w'.pools[pool]).ranges == Head(w.pools[pool]).ranges
    && id in w.lbs && id in w'.lbs && w'.lbs[id] == w.lbs[id]
    && AllAvoid(es, ip)
    && LedgerAt(w', pool) == EditedAll(LedgerAt(w, pool), es)
  }

  function LedgerAt(w: World, pool: string): Ledger
    requires pool in w.pools
  {
    LedgerOf(Head(w.pools[pool]).status)
  }

  /** Whatever the others run, the ledger changes by the edits of their actions and by nothing else. */
  lemma {:induction false} RunIsEdits(w: World, actions: seq<Action>, pool: string, id: string, ip: Addr, held: bool)
    requires Inv(w) && id in w.lbs && KeepsFor(w, pool, id, ip, held) && Elsewhere(w, actions, pool, id, ip, held)
    ensures Gap(w, RunAll(w, actions), pool, id, ip, held, EditsOf(w, actions, pool))
    decreases |actions|
  {
    if |actions| > 0 {
      var w1, e := Next(w, actions[0]), StepEdit(w, actions[0], pool);
      StepIsEdit(w, actions[0], pool, id, ip, held);
      NextKeeps(w, actions[0]);
      OtherLbsUntouched(w, actions[0], id);
      RunIsEdits(w1, actions[1..], pool, id, ip, held);
      OneMoreEdit(LedgerAt(w, pool), e, EditsOf(w1, actions[1..], pool), ip);
    }
  }

  lemma OneMoreEdit(l: Ledger, e: Option<LedgerEdit>, rest: seq<LedgerEdit>, ip: Addr)
    requires AllAvoid(rest, ip) && (e.Some? ==> Avoids(e.value, ip))
    ensures var es := (if e.Some? then [e.value] else []) + rest;
            && AllAvoid(es, ip)
            && EditedAll(l, es) == EditedAll(if e.Some? then Edited(l, e.value) else l, rest)
  {
    if e.Some? {
      EditFirst(l, e.value, rest);
    } else {
      assert [] + rest == rest;
    }
  }

  lemma {:induction false} EditFirst(l: Ledger, e: LedgerEdit, es: seq<LedgerEdit>)
    ensures EditedAll(Edited(l, e), es) == EditedAll(l, [e] + es)
  {
    if |es| == 0 {
      assert ([e] + es)[..0] == [];
    } else {
      EditFirst(l, e, es[..|es| - 1]);
      assert ([e] + es)[..|es|] == [e] + es[..|es| - 1];
    }
  }

  lemma {:induction false} EditsConcat(l: Ledger, es: seq<LedgerEdit>, fs: seq<LedgerEdit>)
    ensures EditedAll(EditedAll(l, es), fs) == EditedAll(l, es + fs)
  {
    if |fs| == 0 {
      assert es + fs == es;
    } else {
      EditsConcat(l, es, fs[..|fs| - 1]);
      assert (es + fs)[..|es + fs| - 1] == es + fs[..|fs| - 1];
    }
  }

  // ----- the reconciler's own steps, each on the newest versions of its time -----

  /** The LoadBalancer is idle, live, records nothing, and uses this pool. */
  ghost predicate Waiting(w: World, id: string, pool: string) {
    id in w.lbs && Unrecorded(w.lbs[id].log, pool) && w.lbs[id].phase.Idle?
  }

  predicate Unrecorded(log: LbLog, pool: string) {
    Last(log).status.None? && !Last(log).deleting && PoolFor(Last(log), pool)
  }

  function LastIndex<T>(s: seq<T>): nat
    requires |s| > 0
  {
    |s| - 1
  }

  ghost function StartNow(w: World, id: string): World
    requires id in w.lbs
  {
    Next(w, Start(id, LastIndex(w.lbs[id].log)))
  }

  ghost function AllocateNow(w: World, id: string, pool: string, pick: Option<Addr>, order: seq<Addr>): World
    requires pool in w.pools
  {
    Next(w, Allocate(id, pool, LastIndex(w.pools[pool]), pick, order, NoFault))
  }

  ghost function ReleaseNow(w: World, id: string, pool: string, ip: Addr): World
    requires pool in w.pools
  {
    Next(w, ReleaseDuplicate(id, pool, LastIndex(w.pools[pool]), Some(ip), NoFault))
  }

  /** A holder on a good pool is not in the history. */
  lemma HolderNotRemembered(p: Pool, id: string, ip: Addr)
    requires GoodPool(p) && Holds(p.status, id, ip)
    ensures Scanned(p.status, id, None)
  {
    assert Occurs(p.status, id, ip);
    assert forall k :: k in p.status.history && p.status.history[k] == id ==> Occurs(p.status, id, k);
  }

  lemma StartStep(w: World, id: string, pool: string)
    requires Inv(w) && Waiting(w, id, pool)
    ensures StartNow(w, id) == SetPhase(w, id, Reading(LastIndex(w.lbs[id].log))) && Inv(StartNow(w, id))
  {
    NextKeeps(w, Start(id, LastIndex(w.lbs[id].log)));
  }

  /** The id is at this point of a reconcile that works on the newest, unrecorded version. */
  ghost predicate At(w: World, id: string, pool: string, phase: Phase) {
    id in w.lbs && Unrecorded(w.lbs[id].log, pool) && w.lbs[id].phase == phase && pool in w.pools
  }

  lemma DuplicateEffect(w: World, id: string, pool: string, ip: Addr, order: seq<Addr>, read: nat)
    requires At(w, id, pool, Reading(read)) && read == LastIndex(w.lbs[id].log)
    requires Holds(Head(w.pools[pool]).status, id, ip) && Covers(Head(w.pools[pool]).ranges, ip)
    requires Scanned(Head(w.pools[pool]).status, id, None) && Candidates(Head(w.pools[pool]).ranges, order)
    ensures AllocateNow(w, id, pool, None, order) == SetPhase(w, id, Releasing(read))
  {
    assert HoldsInRange(Head(w.pools[pool]), id);
    assert w.pools[pool := w.pools[pool]] == w.pools;
  }

  /** The allocator finds the booking: the duplicate error. */
  lemma DuplicateStep(w: World, id: string, pool: string, ip: Addr, order: seq<Addr>, read: nat)
    requires Inv(w) && KeepsFor(w, pool, id, ip, true)
    requires At(w, id, pool, Reading(read)) && read == LastIndex(w.lbs[id].log)
    requires Candidates(Head(w.pools[pool]).ranges, order)
    ensures AllocateNow(w, id, pool, None, order) == SetPhase(w, id, Releasing(read))
    ensures Inv(AllocateNow(w, id, pool, None, order))
  {
    NextKeeps(w, Allocate(id, pool, LastIndex(w.pools[pool]), None, order, NoFault));
    assert AllGood(w.pools[pool]);
    assert GoodPool(Head(w.pools[pool]));
    HolderNotRemembered(Head(w.pools[pool]), id, ip);
    DuplicateEffect(w, id, pool, ip, order, read);
  }

  lemma ReleaseEffect(w: World, id: string, pool: string, ip: Addr, read: nat)
    requires At(w, id, pool, Releasing(read)) && read == LastIndex(w.lbs[id].log)
    requires Holds(Head(w.pools[pool]).status, id, ip)
    ensures var p := Head(w.pools[pool]);
            ReleaseNow(w, id, pool, ip)
            == World(w.pools[pool := w.pools[pool] + [p.(status := Freed(p.status, ip))]],
                     w.lbs[id := Lb(w.lbs[id].log, Idle)])
  {
  }

  /** The release moves the address from the bookings to the history. */
  lemma ReleaseStep(w: World, id: string, pool: string, ip: Addr, read: nat)
    requires Inv(w) && KeepsFor(w, pool, id, ip, true)
    requires At(w, id, pool, Releasing(read)) && read == LastIndex(w.lbs[id].log)
    ensures var w', p := ReleaseNow(w, id, pool, ip), Head(w.pools[pool]);
            && Inv(w') && KeepsFor(w', pool, id, ip, false) && Waiting(w', id, pool)
            && Head(w'.pools[pool]) == p.(status := Freed(p.status, ip))
  {
    NextKeeps(w, ReleaseDuplicate(id, pool, LastIndex(w.pools[pool]), Some(ip), NoFault));
    ReleaseEffect(w, id, pool, ip, read);
  }

  lemma RebookEffect(w: World, id: string, pool: string, ip: Addr, order: seq<Addr>, read: nat)
    requires KeepsFor(w, pool, id, ip, false)
    requires At(w, id, pool, Reading(read)) && read == LastIndex(w.lbs[id].log)
    requires Candidates(Head(w.pools[pool]).ranges, order)
    ensures var p := Head(w.pools[pool]);
            AllocateNow(w, id, pool, Some(ip), order)
            == World(w.pools[pool := w.pools[pool] + [p.(status := Booked(p.status, id, ip))]],
                     w.lbs[id := Lb(w.lbs[id].log, Recording(read, Some(Address(pool, ip))))])
  {
    var p := Head(w.pools[pool]);
    assert DecideGet(p, id, Some(ip), order) == Try(ip, p.(status := Booked(p.status, id, ip)));
  }

  /** The remembered address is booked again. */
  lemma RebookStep(w: World, id: string, pool: string, ip: Addr, order: seq<Addr>, read: nat)
    requires Inv(w) && KeepsFor(w, pool, id, ip, false)
    requires At(w, id, pool, Reading(read)) && read == LastIndex(w.lbs[id].log)
    requires Candidates(Head(w.pools[pool]).ranges, order)
    ensures var w', p := AllocateNow(w, id, pool, Some(ip), order), Head(w.pools[pool]);
            && Inv(w') && KeepsFor(w', pool, id, ip, true)
            && At(w', id, pool, Recording(read, Some(Address(pool, ip)))) && w'.lbs[id].log == w.lbs[id].log
            && Head(w'.pools[pool]) == p.(status := Booked(p.status, id, ip))
  {
    NextKeeps(w, Allocate(id, pool, LastIndex(w.pools[pool]), Some(ip), order, NoFault));
    RebookEffect(w, id, pool, ip, order, read);
  }

  lemma RecordStep(w: World, id: string, pool: string, ip: Addr, read: nat)
    requires Inv(w) && At(w, id, pool, Recording(read, Some(Address(pool, ip)))) && read == LastIndex(w.lbs[id].log)
    ensures var w' := Next(w, Record(id, NoFault));
            && Inv(w') && w'.pools == w.pools
            && id in w'.lbs && Last(w'.lbs[id].log).status == Some(Address(pool, ip))
  {
    NextKeeps(w, Record(id, NoFault));
  }

  // ----- the two reconciles, with the others between any two steps -----

  /**
    The first reconcile: the duplicate error, then the release. Whatever the others do between its
    three steps, the address moves from the bookings to the history, and the rest of the ledger
    changes by the others' edits only.
   */
  lemma FirstReconcileReleases(w0: World, id: string, pool: string, ip: Addr, order: seq<Addr>,
                               o1: seq<Action>, w1: World, o2: seq<Action>, w2: World)
    requires Inv(w0) && Waiting(w0, id, pool) && KeepsFor(w0, pool, id, ip, true)
    requires Candidates(Head(w0.pools[pool]).ranges, order)
    requires Elsewhere(StartNow(w0, id), o1, pool, id, ip, true)
    requires w1 == RunAll(StartNow(w0, id), o1) && pool in w1.pools
    requires Elsewhere(AllocateNow(w1, id, pool, None, order), o2, pool, id, ip, true)
    requires w2 == RunAll(AllocateNow(w1, id, pool, None, order), o2) && pool in w2.pools
    ensures var es := EditsOf(StartNow(w0, id), o1, pool) + EditsOf(AllocateNow(w1, id, pool, None, order), o2, pool);
            AllAvoid(es, ip) && LedgerAt(w2, pool) == EditedAll(LedgerAt(w0, pool), es)
    ensures Holds(Head(w2.pools[pool]).status, id, ip)
    ensures var w' := ReleaseNow(w2, id, pool, ip);
            && Inv(w') && KeepsFor(w', pool, id, ip, false) && Waiting(w', id, pool)
            && Head(w'.pools[pool]).ranges == Head(w0.pools[pool]).ranges
            && Head(w'.pools[pool]).status == Freed(Head(w2.pools[pool]).status, ip)
  {
    var read := LastIndex(w0.lbs[id].log);
    StartStep(w0, id, pool);
    RunIsEdits(StartNow(w0, id), o1, pool, id, ip, true);
    DuplicateStep(w1, id, pool, ip, order, read);
    RunIsEdits(AllocateNow(w1, id, pool, None, order), o2, pool, id, ip, true);
    ReleaseStep(w2, id, pool, ip, read);
    EditsConcat(LedgerAt(w0, pool), EditsOf(StartNow(w0, id), o1, pool),
                EditsOf(AllocateNow(w1, id, pool, None, order), o2, pool));
  }

  lemma ReleasedAndFree(w0: World, id: string, pool: string, ip: Addr, order: seq<Addr>, o1: seq<Action>, w1: World,
                        o2: seq<Action>, w2: World, o3: seq<Action>, w3: World,
                        before: seq<LedgerEdit>, gap: seq<LedgerEdit>)
    requires Inv(w0) && Waiting(w0, id, pool) && KeepsFor(w0, pool, id, ip, true)
    requires Candidates(Head(w0.pools[pool]).ranges, order)
    requires Elsewhere(StartNow(w0, id), o1, pool, id, ip, true)
    requires w1 == RunAll(StartNow(w0, id), o1) && pool in w1.pools
    requires Elsewhere(AllocateNow(w1, id, pool, None, order), o2, pool, id, ip, true)
    requires w2 == RunAll(AllocateNow(w1, id, pool, None, order), o2) && pool in w2.pools
    requires Elsewhere(ReleaseNow(w2, id, pool, ip), o3, pool, id, ip, false)
    requires w3 == RunAll(ReleaseNow(w2, id, pool, ip), o3)
    requires before == EditsOf(StartNow(w0, id), o1, pool) + EditsOf(AllocateNow(w1, id, pool, None, order), o2, pool)
    requires gap == EditsOf(ReleaseNow(w2, id, pool, ip), o3, pool)
    ensures AllAvoid(before, ip) && LedgerAt(w2, pool) == EditedAll(LedgerAt(w0, pool), before)
    ensures Holds(Head(w2.pools[pool]).status, id, ip)
    ensures Inv(w3) && KeepsFor(w3, pool, id, ip, false) && Waiting(w3, id, pool)
    ensures Head(w3.pools[pool]).ranges == Head(w0.pools[pool]).ranges
    ensures AllAvoid(gap, ip) && LedgerAt(w3, pool) == EditedAll(LedgerOf(Freed(Head(w2.pools[pool]).status, ip)), gap)
  {
    FirstReconcileReleases(w0, id, pool, ip, order, o1, w1, o2, w2);
    RunIsEdits(ReleaseNow(w2, id, pool, ip), o3, pool, id, ip, false);
  }

  lemma BooksAgain(w3: World, id: string, pool: string, ip: Addr, order: seq<Addr>, o4: seq<Action>, w4: World)
    requires Inv(w3) && Waiting(w3, id, pool) && KeepsFor(w3, pool, id, ip, false)
    requires Candidates(Head(w3.pools[pool]).ranges, order)
    requires Elsewhere(StartNow(w3, id), o4, pool, id, ip, false)
    requires w4 == RunAll(StartNow(w3, id), o4) && pool in w4.pools
    ensures var between := EditsOf(StartNow(w3, id), o4, pool);
            AllAvoid(between, ip) && LedgerAt(w4, pool) == EditedAll(LedgerAt(w3, pool), between)
    ensures var w', read := AllocateNow(w4, id, pool, Some(ip), order), LastIndex(w3.lbs[id].log);
            && Inv(w') && KeepsFor(w', pool, id, ip, true)
            && At(w', id, pool, Recording(read, Some(Address(pool, ip)))) && read == LastIndex(w'.lbs[id].log)
            && LedgerAt(w', pool) == Edited(LedgerAt(w4, pool), BookEdit(id, ip))
  {
    StartStep(w3, id, pool);
    RunIsEdits(StartNow(w3, id), o4, pool, id, ip, false);
    RebookStep(w4, id, pool, ip, order, LastIndex(w3.lbs[id].log));
  }

  lemma RecordsAtLast(w: World, id: string, pool: string, ip: Addr, read: nat, o5: seq<Action>, w5: World)
    requires Inv(w) && KeepsFor(w, pool, id, ip, true)
    requires At(w, id, pool, Recording(read, Some(Address(pool, ip)))) && read == LastIndex(w.lbs[id].log)
    requires Elsewhere(w, o5, pool, id, ip, true) && w5 == RunAll(w, o5)
    ensures var after := EditsOf(w, o5, pool);
            && AllAvoid(after, ip) && pool in w5.pools
            && LedgerAt(w5, pool) == EditedAll(LedgerAt(w, pool), after)
    ensures var w6 := Next(w5, Record(id, NoFault));
            && Inv(w6) && w6.pools == w5.pools && Owns(w6.pools, id, Address(pool, ip))
            && id in w6.lbs && Last(w6.lbs[id].log).status == Some(Address(pool, ip))
  {
    RunIsEdits(w, o5, pool, id, ip, true);
    RecordStep(w5, id, pool, ip, read);
  }

  /** The second reconcile books the remembered address and records it, whatever the others do meanwhile. */
  lemma SecondReconcileRecords(w3: World, id: string, pool: string, ip: Addr, order: seq<Addr>,
                               o4: seq<Action>, w4: World, o5: seq<Action>, w5: World,
                               between: seq<LedgerEdit>, after: seq<LedgerEdit>)
    requires Inv(w3) && Waiting(w3, id, pool) && KeepsFor(w3, pool, id, ip, false)
    requires Candidates(Head(w3.pools[pool]).ranges, order)
    requires Elsewhere(StartNow(w3, id), o4, pool, id, ip, false)
    requires w4 == RunAll(StartNow(w3, id), o4) && pool in w4.pools
    requires Elsewhere(AllocateNow(w4, id, pool, Some(ip), order), o5, pool, id, ip, true)
    requires w5 == RunAll(AllocateNow(w4, id, pool, Some(ip), order), o5)
    requires between == EditsOf(StartNow(w3, id), o4, pool)
    requires after == EditsOf(AllocateNow(w4, id, pool, Some(ip), order), o5, pool)
    ensures AllAvoid(between, ip) && AllAvoid(after, ip) && pool in w5.pools
    ensures LedgerAt(w4, pool) == EditedAll(LedgerAt(w3, pool), between)
    ensures LedgerAt(w5, pool) == EditedAll(Edited(LedgerAt(w4, pool), BookEdit(id, ip)), after)
    ensures var w6 := Next(w5, Record(id, NoFault));
            && Inv(w6) && w6.pools == w5.pools && Owns(w6.pools, id, Address(pool, ip))
            && id in w6.lbs && Last(w6.lbs[id].log).status == Some(Address(pool, ip))
  {
    BooksAgain(w3, id, pool, ip, order, o4, w4);
    RecordsAtLast(AllocateNow(w4, id, pool, Some(ip), order), id, pool, ip, LastIndex(w3.lbs[id].log), o5, w5);
  }

  /** Freeing, editing elsewhere and booking again is editing elsewhere. */
  lemma RecoveredLedger(l: Ledger, before: seq<LedgerEdit>, s: Status, gap: seq<LedgerEdit>, l3: Ledger,
                        between: seq<LedgerEdit>, l4: Ledger, after: seq<LedgerEdit>, l5: Ledger, id: string, ip: Addr)
    requires AllAvoid(before, ip) && AllAvoid(gap, ip) && AllAvoid(between, ip) && AllAvoid(after, ip)
    requires Holds(s, id, ip) && LedgerOf(s) == EditedAll(l, before)
    requires l3 == EditedAll(LedgerOf(Freed(s, ip)), gap) && l4 == EditedAll(l3, between)
    requires l5 == EditedAll(Edited(l4, BookEdit(id, ip)), after)
    ensures l5 == EditedAll(l, before + (gap + between) + after)
  {
    FreedThenBooked(s, id, ip);
    EditsConcat(LedgerOf(Freed(s, ip)), gap, between);
    BookingCommutes(LedgerOf(Freed(s, ip)), gap + between, id, ip);
    EditsConcat(l, before, gap + between);
    EditsConcat(l, before + (gap + between), after);
  }

  /**
    Recovery: two reconciles whose six steps each read the newest versions of their time, with any
    run of the others in each of the five gaps, end with the LoadBalancer recording the very address
    the pool had booked for it. Bookings and Available are exactly what the edits of the others'
    actions, in their order, make of the ledger at the start: the recovery itself leaves no trace.
   */
  lemma LostWriteIsRecovered(w0: World, id: string, pool: string, ip: Addr, order: seq<Addr>, order': seq<Addr>,
                             o1: seq<Action>, w1: World, o2: seq<Action>, w2: World,
                             o3: seq<Action>, w3: World, o4: seq<Action>, w4: World, o5: seq<Action>, w5: World)
    requires Inv(w0) && Waiting(w0, id, pool) && KeepsFor(w0, pool, id, ip, true)
    requires Candidates(Head(w0.pools[pool]).ranges, order) && Candidates(Head(w0.pools[pool]).ranges, order')
    requires Elsewhere(StartNow(w0, id), o1, pool, id, ip, true)
    requires w1 == RunAll(StartNow(w0, id), o1) && pool in w1.pools
    requires Elsewhere(AllocateNow(w1, id, pool, None, order), o2, pool, id, ip, true)
    requires w2 == RunAll(AllocateNow(w1, id, pool, None, order), o2) && pool in w2.pools
    requires Elsewhere(ReleaseNow(w2, id, pool, ip), o3, pool, id, ip, false)
    requires w3 == RunAll(ReleaseNow(w2, id, pool, ip), o3) && id in w3.lbs
    requires Elsewhere(StartNow(w3, id), o4, pool, id, ip, false)
    requires w4 == RunAll(StartNow(w3, id), o4) && pool in w4.pools
    requires Elsewhere(AllocateNow(w4, id, pool, Some(ip), order'), o5, pool, id, ip, true)
    requires w5 == RunAll(AllocateNow(w4, id, pool, Some(ip), order'), o5)
    ensures var w6 := Next(w5, Record(id, NoFault));
            var before := EditsOf(StartNow(w0, id), o1, pool)
                          + EditsOf(AllocateNow(w1, id, pool, None, order), o2, pool);
            var between := EditsOf(ReleaseNow(w2, id, pool, ip), o3, pool) + EditsOf(StartNow(w3, id), o4, pool);
            var after := EditsOf(AllocateNow(w4, id, pool, Some(ip), order'), o5, pool);
            && Inv(w6) && Owns(w6.pools, id, Address(pool, ip))
            && id in w6.lbs && Last(w6.lbs[id].log).status == Some(Address(pool, ip))
            && LedgerAt(w6, pool) == EditedAll(LedgerAt(w0, pool), before + between + after)
  {
    var before := EditsOf(StartNow(w0, id), o1, pool) + EditsOf(AllocateNow(w1, id, pool, None, order), o2, pool);
    var gap, between := EditsOf(ReleaseNow(w2, id, pool, ip), o3, pool), EditsOf(StartNow(w3, id), o4, pool);
    var after := EditsOf(AllocateNow(w4, id, pool, Some(ip), order'), o5, pool);
    ReleasedAndFree(w0, id, pool, ip, order, o1, w1, o2, w2, o3, w3, before, gap);
    SecondReconcileRecords(w3, id, pool, ip, order', o4, w4, o5, w5, between, after);
    RecoveredLedger(LedgerAt(w0, pool), before, Head(w2.pools[pool]).status, gap, LedgerAt(w3, pool),
                    between, LedgerAt(w4, pool), after, LedgerAt(w5, pool), id, ip);
  }

  /** With nobody else writing in between, the bookings and the counter end exactly as they began. */
  lemma RecoveryAloneChangesNothing(w0: World, id: string, pool: string, ip: Addr, order: seq<Addr>, order': seq<Addr>,
                                    w2: World, w3: World, w5: World)
    requires Inv(w0) && Waiting(w0, id, pool) && KeepsFor(w0, pool, id, ip, true)
    requires Candidates(Head(w0.pools[pool]).ranges, order) && Candidates(Head(w0.pools[pool]).ranges, order')
    requires pool in StartNow(w0, id).pools && w2 == AllocateNow(StartNow(w0, id), id, pool, None, order)
    requires pool in w2.pools && w3 == ReleaseNow(w2, id, pool, ip) && id in w3.lbs
    requires pool in StartNow(w3, id).pools && w5 == AllocateNow(StartNow(w3, id), id, pool, Some(ip), order')
    ensures var w6 := Next(w5, Record(id, NoFault));
            && id in w6.lbs && Last(w6.lbs[id].log).status == Some(Address(pool, ip))
            && pool in w6.pools && LedgerAt(w6, pool) == LedgerAt(w0, pool)
  {
    var read := LastIndex(w0.lbs[id].log);
    StartStep(w0, id, pool);
    DuplicateStep(StartNow(w0, id), id, pool, ip, order, read);
    ReleaseStep(w2, id, pool, ip, read);
    BooksAlone(w3, id, pool, ip, order', w5);
    FreedThenBooked(Head(w0.pools[pool]).status, id, ip);
  }

  lemma BooksAlone(w3: World, id: string, pool: string, ip: Addr, order: seq<Addr>, w5: World)
    requires Inv(w3) && Waiting(w3, id, pool) && KeepsFor(w3, pool, id, ip, false)
    requires Candidates(Head(w3.pools[pool]).ranges, order)
    requires pool in StartNow(w3, id).pools && w5 == AllocateNow(StartNow(w3, id), id, pool, Some(ip), order)
    ensures var w6 := Next(w5, Record(id, NoFault));
            && id in w6.lbs && Last(w6.lbs[id].log).status == Some(Address(pool, ip))
            && pool in w6.pools && LedgerAt(w6, pool) == Edited(LedgerAt(w3, pool), BookEdit(id, ip))
  {
    var read := LastIndex(w3.lbs[id].log);
    StartStep(w3, id, pool);
    RebookStep(StartNow(w3, id), id, pool, ip, order, read);
    RecordStep(w5, id, pool, ip, read);
  }

  lemma FreedThenBooked(s: Status, id: string, ip: Addr)
    requires Holds(s, id, ip)
    ensures ip !in Freed(s, ip).booked
    ensures Edited(LedgerOf(Freed(s, ip)), BookEdit(id, ip)) == LedgerOf(s)
  {
    assert (s.booked - {ip})[ip := id] == s.booked;
  }
}

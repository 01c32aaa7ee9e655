/**
  The worker table of pkg/prober/manager.go and the diff of pkg/lb/servicelb/manager.go that brings
  the workers of one LoadBalancer to a target. Here one operation runs at a time; module
  ProbeConcurrency interleaves them.
 */
module ProbeManager {
  import opened ProbeWorker

  /** A worker in the table; ids are never reused, so an equal id means the same goroutine. */
  datatype Running = Running(id: nat, option: HealthOption)

  type WorkerMap = map<string, Running>

  function WorkersOf(workers: map<string, WorkerMap>, uid: string): WorkerMap {
    if uid in workers then workers[uid] else map[]
  }

  /** Workers are filed under the address they probe, as every caller of AddWorker does. */
  ghost predicate Filed(wm: WorkerMap) {
    forall a :: a in wm ==> wm[a].option.address == a
  }

  function OptionsOf(wm: WorkerMap): map<string, HealthOption> {
    map a | a in wm :: wm[a].option
  }

  predicate Shows(w: Running, address: string, option: HealthOption) {
    w.option == option && option.address == address
  }

  class Manager {
    var workers: map<string, WorkerMap>
    var nextId: nat
    var stopped: set<nat>  // ids of the workers whose stop has returned

    constructor ()
      ensures workers == map[] && stopped == {}
    {
      workers, nextId, stopped := map[], 0, {};
    }

    /** The options by the address each worker probes; among workers of one address any may win. */
    method GetWorkerHealthOptionMap(uid: string) returns (prob: map<string, HealthOption>)
      ensures Filed(WorkersOf(workers, uid)) ==> prob == OptionsOf(WorkersOf(workers, uid))
      ensures var wm := WorkersOf(workers, uid);
              forall a :: a in prob ==> exists k :: k in wm && Shows(wm[k], a, prob[a])
      ensures forall k :: k in WorkersOf(workers, uid) ==> WorkersOf(workers, uid)[k].option.address in prob
    {
      prob := map[];
      if uid in workers {
        var wm := workers[uid];
        var todo := wm.Keys;
        while todo != {}
          invariant todo <= wm.Keys
          invariant forall a :: a in prob ==> exists k :: k in wm && Shows(wm[k], a, prob[a])
          invariant forall k :: k in wm && k !in todo ==> wm[k].option.address in prob
          invariant Filed(wm) ==> prob == map a | a in wm && a !in todo :: wm[a].option
        {
          var a :| a in todo;
          assert Shows(wm[a], wm[a].option.address, wm[a].option);
          prob := prob[wm[a].option.address := wm[a].option];
          todo := todo - {a};
        }
      }
    }

    method AddWorker(uid: string, address: string, option: HealthOption)
      modifies this
      ensures nextId == old(nextId) + 1
      ensures workers == old(workers)[uid := WorkersOf(old(workers), uid)[address := Running(old(nextId), option)]]
      ensures stopped == old(stopped) + (if address in WorkersOf(old(workers), uid)
                                         then {WorkersOf(old(workers), uid)[address].id} else {})
    {
      var wm := map[];
      if uid in workers {
        wm := workers[uid];
      }
      if address in wm {
        stopped := stopped + {wm[address].id};
      }
      workers := workers[uid := wm[address := Running(nextId, option)]];
      nextId := nextId + 1;
    }

    method RemoveWorker(uid: string, address: string) returns (cnt: nat)
      modifies this
      ensures nextId == old(nextId)
      ensures cnt == if address in WorkersOf(old(workers), uid) then 1 else 0
      ensures cnt == 0 ==> workers == old(workers) && stopped == old(stopped)
      ensures cnt == 1 ==>
                && workers == old(workers)[uid := old(workers)[uid] - {address}]
                && stopped == old(stopped) + {old(workers)[uid][address].id}
    {
      cnt := 0;
      if uid in workers && address in workers[uid] {
        stopped := stopped + {workers[uid][address].id};
        workers := workers[uid := workers[uid] - {address}];
        cnt := 1;
      }
    }

    method RemoveWorkersByUid(uid: string) returns (cnt: nat)
      modifies this
      ensures nextId == old(nextId)
      ensures workers == old(workers) - {uid}
      ensures cnt == |WorkersOf(old(workers), uid)|
      ensures stopped == old(stopped) + set a | a in WorkersOf(old(workers), uid) :: WorkersOf(old(workers), uid)[a].id
    {
      cnt := 0;
      if uid in workers {
        var wm := workers[uid];
        cnt := |wm|;
        var todo := wm.Keys;
        while todo != {}
          invariant todo <= wm.Keys
          invariant workers == old(workers) && nextId == old(nextId)
          invariant stopped == old(stopped) + set a | a in wm && a !in todo :: wm[a].id
        {
          var a :| a in todo;
          stopped := stopped + {wm[a].id};
          todo := todo - {a};
        }
        workers := workers - {uid};
      }
    }

    /**
      manager.go updateAllProbers: three loops over two maps that shrink while they are ranged over.
      Afterwards the workers of uid are the target, and nothing that was already right was touched.
     */
    method UpdateAllProbers(uid: string, activeProbers: map<string, HealthOption>,
                            targetProbers: map<string, HealthOption>)
      requires Filed(WorkersOf(workers, uid)) && activeProbers == OptionsOf(WorkersOf(workers, uid))
      requires forall a :: a in targetProbers ==> targetProbers[a].address == a
      modifies this
      ensures Reached(WorkersOf(old(workers), uid), targetProbers, WorkersOf(workers, uid), old(nextId))
      ensures workers - {uid} == old(workers) - {uid}
      ensures stopped == old(stopped) + Outdated(WorkersOf(old(workers), uid), targetProbers)
    {
      ghost var before, s0, first := WorkersOf(workers, uid), stopped, nextId;
      var active, target := KeepOrReplace(uid, activeProbers, targetProbers);
      ghost var mid, s1 := WorkersOf(workers, uid), stopped;
      DropAll(uid, active);
      ghost var later := nextId;
      AddAll(uid, target);
      DiffReaches(before, targetProbers, mid, active.Keys, target, WorkersOf(workers, uid), first, later);
      StoppedTotal(before, targetProbers, mid, active.Keys, s0, s1, stopped, first);
    }

    /** The first loop: restart what changed, and take what is in both maps out of them. */
    method KeepOrReplace(uid: string, activeProbers: map<string, HealthOption>,
                         targetProbers: map<string, HealthOption>)
      returns (active: map<string, HealthOption>, target: map<string, HealthOption>)
      requires Filed(WorkersOf(workers, uid)) && activeProbers == OptionsOf(WorkersOf(workers, uid))
      requires forall a :: a in targetProbers ==> targetProbers[a].address == a
      modifies this
      ensures active == activeProbers - targetProbers.Keys
              && target == targetProbers - WorkersOf(old(workers), uid).Keys
      ensures active.Keys == WorkersOf(old(workers), uid).Keys - targetProbers.Keys
      ensures workers - {uid} == old(workers) - {uid} && nextId >= old(nextId)
      ensures Swapped(WorkersOf(old(workers), uid), targetProbers, WorkersOf(workers, uid), old(nextId),
                      Changed(WorkersOf(old(workers), uid), targetProbers))
      ensures var before := WorkersOf(old(workers), uid);
              stopped == old(stopped) + Ids(before, Changed(before, targetProbers))
    {
      active, target := activeProbers, targetProbers;
      ghost var before, seen: set<string>, s0 := WorkersOf(workers, uid), {}, stopped;
      NothingSeen(before, targetProbers, s0, nextId);
      var todo := activeProbers.Keys;
      while todo != {}
        invariant todo <= before.Keys && nextId >= old(nextId)
        invariant seen == (before.Keys - todo) * targetProbers.Keys
        invariant active == activeProbers - seen && target == targetProbers - seen
        invariant workers - {uid} == old(workers) - {uid}
        invariant Progress(before, targetProbers, WorkersOf(workers, uid), old(nextId), seen, s0, stopped)
      {
        var a :| a in todo;
        var ap := activeProbers[a];
        SeenGrows(before.Keys, targetProbers.Keys, todo, a);
        if ap.address in target {
          var tp := target[ap.address];
          KeepOrReplaceOne(uid, ap, tp, before, targetProbers, old(nextId), seen, s0);
          MinusMinus(active, seen, activeProbers, a);
          MinusMinus(target, seen, targetProbers, a);
          active := active - {ap.address};
          target := target - {tp.address};
          seen := seen + {a};
        }
        todo := todo - {a};
      }
      AllSeen(before, activeProbers, targetProbers, seen);
    }

    /** Found in both: restart the worker only if its option changed. */
    method KeepOrReplaceOne(uid: string, ap: HealthOption, tp: HealthOption, ghost before: WorkerMap,
                            ghost target: map<string, HealthOption>, ghost first: nat, ghost seen: set<string>,
                            ghost s0: set<nat>)
      requires nextId >= first && ap.address == tp.address && ap.address !in seen
      requires ap.address in before && before[ap.address].option == ap
      requires ap.address in target && target[ap.address] == tp
      requires Progress(before, target, WorkersOf(workers, uid), first, seen, s0, stopped)
      modifies this
      ensures nextId >= old(nextId)
      ensures workers - {uid} == old(workers) - {uid}
      ensures Progress(before, target, WorkersOf(workers, uid), first, seen + {ap.address}, s0, stopped)
    {
      ghost var replaced := Changed(before, target) * seen;
      ChangedGrows(before, target, seen, ap.address);
      if !ap.Equal(tp) {
        SwapOne(before, target, WorkersOf(workers, uid), first, replaced, ap.address, Running(nextId, tp));
        IdsAdd(before, replaced, ap.address);
        Replace(uid, ap, tp);
      }
    }

    /** A changed worker: remove the active one, add the target one. */
    method Replace(uid: string, ap: HealthOption, tp: HealthOption)
      requires ap.address == tp.address && ap.address in WorkersOf(workers, uid)
      modifies this
      ensures nextId >= old(nextId)
      ensures workers - {uid} == old(workers) - {uid}
      ensures WorkersOf(workers, uid) == WorkersOf(old(workers), uid)[ap.address := Running(old(nextId), tp)]
      ensures stopped == old(stopped) + {WorkersOf(old(workers), uid)[ap.address].id}
    {
      var _ := RemoveWorker(uid, ap.address);
      AddWorker(uid, tp.address, tp);
      assert WorkersOf(workers, uid) == WorkersOf(old(workers), uid)[ap.address := Running(old(nextId), tp)];
    }

    /** The second loop: remove all remaining active ones. */
    method DropAll(uid: string, active: map<string, HealthOption>)
      requires active.Keys <= WorkersOf(workers, uid).Keys
      requires forall a :: a in active ==> active[a].address == a
      modifies this
      ensures nextId == old(nextId)
      ensures workers - {uid} == old(workers) - {uid}
      ensures WorkersOf(workers, uid) == WorkersOf(old(workers), uid) - active.Keys
      ensures stopped == old(stopped) + Ids(WorkersOf(old(workers), uid), active.Keys)
    {
      ghost var before, gone: set<string> := WorkersOf(workers, uid), {};
      assert Ids(before, {}) == {} && before - {} == before;
      var todo := active.Keys;
      while todo != {}
        invariant todo <= active.Keys && gone == active.Keys - todo
        invariant nextId == old(nextId)
        invariant workers - {uid} == old(workers) - {uid}
        invariant WorkersOf(workers, uid) == before - gone
        invariant stopped == old(stopped) + Ids(before, gone)
      {
        var a :| a in todo;
        var _ := RemoveWorker(uid, active[a].address);
        IdsAdd(before, gone, a);
        gone, todo := gone + {a}, todo - {a};
      }
      assert gone == active.Keys;
    }

    /** The third loop: start all remaining targets. */
    method AddAll(uid: string, target: map<string, HealthOption>)
      requires target.Keys !! WorkersOf(workers, uid).Keys
      requires forall a :: a in target ==> target[a].address == a
      modifies this
      ensures nextId >= old(nextId)
      ensures workers - {uid} == old(workers) - {uid}
      ensures Added(WorkersOf(old(workers), uid), target, WorkersOf(workers, uid), old(nextId))
      ensures stopped == old(stopped)
    {
      ghost var before, come: map<string, HealthOption> := WorkersOf(workers, uid), map[];
      var todo := target.Keys;
      while todo != {}
        invariant todo <= target.Keys && come == target - todo
        invariant nextId >= old(nextId)
        invariant workers - {uid} == old(workers) - {uid}
        invariant Added(before, come, WorkersOf(workers, uid), old(nextId))
        invariant stopped == old(stopped)
      {
        var a :| a in todo;
        AddWorker(uid, target[a].address, target[a]);
        come, todo := come[a := target[a]], todo - {a};
      }
      assert come == target;
    }
  }

  /** The five settings a worker runs with agree; where it starts from does not matter. */
  predicate Agree(o: HealthOption, h: HealthOption) {
    && o.address == h.address && o.timeout == h.timeout && o.period == h.period
    && o.successThreshold == h.successThreshold && o.failureThreshold == h.failureThreshold
  }

  /** The addresses where both maps have an option and the options differ. */
  ghost function Changed(before: WorkerMap, target: map<string, HealthOption>): set<string> {
    set a | a in before && a in target && !Agree(before[a].option, target[a])
  }

  /** The workers at `replaced` are new ones with the target option; the others are as before. */
  ghost predicate Swapped(before: WorkerMap, target: map<string, HealthOption>, now: WorkerMap, first: nat,
                          replaced: set<string>) {
    && now.Keys == before.Keys
    && (forall a :: a in before && a !in replaced ==> now[a] == before[a])
    && (forall a :: a in before && a in replaced ==> a in target && now[a].option == target[a] && now[a].id >= first)
  }

  /** Among the addresses seen so far exactly the changed ones were restarted, and their workers stopped. */
  ghost predicate Progress(before: WorkerMap, target: map<string, HealthOption>, now: WorkerMap, first: nat,
                           seen: set<string>, s0: set<nat>, s: set<nat>) {
    && Swapped(before, target, now, first, Changed(before, target) * seen)
    && s == s0 + Ids(before, Changed(before, target) * seen)
  }

  lemma NothingSeen(before: WorkerMap, target: map<string, HealthOption>, s0: set<nat>, first: nat)
    ensures Progress(before, target, before, first, {}, s0, s0)
  {
    assert Changed(before, target) * {} == {};
    assert Ids(before, {}) == {};
  }

  lemma AllSeen(before: WorkerMap, active: map<string, HealthOption>, target: map<string, HealthOption>,
                seen: set<string>)
    requires active == OptionsOf(before) && seen == before.Keys * target.Keys
    ensures Changed(before, target) * seen == Changed(before, target)
    ensures active - seen == active - target.Keys && (active - seen).Keys == before.Keys - target.Keys
    ensures target - seen == target - before.Keys
  {
    assert Changed(before, target) <= seen;
    MinusOwn(active, target.Keys, seen);
    MinusOwn(target, before.Keys, seen);
  }

  /** New workers with these options joined the table. */
  ghost predicate Added(before: WorkerMap, target: map<string, HealthOption>, now: WorkerMap, first: nat) {
    && now.Keys == before.Keys + target.Keys
    && (forall a :: a in before && a !in target ==> now[a] == before[a])
    && (forall a :: a in target ==> now[a].option == target[a] && now[a].id >= first)
  }

  /** At this address the table holds the old worker if it was right, else a new one with the target option. */
  ghost predicate Placed(before: WorkerMap, target: map<string, HealthOption>, now: WorkerMap, first: nat, a: string)
    requires a in target
  {
    && a in now
    && if a in before && Agree(before[a].option, target[a]) then now[a] == before[a]
       else now[a].option == target[a] && now[a].id >= first
  }

  /** The specification: exactly the target addresses, options equal, unchanged workers kept. */
  ghost predicate Reached(before: WorkerMap, target: map<string, HealthOption>, now: WorkerMap, first: nat) {
    && now.Keys == target.Keys
    && forall a :: a in target ==> Agree(now[a].option, target[a]) && Placed(before, target, now, first, a)
  }

  /** The workers that had to go: not in the target, or there with another option. */
  ghost function Outdated(before: WorkerMap, target: map<string, HealthOption>): set<nat> {
    set a | a in before && !(a in target && Agree(before[a].option, target[a])) :: before[a].id
  }

  /** The ids the old table has at these addresses. */
  ghost function Ids(before: WorkerMap, s: set<string>): set<nat> {
    set a | a in s && a in before :: before[a].id
  }

  lemma IdsAdd(before: WorkerMap, s: set<string>, a: string)
    requires a in before
    ensures Ids(before, s + {a}) == Ids(before, s) + {before[a].id}
  {
  }

  lemma SeenGrows(keys: set<string>, target: set<string>, todo: set<string>, a: string)
    requires a in todo && todo <= keys
    ensures (keys - (todo - {a})) * target == (keys - todo) * target + (if a in target then {a} else {})
  {
  }

  lemma ChangedGrows(before: WorkerMap, target: map<string, HealthOption>, seen: set<string>, a: string)
    requires a in before && a in target
    ensures Changed(before, target) * (seen + {a})
            == Changed(before, target) * seen + (if Agree(before[a].option, target[a]) then {} else {a})
  {
  }

  lemma SwapOne(before: WorkerMap, target: map<string, HealthOption>, now: WorkerMap, first: nat,
                replaced: set<string>, a: string, w: Running)
    requires Swapped(before, target, now, first, replaced)
    requires a in before && a in target && w.option == target[a] && w.id >= first
    ensures Swapped(before, target, now[a := w], first, replaced + {a})
  {
  }

  lemma MinusMinus(m: map<string, HealthOption>, s: set<string>, whole: map<string, HealthOption>, a: string)
    requires m == whole - s
    ensures m - {a} == whole - (s + {a})
  {
  }

  lemma MinusOwn(m: map<string, HealthOption>, s: set<string>, t: set<string>)
    requires m.Keys * s == t
    ensures m - t == m - s
  {
  }

  lemma OutdatedSplits(before: WorkerMap, target: map<string, HealthOption>)
    ensures Outdated(before, target) == Ids(before, Changed(before, target)) + Ids(before, before.Keys - target.Keys)
  {
  }

  lemma DiffReaches(before: WorkerMap, target: map<string, HealthOption>, mid: WorkerMap, gone: set<string>,
                    missing: map<string, HealthOption>, now: WorkerMap, first: nat, later: nat)
    requires Swapped(before, target, mid, first, Changed(before, target))
    requires gone == before.Keys - target.Keys && missing == target - before.Keys
    requires later >= first && Added(mid - gone, missing, now, later)
    ensures Reached(before, target, now, first)
  {
  }

  lemma StoppedTotal(before: WorkerMap, target: map<string, HealthOption>, mid: WorkerMap, gone: set<string>,
                     s0: set<nat>, s1: set<nat>, s2: set<nat>, first: nat)
    requires Swapped(before, target, mid, first, Changed(before, target))
    requires gone == before.Keys - target.Keys
    requires s1 == s0 + Ids(before, Changed(before, target)) && s2 == s1 + Ids(mid, gone)
    ensures s2 == s0 + Outdated(before, target)
  {
    assert Ids(mid, gone) == Ids(before, gone);
    OutdatedSplits(before, target);
  }

  /**
    Running the diff on its own result stops nobody: what it reaches is already right.
   */
  lemma ReachedIsStable(before: WorkerMap, target: map<string, HealthOption>, now: WorkerMap, first: nat)
    requires Reached(before, target, now, first)
    ensures Outdated(now, target) == {}
    ensures forall again, next :: Reached(now, target, again, next) ==> again == now
  {
  }

  /** Ids in the table are below the next one. */
  ghost predicate Numbered(wm: WorkerMap, next: nat) {
    forall a :: a in wm ==> wm[a].id < next
  }

  /** After the diff a worker is the one from before exactly when its five settings already agreed. */
  lemma KeptIff(before: WorkerMap, target: map<string, HealthOption>, now: WorkerMap, first: nat, a: string)
    requires Numbered(before, first) && Reached(before, target, now, first) && a in target
    ensures a in before && now[a].id == before[a].id <==>
              a in before && Agree(before[a].option, target[a])
  {
    assert Placed(before, target, now, first, a);
  }
}

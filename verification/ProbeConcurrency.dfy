/**
  The prober's goroutines as a step system (pkg/prober/manager.go, pkg/prober/worker.go).

  One goroutine at a time holds workerLock for writing and runs AddWorker, RemoveWorker or
  RemoveWorkersByUid; readers exclude it. Every worker is a goroutine that selects between its stop
  channel and its ticker, probes, and may block sending on the unbuffered condition channel. One
  consumer goroutine receives conditions and runs the handler. `stop` is a send on an unbuffered
  channel: it returns exactly when the worker receives it, and the worker then exits.

  The two-level map of the source is one map keyed by (uid, address). The parameter `handlerLocks`
  asks what would happen if the handler took workerLock; the source is the case `false`.
 */
module ProbeConcurrency {
  import opened ProbeWorker

  datatype Slot = Slot(uid: string, address: string)

  datatype State =
    | Born            // in the table, its goroutine not yet started
    | Selecting       // waiting on the stop channel and the ticker
    | Probing
    | Sending(isHealthy: bool)  // blocked on the condition channel
    | Exited

  datatype Goroutine = Goroutine(slot: Slot, option: HealthOption, counters: Counters, state: State)

  datatype Job = Add(option: HealthOption) | Remove | RemoveAll

  /** Where the holder of the write lock stands; `w` is the worker it is dealing with. */
  datatype Step =
    | Entered
    | Stopping(address: string, w: nat)  // blocked in w.stop()
    | Stopped(address: string, w: nat)   // stop returned, the table not yet updated
    | Installed(w: nat)                  // new worker in the table, goroutine not yet started

  datatype Holder = Free | Held(job: Job, slot: Slot, step: Step)

  datatype Consumer = Waiting | Handling

  datatype System = System(
    workers: map<nat, Goroutine>,
    table: map<Slot, nat>,
    holder: Holder,
    readers: nat,
    consumer: Consumer,
    sent: seq<(nat, bool)>,
    next: nat)

  datatype Event =
    | Lock(job: Job, slot: Slot)
    | Advance(pick: Slot)        // the lock holder's next own step; pick: which worker a range yields
    | StopMeets                  // the stop send meets the worker's select
    | ReadLock
    | ReadUnlock
    | Tick(w: nat)
    | ProbeDone(w: nat, ok: bool)
    | SendMeets(w: nat)          // the worker's send meets the consumer's receive
    | HandlerDone

  function SetState(s: System, w: nat, state: State): System
    requires w in s.workers
  {
    s.(workers := s.workers[w := s.workers[w].(state := state)])
  }

  /** Create a worker, file it, and remember to start it. */
  function Install(s: System, option: HealthOption): System
    requires s.holder.Held?
  {
    s.(workers := s.workers[s.next := Goroutine(s.holder.slot, option, Fresh(option), Born)],
       table := s.table[s.holder.slot := s.next],
       holder := s.holder.(step := Installed(s.next)),
       next := s.next + 1)
  }

  /** The lock holder's program. */
  function Advanced(s: System, pick: Slot): System
    requires s.holder.Held?
  {
    var h := s.holder;
    match h.step
    case Entered =>
      (match h.job
       case Add(option) =>
         if h.slot in s.table then s.(holder := h.(step := Stopping(h.slot.address, s.table[h.slot])))
         else Install(s, option)
       case Remove =>
         if h.slot in s.table then s.(holder := h.(step := Stopping(h.slot.address, s.table[h.slot])))
         else s.(holder := Free)
       case RemoveAll =>
         if pick in s.table && pick.uid == h.slot.uid then
           s.(holder := h.(step := Stopping(pick.address, s.table[pick])))
         else if forall k :: k in s.table ==> k.uid != h.slot.uid then s.(holder := Free)
         else s)
    case Stopping(_, _) => s
    case Stopped(address, w) =>
      (match h.job
       case Add(option) => Install(s, option)
       case Remove => s.(table := s.table - {h.slot}, holder := Free)
       case RemoveAll => s.(table := s.table - {Slot(h.slot.uid, address)}, holder := h.(step := Entered)))
    case Installed(w) =>
      if w in s.workers then SetState(s, w, Selecting).(holder := Free) else s
  }

  predicate In(s: System, w: nat, state: State) {
    w in s.workers && s.workers[w].state == state
  }

  predicate Enabled(s: System, e: Event, handlerLocks: bool) {
    match e
    case Lock(job, slot) => s.holder.Free? && s.readers == 0
    case Advance(pick) => s.holder.Held? && !s.holder.step.Stopping?
    case StopMeets => s.holder.Held? && s.holder.step.Stopping? && In(s, s.holder.step.w, Selecting)
    case ReadLock => s.holder.Free?
    case ReadUnlock => s.readers > 0
    case Tick(w) => In(s, w, Selecting)
    case ProbeDone(w, ok) => In(s, w, Probing)
    case SendMeets(w) => w in s.workers && s.workers[w].state.Sending? && s.consumer.Waiting?
    case HandlerDone => s.consumer.Handling? && (handlerLocks ==> s.holder.Free?)
  }

  function Next(s: System, e: Event, handlerLocks: bool): System {
    if !Enabled(s, e, handlerLocks) then s
    else
      match e
      case Lock(job, slot) => s.(holder := Held(job, slot, Entered))
      case Advance(pick) => Advanced(s, pick)
      case StopMeets =>
        var st := s.holder.step;
        SetState(s, st.w, Exited).(holder := s.holder.(step := Stopped(st.address, st.w)))
      case ReadLock => s.(readers := s.readers + 1)
      case ReadUnlock => s.(readers := s.readers - 1)
      case Tick(w) => SetState(s, w, Probing)
      case ProbeDone(w, ok) =>
        var g := s.workers[w];
        var (c, notice) := Probed(g.option, g.counters, ok);
        var state := if notice.Some? then Sending(notice.value) else Selecting;
        s.(workers := s.workers[w := g.(counters := c, state := state)])
      case SendMeets(w) =>
        SetState(s, w, Selecting).(consumer := Handling, sent := s.sent + [(w, s.workers[w].state.isHealthy)])
      case HandlerDone => s.(consumer := Waiting)
  }

  function Run(s: System, es: seq<Event>, handlerLocks: bool): System
    decreases |es|
  {
    if |es| == 0 then s else Run(Next(s, es[0], handlerLocks), es[1..], handlerLocks)
  }

  const INITIAL := System(map[], map[], Free, 0, Waiting, [], 0)

  // ----- the invariant -----

  predicate Live(g: Goroutine) {
    !g.state.Born? && !g.state.Exited?
  }

  /** The worker the lock holder is dealing with right now. */
  predicate Busy(h: Holder, w: nat) {
    h.Held? && !h.step.Entered? && h.step.w == w
  }

  /** A filed worker is live unless the lock holder has just stopped it or not yet started it. */
  ghost predicate FiledOk(s: System, k: Slot) {
    k in s.table ==>
      && s.table[k] in s.workers && s.workers[s.table[k]].slot == k
      && (s.workers[s.table[k]].state.Exited? ==> s.holder.Held? && s.holder.step == Stopped(k.address, s.table[k]))
      && (s.workers[s.table[k]].state.Born? ==> s.holder.Held? && s.holder.step == Installed(s.table[k]))
  }

  /** A worker whose goroutine runs, or is about to, is filed under its own slot. */
  ghost predicate WorkerOk(s: System, w: nat) {
    w in s.workers ==>
      w < s.next && (!s.workers[w].state.Exited? ==> s.workers[w].slot in s.table && s.table[s.workers[w].slot] == w)
  }

  ghost predicate HolderOk(s: System) {
    s.holder.Held? ==>
      && s.readers == 0
      && match s.holder.step
         case Entered => true
         case Stopping(a, w) =>
           && (!s.holder.job.RemoveAll? ==> a == s.holder.slot.address)
           && Slot(s.holder.slot.uid, a) in s.table && s.table[Slot(s.holder.slot.uid, a)] == w
           && w in s.workers && Live(s.workers[w])
         case Stopped(a, w) =>
           && (!s.holder.job.RemoveAll? ==> a == s.holder.slot.address)
           && Slot(s.holder.slot.uid, a) in s.table && s.table[Slot(s.holder.slot.uid, a)] == w
           && In(s, w, Exited)
         case Installed(w) =>
           && s.holder.slot in s.table && s.table[s.holder.slot] == w && In(s, w, Born)
           && s.holder.job == Add(s.workers[w].option)
  }

  ghost predicate Inv(s: System) {
    && (forall k :: FiledOk(s, k))
    && (forall w :: WorkerOk(s, w))
    && HolderOk(s)
  }

  /** A step that only moves one worker between live states keeps everything. */
  lemma MoveKeeps(s: System, w: nat, g: Goroutine, s': System)
    requires Inv(s) && w in s.workers && Live(s.workers[w])
    requires g.slot == s.workers[w].slot && Live(g)
    requires s'.workers == s.workers[w := g] && s'.table == s.table && s'.holder == s.holder
    requires s'.readers == s.readers && s'.next == s.next
    ensures Inv(s')
  {
    forall k ensures FiledOk(s', k) {
      assert FiledOk(s, k);
    }
    forall v ensures WorkerOk(s', v) {
      assert WorkerOk(s, v);
    }
  }

  lemma StopKeeps(s: System)
    requires Inv(s) && Enabled(s, StopMeets, false)
    ensures Inv(Next(s, StopMeets, false))
  {
    var s' := Next(s, StopMeets, false);
    forall k ensures FiledOk(s', k) {
      assert FiledOk(s, k);
      assert FiledOk(s, Slot(s.holder.slot.uid, s.holder.step.address));
    }
    forall v ensures WorkerOk(s', v) {
      assert WorkerOk(s, v);
    }
  }

  lemma InstallKeeps(s: System, option: HealthOption)
    requires Inv(s) && s.holder.Held?
    requires s.holder.step.Stopped? || (s.holder.step.Entered? && s.holder.slot !in s.table)
    requires s.holder.step.Stopped? ==> s.holder.step.address == s.holder.slot.address
    requires s.holder.job == Add(option)
    ensures Inv(Install(s, option))
  {
    var s' := Install(s, option);
    forall k ensures FiledOk(s', k) {
      assert FiledOk(s, k);
      assert FiledOk(s, s.holder.slot);
      if k in s.table && k != s.holder.slot {
        assert WorkerOk(s, s.table[k]);
      }
    }
    forall v ensures WorkerOk(s', v) {
      assert WorkerOk(s, v);
      if v in s.workers && s.workers[v].slot == s.holder.slot && s.holder.step.Stopped? {
        assert Slot(s.holder.slot.uid, s.holder.step.address) == s.holder.slot;
      }
    }
  }

  lemma UnfileKeeps(s: System, k0: Slot, holder: Holder)
    requires Inv(s) && s.holder.Held? && s.holder.step.Stopped?
    requires k0 == Slot(s.holder.slot.uid, s.holder.step.address)
    requires holder.Free? || (holder.Held? && holder.step.Entered?)
    ensures Inv(s.(table := s.table - {k0}, holder := holder))
  {
    var s' := s.(table := s.table - {k0}, holder := holder);
    forall k ensures FiledOk(s', k) {
      assert FiledOk(s, k) && FiledOk(s, k0);
    }
    forall v ensures WorkerOk(s', v) {
      assert WorkerOk(s, v);
    }
  }

  lemma StartKeeps(s: System)
    requires Inv(s) && s.holder.Held? && s.holder.step.Installed?
    ensures Inv(SetState(s, s.holder.step.w, Selecting).(holder := Free))
  {
    var s' := SetState(s, s.holder.step.w, Selecting).(holder := Free);
    forall k ensures FiledOk(s', k) {
      assert FiledOk(s, k);
    }
    forall v ensures WorkerOk(s', v) {
      assert WorkerOk(s, v);
    }
  }

  /** Changing only the lock, from a point where no filed worker is in transit, keeps everything. */
  lemma HolderKeeps(s: System, s': System)
    requires Inv(s) && s' == s.(holder := s'.holder, readers := s'.readers) && HolderOk(s')
    requires s.holder.Free? || s.holder.step.Entered?
    ensures Inv(s')
  {
    forall k ensures FiledOk(s', k) {
      assert FiledOk(s, k);
    }
    forall v ensures WorkerOk(s', v) {
      assert WorkerOk(s, v);
    }
  }

  lemma AdvanceKeeps(s: System, pick: Slot)
    requires Inv(s) && s.holder.Held? && !s.holder.step.Stopping?
    ensures Inv(Advanced(s, pick))
  {
    var h, s' := s.holder, Advanced(s, pick);
    if h.step.Stopped? {
      if h.job.Add? {
        InstallKeeps(s, h.job.option);
      } else {
        UnfileKeeps(s, Slot(h.slot.uid, h.step.address), s'.holder);
      }
    } else if h.step.Installed? {
      StartKeeps(s);
    } else if h.job.Add? && h.slot !in s.table {
      InstallKeeps(s, h.job.option);
    } else {
      assert FiledOk(s, h.slot) && FiledOk(s, pick);
      HolderKeeps(s, s');
    }
  }

  lemma NextKeeps(s: System, e: Event, handlerLocks: bool)
    requires Inv(s)
    ensures Inv(Next(s, e, handlerLocks))
  {
    if Enabled(s, e, handlerLocks) {
      var s' := Next(s, e, handlerLocks);
      match e {
        case Advance(pick) => AdvanceKeeps(s, pick);
        case StopMeets => StopKeeps(s);
        case Tick(w) => MoveKeeps(s, w, s'.workers[w], s');
        case ProbeDone(w, ok) => MoveKeeps(s, w, s'.workers[w], s');
        case SendMeets(w) => MoveKeeps(s, w, s'.workers[w], s');
        case HandlerDone =>
          assert forall k :: FiledOk(s, k) ==> FiledOk(s', k);
          assert forall v :: WorkerOk(s, v) ==> WorkerOk(s', v);
        case _ => HolderOrReaders(s, s', e, handlerLocks);
      }
    }
  }

  lemma HolderOrReaders(s: System, s': System, e: Event, handlerLocks: bool)
    requires Inv(s) && Enabled(s, e, handlerLocks) && s' == Next(s, e, handlerLocks)
    requires e.Lock? || e.ReadLock? || e.ReadUnlock?
    ensures Inv(s')
  {
    HolderKeeps(s, s');
  }

  lemma {:induction false} RunKeeps(s: System, es: seq<Event>, handlerLocks: bool)
    requires Inv(s)
    ensures Inv(Run(s, es, handlerLocks))
    decreases |es|
  {
    if |es| > 0 {
      NextKeeps(s, es[0], handlerLocks);
      RunKeeps(Next(s, es[0], handlerLocks), es[1..], handlerLocks);
    }
  }

  // ----- the live workers are the filed ones -----

  ghost function LiveSet(s: System): set<nat> {
    set w | w in s.workers && Live(s.workers[w])
  }

  /**
    In every reachable state the live workers are exactly those in the table, except possibly the one
    the lock holder is stopping or starting; with the lock free there is no exception.
   */
  lemma LiveWorkersAreFiled(es: seq<Event>, handlerLocks: bool)
    ensures var s := Run(INITIAL, es, handlerLocks);
            && (s.holder.Free? ==> LiveSet(s) == s.table.Values)
            && (forall w :: w in LiveSet(s) ==> w in s.table.Values)
            && (forall w :: w in s.table.Values && w !in LiveSet(s) ==> Busy(s.holder, w))
            && (forall j, k :: j in s.table && k in s.table && s.table[j] == s.table[k] ==> j == k)
  {
    var s := Run(INITIAL, es, handlerLocks);
    RunKeeps(INITIAL, es, handlerLocks);
    forall w | w in LiveSet(s) ensures w in s.table.Values {
      assert WorkerOk(s, w);
      assert s.table[s.workers[w].slot] == w;
    }
    forall w | w in s.table.Values && w !in LiveSet(s) ensures Busy(s.holder, w) {
      var k :| k in s.table && s.table[k] == w;
      assert FiledOk(s, k);
    }
    forall j, k | j in s.table && k in s.table && s.table[j] == s.table[k] ensures j == k {
      assert FiledOk(s, j) && FiledOk(s, k);
    }
  }

  /**
    What a job has done when its lock is released: AddWorker has its worker running at the slot with
    the given option, RemoveWorker has left the slot empty, RemoveWorkersByUid has left no slot of
    the uid; no other slot has changed hands on the way out.
   */
  lemma JobsAreDone(s: System, e: Event, handlerLocks: bool)
    requires Inv(s) && s.holder.Held? && Next(s, e, handlerLocks).holder.Free?
    ensures var s', h := Next(s, e, handlerLocks), s.holder;
            && (match h.job
                case Add(option) =>
                  && h.slot in s'.table && In(s', s'.table[h.slot], Selecting)
                  && s'.workers[s'.table[h.slot]].option == option
                case Remove => h.slot !in s'.table
                case RemoveAll => forall k :: k in s'.table ==> k.uid != h.slot.uid)
            && forall k :: k in s'.table && k != h.slot ==> k in s.table && s'.table[k] == s.table[k]
  {
  }

  // ----- after stop, silence -----

  function SentBy(w: nat, sent: seq<(nat, bool)>): seq<bool> {
    if |sent| == 0 then []
    else
      var rest := SentBy(w, sent[..|sent| - 1]);
      if sent[|sent| - 1].0 == w then rest + [sent[|sent| - 1].1] else rest
  }

  /** When stop has returned, the worker has exited, and it never sends another condition. */
  lemma {:induction false} StoppedIsSilent(s: System, w: nat, es: seq<Event>, handlerLocks: bool)
    requires Inv(s) && In(s, w, Exited)
    ensures var s' := Run(s, es, handlerLocks);
            In(s', w, Exited) && SentBy(w, s'.sent) == SentBy(w, s.sent)
    decreases |es|
  {
    if |es| > 0 {
      var s1 := Next(s, es[0], handlerLocks);
      NextKeeps(s, es[0], handlerLocks);
      StaysExited(s, w, es[0], handlerLocks);
      StoppedIsSilent(s1, w, es[1..], handlerLocks);
    }
  }

  lemma StaysExited(s: System, w: nat, e: Event, handlerLocks: bool)
    requires Inv(s) && In(s, w, Exited)
    ensures In(Next(s, e, handlerLocks), w, Exited)
    ensures SentBy(w, Next(s, e, handlerLocks).sent) == SentBy(w, s.sent)
  {
    assert WorkerOk(s, w);
    if e.SendMeets? && Enabled(s, e, handlerLocks) {
      var sent' := Next(s, e, handlerLocks).sent;
      assert sent'[..|sent'| - 1] == s.sent;
    }
  }

  // ----- stop always returns -----

  /** What still has to happen before the pending stop can be received. */
  function Rank(s: System, w: nat): nat
    requires w in s.workers
  {
    match s.workers[w].state
    case Probing => 3
    case Sending(_) => if s.consumer.Handling? then 2 else 1
    case _ => 0
  }

  function Helping(s: System, w: nat): Event
    requires w in s.workers
  {
    match s.workers[w].state
    case Probing => ProbeDone(w, true)
    case Sending(_) => if s.consumer.Handling? then HandlerDone else SendMeets(w)
    case _ => StopMeets
  }

  /** A step of this worker, of the consumer, or of the one that stops it. */
  predicate Involves(e: Event, w: nat) {
    e.StopMeets? || e.HandlerDone? || e == SendMeets(w) || (e.ProbeDone? && e.w == w)
  }

  lemma HelpingHelps(s: System, w: nat)
    requires Inv(s) && s.holder.Held? && s.holder.step.Stopping? && s.holder.step.w == w
    ensures w in s.workers && Enabled(s, Helping(s, w), false)
    ensures var s' := Next(s, Helping(s, w), false);
            if Rank(s, w) == 0 then
              s'.holder == s.holder.(step := Stopped(s.holder.step.address, w)) && In(s', w, Exited)
            else
              s'.holder == s.holder && w in s'.workers && Rank(s', w) < Rank(s, w)
  {
  }

  /**
    A pending stop can never deadlock: from every state in which one is pending, at most four steps
    of the stopped worker, the consumer and the stopper let it return; nobody else has to move.
   */
  lemma StopCanReturn(s: System) returns (es: seq<Event>)
    requires Inv(s) && s.holder.Held? && s.holder.step.Stopping?
    ensures |es| <= 4 && forall e :: e in es ==> Involves(e, s.holder.step.w)
    ensures var s', w := Run(s, es, false), s.holder.step.w;
            && s'.holder == s.holder.(step := Stopped(s.holder.step.address, w))
            && In(s', w, Exited)
  {
    es := StopWithin(s, s.holder.step.w);
  }

  lemma {:induction false} StopWithin(s: System, w: nat) returns (es: seq<Event>)
    requires Inv(s) && s.holder.Held? && s.holder.step.Stopping? && s.holder.step.w == w && w in s.workers
    ensures |es| <= Rank(s, w) + 1 && forall e :: e in es ==> Involves(e, w)
    ensures var s' := Run(s, es, false);
            s'.holder == s.holder.(step := Stopped(s.holder.step.address, w)) && In(s', w, Exited)
    decreases Rank(s, w)
  {
    HelpingHelps(s, w);
    var e := Helping(s, w);
    var s1 := Next(s, e, false);
    NextKeeps(s, e, false);
    if Rank(s, w) == 0 {
      es := [e];
      assert es[1..] == [];
      assert Run(s1, [], false) == s1;
    } else {
      var rest := StopWithin(s1, w);
      es := [e] + rest;
      assert es[1..] == rest;
    }
  }

  // ----- what the workers send -----

  /** The outcomes of a worker's probes in a run, in order. */
  function Outcomes(s: System, es: seq<Event>, w: nat, handlerLocks: bool): seq<bool>
    decreases |es|
  {
    if |es| == 0 then []
    else
      Outcome(s, es[0], w, handlerLocks) + Outcomes(Next(s, es[0], handlerLocks), es[1..], w, handlerLocks)
  }

  function Outcome(s: System, e: Event, w: nat, handlerLocks: bool): seq<bool> {
    if e.ProbeDone? && e.w == w && Enabled(s, e, handlerLocks) then [e.ok] else []
  }

  /** The condition a worker is blocked on. */
  function Pending(g: Goroutine): seq<bool> {
    if g.state.Sending? then [g.state.isHealthy] else []
  }

  /** The worker has counted and sent as the counter machine does on these outcomes. */
  ghost predicate Follows(s: System, w: nat, h: seq<bool>) {
    if w in s.workers then
      var t := After(s.workers[w].option, h);
      s.workers[w].counters == t.counters && SentBy(w, s.sent) + Pending(s.workers[w]) == t.notices
    else h == [] && SentBy(w, s.sent) == []
  }

  lemma SentSnoc(w: nat, sent: seq<(nat, bool)>, v: nat, b: bool)
    ensures SentBy(w, sent + [(v, b)]) == SentBy(w, sent) + (if v == w then [b] else [])
  {
    assert (sent + [(v, b)])[..|sent|] == sent;
  }

  lemma ProbeFollows(s: System, w: nat, ok: bool, h: seq<bool>, handlerLocks: bool)
    requires Follows(s, w, h) && In(s, w, Probing)
    ensures Follows(Next(s, ProbeDone(w, ok), handlerLocks), w, h + [ok])
  {
    assert (h + [ok])[..|h|] == h;
  }

  lemma SendFollows(s: System, v: nat, w: nat, h: seq<bool>, handlerLocks: bool)
    requires Follows(s, w, h) && Enabled(s, SendMeets(v), handlerLocks)
    ensures Follows(Next(s, SendMeets(v), handlerLocks), w, h)
  {
    SentSnoc(w, s.sent, v, s.workers[v].state.isHealthy);
  }

  lemma StepFollows(s: System, e: Event, w: nat, h: seq<bool>, handlerLocks: bool)
    requires Inv(s) && Follows(s, w, h)
    ensures Follows(Next(s, e, handlerLocks), w, h + Outcome(s, e, w, handlerLocks))
  {
    assert h + [] == h;
    if Enabled(s, e, handlerLocks) {
      if e.ProbeDone? && e.w == w {
        ProbeFollows(s, w, e.ok, h, handlerLocks);
      } else if e.SendMeets? {
        SendFollows(s, e.w, w, h, handlerLocks);
      } else if e.Advance? {
        AdvanceFollows(s, e.pick, w, h);
      } else {
        OthersFollow(s, e, w, h, handlerLocks);
      }
    }
  }

  /** The lock holder's own steps touch no counter and no condition; a new worker starts afresh. */
  lemma AdvanceFollows(s: System, pick: Slot, w: nat, h: seq<bool>)
    requires Inv(s) && Follows(s, w, h) && s.holder.Held? && !s.holder.step.Stopping?
    ensures Follows(Advanced(s, pick), w, h)
  {
    assert WorkerOk(s, s.next);
  }

  lemma OthersFollow(s: System, e: Event, w: nat, h: seq<bool>, handlerLocks: bool)
    requires Follows(s, w, h) && Enabled(s, e, handlerLocks)
    requires !e.Advance? && !e.SendMeets? && !(e.ProbeDone? && e.w == w)
    ensures Follows(Next(s, e, handlerLocks), w, h)
  {
  }

  lemma {:induction false} RunFollows(s: System, es: seq<Event>, w: nat, h: seq<bool>, handlerLocks: bool)
    requires Inv(s) && Follows(s, w, h)
    ensures Follows(Run(s, es, handlerLocks), w, h + Outcomes(s, es, w, handlerLocks))
    decreases |es|
  {
    if |es| == 0 {
      assert h + [] == h;
    } else {
      var o, s1 := Outcome(s, es[0], w, handlerLocks), Next(s, es[0], handlerLocks);
      NextKeeps(s, es[0], handlerLocks);
      StepFollows(s, es[0], w, h, handlerLocks);
      RunFollows(s1, es[1..], w, h + o, handlerLocks);
      Regroup(h, o, Outcomes(s1, es[1..], w, handlerLocks));
    }
  }

  lemma Regroup(a: seq<bool>, b: seq<bool>, c: seq<bool>)
    ensures a + b + c == a + (b + c)
  {
  }

  /**
    In every interleaving, what the consumer has received from a worker, with the condition it is
    blocked on, is exactly the notices of the counter machine on the outcomes of that worker's own
    probes: none is lost, repeated, reordered or taken from another worker.
   */
  lemma WorkersSendTheirNotices(es: seq<Event>, w: nat, handlerLocks: bool)
    requires w in Run(INITIAL, es, handlerLocks).workers
    ensures var s := Run(INITIAL, es, handlerLocks);
            var g := s.workers[w];
            var t := After(g.option, Outcomes(INITIAL, es, w, handlerLocks));
            SentBy(w, s.sent) + Pending(g) == t.notices && g.counters == t.counters
  {
    RunFollows(INITIAL, es, w, [], handlerLocks);
    assert [] + Outcomes(INITIAL, es, w, handlerLocks) == Outcomes(INITIAL, es, w, handlerLocks);
  }

  // ----- what if the handler took the lock -----

  /** A stop is pending on a worker that is sending while the handler waits for the lock. */
  ghost predicate Stuck(s: System) {
    && s.holder.Held? && s.holder.step.Stopping?
    && s.holder.step.w in s.workers && s.workers[s.holder.step.w].state.Sending?
    && s.consumer.Handling?
  }

  /** If the handler took workerLock, such a state would last forever: nobody could ever proceed. */
  lemma {:induction false} LockingHandlerDeadlocks(s: System, es: seq<Event>)
    requires Inv(s) && Stuck(s)
    ensures Stuck(Run(s, es, true)) && Run(s, es, true).holder == s.holder
    decreases |es|
  {
    if |es| > 0 {
      NextKeeps(s, es[0], true);
      LockingHandlerDeadlocks(Next(s, es[0], true), es[1..]);
    }
  }

  lemma {:induction false} RunSnoc(s: System, es: seq<Event>, e: Event, handlerLocks: bool)
    ensures Run(s, es + [e], handlerLocks) == Next(Run(s, es, handlerLocks), e, handlerLocks)
    decreases |es|
  {
    if |es| == 0 {
      assert es + [e] == [e] && [e][1..] == [];
      assert Run(Next(s, e, handlerLocks), [], handlerLocks) == Next(s, e, handlerLocks);
    } else {
      assert (es + [e])[1..] == es[1..] + [e];
      RunSnoc(Next(s, es[0], handlerLocks), es[1..], e, handlerLocks);
    }
  }

  const OPTION := HealthOption("a", 1, 1, 1, 1, true)

  const SLOT := Slot("u", "a")

  function Worker(state: State): map<nat, Goroutine> {
    map[0 := Goroutine(SLOT, OPTION, Counters(0, 0, true, true, false), state)]
  }

  function FirstWorker(state: State): map<nat, Goroutine> {
    map[0 := Goroutine(SLOT, OPTION, Fresh(OPTION), state)]
  }

  lemma FirstWorkerStarts() returns (es: seq<Event>)
    ensures Run(INITIAL, es, true)
            == System(FirstWorker(Selecting), map[SLOT := 0], Free, 0, Waiting, [], 1)
  {
    var e1, e2 := Lock(Add(OPTION), SLOT), Advance(SLOT);
    assert Run(INITIAL, [], true) == INITIAL;
    RunSnoc(INITIAL, [], e1, true);
    RunSnoc(INITIAL, [] + [e1], e2, true);
    var s2 := Run(INITIAL, [] + [e1] + [e2], true);
    assert s2 == System(FirstWorker(Born), map[SLOT := 0], Held(Add(OPTION), SLOT, Installed(0)), 0, Waiting, [], 1);
    RunSnoc(INITIAL, [] + [e1] + [e2], e2, true);
    es := [] + [e1] + [e2] + [e2];
  }

  /** Probe and get to the point of sending; the first time, hand the condition over. */
  lemma WorkerSendsAgain(es: seq<Event>) returns (es': seq<Event>)
    requires Run(INITIAL, es, true)
             == System(FirstWorker(Selecting), map[SLOT := 0], Free, 0, Waiting, [], 1)
    ensures Run(INITIAL, es', true)
            == System(Worker(Sending(true)), map[SLOT := 0], Free, 0, Handling, [(0, true)], 1)
  {
    RunSnoc(INITIAL, es, Tick(0), true);
    RunSnoc(INITIAL, es + [Tick(0)], ProbeDone(0, true), true);
    var es2 := es + [Tick(0)] + [ProbeDone(0, true)];
    assert Run(INITIAL, es2, true) == System(Worker(Sending(true)), map[SLOT := 0], Free, 0, Waiting, [], 1);
    RunSnoc(INITIAL, es2, SendMeets(0), true);
    var es3 := es2 + [SendMeets(0)];
    assert Run(INITIAL, es3, true) == System(Worker(Selecting), map[SLOT := 0], Free, 0, Handling, [(0, true)], 1);
    RunSnoc(INITIAL, es3, Tick(0), true);
    RunSnoc(INITIAL, es3 + [Tick(0)], ProbeDone(0, true), true);
    es' := es3 + [Tick(0)] + [ProbeDone(0, true)];
  }

  /** And such a state is reachable, so the lock-free handler is what the absence of deadlock rests on. */
  lemma LockingHandlerCanGetStuck()
    ensures exists es :: Stuck(Run(INITIAL, es, true))
  {
    var es := FirstWorkerStarts();
    es := WorkerSendsAgain(es);
    RunSnoc(INITIAL, es, Lock(Remove, SLOT), true);
    RunSnoc(INITIAL, es + [Lock(Remove, SLOT)], Advance(SLOT), true);
    assert Stuck(Run(INITIAL, es + [Lock(Remove, SLOT)] + [Advance(SLOT)], true));
  }
}

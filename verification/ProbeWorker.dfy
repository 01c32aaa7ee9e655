/**
  The threshold counter machine of pkg/prober/worker.go. A probe is an arbitrary success or failure;
  a notice is what the worker sends on the condition channel.
 */
module ProbeWorker {
  import opened Common
  import Bits

  /** HealthOption of pkg/prober/health.go; durations in nanoseconds. */
  datatype HealthOption = HealthOption(
    address: string,
    successThreshold: nat,
    failureThreshold: nat,
    timeout: int,
    period: int,
    initialCondition: bool)
  {
    /** health.go Equal: everything but the initial condition. */
    predicate Equal(h: HealthOption) {
      && address == h.address && successThreshold == h.successThreshold
      && failureThreshold == h.failureThreshold && timeout == h.timeout && period == h.period
    }
  }

  datatype Counters = Counters(success: nat, failure: nat, condition: bool, logFailure: bool, logSuccess: bool)

  function Fresh(o: HealthOption): Counters {
    Counters(0, 0, o.initialCondition, true, true)
  }

  /** One probe: the new counters and the notice sent, if any. */
  function Probed(o: HealthOption, c: Counters, ok: bool): (Counters, Option<bool>) {
    if !ok then
      if c.failure + 1 >= o.failureThreshold then (Counters(0, 0, false, false, true), Some(false))
      else (Counters(0, c.failure + 1, c.condition, c.logFailure, true), None)
    else
      if c.success + 1 >= o.successThreshold then (Counters(0, 0, true, true, false), Some(true))
      else (Counters(c.success + 1, 0, c.condition, true, c.logSuccess), None)
  }

  class Worker {
    const option: HealthOption
    var successCounter: nat
    var failureCounter: nat
    var condition: bool
    var logFailure: bool
    var logSuccess: bool

    constructor (option: HealthOption)
      ensures this.option == option && State() == Fresh(option)
    {
      this.option := option;
      successCounter, failureCounter := 0, 0;
      condition := option.initialCondition;
      logFailure, logSuccess := true, true;
    }

    function State(): Counters
      reads this
    {
      Counters(successCounter, failureCounter, condition, logFailure, logSuccess)
    }

    method DoProbe(ok: bool) returns (notice: Option<bool>)
      modifies this
      ensures (State(), notice) == Probed(option, old(State()), ok)
    {
      notice := None;
      if !ok {
        successCounter := 0;
        failureCounter := failureCounter + 1;
        logSuccess := true;
        if failureCounter >= option.failureThreshold {
          if logFailure {
            logFailure := false;
          }
          condition := false;
          notice := Some(condition);
          failureCounter := 0;
        }
        return;
      }
      failureCounter := 0;
      successCounter := successCounter + 1;
      logFailure := true;
      if successCounter >= option.successThreshold {
        if logSuccess {
          logSuccess := false;
        }
        condition := true;
        notice := Some(condition);
        successCounter := 0;
      }
    }
  }

  // ----- whole histories -----

  datatype Trace = Trace(counters: Counters, notices: seq<bool>)

  /** The counters and all notices after a history of probes. */
  function After(o: HealthOption, history: seq<bool>): Trace {
    if |history| == 0 then Trace(Fresh(o), [])
    else
      var t := After(o, history[..|history| - 1]);
      var (c, notice) := Probed(o, t.counters, history[|history| - 1]);
      Trace(c, if notice.Some? then t.notices + [notice.value] else t.notices)
  }

  /** n probes with the same outcome. */
  function Streak(n: nat, ok: bool): seq<bool> {
    seq(n, _ => ok)
  }

  function AtLeastOne(t: nat): (r: nat)
    ensures r >= 1
  {
    if t == 0 then 1 else t
  }

  /** At most one counter is non-zero, each is below its threshold, and the condition is the last notice. */
  lemma {:induction false} CountersStayExclusive(o: HealthOption, history: seq<bool>)
    ensures var t := After(o, history);
            && (t.counters.success == 0 || t.counters.failure == 0)
            && t.counters.success < AtLeastOne(o.successThreshold)
            && t.counters.failure < AtLeastOne(o.failureThreshold)
            && t.counters.condition
               == (if |t.notices| > 0 then t.notices[|t.notices| - 1] else o.initialCondition)
  {
    if |history| > 0 {
      CountersStayExclusive(o, history[..|history| - 1]);
    }
  }

  /** The history does not end in a probe with this outcome, so a streak of it starts here. */
  predicate StreakStarts(history: seq<bool>, ok: bool) {
    |history| > 0 ==> history[|history| - 1] != ok
  }

  /** A streak adds up: the counter of its outcome was reset by the probe before it. */
  lemma CounterIsReset(o: HealthOption, history: seq<bool>, ok: bool)
    requires StreakStarts(history, ok)
    ensures var c := After(o, history).counters;
            (if ok then c.success else c.failure) == 0
  {
  }

  lemma StreakGrows(n: nat, ok: bool)
    ensures Streak(n, ok) + [ok] == Streak(n + 1, ok)
  {
  }

  function Own(c: Counters, ok: bool): nat {
    if ok then c.success else c.failure
  }

  function Other(c: Counters, ok: bool): nat {
    if ok then c.failure else c.success
  }

  function Threshold(o: HealthOption, ok: bool): nat {
    AtLeastOne(if ok then o.successThreshold else o.failureThreshold)
  }

  /** Whole thresholds and probes left over after n probes of one outcome, counted one by one. */
  function Tally(n: nat, t: nat): (nat, nat) {
    if n == 0 then (0, 0)
    else
      var (q, r) := Tally(n - 1, t);
      if r + 1 < t then (q, r + 1) else (q + 1, 0)
  }

  /** Counting one by one is division with remainder. */
  lemma {:induction false} TallyIsDivMod(n: nat, t: nat)
    requires t >= 1
    ensures Tally(n, t) == (n / t, n % t)
  {
    if n == 0 {
      Bits.DivModUnique(0, 0, t, 0);
    } else {
      TallyIsDivMod(n - 1, t);
      var q, r := (n - 1) / t, (n - 1) % t;
      if r + 1 < t {
        Bits.DivModUnique(n, q, t, r + 1);
      } else {
        assert (q + 1) * t == q * t + t;
        Bits.DivModUnique(n, q + 1, t, 0);
      }
    }
  }

  /** One more probe of the same outcome either completes a threshold or counts up. */
  lemma OneMore(o: HealthOption, h: seq<bool>, ok: bool)
    ensures var before, after := After(o, h), After(o, h + [ok]);
            && Other(after.counters, ok) == 0
            && if Own(before.counters, ok) + 1 >= Threshold(o, ok) then
                 Own(after.counters, ok) == 0 && after.notices == before.notices + [ok]
               else
                 Own(after.counters, ok) == Own(before.counters, ok) + 1 && after.notices == before.notices
  {
    assert (h + [ok])[..|h|] == h;
  }

  lemma StreakSplits(history: seq<bool>, n: nat, ok: bool)
    ensures history + Streak(n + 1, ok) == (history + Streak(n, ok)) + [ok]
    ensures history + Streak(0, ok) == history
  {
  }

  /** Since the given notices, q more of one outcome were sent and its counter stands at r. */
  ghost predicate Sent(o: HealthOption, notices: seq<bool>, h: seq<bool>, q: nat, r: nat, ok: bool) {
    var t := After(o, h);
    t.notices == notices + Streak(q, ok) && Own(t.counters, ok) == r
  }

  lemma SentOneMore(o: HealthOption, notices: seq<bool>, h: seq<bool>, q: nat, r: nat, ok: bool)
    requires Sent(o, notices, h, q, r, ok)
    ensures Other(After(o, h + [ok]).counters, ok) == 0
    ensures r + 1 < Threshold(o, ok) ==> Sent(o, notices, h + [ok], q, r + 1, ok)
    ensures r + 1 >= Threshold(o, ok) ==> Sent(o, notices, h + [ok], q + 1, 0, ok)
  {
    OneMore(o, h, ok);
    StreakGrows(q, ok);
    assert notices + Streak(q, ok) + [ok] == notices + (Streak(q, ok) + [ok]);
  }

  lemma StreakExtends(o: HealthOption, notices: seq<bool>, history: seq<bool>, n: nat, q: nat, r: nat, ok: bool)
    requires Sent(o, notices, history + Streak(n, ok), q, r, ok)
    ensures var h := history + Streak(n + 1, ok);
            && Other(After(o, h).counters, ok) == 0
            && if r + 1 < Threshold(o, ok) then Sent(o, notices, h, q, r + 1, ok) else Sent(o, notices, h, q + 1, 0, ok)
  {
    StreakSplits(history, n, ok);
    SentOneMore(o, notices, history + Streak(n, ok), q, r, ok);
  }

  /** The worker counts a streak as the tally does. */
  lemma {:induction false} StreakCounts(o: HealthOption, history: seq<bool>, n: nat, ok: bool)
    requires StreakStarts(history, ok)
    ensures var (q, r) := Tally(n, Threshold(o, ok));
            Sent(o, After(o, history).notices, history + Streak(n, ok), q, r, ok)
    ensures n > 0 ==> Other(After(o, history + Streak(n, ok)).counters, ok) == 0
  {
    var notices := After(o, history).notices;
    if n == 0 {
      StreakSplits(history, 0, ok);
      CounterIsReset(o, history, ok);
      assert notices + Streak(0, ok) == notices;
    } else {
      StreakCounts(o, history, n - 1, ok);
      var (q, r) := Tally(n - 1, Threshold(o, ok));
      StreakExtends(o, notices, history, n - 1, q, r, ok);
    }
  }

  /**
    For every history, a streak of n equal outcomes sends exactly n div threshold notices of that
    outcome, leaves its counter at n mod threshold and clears the other one. A zero threshold acts
    as one.
   */
  lemma StreakNotices(o: HealthOption, history: seq<bool>, n: nat, ok: bool)
    requires StreakStarts(history, ok)
    ensures var t := Threshold(o, ok);
            var before, after := After(o, history), After(o, history + Streak(n, ok));
            && after.notices == before.notices + Streak(n / t, ok)
            && Own(after.counters, ok) == n % t
            && (n > 0 ==> Other(after.counters, ok) == 0)
  {
    TallyIsDivMod(n, Threshold(o, ok));
    StreakCounts(o, history, n, ok);
  }

  /** Would the next notice of this outcome be logged? */
  function Logs(c: Counters, ok: bool): bool {
    if ok then c.logSuccess else c.logFailure
  }

  /** Each streak logs its outcome once: with its first notice, and never again until the outcome changes. */
  lemma {:induction false} StreakLogsOnce(o: HealthOption, history: seq<bool>, n: nat, ok: bool)
    requires StreakStarts(history, ok)
    ensures Logs(After(o, history + Streak(n, ok)).counters, ok) <==> n < Threshold(o, ok)
    ensures n > 0 ==> Logs(After(o, history + Streak(n, ok)).counters, !ok)
  {
    StreakSplits(history, 0, ok);
    if n == 0 {
      FlagIsReset(o, history, ok);
    } else {
      StreakLogsOnce(o, history, n - 1, ok);
      StreakNotices(o, history, n - 1, ok);
      StreakSplits(history, n - 1, ok);
      FlagStep(o, history + Streak(n - 1, ok), ok);
      if n - 1 < Threshold(o, ok) {
        Bits.DivModUnique(n - 1, 0, Threshold(o, ok), n - 1);
      }
    }
  }

  lemma FlagIsReset(o: HealthOption, history: seq<bool>, ok: bool)
    requires StreakStarts(history, ok)
    ensures Logs(After(o, history).counters, ok)
  {
  }

  lemma FlagStep(o: HealthOption, h: seq<bool>, ok: bool)
    ensures var before, after := After(o, h).counters, After(o, h + [ok]).counters;
            && Logs(after, !ok)
            && (Logs(after, ok) <==> Logs(before, ok) && Own(before, ok) + 1 < Threshold(o, ok))
  {
    assert (h + [ok])[..|h|] == h;
  }
}

/** The checks that tell what happened to the chip from two samples of its power counters. */
module NuggetStats {
  import opened Text
  import opened Runs

  datatype Stats = Stats(
    hardResetCount: nat,
    timeSinceHardReset: nat,
    wakeCount: nat,
    timeAtLastWake: nat,
    timeSpentAwake: nat,
    deepSleepCount: nat,
    timeAtLastDeepSleep: nat,
    timeSpentInDeepSleep: nat)

  datatype Happening = HardReset | SleepCycle(asleep: nat) | StayAwake

  /** A reset counts itself and clears the sleep counters; a sleep and wake-up takes time
      and counts in three places; staying awake moves only clocks. */
  predicate Occurs(s: Stats, what: Happening, s': Stats, nothing: ()) {
    match what
    case HardReset =>
      s'.hardResetCount == s.hardResetCount + 1 && s'.timeAtLastWake == 0 && s'.deepSleepCount == 0
    case SleepCycle(asleep) =>
      && asleep > 0
      && s'.hardResetCount == s.hardResetCount
      && s'.wakeCount == s.wakeCount + 1
      && s'.timeAtLastWake > 0
      && s'.deepSleepCount == s.deepSleepCount + 1
      && s'.timeSpentInDeepSleep == s.timeSpentInDeepSleep + asleep
    case StayAwake =>
      && s' == s.(timeSinceHardReset := s'.timeSinceHardReset, timeSpentAwake := s'.timeSpentAwake)
      && s.timeSinceHardReset <= s'.timeSinceHardReset && s.timeSpentAwake <= s'.timeSpentAwake
  }

  type StatsEvent = Event<Stats, Happening, ()>

  function Resets(run: seq<StatsEvent>): nat {
    if run == [] then 0
    else Resets(run[..|run| - 1]) + (if run[|run| - 1].req.HardReset? then 1 else 0)
  }

  function Cycles(run: seq<StatsEvent>): nat {
    if run == [] then 0
    else Cycles(run[..|run| - 1]) + (if run[|run| - 1].req.SleepCycle? then 1 else 0)
  }

  /** Sleep cycles since the last reset of the run, or since its start. */
  function CyclesSinceReset(run: seq<StatsEvent>): nat {
    if run == [] || run[|run| - 1].req.HardReset? then 0
    else CyclesSinceReset(run[..|run| - 1]) + (if run[|run| - 1].req.SleepCycle? then 1 else 0)
  }

  // ----- the checks

  predicate SleptOnce(s0: Stats, s1: Stats) {
    && s1.hardResetCount == s0.hardResetCount
    && s1.deepSleepCount == s0.deepSleepCount + 1
    && s1.wakeCount == s0.wakeCount + 1
    && s1.timeSpentInDeepSleep > s0.timeSpentInDeepSleep
  }

  predicate RebootedOnce(s0: Stats, s1: Stats) {
    s1.hardResetCount == s0.hardResetCount + 1 && s1.timeAtLastWake == 0 && s1.deepSleepCount == 0
  }

  predicate DidNotReset(s0: Stats, s1: Stats) {
    s1.hardResetCount == s0.hardResetCount
  }

  /** What the counters add up to. */
  predicate Tallied(s0: Stats, run: seq<StatsEvent>, s: Stats) {
    && s.hardResetCount == s0.hardResetCount + Resets(run)
    && (Resets(run) == 0 ==>
          && s.deepSleepCount == s0.deepSleepCount + Cycles(run)
          && s.wakeCount == s0.wakeCount + Cycles(run)
          && s.timeSpentInDeepSleep >= s0.timeSpentInDeepSleep + Cycles(run))
    && (Resets(run) > 0 ==>
          && s.deepSleepCount == CyclesSinceReset(run)
          && (s.timeAtLastWake == 0 <==> CyclesSinceReset(run) == 0))
  }

  lemma {:induction false} CountersTally(s0: Stats, run: seq<StatsEvent>)
    requires IsRun(Occurs, s0, run)
    ensures Tallied(s0, run, At(s0, run, |run|))
    decreases |run|
  {
    if run != [] {
      var init, last := run[..|run| - 1], run[|run| - 1];
      assert forall i :: 0 <= i < |init| ==> init[i] == run[i];
      assert forall i :: 0 <= i <= |init| ==> At(s0, init, i) == At(s0, run, i);
      assert IsRun(Occurs, s0, init) by {
        forall i | 0 <= i < |init|
          ensures Occurs(At(s0, init, i), init[i].req, init[i].post, init[i].reply)
        {
          assert Occurs(At(s0, run, i), run[i].req, run[i].post, run[i].reply);
        }
      }
      CountersTally(s0, init);
      assert Occurs(At(s0, run, |init|), last.req, last.post, last.reply);
    }
  }

  /** Between two samples, each check holds exactly for the runs it is meant to detect. */
  lemma ChecksAreExact(s0: Stats, run: seq<StatsEvent>)
    requires IsRun(Occurs, s0, run)
    ensures var s1 := At(s0, run, |run|);
            && (SleptOnce(s0, s1) <==> Resets(run) == 0 && Cycles(run) == 1)
            && (RebootedOnce(s0, s1) <==> Resets(run) == 1 && CyclesSinceReset(run) == 0)
            && (DidNotReset(s0, s1) <==> Resets(run) == 0)
  {
    CountersTally(s0, run);
  }

  // ----- the tools

  const WAIT_SECONDS := 4

  /** A client of the chip, and the host's clock in microseconds. Any call may fail; while
      the host waits or a command runs, anything may happen to the chip. Taking a sample
      takes no time. */
  class NuggetClient {
    var stats: Stats
    var clock: nat
    var callFailed: bool
    ghost var history: seq<StatsEvent>

    constructor (stats: Stats, clock: nat)
      ensures this.stats == stats && this.clock == clock && !callFailed && history == []
    {
      this.stats := stats;
      this.clock := clock;
      callFailed := false;
      history := [];
    }

    method GetLowPowerStats() returns (r: Option<Stats>)
      modifies this`callFailed
      ensures r.None? ==> callFailed
      ensures r.Some? ==> r.value == stats && callFailed == old(callFailed)
    {
      if * {
        callFailed := true;
        return None;
      }
      return Some(stats);
    }

    /** Time passes, not less than asked for. */
    method Elapse(usecs: nat)
      modifies this`stats, this`clock, this`history
      ensures old(history) <= history && clock >= old(clock) + usecs
      ensures var run := history[|old(history)|..];
              IsRun(Occurs, old(stats), run) && stats == At(old(stats), run, |run|)
    {
      var calm: seq<StatsEvent> := [];
      assert IsRun(Occurs, stats, calm);
      var run :| IsRun(Occurs, stats, run);
      history := history + run;
      assert history[|old(history)|..] == run;
      stats := At(stats, run, |run|);
      var later :| later >= clock + usecs;
      clock := later;
    }

    method Command() returns (ok: bool)
      modifies this
      ensures old(history) <= history && clock >= old(clock)
      ensures var run := history[|old(history)|..];
              IsRun(Occurs, old(stats), run) && stats == At(old(stats), run, |run|)
      ensures callFailed == (old(callFailed) || !ok)
    {
      Elapse(0);
      ok := *;
      callFailed := callFailed || !ok;
    }
  }

  /** True exactly if all calls worked and meanwhile the chip slept once and was not
      reset. */
  method WaitForSleep(client: NuggetClient) returns (ok: bool, secondsWaited: Option<nat>)
    requires !client.callFailed
    modifies client
    ensures old(client.history) <= client.history
    ensures var run := client.history[|old(client.history)|..];
            ok <==> !client.callFailed && Resets(run) == 0 && Cycles(run) == 1
    ensures ok ==> client.clock >= old(client.clock) + 4_000_000
    ensures secondsWaited == if ok then Some(4) else None
  {
    var stats0 := client.GetLowPowerStats();
    if stats0.None? {
      return false, None;
    }
    client.Elapse(WAIT_SECONDS * 1_000_000);
    ChecksAreExact(stats0.value, client.history[|old(client.history)|..]);
    var stats1 := client.GetLowPowerStats();
    if stats1.None? {
      return false, None;
    }
    if SleptOnce(stats0.value, stats1.value) {
      return true, Some(WAIT_SECONDS);
    }
    return false, None;
  }

  /** True exactly if all calls worked, the chip was reset once and has not slept since,
      and it reports less time since its reset than the host saw pass and five percent. */
  method RebootNugget(client: NuggetClient) returns (ok: bool)
    requires !client.callFailed
    modifies client
    ensures old(client.history) <= client.history && client.clock >= old(client.clock)
    ensures var run := client.history[|old(client.history)|..];
            ok <==> && !client.callFailed && Resets(run) == 1 && CyclesSinceReset(run) == 0
                    && client.stats.timeSinceHardReset < (client.clock - old(client.clock)) * 105 / 100
  {
    var stats0 := client.GetLowPowerStats();
    if stats0.None? {
      return false;
    }
    var start := client.clock;
    var done := client.Command();
    if !done {
      return false;
    }
    ChecksAreExact(stats0.value, client.history[|old(client.history)|..]);
    var stats1 := client.GetLowPowerStats();
    if stats1.None? {
      return false;
    }
    var maxUsecs := (client.clock - start) * 105 / 100;
    ok := RebootedOnce(stats0.value, stats1.value) && stats1.value.timeSinceHardReset < maxUsecs;
  }

  /** True exactly if all calls worked and the wipe did not reset the chip. */
  method WipeUserData(client: NuggetClient) returns (ok: bool)
    requires !client.callFailed
    modifies client
    ensures old(client.history) <= client.history
    ensures var run := client.history[|old(client.history)|..];
            ok <==> !client.callFailed && Resets(run) == 0
  {
    var stats0 := client.GetLowPowerStats();
    if stats0.None? {
      return false;
    }
    var done := client.Command();
    if !done {
      return false;
    }
    ChecksAreExact(stats0.value, client.history[|old(client.history)|..]);
    var stats1 := client.GetLowPowerStats();
    if stats1.None? {
      return false;
    }
    return DidNotReset(stats0.value, stats1.value);
  }
}

/** The cycle runner: a scheduler that never catches up, a driver that may fail in any way, and recovery under a
    reconnect policy with a finite budget. */
module Runner {
  import opened Bytes
  import opened Health
  import opened Reconnect

  // ---- Scheduler ----------------------------------------------------------------------

  /** Whether a poll at `now` fires, given the last firing. `duration_since` saturates at zero. */
  predicate Fires(interval: nat, last: Option<nat>, now: nat): (fire: bool)
    ensures last.None? || interval == 0 ==> fire
    ensures last.Some? && interval > 0 ==> (fire <==> now >= last.value + interval)
  {
    last.None? || SatSub(now, last.value) >= interval
  }

  class CycleScheduler {
    const interval: nat
    var lastTick: Option<nat>

    constructor (interval: nat)
      ensures this.interval == interval && lastTick.None?
    {
      this.interval, lastTick := interval, None;
    }

    method Poll(now: nat) returns (fire: bool)
      modifies this
      ensures fire <==> Fires(interval, old(lastTick), now)
      ensures old(lastTick).None? || interval == 0 ==> fire
      ensures old(lastTick).Some? && interval > 0 ==> (fire <==> now >= old(lastTick).value + interval)
      ensures lastTick == if fire then Some(now) else old(lastTick)
    {
      match lastTick {
        case None => fire := true;
        case Some(prev) => fire := SatSub(now, prev) >= interval;
      }
      if fire { lastTick := Some(now); }
    }
  }

  function Later(interval: nat, last: Option<nat>, now: nat): Option<nat> {
    if Fires(interval, last, now) then Some(now) else last
  }

  /** How often polls at these times fire. */
  function Firings(interval: nat, last: Option<nat>, times: seq<nat>): nat
    decreases |times|
  {
    if times == [] then 0
    else (if Fires(interval, last, times[0]) then 1 else 0)
         + Firings(interval, Later(interval, last, times[0]), times[1..])
  }

  predicate NonDecreasing(times: seq<nat>) { forall i, j :: 0 <= i < j < |times| ==> times[i] <= times[j] }

  lemma PrefixNonDecreasing(times: seq<nat>, n: nat)
    requires NonDecreasing(times) && n <= |times|
    ensures NonDecreasing(times[..n])
    ensures forall i :: 0 <= i < n ==> times[0] <= times[..n][i] <= times[|times| - 1]
  {
    forall i | 0 <= i < n ensures times[0] <= times[..n][i] <= times[|times| - 1] {
      assert times[..n][i] == times[i];
    }
  }

  /** After a firing at `p`, each further one needs an interval of its own. */
  lemma {:induction false} SpacedFirings(interval: nat, p: nat, times: seq<nat>, end: nat)
    requires NonDecreasing(times) && p <= end && forall i :: 0 <= i < |times| ==> p <= times[i] <= end
    ensures Firings(interval, Some(p), times) * interval <= end - p
    decreases |times|
  {
    if times != [] {
      var rest := times[1..];
      assert NonDecreasing(rest);
      if Fires(interval, Some(p), times[0]) {
        SpacedFirings(interval, times[0], rest, end);
        var n := Firings(interval, Some(times[0]), rest);
        assert (1 + n) * interval == interval + n * interval;
      } else {
        SpacedFirings(interval, p, rest, end);
      }
    }
  }

  /** Skip, never catch up: over non-decreasing times from `start` to `end` the scheduler fires at most once,
      plus once per whole interval. */
  lemma {:induction false} AtMostOncePerInterval(interval: nat, last: Option<nat>, times: seq<nat>,
                                                 start: nat, end: nat)
    requires interval > 0 && start <= end && NonDecreasing(times)
    requires forall i :: 0 <= i < |times| ==> start <= times[i] <= end
    ensures Firings(interval, last, times) <= 1 + (end - start) / interval
    decreases |times|
  {
    if times != [] {
      var rest := times[1..];
      if Fires(interval, last, times[0]) {
        SpacedFirings(interval, times[0], rest, end);
        WholeIntervals(Firings(interval, Some(times[0]), rest), interval, end - start);
      } else {
        AtMostOncePerInterval(interval, last, rest, start, end);
      }
    }
  }

  /** Consecutive times are at most `delta` apart. */
  predicate Dense(times: seq<nat>, delta: nat) { forall i :: 0 <= i < |times| - 1 ==> times[i + 1] <= times[i] + delta }

  /** After a firing at `p` and a poll at `q`, polls at most `delta` apart fire at least once per interval and
      `delta`, up to the last interval. */
  lemma {:induction false} CloseFirings(interval: nat, delta: nat, p: nat, q: nat, times: seq<nat>)
    requires NonDecreasing(times) && Dense(times, delta) && p <= q <= p + interval
    requires times != [] ==> q <= times[0] <= q + delta
    ensures Spans(Firings(interval, Some(p), times), interval + delta) + interval >=
            (if times == [] then q else times[|times| - 1]) - p
    decreases |times|
  {
    hide Spans;
    SpansStep(0, interval + delta);
    if times != [] {
      var rest := times[1..];
      assert NonDecreasing(rest) && Dense(rest, delta);
      assert rest != [] ==> rest[|rest| - 1] == times[|times| - 1];
      if Fires(interval, Some(p), times[0]) {
        CloseFirings(interval, delta, times[0], times[0], rest);
        SpansStep(Firings(interval, Some(times[0]), rest), interval + delta);
      } else {
        CloseFirings(interval, delta, p, times[0], rest);
      }
    }
  }

  /** `n` periods of length `d`. */
  function Spans(n: nat, d: nat): nat { n * d }

  lemma SpansStep(n: nat, d: nat)
    ensures Spans(0, d) == 0 && Spans(n + 1, d) == Spans(n, d) + d
  {
  }

  /** The bus is not starved: a scheduler that is polled at least every `delta` fires at least once per interval and
      `delta` between its first poll and its last. */
  lemma AtLeastOncePerPeriod(interval: nat, delta: nat, times: seq<nat>)
    requires times != [] && NonDecreasing(times) && Dense(times, delta) && interval + delta > 0
    ensures Firings(interval, None, times) >= (times[|times| - 1] - times[0]) / (interval + delta)
  {
    hide Spans;
    var rest := times[1..];
    assert NonDecreasing(rest) && Dense(rest, delta);
    assert rest != [] ==> rest[|rest| - 1] == times[|times| - 1];
    CloseFirings(interval, delta, times[0], times[0], rest);
    var n := Firings(interval, Some(times[0]), rest);
    SpansStep(n, interval + delta);
    AtLeastQuotient(n + 1, interval + delta, times[|times| - 1] - times[0]);
  }

  lemma AtLeastQuotient(n: nat, d: nat, span: nat)
    requires d > 0 && Spans(n, d) >= span
    ensures n >= span / d
  {
    var q := span / d;
    assert q * d <= span;
    assert n < q ==> (n + 1) * d <= q * d;
    assert (n + 1) * d == n * d + d;
  }

  lemma WholeIntervals(n: nat, interval: nat, span: nat)
    requires interval > 0 && n * interval <= span
    ensures n <= span / interval
  {
    var q := span / interval;
    assert n > q ==> n * interval >= (q + 1) * interval;
    assert (q + 1) * interval == q * interval + interval;
  }

  // ---- Driver -------------------------------------------------------------------------

  datatype CycleResult = Wkc(value: nat) | CycleError(code: int)
  datatype BringUp = BroughtUp(expectedWkc: nat) | BringUpError(code: int)

  /** Any behaviour of the bus: what bringing it up returns, and the n-th cycle and the n-th recovery. */
  class BusDriver {
    const onBringUp: BringUp
    const onCycle: nat -> CycleResult
    const onRecover: nat -> BringUp
    var cycles: nat
    var recovers: nat

    constructor (onBringUp: BringUp, onCycle: nat -> CycleResult, onRecover: nat -> BringUp)
      ensures this.onBringUp == onBringUp && this.onCycle == onCycle && this.onRecover == onRecover
      ensures cycles == 0 && recovers == 0
    {
      this.onBringUp, this.onCycle, this.onRecover, cycles, recovers := onBringUp, onCycle, onRecover, 0, 0;
    }

    method Cycle() returns (r: CycleResult)
      modifies this`cycles
      ensures r == onCycle(old(cycles)) && cycles == old(cycles) + 1
    {
      r := onCycle(cycles);
      cycles := cycles + 1;
    }

    method Recover() returns (r: BringUp)
      modifies this`recovers
      ensures r == onRecover(old(recovers)) && recovers == old(recovers) + 1
    {
      r := onRecover(recovers);
      recovers := recovers + 1;
    }
  }

  // ---- When recovery ends ---------------------------------------------------------------

  /** The recovery after `n` failed attempts is the last: it succeeds, or the budget is spent. */
  ghost predicate EndsAfter(onRecover: nat -> BringUp, from: nat, budget: Option<u32>, n: nat) {
    && (forall k :: from <= k < from + n ==> onRecover(k).BringUpError?)
    && (budget.Some? ==> n <= budget.value)
    && (budget == Some(n) || onRecover(from + n).BroughtUp?)
  }

  ghost predicate SucceedsLater(onRecover: nat -> BringUp, from: nat) {
    exists k: nat :: from <= k && onRecover(k).BroughtUp?
  }

  /** An episode ends exactly when the budget is finite or the bus comes back at some time. */
  lemma RecoveryEndsExactly(onRecover: nat -> BringUp, from: nat, budget: Option<u32>)
    ensures (exists n: nat :: EndsAfter(onRecover, from, budget, n)) <==> budget.Some? || SucceedsLater(onRecover, from)
  {
    if n: nat :| EndsAfter(onRecover, from, budget, n) {
      assert budget.None? ==> from <= from + n && onRecover(from + n).BroughtUp?;
    }
    if budget.Some? {
      var n := FirstSuccess(onRecover, from, budget.value);
      assert EndsAfter(onRecover, from, budget, n);
    } else if SucceedsLater(onRecover, from) {
      var k: nat :| from <= k && onRecover(k).BroughtUp?;
      var n := FirstSuccess(onRecover, from, k - from);
      assert EndsAfter(onRecover, from, budget, n);
    }
  }

  /** The first success within `limit` attempts, or `limit`. */
  lemma {:induction false} FirstSuccess(onRecover: nat -> BringUp, from: nat, limit: nat) returns (n: nat)
    ensures n <= limit && forall k :: from <= k < from + n ==> onRecover(k).BringUpError?
    ensures n < limit ==> onRecover(from + n).BroughtUp?
    decreases limit
  {
    if limit == 0 || onRecover(from).BroughtUp? {
      n := 0;
    } else {
      var m := FirstSuccess(onRecover, from + 1, limit - 1);
      n := m + 1;
    }
  }

  // ---- Runner -------------------------------------------------------------------------

  datatype Verdict = Match | Mismatch(observed: nat, expected: nat)

  function Evaluate(expected: nat, observed: nat): Verdict {
    if observed >= expected then Match else Mismatch(observed, expected)
  }

  datatype CycleReport = CycleReport(cycleIndex: nat, workingCounter: nat, verdict: Verdict)

  /** `tick` reports a cycle, reports nothing, or fails because the policy is exhausted. */
  datatype TickResult = Cycled(report: CycleReport) | Nothing | GaveUp

  /** What one iteration of the dispatcher meets: its time, whether the outbound drain succeeds, and, if a cycle
      is reported, the inbound drops counted so far or a failure to publish. */
  datatype Iteration = Iteration(now: nat, outboundOk: bool, inbound: Inbound)
  datatype Inbound = Published(drops: nat) | PublishError

  /** How one iteration ends. */
  datatype Dispatched = Went | OutboundFailed | InboundFailed | RecoveryFailed

  /** The connector is in operation. */
  predicate Working(h: Health) { h.Up? || h.Degraded? }

  class CycleRunner {
    const driver: BusDriver
    const scheduler: CycleScheduler
    const health: EthercatHealthMonitor
    const policy: Policy
    const budget: Option<u32>
    const draws: nat -> real
    var expectedWkc: nat
    var cycleIndex: nat

    ghost predicate Valid()
      reads this, health
    {
      health.Valid() && PolicyOk(policy) && forall n: nat :: Draw(draws(n))
    }

    constructor (driver: BusDriver, interval: nat, policy: Policy, budget: Option<u32>, draws: nat -> real,
                 health: EthercatHealthMonitor, expectedWkc: nat)
      requires health.Valid() && PolicyOk(policy) && forall n: nat :: Draw(draws(n))
      ensures Valid() && fresh(scheduler) && scheduler.lastTick.None? && scheduler.interval == interval
      ensures this.driver == driver && this.health == health && this.policy == policy && this.budget == budget
      ensures this.expectedWkc == expectedWkc && cycleIndex == 0 && this.draws == draws
    {
      this.driver, this.health, this.policy, this.budget, this.draws := driver, health, policy, budget, draws;
      this.expectedWkc, cycleIndex := expectedWkc, 0;
      scheduler := new CycleScheduler(interval);
    }

    /** Bring the bus up. On failure there is no runner and nothing has changed; otherwise the connector is Up
        if that is legal from where it stood, as it is from the start. */
    static method Start(driver: BusDriver, interval: nat, policy: Policy, budget: Option<u32>, draws: nat -> real,
                        health: EthercatHealthMonitor) returns (r: CycleRunner?)
      requires health.Valid() && PolicyOk(policy) && forall n: nat :: Draw(draws(n))
      modifies health
      ensures health.Valid()
      ensures r == null <==> driver.onBringUp.BringUpError?
      ensures r == null ==> unchanged(health)
      ensures r != null ==> fresh(r) && r.Valid() && r.driver == driver && r.health == health && r.budget == budget
      ensures r != null ==> driver.onBringUp == BroughtUp(r.expectedWkc) && r.cycleIndex == 0
      ensures r != null ==>
                health.current == if IsLegal(old(health.current), Up) then Up else old(health.current)
    {
      match driver.onBringUp {
        case BringUpError(_) => r := null;
        case BroughtUp(wkc) =>
          var _ := health.TransitionTo(Up);
          r := new CycleRunner(driver, interval, policy, budget, draws, health, wkc);
      }
    }

    /** Recovery from here on cannot go on for ever. */
    ghost predicate Ends()
      reads this, driver
    {
      budget.Some? || SucceedsLater(driver.onRecover, driver.recovers)
    }

    /** One recovery episode: recovery is attempted until it succeeds or the budget is spent, with a delay of
        the policy before each attempt. */
    method RecoverPerPolicy(now: nat) returns (ok: bool, slept: real)
      requires Valid() && (health.current.Degraded? || health.current.Down?) && Ends()
      modifies this`expectedWkc, health, driver`recovers
      ensures Valid()
      ensures budget.Some? ==> driver.recovers - old(driver.recovers) <= budget.value
      ensures forall k :: old(driver.recovers) <= k < driver.recovers - (if ok then 1 else 0) ==>
                driver.onRecover(k).BringUpError?
      ensures ok ==> driver.recovers > old(driver.recovers) && health.current.Up?
                     && driver.onRecover(driver.recovers - 1) == BroughtUp(expectedWkc)
      ensures !ok ==> budget == Some(driver.recovers - old(driver.recovers)) && health.current.Down?
                      && expectedWkc == old(expectedWkc)
      ensures !ok && (old(health.current).Degraded? || budget.value > 0) ==> health.current == Down(Exhausted, now)
      ensures driver.recovers >= old(driver.recovers)
      ensures 0.0 <= slept <= Times(policy.max, (driver.recovers - old(driver.recovers)) as real)
    {
      hide IsPath, EndOf, Times, Delay;
      var backoff := new Backoff(policy, budget);
      slept := 0.0;
      TimesUnit(policy.max);
      ghost var n := 0;
      ghost var success: nat := if budget.Some? then 0 else LaterSuccess(driver.onRecover, driver.recovers);
      while true
        invariant Valid() && (health.current.Degraded? || (health.current.Down? && n == 0))
        invariant backoff.policy == policy && backoff.maxAttempts == budget && fresh(backoff)
        invariant budget.Some? ==> backoff.attempts == n && n <= budget.value
        invariant budget.None? ==> driver.recovers <= success && driver.onRecover(success).BroughtUp?
        invariant driver.recovers == old(driver.recovers) + n
        invariant forall k :: old(driver.recovers) <= k < driver.recovers ==> driver.onRecover(k).BringUpError?
        invariant expectedWkc == old(expectedWkc)
        invariant n == 0 ==> health.current == old(health.current)
        invariant 0.0 <= slept <= Times(policy.max, n as real)
        decreases if budget.Some? then budget.value - n else success + 1 - driver.recovers
      {
        var delay := backoff.NextBackoff(draws(driver.recovers));
        if delay.None? {
          var _ := health.TransitionTo(Down(Exhausted, now));
          return false, slept;
        }
        slept := slept + delay.value;
        TimesAdd(policy.max, n as real, 1.0);
        assert (n + 1) as real == n as real + 1.0;
        n := n + 1;
        var up := Attempt(now);
        if up { return true, slept; }
      }
    }

    /** One attempt to bring the bus back, from Degraded or Down. */
    method Attempt(now: nat) returns (up: bool)
      requires Valid() && (health.current.Degraded? || health.current.Down?)
      modifies this`expectedWkc, health, driver`recovers
      ensures Valid() && driver.recovers == old(driver.recovers) + 1
      ensures up <==> driver.onRecover(old(driver.recovers)).BroughtUp?
      ensures up ==> health.current.Up? && driver.onRecover(old(driver.recovers)) == BroughtUp(expectedWkc)
      ensures !up ==> health.current.Degraded? && expectedWkc == old(expectedWkc)
    {
      hide IsPath, EndOf;
      var _ := health.TransitionTo(Connecting(now));
      var r := driver.Recover();
      match r {
        case BroughtUp(wkc) =>
          expectedWkc := wkc;
          var _ := health.TransitionTo(Up);
          return true;
        case BringUpError(code) =>
          var _ := health.TransitionTo(Degraded(RecoverFailed(code)));
          return false;
      }
    }

    method ApplyVerdict(verdict: Verdict)
      requires Valid()
      modifies health
      ensures Valid()
      ensures verdict.Match? ==> health.current == if old(health.current).Down? then old(health.current) else Up
      ensures verdict.Mismatch? ==>
                health.current == if old(health.current).Up? || old(health.current).Connecting?
                                  then Degraded(WkcBelow(cycleIndex, verdict.observed, verdict.expected))
                                  else old(health.current)
    {
      match verdict {
        case Match =>
          if !health.current.Up? { var _ := health.TransitionTo(Up); }
        case Mismatch(observed, expected) =>
          var _ := health.TransitionTo(Degraded(WkcBelow(cycleIndex, observed, expected)));
      }
    }

    /** One tick. A poll that does not fire touches nothing. A cycle that succeeds is reported and numbered. A
        cycle that fails is not; recovery then ends Up with the counter the driver newly reported, or Down. */
    method Tick(now: nat) returns (r: TickResult)
      requires Valid() && Ends()
      modifies this, scheduler, health, driver
      ensures Valid()
      ensures var fire := Fires(scheduler.interval, old(scheduler.lastTick), now);
              && driver.cycles == old(driver.cycles) + (if fire then 1 else 0)
              && scheduler.lastTick == Later(scheduler.interval, old(scheduler.lastTick), now)
              && (!fire ==> r.Nothing? && unchanged(this) && unchanged(health)
                            && driver.recovers == old(driver.recovers))
      ensures Fires(scheduler.interval, old(scheduler.lastTick), now) && driver.onCycle(old(driver.cycles)).Wkc? ==>
                var wkc := driver.onCycle(old(driver.cycles)).value;
                && r.Cycled? && r.report.cycleIndex == old(cycleIndex) && r.report.workingCounter == wkc
                && (r.report.verdict.Match? <==> wkc >= old(expectedWkc))
                && (wkc < old(expectedWkc) ==> r.report.verdict == Mismatch(wkc, old(expectedWkc)))
                && cycleIndex == old(cycleIndex) + 1 && expectedWkc == old(expectedWkc)
                && driver.recovers == old(driver.recovers)
                && (!old(health.current).Down? ==>
                      if wkc >= expectedWkc then health.current.Up? else health.current.Degraded?)
      ensures Fires(scheduler.interval, old(scheduler.lastTick), now)
              && driver.onCycle(old(driver.cycles)).CycleError? ==>
                && cycleIndex == old(cycleIndex)
                && (budget.Some? ==> driver.recovers - old(driver.recovers) <= budget.value)
                && (r.Nothing? || r.GaveUp?)
                && (r.Nothing? ==> health.current.Up? && driver.recovers > old(driver.recovers)
                                   && driver.onRecover(driver.recovers - 1) == BroughtUp(expectedWkc))
                && (r.GaveUp? ==> budget.Some? && health.current.Down? && expectedWkc == old(expectedWkc)
                                  && forall k :: old(driver.recovers) <= k < old(driver.recovers) + budget.value ==>
                                       driver.onRecover(k).BringUpError?)
      ensures old(Working(health.current)) ==>
                if r.GaveUp? then health.current == Down(Exhausted, now) else Working(health.current)
    {
      hide IsPath, EndOf, Times;
      var fire := scheduler.Poll(now);
      if !fire { return Nothing; }
      var outcome := driver.Cycle();
      match outcome {
        case Wkc(wkc) =>
          var verdict := Evaluate(expectedWkc, wkc);
          ApplyVerdict(verdict);
          var report := CycleReport(cycleIndex, wkc, verdict);
          cycleIndex := cycleIndex + 1;
          return Cycled(report);
        case CycleError(code) =>
          var _ := health.TransitionTo(Degraded(CycleFailed(code)));
          var ok, _ := RecoverPerPolicy(now);
          return if ok then Nothing else GaveUp;
      }
    }

    /** However often the bus fails, it comes back at some time, or the budget is finite. */
    ghost predicate AlwaysEnds()
      reads this
    {
      budget.Some? || forall n: nat :: SucceedsLater(driver.onRecover, n)
    }

    /** One iteration of the dispatcher: drain outbound, tick, and publish inbound if a cycle was reported. The
        first of these to fail ends it. */
    method DispatchOneCycle(it: Iteration, threshold: nat) returns (d: Dispatched)
      requires Valid() && AlwaysEnds()
      modifies this, scheduler, health, driver
      ensures Valid()
      ensures d.OutboundFailed? <==> !it.outboundOk
      ensures d.OutboundFailed? ==> unchanged(this) && unchanged(scheduler) && unchanged(health) && unchanged(driver)
      ensures it.outboundOk ==>
                && driver.cycles == old(driver.cycles)
                      + (if Fires(scheduler.interval, old(scheduler.lastTick), it.now) then 1 else 0)
                && scheduler.lastTick == Later(scheduler.interval, old(scheduler.lastTick), it.now)
      ensures d.InboundFailed? ==> it.inbound.PublishError? && cycleIndex == old(cycleIndex) + 1
      ensures old(Working(health.current)) ==>
                if d.RecoveryFailed? then health.current == Down(Exhausted, it.now) else Working(health.current)
    {
      hide IsPath, EndOf;
      if !it.outboundOk { return OutboundFailed; }
      var r := Tick(it.now);
      if r.GaveUp? { return RecoveryFailed; }
      if r.Cycled? {
        if it.inbound.PublishError? { return InboundFailed; }
        var _ := health.RecordInboundDrop(it.inbound.drops, threshold);
      }
      return Went;
    }

    /** The dispatcher's loop until it is told to stop or an iteration fails. After every iteration that does not
        fail in recovery the connector is Up or Degraded, and the bus is cycled as often as the scheduler fires
        at the times of the ticks: at most once, plus once per whole interval. */
    method DispatcherLoop(its: seq<Iteration>, threshold: nat) returns (end: Dispatched, ticks: nat)
      requires Valid() && AlwaysEnds()
      modifies this, scheduler, health, driver
      ensures Valid() && ticks <= |its|
      ensures driver.cycles - old(driver.cycles)
              == Firings(scheduler.interval, old(scheduler.lastTick), TimesOf(its)[..ticks])
      ensures scheduler.interval > 0 && NonDecreasing(TimesOf(its)) && its != [] ==>
                driver.cycles - old(driver.cycles) <= 1 + (its[|its| - 1].now - its[0].now) / scheduler.interval
      ensures end.Went? ==> ticks == |its|
      ensures end.OutboundFailed? ==> ticks < |its| && !its[ticks].outboundOk
      ensures end.InboundFailed? ==> 0 < ticks && its[ticks - 1].inbound.PublishError?
      ensures old(Working(health.current)) ==>
                if end.RecoveryFailed? then health.current.Down? && health.current.why == Exhausted
                else Working(health.current)
    {
      hide IsPath, EndOf, IsLegal;
      end, ticks := Went, 0;
      ghost var times := TimesOf(its);
      while ticks < |its|
        invariant Valid() && ticks <= |its| && end.Went? && (old(Working(health.current)) ==> Working(health.current))
        invariant driver.cycles - old(driver.cycles)
                  == Firings(scheduler.interval, old(scheduler.lastTick), times[..ticks])
        invariant scheduler.lastTick == LastAfter(scheduler.interval, old(scheduler.lastTick), times[..ticks])
      {
        FiringsAppend(scheduler.interval, old(scheduler.lastTick), times[..ticks], times[ticks]);
        assert times[..ticks + 1] == times[..ticks] + [times[ticks]];
        end := DispatchOneCycle(its[ticks], threshold);
        if end.OutboundFailed? { break; }
        ticks := ticks + 1;
        if !end.Went? { break; }
      }
      if scheduler.interval > 0 && NonDecreasing(times) && its != [] {
        PrefixNonDecreasing(times, ticks);
        AtMostOncePerInterval(scheduler.interval, old(scheduler.lastTick), times[..ticks], times[0], times[|its| - 1]);
      }
    }
  }

  function TimesOf(its: seq<Iteration>): (times: seq<nat>)
    ensures |times| == |its| && forall i :: 0 <= i < |its| ==> times[i] == its[i].now
  {
    seq(|its|, i requires 0 <= i < |its| => its[i].now)
  }

  ghost function LaterSuccess(onRecover: nat -> BringUp, from: nat): (k: nat)
    requires SucceedsLater(onRecover, from)
    ensures from <= k && onRecover(k).BroughtUp?
  {
    var k: nat :| from <= k && onRecover(k).BroughtUp?;
    k
  }

  function LastAfter(interval: nat, last: Option<nat>, times: seq<nat>): Option<nat>
    decreases |times|
  {
    if times == [] then last else LastAfter(interval, Later(interval, last, times[0]), times[1..])
  }

  lemma {:induction false} FiringsAppend(interval: nat, last: Option<nat>, times: seq<nat>, now: nat)
    ensures var p := LastAfter(interval, last, times);
            && Firings(interval, last, times + [now])
               == Firings(interval, last, times) + (if Fires(interval, p, now) then 1 else 0)
            && LastAfter(interval, last, times + [now]) == Later(interval, p, now)
    decreases |times|
  {
    if times == [] {
      assert times + [now] == [now];
    } else {
      FiringsAppend(interval, Later(interval, last, times[0]), times[1..], now);
      assert (times + [now])[1..] == times[1..] + [now];
    }
  }
}

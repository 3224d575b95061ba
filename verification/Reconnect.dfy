/** The exponential backoff: its attempt budget, and its delays over real seconds. */
module Reconnect {
  import opened Bytes

  datatype Policy = Policy(initial: real, max: real, growth: real, jitter: real)

  predicate PolicyOk(p: Policy) {
    0.0 <= p.initial <= p.max && 1.0 <= p.growth && 0.0 <= p.jitter <= 1.0
  }

  function RealMin(a: real, b: real): real { if a <= b then a else b }
  function RealMax(a: real, b: real): real { if a <= b then b else a }

  /** The builder clamps what does not make sense. */
  function Build(initial: real, max: real, growth: real, jitter: real): (p: Policy)
    requires initial >= 0.0
    ensures PolicyOk(p) && p.initial == initial
    ensures PolicyOk(Policy(initial, max, growth, jitter)) ==> p == Policy(initial, max, growth, jitter)
  {
    Policy(initial, RealMax(max, initial), RealMax(growth, 1.0), RealMin(RealMax(jitter, 0.0), 1.0))
  }

  // ---- Products -----------------------------------------------------------------------

  /** A product, named so that proofs can use its laws below and leave its value alone. */
  function Times(a: real, b: real): real { a * b }

  lemma TimesUnit(a: real)
    ensures Times(a, 1.0) == a && Times(a, -1.0) == -a && Times(0.0, a) == 0.0 && Times(a, 0.0) == 0.0
  {
  }

  lemma TimesAdd(a: real, x: real, y: real)
    ensures Times(a, x + y) == Times(a, x) + Times(a, y)
  {
  }

  lemma TimesSwap(a: real, b: real)
    ensures Times(a, b) == Times(b, a)
  {
  }

  lemma TimesRegroup(a: real, b: real, c: real)
    ensures Times(a, Times(b, c)) == Times(Times(a, b), c)
  {
  }

  lemma TimesPositive(a: real, b: real)
    ensures a > 0.0 && b > 0.0 ==> Times(a, b) > 0.0
    ensures a >= 0.0 && b >= 0.0 ==> Times(a, b) >= 0.0
  {
  }

  lemma TimesGrows(a: real, x: real, y: real)
    requires a >= 0.0 && x <= y
    ensures Times(a, x) <= Times(a, y)
  {
    hide Times;
    TimesAdd(a, x, y - x);
    assert x + (y - x) == y;
    TimesPositive(a, y - x);
  }

  // ---- Delays -------------------------------------------------------------------------

  function Pow(g: real, n: nat): real { if n == 0 then 1.0 else Times(g, Pow(g, n - 1)) }

  function BaseDelay(p: Policy, attempt: nat): real { RealMin(Times(p.initial, Pow(p.growth, attempt)), p.max) }

  /** The delay for the draw `u` from -1 to 1. */
  function Delay(p: Policy, attempt: nat, u: real): real {
    if p.jitter == 0.0 then BaseDelay(p, attempt) else Jittered(BaseDelay(p, attempt), p.jitter, u, p.max)
  }

  function Jittered(base: real, jitter: real, u: real, max: real): real {
    RealMax(RealMin(Times(base, 1.0 + Times(jitter, u)), max), 0.0)
  }

  predicate Draw(u: real) { -1.0 <= u <= 1.0 }

  lemma {:induction false} PowGrows(g: real, n: nat)
    requires g >= 1.0
    ensures 1.0 <= Pow(g, n) <= Pow(g, n + 1)
  {
    hide Times;
    if n > 0 { PowGrows(g, n - 1); }
    var x := Pow(g, n);
    TimesGrows(x, 1.0, g);
    TimesUnit(x);
    TimesSwap(x, g);
    assert Pow(g, n + 1) == Times(g, x);
  }

  lemma MinGrows(a: real, b: real, m: real)
    requires a <= b
    ensures RealMin(a, m) <= RealMin(b, m) <= m
  {
  }

  /** Without jitter the delays grow from the initial one to the maximum. */
  lemma BaseDelaysGrow(p: Policy, attempt: nat)
    requires PolicyOk(p)
    ensures p.initial <= BaseDelay(p, attempt) <= BaseDelay(p, attempt + 1) <= p.max
  {
    hide Times, Pow;
    PowGrows(p.growth, attempt);
    var x, y := Pow(p.growth, attempt), Pow(p.growth, attempt + 1);
    TimesGrows(p.initial, 1.0, x);
    TimesUnit(p.initial);
    TimesGrows(p.initial, x, y);
    MinGrows(Times(p.initial, x), Times(p.initial, y), p.max);
  }

  /** Every delay, whatever is drawn, lies between nothing and the maximum. */
  lemma DelayInRange(p: Policy, attempt: nat, u: real)
    requires PolicyOk(p)
    ensures 0.0 <= Delay(p, attempt, u) <= p.max
  {
    hide Times, BaseDelay;
    BaseDelaysGrow(p, attempt);
  }

  // ---- The attempt budget ---------------------------------------------------------------

  /** Whether an attempt is still within the budget. */
  predicate Within(maxAttempts: Option<u32>, attempts: u32) { maxAttempts.None? || attempts < maxAttempts.value }

  /** How many of the next `n` calls hand out a delay. */
  function HandedOut(maxAttempts: Option<u32>, attempts: u32, n: nat): nat
    decreases n
  {
    if n == 0 || !Within(maxAttempts, attempts) then 0
    else 1 + HandedOut(maxAttempts, SatAdd32(attempts, 1), n - 1)
  }

  /** The budget is exact: from `attempts` on, what is left of it is handed out and no more. */
  lemma {:induction false} BudgetIsExact(max: u32, attempts: u32, n: nat)
    ensures HandedOut(Some(max), attempts, n) == Min(n, SatSub(max, attempts))
    decreases n
  {
    if n > 0 && attempts < max { BudgetIsExact(max, attempts + 1, n - 1); }
  }

  /** Without a budget every call hands out a delay. */
  lemma {:induction false} UnlimitedNeverEnds(attempts: u32, n: nat)
    ensures HandedOut(None, attempts, n) == n
    decreases n
  {
    if n > 0 { UnlimitedNeverEnds(SatAdd32(attempts, 1), n - 1); }
  }

  class Backoff {
    const policy: Policy
    const maxAttempts: Option<u32>
    var attempts: u32

    constructor (policy: Policy, maxAttempts: Option<u32>)
      ensures this.policy == policy && this.maxAttempts == maxAttempts && attempts == 0
    {
      this.policy, this.maxAttempts, attempts := policy, maxAttempts, 0;
    }

    /** The delay of the current attempt, for the draw `u`; the counter saturates. */
    method NextDelay(u: real) returns (delay: real)
      requires PolicyOk(policy) && Draw(u)
      modifies this
      ensures delay == Delay(policy, old(attempts), u) && 0.0 <= delay <= policy.max
      ensures attempts == SatAdd32(old(attempts), 1)
    {
      DelayInRange(policy, attempts, u);
      hide Times, BaseDelay, RealMin, RealMax;
      var base := BaseDelay(policy, attempts);
      attempts := SatAdd32(attempts, 1);
      if policy.jitter == 0.0 { return base; }
      var factor := 1.0 + Times(policy.jitter, u);
      var raw := Times(base, factor);
      return RealMax(RealMin(raw, policy.max), 0.0);
    }

    /** A delay, until as many as the budget allows have been handed out. */
    method NextBackoff(u: real) returns (delay: Option<real>)
      requires PolicyOk(policy) && Draw(u)
      modifies this
      ensures delay.Some? <==> Within(maxAttempts, old(attempts))
      ensures delay.Some? ==> delay.value == Delay(policy, old(attempts), u) && 0.0 <= delay.value <= policy.max
      ensures attempts == if delay.Some? then SatAdd32(old(attempts), 1) else old(attempts)
    {
      if maxAttempts.Some? && attempts >= maxAttempts.value { return None; }
      var d := NextDelay(u);
      return Some(d);
    }

    /** Start over: the whole budget is available again, and the next delay is the first. */
    method Reset()
      modifies this
      ensures forall n: nat ::
                HandedOut(maxAttempts, attempts, n) == (if maxAttempts.Some? then Min(n, maxAttempts.value) else n)
      ensures forall u :: Delay(policy, attempts, u) == Delay(policy, 0, u)
    {
      attempts := 0;
      forall n: nat
        ensures HandedOut(maxAttempts, attempts, n) == (if maxAttempts.Some? then Min(n, maxAttempts.value) else n)
      {
        if maxAttempts.Some? { BudgetIsExact(maxAttempts.value, 0, n); } else { UnlimitedNeverEnds(0, n); }
      }
    }
  }

  // ---- Jitter against the promise that delays never shrink ----------------------------------

  /** The largest and the smallest delay of an attempt. */
  function Longest(base: real, jitter: real, max: real): real { RealMin(Times(base, 1.0 + jitter), max) }

  function Shortest(base: real, jitter: real): real { Times(base, 1.0 - jitter) }

  lemma Clamped(lo: real, hi: real, max: real)
    requires 0.0 <= lo <= hi && lo <= max
    ensures RealMax(RealMin(hi, max), 0.0) == RealMin(hi, max) && RealMax(RealMin(lo, max), 0.0) == lo
  {
  }

  /** Both ends are drawn. */
  lemma JitteredEnds(base: real, jitter: real, max: real)
    requires 0.0 <= base <= max && 0.0 < jitter <= 1.0
    ensures Jittered(base, jitter, 1.0, max) == Longest(base, jitter, max)
    ensures Jittered(base, jitter, -1.0, max) == Shortest(base, jitter)
  {
    hide Times, RealMin, RealMax;
    TimesUnit(jitter);
    TimesUnit(base);
    TimesPositive(base, 1.0 - jitter);
    TimesGrows(base, 1.0 - jitter, 1.0);
    TimesGrows(base, 1.0 - jitter, 1.0 + jitter);
    Clamped(Times(base, 1.0 - jitter), Times(base, 1.0 + jitter), max);
    assert 1.0 + Times(jitter, -1.0) == 1.0 - jitter;
  }

  /** What the interface promises: no delay is shorter than the one before, whatever is drawn. */
  ghost predicate NeverShrinks(p: Policy) {
    forall n: nat, u, v :: Draw(u) && Draw(v) ==> Delay(p, n, u) <= Delay(p, n + 1, v)
  }

  /** An attempt after which the base delay stays the same lets a later delay be shorter. */
  lemma ShrinksAt(p: Policy, n: nat)
    requires PolicyOk(p) && p.jitter > 0.0 && p.initial > 0.0 && BaseDelay(p, n) == BaseDelay(p, n + 1)
    ensures Delay(p, n, 1.0) > Delay(p, n + 1, -1.0)
  {
    hide Times, BaseDelay, Jittered;
    BaseDelaysGrow(p, n);
    var b := BaseDelay(p, n);
    JitteredEnds(b, p.jitter, p.max);
    TimesPositive(b, p.jitter);
    TimesAdd(b, 1.0, p.jitter);
    TimesAdd(b, 1.0 - p.jitter, p.jitter);
    assert 1.0 - p.jitter + p.jitter == 1.0;
    TimesUnit(b);
  }

  /** Powers grow at least linearly. */
  lemma {:induction false} Bernoulli(g: real, n: nat)
    requires g >= 1.0
    ensures Pow(g, n) >= 1.0 + Times(g - 1.0, n as real)
  {
    hide Times;
    if n == 0 {
      TimesUnit(g - 1.0);
    } else {
      Bernoulli(g, n - 1);
      PowGrows(g, n - 1);
      var x, d := Pow(g, n - 1), g - 1.0;
      TimesSwap(g, x);
      TimesAdd(x, 1.0, d);
      assert 1.0 + d == g;
      TimesUnit(x);
      TimesSwap(x, d);
      TimesGrows(d, 1.0, x);
      TimesUnit(d);
      TimesAdd(d, (n - 1) as real, 1.0);
      assert (n - 1) as real + 1.0 == n as real;
    }
  }

  lemma {:induction false} PowOfOne(n: nat)
    ensures Pow(1.0, n) == 1.0
  {
    hide Times;
    if n > 0 { PowOfOne(n - 1); }
    TimesUnit(1.0);
  }

  /** There is always an attempt from which on the base delay stays the same. */
  lemma BaseSettles(p: Policy) returns (n: nat)
    requires PolicyOk(p) && p.initial > 0.0
    ensures BaseDelay(p, n) == BaseDelay(p, n + 1)
  {
    hide Times, Pow;
    if p.growth == 1.0 {
      n := 0;
      PowOfOne(0);
      PowOfOne(1);
    } else {
      n := EnoughSteps(p.initial, p.growth - 1.0, p.max);
      Bernoulli(p.growth, n);
      PowGrows(p.growth, n);
      var x, y := Pow(p.growth, n), Pow(p.growth, n + 1);
      TimesGrows(p.initial, Times(p.growth - 1.0, n as real), x);
      TimesGrows(p.initial, x, y);
      assert BaseDelay(p, n) == p.max && BaseDelay(p, n + 1) == p.max;
    }
  }

  lemma DividedBack(max: real, c: real)
    requires c > 0.0 && max >= 0.0
    ensures max / c >= 0.0 && Times(c, max / c) == max
  {
  }

  /** Enough steps of `d`, scaled by `a`, exceed any maximum. */
  lemma EnoughSteps(a: real, d: real, max: real) returns (n: nat)
    requires a > 0.0 && d > 0.0 && max >= 0.0
    ensures Times(a, Times(d, n as real)) >= max
  {
    hide Times;
    var c := Times(a, d);
    TimesPositive(a, d);
    DividedBack(max, c);
    var q := max / c;
    n := q.Floor + 1;
    TimesGrows(c, q, n as real);
    TimesRegroup(a, d, n as real);
  }

  /** The promise holds exactly without jitter, or when there is no delay at all. */
  lemma NeverShrinksExactly(p: Policy)
    requires PolicyOk(p)
    ensures NeverShrinks(p) <==> p.jitter == 0.0 || p.initial == 0.0
  {
    if p.jitter == 0.0 {
      forall n: nat, u, v | Draw(u) && Draw(v) ensures Delay(p, n, u) <= Delay(p, n + 1, v) {
        hide BaseDelay;
        BaseDelaysGrow(p, n);
      }
    } else if p.initial == 0.0 {
      hide Delay;
      forall n: nat, u, v | Draw(u) && Draw(v) ensures Delay(p, n, u) <= Delay(p, n + 1, v) {
        NoDelay(p, n, u);
        NoDelay(p, n + 1, v);
      }
    } else {
      hide Delay;
      var n := BaseSettles(p);
      ShrinksAt(p, n);
      assert Draw(1.0) && Draw(-1.0);
      assert Delay(p, n, 1.0) > Delay(p, n + 1, -1.0);
    }
  }

  lemma NoDelay(p: Policy, n: nat, u: real)
    requires PolicyOk(p) && p.initial == 0.0
    ensures Delay(p, n, u) == 0.0
  {
    hide Times, Pow;
    TimesUnit(Pow(p.growth, n));
    assert BaseDelay(p, n) == 0.0;
    TimesUnit(1.0 + Times(p.jitter, u));
  }

  lemma TenDoublings()
    ensures Pow(2.0, 9) == 512.0 && Pow(2.0, 10) == 1024.0
  {
    assert Pow(2.0, 3) == 8.0;
    assert Pow(2.0, 6) == 64.0;
  }

  /** The default policy breaks it: with the maximum of 30 s reached at attempt 9, a delay of 30 s can be
      followed by one of 27 s. */
  lemma DefaultsShrink()
    ensures var p := Build(0.1, 30.0, 2.0, 0.1);
            Delay(p, 9, 1.0) == 30.0 && Delay(p, 10, -1.0) == 27.0
  {
    TenDoublings();
    hide Pow;
    var p := Build(0.1, 30.0, 2.0, 0.1);
    assert BaseDelay(p, 9) == 30.0 && BaseDelay(p, 10) == 30.0;
  }
}

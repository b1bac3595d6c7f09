/** The politeness policy of the parser: a delay that doubles on every block
    (up to a ceiling) and steps back toward its base after a run of
    successes. The delays are exact reals; `HTTPParser` keeps the state. */
module Backoff {

  const BaseDelay: real := 2.0
  const Jitter: real := 0.6
  const BackoffFactor: real := 2.0
  const MaxDelay: real := 60.0
  const SuccessToRelax: nat := 5
  /** Pauses shorter than this are not slept. */
  const MinSleep: real := 0.01

  /** `current_delay` and `_success_streak`. */
  datatype RateState = RateState(delay: real, streak: nat)

  /** The state `__init__` sets. */
  const Initial: RateState := RateState(BaseDelay, 0)

  function Min(a: real, b: real): real { if a <= b then a else b }
  function Max(a: real, b: real): real { if a <= b then b else a }

  /** The update of `_on_block`. */
  function AfterBlock(s: RateState): (t: RateState)
    ensures t.streak == 0
    ensures t.delay <= MaxDelay && t.delay <= s.delay * BackoffFactor
    ensures t.delay == s.delay * BackoffFactor || t.delay == MaxDelay
  {
    RateState(Min(s.delay * BackoffFactor, MaxDelay), 0)
  }

  /** `_on_success` relaxes when the incremented streak reaches the threshold
      and the delay is above the base. */
  predicate Relaxes(s: RateState) {
    s.streak + 1 >= SuccessToRelax && s.delay > BaseDelay
  }

  /** The relax step: a tenth of the way back to the base, never below it. */
  function Relaxed(delay: real): (r: real)
    ensures r >= BaseDelay
    ensures delay > BaseDelay ==> r < delay && r - BaseDelay == 0.9 * (delay - BaseDelay)
  {
    Max(BaseDelay, BaseDelay + 0.9 * (delay - BaseDelay))
  }

  /** The update of `_on_success`. */
  function AfterSuccess(s: RateState): (t: RateState)
    ensures Relaxes(s) ==> t.streak == 0 && BaseDelay <= t.delay < s.delay
    ensures Relaxes(s) ==> t.delay - BaseDelay == 0.9 * (s.delay - BaseDelay)
    ensures !Relaxes(s) ==> t == RateState(s.delay, s.streak + 1)
  {
    if Relaxes(s) then RateState(Relaxed(s.delay), 0) else RateState(s.delay, s.streak + 1)
  }

  /** The pause of `_sleep_with_jitter` for the drawn jitter `j`. */
  function Pause(delay: real, j: real): (p: real)
    ensures p >= 0.0 && p >= delay + j
    ensures p == 0.0 || p == delay + j
  {
    Max(0.0, delay + j)
  }

  /** Whether `_sleep_with_jitter` actually sleeps for pause `p`. */
  predicate Sleeps(p: real) {
    p >= MinSleep
  }

  /** The delay stays between its base and its ceiling. */
  predicate Bounded(s: RateState) {
    BaseDelay <= s.delay <= MaxDelay
  }

  lemma InitialBounded()
    ensures Bounded(Initial) && Initial.streak == 0
  {
  }

  /** Both callbacks keep the delay between base and ceiling. */
  lemma StepsKeepBounded(s: RateState)
    requires Bounded(s)
    ensures Bounded(AfterBlock(s)) && Bounded(AfterSuccess(s))
  {
  }

  /** With the delay in range, every pause is within the jitter of the delay,
      positive, and long enough to be slept. */
  lemma PauseWithinJitter(s: RateState, j: real)
    requires Bounded(s) && -Jitter <= j <= Jitter
    ensures s.delay - Jitter <= Pause(s.delay, j) <= s.delay + Jitter
    ensures Sleeps(Pause(s.delay, j)) && Pause(s.delay, j) <= MaxDelay + Jitter
  {
  }

  function Pow(x: real, k: nat): real {
    if k == 0 then 1.0 else x * Pow(x, k - 1)
  }

  /** The state after `k` blocks in a row. */
  function Blocks(s: RateState, k: nat): RateState {
    if k == 0 then s else AfterBlock(Blocks(s, k - 1))
  }

  lemma {:induction false} PowPositive(x: real, k: nat)
    requires x > 0.0
    ensures Pow(x, k) > 0.0
  {
    if k > 0 {
      PowPositive(x, k - 1);
    }
  }

  /** `d` doubled `k` times, `d * 2^k`. */
  function Doubled(d: real, k: nat): real {
    if k == 0 then d else BackoffFactor * Doubled(d, k - 1)
  }

  /** After `k` blocks in a row the delay is the old one doubled `k` times,
      capped at the ceiling, and the streak is reset. */
  lemma {:induction false} BlockRun(s: RateState, k: nat)
    requires 0.0 <= s.delay <= MaxDelay
    ensures Blocks(s, k).delay == Min(Doubled(s.delay, k), MaxDelay)
    ensures Doubled(s.delay, k) >= s.delay
    ensures k > 0 ==> Blocks(s, k).streak == 0
  {
    if k > 0 {
      BlockRun(s, k - 1);
    }
  }

  /** `k` relax steps in a row. */
  function RelaxedTimes(delay: real, k: nat): real {
    if k == 0 then delay else Relaxed(RelaxedTimes(delay, k - 1))
  }

  /** Each relax step keeps nine tenths of the distance to the base: after
      `k` of them the excess over the base is `0.9^k` of what it was. */
  lemma {:induction false} RelaxRun(delay: real, k: nat)
    requires delay >= BaseDelay
    ensures RelaxedTimes(delay, k) - BaseDelay == Pow(0.9, k) * (delay - BaseDelay)
    ensures RelaxedTimes(delay, k) >= BaseDelay
  {
    if k > 0 {
      RelaxRun(delay, k - 1);
      PowPositive(0.9, k - 1);
      var e := Pow(0.9, k - 1) * (delay - BaseDelay);
      assert e >= 0.0;
      assert Pow(0.9, k) * (delay - BaseDelay) == 0.9 * e;
    }
  }

  /** The state after `k` successes in a row. */
  function Successes(s: RateState, k: nat): RateState {
    if k == 0 then s else AfterSuccess(Successes(s, k - 1))
  }

  /** From a fresh streak and a raised delay, four successes leave the delay
      alone and the fifth relaxes it and resets the streak. */
  lemma FifthSuccessRelaxes(d: real)
    requires d > BaseDelay
    ensures forall k :: 0 <= k < SuccessToRelax ==> Successes(RateState(d, 0), k) == RateState(d, k)
    ensures Successes(RateState(d, 0), SuccessToRelax) == RateState(Relaxed(d), 0)
  {
    var s := RateState(d, 0);
    assert Successes(s, 1) == RateState(d, 1);
    assert Successes(s, 2) == RateState(d, 2);
    assert Successes(s, 3) == RateState(d, 3);
    assert Successes(s, 4) == RateState(d, 4);
  }

  /** At the base delay no run of successes changes the delay. */
  lemma {:induction false} SuccessesAtBase(s: RateState, k: nat)
    requires s.delay == BaseDelay
    ensures Successes(s, k) == RateState(BaseDelay, s.streak + k)
  {
    if k > 0 {
      SuccessesAtBase(s, k - 1);
    }
  }
}

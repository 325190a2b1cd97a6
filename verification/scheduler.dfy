/** The fixed-step accumulator of `frame` in assets/stage1.js: elapsed milliseconds are added
    to a residual, the residual is capped at 250 ms, and the sand is stepped once per whole
    1000/60 ms in it. Time is an exact real here. */
module Scheduler {

  /** The simulation period, 1000/60 ms (60 Hz). */
  const StepDt: real := 1000.0 / 60.0

  /** The residual is never allowed above 250 ms, bounding the catch-up after a stall. */
  const AccCap: real := 250.0

  /** The most steps one frame can run: floor(250 / (1000/60)). */
  const MaxSteps: nat := 15

  /** The time n steps consume. */
  function Consumed(n: nat): (c: real)
    ensures 0.0 <= c
  {
    n as real * StepDt
  }

  /** One more step consumes one more period. */
  lemma ConsumedNext(n: nat)
    ensures Consumed(n + 1) == Consumed(n) + StepDt
  {
  }

  /** No more than 15 steps fit in the capped residual. */
  lemma ConsumedWithinCap(n: nat)
    requires Consumed(n) <= AccCap
    ensures n <= MaxSteps
  {
  }

  /** `if (acc > 250) acc = 250`. */
  function Capped(acc: real): (r: real)
    ensures r <= AccCap
    ensures acc <= AccCap ==> r == acc
    ensures AccCap < acc ==> r == AccCap
  {
    if acc > AccCap then AccCap else acc
  }

  /** How many times `while (acc >= stepDt)` runs on a residual a: the number of whole
      periods in a. */
  function StepsFor(a: real): nat
  {
    if a < 0.0 then 0 else (a / StepDt).Floor
  }

  /** The step count is the largest n with n periods fitting in the residual, so the
      residual left over is in [0, StepDt). */
  lemma StepsForFits(a: real)
    requires 0.0 <= a
    ensures Consumed(StepsFor(a)) <= a < Consumed(StepsFor(a) + 1)
    ensures 0.0 <= a - Consumed(StepsFor(a)) < StepDt
  {
    var n := StepsFor(a);
    assert n as real <= a / StepDt < n as real + 1.0;
  }

  /** A count n that leaves a residual in [0, StepDt) is the step count of the loop. */
  lemma StepsForUnique(a: real, n: nat)
    requires 0.0 <= a - Consumed(n) < StepDt
    ensures StepsFor(a) == n
  {
    StepsForFits(a);
  }

  /** Whatever the elapsed time, one frame runs at most floor(250 / StepDt) = 15 steps,
      exactly that many after a stall of 250 ms or more, and none when the clock ran
      backwards past the residual. */
  lemma CatchUpBounded(acc: real, dt: real)
    ensures StepsFor(Capped(acc + dt)) <= MaxSteps
    ensures MaxSteps == (AccCap / StepDt).Floor
    ensures AccCap <= acc + dt ==> StepsFor(Capped(acc + dt)) == MaxSteps
    ensures acc + dt < 0.0 ==> StepsFor(Capped(acc + dt)) == 0
    ensures 0.0 <= acc + dt ==> 0.0 <= Capped(acc + dt) - Consumed(StepsFor(Capped(acc + dt))) < StepDt
  {
    if 0.0 <= acc + dt {
      StepsForFits(Capped(acc + dt));
    }
    assert AccCap / StepDt == 15.0;
  }

  /** From an empty residual, exactly one period of elapsed time runs exactly one step and
      leaves nothing over. */
  lemma OnePeriodOneStep()
    ensures StepsFor(Capped(0.0 + StepDt)) == 1
    ensures Capped(0.0 + StepDt) - Consumed(1) == 0.0
  {
  }
}

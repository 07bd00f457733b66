/**
 * The counting structure of `escapes`. The complex step z := z*z + c and the test of
 * the new real part for infinity or NaN are abstracted into `diverged(i)`: whether the
 * test fires after step `i` of the orbit. What remains is the bounded loop, the early
 * exit and the choice of the returned value.
 */
module EscapeTime {
  /** The loop bound of `escapes`. */
  const MAX_STEPS: nat := 256

  /** What `escapes` returns when the test is first consulted at step `from`. */
  function CountFrom(diverged: nat -> bool, from: nat): (r: nat)
    requires from <= MAX_STEPS
    decreases MAX_STEPS - from
  {
    if from == MAX_STEPS then 0
    else if diverged(from) then from
    else CountFrom(diverged, from + 1)
  }

  /** The value `escapes` returns for an orbit whose divergence test is `diverged`. */
  function EscapeCount(diverged: nat -> bool): nat
  {
    CountFrom(diverged, 0)
  }

  /** Whether the divergence test fires at some step the loop reaches. */
  predicate EverDiverges(diverged: nat -> bool)
  {
    exists i: nat :: i < MAX_STEPS && diverged(i)
  }

  lemma {:induction false} CountFromSpec(diverged: nat -> bool, from: nat)
    requires from <= MAX_STEPS
    requires forall j: nat :: j < from ==> !diverged(j)
    ensures var r := CountFrom(diverged, from);
      r < MAX_STEPS &&
      (if EverDiverges(diverged) then diverged(r) && forall j: nat :: j < r ==> !diverged(j) else r == 0)
    decreases MAX_STEPS - from
  {
    if from == MAX_STEPS {
      assert !EverDiverges(diverged);
    } else if !diverged(from) {
      CountFromSpec(diverged, from + 1);
    }
  }

  /**
   * The result lies in [0, 255]; it is the least step at which the test fires when
   * there is one, and 0 when the orbit never diverges within the bound.
   */
  lemma EscapeCountSpec(diverged: nat -> bool)
    ensures EscapeCount(diverged) < MAX_STEPS
    ensures EverDiverges(diverged) ==>
      diverged(EscapeCount(diverged)) && forall j: nat :: j < EscapeCount(diverged) ==> !diverged(j)
    ensures !EverDiverges(diverged) ==> EscapeCount(diverged) == 0
  {
    CountFromSpec(diverged, 0);
  }

  /** A result of 0 means either "diverged at step 0" or "never diverged": the two cannot be told apart. */
  lemma ZeroIsAmbiguous(diverged: nat -> bool)
    ensures EscapeCount(diverged) == 0 <==> diverged(0) || !EverDiverges(diverged)
  {
    EscapeCountSpec(diverged);
  }

  /** Two concrete orbits, one diverging at once and one never, that `escapes` reports alike. */
  lemma ZeroConflation()
    ensures EscapeCount(i => i == 0) == EscapeCount(i => false) == 0
    ensures (i => i == 0)(0) && !EverDiverges(i => false)
  {
    EscapeCountSpec(i => false);
  }

  /**
   * The loop of `escapes`: at most 256 steps, leaving at the first step whose test
   * fires and returning that step's index, otherwise returning the initial 0.
   * `iterations` counts the loop bodies executed.
   */
  method Escapes(diverged: nat -> bool) returns (steps: int, ghost iterations: nat)
    ensures steps == EscapeCount(diverged)
    ensures 0 <= steps < MAX_STEPS
    ensures iterations <= MAX_STEPS
    ensures iterations == if EverDiverges(diverged) then steps + 1 else MAX_STEPS
  {
    steps := 0;
    iterations := 0;
    var i := 0;
    while i < MAX_STEPS
      invariant 0 <= i <= MAX_STEPS
      invariant steps == 0 && iterations == i
      invariant forall j: nat :: j < i ==> !diverged(j)
      invariant CountFrom(diverged, i) == EscapeCount(diverged)
    {
      // the complex step and the update of zr and zi are abstracted into diverged(i)
      iterations := iterations + 1;
      if diverged(i) {
        steps := i;
        break;
      }
      i := i + 1;
    }
    EscapeCountSpec(diverged);
  }
}

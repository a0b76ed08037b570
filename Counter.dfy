/**
 * The number counters of the "why us" section (`animateCounters`). Each
 * counter climbs from 0 towards its `data-target` in steps of
 * `ceil(target / 100)`, one step per 15 ms timer tick, and is marked
 * `animated` so that a second trigger leaves it alone. The timer is not
 * wall-clock: one loop iteration is one tick.
 */
module Counter {

  /** `Math.ceil(target / 100)` for an integer target. */
  function Increment(target: int): (inc: int)
    ensures 100 * (inc - 1) < target <= 100 * inc
  {
    -((-target) / 100)
  }

  /** A positive target gives a positive increment, so every tick makes progress. */
  lemma IncrementPositive(target: int)
    requires target > 0
    ensures 1 <= Increment(target) <= target
  {
  }

  /** What one tick writes while the display is below the target: `Math.min(current + increment, target)`. */
  function Step(current: int, target: int): (next: int)
    ensures next <= target
    ensures next == target || next == current + Increment(target)
    ensures 0 <= current < target ==> current < next
  {
    if current + Increment(target) < target then current + Increment(target) else target
  }

  /** The values the ticks write, starting from a display of `current`, until the target is reached. */
  function Climb(current: nat, target: int): (values: seq<int>)
    ensures values == [] <==> target <= current
    decreases target - current
  {
    if current < target then
      IncrementPositive(target);
      [Step(current, target)] + Climb(Step(current, target), target)
    else []
  }

  /**
   * Everything written to the counter's text: the initial `'0'`, the climb,
   * and the final `target.toLocaleString()` (digit grouping left out).
   */
  function Frames(target: int): (frames: seq<int>)
    ensures |frames| >= 2 && frames[0] == 0 && frames[|frames| - 1] == target
  {
    [0] + Climb(0, target) + [target]
  }

  /** Every value of the climb lies strictly above where it started and never exceeds the target. */
  lemma {:induction false} ClimbBounded(current: nat, target: int)
    ensures forall i :: 0 <= i < |Climb(current, target)| ==> current < Climb(current, target)[i] <= target
    decreases target - current
  {
    if current < target {
      IncrementPositive(target);
      ClimbBounded(Step(current, target), target);
    }
  }

  /** Below the target the climb is not empty and its last value is exactly the target. */
  lemma {:induction false} ClimbEndsAtTarget(current: nat, target: int)
    requires current < target
    ensures |Climb(current, target)| > 0
    ensures Climb(current, target)[|Climb(current, target)| - 1] == target
    decreases target - current
  {
    IncrementPositive(target);
    var next := Step(current, target);
    if next < target {
      ClimbEndsAtTarget(next, target);
    }
  }

  /**
   * The climb rises strictly, by at most `ceil(target / 100)` per tick, and
   * by exactly that much on every tick but the last, where `min` clamps it
   * to the target.
   */
  lemma {:induction false} ClimbSteps(current: nat, target: int)
    ensures forall i :: 0 < i < |Climb(current, target)| ==>
      Climb(current, target)[i - 1] < Climb(current, target)[i] <= Climb(current, target)[i - 1] + Increment(target)
    ensures forall i :: 0 < i < |Climb(current, target)| - 1 ==>
      Climb(current, target)[i] == Climb(current, target)[i - 1] + Increment(target)
    ensures |Climb(current, target)| > 0 ==>
      Climb(current, target)[0] == (if current + Increment(target) < target then current + Increment(target) else target)
    decreases target - current
  {
    if current < target {
      IncrementPositive(target);
      var next := Step(current, target);
      ClimbSteps(next, target);
      var rest := Climb(next, target);
      assert Climb(current, target) == [next] + rest;
      if next == target {
        assert rest == [];
      } else {
        assert rest[0] == Step(next, target);
        if Step(next, target) == target {
          assert Climb(target, target) == [];
          assert |rest| == 1;
        }
      }
    }
  }

  /** The climb from `current` takes `k` ticks, with `(k - 1)` full increments still short of the target. */
  lemma {:induction false} ClimbLength(current: nat, target: int)
    requires current < target
    ensures (|Climb(current, target)| - 1) * Increment(target) < target - current
    decreases target - current
  {
    IncrementPositive(target);
    var next := Step(current, target);
    if next < target {
      ClimbLength(next, target);
      var k := |Climb(next, target)|;
      assert |Climb(current, target)| - 1 == k;
      assert k * Increment(target) == (k - 1) * Increment(target) + Increment(target);
    }
  }

  /** From 0 the animation is over after at most 100 ticks, whatever the target. */
  lemma AtMostHundredTicks(target: int)
    ensures |Climb(0, target)| <= 100
  {
    if 0 < target {
      ClimbLength(0, target);
    }
  }

  /**
   * One counter's animation, one loop iteration per 15 ms tick: the text is
   * set to `'0'`, each tick that finds it below the target writes
   * `min(current + increment, target)`, and the tick that finds it at or
   * above the target writes the target. Returns every value written.
   */
  method Run(target: int) returns (frames: seq<int>)
    ensures frames == Frames(target)
    ensures frames[0] == 0 && frames[|frames| - 1] == target
    ensures forall i :: 0 <= i < |frames| ==> frames[i] <= if target < 0 then 0 else target
    ensures target > 0 ==> frames[|frames| - 2] == target
  {
    frames := [0];
    var shown: nat := 0;
    while shown < target
      invariant frames + Climb(shown, target) == [0] + Climb(0, target)
      decreases target - shown
    {
      IncrementPositive(target);
      var next := Step(shown, target);
      assert Climb(shown, target) == [next] + Climb(next, target);
      frames := frames + [next];
      shown := next;
    }
    frames := frames + [target];
    ClimbBounded(0, target);
    if target > 0 {
      ClimbEndsAtTarget(0, target);
    }
  }

  /** A `.number` element of the section. */
  class CounterElement {
    /** `+counter.dataset.target`. */
    const target: int
    /** `counter.dataset.animated`: set once the animation has started. */
    var animated: bool
    /** The number shown by `counter.innerText`. */
    var shown: int

    constructor (target: int, shown: int)
      ensures this.target == target && this.shown == shown && !animated
    {
      this.target := target;
      this.shown := shown;
      animated := false;
    }

    /** The body of the `forEach` callback: a counter already animated is left as it is. */
    method Animate()
      modifies this
      ensures animated
      ensures old(animated) ==> shown == old(shown)
      ensures !old(animated) ==> shown == target
    {
      if animated {
        return;
      }
      animated := true;
      var frames := Run(target);
      shown := frames[|frames| - 1];
    }
  }

  /**
   * `animateCounters(section)`: every counter ends up marked and those not
   * marked before show their target; a counter listed twice is animated once.
   */
  method AnimateCounters(counters: seq<CounterElement>)
    modifies set c | c in counters
    ensures forall c :: c in counters ==> c.animated
    ensures forall c :: c in counters && old(c.animated) ==> c.shown == old(c.shown)
    ensures forall c :: c in counters && !old(c.animated) ==> c.shown == c.target
  {
    var i := 0;
    while i < |counters|
      invariant 0 <= i <= |counters|
      invariant forall c :: c in counters[..i] ==> c.animated
      invariant forall c :: c in counters && old(c.animated) ==> c.shown == old(c.shown)
      invariant forall c :: c in counters[..i] && !old(c.animated) ==> c.shown == c.target
      invariant forall c :: c in counters && c !in counters[..i] ==> c.animated == old(c.animated) && c.shown == old(c.shown)
    {
      counters[i].Animate();
      assert counters[..i + 1] == counters[..i] + [counters[i]];
      i := i + 1;
    }
    assert counters[..i] == counters;
  }
}

/**
 * The per-frame step rule of SmoothScroll.start: the halting test and the
 * choice of the next scroll offset, as pure functions of the current offset,
 * the step size and the target offset. Offsets are pixels, modelled as `real`
 * (the source's `number`), so the source's one-pixel rounding tolerance is kept.
 */
module ScrollStep {

  /** Absolute distance between two offsets (`Math.abs(a - b)`). */
  function Distance(a: real, b: real): (d: real)
    ensures d >= 0.0
    ensures d == 0.0 <==> a == b
  {
    if a >= b then a - b else b - a
  }

  /**
   * The halting test: an offset within one pixel of the target counts as
   * arrived, that is, it lies strictly inside the open interval of width two
   * centred on the target.
   */
  predicate Arrived(current: real, finalPos: real): (arrived: bool)
    ensures arrived <==> finalPos - 1.0 < current < finalPos + 1.0
  {
    Distance(current, finalPos) < 1.0
  }

  /**
   * The step rule: move `scrollSize` pixels toward `finalPos`, or jump onto
   * `finalPos` when it is nearer than `scrollSize`.
   */
  function NextOffset(current: real, scrollSize: real, finalPos: real): (next: real)
    ensures Distance(current, finalPos) < scrollSize ==> next == finalPos
    ensures 0.0 <= scrollSize <= Distance(current, finalPos) ==>
              Distance(next, current) == scrollSize &&
              Distance(next, finalPos) == Distance(current, finalPos) - scrollSize
  {
    if finalPos > current then
      (if Distance(finalPos, current) < scrollSize then finalPos else current + scrollSize)
    else
      (if Distance(finalPos, current) < scrollSize then finalPos else current - scrollSize)
  }

  /** `x` lies between `a` and `b`, inclusive, whichever of them is smaller. */
  predicate Between(a: real, x: real, b: real)
  {
    (a <= x <= b) || (b <= x <= a)
  }

  /** Target ahead: jump onto it when nearer than one step, else advance one step. */
  lemma StepForward(current: real, scrollSize: real, finalPos: real)
    requires finalPos > current
    ensures finalPos - current < scrollSize ==> NextOffset(current, scrollSize, finalPos) == finalPos
    ensures finalPos - current >= scrollSize ==> NextOffset(current, scrollSize, finalPos) == current + scrollSize
  {
  }

  /** Target behind (or level): jump onto it when nearer than one step, else go back one step. */
  lemma StepBackward(current: real, scrollSize: real, finalPos: real)
    requires finalPos <= current
    ensures current - finalPos < scrollSize ==> NextOffset(current, scrollSize, finalPos) == finalPos
    ensures current - finalPos >= scrollSize ==> NextOffset(current, scrollSize, finalPos) == current - scrollSize
  {
  }

  /** One step never overshoots: the next offset lies between the current one and the target. */
  lemma StepBetween(current: real, scrollSize: real, finalPos: real)
    requires scrollSize > 0.0
    ensures Between(current, NextOffset(current, scrollSize, finalPos), finalPos)
  {
  }

  /**
   * A step that is taken (the halting test failed) moves the offset, lands on the
   * target or cuts the distance by exactly `scrollSize`, so the distance strictly shrinks.
   */
  lemma StepApproaches(current: real, scrollSize: real, finalPos: real)
    requires scrollSize > 0.0
    requires !Arrived(current, finalPos)
    ensures var next := NextOffset(current, scrollSize, finalPos);
            && next != current
            && (next == finalPos || Distance(next, finalPos) == Distance(current, finalPos) - scrollSize)
            && Distance(next, finalPos) < Distance(current, finalPos)
  {
  }

  /**
   * Termination measure of the animation: zero once arrived, and otherwise one
   * more than the number of whole steps that fit in the distance. It bounds the
   * number of frames still to come (`RunWithinMeasure`).
   */
  function Measure(current: real, scrollSize: real, finalPos: real): (m: nat)
    requires scrollSize > 0.0
    ensures m == 0 <==> Arrived(current, finalPos)
  {
    if Arrived(current, finalPos) then 0 else WholeSteps(Distance(current, finalPos), scrollSize) + 1
  }

  /** How many whole steps of `scrollSize` fit in `distance` (`WholeStepsBounds`). */
  function WholeSteps(distance: real, scrollSize: real): (n: nat)
    requires distance >= 0.0 && scrollSize > 0.0
  {
    var q := distance / scrollSize;
    q.Floor
  }

  /** `WholeSteps` steps fit in the distance, and one more step does not. */
  lemma WholeStepsBounds(distance: real, scrollSize: real)
    requires distance >= 0.0 && scrollSize > 0.0
    ensures var n := WholeSteps(distance, scrollSize);
            n as real * scrollSize <= distance < (n + 1) as real * scrollSize
  {
    var q := distance / scrollSize;
    assert q * scrollSize == distance;
    var n := q.Floor;
    assert n == WholeSteps(distance, scrollSize);
    var m := (n + 1) as real;
    assert n as real <= q < m;
    ScaleLe(n as real, q, scrollSize);
    ScaleLt(q, m, scrollSize);
    assert distance < (WholeSteps(distance, scrollSize) + 1) as real * scrollSize;
  }

  /** Multiplying by a positive factor keeps a non-strict order. */
  lemma ScaleLe(a: real, b: real, s: real)
    requires a <= b && s > 0.0
    ensures a * s <= b * s
  {
    assert b * s - a * s == (b - a) * s;
  }

  /** Multiplying by a positive factor keeps a strict order. */
  lemma ScaleLt(a: real, b: real, s: real)
    requires a < b && s > 0.0
    ensures a * s < b * s
  {
    assert b * s - a * s == (b - a) * s;
  }

  /** Each frame that is taken strictly lowers the measure: the animation terminates. */
  lemma StepDecreasesMeasure(current: real, scrollSize: real, finalPos: real)
    requires scrollSize > 0.0
    requires !Arrived(current, finalPos)
    ensures Measure(NextOffset(current, scrollSize, finalPos), scrollSize, finalPos)
            < Measure(current, scrollSize, finalPos)
  {
    var d := Distance(current, finalPos);
    var next := NextOffset(current, scrollSize, finalPos);
    if d >= scrollSize && !Arrived(next, finalPos) {
      QuotientLessOne(d, scrollSize);
      assert (d / scrollSize - 1.0).Floor == (d / scrollSize).Floor - 1;
    }
  }

  /** Taking one step off the distance takes one off the number of steps it holds. */
  lemma QuotientLessOne(d: real, s: real)
    requires s > 0.0
    ensures (d - s) / s == d / s - 1.0
  {
    var q := d / s;
    assert q * s == d;
    var q' := (d - s) / s;
    assert q' * s == d - s;
    assert (q' - q + 1.0) * s == 0.0;
    ProductZero(q' - q + 1.0, s);
  }

  /** A product with a positive factor vanishes only when the other factor does. */
  lemma ProductZero(e: real, s: real)
    requires s > 0.0 && e * s == 0.0
    ensures e == 0.0
  {
  }
}

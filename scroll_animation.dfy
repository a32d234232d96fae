/**
 * The animation driver of SmoothScroll.start. The source re-enters `start`
 * once per animation frame; here each frame is one iteration of a loop over a
 * container whose scroll offset is a mutable field. `Run` is the specification
 * of a whole animation: the offsets written to the container, frame by frame.
 */
module ScrollAnimation {
  import opened ScrollStep

  /**
   * The offsets written to the container, one per frame, when the animation
   * starts at `current`: empty when the halting test passes at once, otherwise
   * the step rule's offset followed by the run from there.
   */
  function Run(current: real, scrollSize: real, finalPos: real): (offsets: seq<real>)
    requires scrollSize > 0.0
    ensures offsets == [] <==> Arrived(current, finalPos)
    ensures offsets != [] ==> Arrived(offsets[|offsets| - 1], finalPos)
    decreases Measure(current, scrollSize, finalPos)
  {
    if Arrived(current, finalPos) then []
    else
      var next := NextOffset(current, scrollSize, finalPos);
      StepDecreasesMeasure(current, scrollSize, finalPos);
      [next] + Run(next, scrollSize, finalPos)
  }

  /** Every offset lies between `start` and `finalPos` and is strictly nearer `finalPos` than `start`. */
  predicate StaysBetween(offsets: seq<real>, start: real, finalPos: real)
  {
    forall i :: 0 <= i < |offsets| ==>
      Between(start, offsets[i], finalPos) && Distance(offsets[i], finalPos) < Distance(start, finalPos)
  }

  /**
   * No offset written overshoots: each lies between the start and the target,
   * and is strictly nearer the target than the start.
   */
  lemma {:induction false} RunStaysBetween(current: real, scrollSize: real, finalPos: real)
    requires scrollSize > 0.0
    ensures StaysBetween(Run(current, scrollSize, finalPos), current, finalPos)
    decreases Measure(current, scrollSize, finalPos)
  {
    if !Arrived(current, finalPos) {
      var next := NextOffset(current, scrollSize, finalPos);
      StepDecreasesMeasure(current, scrollSize, finalPos);
      StepBetween(current, scrollSize, finalPos);
      StepApproaches(current, scrollSize, finalPos);
      RunStaysBetween(next, scrollSize, finalPos);
      var rest := Run(next, scrollSize, finalPos);
      assert Run(current, scrollSize, finalPos) == [next] + rest;
      forall i | 0 <= i < |rest|
        ensures Between(current, rest[i], finalPos)
        ensures Distance(rest[i], finalPos) < Distance(current, finalPos)
      {
        assert Between(next, rest[i], finalPos);
      }
      assert StaysBetween([next] + rest, current, finalPos) by {
        forall i | 0 <= i < |[next] + rest|
          ensures Between(current, ([next] + rest)[i], finalPos)
          ensures Distance(([next] + rest)[i], finalPos) < Distance(current, finalPos)
        {
          if i > 0 {
            assert ([next] + rest)[i] == rest[i - 1];
          }
        }
      }
    }
  }

  /** The offset the container is left at when the animation halts. */
  function Settle(current: real, scrollSize: real, finalPos: real): (last: real)
    requires scrollSize > 0.0
    ensures Arrived(last, finalPos)
    ensures Arrived(current, finalPos) ==> last == current
    ensures Between(current, last, finalPos)
  {
    var offsets := Run(current, scrollSize, finalPos);
    RunStaysBetween(current, scrollSize, finalPos);
    if offsets == [] then current
    else
      assert Between(current, offsets[|offsets| - 1], finalPos);
      offsets[|offsets| - 1]
  }

  /**
   * The container is left at the last offset written, or where it started if
   * nothing was written. This unfolds `Settle` once, so that `AnimationOutcome`
   * can use the fact without unfolding `Settle` itself.
   */
  lemma SettleIsLastFrame(current: real, scrollSize: real, finalPos: real)
    requires scrollSize > 0.0
    ensures var offsets := Run(current, scrollSize, finalPos);
            Settle(current, scrollSize, finalPos) == if offsets == [] then current else offsets[|offsets| - 1]
  {
  }

  /**
   * Each frame applies the step rule to the offset it reads back from the
   * container, which is the offset written by the frame before it, and every
   * frame but the last one leaves the halting test failing.
   */
  lemma {:induction false} RunFollowsStepRule(current: real, scrollSize: real, finalPos: real)
    requires scrollSize > 0.0
    ensures var offsets := Run(current, scrollSize, finalPos);
            && (offsets != [] ==> offsets[0] == NextOffset(current, scrollSize, finalPos))
            && (forall i :: 0 <= i < |offsets| - 1 ==>
                  !Arrived(offsets[i], finalPos) &&
                  offsets[i + 1] == NextOffset(offsets[i], scrollSize, finalPos))
    decreases Measure(current, scrollSize, finalPos)
  {
    if !Arrived(current, finalPos) {
      var next := NextOffset(current, scrollSize, finalPos);
      StepDecreasesMeasure(current, scrollSize, finalPos);
      RunFollowsStepRule(next, scrollSize, finalPos);
      var rest := Run(next, scrollSize, finalPos);
      assert Run(current, scrollSize, finalPos) == [next] + rest;
      forall i | 0 <= i < |rest|
        ensures !Arrived(([next] + rest)[i], finalPos)
        ensures ([next] + rest)[i + 1] == NextOffset(([next] + rest)[i], scrollSize, finalPos)
      {
        if i > 0 {
          assert ([next] + rest)[i] == rest[i - 1];
        }
      }
    }
  }

  /** Every offset in `offsets` is strictly nearer to `finalPos` than each one before it. */
  predicate StrictlyApproaching(offsets: seq<real>, finalPos: real)
  {
    forall i, j :: 0 <= i < j < |offsets| ==> Distance(offsets[j], finalPos) < Distance(offsets[i], finalPos)
  }

  /** `offsets` strictly increases. */
  predicate StrictlyIncreasing(offsets: seq<real>)
  {
    forall i, j :: 0 <= i < j < |offsets| ==> offsets[i] < offsets[j]
  }

  /** `offsets` strictly decreases. */
  predicate StrictlyDecreasing(offsets: seq<real>)
  {
    forall i, j :: 0 <= i < j < |offsets| ==> offsets[i] > offsets[j]
  }

  /**
   * Successive offsets move strictly closer to the target: every offset
   * written is nearer the target than each one written before it.
   */
  lemma {:induction false} RunApproaches(current: real, scrollSize: real, finalPos: real)
    requires scrollSize > 0.0
    ensures StrictlyApproaching(Run(current, scrollSize, finalPos), finalPos)
    decreases Measure(current, scrollSize, finalPos)
  {
    if !Arrived(current, finalPos) {
      var next := NextOffset(current, scrollSize, finalPos);
      StepDecreasesMeasure(current, scrollSize, finalPos);
      RunApproaches(next, scrollSize, finalPos);
      RunStaysBetween(next, scrollSize, finalPos);
      var rest := Run(next, scrollSize, finalPos);
      var offsets := [next] + rest;
      assert Run(current, scrollSize, finalPos) == offsets;
      forall i, j | 0 <= i < j < |offsets|
        ensures Distance(offsets[j], finalPos) < Distance(offsets[i], finalPos)
      {
        assert offsets[j] == rest[j - 1];
        if i > 0 {
          assert offsets[i] == rest[i - 1];
          assert Distance(rest[j - 1], finalPos) < Distance(rest[i - 1], finalPos);
        } else {
          assert Distance(rest[j - 1], finalPos) < Distance(next, finalPos);
        }
      }
    }
  }

  /**
   * Target above the starting offset: every offset written lies above the start
   * and at most at the target, and successive offsets strictly increase.
   */
  lemma {:induction false} RunAscends(current: real, scrollSize: real, finalPos: real)
    requires scrollSize > 0.0
    requires finalPos > current
    ensures var offsets := Run(current, scrollSize, finalPos);
            && (forall i :: 0 <= i < |offsets| ==> current < offsets[i] <= finalPos)
            && StrictlyIncreasing(offsets)
    decreases Measure(current, scrollSize, finalPos)
  {
    if !Arrived(current, finalPos) {
      var next := NextOffset(current, scrollSize, finalPos);
      StepDecreasesMeasure(current, scrollSize, finalPos);
      StepApproaches(current, scrollSize, finalPos);
      var rest := Run(next, scrollSize, finalPos);
      assert Run(current, scrollSize, finalPos) == [next] + rest;
      if finalPos > next {
        RunAscends(next, scrollSize, finalPos);
      } else {
        assert rest == [];
      }
    }
  }

  /**
   * Target below the starting offset: every offset written lies below the start
   * and at least at the target, and successive offsets strictly decrease.
   */
  lemma {:induction false} RunDescends(current: real, scrollSize: real, finalPos: real)
    requires scrollSize > 0.0
    requires finalPos < current
    ensures var offsets := Run(current, scrollSize, finalPos);
            && (forall i :: 0 <= i < |offsets| ==> finalPos <= offsets[i] < current)
            && StrictlyDecreasing(offsets)
    decreases Measure(current, scrollSize, finalPos)
  {
    if !Arrived(current, finalPos) {
      var next := NextOffset(current, scrollSize, finalPos);
      StepDecreasesMeasure(current, scrollSize, finalPos);
      StepApproaches(current, scrollSize, finalPos);
      var rest := Run(next, scrollSize, finalPos);
      assert Run(current, scrollSize, finalPos) == [next] + rest;
      if finalPos < next {
        RunDescends(next, scrollSize, finalPos);
      } else {
        assert rest == [];
      }
    }
  }

  /** The termination measure bounds the number of frames still to come. */
  lemma {:induction false} RunWithinMeasure(current: real, scrollSize: real, finalPos: real)
    requires scrollSize > 0.0
    ensures |Run(current, scrollSize, finalPos)| <= Measure(current, scrollSize, finalPos)
    decreases Measure(current, scrollSize, finalPos)
  {
    if !Arrived(current, finalPos) {
      var next := NextOffset(current, scrollSize, finalPos);
      StepDecreasesMeasure(current, scrollSize, finalPos);
      RunWithinMeasure(next, scrollSize, finalPos);
      assert Run(current, scrollSize, finalPos) == [next] + Run(next, scrollSize, finalPos);
    }
  }

  /** The least integer not below `x`. */
  function Ceil(x: real): (n: int)
    ensures x <= n as real < x + 1.0
  {
    -((-x).Floor)
  }

  /** `x` is a whole number of pixels. */
  predicate IsWhole(x: real)
  {
    x.Floor as real == x
  }

  /**
   * A frame that is taken writes the step rule's offset and leaves the rest of
   * the run to come. This unfolds `Run` once, so that `FrameKeepsPlan` need not
   * unfold it itself.
   */
  lemma RunUnfolds(current: real, scrollSize: real, finalPos: real)
    requires scrollSize > 0.0
    requires !Arrived(current, finalPos)
    ensures var next := NextOffset(current, scrollSize, finalPos);
            Run(current, scrollSize, finalPos) == [next] + Run(next, scrollSize, finalPos)
  {
  }

  /** Taking a frame does not change where the animation settles. */
  lemma SettleAfterFrame(current: real, scrollSize: real, finalPos: real)
    requires scrollSize > 0.0
    requires !Arrived(current, finalPos)
    ensures Settle(NextOffset(current, scrollSize, finalPos), scrollSize, finalPos)
            == Settle(current, scrollSize, finalPos)
  {
    var next := NextOffset(current, scrollSize, finalPos);
    var rest := Run(next, scrollSize, finalPos);
    assert Run(current, scrollSize, finalPos) == [next] + rest;
  }

  /**
   * The number of frames is at most the distance divided by the step size,
   * rounded up; when the offsets and the step size are whole pixels it is
   * exactly that many.
   */
  lemma {:induction false} FrameCount(current: real, scrollSize: real, finalPos: real)
    requires scrollSize > 0.0
    ensures |Run(current, scrollSize, finalPos)| <= Ceil(Distance(current, finalPos) / scrollSize)
    ensures IsWhole(current) && IsWhole(scrollSize) && IsWhole(finalPos) ==>
              |Run(current, scrollSize, finalPos)| == Ceil(Distance(current, finalPos) / scrollSize)
    decreases Measure(current, scrollSize, finalPos)
  {
    var d := Distance(current, finalPos);
    var whole := IsWhole(current) && IsWhole(scrollSize) && IsWhole(finalPos);
    QuotientBounds(d, scrollSize);
    if Arrived(current, finalPos) {
      if whole {
        WholeArrivedIsExact(current, finalPos);
      }
    } else {
      var next := NextOffset(current, scrollSize, finalPos);
      StepDecreasesMeasure(current, scrollSize, finalPos);
      var rest := Run(next, scrollSize, finalPos);
      assert Run(current, scrollSize, finalPos) == [next] + rest;
      if d >= scrollSize {
        FrameCount(next, scrollSize, finalPos);
        QuotientLessOne(d, scrollSize);
        CeilLessOne(d / scrollSize);
        if whole {
          WholeStep(current, scrollSize, finalPos);
        }
      }
    }
  }

  /** Where the quotient of a distance by a positive step size lies. */
  lemma QuotientBounds(d: real, s: real)
    requires d >= 0.0 && s > 0.0
    ensures Ceil(d / s) >= 0
    ensures d == 0.0 ==> Ceil(d / s) == 0
    ensures 0.0 < d ==> Ceil(d / s) >= 1
    ensures 0.0 < d < s ==> Ceil(d / s) == 1
  {
    var q := d / s;
    assert q * s == d;
    if 0.0 < d < s {
      if q >= 1.0 {
        assert q * s >= 1.0 * s;
      }
    }
  }

  /** Rounding up commutes with taking one away. */
  lemma CeilLessOne(q: real)
    ensures Ceil(q - 1.0) == Ceil(q) - 1
  {
  }

  /** Two whole-pixel offsets within one pixel of each other are equal. */
  lemma WholeArrivedIsExact(x: real, y: real)
    requires IsWhole(x) && IsWhole(y)
    requires Arrived(x, y)
    ensures x == y
  {
    assert (x.Floor - y.Floor) as real == x - y;
  }

  /** Sums and differences of whole numbers are whole. */
  lemma WholeSumDiff(a: real, b: real)
    requires IsWhole(a) && IsWhole(b)
    ensures IsWhole(a + b) && IsWhole(a - b)
  {
    var i, j := a.Floor, b.Floor;
    var k, l := i + j, i - j;
    assert (k as real).Floor == k;
    assert (l as real).Floor == l;
    assert a + b == k as real;
    assert a - b == l as real;
  }

  /** The step rule keeps offsets whole when the step size is whole. */
  lemma WholeStep(current: real, scrollSize: real, finalPos: real)
    requires IsWhole(current) && IsWhole(scrollSize) && IsWhole(finalPos)
    ensures IsWhole(NextOffset(current, scrollSize, finalPos))
  {
    WholeSumDiff(current, scrollSize);
  }

  /**
   * With whole-pixel offsets and step size the animation halts exactly on the
   * target, not merely within the one-pixel tolerance.
   */
  lemma {:induction false} WholeRunLandsExactly(current: real, scrollSize: real, finalPos: real)
    requires scrollSize > 0.0
    requires IsWhole(current) && IsWhole(scrollSize) && IsWhole(finalPos)
    ensures Settle(current, scrollSize, finalPos) == finalPos
    decreases Measure(current, scrollSize, finalPos)
  {
    if Arrived(current, finalPos) {
      WholeArrivedIsExact(current, finalPos);
    } else {
      var next := NextOffset(current, scrollSize, finalPos);
      StepDecreasesMeasure(current, scrollSize, finalPos);
      WholeStep(current, scrollSize, finalPos);
      SettleAfterFrame(current, scrollSize, finalPos);
      WholeRunLandsExactly(next, scrollSize, finalPos);
    }
  }

  /**
   * Taking a frame keeps the frames written and the run still to come adding up
   * to the whole run: the next offset moves from the front of the one onto the
   * end of the other. Stated on its own so that `Start` need not unfold `Run` or
   * reason about concatenation inside its loop.
   */
  lemma FrameKeepsPlan(written: seq<real>, current: real, scrollSize: real, finalPos: real, plan: seq<real>)
    requires scrollSize > 0.0
    requires !Arrived(current, finalPos)
    requires written + Run(current, scrollSize, finalPos) == plan
    ensures var next := NextOffset(current, scrollSize, finalPos);
            (written + [next]) + Run(next, scrollSize, finalPos) == plan
  {
    var next := NextOffset(current, scrollSize, finalPos);
    RunUnfolds(current, scrollSize, finalPos);
    assert written + ([next] + Run(next, scrollSize, finalPos)) == (written + [next]) + Run(next, scrollSize, finalPos);
  }

  /**
   * When the halting test passes after `written` has been written, what was
   * written is the whole run and the container is where the run settles.
   */
  lemma AnimationOutcome(initial: real, written: seq<real>, current: real, scrollSize: real, finalPos: real)
    requires scrollSize > 0.0
    requires written + Run(current, scrollSize, finalPos) == Run(initial, scrollSize, finalPos)
    requires written == [] ==> current == initial
    requires written != [] ==> current == written[|written| - 1]
    requires Arrived(current, finalPos)
    ensures written == Run(initial, scrollSize, finalPos)
    ensures current == Settle(initial, scrollSize, finalPos)
    ensures Arrived(initial, finalPos) ==> written == [] && current == initial
  {
    assert written + [] == written;
    SettleIsLastFrame(initial, scrollSize, finalPos);
  }

  /**
   * The scrollable element; `offset` stands for its `scrollTop()` value, and
   * `history` records every value written to it, in order.
   */
  class Container {
    var offset: real
    ghost var history: seq<real>

    constructor (initial: real)
      ensures offset == initial && history == []
    {
      offset := initial;
      history := [];
    }
  }

  /**
   * Animates `c` toward `finalPos`, `scrollSize` pixels per frame. Each loop
   * iteration is one animation frame: it reads the container's offset, stops if
   * it is within one pixel of the target, and otherwise writes the step rule's
   * offset back. `scrollSize` and `finalPos` are the same on every frame, and
   * the container's offset (with its ghost `history` of writes) is the only
   * state written. `frames` is the sequence of offsets written, in order: the
   * container's `history` grows by exactly `frames`. A container already within one pixel of the
   * target is left alone whatever the step size, since the halting test comes
   * before the step size is used; otherwise the step must be positive. When the
   * step is positive and the container has already arrived, `Run` is empty and
   * `Settle` is the start, so `frames` and the final offset agree with them then too.
   */
  method Start(c: Container, scrollSize: real, finalPos: real) returns (ghost frames: seq<real>)
    requires scrollSize > 0.0 || Arrived(c.offset, finalPos)
    modifies c
    ensures c.history == old(c.history) + frames
    ensures !Arrived(old(c.offset), finalPos) ==> frames == Run(old(c.offset), scrollSize, finalPos)
    ensures !Arrived(old(c.offset), finalPos) ==> c.offset == Settle(old(c.offset), scrollSize, finalPos)
    ensures Arrived(c.offset, finalPos)
    ensures Arrived(old(c.offset), finalPos) ==> frames == [] && c.offset == old(c.offset)
  {
    frames := [];
    // the first frame's halting test, which needs no step size
    if Arrived(c.offset, finalPos) {
      assert c.history + [] == c.history;
      return;
    }
    assert scrollSize > 0.0;
    var current := c.offset;
    ghost var initial := current;
    ghost var written := c.history;
    ghost var plan := Run(initial, scrollSize, finalPos);
    while !Arrived(current, finalPos)
      invariant c.offset == current
      invariant c.history == written + frames
      invariant frames + Run(current, scrollSize, finalPos) == plan
      invariant frames == [] ==> current == initial
      invariant frames != [] ==> current == frames[|frames| - 1]
      decreases |plan| - |frames|
    {
      var next := NextOffset(current, scrollSize, finalPos);
      FrameKeepsPlan(frames, current, scrollSize, finalPos, plan);
      c.offset := next;
      frames := frames + [next];
      c.history := written + frames;
      current := c.offset;
    }
    AnimationOutcome(initial, frames, current, scrollSize, finalPos);
  }
}

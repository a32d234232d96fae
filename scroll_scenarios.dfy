/**
 * Concrete animations, worked out frame by frame from the step rule: the
 * offsets written to the container for a few starting offsets, step sizes and
 * targets.
 */
module ScrollScenarios {
  import opened ScrollStep
  import opened ScrollAnimation

  /** Scrolling down from 0 to 100 by 30: three full steps, then a jump onto the target. */
  lemma ScrollDownJumpsOntoTarget()
    ensures Run(0.0, 30.0, 100.0) == [30.0, 60.0, 90.0, 100.0]
    ensures Settle(0.0, 30.0, 100.0) == 100.0
  {
  }

  /** Already at the target: no frame is taken and nothing is written. */
  lemma AlreadyThereWritesNothing()
    ensures Run(50.0, 10.0, 50.0) == []
    ensures Settle(50.0, 10.0, 50.0) == 50.0
  {
  }

  /** Scrolling up from 100 to 0 by 25: four full steps, the last one landing on the target. */
  lemma ScrollUpInFullSteps()
    ensures Run(100.0, 25.0, 0.0) == [75.0, 50.0, 25.0, 0.0]
    ensures Settle(100.0, 25.0, 0.0) == 0.0
  {
  }

  /**
   * A fractional target: from 0 toward 30.5 by 30, the first step leaves half a
   * pixel, within the tolerance, so the animation stops short of the target.
   */
  lemma FractionalTargetStopsWithinTolerance()
    ensures Run(0.0, 30.0, 30.5) == [30.0]
    ensures Settle(0.0, 30.0, 30.5) == 30.0 != 30.5
  {
  }
}

# SmoothScroll in Dafny

A model of `SmoothScroll.start`, a small TypeScript utility. It moves a scrollable
container's `scrollTop` toward a target offset by a fixed number of pixels per
animation frame. Once the target is nearer than one step, it jumps onto the target.
It stops when the offset is within one pixel of the target. The source re-enters
`start` from a `requestAnimationFrame` callback. Here each frame is one iteration
of a `while` loop.

- `scroll_step.dfy` (module `ScrollStep`) holds the pure step rule. `Distance` is
  `Math.abs` of a difference. `Arrived` is the one-pixel halting test. `NextOffset`
  picks the next offset. `Measure` is an integer termination measure.
  The module also proves lemmas about a single step.
- `scroll_animation.dfy` (module `ScrollAnimation`) holds the driver.
  - `Run` is the sequence of offsets written to the container, one per frame.
    `Settle` is where the animation leaves the container.
  - `Container` is a class whose mutable `offset` field stands for the jQuery
    element's `scrollTop()`. A ghost `history` field records every value written
    to it.
  - `Start` is the loop. It is proved against `Run` and `Settle`. Lemmas about whole
    runs cover direction, approach, frame count and exact landing.
- `scroll_scenarios.dfy` (module `ScrollScenarios`) works out concrete animations
  frame by frame.

Offsets and the step size are `real`, standing for the source's `number`. This keeps
the source's one-pixel tolerance meaningful. Real arithmetic here is exact: there is
no floating-point rounding.

The tolerance has a consequence: the code does not always end exactly on the target.
Suppose a full step leaves less than one pixel but more than zero. The animation then
halts short of the target. For example, going from 0 toward 30.5 by 30 stops at 30
(`FractionalTargetStopsWithinTolerance`). A ceiling-formula frame count fails for such
inputs too. The model therefore proves two things:
- For any inputs, the final offset is within one pixel of the target, and the number
  of frames is at most `ceil(distance / scrollSize)`.
- When the starting offset, the step size and the target are whole pixels, the
  animation ends exactly on the target, after exactly `ceil(distance / scrollSize)`
  frames.

## Model

| member | source | states |
|---|---|---|
| ScrollStep.Distance | SmoothScroll.ts:19 | the absolute difference is never negative and is zero exactly when the two offsets are equal |
| ScrollStep.Arrived | SmoothScroll.ts:19-21 | the halting test: the animation stops exactly when the offset lies strictly within one pixel of the target, on either side |
| ScrollStep.NextOffset | SmoothScroll.ts:29-33 | when the target is nearer than one step the next offset is the target; otherwise (non-negative step) the next offset is one step from the current one and the distance to the target shrinks by exactly the step |
| ScrollStep.StepForward | SmoothScroll.ts:29-30 | target ahead: the next offset is the target if it is less than `scrollSize` away, else `current + scrollSize` |
| ScrollStep.StepBackward | SmoothScroll.ts:31-32 | target behind or level: the next offset is the target if it is less than `scrollSize` away, else `current - scrollSize` |
| ScrollStep.StepBetween | SmoothScroll.ts:29-33 | for a positive step, one step never overshoots: the next offset lies between the current offset and the target, inclusive |
| ScrollStep.StepApproaches | SmoothScroll.ts:26-33 | a step taken when the halting test fails moves the offset, lands on the target or cuts the distance by exactly `scrollSize`, and strictly reduces the distance |
| ScrollStep.Measure | SmoothScroll.ts:19-21 | the termination measure is zero exactly when the halting test passes |
| ScrollStep.WholeStepsBounds | SmoothScroll.ts:29-33 | the whole-step count `n` of a distance satisfies `n * scrollSize <= distance < (n + 1) * scrollSize` |
| ScrollStep.StepDecreasesMeasure | SmoothScroll.ts:19-33 | each frame taken strictly lowers a natural-number measure, so for a positive step the recursion ends |
| ScrollAnimation.Run | SmoothScroll.ts:14-40 | no frame is taken exactly when the start is within one pixel of the target, and the last offset written passes the halting test |
| ScrollAnimation.RunStaysBetween | SmoothScroll.ts:29-33 | across the whole run no offset overshoots: every offset written lies between the start and the target and is strictly nearer the target than the start |
| ScrollAnimation.Settle | SmoothScroll.ts:19-21 | the offset the container is left at is within one pixel of the target, lies between the start and the target, and is the start itself when no frame is taken |
| ScrollAnimation.RunFollowsStepRule | SmoothScroll.ts:36-38 | each frame applies the step rule to the offset written by the frame before it, with the same `scrollSize` and `finalPos`, and every frame but the last leaves the halting test failing |
| ScrollAnimation.RunApproaches | SmoothScroll.ts:26-33 | every offset written is strictly nearer the target than every offset written before it |
| ScrollAnimation.RunAscends | SmoothScroll.ts:29-30 | target above the start: all offsets written lie above the start and at most at the target, and strictly increase |
| ScrollAnimation.RunDescends | SmoothScroll.ts:31-32 | target below the start: all offsets written lie below the start and at least at the target, and strictly decrease |
| ScrollAnimation.RunWithinMeasure | SmoothScroll.ts:19-38 | the number of frames still to come never exceeds the termination measure |
| ScrollAnimation.FrameCount | SmoothScroll.ts:29-39 | the number of frames is at most the distance divided by the step, rounded up, and exactly that for whole-pixel offsets and step |
| ScrollAnimation.WholeRunLandsExactly | SmoothScroll.ts:17-21 | with whole-pixel start, step and target, the animation halts exactly on the target, which the documented promise of line 2 requires |
| ScrollAnimation.Container.constructor | SmoothScroll.ts:10 | a container starts at the given scroll offset, with nothing yet written to it |
| ScrollAnimation.Start | SmoothScroll.ts:14-40 | a container already within one pixel of the target is left untouched and nothing is written, whatever the step size; otherwise, for a positive step, the loop halts, the offsets written are exactly `Run` of the starting offset and the container ends at `Settle`; in every case it ends within one pixel of the target, the offsets written are appended to the container's record of writes in order, and only the container is changed |
| ScrollScenarios.ScrollDownJumpsOntoTarget | SmoothScroll.ts:29-30 | from 0 toward 100 by 30, the offsets written are 30, 60, 90, 100 |
| ScrollScenarios.AlreadyThereWritesNothing | SmoothScroll.ts:19-21 | from 50 toward 50 by 10, nothing is written |
| ScrollScenarios.ScrollUpInFullSteps | SmoothScroll.ts:31-32 | from 100 toward 0 by 25, the offsets written are 75, 50, 25, 0 |
| ScrollScenarios.FractionalTargetStopsWithinTolerance | SmoothScroll.ts:17-21 | from 0 toward 30.5 by 30, one frame writes 30 and the animation halts there, half a pixel short |

## Left out

- `requestAnimationFrame` scheduling and per-frame timing (SmoothScroll.ts:36) is host I/O. Each frame is one loop iteration, taken at once.
- jQuery's `scrollTop()` getter and setter (SmoothScroll.ts:15, 37) is a foreign call. It is the `offset` field of `Container`, read at the head of each iteration and written once per iteration.
- The host's clamping and rounding of `scrollTop` are not modelled: `offset` stores exactly the value written, and the termination and one-pixel results of `Start` depend on that. A real element clamps the value to its scroll range. With a target at least one pixel outside that range (for example `finalPos` 600 when the maximum scroll is 500, or a `finalPos` of -1 or less), the source reads back the clamped edge each frame and never halts. With a target less than one pixel outside the range (for example `finalPos` -0.5), the clamped edge passes the halting test and the source halts there, short of the target.
- Overlapping animations on one container, and scrolling by anyone else between frames, are concurrency and host interference. Nothing else writes `offset` in the model.
- IEEE floating-point rounding, NaN, infinities and an undefined `scrollSize` are not modelled. Offsets are exact reals.
- ScrollAnimation.Start: requires `scrollSize > 0` unless the start is already within one pixel of the target, in which case it returns at once for any step size, as the source does. `Run`, `Settle` and the lemmas about runs require `scrollSize > 0` outright. With a zero or negative step and a start not yet within one pixel, the source never halts; that divergence is not modelled.
- The TypeScript `static` class wrapper and its self-call through `this` are not modelled beyond the loop.

# lock: a rotary combination lock driven by drag gestures

`lock.js` turns a drag on a round dial into the behaviour of a
three-number combination lock. It is built as a chain of reactive streams:

1. **Rotation tracker.** Drag adjustments, in degrees, are summed by a scan
   that starts at 0. A total that reaches a full turn either way is brought
   back by one turn. Each total is rounded **up** to a whole tick of
   `360 / tickCount` degrees, and repeated values are dropped.
2. **Number decoder.** A quantised rotation becomes a raw dial number: a
   positive rotation counts back from `tickCount`, any other rotation counts
   up from 0. Between two consecutive raw numbers the decoder walks one
   number at a time the shorter way round and emits every number it passes,
   so nothing is skipped.
3. **Direction detector.** Each pair of distinct consecutive numbers is
   classified clockwise or counterclockwise, with the `tickCount - 1` / 0
   seam handled specially. The direction stream emits only when the
   direction changes.
4. **Reset detector.** It emits once at start. After that, while the dial
   turns clockwise, every third 0 it passes emits a reset.
5. **Unlock detector.** After a reset it waits for these, in order:
   - a change to counterclockwise right after `combination[0]`;
   - the next visit to `combination[0]`;
   - a change to clockwise right after `combination[1]`;
   - the dial resting on `combination[2]`.
6. **Combination generator.** It draws random numbers until it holds three
   distinct ones, the first of them not 0.

The model treats every stream as a finite trace. Each operator is defined by
what it emits when one more element arrives: `f(s) = f(DropLast(s)) +
emission(Last(s))`. Properties are then proved by induction on the prefix.
Modules follow the pipeline:

- `Streams`: traces, `Option`, and `distinctUntilChanged`.
- `Rotation`: the tracker.
- `Numbers`: raw numbers and the gap-free walk.
- `Direction`: the direction detector.
- `Dial`: the shared view of the latest number and the latest direction.
- `Reset`: the reset detector.
- `Unlock`: the unlock detector.
- `Combination`: the combination generator.

Inputs that come from outside the code are parameters:

- The drag adjustments are a sequence of reals.
  - `calculateAngleInDegrees` (lock.js:28-40) returns a difference of two
    `atan2` values, converted to degrees.
  - So every adjustment lies strictly within one turn. `Numbers.Decode`
    takes that as its precondition.
- The debounce timer of the last unlock stage becomes an explicit `Settle`
  event. `Settle` stands for 100 ms passing with no new number.
- The random source of the generator becomes a supplied sequence of draws.

Two behaviours follow from the exact form of the code:

- **Ties.** When a jump is exactly half the dial, the walk goes **down**.
  - lock.js:112 compares with a strict `<`, so the way up is taken only
    when it is strictly shorter.
  - See `Numbers.Path` and `Numbers.HalfTurnGoesDown`.
- **Zeros.** The reset detector fires on **every** third 0 of a clockwise
  run (the third, the sixth, ...), not only on the first third 0.
  - `bufferCount(3)` at lock.js:170 has no `take(1)` after it, so it keeps
    emitting one buffer per three zeros.
  - See `Reset.FiresExactlyWhenDue`.

## Model

| member | source | states |
|---|---|---|
| Rotation.Wrap | lock.js:74-83 | if the current rotation and the adjustment are each within a turn, so is the result; a sum within a turn is returned unchanged; a sum of a full turn or more is brought back by exactly one turn, and a sum of minus a full turn or less is brought forward by exactly one turn |
| Rotation.Rotations | lock.js:74-83 | the scan emits one rotation per adjustment; when every adjustment is within a turn, every rotation is too |
| Rotation.RotationIsSumModuloTurns | lock.js:74-83 | the wrapped rotation equals the plain sum of all adjustments plus a whole number of turns |
| Rotation.FullTurnExamples | lock.js:76-81 | two drags of +185 degrees from 0 end at 10 degrees; two of -185 degrees end at -10 degrees |
| Rotation.Ceil | lock.js:84 | `Math.ceil`: the result is the least integer that is not below the argument |
| Rotation.TickIndex | lock.js:84 | the quantised rotation is the least multiple of `360 / tickCount` degrees at or above the rotation; for a rotation within a turn it lies between `-(tickCount - 1)` and `tickCount` ticks |
| Rotation.Quantise | lock.js:84 | the `map` quantises each rotation on its own, element by element, and keeps the tick range |
| Rotation.RotationTicks | lock.js:74-85 | the rotation stream: no two neighbours equal; empty exactly when there were no adjustments; its last tick is the quantised last rotation; ticks in range when adjustments are within a turn |
| Rotation.RotationTicksEmission | lock.js:84-85 | one more adjustment emits the newly quantised rotation, unless it equals the quantised rotation emitted last, in which case nothing is emitted |
| Rotation.RotationTicksKeepEveryRotation | lock.js:84-85 | every quantised rotation of the trace appears in the rotation stream |
| Rotation.TwoDragsEmitBoth | lock.js:74-85 | two drags of 100 degrees on a 40-tick dial emit the rotation stream 12, 23: both quantised rotations, not only the last |
| Streams.Distinct | lock.js:85 | `distinctUntilChanged`: no two neighbours of the output are equal; the output keeps the input's last element, adds no value, and is empty only for empty input |
| Streams.DistinctOfNoRepeats | lock.js:85 | a trace with no repeats passes through unchanged |
| Streams.DistinctKeepsValues | lock.js:85 | every value of the input appears in the output |
| Streams.DistinctOfConstant | lock.js:153 | a non-empty trace of one repeated value comes out as that value once |
| Numbers.RawNumber | lock.js:97-101 | the raw number of a quantised rotation is on the dial and equals the tick index negated, modulo `tickCount` |
| Numbers.RawNumbers | lock.js:97-101 | the raw number stream starts with 0 (the `startWith(0)` rotation), then holds one raw number per quantised rotation, all on the dial |
| Numbers.NonNegatives | lock.js:105 | the filter keeps exactly the non-negative candidates |
| Numbers.Min | lock.js:104-106 | `Math.min` returns an element of the list that is no greater than any element |
| Numbers.StepsAreCircularDistances | lock.js:104-109 | for numbers on the dial, the two step counts computed by the source are the circular distances `(next - previous) mod tickCount` upward and `(previous - next) mod tickCount` downward |
| Numbers.StepsUp | lock.js:104-106 | the upward step count is the least non-negative of `next - previous`, `next - previous + tickCount` and `tickCount`: it is one of them, no greater than any that is non-negative, and between 0 and `tickCount` |
| Numbers.StepsDown | lock.js:107-109 | the downward step count is the least non-negative of `previous - next`, `previous - next + tickCount` and `tickCount`, between 0 and `tickCount` |
| Numbers.Up | lock.js:114-117 | one step of the upward loop, wrapping `tickCount - 1` to 0, stays on the dial and is `(x + 1) mod tickCount` |
| Numbers.Down | lock.js:121-124 | one step of the downward loop, wrapping 0 to `tickCount - 1`, stays on the dial and is `(x - 1) mod tickCount` |
| Numbers.Path | lock.js:111-126 | the numbers between two raw numbers: as many as the shorter circular distance (a tie goes down); empty exactly when the two are equal; ending at the destination; every element one step up, or every element one step down, from its predecessor; no number skipped |
| Numbers.Climb | lock.js:113-118 | the upward loop emits `Span` numbers, the i-th being `i + 1` steps above the start with at most one wrap |
| Numbers.Descend | lock.js:120-125 | the downward loop emits `Span` numbers, the i-th being `i + 1` steps below the start with at most one wrap |
| Numbers.PathSteps | lock.js:111-126 | the walk restated without wrapping arithmetic: going up, the i-th number is `i + 1` steps above the start; going down, `i + 1` steps below it, with one wrap at most |
| Numbers.Walk | lock.js:103-127 | the source's two loops emit exactly `Numbers.Path` |
| Numbers.HalfTurnGoesDown | lock.js:112 | on any dial of an even number `2h` of numbers, a jump from 0 to `h` is a tie and goes down through `2h - 1`, ..., `h` |
| Numbers.SeamJumpGoesUp | lock.js:111-118 | on a 40-tick dial, a jump from 38 to 3 goes up across the seam through 39, 0, 1, 2, 3 |
| Numbers.Numbers | lock.js:102-128 | the number stream over a trace of raw numbers is on the dial, skips no number from the first raw number on, ends at the last raw number, and is exactly as long as the shorter distances between consecutive raw numbers added up |
| Numbers.Decode | lock.js:74-128 | from drag adjustments: every number is on the dial, the stream skips no number starting from 0, the last number is the one the final quantised rotation points at, and the stream is as long as the shorter distances between consecutive raw numbers added up |
| Numbers.NumbersReachEveryRaw | lock.js:102-128 | every raw number is reached in order: the stream over each prefix of the raw numbers is a prefix of the whole stream and ends at the raw number closing that prefix |
| Numbers.DecodeReachesEveryRaw | lock.js:74-128 | the decoded stream passes every raw number of the rotation trace, in order: the stream up to the i-th raw number is a prefix of the whole and ends there |
| Direction.ClassifyStep | lock.js:144-152 | on a dial of at least three numbers, one step up (across the seam too) is counterclockwise and one step down is clockwise |
| Direction.TwoTickDialSeam | lock.js:145-151 | on a two-number dial the seam rule comes first: 0 to 1 is classified clockwise |
| Direction.Classify | lock.js:144-152 | on a dial of at least three numbers, the next number one step up from the previous one is counterclockwise and one step down is clockwise |
| Direction.Moves | lock.js:142-152 | one classification per pair of distinct consecutive numbers: no more than there are numbers; none for a dial at rest; when the last two numbers differ, the last move is their classification |
| Direction.Directions | lock.js:141-154 | the direction stream never repeats a direction, emits only directions some move produced, and, once there is a move, its last direction is the last move |
| Direction.ChangedExactly | lock.js:142-153 | the direction stream emits on a number exactly when that number differs from the one before and its classification differs from the latest direction; it then holds that classification, and otherwise stays as it was |
| Direction.WalkMovesOneWay | lock.js:111-152 | every move along one walk of the decoder is classified the same way: counterclockwise going up, clockwise going down; each step produces one move |
| Direction.WalkTurnsOnce | lock.js:102-154 | the direction stream of one walk is empty when the two numbers are equal; otherwise it is the single direction of the shorter way |
| Dial.Observe | lock.js:142-153 | when a number arrives, it reports the number before it; a direction is reported only for a distinct number and only when it differs from the last direction |
| Dial.AfterTracksDirections | lock.js:140-154 | the shared dial state holds the latest number and the latest direction emitted for the trace |
| Dial.ObservationMatchesDirections | lock.js:140-154 | an arriving number reports a change exactly when the direction stream emits, reports the direction emitted, and reports the number before it as the previous number |
| Reset.Step | lock.js:164-177 | a reset fires only on a 0, while turning clockwise, on a number that did not itself change the direction; the dial view is updated as `Dial.Observe` says |
| Reset.StepFires | lock.js:167-171 | one number fires a reset exactly when it is a 0, it does not change the direction, the direction is clockwise, and two zeros were already counted |
| Reset.Resets | lock.js:176 | the reset stream starts with `true` and emits only `true` |
| Reset.AfterCountsRunZeros | lock.js:166-172 | the detector's count is the number of zeros in the current clockwise run, modulo three, and 0 when the latest direction is not clockwise |
| Reset.FiresExactlyWhenDue | lock.js:165-176 | a number fires a reset if and only if it is a 0 passed while turning clockwise, it is not the number that changed the direction, and it is the third, sixth, ... zero of the run |
| Reset.DueStep | lock.js:165-176 | a reset is due at a number exactly when the direction stream does not emit there, the latest direction is clockwise, the number is 0, and the run held two zeros modulo three before it; a number where the stream does not emit keeps the latest direction |
| Reset.NoResetUnlessClockwise | lock.js:174 | no reset fires unless the latest direction is clockwise |
| Reset.ThreeClockwisePassesResetOnce | lock.js:158-177 | on a 4-tick dial, turning clockwise from 2 past 0 three times gives exactly one reset after the initial one, at the third 0 and not at the second |
| Unlock.Step | lock.js:188-223 | how each stage is armed: a counterclockwise change after the first number arms stage 2 and a reset disarms it; a visit to the first number while stage 2 waits arms stage 3; with stage 3 armed, a clockwise change after the second number arms stage 4 afresh with no pending number; once stage 4 is armed every other number becomes its pending number; stages 3 and 4 stay armed; an event unlocks if and only if it is a settle while stage 4 is armed and its pending number is the third number; a settle changes nothing but the pending number |
| Unlock.Unlocked | lock.js:221-222 | the unlocked stream starts with `false` and emits only `true` after that |
| Unlock.AfterProgress | lock.js:190-220 | every armed stage is explained by the trace: stage 2 by an earlier first cue; stage 3 by a first cue and then a revisit; stage 4 by those and then a second cue; the latest number reported to stage 4 is the latest event |
| Unlock.UnlockNeedsCombination | lock.js:190-222 | the lock unlocks only on a settle right after the dial reached the third number, and only if the trace before that holds, in order, a counterclockwise change after the first number, a visit to the first number and a clockwise change after the second number |
| Unlock.ResetRestartsOnlyFirstStage | lock.js:190-206 | a reset ends the wait for the first number and leaves stages 3 and 4 as they were |
| Unlock.OtherNumbersKeepStage | lock.js:195-212 | a number that is no cue for any stage leaves every stage as it was |
| Unlock.RestOnThirdUnlocks | lock.js:208-222 | from any state with stage 4 armed, a turn to the third number that is not itself a fresh clockwise cue, followed by a settle, unlocks |
| Unlock.ArmedTraceUnlocks | lock.js:188-224 | for every combination: after any trace that leaves stage 4 armed, turning to the third number and resting there unlocks |
| Unlock.UnlockExample | lock.js:188-224 | with combination 3, 6, 4 on a 40-tick dial, the usual gesture ending in a rest on 4 unlocks exactly once, at the end |
| Combination.Kept | lock.js:228-234 | the numbers kept from the draws are at most three, distinct, on the dial, not starting with 0, and all drawn |
| Combination.NewCombination | lock.js:226-236 | the generator loop returns a combination exactly when the draws hold three acceptable ones; the combination is valid, is what the draws keep, and the loop stops at the draw that completes it |
| Combination.KeptStopsAtThree | lock.js:228 | once three numbers are held, later draws change nothing |
| Combination.ThreeGoodDraws | lock.js:231-233 | three distinct draws, the first not 0, are kept as drawn |
| Combination.LeadingZeroSkipped | lock.js:230-232 | a first draw of 0 and a repeated draw are skipped; a 0 drawn after the first number is kept |
| Combination.SkippedDraws | lock.js:230-231 | a leading 0 and repeated draws are skipped, and draws after the third kept one are ignored |

## Left out

- `calculateAngleInDegrees` (lock.js:28-40): `atan2` and floating point are not modelled. The adjustments it produces are inputs, each strictly within one turn.
- Drag handling (lock.js:55-73): `switchMap` over mouse-down and `takeUntil` mouse-up, which pairs consecutive move events into adjustments. This is event wiring; the model starts from the sequence of adjustments.
- Floating-point division in lock.js:84 and lock.js:99: the source computes with IEEE doubles; the model chooses exact real arithmetic for lock.js:84 and keeps the quantised rotation as a whole number of ticks. The two can differ:
  - lock.js:84 divides by `360 / tickCount`, which is rounded, so `Math.ceil` can land one tick off when a rotation falls on or next to a tick boundary.
  - lock.js:99 divides the quantised rotation by `360 / tickCount` again; the quotient comes out a whole number only for some tick counts, such as 40. If it is not whole, `previous` never equals `next` in the loops at lock.js:113 and lock.js:120, and they do not terminate. The model takes the quotient to be the whole tick index.
- The tick count is not checked to be positive; the model assumes `tickCount > 0` (at least 3 for the direction lemmas).
- `share()` (lock.js:129): subscriptions and multicasting are not modelled. Every detector sees the one number trace in order.
- `debounceTime(100)` (lock.js:217): time is not modelled. The `Settle` event says that the quiet period ended; stage 4 reports the latest number it has seen since it was armed or since the previous settle.
- Per-subscription state in the unlock detector: every `directionStream` and `pairwise` subscription inside it has its own pairwise and `distinctUntilChanged` state, starting at the moment the stage subscribes. The model keeps one dial view (`Dial.Dial`) for the whole trace instead. The two can differ just after a stage is armed, when a fresh subscription has not yet seen two numbers, or emits a direction that the long-lived stream had already emitted.
- Subscription order: a stage armed while a number is being delivered does not see that number; this is how each `switchMap` inner subscription behaves.
- `Math.random` (lock.js:229): it is replaced by a supplied sequence of draws, so the distribution of combinations is not modelled. If the draws run out before three are kept, `Combination.NewCombination` returns `None`, where the source would keep drawing.
- Unlock.UnlockNeedsCombination: states only that an unlock needs the staged gesture, not the converse over whole traces. Each forward step is stated by `Unlock.Step`, and the last two by `Unlock.ArmedTraceUnlocks`. A full trace-level converse would also need side conditions: no reset between the first cue and the revisit, and no later cue that re-arms a stage. Those are not stated.
- demo.js: DOM lookup, CSS classes, SVG rendering and the instructions panel are UI glue outside the lock's logic.

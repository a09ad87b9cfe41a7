# Blink monitor session engine, in Dafny

A verified model of the core of a browser blink monitor (`script.js`). The
monitor averages the eye-aspect ratio of both eyes in each camera frame,
counts blinks with an edge detector set at threshold 0.23, and runs a
repeating 60-second countdown. When a cycle expires, the countdown numbers
the cycle, records `(cycle, blinks)` at the head of the data log, adds a
bubble to the bubble map, zeroes the live count and starts over. The reset
button clears counters, log and bubbles.

Modules:

- `BlinkDetector` (blink_detector.dfy): the detector as a pure transition
  `Detect`, its run over a frame sequence `Run`, and a separate reference
  description of what it counts (`ClosedBefore`, `IsOnset`, `Onsets`).
- `SessionTimer` (session_timer.dfy): one tick of the countdown
  (`AfterTick`, `Expires`) and its iteration over many ticks.
- `BubbleHistory` (bubble_history.dfy): the radius, hue, position, colour
  and label formulas of `addBubble`, and a parser for the label text.
- `Numerals` (numerals.dfy): decimal text of naturals, as a template
  literal prints them, and its inverse.
- `BlinkSession` (session.dfy): class `Session`, whose fields are the
  script's closure-level variables (`blinkCount`, `isBlinking`, `timeLeft`,
  `cycleCount`, whether the interval is installed, the log, the bubbles).
  Its methods are the handlers. Each runs as one atomic call, as the
  single-threaded event loop runs it. The invariant `Valid()` has four
  parts. Between ticks the countdown shows 1 to 60 seconds. Since the last
  reset there is one log record and one bubble per completed cycle. Log
  records are numbered `cycleCount` down to 1. Bubble `i` depicts cycle
  `i + 1` with the blink count its record holds.

Inputs the model takes as parameters:

- the averaged ratio, as a `real`;
- `Math.pow(blinkCount, 0.8)`, as `pow08 >= 0`;
- the two `Math.random()` draws, as reals in `[0, 1)`.

The threshold (0.23) and the cycle length (60 seconds) are fixed constants,
as in the code.

`Tick` requires the interval to be installed, because the browser calls the
interval callback only while the interval exists. It also requires `Valid()`,
whose countdown part (1 to 60 seconds left) the script always meets between
ticks: the countdown starts at 60, and every tick that would leave it at 0
restarts it at 60.

The bubble's `label` field is called `caption`, because `label` is a Dafny
keyword.

## Model

| member | source | states |
|---|---|---|
| `BlinkSession.Session.constructor` | script.js:16-30 | Initial state: no blinks, not blinking, 60 seconds, no cycles, no interval, empty log and bubbles. |
| `BlinkSession.Session.DetectBlink` | script.js:192-198 | Below 0.23 from the open state: the flag is set and the count rises by exactly 1. Below 0.23 while blinking: nothing changes. Above 0.23: the flag clears and the count is kept. Exactly 0.23: nothing changes. The new state is `Detect` of the old state. `Valid()` is kept. |
| `BlinkSession.Session.StartTimer` | script.js:87-90 | Puts the countdown at 60 and the interval in place. If the history part of the invariant held before, the whole of `Valid()` holds after. |
| `BlinkSession.Session.StopTimer` | script.js:114-117 | Removes the interval and leaves `timeLeft` and all else unchanged. `Valid()` is kept. |
| `BlinkSession.Session.AddBubble` | script.js:47-57 | Appends exactly one bubble and keeps the earlier ones. The new bubble depicts its cycle and count. |
| `BlinkSession.Session.Tick` | script.js:92-111 | A non-expiring tick only decrements `timeLeft`. An expiring tick does four things: the cycle number rises by 1; `(new cycle, pre-reset count)` is prepended to the log; a bubble for that same pre-reset count is appended; then the count is 0. The countdown is back at 60 with the interval still running. `Valid()` is kept. |
| `BlinkSession.Session.Reset` | script.js:221-230 | Zero blinks, 60 seconds, zero cycles, empty log and bubbles. `isBlinking` and the running state are untouched, and `Valid()` holds. |
| `BlinkSession.NewestFirst` | script.js:100-104 | A log kept as the invariant says is newest-first. Its head is the latest cycle, and cycle numbers strictly decrease along it. |
| `BlinkSession.CompleteCycle` | script.js:100-104 | Completing a cycle with count b keeps the invariant. The record `(cycle + 1, b)` goes at the head of the log, and the appended bubble depicts cycle + 1 with count b. |
| `BlinkSession.SixtyOneTicks` | script.js:87-111 | After start, five blinks and 61 ticks: the log is exactly `[(1, 5)]` and the one bubble is labelled `C1: 5`. The live count is 0 and 59 seconds are left. |
| `BlinkDetector.Detect` | script.js:192-198 | One frame: the count stays or rises by exactly 1. It rises only on a frame below 0.23 that finds the eye open, and then the eye is closed. A frame exactly at 0.23 changes nothing. `RunCountsOnsets` states what a sequence of these steps counts. |
| `BlinkDetector.Run` | script.js:192-198 | The frame callbacks in order. The count never falls and grows by at most one per frame. `RunCountsOnsets` gives its exact value. |
| `BlinkDetector.RunCountsOnsets` | script.js:192-198 | Over any frame sequence, the flag ends equal to the reference "closed" state. The count rises by exactly the number of frames below the threshold that are entered from the open state. |
| `BlinkDetector.ClosedBeforeStep` | script.js:192-198 | In the reference description, a frame below the threshold closes the eye. One above opens it. One exactly at it leaves the eye as it was. |
| `BlinkDetector.OnsetStartsRun` | script.js:192-195 | Suppose no frame sits exactly at the threshold. Then a counted frame is exactly the first frame of a maximal below-threshold run. That run starts either at the beginning from an open state or right after an above-threshold frame. |
| `BlinkDetector.NeverBelowCountsNothing` | script.js:192-198 | A frame sequence that never goes below 0.23 leaves the count unchanged. |
| `BlinkDetector.TwoBlinksExample` | script.js:192-198 | The frames 0.3, 0.1, 0.1, 0.3, 0.1 from a fresh detector count 2 blinks. |
| `BlinkDetector.ThresholdFrameJoinsRuns` | script.js:192-198 | The frames 0.1, 0.23, 0.1 from a fresh detector count 1 blink, although they hold two maximal runs below 0.23. A frame exactly at the threshold does not reopen the eye, so `OnsetStartsRun` needs its hypothesis. |
| `SessionTimer.Expires` | script.js:93-96 | The check `timeLeft <= 0` after the decrement. It has no contract of its own. `TicksFrom` and `EveryDurationTicks` state when it holds: exactly on every 60th tick after a start. |
| `SessionTimer.AfterTick` | script.js:93-96 | After a tick the countdown is at least 1. Starting from at most 60, it stays at most 60. |
| `SessionTimer.TicksFrom` | script.js:92-111 | From t seconds left (1 to 60), k ticks leave `60 - (k + 60 - t) mod 60` seconds. Exactly `(k + 60 - t) div 60` cycles have expired, so there is no drift. |
| `SessionTimer.EveryDurationTicks` | script.js:87-111 | After `startTimer`, tick n expires a cycle if and only if n is a multiple of 60. After n ticks, `n div 60` cycles have completed. |
| `BubbleHistory.Radius` | script.js:49-50 | The radius lies in [15, 120]. It never exceeds the base `2·pow + 15`, and equals the base unless capped at 120. |
| `BubbleHistory.RadiusMonotone` | script.js:49-50 | A larger power-law value never gives a smaller radius. |
| `BubbleHistory.Hue` | script.js:53 | The hue is in [0, 120]. It is 120 exactly when there are no blinks, and 0 exactly from 30 blinks on. |
| `BubbleHistory.HueAntitone` | script.js:53 | The hue is non-increasing in the blink count. |
| `BubbleHistory.Place` | script.js:51-52 | For a draw in [0, 1), the centre lies at least r from either edge: `r <= c < extent - r`. |
| `BubbleHistory.NewBubble` | script.js:49-55 | The bubble lies wholly on the 400×500 canvas with a radius in [15, 120]. Its colour is the hue of its count, and its label is `C<cycle>: <count>`. |
| `BubbleHistory.Color` | script.js:53 | The fill style `hsl(h, 85%, 55%)`. It has no contract of its own. `NewBubble` and `Depicts` tie it to `Hue` of the bubble's count, and `Hue` bounds h. |
| `BubbleHistory.Label` | script.js:55 | The text `C<cycle>: <count>`. It has no contract of its own. `ParseLabelOfLabel` states that it reads back to exactly its cycle number and count. |
| `BubbleHistory.ParseLabelOfLabel` | script.js:55 | The label text reads back to exactly its cycle number and blink count. |
| `Numerals.ToDecimal` | script.js:55 | Printing a natural gives a non-empty string of digits with no leading zero. |
| `Numerals.ParseToDecimal` | script.js:55 | Reading the printed digits back gives the number. |

## Left out

- `getEAR` and the averaging of the two eyes (script.js:171-190). They use `Math.hypot` and division over floats, so the averaged ratio is an input.
- NaN and infinite ratios are not `real` values. In the JavaScript, NaN fails both comparisons and changes nothing. An eye whose corner distance is 0 gives +Infinity when its lid distance is non-zero, and the frame counts as open. When both distances are 0 it gives NaN (0/0), and the frame changes nothing. Skipping such frames altogether would be the safer design, but the code does not do it. The model follows the code for every finite ratio and says nothing about non-finite ones.
- `Math.pow(blinkCount, 0.8)` is a parameter `pow08 >= 0`. Its relation to the blink count is not modelled, because it is floating point.
- RadiusMonotone: states monotonicity in `pow08`, not in the blink count, because the power law is a parameter.
- `Math.random()` is a parameter in [0, 1), because it is random.
- Rounding in double arithmetic for the radius and position is not modelled; both are computed in exact reals.
- Numbers of 10^21 or more are printed by JavaScript in exponent form. `ToDecimal` always prints plain digits.
- Camera acquisition, `getUserMedia`, `faceMesh.send` and the `requestAnimationFrame` loop (script.js:120-168). These are asynchronous I/O. So the toggle (which calls `startTimer` after the camera starts and `stopTimer` on stop) is represented only by `StartTimer` and `StopTimer`.
- FaceMesh configuration and loading (script.js:32-44): a foreign library.
- All canvas drawing: `drawBubbles`, `drawConnectors` and the rendering in `onResults` (script.js:59-84, 202-218).
- DOM text updates. The log is a sequence of `(cycle, blinks)` records; the `Cycle n: b blinks` list-item text is not modelled.
- The interleaving of the frame and interval callbacks. Each handler is one atomic method call.

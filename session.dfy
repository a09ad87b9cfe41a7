/** The session state of script.js: the closure-level variables that the
    frame handler (detectBlink), the one-second interval callback, startTimer,
    stopTimer and the reset button update in place. Each handler is one atomic
    method call, as the browser's single-threaded event loop runs it. */
module BlinkSession {
  import opened BlinkDetector
  import opened SessionTimer
  import opened BubbleHistory

  /** One log line: cycle number and the blinks counted in that cycle. */
  type CycleRecord = (nat, nat)

  /** Cycle numbers run down from `latest` by one per entry, newest first. */
  ghost predicate NumberedDown(log: seq<CycleRecord>, latest: nat) {
    |log| == latest && forall i :: 0 <= i < |log| ==> log[i].0 == latest - i
  }

  /** The log's head is the latest cycle and cycle numbers strictly decrease
      along it. */
  lemma NewestFirst(log: seq<CycleRecord>, latest: nat)
    requires NumberedDown(log, latest)
    ensures |log| > 0 ==> log[0].0 == latest
    ensures forall i, j :: 0 <= i < j < |log| ==> log[i].0 > log[j].0
  {
  }

  /** One log record and one bubble per completed cycle, `latest` of them;
      bubble `i` (oldest first) depicts cycle `i + 1` with the count that
      cycle's log record holds. */
  ghost predicate History(log: seq<CycleRecord>, bubbles: seq<Bubble>, latest: nat) {
    NumberedDown(log, latest)
    && |bubbles| == latest
    && forall i :: 0 <= i < |bubbles| ==> Depicts(bubbles[i], i + 1, log[latest - 1 - i].1)
  }

  /** Completing one more cycle with `count` blinks keeps the history. */
  lemma CompleteCycle(log: seq<CycleRecord>, bubbles: seq<Bubble>, latest: nat, count: nat, b: Bubble)
    requires History(log, bubbles, latest)
    requires Depicts(b, latest + 1, count)
    ensures History([(latest + 1, count)] + log, bubbles + [b], latest + 1)
  {
  }

  class Session {
    var blinkCount: nat
    var isBlinking: bool
    var timeLeft: int
    var cycleCount: nat
    /** True while the one-second interval is installed (timerInterval != null). */
    var timerRunning: bool
    /** The data log, newest record first, as dataLogList shows it. */
    var log: seq<CycleRecord>
    /** The bubble map's markers, oldest first, as the `bubbles` array holds them. */
    var bubbles: seq<Bubble>

    /** Since the last reset, one log record and one bubble per completed
        cycle, and bubble `i` depicts cycle `i + 1` with the count its log
        record holds. */
    ghost predicate Consistent()
      reads this`log, this`bubbles, this`cycleCount
    {
      History(log, bubbles, cycleCount)
    }

    /** The history is consistent and, between ticks, the countdown shows
        between 1 and 60 seconds. */
    ghost predicate Valid()
      reads this`timeLeft, this`log, this`bubbles, this`cycleCount
    {
      1 <= timeLeft <= Duration && Consistent()
    }

    function Blink(): BlinkState
      reads this
    {
      BlinkState(isBlinking, blinkCount)
    }

    /** The state when the page loads (script.js:16, 23-30). */
    constructor ()
      ensures Valid()
      ensures blinkCount == 0 && !isBlinking && cycleCount == 0
      ensures timeLeft == Duration && !timerRunning
      ensures log == [] && bubbles == []
    {
      blinkCount := 0;
      isBlinking := false;
      timeLeft := Duration;
      cycleCount := 0;
      timerRunning := false;
      log := [];
      bubbles := [];
    }

    /** detectBlink on the averaged eye-aspect ratio `avg`. */
    method DetectBlink(avg: real)
      modifies this`isBlinking, this`blinkCount
      ensures old(Valid()) ==> Valid()
      ensures Blink() == Detect(old(Blink()), avg)
      ensures avg < Threshold && !old(isBlinking) ==> isBlinking && blinkCount == old(blinkCount) + 1
      ensures avg < Threshold && old(isBlinking) ==> isBlinking && blinkCount == old(blinkCount)
      ensures avg > Threshold ==> !isBlinking && blinkCount == old(blinkCount)
      ensures avg == Threshold ==> isBlinking == old(isBlinking) && blinkCount == old(blinkCount)
    {
      if avg < Threshold && !isBlinking {
        isBlinking := true;
        blinkCount := blinkCount + 1;
      } else if avg > Threshold {
        isBlinking := false;
      }
    }

    /** startTimer: (re)install the interval and start a full cycle. */
    method StartTimer()
      modifies this`timeLeft, this`timerRunning
      ensures timeLeft == Duration && timerRunning
      ensures old(Consistent()) ==> Valid()
    {
      timeLeft := Duration;
      timerRunning := true;
    }

    /** stopTimer: remove the interval; the seconds left stay as they are. */
    method StopTimer()
      modifies this`timerRunning
      ensures !timerRunning
      ensures old(Valid()) ==> Valid()
    {
      timerRunning := false;
    }

    /** addBubble: append the marker for `count` blinks in cycle `cycle`;
        `pow08` is Math.pow(count, 0.8), `ux` and `uy` the two Math.random draws. */
    method AddBubble(count: nat, cycle: nat, pow08: real, ux: real, uy: real)
      requires pow08 >= 0.0 && 0.0 <= ux < 1.0 && 0.0 <= uy < 1.0
      modifies this`bubbles
      ensures bubbles == old(bubbles) + [NewBubble(count, cycle, pow08, ux, uy)]
      ensures Depicts(bubbles[|bubbles| - 1], cycle, count)
    {
      bubbles := bubbles + [NewBubble(count, cycle, pow08, ux, uy)];
    }

    /** The interval callback. On expiry it snapshots the blink count into a
        new log record and a new bubble before zeroing it, and restarts the
        countdown; `pow08`, `ux` and `uy` feed addBubble and matter only then. */
    method Tick(pow08: real, ux: real, uy: real)
      requires Valid() && timerRunning
      requires pow08 >= 0.0 && 0.0 <= ux < 1.0 && 0.0 <= uy < 1.0
      modifies this`timeLeft, this`timerRunning, this`cycleCount, this`log, this`bubbles, this`blinkCount
      ensures Valid() && timerRunning
      ensures timeLeft == AfterTick(old(timeLeft))
      ensures isBlinking == old(isBlinking)
      ensures !Expires(old(timeLeft)) ==>
        timeLeft == old(timeLeft) - 1 && cycleCount == old(cycleCount) && blinkCount == old(blinkCount)
        && log == old(log) && bubbles == old(bubbles)
      ensures Expires(old(timeLeft)) ==>
        timeLeft == Duration && cycleCount == old(cycleCount) + 1 && blinkCount == 0
        && log == [(cycleCount, old(blinkCount))] + old(log)
        && bubbles == old(bubbles) + [NewBubble(old(blinkCount), cycleCount, pow08, ux, uy)]
    {
      timeLeft := timeLeft - 1;
      if timeLeft <= 0 {
        timerRunning := false;
        cycleCount := cycleCount + 1;
        log := [(cycleCount, blinkCount)] + log;
        AddBubble(blinkCount, cycleCount, pow08, ux, uy);
        CompleteCycle(old(log), old(bubbles), old(cycleCount), old(blinkCount), bubbles[|bubbles| - 1]);
        blinkCount := 0;
        StartTimer();
      }
    }

    /** The reset button: a hard cut of counters, log and bubbles that leaves
        the detector's flag and the timer's running state alone. */
    method Reset()
      modifies this`blinkCount, this`timeLeft, this`log, this`bubbles, this`cycleCount
      ensures Valid()
      ensures blinkCount == 0 && timeLeft == Duration && cycleCount == 0
      ensures log == [] && bubbles == []
    {
      blinkCount := 0;
      timeLeft := Duration;
      log := [];
      bubbles := [];
      cycleCount := 0;
    }
  }

  /** A client run of one cycle: start the timer, blink five times, and let
      the interval fire 61 times. Tick 60 logs cycle 1 with its five blinks,
      and tick 61 finds the live count back at zero and one second gone. */
  method SixtyOneTicks() returns (s: Session)
    ensures s.log == [(1, 5)] && s.cycleCount == 1
    ensures s.blinkCount == 0 && s.timeLeft == Duration - 1 && s.timerRunning
    ensures |s.bubbles| == 1 && s.bubbles[0].caption == Label(1, 5)
  {
    s := new Session();
    s.StartTimer();
    var b := 0;
    while b < 5
      invariant 0 <= b <= 5
      invariant s.Valid() && s.timerRunning && s.timeLeft == Duration
      invariant s.cycleCount == 0 && s.blinkCount == b && !s.isBlinking
    {
      s.DetectBlink(0.1);
      s.DetectBlink(0.3);
      b := b + 1;
    }
    var k := 0;
    while k < Duration - 1
      invariant 0 <= k <= Duration - 1
      invariant s.Valid() && s.timerRunning
      invariant s.timeLeft == Duration - k
      invariant s.cycleCount == 0 && s.blinkCount == 5 && s.log == []
    {
      s.Tick(0.0, 0.5, 0.5);
      k := k + 1;
    }
    // 5 to the power 0.8 is about 3.62
    s.Tick(3.62, 0.5, 0.5);
    s.Tick(0.0, 0.5, 0.5);
  }
}

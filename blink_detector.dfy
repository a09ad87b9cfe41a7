/** The blink detector of script.js: an edge detector over the averaged
    eye-aspect ratio of both eyes against a single threshold. A blink is
    counted on the open-to-closed edge only; a ratio above the threshold
    reopens the eye; a ratio exactly at the threshold changes nothing. */
module BlinkDetector {

  /** Ratio below which the eyes count as closed (script.js:25). */
  const Threshold: real := 0.23

  /** The detector's memory: whether a closure is in progress, and the blinks
      counted so far in the current cycle. */
  datatype BlinkState = BlinkState(isBlinking: bool, blinkCount: nat)

  /** State when the page loads (script.js:23-24). */
  const Initial := BlinkState(false, 0)

  /** One call of detectBlink with averaged ratio `avg`. The count either
      stays or rises by exactly one, and it rises only on the edge from open
      to closed, on a frame below the threshold; a frame exactly at the
      threshold leaves the state as it was. */
  function Detect(s: BlinkState, avg: real): (r: BlinkState)
    ensures r.blinkCount == s.blinkCount
      || (r.blinkCount == s.blinkCount + 1 && avg < Threshold && !s.isBlinking && r.isBlinking)
    ensures avg == Threshold ==> r == s
  {
    if avg < Threshold && !s.isBlinking then BlinkState(true, s.blinkCount + 1)
    else if avg > Threshold then BlinkState(false, s.blinkCount)
    else s
  }

  /** The detector after the frames `ratios`, oldest first. The count never
      falls and grows by at most one per frame. */
  function Run(s: BlinkState, ratios: seq<real>): (r: BlinkState)
    ensures s.blinkCount <= r.blinkCount <= s.blinkCount + |ratios|
    decreases |ratios|
  {
    if ratios == [] then s
    else Detect(Run(s, ratios[..|ratios| - 1]), ratios[|ratios| - 1])
  }

  // ---- Reference description of what the detector counts ----

  /** No frame in [lo, hi) lies above the threshold, i.e. none reopens the eye. */
  predicate NoneAbove(ratios: seq<real>, lo: nat, hi: nat)
    requires lo <= hi <= |ratios|
  {
    forall k :: lo <= k < hi ==> ratios[k] <= Threshold
  }

  /** The eyes are closed just before frame `i`: either some earlier frame lay
      below the threshold and none after it (and before `i`) lay above, or the
      detector started closed and no frame before `i` lay above. */
  predicate ClosedBefore(closed0: bool, ratios: seq<real>, i: nat)
    requires i <= |ratios|
  {
    (exists j :: 0 <= j < i && ratios[j] < Threshold && NoneAbove(ratios, j + 1, i))
    || (closed0 && NoneAbove(ratios, 0, i))
  }

  /** Frame `i` enters a closure from the open state. */
  predicate IsOnset(closed0: bool, ratios: seq<real>, i: nat)
    requires i < |ratios|
  {
    ratios[i] < Threshold && !ClosedBefore(closed0, ratios, i)
  }

  /** Number of onsets among the first `n` frames. */
  function Onsets(closed0: bool, ratios: seq<real>, n: nat): nat
    requires n <= |ratios|
  {
    if n == 0 then 0
    else Onsets(closed0, ratios, n - 1) + (if IsOnset(closed0, ratios, n - 1) then 1 else 0)
  }

  /** One more frame: a ratio below the threshold closes, one above opens,
      one exactly at it leaves the eye as it was. */
  lemma ClosedBeforeStep(closed0: bool, ratios: seq<real>, i: nat)
    requires i < |ratios|
    ensures ClosedBefore(closed0, ratios, i + 1) ==
      if ratios[i] < Threshold then true
      else if ratios[i] > Threshold then false
      else ClosedBefore(closed0, ratios, i)
  {
  }

  /** The detector's flag after any frames is exactly "closed" in the reference
      sense, and its count grows by exactly the number of onsets. */
  lemma {:induction false} RunCountsOnsets(s: BlinkState, ratios: seq<real>)
    ensures Run(s, ratios).isBlinking == ClosedBefore(s.isBlinking, ratios, |ratios|)
    ensures Run(s, ratios).blinkCount == s.blinkCount + Onsets(s.isBlinking, ratios, |ratios|)
    decreases |ratios|
  {
    if ratios == [] {
    } else {
      var n := |ratios| - 1;
      var prefix := ratios[..n];
      RunCountsOnsets(s, prefix);
      PrefixAgrees(s.isBlinking, ratios, n);
      ClosedBeforeStep(s.isBlinking, ratios, n);
    }
  }

  /** The reference notions on a prefix agree with those on the whole. */
  lemma {:induction false} PrefixAgrees(closed0: bool, ratios: seq<real>, n: nat)
    requires n <= |ratios|
    ensures ClosedBefore(closed0, ratios[..n], n) == ClosedBefore(closed0, ratios, n)
    ensures Onsets(closed0, ratios[..n], n) == Onsets(closed0, ratios, n)
    decreases n
  {
    var p := ratios[..n];
    assert forall k :: 0 <= k < n ==> p[k] == ratios[k];
    forall lo: nat, hi: nat | lo <= hi <= n
      ensures NoneAbove(p, lo, hi) == NoneAbove(ratios, lo, hi)
    {
    }
    if n > 0 {
      PrefixAgrees(closed0, ratios[..n - 1], n - 1);
      assert ratios[..n - 1] == p[..n - 1];
      PrefixAgrees(closed0, ratios, n - 1);
      PrefixAgrees(closed0, p, n - 1);
      assert IsOnset(closed0, p, n - 1) == IsOnset(closed0, ratios, n - 1);
    }
  }

  /** Where no frame sits exactly at the threshold, an onset is precisely the
      first frame of a maximal run of below-threshold frames that begins at
      the start (from an open detector) or right after an above-threshold frame. */
  lemma OnsetStartsRun(closed0: bool, ratios: seq<real>, i: nat)
    requires i < |ratios|
    requires forall k :: 0 <= k < |ratios| ==> ratios[k] != Threshold
    ensures IsOnset(closed0, ratios, i) <==>
      ratios[i] < Threshold && (if i == 0 then !closed0 else ratios[i - 1] > Threshold)
  {
  }

  /** Frames that never go below the threshold count no blink. */
  lemma {:induction false} NeverBelowCountsNothing(s: BlinkState, ratios: seq<real>)
    requires forall k :: 0 <= k < |ratios| ==> ratios[k] >= Threshold
    ensures Run(s, ratios).blinkCount == s.blinkCount
    decreases |ratios|
  {
    if ratios != [] {
      NeverBelowCountsNothing(s, ratios[..|ratios| - 1]);
    }
  }

  /** The frames 0.3, 0.1, 0.1, 0.3, 0.1 from a fresh detector count two blinks. */
  lemma TwoBlinksExample()
    ensures Run(Initial, [0.3, 0.1, 0.1, 0.3, 0.1]).blinkCount == 2
  {
    var r := [0.3, 0.1, 0.1, 0.3, 0.1];
    assert r[..4] == [0.3, 0.1, 0.1, 0.3];
    assert r[..4][..3] == [0.3, 0.1, 0.1];
    assert r[..4][..3][..2] == [0.3, 0.1];
    assert r[..4][..3][..2][..1] == [0.3];
    assert Run(Initial, [0.3]) == BlinkState(false, 0);
    assert Run(Initial, [0.3, 0.1]) == BlinkState(true, 1);
    assert Run(Initial, [0.3, 0.1, 0.1]) == BlinkState(true, 1);
    assert Run(Initial, [0.3, 0.1, 0.1, 0.3]) == BlinkState(false, 1);
  }

  /** A frame exactly at the threshold does not reopen the eye: the frames
      0.1, 0.23, 0.1 hold two maximal runs below the threshold but count one
      blink, which is why OnsetStartsRun excludes such frames. */
  lemma ThresholdFrameJoinsRuns()
    ensures Run(Initial, [0.1, 0.23, 0.1]).blinkCount == 1
  {
    var r := [0.1, 0.23, 0.1];
    assert r[..2] == [0.1, 0.23];
    assert r[..2][..1] == [0.1];
    assert Run(Initial, [0.1]) == BlinkState(true, 1);
    assert Run(Initial, [0.1, 0.23]) == BlinkState(true, 1);
  }
}

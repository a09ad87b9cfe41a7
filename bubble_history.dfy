/** The bubbles of script.js's bubble map: one marker per completed cycle,
    sized and coloured by that cycle's blink count and placed at random
    inside the 400 by 500 canvas. */
module BubbleHistory {
  import opened Numerals

  /** Canvas extents (script.js:14-15). */
  const CanvasWidth: real := 400.0
  const CanvasHeight: real := 500.0

  /** Radius bounds: the base radius starts at 15, the cap is 120 (script.js:49-50). */
  const MinRadius: real := 15.0
  const MaxRadius: real := 120.0

  /** Largest hue, the green of a cycle without blinks (script.js:53). */
  const MaxHue: nat := 120

  /** One entry of the `bubbles` array (script.js:55). */
  datatype Bubble = Bubble(x: real, y: real, radius: real, color: string, caption: string)

  /** Radius from `pow08`, the value of Math.pow(blinkCount, 0.8): the base
      radius `pow08 * 2 + 15`, capped at 120. */
  function Radius(pow08: real): (r: real)
    requires pow08 >= 0.0
    ensures MinRadius <= r <= MaxRadius
    ensures r <= pow08 * 2.0 + 15.0
    ensures r < MaxRadius ==> r == pow08 * 2.0 + 15.0
  {
    var base := pow08 * 2.0 + 15.0;
    if MaxRadius < base then MaxRadius else base
  }

  /** More blinks never give a smaller bubble, as long as the power law is
      monotone (which Math.pow with exponent 0.8 is on naturals). */
  lemma RadiusMonotone(p: real, q: real)
    requires 0.0 <= p <= q
    ensures Radius(p) <= Radius(q)
  {
  }

  /** Hue `120 - min(4 * blinkCount, 120)`: green (120) exactly for no blinks,
      red (0) exactly from 30 blinks on. */
  function Hue(count: nat): (h: nat)
    ensures h <= MaxHue
    ensures h == MaxHue <==> count == 0
    ensures h == 0 <==> count >= 30
  {
    MaxHue - Min(count * 4, MaxHue)
  }

  function Min(a: nat, b: nat): nat {
    if a < b then a else b
  }

  /** More blinks never give a greener hue. */
  lemma HueAntitone(c: nat, d: nat)
    requires c <= d
    ensures Hue(d) <= Hue(c)
  {
  }

  /** The fill style string `hsl(h, 85%, 55%)`. */
  function Color(h: nat): string {
    "hsl(" + ToDecimal(h) + ", 85%, 55%)"
  }

  /** The text drawn on a bubble, `C<cycle>: <count>`. */
  function Label(cycle: nat, count: nat): string {
    "C" + ToDecimal(cycle) + ": " + ToDecimal(count)
  }

  /** Reads a label back into its cycle number and blink count. */
  function ParseLabel(s: string): Option<(nat, nat)> {
    if |s| == 0 || s[0] != 'C' then None
    else match IndexOf(s, ':')
      case None => None
      case Some(i) =>
        if 1 <= i && i + 1 < |s| && s[i + 1] == ' ' && IsNumeral(s[1..i]) && IsNumeral(s[i + 2..])
        then Some((ParseDecimal(s[1..i]), ParseDecimal(s[i + 2..])))
        else None
  }

  /** A label names its cycle and its blink count unambiguously. */
  lemma ParseLabelOfLabel(cycle: nat, count: nat)
    ensures ParseLabel(Label(cycle, count)) == Some((cycle, count))
  {
    var a, b := ToDecimal(cycle), ToDecimal(count);
    var s := Label(cycle, count);
    var i := 1 + |a|;
    assert s[1..i] == a;
    assert s[i + 2..] == b;
    assert s[i] == ':' && s[i + 1] == ' ';
    forall k | 0 <= k < i
      ensures s[k] != ':'
    {
      if k > 0 {
        assert s[k] == a[k - 1];
      }
    }
    IndexOfFirst(s, ':', i);
    ParseToDecimal(cycle);
    ParseToDecimal(count);
  }

  /** A random draw `u` in [0, 1) times a positive span lies in [0, span). */
  function Scale(u: real, span: real): (v: real)
    requires 0.0 <= u < 1.0 && 0.0 < span
    ensures 0.0 <= v < span
  {
    assert span - u * span == (1.0 - u) * span;
    u * span
  }

  /** Centre coordinate `u * (extent - 2r) + r` for a random draw `u` in
      [0, 1): the whole circle of radius `r` stays within the extent. */
  function Place(u: real, extent: real, r: real): (c: real)
    requires 0.0 <= u < 1.0 && 0.0 < r && 2.0 * r < extent
    ensures r <= c < extent - r
  {
    Scale(u, extent - r * 2.0) + r
  }

  /** The bubble lies wholly on the canvas with a radius in [15, 120]. */
  predicate OnCanvas(b: Bubble) {
    MinRadius <= b.radius <= MaxRadius
    && b.radius <= b.x < CanvasWidth - b.radius
    && b.radius <= b.y < CanvasHeight - b.radius
  }

  /** The bubble shows cycle `cycle` with `count` blinks. */
  predicate Depicts(b: Bubble, cycle: nat, count: nat) {
    OnCanvas(b) && b.color == Color(Hue(count)) && b.caption == Label(cycle, count)
  }

  /** The bubble addBubble builds for `count` blinks in cycle `cycle`, given
      the power law's value `pow08` and the two random draws `ux`, `uy`. */
  function NewBubble(count: nat, cycle: nat, pow08: real, ux: real, uy: real): (b: Bubble)
    requires pow08 >= 0.0
    requires 0.0 <= ux < 1.0 && 0.0 <= uy < 1.0
    ensures Depicts(b, cycle, count)
  {
    var r := Radius(pow08);
    Bubble(Place(ux, CanvasWidth, r), Place(uy, CanvasHeight, r), r, Color(Hue(count)), Label(cycle, count))
  }
}

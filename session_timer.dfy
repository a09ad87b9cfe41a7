/** The one-second countdown of script.js. Each interval callback decrements
    the remaining seconds; when they reach zero (or less) the cycle expires
    and startTimer puts the countdown back at its full duration. */
module SessionTimer {

  /** Length of one measurement cycle in seconds (script.js:30, 89). */
  const Duration: int := 60

  /** The tick that finds `t` seconds left expires the cycle. */
  predicate Expires(t: int) {
    t - 1 <= 0
  }

  /** Seconds left after one tick that found `t` seconds left. The countdown
      never shows less than one second between ticks and, started within the
      cycle length, stays within it. */
  function AfterTick(t: int): (t': int)
    ensures 1 <= t'
    ensures t <= Duration ==> t' <= Duration
  {
    if t - 1 <= 0 then Duration else t - 1
  }

  /** Seconds left after `k` ticks from `t`. */
  function TimeAfter(t: int, k: nat): int {
    if k == 0 then t else AfterTick(TimeAfter(t, k - 1))
  }

  /** Number of cycles that expire during `k` ticks from `t`. */
  function ExpiriesWithin(t: int, k: nat): nat {
    if k == 0 then 0
    else ExpiriesWithin(t, k - 1) + (if Expires(TimeAfter(t, k - 1)) then 1 else 0)
  }

  /** From `t` seconds left (1 to 60), `k` ticks leave the countdown where
      `k + 60 - t` ticks from a fresh start would: one expiry per 60 ticks,
      without drift. */
  lemma {:induction false} TicksFrom(t: int, k: nat)
    requires 1 <= t <= Duration
    ensures TimeAfter(t, k) == Duration - (k + Duration - t) % Duration
    ensures ExpiriesWithin(t, k) == (k + Duration - t) / Duration
  {
    if k > 0 {
      TicksFrom(t, k - 1);
      var m := k - 1 + Duration - t;
      var q, r := m / Duration, m % Duration;
      if r == Duration - 1 {
        DivModOf(m + 1, q + 1, 0);
      } else {
        DivModOf(m + 1, q, r + 1);
      }
    }
  }

  /** Quotient and remainder by the cycle length are determined. */
  lemma DivModOf(n: int, q: int, r: int)
    requires n == q * Duration + r && 0 <= r < Duration
    ensures n / Duration == q && n % Duration == r
  {
  }

  /** After startTimer, tick number `n` (counting from 1) expires the cycle if
      and only if `n` is a multiple of 60; after `n` ticks exactly `n / 60`
      cycles have completed. */
  lemma EveryDurationTicks(n: nat)
    requires n >= 1
    ensures Expires(TimeAfter(Duration, n - 1)) <==> n % Duration == 0
    ensures ExpiriesWithin(Duration, n) == n / Duration
  {
    TicksFrom(Duration, n - 1);
    TicksFrom(Duration, n);
  }
}

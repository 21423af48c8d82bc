/** plugin/appstore/supervisor.go: nextBackoff, shared by every retry ramp. Durations are nanoseconds. */
module Backoff {

  const SECOND: int := 1_000_000_000

  function NextBackoff(cur: int, max: int): int
  {
    if cur * 2 > max then max else cur * 2
  }

  /** The k-th delay of a ramp that starts at `start`, counting from 0. */
  function Ramp(start: int, max: int, k: nat): int
  {
    if k == 0 then start else NextBackoff(Ramp(start, max, k - 1), max)
  }

  /** start * 2^k */
  function Doubled(start: int, k: nat): int
  {
    if k == 0 then start else 2 * Doubled(start, k - 1)
  }

  /** A ramp doubles until it reaches its cap: delay k is min(start * 2^k, max). */
  lemma {:induction false} RampIsCappedDoubling(start: int, max: int, k: nat)
    requires 0 < start <= max
    ensures Doubled(start, k) >= start
    ensures Ramp(start, max, k) == if Doubled(start, k) > max then max else Doubled(start, k)
  {
    if k > 0 {
      RampIsCappedDoubling(start, max, k - 1);
    }
  }

  function Pow2(k: nat): nat
  {
    if k == 0 then 1 else 2 * Pow2(k - 1)
  }

  /** Doubling one second k times. */
  lemma {:induction false} DoubledIsPow2(k: nat)
    ensures Doubled(SECOND, k) == Pow2(k) * 1000000000
  {
    if k > 0 {
      DoubledIsPow2(k - 1);
    }
  }
}

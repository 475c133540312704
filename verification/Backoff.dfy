/** Delays that double with every attempt. */
module Backoff {
  /** Durations and times are counted in nanoseconds. */
  const SECOND: nat := 1_000_000_000

  /** base shifted left by n bits. */
  function Doubled(base: nat, n: nat): nat {
    if n == 0 then base else 2 * Doubled(base, n - 1)
  }

  lemma {:induction false} DoubledGrows(base: nat, m: nat, n: nat)
    requires m <= n
    ensures base <= Doubled(base, m) <= Doubled(base, n)
    decreases m + n
  {
    if m < n {
      DoubledGrows(base, m, n - 1);
    } else if m > 0 {
      DoubledGrows(base, m - 1, n - 1);
    }
  }
}

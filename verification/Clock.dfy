/** The steady clock: natural numbers of nanoseconds. */
module Clock {

  const NANOS := 1_000_000_000

  /** duration_cast<seconds>(now - start): truncated towards zero. */
  function WholeSeconds(start: nat, now: nat): int {
    if now >= start then (now - start) / NANOS else -((start - now) / NANOS)
  }

  /** Whole seconds against nanoseconds: k of them have passed from the k-th second's end on. */
  lemma WholeSecondsAre(start: nat, now: nat, k: int)
    requires start <= now
    ensures WholeSeconds(start, now) >= k <==> now - start >= k * NANOS
    ensures WholeSeconds(start, now) <= k <==> now - start < (k + 1) * NANOS
  {
  }
}

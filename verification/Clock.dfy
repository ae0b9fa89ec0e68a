/** A monotonic clock, in nanoseconds. */
module Clock {

  type Instant = nat

  /** `Instant::duration_since` and `saturating_duration_since`: both saturate at zero. */
  function DurationSince(now: Instant, earlier: Instant): nat
  {
    if now >= earlier then now - earlier else 0
  }
}

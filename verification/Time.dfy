/** Clock readings. */
module Time {
  /** Nanoseconds since an arbitrary origin. */
  type Instant = nat

  const NANOS_PER_SEC: nat := 1_000_000_000

  /** `Instant::duration_since`, which saturates at zero. */
  function DurationSince(now: Instant, then_: Instant): nat {
    if now < then_ then 0 else now - then_
  }
}

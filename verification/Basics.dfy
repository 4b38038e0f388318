/** Machine integers, instants and the two result types shared by every module. */
module Basics {

  datatype Option<+T> = None | Some(value: T)

  datatype Result<+T, +E> = Ok(value: T) | Err(error: E)

  const MAX_INT64: int := 0x7FFF_FFFF_FFFF_FFFF
  const MIN_INT64: int := -0x8000_0000_0000_0000

  type Int64 = n: int | MIN_INT64 <= n <= MAX_INT64

  /** Two's-complement wrap-around of Go's 64-bit int. */
  function Wrap64(n: int): Int64 {
    (n - MIN_INT64) % 0x1_0000_0000_0000_0000 + MIN_INT64
  }

  /** A span in nanoseconds, as Go's time.Duration. */
  type Duration = Int64

  /** Nanoseconds since Go's zero time.Time. */
  type Instant = int

  const ZERO_TIME: Instant := 0
  const SECOND: Duration := 1_000_000_000
  const MINUTE: Duration := 60_000_000_000

  /** time.Since: the difference, saturated to the range of a Duration. */
  function Since(now: Instant, t: Instant): Duration {
    if now - t > MAX_INT64 then MAX_INT64
    else if now - t < MIN_INT64 then MIN_INT64
    else now - t
  }

  /** Wrapping keeps a number modulo 2^64, and leaves alone what fits. */
  lemma WrapMeaning(n: int)
    ensures exists k: int :: Wrap64(n) == n + k * 0x1_0000_0000_0000_0000
    ensures MIN_INT64 <= n <= MAX_INT64 ==> Wrap64(n) == n
  {
    var q := (n - MIN_INT64) / 0x1_0000_0000_0000_0000;
    assert Wrap64(n) == n + (-q) * 0x1_0000_0000_0000_0000;
  }

  /** The difference, or the Duration nearest to it. */
  lemma SinceMeaning(now: Instant, t: Instant, d: Duration)
    ensures MIN_INT64 <= now - t <= MAX_INT64 ==> Since(now, t) == now - t
    ensures now - t > MAX_INT64 ==> d <= Since(now, t)
    ensures now - t < MIN_INT64 ==> Since(now, t) <= d
  {
  }
}

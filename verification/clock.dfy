/** Wall-clock time as the services read it: milliseconds since the epoch
    (`Date.now()`, `new Date()`), always supplied by the caller. */
module Clock {

  type Time = int

  const SECOND_MS: int := 1000
  const MINUTE_MS: int := 60 * SECOND_MS
  const HOUR_MS: int := 60 * MINUTE_MS
  const DAY_MS: int := 24 * HOUR_MS
}

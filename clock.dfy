/** Monotonic time as integer milliseconds, standing in for `Instant` and `Duration`. */
module Clock {
  /** `since.elapsed()` read at time `now`: the gap in milliseconds, saturating at zero
      when `now` is earlier than `since`, as `Instant::elapsed` does. */
  function Elapsed(since: int, now: int): nat
  {
    if now >= since then now - since else 0
  }
}

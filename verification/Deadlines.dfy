/**
 * Deadline arithmetic of long operations. Time is a count of nanoseconds on a
 * steady clock whose largest time point doubles as the "no deadline" value.
 */
module Deadlines {
  import opened Common
  import opened Statuses

  const NS_PER_MS := 1_000_000
  const TIME_MAX := 0x7FFF_FFFF_FFFF_FFFF
  const WAIT_INFINITE := U32_MAX

  /** Nanoseconds rounded up to whole milliseconds, also for negative spans. */
  function CeilMs(ns: int): (ms: int)
    ensures (ms - 1) * NS_PER_MS < ns <= ms * NS_PER_MS
  {
    -((-ns) / NS_PER_MS)
  }

  function UpdateDeadline(started: int, timeoutMs: int): Result<int, Status>
    requires 0 <= started <= TIME_MAX && 0 <= timeoutMs <= WAIT_INFINITE
  {
    if timeoutMs == WAIT_INFINITE then Ok(TIME_MAX)
    else if timeoutMs * NS_PER_MS > TIME_MAX - started then Err(InvalidArgument)
    else Ok(started + timeoutMs * NS_PER_MS)
  }

  function RemainingTimeout(deadline: int, now: int): Result<int, Status> {
    if deadline == TIME_MAX then Ok(WAIT_INFINITE)
    else if now >= deadline then Err(Timeout)
    else
      var remaining := CeilMs(deadline - now);
      if remaining <= 0 then Err(Timeout) else Ok(Min(remaining, WAIT_INFINITE - 1))
  }

  /** The per-call timeout of a transport that carries a deadline. */
  function BoundedTimeout(deadline: int, now: int, requestedMs: int): Option<int> {
    if now >= deadline then None else Some(Min(requestedMs, CeilMs(deadline - now)))
  }

  /**
   * A finite timeout turns into "no deadline" for exactly one start time, the
   * one that lands on the clock's last time point; below it the deadline is the
   * requested one, above it the timeout is refused.
   */
  lemma FiniteTimeoutDeadline(started: int, timeoutMs: int)
    requires 0 <= started <= TIME_MAX && 0 <= timeoutMs < WAIT_INFINITE
    ensures UpdateDeadline(started, timeoutMs) == Ok(TIME_MAX)
       <==> started + timeoutMs * NS_PER_MS == TIME_MAX
    ensures UpdateDeadline(started, timeoutMs).Err? <==> started + timeoutMs * NS_PER_MS > TIME_MAX
    ensures forall d | UpdateDeadline(started, timeoutMs) == Ok(d) :: d == started + timeoutMs * NS_PER_MS
  {
  }

  /** An infinite timeout always becomes "no deadline", and every call then gets the infinite timeout again. */
  lemma InfiniteStaysInfinite(started: int, now: int)
    requires 0 <= started <= TIME_MAX
    ensures UpdateDeadline(started, WAIT_INFINITE) == Ok(TIME_MAX)
    ensures RemainingTimeout(UpdateDeadline(started, WAIT_INFINITE).value, now) == Ok(WAIT_INFINITE)
  {
  }

  /** One millisecond before the end of the clock, a 1 ms timeout never expires. */
  lemma FiniteTimeoutCanBecomeInfinite(now: int)
    ensures UpdateDeadline(0x7FFF_FFFF_FFFF_FFFF - 1_000_000, 1) == Ok(0x7FFF_FFFF_FFFF_FFFF)
    ensures RemainingTimeout(TIME_MAX, now) == Ok(WAIT_INFINITE)
  {
  }

  /**
   * With a finite deadline the remaining timeout exists exactly before the
   * deadline, never equals the infinite value, and is the least whole number of
   * milliseconds that reaches the deadline unless it is capped.
   */
  lemma RemainingTimeoutIsTight(deadline: int, now: int)
    requires deadline < TIME_MAX
    ensures RemainingTimeout(deadline, now).Ok? <==> now < deadline
    ensures RemainingTimeout(deadline, now).Err? ==> RemainingTimeout(deadline, now).error == Timeout
    ensures forall ms | RemainingTimeout(deadline, now) == Ok(ms) ::
              && 1 <= ms < WAIT_INFINITE
              && now + (ms - 1) * NS_PER_MS < deadline
              && (deadline <= now + ms * NS_PER_MS || ms == WAIT_INFINITE - 1)
  {
    if now < deadline {
      var ms := CeilMs(deadline - now);
      assert ms >= 1;
    }
  }

  /** A deadline transport refuses an expired call, never lengthens one and overshoots by less than 1 ms. */
  lemma BoundedTimeoutKeepsDeadline(deadline: int, now: int, requestedMs: int)
    ensures BoundedTimeout(deadline, now, requestedMs).None? <==> now >= deadline
    ensures forall ms | BoundedTimeout(deadline, now, requestedMs) == Some(ms) ::
              && ms <= requestedMs
              && now + ms * NS_PER_MS < deadline + NS_PER_MS
              && (ms == requestedMs || deadline <= now + ms * NS_PER_MS)
  {
  }
}

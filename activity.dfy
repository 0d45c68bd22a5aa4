/**
 The active/idle rule applied to each user at scrape time: a user is active
 when less than `waitHour` hours have passed since their last activity.
 */
module Activity {

  import opened Int64

  const NanosPerHour: int := 60 * 60 * 1_000_000_000

  /** Go evaluates `now - last < hours*60*60*1e9` on int64 operands. Every
      subtraction and multiplication wraps modulo 2^64, and wrapping commutes
      with both, so each side equals one `Wrap` of its mathematical value.
      Without overflow the rule is the plain comparison of elapsed time with the window. */
  predicate IsActive(now: int64, last: int64, hours: int64)
    ensures InRange(now as int - last as int) && InRange(hours as int * NanosPerHour) ==>
      (IsActive(now, last, hours) <==> now as int - last as int < hours as int * NanosPerHour)
  {
    Wrap(now as int - last as int) < Wrap(hours as int * NanosPerHour)
  }

  /** Elapsed time exactly equal to the window is idle, overflow or not. */
  lemma WindowBoundaryIsIdle(now: int64, last: int64, hours: int64)
    requires now as int - last as int == hours as int * NanosPerHour
    ensures !IsActive(now, last, hours)
  {
  }

  /** When the elapsed time does not overflow, a later activity never turns an active user idle. */
  lemma LaterActivityStaysActive(now: int64, last: int64, later: int64, hours: int64)
    requires last <= later <= now && InRange(now as int - last as int)
    requires IsActive(now, last, hours)
    ensures IsActive(now, later, hours)
  {
  }
}

/** Points in time as the analytics compare them. Transaction dates are
    day numbers (midnight of that day); "now" is supplied by the caller in
    place of `datetime.now()`, and the cutoffs derived from it keep its
    time of day, exactly as `now.replace(day=1)` and
    `now - timedelta(days=n)` do. */
module Clock {

  const MicrosPerDay: int := 86_400_000_000

  /** A moment: a day number and the microseconds elapsed since its midnight. */
  datatype Instant = Instant(day: int, micros: int)

  /** The processing time: its day number, the day of the month that day
      falls on (1-based), and the time of day. */
  datatype Now = Now(day: int, dayOfMonth: int, micros: int)

  predicate ValidInstant(t: Instant) {
    0 <= t.micros < MicrosPerDay
  }

  predicate ValidNow(now: Now) {
    1 <= now.dayOfMonth <= 31 && 0 <= now.micros < MicrosPerDay
  }

  /** `now.replace(day=1)`: the first day of the current month, at the
      current time of day. */
  function MonthStart(now: Now): (t: Instant)
    ensures ValidNow(now) ==> ValidInstant(t) && now.day - 30 <= t.day <= now.day
    ensures t.day + now.dayOfMonth - 1 == now.day && t.micros == now.micros
  {
    Instant(now.day - (now.dayOfMonth - 1), now.micros)
  }

  /** `now - timedelta(days=n)`: the same time of day, `n` days earlier. */
  function DaysBefore(now: Now, n: int): (t: Instant)
    ensures t.day + n == now.day && t.micros == now.micros
  {
    Instant(now.day - n, now.micros)
  }

  /** `date >= cutoff` for a midnight-dated row: compares the row's
      midnight with the cutoff moment. */
  predicate OnOrAfter(day: int, cutoff: Instant) {
    day * MicrosPerDay >= cutoff.day * MicrosPerDay + cutoff.micros
  }

  /** A row dated on the cutoff's own day passes only when the cutoff falls
      exactly at midnight; any later day always passes, any earlier day
      never does. */
  lemma OnOrAfterBoundary(day: int, cutoff: Instant)
    requires ValidInstant(cutoff)
    ensures OnOrAfter(day, cutoff) <==> day > cutoff.day || (day == cutoff.day && cutoff.micros == 0)
  {
    if day > cutoff.day {
      assert day * MicrosPerDay >= (cutoff.day + 1) * MicrosPerDay;
    } else if day < cutoff.day {
      assert day * MicrosPerDay <= (cutoff.day - 1) * MicrosPerDay;
    }
  }
}

/**
 * The blocking-period decision of the main window: whether a time of day lies
 * in the daily window during which websites and applications are blocked.
 * A time of day is a number of seconds since midnight.
 */
module Schedule {

  const SecondsPerDay: int := 86400

  type TimeOfDay = t: int | 0 <= t < 86400

  /** `new TimeSpan(hours, minutes, seconds)` for a time within one day. */
  function Hms(hours: int, minutes: int, seconds: int): (t: TimeOfDay)
    requires 0 <= hours < 24 && 0 <= minutes < 60 && 0 <= seconds < 60
    ensures t / 3600 == hours && (t % 3600) / 60 == minutes && t % 60 == seconds
  {
    var r := minutes * 60 + seconds;
    assert r / 60 == minutes && r % 60 == seconds;
    assert (hours * 3600 + r) / 3600 == hours && (hours * 3600 + r) % 3600 == r;
    hours * 3600 + r
  }

  /** The configured window, 08:00:00 to 18:00:00. */
  const BlockingStartTime: TimeOfDay := 8 * 3600
  const BlockingEndTime: TimeOfDay := 18 * 3600

  /**
   * The test the code performs: `now >= start && now <= end`.
   * There is no branch for a window that wraps past midnight.
   */
  predicate InWindow(now: TimeOfDay, start: TimeOfDay, end: TimeOfDay) {
    start <= now && now <= end
  }

  /** `IsWithinBlockingPeriod()` for the time of day read from the clock. */
  predicate IsWithinBlockingPeriod(now: TimeOfDay) {
    InWindow(now, BlockingStartTime, BlockingEndTime)
  }

  /**
   * Reference definition of a daily window in which a start later than the end
   * means that the window runs across midnight.
   */
  predicate WrappingWindow(now: TimeOfDay, start: TimeOfDay, end: TimeOfDay) {
    if start <= end then start <= now <= end else now >= start || now <= end
  }

  /** The period is inclusive at both ends: active at exactly 08:00:00 and 18:00:00, not a second outside. */
  lemma BlockingPeriodBoundaries()
    ensures IsWithinBlockingPeriod(Hms(8, 0, 0)) && IsWithinBlockingPeriod(Hms(18, 0, 0))
    ensures !IsWithinBlockingPeriod(Hms(7, 59, 59)) && !IsWithinBlockingPeriod(Hms(18, 0, 1))
  {
    assert Hms(8, 0, 0) == 28800 && Hms(18, 0, 0) == 64800;
    assert Hms(7, 59, 59) == 28799 && Hms(18, 0, 1) == 64801;
  }

  /** Midnight and the last second of the day lie outside the period. */
  lemma NightIsOutsidePeriod()
    ensures !IsWithinBlockingPeriod(0) && !IsWithinBlockingPeriod(SecondsPerDay - 1)
  {
  }

  /** The blocking period is the set of times whose hour is 8 to 17, plus exactly 18:00:00. */
  lemma BlockingPeriodByHour(now: TimeOfDay)
    ensures IsWithinBlockingPeriod(now) <==> (8 <= now / 3600 < 18 || now == Hms(18, 0, 0))
  {
  }

  /** With a start later than the end the code's window is never active. */
  lemma InvertedWindowNeverActive(now: TimeOfDay, start: TimeOfDay, end: TimeOfDay)
    requires start > end
    ensures !InWindow(now, start, end)
  {
  }

  /** For a window that does not cross midnight the code agrees with the wrapping definition. */
  lemma AgreesWithWrappingWhenOrdered(now: TimeOfDay, start: TimeOfDay, end: TimeOfDay)
    requires start <= end
    ensures InWindow(now, start, end) <==> WrappingWindow(now, start, end)
  {
  }

  /**
   * For a window that does cross midnight the two disagree: the wrapping
   * definition is active at the start and end times, the code is not.
   */
  lemma DiffersFromWrappingWhenInverted(start: TimeOfDay, end: TimeOfDay)
    requires start > end
    ensures WrappingWindow(start, start, end) && !InWindow(start, start, end)
    ensures WrappingWindow(end, start, end) && !InWindow(end, start, end)
  {
  }
}

/**
 * Local Korean time and its conversion to UTC. Asia/Seoul keeps UTC+9 all year, so the
 * conversion is a fixed shift. Instants are whole seconds since 1970-01-01 00:00; a
 * calendar date is a day number counted from the same origin.
 */
module KstTime {
  const SecondsPerHour := 3600
  const HoursPerDay := 24
  /** Asia/Seoul is UTC+9 with no daylight-saving time. */
  const KstOffsetHours := 9

  datatype PartOfDay = Day | Night

  /** The local hour number at which hour column `hour` (1..24) of local date `day` starts. */
  function LocalHourStart(day: int, hour: int): int {
    day * HoursPerDay + (hour - 1)
  }

  /** `(d + (hour-1) * INTERVAL '1 hour')::timestamp AT TIME ZONE 'Asia/Seoul'`, in seconds. */
  function ToUtc(day: int, hour: int): int {
    (LocalHourStart(day, hour) - KstOffsetHours) * SecondsPerHour
  }

  /** `CASE WHEN hour BETWEEN 7 AND 21 THEN 'day' ELSE 'night' END`. */
  function PartOfDayOf(hour: int): PartOfDay {
    if 7 <= hour <= 21 then Day else Night
  }

  /** `date_trunc('hour', ts AT TIME ZONE 'Asia/Seoul')`, as a local hour number. */
  function KstHourOf(tsUtc: int): int {
    (tsUtc + KstOffsetHours * SecondsPerHour) / SecondsPerHour
  }

  /** `ts_hour_kst::date` of a local hour number. */
  function DayOf(localHour: int): int { localHour / HoursPerDay }

  /** `EXTRACT(HOUR FROM ts_hour_kst)` of a local hour number: 0..23. */
  function HourOfDay(localHour: int): int { localHour % HoursPerDay }

  /** A whole-hour instant is a multiple of an hour. */
  predicate OnTheHour(tsUtc: int) { tsUtc % SecondsPerHour == 0 }

  /**
   * Reading the stored instant back in local time gives the original date, and hour column h
   * comes back as clock hour h - 1 (hour 1 is the hour starting at local midnight).
   */
  lemma {:induction false} ToUtcRoundTrip(day: int, hour: int)
    requires 1 <= hour <= 24
    ensures OnTheHour(ToUtc(day, hour))
    ensures KstHourOf(ToUtc(day, hour)) == LocalHourStart(day, hour)
    ensures DayOf(LocalHourStart(day, hour)) == day
    ensures HourOfDay(LocalHourStart(day, hour)) == hour - 1
  {
    var lh := LocalHourStart(day, hour);
    assert ToUtc(day, hour) + KstOffsetHours * SecondsPerHour == lh * SecondsPerHour;
    assert lh == day * 24 + (hour - 1) && 0 <= hour - 1 < 24;
  }

  /** Distinct (date, hour 1..24) pairs never share a UTC instant, so readings of one station never collide. */
  lemma ToUtcInjective(d1: int, h1: int, d2: int, h2: int)
    requires 1 <= h1 <= 24 && 1 <= h2 <= 24
    ensures ToUtc(d1, h1) == ToUtc(d2, h2) <==> d1 == d2 && h1 == h2
  {
    if ToUtc(d1, h1) == ToUtc(d2, h2) {
      ToUtcRoundTrip(d1, h1);
      ToUtcRoundTrip(d2, h2);
    }
  }

  /** Every whole-hour instant is the conversion of exactly one (date, hour 1..24) pair. */
  lemma {:induction false} ToUtcOnto(tsUtc: int)
    requires OnTheHour(tsUtc)
    ensures var lh := KstHourOf(tsUtc);
      ToUtc(DayOf(lh), HourOfDay(lh) + 1) == tsUtc && 1 <= HourOfDay(lh) + 1 <= 24
  {
    var lh := KstHourOf(tsUtc);
    assert tsUtc + KstOffsetHours * SecondsPerHour == lh * SecondsPerHour;
    assert DayOf(lh) * HoursPerDay + HourOfDay(lh) == lh;
  }

  /** The day/night tag stored beside a reading agrees with the local clock hour read back from its instant. */
  lemma PartOfDayMatchesInstant(day: int, hour: int)
    requires 1 <= hour <= 24
    ensures PartOfDayOf(HourOfDay(KstHourOf(ToUtc(day, hour))) + 1) == PartOfDayOf(hour)
    ensures PartOfDayOf(hour) == Day <==> 6 <= HourOfDay(KstHourOf(ToUtc(day, hour))) <= 20
  {
    ToUtcRoundTrip(day, hour);
  }

  /** Local midnight (hour 1) is 15:00 UTC of the previous day; hour 24 starts at 14:00 UTC of the same day. */
  lemma DayBoundariesInUtc(day: int)
    ensures ToUtc(day, 1) == ((day - 1) * HoursPerDay + 15) * SecondsPerHour
    ensures ToUtc(day, 24) == (day * HoursPerDay + 14) * SecondsPerHour
  {
  }
}

/** Timestamps as whole seconds since 1970-01-01 00:00 UTC, the zone every
    timestamp of the pipeline is stored in. Calendar fields are computed the way
    Python's `datetime` computes them; Dafny's `/` and `%` round towards minus
    infinity for a positive divisor, as Python's `//` and `%` do. */
module Clock {

  const SecondsPerDay := 86400

  /** Days since 1970-01-01, what `.date()` keeps of a timestamp. */
  function DayNumber(t: int): int {
    t / SecondsPerDay
  }

  function SecondOfDay(t: int): (r: int)
    ensures 0 <= r < SecondsPerDay
    ensures t == DayNumber(t) * SecondsPerDay + r
  {
    t % SecondsPerDay
  }

  function Hour(t: int): (r: int)
    ensures 0 <= r < 24
  {
    SecondOfDay(t) / 3600
  }

  function Minute(t: int): (r: int)
    ensures 0 <= r < 60
  {
    (SecondOfDay(t) / 60) % 60
  }

  function Second(t: int): (r: int)
    ensures 0 <= r < 60
  {
    SecondOfDay(t) % 60
  }

  /** The clock reading splits the second of the day exactly. */
  lemma ClockFieldsSplitTheDay(t: int)
    ensures Hour(t) * 3600 + Minute(t) * 60 + Second(t) == SecondOfDay(t)
  {
    var s := SecondOfDay(t);
    assert s == (s / 3600) * 3600 + s % 3600;
    assert s % 3600 == ((s % 3600) / 60) * 60 + s % 60;
    assert (s / 60) % 60 == (s % 3600) / 60;
  }

  /** `date.weekday()`: Monday is 0 and Sunday 6; 1970-01-01 was a Thursday. */
  function Weekday(t: int): (r: int)
    ensures 0 <= r < 7
  {
    (DayNumber(t) + 3) % 7
  }

  datatype CivilDate = CivilDate(year: int, month: int, day: int)

  /** The proleptic Gregorian date of a day number (days since 1970-01-01). */
  function CivilFromDays(days: int): CivilDate {
    var z := days + 719468;
    var era := z / 146097;
    var doe := z - era * 146097;
    var yoe := (doe - doe / 1460 + doe / 36524 - doe / 146096) / 365;
    var doy := doe - (365 * yoe + yoe / 4 - yoe / 100);
    var mp := (5 * doy + 2) / 153;
    var d := doy - (153 * mp + 2) / 5 + 1;
    var m := if mp < 10 then mp + 3 else mp - 9;
    CivilDate(yoe + era * 400 + (if m <= 2 then 1 else 0), m, d)
  }

  function Year(days: int): int { CivilFromDays(days).year }
  function Month(days: int): int { CivilFromDays(days).month }

  /** Two fixed points of the calendar: the epoch and a Saturday of 2025. */
  lemma CalendarExamples()
    ensures CivilFromDays(0) == CivilDate(1970, 1, 1)
    ensures CivilFromDays(20414) == CivilDate(2025, 11, 22)
    ensures Weekday(20414 * SecondsPerDay) == 5
  {
    assert 719468 / 146097 == 4 && 135080 / 1460 == 92 && 135080 / 36524 == 3 && 135080 / 146096 == 0;
    assert 134991 / 365 == 369 && 369 / 4 == 92 && 369 / 100 == 3;
    assert 1532 / 153 == 10 && 1532 / 5 == 306;
    assert 739882 / 146097 == 5 && 9397 / 1460 == 6 && 9397 / 36524 == 0 && 9397 / 146096 == 0;
    assert 9391 / 365 == 25 && 25 / 4 == 6 && 25 / 100 == 0;
    assert 1332 / 153 == 8 && 1226 / 5 == 245;
    assert 20414 * SecondsPerDay / SecondsPerDay == 20414;
  }
}

/** Milliseconds since 1970-01-01T00:00:00.000Z of a UTC date and time in
    the proleptic Gregorian calendar, as `new Date("YYYY-MM-DDTHH:mm:ss.sssZ")`
    computes them. A date-only literal `new Date("YYYY-MM-DD")` denotes
    midnight UTC of that day. */
module Calendar {

  const MillisPerDay: int := 86400000

  predicate IsLeapYear(y: int) {
    y % 4 == 0 && (y % 100 != 0 || y % 400 == 0)
  }

  /** Leap years in the years before `y`, counted from a fixed origin. */
  function LeapsBefore(y: int): int {
    (y - 1) / 4 - (y - 1) / 100 + (y - 1) / 400
  }

  lemma LeapsBeforeStep(y: int)
    ensures LeapsBefore(y + 1) - LeapsBefore(y) == if IsLeapYear(y) then 1 else 0
  {
    QuarterStep(y);
    CenturyStep(y);
    QuadricentennialStep(y);
  }

  lemma QuarterStep(y: int)
    ensures y / 4 - (y - 1) / 4 == if y % 4 == 0 then 1 else 0
  {
  }

  lemma CenturyStep(y: int)
    ensures y / 100 - (y - 1) / 100 == if y % 100 == 0 then 1 else 0
  {
  }

  lemma QuadricentennialStep(y: int)
    ensures y / 400 - (y - 1) / 400 == if y % 400 == 0 then 1 else 0
  {
  }

  function DaysInYear(y: int): int {
    if IsLeapYear(y) then 366 else 365
  }

  /** Days from 1970-01-01 to January 1 of year `y`. */
  function DaysBeforeYear(y: int): int {
    365 * (y - 1970) + LeapsBefore(y) - LeapsBefore(1970)
  }

  predicate ValidMonthDay(y: int, m: int, d: int) {
    1 <= m <= 12 && 1 <= d <= DaysInMonth(y, m)
  }

  function DaysInMonth(y: int, m: int): int
    requires 1 <= m <= 12
  {
    if m == 2 then (if IsLeapYear(y) then 29 else 28)
    else if m == 4 || m == 6 || m == 9 || m == 11 then 30
    else 31
  }

  /** Days from January 1 to the first day of month `m` of year `y`. */
  function DaysBeforeMonth(y: int, m: int): int
    requires 1 <= m <= 12
  {
    [0, 31, 59, 90, 120, 151, 181, 212, 243, 273, 304, 334][m - 1]
      + (if m > 2 && IsLeapYear(y) then 1 else 0)
  }

  /** The table of month offsets agrees with the month lengths. */
  lemma DaysBeforeMonthStep(y: int, m: int)
    requires 1 <= m < 12
    ensures DaysBeforeMonth(y, m + 1) == DaysBeforeMonth(y, m) + DaysInMonth(y, m)
  {
  }

  /** The time value of `YYYY-MM-DDTHH:mm:ss.sssZ`. */
  function UtcMillis(y: int, m: int, d: int, hh: int, mm: int, ss: int, ms: int): int
    requires ValidMonthDay(y, m, d)
  {
    (DaysBeforeYear(y) + DaysBeforeMonth(y, m) + d - 1) * MillisPerDay
      + hh * 3600000 + mm * 60000 + ss * 1000 + ms
  }

  /** The time value of `YYYY-01-01`, midnight UTC. */
  function YearStart(y: int): int {
    UtcMillis(y, 1, 1, 0, 0, 0, 0)
  }

  /** The time value of `YYYY-12-31T23:59:59.999Z`. */
  function YearEnd(y: int): int {
    UtcMillis(y, 12, 31, 23, 59, 59, 999)
  }

  /** The last millisecond of a year is immediately followed by the first
      millisecond of the next: the year ranges tile the time line. */
  lemma {:induction false} YearEndMeetsNextStart(y: int)
    ensures YearEnd(y) + 1 == YearStart(y + 1)
  {
    LeapsBeforeStep(y);
    assert DaysBeforeMonth(y, 12) + 31 == DaysInYear(y);
  }

  /** Each year's range is non-empty, so successive ranges are ordered. */
  lemma YearStartBeforeEnd(y: int)
    ensures YearStart(y) < YearEnd(y)
  {
    assert DaysBeforeMonth(y, 12) >= 334;
  }

  /** A time value lies in the ranges of two years only if they are the
      same year. */
  lemma {:induction false} YearRangesDisjoint(y1: int, y2: int, t: int)
    requires YearStart(y1) <= t <= YearEnd(y1)
    requires YearStart(y2) <= t <= YearEnd(y2)
    ensures y1 == y2
  {
    if y1 < y2 {
      YearEndsBefore(y1, y2);
    } else if y2 < y1 {
      YearEndsBefore(y2, y1);
    }
  }

  /** An earlier year's range ends before a later year's begins. */
  lemma YearEndsBefore(a: int, b: int)
    requires a < b
    ensures YearEnd(a) < YearStart(b)
  {
    YearStartMonotone(a + 1, b);
    YearEndMeetsNextStart(a);
  }

  lemma {:induction false} YearStartMonotone(a: int, b: int)
    requires a <= b
    ensures YearStart(a) <= YearStart(b)
    decreases b - a
  {
    if a < b {
      YearStartMonotone(a + 1, b);
      YearEndMeetsNextStart(a);
      YearStartBeforeEnd(a);
    }
  }

  /** The boundary instants of the year ranges 2025 and 2026, as times. */
  lemma Year2025Boundaries()
    ensures YearStart(2025) == 1735689600000
    ensures YearEnd(2025) == 1767225599999
    ensures YearStart(2026) == 1767225600000
  {
    Year2025Start();
    Year2025End();
    YearEndMeetsNextStart(2025);
  }

  lemma Year2025Start()
    ensures YearStart(2025) == 1735689600000
  {
    assert LeapsBefore(2025) - LeapsBefore(1970) == 14;
  }

  lemma Year2025End()
    ensures YearEnd(2025) == 1767225599999
  {
    assert LeapsBefore(2025) - LeapsBefore(1970) == 14;
    assert DaysBeforeMonth(2025, 12) == 334;
  }
}

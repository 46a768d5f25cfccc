/** UTC instants as the sequence engine sees them: civil date plus time of day. */
module Calendar {

  datatype Time = Time(year: int, month: int, day: int, nanos: int)

  predicate Leap(y: int) {
    y % 4 == 0 && (y % 100 != 0 || y % 400 == 0)
  }

  function DaysIn(y: int, m: int): int {
    if m == 2 then (if Leap(y) then 29 else 28)
    else if m == 4 || m == 6 || m == 9 || m == 11 then 30
    else 31
  }

  predicate Valid(t: Time) {
    1 <= t.month <= 12 && 1 <= t.day <= DaysIn(t.year, t.month) && 0 <= t.nanos < 86_400_000_000_000
  }

  /** Days of the year before month `m`. */
  function DaysBefore(y: int, m: int): int
    requires 1 <= m <= 12
  {
    [0, 31, 59, 90, 120, 151, 181, 212, 243, 273, 304, 334][m - 1] + (if m > 2 && Leap(y) then 1 else 0)
  }

  /** `time.Time.YearDay`. */
  function YearDay(t: Time): int
    requires Valid(t)
  {
    DaysBefore(t.year, t.month) + t.day
  }

  /** Chronological order. */
  predicate NotAfter(a: Time, b: Time) {
    a.year < b.year || (a.year == b.year &&
      (a.month < b.month || (a.month == b.month &&
        (a.day < b.day || (a.day == b.day && a.nanos <= b.nanos)))))
  }

  /** Within one year the day of the year determines month and day. */
  lemma YearDayDetermines(a: Time, b: Time)
    requires Valid(a) && Valid(b) && a.year == b.year
    ensures YearDay(a) == YearDay(b) <==> a.month == b.month && a.day == b.day
  {
  }

  /** The months follow each other without gaps and make up 365 days, or 366 in a leap year. */
  lemma MonthsAddUp(y: int, m: int)
    requires 1 <= m <= 12
    ensures DaysBefore(y, 1) == 0
    ensures m < 12 ==> DaysBefore(y, m + 1) == DaysBefore(y, m) + DaysIn(y, m)
    ensures DaysBefore(y, 12) + DaysIn(y, 12) == if Leap(y) then 366 else 365
  {
  }

  /** Every fourth year is a leap year, except the centuries that 400 does not divide. */
  lemma LeapYears()
    ensures Leap(2024) && Leap(2000) && !Leap(2023) && !Leap(1900) && !Leap(2100)
    ensures Valid(Time(2024, 2, 29, 0)) && !Valid(Time(2023, 2, 29, 0)) && Valid(Time(2023, 12, 31, 86_399_999_999_999))
  {
  }
}

/**
 Proleptic Gregorian calendar arithmetic for timezone-naive timestamps at
 whole-second resolution: validity, day numbers counted from 1970-01-01,
 seconds since that epoch, the day of the week, and chronological order.
 */
module Calendar {

  /** A parsed timestamp without a timezone. */
  datatype Timestamp = Timestamp(year: int, month: int, day: int, hour: int, minute: int, second: int)

  predicate IsLeapYear(year: int) {
    year % 4 == 0 && (year % 100 != 0 || year % 400 == 0)
  }

  function DaysInYear(year: int): int {
    if IsLeapYear(year) then 366 else 365
  }

  function DaysInMonth(year: int, month: int): int
    requires 1 <= month <= 12
  {
    if month == 2 then (if IsLeapYear(year) then 29 else 28)
    else if month == 4 || month == 6 || month == 9 || month == 11 then 30
    else 31
  }

  /** A real instant of the calendar: month, day and time of day in range. */
  predicate Valid(t: Timestamp) {
    && 1 <= t.month <= 12
    && 1 <= t.day <= DaysInMonth(t.year, t.month)
    && 0 <= t.hour < 24
    && 0 <= t.minute < 60
    && 0 <= t.second < 60
  }

  type Instant = t: Timestamp | Valid(t) witness Timestamp(1970, 1, 1, 0, 0, 0)

  /** Strict chronological order, read off the components lexicographically. */
  predicate Before(a: Timestamp, b: Timestamp) {
    if a.year != b.year then a.year < b.year
    else if a.month != b.month then a.month < b.month
    else if a.day != b.day then a.day < b.day
    else if a.hour != b.hour then a.hour < b.hour
    else if a.minute != b.minute then a.minute < b.minute
    else a.second < b.second
  }

  /** The same time of day on the following calendar date. */
  function NextDay(t: Timestamp): (n: Timestamp)
    requires Valid(t)
    ensures Valid(n)
    ensures Before(t, n)
    ensures (n.hour, n.minute, n.second) == (t.hour, t.minute, t.second)
  {
    if t.day < DaysInMonth(t.year, t.month) then t.(day := t.day + 1)
    else if t.month < 12 then t.(month := t.month + 1, day := 1)
    else t.(year := t.year + 1, month := 1, day := 1)
  }

  /** Days of `year` that precede the first of `month`. */
  function DaysBeforeMonth(year: int, month: int): int
    requires 1 <= month <= 12
  {
    [0, 31, 59, 90, 120, 151, 181, 212, 243, 273, 304, 334][month - 1]
    + (if month > 2 && IsLeapYear(year) then 1 else 0)
  }

  /** Leap years among 1..n for n >= 0, extended to every integer by floor
      division so that consecutive values differ exactly at leap years. */
  function LeapYearsThrough(n: int): int {
    n / 4 - n / 100 + n / 400
  }

  /** Days from 1970-01-01 to the first of January of `year`; negative before 1970. */
  function DaysBeforeYear(year: int): int {
    365 * (year - 1970) + LeapYearsThrough(year - 1) - LeapYearsThrough(1969)
  }

  /** Day number of a civil date: 0 for 1970-01-01, counting both ways. */
  function DaysFromCivil(year: int, month: int, day: int): (d: int)
    requires 1 <= month <= 12
  {
    DaysBeforeYear(year) + DaysBeforeMonth(year, month) + (day - 1)
  }

  function DayNumber(t: Timestamp): (d: int)
    requires Valid(t)
  {
    DaysFromCivil(t.year, t.month, t.day)
  }

  /** Seconds since 1970-01-01T00:00:00, negative before it. The count
      splits back into the day number and the time of day. */
  function Seconds(t: Timestamp): (s: int)
    requires Valid(t)
    ensures s / 86400 == DayNumber(t)
    ensures s % 86400 == t.hour * 3600 + t.minute * 60 + t.second
  {
    DayNumber(t) * 86400 + t.hour * 3600 + t.minute * 60 + t.second
  }

  /** Day of the week counted from Monday = 0 to Sunday = 6;
      1970-01-01 was a Thursday (3). */
  function Weekday(t: Timestamp): (w: int)
    requires Valid(t)
    ensures 0 <= w < 7
  {
    (DayNumber(t) + 3) % 7
  }

  /** Floor division by each of the calendar's divisors steps by one exactly at a multiple. */
  lemma FloorDivisionSteps(n: int)
    ensures n / 4 - (n - 1) / 4 == if n % 4 == 0 then 1 else 0
    ensures n / 100 - (n - 1) / 100 == if n % 100 == 0 then 1 else 0
    ensures n / 400 - (n - 1) / 400 == if n % 400 == 0 then 1 else 0
    ensures n % 100 == 0 ==> n % 4 == 0
    ensures n % 400 == 0 ==> n % 100 == 0
  {
  }

  /** The floor-division leap count steps by one exactly at a leap year. */
  lemma LeapYearsStep(year: int)
    ensures LeapYearsThrough(year) - LeapYearsThrough(year - 1) == if IsLeapYear(year) then 1 else 0
  {
    FloorDivisionSteps(year);
  }

  lemma DaysBeforeYearStep(year: int)
    ensures DaysBeforeYear(year + 1) == DaysBeforeYear(year) + DaysInYear(year)
  {
    LeapYearsStep(year);
  }

  /** Later years start at least 365 days per year later. */
  lemma {:induction false} DaysBeforeYearMonotone(y1: int, y2: int)
    requires y1 <= y2
    ensures DaysBeforeYear(y1) + 365 * (y2 - y1) <= DaysBeforeYear(y2)
    decreases y2 - y1
  {
    if y1 < y2 {
      DaysBeforeYearStep(y1);
      DaysBeforeYearMonotone(y1 + 1, y2);
    }
  }

  /** The cumulative month table agrees with the month lengths. */
  lemma DaysBeforeMonthStep(year: int, month: int)
    requires 1 <= month <= 12
    ensures month < 12 ==> DaysBeforeMonth(year, month + 1) == DaysBeforeMonth(year, month) + DaysInMonth(year, month)
    ensures month == 12 ==> DaysBeforeMonth(year, month) + DaysInMonth(year, month) == DaysInYear(year)
  {
  }

  lemma {:induction false} DaysBeforeMonthMonotone(year: int, m1: int, m2: int)
    requires 1 <= m1 < m2 <= 12
    ensures DaysBeforeMonth(year, m1) + DaysInMonth(year, m1) <= DaysBeforeMonth(year, m2)
    decreases m2 - m1
  {
    DaysBeforeMonthStep(year, m1);
    if m1 + 1 < m2 {
      DaysBeforeMonthMonotone(year, m1 + 1, m2);
    }
  }

  /** Every date of a year falls between that year's first day and the next year's. */
  lemma DaysFromCivilWithinYear(year: int, month: int, day: int)
    requires 1 <= month <= 12 && 1 <= day <= DaysInMonth(year, month)
    ensures DaysBeforeYear(year) <= DaysFromCivil(year, month, day) < DaysBeforeYear(year + 1)
  {
    DaysBeforeYearStep(year);
    DaysBeforeMonthStep(year, 12);
    if month < 12 {
      DaysBeforeMonthMonotone(year, month, 12);
    }
  }

  predicate DateBefore(a: Timestamp, b: Timestamp) {
    || a.year < b.year
    || (a.year == b.year && a.month < b.month)
    || (a.year == b.year && a.month == b.month && a.day < b.day)
  }

  /** Day numbers increase strictly along the calendar. */
  lemma DayNumberIncreases(a: Timestamp, b: Timestamp)
    requires Valid(a) && Valid(b)
    requires DateBefore(a, b)
    ensures DayNumber(a) < DayNumber(b)
  {
    if a.year < b.year {
      DaysFromCivilWithinYear(a.year, a.month, a.day);
      DaysFromCivilWithinYear(b.year, b.month, b.day);
      DaysBeforeYearMonotone(a.year + 1, b.year);
    } else if a.month < b.month {
      DaysBeforeMonthMonotone(a.year, a.month, b.month);
    }
  }

  /** The seconds count orders valid timestamps exactly as the calendar does,
      and distinct timestamps never share a count. */
  lemma SecondsOrder(a: Timestamp, b: Timestamp)
    requires Valid(a) && Valid(b)
    ensures Before(a, b) <==> Seconds(a) < Seconds(b)
    ensures Seconds(a) == Seconds(b) <==> a == b
  {
    if DateBefore(a, b) {
      DayNumberIncreases(a, b);
    } else if DateBefore(b, a) {
      DayNumberIncreases(b, a);
    }
  }

  /** Moving to the next calendar date adds exactly one to the day number. */
  lemma NextDayNumber(t: Timestamp)
    requires Valid(t)
    ensures DayNumber(NextDay(t)) == DayNumber(t) + 1
  {
    if t.day == DaysInMonth(t.year, t.month) {
      DaysBeforeMonthStep(t.year, t.month);
      if t.month == 12 {
        DaysBeforeYearStep(t.year);
      }
    }
  }

  /** Moving to the next calendar date adds one day's seconds and advances
      the weekday cyclically. */
  lemma NextDayAdvances(t: Timestamp)
    requires Valid(t)
    ensures Seconds(NextDay(t)) == Seconds(t) + 86400
    ensures Weekday(NextDay(t)) == (Weekday(t) + 1) % 7
  {
    var n := NextDay(t);
    NextDayNumber(t);
    assert (n.hour, n.minute, n.second) == (t.hour, t.minute, t.second);
    CyclicSuccessor(DayNumber(t) + 3);
  }

  lemma CyclicSuccessor(d: int)
    ensures (d + 1) % 7 == (d % 7 + 1) % 7
  {
  }

  /** The same time of day `k` calendar dates later. */
  function DaysLater(t: Timestamp, k: nat): (n: Timestamp)
    requires Valid(t)
    ensures Valid(n)
    decreases k
  {
    if k == 0 then t else NextDay(DaysLater(t, k - 1))
  }

  /** `k` dates later is exactly `k` day numbers later. */
  lemma {:induction false} DaysLaterNumber(t: Timestamp, k: nat)
    requires Valid(t)
    ensures DayNumber(DaysLater(t, k)) == DayNumber(t) + k
    decreases k
  {
    if k > 0 {
      var previous := DaysLater(t, k - 1);
      DaysLaterNumber(t, k - 1);
      NextDayNumber(previous);
      assert DaysLater(t, k) == NextDay(previous);
    }
  }

  /** Stepping `k` dates on from the next date is stepping `k + 1` dates on. */
  lemma {:induction false} DaysLaterFromNextDay(t: Timestamp, k: nat)
    requires Valid(t)
    ensures DaysLater(NextDay(t), k) == DaysLater(t, k + 1)
    decreases k
  {
    if k > 0 {
      DaysLaterFromNextDay(t, k - 1);
    }
  }

  /** `k` dates later the weekday has advanced by `k` modulo 7. */
  lemma DaysLaterAdvances(t: Timestamp, k: nat)
    requires Valid(t)
    ensures DayNumber(DaysLater(t, k)) == DayNumber(t) + k
    ensures Weekday(DaysLater(t, k)) == (Weekday(t) + k) % 7
  {
    DaysLaterNumber(t, k);
    CyclicShift(DayNumber(t) + 3, k);
  }

  lemma CyclicShift(d: int, k: nat)
    ensures (d + k) % 7 == (d % 7 + k) % 7
  {
  }

  /** The epoch anchors the weekday numbering: 1970-01-01 was a Thursday. */
  lemma EpochIsThursday()
    ensures DayNumber(Timestamp(1970, 1, 1, 0, 0, 0)) == 0
    ensures Weekday(Timestamp(1970, 1, 1, 0, 0, 0)) == 3
  {
  }
}

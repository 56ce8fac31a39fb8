/** The proleptic Gregorian calendar on integer day numbers and millisecond
    timestamps, both counted from 1970-01-01T00:00:00Z. A JavaScript `Date`
    is its millisecond timestamp; local time is taken to be UTC. */
module Calendar {
  import opened Strings

  const MS_PER_SECOND: int := 1000
  const MS_PER_MINUTE: int := 60 * MS_PER_SECOND
  const MS_PER_HOUR: int := 60 * MS_PER_MINUTE
  const MS_PER_DAY: int := 24 * MS_PER_HOUR

  /** `getDay()` numbering. */
  const SUNDAY: int := 0
  const MONDAY: int := 1
  const TUESDAY: int := 2
  const THURSDAY: int := 4
  const FRIDAY: int := 5
  const SATURDAY: int := 6

  predicate IsLeapYear(y: int) {
    (y % 4 == 0 && y % 100 != 0) || y % 400 == 0
  }

  /** The number of leap years among 1..x (negative for x < 0, as floors give). */
  function LeapCount(x: int): int {
    x / 4 - x / 100 + x / 400
  }

  /** The day number of January 1 of year `y`. */
  function DaysBeforeYear(y: int): int {
    365 * (y - 1970) + LeapCount(y - 1) - LeapCount(1969)
  }

  /** A year has 366 days when it is a leap year and 365 otherwise. */
  lemma YearLength(y: int)
    ensures DaysBeforeYear(y + 1) - DaysBeforeYear(y) == if IsLeapYear(y) then 366 else 365
  {
    StepBy4(y);
    StepBy100(y);
    StepBy400(y);
    CenturiesAreQuadrennial(y);
  }

  lemma StepBy4(y: int)
    ensures y / 4 == (y - 1) / 4 + (if y % 4 == 0 then 1 else 0)
  {
  }

  lemma StepBy100(y: int)
    ensures y / 100 == (y - 1) / 100 + (if y % 100 == 0 then 1 else 0)
  {
  }

  lemma StepBy400(y: int)
    ensures y / 400 == (y - 1) / 400 + (if y % 400 == 0 then 1 else 0)
  {
  }

  lemma CenturiesAreQuadrennial(y: int)
    ensures y % 100 == 0 ==> y % 4 == 0
    ensures y % 400 == 0 ==> y % 100 == 0
  {
    if y % 100 == 0 {
      CenturyIsQuadrennial(y);
    }
    if y % 400 == 0 {
      QuadricentennialIsCentury(y);
    }
  }

  lemma CenturyIsQuadrennial(y: int)
    requires y % 100 == 0
    ensures y % 4 == 0
  {
    var q := y / 100;
    assert y == 4 * (25 * q);
  }

  lemma QuadricentennialIsCentury(y: int)
    requires y % 400 == 0
    ensures y % 100 == 0
  {
    var q := y / 400;
    assert y == 100 * (4 * q);
  }

  function DaysInMonth(y: int, m: int): (n: int)
    requires 0 <= m < 12
    ensures 28 <= n <= 31
  {
    if m == 1 then (if IsLeapYear(y) then 29 else 28)
    else if m == 3 || m == 5 || m == 8 || m == 10 then 30
    else 31
  }

  /** Days of year `y` before the first of month `m` (0 = January). */
  function DaysBeforeMonth(y: int, m: int): int
    requires 0 <= m < 12
  {
    [0, 31, 59, 90, 120, 151, 181, 212, 243, 273, 304, 334][m]
      + (if m >= 2 && IsLeapYear(y) then 1 else 0)
  }

  /** The months tile the year. */
  lemma MonthsTileYear(y: int, m: int)
    requires 0 <= m < 12
    ensures m < 11 ==> DaysBeforeMonth(y, m + 1) == DaysBeforeMonth(y, m) + DaysInMonth(y, m)
    ensures m == 11 ==> DaysBeforeYear(y) + DaysBeforeMonth(y, m) + DaysInMonth(y, m) == DaysBeforeYear(y + 1)
  {
    YearLength(y);
  }

  /** The day number of day-of-month `d` (1-based) in month `m` (0-based) of year `y`:
      `new Date(y, m, d)`. */
  function DayNumber(y: int, m: int, d: int): int
    requires 0 <= m < 12
  {
    DaysBeforeYear(y) + DaysBeforeMonth(y, m) + d - 1
  }

  /** A day of a month lies in its year. */
  lemma DayInYear(y: int, m: int, d: int)
    requires 0 <= m < 12 && 1 <= d <= DaysInMonth(y, m)
    ensures DaysBeforeYear(y) <= DayNumber(y, m, d) < DaysBeforeYear(y + 1)
  {
    var k := m;
    while k < 11
      invariant m <= k <= 11
      invariant DaysBeforeMonth(y, m) + DaysInMonth(y, m) <= DaysBeforeMonth(y, k) + DaysInMonth(y, k)
    {
      MonthsTileYear(y, k);
      k := k + 1;
    }
    MonthsTileYear(y, 11);
  }

  /** `getDay()` of a day number: 1970-01-01 was a Thursday. */
  function Weekday(day: int): (w: int)
    ensures 0 <= w < 7
  {
    (day + 4) % 7
  }

  /** date-fns `nextMonday`, `nextTuesday`, ...: the first day strictly after `day`
      that falls on weekday `wd`. */
  function NextWeekday(day: int, wd: int): (r: int)
    requires 0 <= wd < 7
    ensures day < r <= day + 7
    ensures Weekday(r) == wd
    ensures forall k :: day < k < r ==> Weekday(k) != wd
  {
    var delta := wd - Weekday(day);
    var r := if delta <= 0 then day + delta + 7 else day + delta;
    NextWeekdayFacts(day, wd, r);
    r
  }

  /** The days after `day` run through the weekdays in order, starting after `Weekday(day)`. */
  lemma NextWeekdayFacts(day: int, wd: int, r: int)
    requires 0 <= wd < 7
    requires r == day + (if wd - Weekday(day) <= 0 then wd - Weekday(day) + 7 else wd - Weekday(day))
    ensures day < r <= day + 7
    ensures Weekday(r) == wd
    ensures forall k :: day < k < r ==> Weekday(k) != wd
  {
    var q, w := (day + 4) / 7, Weekday(day);
    assert day + 4 == 7 * q + w;
    forall k | day < k <= r
      ensures Weekday(k) == (if w + (k - day) < 7 then w + (k - day) else w + (k - day) - 7)
    {
      if w + (k - day) < 7 {
        WeekdayAt(q, w + (k - day));
      } else {
        WeekdayAt(q + 1, w + (k - day) - 7);
      }
    }
  }

  /** The weekday of the day `7 * q + m - 4`. */
  lemma WeekdayAt(q: int, m: int)
    requires 0 <= m < 7
    ensures Weekday(7 * q + m - 4) == m
  {
  }

  /** The day of a timestamp. */
  function DayOf(t: int): int {
    t / MS_PER_DAY
  }

  /** The timestamp of midnight starting day `day`. */
  function StartOfDay(day: int): int {
    day * MS_PER_DAY
  }

  /** `date.setUTCHours(h, mi, s, ms)`: keeps the day and sets the time of day;
      hours past 23 run into the following days. */
  function SetUTCHours(t: int, h: int, mi: int, s: int, ms: int): int
  {
    DayOf(t) * MS_PER_DAY + h * MS_PER_HOUR + mi * MS_PER_MINUTE + s * MS_PER_SECOND + ms
  }

  lemma DayOfStart(day: int)
    ensures DayOf(StartOfDay(day)) == day
  {
  }

  /** The timestamp of midnight on January 1 of year `y`. */
  function YearStart(y: int): int {
    StartOfDay(DaysBeforeYear(y))
  }

  /** `getYear(now) == y`. */
  predicate InYear(now: int, y: int) {
    YearStart(y) <= now < YearStart(y + 1)
  }

  /** A calendar date as a time zone shows it: `month` is 0-based as in
      `getMonth()`, `day` is `getDate()`. */
  datatype CivilDate = CivilDate(year: int, month: int, day: int)

  predicate ValidDate(c: CivilDate) {
    0 <= c.month < 12 && 1 <= c.day <= DaysInMonth(c.year, c.month)
  }

  /** The en-US long month name. */
  function MonthLong(m: int): string
    requires 0 <= m < 12
  {
    ["January", "February", "March", "April", "May", "June", "July",
     "August", "September", "October", "November", "December"][m]
  }

  /** The en-US short month name. */
  function MonthShort(m: int): (r: string)
    requires 0 <= m < 12
    ensures |r| == 3 && r == MonthLong(m)[..3]
  {
    ["Jan", "Feb", "Mar", "Apr", "May", "Jun", "Jul", "Aug", "Sep", "Oct", "Nov", "Dec"][m]
  }

  /** `toLocaleDateString('en-US', { month: 'long', day: 'numeric', year: 'numeric' })`:
      "October 5, 2025". */
  function LongDate(c: CivilDate): string
    requires ValidDate(c)
  {
    MonthLong(c.month) + " " + IntToString(c.day) + ", " + IntToString(c.year)
  }

  /** `Intl.DateTimeFormat('en-US', { dateStyle: 'medium' })`: "Oct 5, 2025". */
  function MediumDate(c: CivilDate): string
    requires ValidDate(c)
  {
    MonthShort(c.month) + " " + IntToString(c.day) + ", " + IntToString(c.year)
  }
}

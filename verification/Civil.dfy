/**
 Civil dates of the proleptic Gregorian calendar, the way Go's time package computes with them at a
 fixed zone offset.

 A day is named by its number, day 0 being January 1 of year 1.
 */
module Civil {

  datatype Date = Date(year: int, month: int, day: int)

  predicate IsLeap(y: int) {
    y % 4 == 0 && (y % 100 != 0 || y % 400 == 0)
  }

  function MonthLength(y: int, m: int): (n: int)
    requires 1 <= m <= 12
    ensures 28 <= n <= 31
  {
    if m == 2 then (if IsLeap(y) then 29 else 28)
    else if m == 4 || m == 6 || m == 9 || m == 11 then 30
    else 31
  }

  predicate Valid(c: Date) {
    1 <= c.month <= 12 && 1 <= c.day <= MonthLength(c.year, c.month)
  }

  function DaysBeforeYear(y: int): int {
    365 * (y - 1) + (y - 1) / 4 - (y - 1) / 100 + (y - 1) / 400
  }

  /** Days before each month of a common year, and before the next year. */
  const DAYS_BEFORE: seq<int> := [0, 31, 59, 90, 120, 151, 181, 212, 243, 273, 304, 334, 365]

  function DaysBeforeMonth(y: int, m: int): int
    requires 1 <= m <= 13
  {
    DAYS_BEFORE[m - 1] + if m > 2 && IsLeap(y) then 1 else 0
  }

  function DayNumber(c: Date): int
    requires Valid(c)
  {
    DaysBeforeYear(c.year) + DaysBeforeMonth(c.year, c.month) + c.day - 1
  }

  lemma DivStep(x: int, k: int)
    requires k == 4 || k == 100 || k == 400
    ensures (x + 1) / k == x / k + if (x + 1) % k == 0 then 1 else 0
  {
  }

  lemma LeapDivisors(y: int)
    ensures y % 400 == 0 ==> y % 100 == 0
    ensures y % 100 == 0 ==> y % 4 == 0
  {
    assert y % 400 == 0 ==> y == 100 * (4 * (y / 400));
    assert y % 100 == 0 ==> y == 4 * (25 * (y / 100));
  }

  lemma YearStep(y: int)
    ensures DaysBeforeYear(y + 1) == DaysBeforeYear(y) + DaysBeforeMonth(y, 13)
  {
    DivStep(y - 1, 4);
    DivStep(y - 1, 100);
    DivStep(y - 1, 400);
    LeapDivisors(y);
    var a, b, c := (y - 1) / 4, (y - 1) / 100, (y - 1) / 400;
    assert DaysBeforeYear(y) == 365 * (y - 1) + a - b + c;
    assert DaysBeforeYear(y + 1) == 365 * y + y / 4 - y / 100 + y / 400;
  }

  function NextDay(c: Date): (r: Date)
    requires Valid(c)
    ensures Valid(r) && DayNumber(r) == DayNumber(c) + 1
  {
    hide DaysBeforeYear, IsLeap;
    YearStep(c.year);
    if c.day < MonthLength(c.year, c.month) then c.(day := c.day + 1)
    else if c.month < 12 then Date(c.year, c.month + 1, 1)
    else Date(c.year + 1, 1, 1)
  }

  function PreviousDay(c: Date): (r: Date)
    requires Valid(c)
    ensures Valid(r) && DayNumber(r) == DayNumber(c) - 1
  {
    hide DaysBeforeYear, IsLeap;
    YearStep(c.year - 1);
    if c.day > 1 then c.(day := c.day - 1)
    else if c.month > 1 then Date(c.year, c.month - 1, MonthLength(c.year, c.month - 1))
    else Date(c.year - 1, 12, 31)
  }

  /** The civil date of day n, reached by counting days away from the epoch. */
  function CivilOf(n: int): (c: Date)
    ensures Valid(c) && DayNumber(c) == n
    decreases if n < 0 then -n else n
  {
    if n == 0 then Date(1, 1, 1)
    else if n > 0 then NextDay(CivilOf(n - 1))
    else PreviousDay(CivilOf(n + 1))
  }

  /** Lexicographic order of dates. */
  predicate Earlier(a: Date, b: Date) {
    a.year < b.year || (a.year == b.year && (a.month < b.month || (a.month == b.month && a.day < b.day)))
  }

  lemma {:induction false} YearsMonotone(y: int, z: int)
    requires y < z
    ensures DaysBeforeYear(y) + DaysBeforeMonth(y, 13) <= DaysBeforeYear(z)
    decreases z - y
  {
    YearStep(y);
    if y + 1 < z {
      YearsMonotone(y + 1, z);
    }
  }

  lemma {:induction false} MonthsMonotone(y: int, m: int, n: int)
    requires 1 <= m < n <= 13
    ensures DaysBeforeMonth(y, m) + MonthLength(y, m) <= DaysBeforeMonth(y, n)
    decreases n - m
  {
    assert DaysBeforeMonth(y, m + 1) == DaysBeforeMonth(y, m) + MonthLength(y, m);
    if m + 1 < n {
      MonthsMonotone(y, m + 1, n);
    }
  }

  /** Day numbers increase exactly as dates do. */
  lemma DayNumberOrder(a: Date, b: Date)
    requires Valid(a) && Valid(b)
    ensures Earlier(a, b) <==> DayNumber(a) < DayNumber(b)
    ensures DayNumber(a) == DayNumber(b) ==> a == b
  {
    DayNumberIncreases(a, b);
    DayNumberIncreases(b, a);
  }

  lemma DayNumberIncreases(a: Date, b: Date)
    requires Valid(a) && Valid(b)
    ensures Earlier(a, b) ==> DayNumber(a) < DayNumber(b)
  {
    if a.year < b.year {
      YearsMonotone(a.year, b.year);
      MonthsMonotone(a.year, a.month, 13);
    } else if a.year == b.year && a.month < b.month {
      MonthsMonotone(a.year, a.month, b.month);
    }
  }

  /** CivilOf and DayNumber are inverse to each other. */
  lemma CivilRoundTrip(c: Date)
    requires Valid(c)
    ensures CivilOf(DayNumber(c)) == c
  {
    DayNumberOrder(CivilOf(DayNumber(c)), c);
  }

  // ---- Go's time package -------------------------------------------------------------------------

  /** Go's integer division, which truncates toward zero. */
  function TruncDiv(a: int, b: int): int
    requires b > 0
  {
    if a >= 0 then a / b else -((-a) / b)
  }

  function TruncMod(a: int, b: int): int
    requires b > 0
  {
    a - b * TruncDiv(a, b)
  }

  /** The day time.Date(y, m, d, ...) names: the month is carried into the year, then the day
      counts on from the first of that month, whatever its value. */
  function DateDay(y: int, m: int, d: int): int {
    var year, month := y + (m - 1) / 12, (m - 1) % 12 + 1;
    DaysBeforeYear(year) + DaysBeforeMonth(year, month) + d - 1
  }

  lemma DateDayOfValid(c: Date)
    requires Valid(c)
    ensures DateDay(c.year, c.month, c.day) == DayNumber(c)
  {
    assert (c.month - 1) / 12 == 0 && (c.month - 1) % 12 + 1 == c.month;
  }

  /** Sunday is 0, as in time.Weekday; day 0 is a Monday. */
  function Weekday(n: int): (w: int)
    ensures 0 <= w < 7
  {
    (n + 1) % 7
  }

  /** Nanoseconds in a day and in a second. */
  const DAY: int := 86_400_000_000_000
  const SECOND: int := 1_000_000_000

  /** An instant: a day and the nanoseconds since its midnight. */
  datatype Moment = Moment(day: int, clock: int) {

    function Ticks(): int { day * 86_400_000_000_000 + clock }

    predicate Before(u: Moment) { Ticks() < u.Ticks() }

    predicate After(u: Moment) { Ticks() > u.Ticks() }

    function Sub(u: Moment): int { Ticks() - u.Ticks() }
  }

  type Instant = t: Moment | 0 <= t.clock < 86_400_000_000_000 witness Moment(0, 0)

  /** t.Add(n). */
  function Add(t: Instant, n: int): (r: Instant)
    ensures r.Ticks() == t.Ticks() + n
  {
    var ticks := t.Ticks() + n;
    Moment(ticks / 86_400_000_000_000, ticks % 86_400_000_000_000)
  }

  /** t.AddDate(years, months, days). */
  function AddDate(t: Instant, years: int, months: int, days: int): Instant {
    var c := CivilOf(t.day);
    Moment(DateDay(c.year + years, c.month + months, c.day + days), t.clock)
  }

  /** Adding only days moves the instant by exactly that many days. */
  lemma AddDays(t: Instant, n: int)
    ensures AddDate(t, 0, 0, n) == Moment(t.day + n, t.clock)
  {
    DateDayOfValid(CivilOf(t.day));
  }
}

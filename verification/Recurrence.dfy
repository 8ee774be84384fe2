/**
 Expansion of recurring events (internal/calendar/recurrence.go).

 Every occurrence of a series keeps the clock time of the series start, so an occurrence is named by
 its day number. Occurs says, without any iteration, which days carry an occurrence; Query.Expected
 is the answer expandEvent owes its caller.
 */
module Recurrence {
  import opened Civil
  import opened GoTime
  import opened Wrappers

  // ---- Rules -------------------------------------------------------------------------------------

  datatype Freq = Daily | Weekly | Monthly | Yearly | Weekdays

  /** count == 0 means unbounded. byDay holds Go weekdays, Sunday being 0. */
  datatype Rule = Rule(freq: Freq, interval: int, byDay: set<int>, until: Option<Instant>, count: nat)

  /** A rule as the parser leaves it: the interval is a positive Go int. */
  type RecRule = r: Rule | 1 <= r.interval < 0x8000_0000_0000_0000 witness Rule(Daily, 1, {}, None, 0)

  // ---- Go's calendar arithmetic, as recurrence.go uses it ----------------------------------------

  function MonthIndex(c: Date): int { 12 * c.year + c.month - 1 }

  function LengthAt(index: int): (n: int)
    ensures 28 <= n <= 31
  {
    MonthLength(index / 12, index % 12 + 1)
  }

  function DaysInMonth(y: int, m: int): int {
    CivilOf(DateDay(y, m + 1, 0)).day
  }

  lemma DaysInMonthIsLength(y: int, m: int)
    requires 1 <= m <= 12
    ensures DaysInMonth(y, m) == MonthLength(y, m)
  {
    hide DaysBeforeYear, IsLeap;
    var last := Date(y, m, MonthLength(y, m));
    YearStep(y);
    assert DateDay(y, m + 1, 0) == DayNumber(last);
    CivilRoundTrip(last);
  }

  /** Carries a month of any value into the year, with truncating division and the correction for
      months that end up below 1. */
  function NormalMonth(year: int, month: int): (r: (int, int))
    ensures 1 <= r.1 <= 12 && 12 * r.0 + r.1 == 12 * year + month
  {
    var y, m := year + TruncDiv(month - 1, 12), TruncMod(month - 1, 12) + 1;
    if m <= 0 then (y - 1, m + 12) else (y, m)
  }

  function ClampedDay(day: int, index: int): int { if day > LengthAt(index) then LengthAt(index) else day }

  /** The date in the month-th month of c's year, whatever month is, its day clamped to that month. */
  function MonthAt(c: Date, month: int): (r: Date)
    requires Valid(c)
    ensures Valid(r) && MonthIndex(r) == 12 * c.year + month - 1
    ensures r.day == ClampedDay(c.day, MonthIndex(r))
  {
    hide LengthAt, DaysInMonth, MonthLength;
    var (y, m) := NormalMonth(c.year, month);
    DaysInMonthIsLength(y, m);
    MonthIndexParts(y, m);
    var last := DaysInMonth(y, m);
    Date(y, m, if c.day > last then last else c.day)
  }

  /** The date n months on. */
  function MonthsLater(c: Date, n: int): (r: Date)
    requires Valid(c)
    ensures Valid(r) && MonthIndex(r) == MonthIndex(c) + n
    ensures r.day == ClampedDay(c.day, MonthIndex(r))
  {
    MonthAt(c, c.month + n)
  }

  /** The instant n months on, by the calendar. */
  function MonthsOn(t: Instant, n: int): Instant {
    var r := MonthsLater(CivilOf(t.day), n);
    Moment(DateDay(r.year, r.month, r.day), t.clock)
  }

  /** addMonthsClamped: the month is a Go int before it is carried into the year. */
  function AddMonthsClamped(t: Instant, n: int): Instant {
    var c := CivilOf(t.day);
    var r := MonthAt(c, Wrapped(c.month + n));
    Moment(DateDay(r.year, r.month, r.day), t.clock)
  }

  lemma MonthIndexParts(y: int, m: int)
    requires 1 <= m <= 12
    ensures LengthAt(12 * y + m - 1) == MonthLength(y, m)
  {
    assert (12 * y + m - 1) / 12 == y && (12 * y + m - 1) % 12 + 1 == m;
  }

  /** The day time.Date makes of a valid date reads back as that date. */
  lemma DateReadsBack(r: Date)
    requires Valid(r)
    ensures DateDay(r.year, r.month, r.day) == DayNumber(r) && CivilOf(DayNumber(r)) == r
  {
    DateDayOfValid(r);
    CivilRoundTrip(r);
  }

  /** By the calendar, for every integer shift. */
  lemma MonthsOnExact(t: Instant, n: int)
    ensures var c, r := CivilOf(t.day), CivilOf(MonthsOn(t, n).day);
            MonthIndex(r) == MonthIndex(c) + n && r.day == ClampedDay(c.day, MonthIndex(r))
    ensures MonthsOn(t, n).clock == t.clock
  {
    DateReadsBack(MonthsLater(CivilOf(t.day), n));
  }

  /** For every shift a Go int can hold, negative ones included, the result is a day of exactly the month
      asked for, clamped to that month's length, at the same clock time: unless adding the shift to
      the month wraps around, which it does for the last few shifts only, and then by 2^64 months. */
  lemma AddMonthsClampedExact(t: Instant, n: int)
    requires -TWO_63 <= n < TWO_63
    ensures var c, r := CivilOf(t.day), CivilOf(AddMonthsClamped(t, n).day);
            && MonthIndex(r) == MonthIndex(c) + n - (if c.month + n < TWO_63 then 0 else TWO_64)
            && r.day == ClampedDay(c.day, MonthIndex(r))
    ensures AddMonthsClamped(t, n).clock == t.clock
    ensures AddMonthsClamped(t, n) == MonthsOn(t, n) <==> CivilOf(t.day).month + n < TWO_63
  {
    hide CivilOf, DateDay, ClampedDay, DayNumber, Wrapped, MonthAt;
    var c := CivilOf(t.day);
    var month := c.month + n;
    if month >= TWO_63 { WrapsOnce(month); }
    DateReadsBack(MonthAt(c, Wrapped(month)));
    DateReadsBack(MonthAt(c, month));
  }

  function StartOfWeekAt(t: Instant): Instant {
    var c := CivilOf(t.day);
    var d := Moment(DateDay(c.year, c.month, c.day), 0);
    AddDate(d, 0, 0, -Weekday(d.day))
  }

  function SetClock(day: Instant, ref: Instant): Instant {
    var c := CivilOf(day.day);
    Moment(DateDay(c.year, c.month, c.day), ref.clock)
  }

  lemma StartOfWeekAtIsSunday(t: Instant)
    ensures StartOfWeekAt(t) == Moment(t.day - Weekday(t.day), 0)
  {
    DateDayOfValid(CivilOf(t.day));
    AddDays(Moment(t.day, 0), -Weekday(t.day));
  }

  lemma SetClockKeepsDay(day: Instant, ref: Instant)
    ensures SetClock(day, ref) == Moment(day.day, ref.clock)
  {
    DateDayOfValid(CivilOf(day.day));
  }

  // ---- The occurrences of a series ---------------------------------------------------------------

  /** Weeks start on Sunday; this numbers them. */
  function WeekOf(day: int): int { (day + 1) / 7 }

  function Selected(rule: RecRule, first: int): set<int> {
    if |rule.byDay| == 0 then {Weekday(first)} else rule.byDay
  }

  /** The least of the start's day and the lengths of the months visited from interval months after
      the start's month up to offset months after it. */
  function ShortestVisited(c: Date, interval: int, offset: int): int
    requires interval >= 1
    decreases offset
  {
    if offset <= 0 then c.day
    else
      var before, here := ShortestVisited(c, interval, offset - interval), LengthAt(MonthIndex(c) + offset);
      if here < before then here else before
  }

  /** Every year visited from year on, in steps of interval up to offset, is a leap year. */
  predicate AllLeap(year: int, interval: int, offset: int)
    requires interval >= 1
    decreases offset
  {
    IsLeap(year + offset) && (offset <= 0 || AllLeap(year, interval, offset - interval))
  }

  predicate OccursMonthly(c: Date, interval: int, e: Date)
    requires interval >= 1
  {
    var offset := MonthIndex(e) - MonthIndex(c);
    offset >= 0 && offset % interval == 0 && e.day == ShortestVisited(c, interval, offset)
  }

  /** The month and day of a yearly series offset years after its start c: a February 29 becomes a
      March 1 in the first visited year without one, and stays there. */
  function YearlyDate(c: Date, interval: int, offset: int): (int, int)
    requires interval >= 1
  {
    if c.month == 2 && c.day == 29 && !AllLeap(c.year, interval, offset) then (3, 1) else (c.month, c.day)
  }

  predicate OccursYearly(c: Date, interval: int, e: Date)
    requires interval >= 1
  {
    var offset := e.year - c.year;
    offset >= 0 && offset % interval == 0 && (e.month, e.day) == YearlyDate(c, interval, offset)
  }

  /** Does the series that starts at start have an occurrence on this day, COUNT and UNTIL aside? */
  predicate Occurs(rule: RecRule, start: Instant, day: int) {
    var first := start.day;
    && day >= first
    && match rule.freq
       case Daily => (day - first) % rule.interval == 0
       case Weekdays => 1 <= Weekday(day) <= 5
       case Weekly => Weekday(day) in Selected(rule, first) && (WeekOf(day) - WeekOf(first)) % rule.interval == 0
       case Monthly => OccursMonthly(CivilOf(first), rule.interval, CivilOf(day))
       case Yearly => OccursYearly(CivilOf(first), rule.interval, CivilOf(day))
  }

  // ---- What an expansion returns -----------------------------------------------------------------

  const MAX_OCCURRENCES: nat := 1000

  datatype Query = Query(rule: RecRule, start: Instant, dur: int, min: Instant, max: Instant) {

    function Time(day: int): Instant { Moment(day, start.clock) }

    /** The number of occurrences before the given day, wherever the window is. */
    function Rank(day: int): nat
      decreases day - start.day
    {
      if day <= start.day then 0
      else Rank(day - 1) + if Occurs(rule, start, day - 1) then 1 else 0
    }

    predicate Overlaps(day: int) { Time(day).Before(max) && Time(day).Ticks() + dur > min.Ticks() }

    predicate WithinCount(day: int) { rule.count == 0 || Rank(day) < rule.count }

    predicate WithinUntil(day: int) { rule.until.Some? ==> !Time(day).After(rule.until.value) }

    predicate Qualifies(day: int) {
      Occurs(rule, start, day) && WithinCount(day) && WithinUntil(day) && Overlaps(day)
    }

    /** The qualifying days before hi, in order. */
    function Kept(hi: int): seq<int>
      decreases hi - start.day
    {
      if hi <= start.day then [] else Kept(hi - 1) + if Qualifies(hi - 1) then [hi - 1] else []
    }

    /** No day from here on can overlap the window. */
    function Horizon(): int { max.day + 1 }

    function Expected(): seq<int> {
      var all := Kept(Horizon());
      if |all| <= MAX_OCCURRENCES then all else all[..MAX_OCCURRENCES]
    }
  }

  // ---- Properties of the specification -----------------------------------------------------------

  lemma {:induction false} KeptIsQualifying(q: Query, hi: int)
    ensures forall d :: d in q.Kept(hi) <==> d < hi && q.Qualifies(d)
    ensures forall i, j :: 0 <= i < j < |q.Kept(hi)| ==> q.Kept(hi)[i] < q.Kept(hi)[j]
    decreases hi - q.start.day
  {
    if hi > q.start.day {
      KeptIsQualifying(q, hi - 1);
      var before := q.Kept(hi - 1);
      assert forall i :: 0 <= i < |before| ==> before[i] in before;
    }
  }

  /** The expected days are exactly the first thousand occurrences that pass COUNT and UNTIL and
      overlap the window, in increasing order. */
  lemma ExpectedIsFirstThousand(q: Query)
    ensures forall i, j :: 0 <= i < j < |q.Expected()| ==> q.Expected()[i] < q.Expected()[j]
    ensures forall d :: d in q.Expected() ==> q.Qualifies(d)
    ensures |q.Expected()| <= MAX_OCCURRENCES
    ensures forall d :: q.Qualifies(d) && d !in q.Expected() ==>
              |q.Expected()| == MAX_OCCURRENCES && forall e :: e in q.Expected() ==> e < d
  {
    hide Occurs;
    var all := q.Kept(q.Horizon());
    KeptIsQualifying(q, q.Horizon());
    forall d | q.Qualifies(d)
      ensures d in all
    {
      assert d < q.Horizon();
    }
    if |all| > MAX_OCCURRENCES {
      forall d, e | d in all && d !in q.Expected() && e in q.Expected()
        ensures e < d
      {
        var i :| 0 <= i < |all| && all[i] == d;
        assert q.Expected() == all[..MAX_OCCURRENCES];
        assert i >= MAX_OCCURRENCES;
      }
    }
  }

  /** The occurrences before a day, as a set. */
  ghost function OccurrencesBefore(q: Query, day: int): set<int> {
    set e | q.start.day <= e < day && Occurs(q.rule, q.start, e)
  }

  lemma OneDayMore(q: Query, day: int)
    requires day > q.start.day
    ensures OccurrencesBefore(q, day) ==
            OccurrencesBefore(q, day - 1) + if Occurs(q.rule, q.start, day - 1) then {day - 1} else {}
  {
    hide Occurs;
  }

  /** COUNT is judged by the number of occurrences since the series start. */
  lemma {:induction false} RankCounts(q: Query, day: int)
    ensures q.Rank(day) == |OccurrencesBefore(q, day)|
    decreases day - q.start.day
  {
    hide Occurs;
    if day <= q.start.day {
      assert OccurrencesBefore(q, day) == {};
    } else {
      RankCounts(q, day - 1);
      OneDayMore(q, day);
      assert day - 1 !in OccurrencesBefore(q, day - 1);
    }
  }

  lemma {:induction false} RankMonotone(q: Query, a: int, b: int)
    requires a <= b
    ensures q.Rank(a) <= q.Rank(b)
    decreases b - a
  {
    hide Occurs;
    if a < b {
      RankMonotone(q, a, b - 1);
    }
  }

  lemma {:induction false} KeptGrows(q: Query, a: int, b: int)
    requires a <= b
    ensures q.Kept(a) <= q.Kept(b)
    decreases b - a
  {
    hide Occurs;
    if a < b {
      KeptGrows(q, a, b - 1);
    }
  }

  /** Days without an occurrence change nothing. */
  lemma {:induction false} Quiet(q: Query, a: int, b: int)
    requires a <= b
    requires forall e :: a <= e < b ==> !Occurs(q.rule, q.start, e)
    ensures q.Rank(b) == q.Rank(a) && q.Kept(b) == q.Kept(a)
    decreases b - a
  {
    hide Occurs;
    if a < b {
      Quiet(q, a, b - 1);
    }
  }

  /** Moving past one occurrence. */
  lemma Advance(q: Query, d: int, next: int)
    requires d < next && Occurs(q.rule, q.start, d)
    requires forall e :: d < e < next ==> !Occurs(q.rule, q.start, e)
    ensures q.Rank(next) == q.Rank(d) + 1
    ensures q.Kept(next) == q.Kept(d + 1) == q.Kept(d) + if q.Qualifies(d) then [d] else []
  {
    Quiet(q, d + 1, next);
  }

  /** Each of the three loop exits leaves nothing more to keep. */
  lemma Stopped(q: Query, d: int)
    requires !q.Time(d).Before(q.max) || !q.WithinCount(d) || !q.WithinUntil(d)
    ensures q.Kept(d) == q.Kept(q.Horizon())
  {
    hide Occurs;
    if d <= q.Horizon() {
      NoneFrom(q, d, q.Horizon());
    } else {
      NoneFrom(q, q.Horizon(), d);
    }
  }

  lemma {:induction false} NoneFrom(q: Query, a: int, b: int)
    requires a <= b
    requires !q.Time(a).Before(q.max) || !q.WithinCount(a) || !q.WithinUntil(a)
    ensures q.Kept(a) == q.Kept(b)
    decreases b - a
  {
    hide Occurs;
    if a < b {
      NoneFrom(q, a, b - 1);
      RankMonotone(q, a, b - 1);
    }
  }

  /** The fourth exit: a thousand instances. */
  lemma Full(q: Query, hi: int)
    requires |q.Kept(hi)| == MAX_OCCURRENCES && hi <= q.Horizon()
    ensures q.Expected() == q.Kept(hi)
  {
    hide Occurs;
    KeptGrows(q, hi, q.Horizon());
  }

}

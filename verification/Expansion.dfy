/**
 What expandEvent owes its caller as a list of events, and how the specification moves from one
 occurrence to the next, frequency by frequency. Loops has the loops themselves.
 */
module Expansion {
  import opened Civil
  import GoTime
  import opened Wrappers
  import opened Recurrence
  import Sorting

  /** The Recurrence column of an event, as parseRecurrence reads it. */
  datatype Repeat = Blank | Unrecognised | Repeats(rule: RecRule)

  /** A calendar event; details stands for the columns that expansion copies unread. */
  datatype Event = Event(
    id: string, details: string, start: Instant, end: Instant, repeat: Repeat,
    recurringEventId: string, parentId: string, originalStart: Option<Instant>)

  /** The length of an occurrence: a Go duration, so at most MAX_DURATION. */
  function Duration(master: Event): (d: int)
    ensures 0 <= d <= GoTime.MAX_DURATION
  {
    var d := GoTime.Sub(master.end, master.start);
    if d < 0 then 0 else d
  }

  function QueryOf(master: Event, min: Instant, max: Instant): Query
    requires master.repeat.Repeats?
  {
    Query(master.repeat.rule, master.start, Duration(master), min, max)
  }

  function Instance(master: Event, at: Instant): Event {
    master.(start := at, end := Add(at, Duration(master)), recurringEventId := master.id)
  }

  function Instances(master: Event, days: seq<int>): seq<Event> {
    seq(|days|, i requires 0 <= i < |days| => Instance(master, Moment(days[i], master.start.clock)))
  }

  /** What expanding master over [min, max) returns. */
  function Expanded(master: Event, min: Instant, max: Instant): seq<Event> {
    if master.repeat.Repeats? then Instances(master, QueryOf(master, min, max).Expected())
    else if master.start.Before(max) && master.end.After(min) then [master]
    else []
  }

  // ---- Remainders by a variable interval ---------------------------------------------------------

  lemma MulAtLeast(i: int, k: int)
    requires i >= 1 && k >= 1
    ensures i * k >= i
  {
  }

  lemma ModUnique(a: int, i: int, q: int, r: int)
    requires a == i * q + r && 0 <= r < i
    ensures a % i == r
  {
    var p := a / i;
    assert i * (q - p) == i * q - i * p == a % i - r;
    assert i * (p - q) == i * p - i * q == r - a % i;
    if q > p {
      MulAtLeast(i, q - p);
    } else if q < p {
      MulAtLeast(i, p - q);
    }
  }

  /** The next multiple of i after a multiple x is x + i. */
  lemma NextMultiple(x: int, i: int, y: int)
    requires i >= 1 && x % i == 0 && x < y <= x + i
    ensures y % i == 0 <==> y == x + i
  {
    assert x == i * (x / i);
    if y == x + i {
      ModUnique(y, i, x / i + 1, 0);
    } else {
      ModUnique(y, i, x / i, y - x);
    }
  }

  // ---- One loop step, frequency by frequency -----------------------------------------------------

  /** next is the first day after d with an occurrence. */
  ghost predicate Follows(q: Query, d: int, next: int) {
    && d < next && Occurs(q.rule, q.start, d) && Occurs(q.rule, q.start, next)
    && forall e :: d < e < next ==> !Occurs(q.rule, q.start, e)
  }

  lemma FirstOccurs(q: Query)
    requires q.rule.freq in {Daily, Monthly, Yearly}
    ensures Occurs(q.rule, q.start, q.start.day)
  {
    ModUnique(0, q.rule.interval, 0, 0);
  }

  lemma DailyStep(q: Query, d: int)
    requires q.rule.freq == Daily && Occurs(q.rule, q.start, d)
    ensures Follows(q, d, d + q.rule.interval)
  {
    forall e | d < e <= d + q.rule.interval
      ensures Occurs(q.rule, q.start, e) <==> e == d + q.rule.interval
    {
      NextMultiple(d - q.start.day, q.rule.interval, e - q.start.day);
    }
  }

  /** Dates with the same month index have the same year and month. */
  lemma SameMonth(a: Date, b: Date)
    requires Valid(a) && Valid(b) && MonthIndex(a) == MonthIndex(b)
    ensures a.year == b.year && a.month == b.month
  {
  }

  lemma LaterMonth(a: Date, b: Date)
    requires Valid(a) && Valid(b) && MonthIndex(a) < MonthIndex(b)
    ensures Earlier(a, b)
  {
  }

  lemma ShortestNext(s: Date, i: int, offset: int)
    requires i >= 1 && offset >= 0
    ensures ShortestVisited(s, i, offset + i) ==
            ClampedDay(ShortestVisited(s, i, offset), MonthIndex(s) + (offset + i))
  {
    hide LengthAt, MonthIndex;
    assert offset + i - i == offset;
  }

  lemma MonthlyNext(s: Date, i: int, c: Date)
    requires i >= 1 && Valid(c) && OccursMonthly(s, i, c)
    ensures OccursMonthly(s, i, MonthsLater(c, i)) && Earlier(c, MonthsLater(c, i))
  {
    hide LengthAt, Earlier, MonthsLater, ShortestVisited, ClampedDay, Valid, MonthIndex;
    var offset, n := MonthIndex(c) - MonthIndex(s), MonthsLater(c, i);
    NextMultiple(offset, i, offset + i);
    ShortestNext(s, i, offset);
    assert MonthIndex(s) + (offset + i) == MonthIndex(n);
    LaterMonth(c, n);
  }

  lemma MonthlyGap(s: Date, i: int, c: Date, x: Date, n: Date)
    requires i >= 1 && Valid(c) && Valid(x) && Valid(n)
    requires OccursMonthly(s, i, c) && OccursMonthly(s, i, n) && MonthIndex(n) == MonthIndex(c) + i
    requires Earlier(c, x) && Earlier(x, n)
    ensures !OccursMonthly(s, i, x)
  {
    var offset, at := MonthIndex(c) - MonthIndex(s), MonthIndex(x) - MonthIndex(s);
    assert offset <= at <= offset + i;
    if at == offset {
      SameMonth(x, c);
    } else {
      NextMultiple(offset, i, at);
      if at == offset + i { SameMonth(x, n); }
    }
  }

  lemma MonthlyStep(q: Query, cur: Instant)
    requires q.rule.freq == Monthly && Occurs(q.rule, q.start, cur.day)
    ensures Follows(q, cur.day, MonthsOn(cur, q.rule.interval).day)
    ensures MonthsOn(cur, q.rule.interval).clock == cur.clock
  {
    var i, next := q.rule.interval, MonthsOn(cur, q.rule.interval);
    var s, c := CivilOf(q.start.day), CivilOf(cur.day);
    var n := MonthsLater(c, i);
    DateReadsBack(n);
    MonthlyNext(s, i, c);
    DayNumberOrder(c, n);
    forall e | cur.day < e < next.day
      ensures !Occurs(q.rule, q.start, e)
    {
      DayNumberOrder(c, CivilOf(e));
      DayNumberOrder(CivilOf(e), n);
      MonthlyGap(s, i, c, CivilOf(e), n);
    }
  }

  /** The date AddDate(i, 0, 0) reaches. */
  function YearsLater(c: Date, i: int): (r: Date)
    requires Valid(c)
    ensures Valid(r) && DateDay(c.year + i, c.month, c.day) == DateDay(r.year, r.month, r.day)
  {
    if c.month == 2 && c.day == 29 && !IsLeap(c.year + i) then Date(c.year + i, 3, 1)
    else Date(c.year + i, c.month, c.day)
  }

  lemma YearlyNext(s: Date, i: int, c: Date)
    requires i >= 1 && Valid(c) && OccursYearly(s, i, c)
    ensures OccursYearly(s, i, YearsLater(c, i)) && Earlier(c, YearsLater(c, i))
  {
    hide DateDay, DaysBeforeYear, IsLeap, AllLeap, Valid;
    var offset, n := c.year - s.year, YearsLater(c, i);
    NextMultiple(offset, i, offset + i);
    assert n.year - s.year == offset + i && Earlier(c, n);
    LeapsNext(s.year, i, offset);
    if s.month == 2 && s.day == 29 {
      if AllLeap(s.year, i, offset) {
        assert c.month == 2 && c.day == 29;
      } else {
        assert c.month == 3 && c.day == 1;
      }
    } else {
      assert c.month == s.month && c.day == s.day;
    }
  }

  lemma LeapsNext(year: int, i: int, offset: int)
    requires i >= 1 && offset >= 0
    ensures AllLeap(year, i, offset + i) <==> IsLeap(year + offset + i) && AllLeap(year, i, offset)
  {
    assert year + (offset + i) == year + offset + i && offset + i - i == offset;
  }

  lemma YearlyGap(s: Date, i: int, c: Date, x: Date, n: Date)
    requires i >= 1 && OccursYearly(s, i, c) && OccursYearly(s, i, n) && n.year == c.year + i
    requires Earlier(c, x) && Earlier(x, n)
    ensures !OccursYearly(s, i, x)
  {
    if x.year > c.year {
      NextMultiple(c.year - s.year, i, x.year - s.year);
    }
  }

  lemma AddYears(cur: Instant, i: int)
    ensures var n := YearsLater(CivilOf(cur.day), i);
            AddDate(cur, i, 0, 0) == Moment(DateDay(n.year, n.month, n.day), cur.clock)
  {
    hide IsLeap, CivilOf, DaysBeforeYear, DaysBeforeMonth;
    var c := CivilOf(cur.day);
    assert c.month + 0 == c.month && c.day + 0 == c.day;
  }

  lemma YearlyStep(q: Query, cur: Instant)
    requires q.rule.freq == Yearly && Occurs(q.rule, q.start, cur.day)
    ensures Follows(q, cur.day, AddDate(cur, q.rule.interval, 0, 0).day)
    ensures AddDate(cur, q.rule.interval, 0, 0).clock == cur.clock
  {
    hide CivilOf, IsLeap, AllLeap;
    var i, next := q.rule.interval, AddDate(cur, q.rule.interval, 0, 0);
    var s, c := CivilOf(q.start.day), CivilOf(cur.day);
    var n := YearsLater(c, i);
    AddYears(cur, i);
    DateReadsBack(n);
    YearlyNext(s, i, c);
    DayNumberOrder(c, n);
    forall e | cur.day < e < next.day
      ensures !Occurs(q.rule, q.start, e)
    {
      DayNumberOrder(c, CivilOf(e));
      DayNumberOrder(CivilOf(e), n);
      YearlyGap(s, i, c, CivilOf(e), n);
    }
  }

  lemma WeekdaySkip(q: Query, d: int)
    requires q.rule.freq == Weekdays && d >= q.start.day
    ensures Occurs(q.rule, q.start, d) <==> Weekday(d) != 6 && Weekday(d) != 0
  {
  }

  /** Between the end of one visited week and the next visited week nothing occurs. */
  lemma WeekGap(q: Query, sunday: int, e: int)
    requires q.rule.freq == Weekly && Weekday(sunday) == 0
    requires WeekOf(sunday) >= WeekOf(q.start.day)
    requires (WeekOf(sunday) - WeekOf(q.start.day)) % q.rule.interval == 0
    requires sunday + 7 <= e < sunday + 7 * q.rule.interval
    ensures !Occurs(q.rule, q.start, e)
  {
    NextMultiple(WeekOf(sunday) - WeekOf(q.start.day), q.rule.interval, WeekOf(e) - WeekOf(q.start.day));
  }

  // ---- The state of a loop -----------------------------------------------------------------------

  lemma InstancesGrow(master: Event, days: seq<int>, d: int)
    ensures Instances(master, days + [d]) == Instances(master, days) + [Instance(master, Moment(d, master.start.clock))]
  {
  }

  /** What emit leaves in out for a candidate start. */
  function Emit(master: Event, min: Instant, max: Instant, out: seq<Event>, at: Instant): seq<Event> {
    if at.Before(max) && Add(at, Duration(master)).After(min) then out + [Instance(master, at)] else out
  }

  /** The loop state is that of the specification at day d. */
  ghost predicate InStep(master: Event, q: Query, d: int, emitted: nat, out: seq<Event>) {
    emitted == q.Rank(d) && out == Instances(master, q.Kept(d)) && |out| < MAX_OCCURRENCES
  }

  /** Emitting an occurrence that passes COUNT and UNTIL moves the state on to the next one. */
  lemma Emitted(master: Event, q: Query, d: int, next: int, emitted: nat, out: seq<Event>)
    requires master.repeat.Repeats? && q == QueryOf(master, q.min, q.max)
    requires InStep(master, q, d, emitted, out) && Follows(q, d, next)
    requires q.WithinCount(d) && q.WithinUntil(d) && q.Time(d).Before(q.max)
    ensures var out' := Emit(master, q.min, q.max, out, q.Time(d));
            && emitted + 1 == q.Rank(next) && out' == Instances(master, q.Kept(next))
            && (|out'| >= MAX_OCCURRENCES ==> out' == Instances(master, q.Expected()))
  {
    hide Occurs;
    Advance(q, d, next);
    InstancesGrow(master, q.Kept(d), d);
    if |q.Kept(d + 1)| >= MAX_OCCURRENCES {
      Full(q, d + 1);
    }
  }

  lemma Ended(master: Event, q: Query, d: int, out: seq<Event>)
    requires out == Instances(master, q.Kept(d)) && |out| < MAX_OCCURRENCES
    requires !q.Time(d).Before(q.max) || !q.WithinCount(d) || !q.WithinUntil(d)
    ensures out == Instances(master, q.Expected())
  {
    Stopped(q, d);
  }

  /** As Emitted, when the next candidate is the next day. */
  lemma EmittedDay(master: Event, q: Query, d: int, emitted: nat, out: seq<Event>)
    requires master.repeat.Repeats? && q == QueryOf(master, q.min, q.max)
    requires InStep(master, q, d, emitted, out) && Occurs(q.rule, q.start, d)
    requires q.WithinCount(d) && q.WithinUntil(d)
    ensures var out' := Emit(master, q.min, q.max, out, q.Time(d));
            && emitted + 1 == q.Rank(d + 1) && out' == Instances(master, q.Kept(d + 1))
            && (|out'| >= MAX_OCCURRENCES ==> out' == Instances(master, q.Expected()))
  {
    hide Occurs;
    Advance(q, d, d + 1);
    InstancesGrow(master, q.Kept(d), d);
    if |q.Kept(d + 1)| >= MAX_OCCURRENCES {
      Full(q, d + 1);
    }
  }

  /** A Sunday that starts a week the series visits. */
  ghost predicate VisitedSunday(q: Query, sunday: int) {
    && Weekday(sunday) == 0 && WeekOf(sunday) >= WeekOf(q.start.day)
    && (WeekOf(sunday) - WeekOf(q.start.day)) % q.rule.interval == 0
  }

  lemma FirstVisited(q: Query)
    ensures VisitedSunday(q, q.start.day - Weekday(q.start.day))
  {
    var d := q.start.day;
    assert WeekOf(d - Weekday(d)) == WeekOf(d);
    ModUnique(0, q.rule.interval, 0, 0);
  }

  lemma NextVisited(q: Query, sunday: int)
    requires q.rule.freq == Weekly && VisitedSunday(q, sunday)
    ensures VisitedSunday(q, sunday + 7 * q.rule.interval)
    ensures q.Rank(sunday + 7 * q.rule.interval) == q.Rank(sunday + 7)
    ensures q.Kept(sunday + 7 * q.rule.interval) == q.Kept(sunday + 7)
  {
    var i, week := q.rule.interval, WeekOf(sunday) - WeekOf(q.start.day);
    assert WeekOf(sunday + 7 * i) == WeekOf(sunday) + i && Weekday(sunday + 7 * i) == 0;
    NextMultiple(week, i, week + i);
    forall e | sunday + 7 <= e < sunday + 7 * i
      ensures !Occurs(q.rule, q.start, e)
    {
      WeekGap(q, sunday, e);
    }
    Quiet(q, sunday + 7, sunday + 7 * i);
  }

  /** The state of the weekly walk: a midnight that starts a visited week. */
  ghost predicate AtSunday(q: Query, wk: Instant) {
    wk.clock == 0 && VisitedSunday(q, wk.day)
  }

  lemma FirstSunday(q: Query)
    ensures AtSunday(q, StartOfWeekAt(q.start)) && StartOfWeekAt(q.start).day <= q.start.day
  {
    hide StartOfWeekAt, VisitedSunday;
    StartOfWeekAtIsSunday(q.start);
    FirstVisited(q);
  }

  lemma NextSunday(q: Query, wk: Instant)
    requires q.rule.freq == Weekly && AtSunday(q, wk)
    ensures var next := AddDate(wk, 0, 0, 7 * q.rule.interval);
            && AtSunday(q, next) && next.After(wk)
            && q.Rank(next.day) == q.Rank(wk.day + 7) && q.Kept(next.day) == q.Kept(wk.day + 7)
  {
    AddDays(wk, 7 * q.rule.interval);
    NextVisited(q, wk.day);
  }

  /** Which days of a visited week carry an occurrence. */
  lemma WeekDays(q: Query, wk: Instant, offset: int)
    requires q.rule.freq == Weekly && AtSunday(q, wk) && 0 <= offset < 7
    ensures var cur := SetClock(AddDate(wk, 0, 0, offset), q.start);
            && cur == q.Time(wk.day + offset) && cur.day == wk.day + offset
            && (Occurs(q.rule, q.start, cur.day) <==>
                !cur.Before(q.start) && Weekday(cur.day) in Selected(q.rule, q.start.day))
  {
    hide AddDate, SetClock;
    AddDays(wk, offset);
    SetClockKeepsDay(AddDate(wk, 0, 0, offset), q.start);
    assert WeekOf(wk.day + offset) == WeekOf(wk.day);
  }

  lemma NoneBeforeStart(q: Query, d: int)
    requires d <= q.start.day
    ensures q.Rank(d) == 0 && q.Kept(d) == []
  {
  }

  lemma EndedAtSunday(master: Event, q: Query, wk: Instant, emitted: nat, out: seq<Event>)
    requires AtSunday(q, wk) && InStep(master, q, wk.day, emitted, out)
    requires !wk.Before(q.max) || !(q.rule.count == 0 || emitted < q.rule.count)
    ensures out == Instances(master, q.Expected())
  {
    Ended(master, q, wk.day, out);
  }

  predicate StartsBefore(a: Event, b: Event) { !b.start.Before(a.start) }

  /** The instances come out strictly ordered, so the final sort changes nothing. */
  lemma InstancesOrdered(master: Event, q: Query, i: int, j: int)
    requires master.repeat.Repeats? && q == QueryOf(master, q.min, q.max)
    requires 0 <= i < j < |q.Expected()|
    ensures Instances(master, q.Expected())[j].start.Sub(Instances(master, q.Expected())[i].start) >= DAY
  {
    ExpectedIsFirstThousand(q);
  }
}

/**
 When the loops of expandEvent end with what they should return (internal/calendar/recurrence.go).
 Intervals are parsed up to 2^63-1, so a step can leave the range of a time and wrap around.
 */
module LoopsEnd {
  import opened Civil
  import opened GoTime
  import opened Wrappers
  import opened Recurrence
  import opened Expansion
  import opened Loops
  import Sorting

  /** Any time the database holds and any RFC 3339 text gives lies within these days. */
  predicate Dated(t: Instant) { -1_000_000_000 <= t.day <= 1_000_000_000 }

  ghost predicate Input(w: Walk) { w.Ok() && Dated(w.master.start) && Dated(w.max) }

  function QueryOfWalk(w: Walk): Query
    requires w.Ok()
  {
    QueryOf(w.master, w.min, w.max)
  }

  // ---- Steps within reach, and out of it ---------------------------------------------------------

  lemma FarYears(c: Date)
    requires Valid(c)
    ensures c.year >= 1_000_000_000_000 ==> DayNumber(c) > REACH
    ensures c.year <= -1_000_000_000_000 ==> DayNumber(c) < -REACH
  {
    var y := c.year - 1;
    assert y / 4 - y / 100 + y / 400 >= (if y >= 0 then 0 else y);
    assert y / 4 - y / 100 + y / 400 <= (if y >= 0 then y else 0);
  }

  lemma NearYears(c: Date)
    requires Valid(c) && -200_000_000_000 <= c.year <= 200_000_000_000
    ensures InReach(DayNumber(c))
  {
    var y := c.year - 1;
    assert y / 4 - y / 100 + y / 400 >= (if y >= 0 then 0 else y);
    assert y / 4 - y / 100 + y / 400 <= (if y >= 0 then y else 0);
  }

  /** By the calendar, the instant the loop variable goes on to. */
  function CalendarStep(w: Walk, cur: Instant): Instant {
    if w.rule.freq == Monthly then MonthsOn(cur, w.rule.interval) else w.Step(cur)
  }

  /** A month count that wraps is out of reach on both sides. */
  lemma MonthlyReach(w: Walk, cur: Instant)
    requires w.rule.freq == Monthly && InReach(cur.day)
    ensures InReach(w.Step(cur).day) ==> w.Step(cur) == MonthsOn(cur, w.rule.interval)
    ensures !InReach(w.Step(cur).day) ==> !InReach(MonthsOn(cur, w.rule.interval).day)
  {
    hide CivilOf, DateDay, DayNumber, ClampedDay;
    var n := w.rule.interval;
    AddMonthsClampedExact(cur, n);
    MonthsOnExact(cur, n);
    var c := CivilOf(cur.day);
    if c.month + n >= TWO_63 {
      FarYears(c);
      FarYears(CivilOf(MonthsOn(cur, n).day));
      FarYears(CivilOf(AddMonthsClamped(cur, n).day));
    }
  }

  /** While it is within reach, the loop variable goes where the calendar says. */
  lemma NextIsStep(w: Walk, cur: Instant)
    requires w.Ok() && InReach(cur.day) && InReach(w.Step(cur).day)
    ensures w.Next(cur) == CalendarStep(w, cur)
  {
    hide Settled, AddMonthsClamped, MonthsOn, AddDate;
    match w.rule.freq
    case Daily => SettledInReach(w.Step(cur));
    case Weekdays => SettledInReach(w.Step(cur));
    case Weekly => SettledInReach(w.Step(cur));
    case Monthly => MonthlyReach(w, cur);
    case Yearly =>
  }

  // ---- The rounds within reach -------------------------------------------------------------------

  /** The day the specification has come to. */
  function Position(s: State): int
    requires s.Running?
  {
    s.mark.day + s.offset
  }

  /** No step has left the reach of a time, and the state is that of the specification. */
  ghost predicate Near(w: Walk, s: State)
    requires w.Ok()
  {
    && s.Running? && s.near && InReach(s.mark.day)
    && InStep(w.master, QueryOfWalk(w), Position(s), s.emitted, s.out)
    && if w.rule.freq == Weekly then
         AtSunday(QueryOfWalk(w), s.mark) && s.offset < 7 && (s.offset > 0 ==> s.mark.Before(w.max))
       else
         && s.offset == 0 && s.mark == QueryOfWalk(w).Time(s.mark.day) && s.mark.day >= w.master.start.day
         && (w.rule.freq != Weekdays ==> Occurs(w.rule, w.master.start, s.mark.day))
  }

  /** What a round within reach leaves: the end, as it should be; the next state of the specification;
      or a step out of reach, with everything shown that should be. */
  ghost predicate GoesOn(w: Walk, s: State, t: State)
    requires w.Ok() && s.Running?
  {
    if t.Done? then t.out == w.Expected()
    else if t.near then Near(w, t) && Position(t) > Position(s)
    else t.out == w.Expected() && t.offset == 0 && !InReach(w.Step(s.mark).day)
  }

  /** The step of a loop without weeks: to the next occurrence, which is past the window if no time can
      show it. */
  lemma OccurrenceStep(w: Walk, cur: Instant)
    requires Input(w) && w.rule.freq in {Daily, Monthly, Yearly} && InReach(cur.day)
    requires Occurs(w.rule, w.master.start, cur.day) && cur == QueryOfWalk(w).Time(cur.day)
    ensures var e := CalendarStep(w, cur);
            && Follows(QueryOfWalk(w), cur.day, e.day) && e == QueryOfWalk(w).Time(e.day)
            && (!InReach(w.Step(cur).day) ==> e.day > REACH && !e.Before(w.max))
  {
    hide Occurs, MonthsOn, AddDate, AddMonthsClamped;
    var q := QueryOfWalk(w);
    match w.rule.freq
    case Daily => DailyStep(q, cur.day);
    case Monthly =>
      MonthlyStep(q, cur);
      MonthlyReach(w, cur);
    case Yearly => YearlyStep(q, cur);
  }

  lemma NearRoundOccurrence(w: Walk, s: State)
    requires Input(w) && w.rule.freq in {Daily, Monthly, Yearly} && Near(w, s)
    ensures GoesOn(w, s, w.Round(s))
  {
    hide Occurs, AddDays64, Emit, Walk.AddMonths, Walk.AddYear, Walk.Step, CalendarStep, Query.Expected, Instances;
    var q, d := QueryOfWalk(w), s.mark.day;
    var e := CalendarStep(w, s.mark);
    OccurrenceStep(w, s.mark);
    if InReach(w.Step(s.mark).day) {
      NextIsStep(w, s.mark);
      assert InReach(e.day) by { MonthlyLands(w, s.mark); }
    }
    hide Walk.Next;
    if !(s.mark.Before(w.max) && w.WithinCount(s.emitted)) || w.PastUntil(s.mark) {
      Ended(w.master, q, d, s.out);
    } else {
      Emitted(w.master, q, d, e.day, s.emitted, s.out);
      var out := Emit(w.master, w.min, w.max, s.out, s.mark);
      if |out| < MAX_OCCURRENCES && !InReach(w.Step(s.mark).day) {
        Ended(w.master, q, e.day, out);
      }
    }
  }

  lemma MonthlyLands(w: Walk, cur: Instant)
    requires w.Ok() && InReach(cur.day) && InReach(w.Step(cur).day)
    ensures InReach(CalendarStep(w, cur).day)
  {
    hide AddMonthsClamped, MonthsOn, AddDate;
    if w.rule.freq == Monthly { MonthlyReach(w, cur); }
  }

  lemma NearRoundWeekdays(w: Walk, s: State)
    requires Input(w) && w.rule.freq == Weekdays && Near(w, s)
    ensures GoesOn(w, s, w.Round(s))
  {
    hide Occurs, AddDays64, Emit, Query.Expected, Instances;
    var q, d := QueryOfWalk(w), s.mark.day;
    if !(s.mark.Before(w.max) && w.WithinCount(s.emitted)) || w.PastUntil(s.mark) {
      Ended(w.master, q, d, s.out);
    } else {
      NextIsStep(w, s.mark);
      WeekdaySkip(q, d);
      if w.Considered(s.mark) {
        EmittedDay(w.master, q, d, s.emitted, s.out);
      } else {
        Quiet(q, d, d + 1);
      }
    }
  }

  /** A day of a week within reach. */
  lemma WeekDay(w: Walk, s: State)
    requires Input(w) && w.rule.freq == Weekly && Near(w, s) && s.mark.Before(w.max)
    ensures var cur := w.Candidate(s.mark, s.offset);
            && cur == QueryOfWalk(w).Time(Position(s)) && cur.day == Position(s)
            && (w.Considered(cur) <==> Occurs(w.rule, w.master.start, cur.day))
  {
    hide Settled, SetClock, AddDate, Occurs, VisitedSunday, InStep;
    assert InReach(s.mark.day + s.offset);
    SettledInReach(Moment(s.mark.day + s.offset, s.mark.clock));
    AddDays(s.mark, s.offset);
    WeekDays(QueryOfWalk(w), s.mark, s.offset);
  }

  /** From the end of a visited week to the next one, which is past the window if no time can show it. */
  lemma WeekStep(w: Walk, mark: Instant, emitted: nat, out: seq<Event>)
    requires Input(w) && w.rule.freq == Weekly && AtSunday(QueryOfWalk(w), mark) && mark.Before(w.max)
    requires InReach(mark.day) && InStep(w.master, QueryOfWalk(w), mark.day + 7, emitted, out)
    ensures w.Step(mark).day >= mark.day + 7
    ensures if InReach(w.Step(mark).day)
            then w.Next(mark) == w.Step(mark) && AtSunday(QueryOfWalk(w), w.Step(mark)) &&
                 InStep(w.master, QueryOfWalk(w), w.Step(mark).day, emitted, out)
            else out == w.Expected()
  {
    hide Settled, AddDate, Occurs, VisitedSunday, Query.Expected, Instances;
    var q := QueryOfWalk(w);
    NextSunday(q, mark);
    AddDays(mark, 7 * w.rule.interval);
    var next := w.Step(mark);
    if InReach(next.day) {
      NextIsStep(w, mark);
    } else {
      Ended(w.master, q, next.day, out);
    }
  }

  lemma NearRoundWeekly(w: Walk, s: State)
    requires Input(w) && w.rule.freq == Weekly && Near(w, s)
    ensures GoesOn(w, s, w.Round(s))
  {
    hide Occurs, AddDays64, SetClock, Emit, Query.Expected, Instances, VisitedSunday,
      Walk.Considered, Walk.Candidate, Walk.Step, Walk.Next;
    var q, d := QueryOfWalk(w), Position(s);
    if s.offset == 0 && !(s.mark.Before(w.max) && w.WithinCount(s.emitted)) {
      EndedAtSunday(w.master, q, s.mark, s.emitted, s.out);
    } else {
      WeekDay(w, s);
      var at := w.Candidate(s.mark, s.offset);
      if !w.Considered(at) {
        Quiet(q, d, d + 1);
        if s.offset == 6 { WeekStep(w, s.mark, s.emitted, s.out); }
      } else if w.PastUntil(at) || !w.WithinCount(s.emitted) {
        Ended(w.master, q, d, s.out);
      } else {
        EmittedDay(w.master, q, d, s.emitted, s.out);
        var out := Emit(w.master, w.min, w.max, s.out, at);
        if |out| < MAX_OCCURRENCES && s.offset == 6 { WeekStep(w, s.mark, s.emitted + 1, out); }
      }
    }
  }

  lemma NearRound(w: Walk, s: State)
    requires Input(w) && Near(w, s)
    ensures GoesOn(w, s, w.Round(s))
  {
    hide Near, GoesOn, Walk.Round, Input;
    match w.rule.freq
    case Weekdays => NearRoundWeekdays(w, s);
    case Weekly => NearRoundWeekly(w, s);
    case _ => NearRoundOccurrence(w, s);
  }

  // ---- Whole runs --------------------------------------------------------------------------------

  lemma Starts(w: Walk)
    requires Input(w)
    ensures Near(w, w.After(0)) && Position(w.After(0)) >= w.master.start.day - 6
  {
    hide Occurs, StartOfWeekAt, VisitedSunday;
    var q := QueryOfWalk(w);
    if w.rule.freq == Weekly {
      FirstSunday(q);
      StartOfWeekAtIsSunday(w.master.start);
      NoneBeforeStart(q, w.First().day);
    } else {
      NoneBeforeStart(q, q.start.day);
      if w.rule.freq != Weekdays { FirstOccurs(q); }
    }
  }

  lemma OutGrows(w: Walk, s: State)
    ensures s.out <= w.Round(s).out && (s.Done? ==> w.Round(s) == s)
    ensures s.Running? && w.Round(s).Running? && |s.out| < MAX_OCCURRENCES ==> |w.Round(s).out| < MAX_OCCURRENCES
    ensures s.Running? && w.Round(s).Running? && !s.near ==> !w.Round(s).near
  {
    hide Walk.Candidate, Walk.Considered, Walk.Next, Walk.Step;
  }

  /** Up to any round: within reach the state is that of the specification, and from the end or the first
      step out of reach on everything that should be shown is there. */
  lemma {:induction false} AfterIsNear(w: Walk, n: nat)
    requires Input(w)
    ensures var s := w.After(n);
            && (s.Running? ==> |s.out| < MAX_OCCURRENCES)
            && if s.Running? && s.near then Near(w, s) && Position(s) >= w.master.start.day - 6 + n
               else w.Expected() <= s.out
  {
    hide Near, Walk.Round, Walk.Expected;
    if n == 0 {
      Starts(w);
    } else {
      AfterIsNear(w, n - 1);
      var s := w.After(n - 1);
      OutGrows(w, s);
      if s.Running? && s.near {
        NearRound(w, s);
        if w.Round(s).Running? && w.Round(s).near { NearIsShort(w, w.Round(s)); }
      }
    }
  }

  lemma NearIsShort(w: Walk, s: State)
    requires w.Ok() && Near(w, s)
    ensures |s.out| < MAX_OCCURRENCES
  {
    hide Occurs, VisitedSunday;
  }

  /** The loop does not stay within reach for ever. */
  lemma LeavesOrEnds(w: Walk) returns (n: nat)
    requires Input(w)
    ensures !(w.After(n).Running? && w.After(n).near)
  {
    hide Walk.After, InStep, Walk.Candidate, Walk.Considered, AtSunday;
    var k := if w.max.day >= w.master.start.day then w.max.day - w.master.start.day + 20 else 20;
    AfterIsNear(w, k);
    n := k;
    if w.After(k).Running? && w.After(k).near {
      assert Position(w.After(k)) > w.max.day + 6;
      assert w.After(k + 1) == w.Round(w.After(k)) by { OneMore(w, k); }
      n := k + 1;
    }
  }

  lemma OneMore(w: Walk, k: nat)
    ensures w.After(k + 1) == w.Round(w.After(k))
  {
  }

  /** A round, out of reach, that shows an instance. */
  predicate Shows(w: Walk, s: State) { s.Running? && !s.near && w.Round(s).out != s.out }

  lemma {:induction false} NothingShown(w: Walk, n: nat)
    requires Input(w) && forall k: nat :: k < n ==> !Shows(w, w.After(k))
    ensures var s := w.After(n); (s.Running? && s.near) || s.out == w.Expected()
  {
    hide Near, Walk.Round, Walk.Expected;
    if n == 0 {
      Starts(w);
      assert w.After(0).near;
    } else {
      NothingShown(w, n - 1);
      AfterIsNear(w, n - 1);
      var s := w.After(n - 1);
      assert !Shows(w, s);
      if s.Running? && s.near { NearRound(w, s); }
      if s.Done? { DoneStays(w, n - 1, n); }
    }
  }

  lemma PrefixTwice(a: seq<Event>, b: seq<Event>, c: seq<Event>)
    requires a <= b && b <= c
    ensures a <= c
  {
  }

  lemma {:induction false} OutOnlyGrows(w: Walk, k: nat, n: nat)
    requires k <= n
    ensures w.After(k).out <= w.After(n).out
  {
    hide Walk.Round, Walk.After;
    if k < n {
      OutOnlyGrows(w, k, n - 1);
      OneMore(w, n - 1);
      OutGrows(w, w.After(n - 1));
      PrefixTwice(w.After(k).out, w.After(n - 1).out, w.After(n).out);
    }
  }

  /** What was shown out of reach is too much, and stays. */
  lemma ShownStays(w: Walk, k: nat, n: nat)
    requires Input(w) && k < n && w.After(n).out == w.Expected()
    ensures !Shows(w, w.After(k))
  {
    hide Walk.After, Walk.Round, Walk.Expected;
    AfterIsNear(w, k);
    OneMore(w, k);
    OutGrows(w, w.After(k));
    OutOnlyGrows(w, k + 1, n);
  }

  /** The loop is over after n rounds, none of which shows an instance out of reach. */
  ghost predicate QuietUntil(w: Walk, n: nat) {
    w.After(n).Done? && forall k: nat :: k < n ==> !Shows(w, w.After(k))
  }

  ghost predicate EndsQuietly(w: Walk) { exists n: nat :: QuietUntil(w, n) }

  /** For every rule, start, duration and window: the loop ends with exactly what it should return if and
      only if it ends and no round it makes after a step out of reach shows an instance. */
  lemma ComesOutExactlyWhen(w: Walk)
    requires Input(w)
    ensures w.ComesOut() <==> EndsQuietly(w)
  {
    hide Walk.After, Walk.Round, Walk.Expected, Shows;
    if w.ComesOut() {
      var n: nat :| w.After(n) == Done(w.Expected());
      forall k | 0 <= k < n
        ensures !Shows(w, w.After(k))
      {
        ShownStays(w, k, n);
      }
      assert QuietUntil(w, n);
    }
    if EndsQuietly(w) {
      var n: nat :| QuietUntil(w, n);
      NothingShown(w, n);
      assert w.After(n) == Done(w.Expected());
    }
  }

  // ---- Intervals that keep within reach ----------------------------------------------------------

  /** Intervals no window of dated times can carry out of reach. */
  predicate Tame(rule: RecRule) {
    match rule.freq
    case Daily => rule.interval <= 100_000_000_000_000
    case Weekdays => true
    case Weekly => rule.interval <= 10_000_000_000_000
    case Monthly => rule.interval <= 1_000_000_000_000
    case Yearly => rule.interval <= 100_000_000_000
  }

  lemma TameStep(w: Walk, s: State)
    requires Input(w) && Tame(w.rule) && Near(w, s) && s.mark.Before(w.max)
    ensures InReach(w.Step(s.mark).day)
  {
    hide AddDate, AddMonthsClamped, Occurs, InStep, VisitedSunday;
    var cur := s.mark;
    assert -1_000_000_010 <= cur.day <= 1_000_000_000 by { NotLongBefore(w, s); }
    match w.rule.freq
    case Daily =>
    case Weekdays =>
    case Weekly =>
    case Monthly => TameMonths(cur, w.rule.interval);
    case Yearly => TameYears(cur, w.rule.interval);
  }

  lemma NotLongBefore(w: Walk, s: State)
    requires Input(w) && Near(w, s)
    ensures s.mark.day >= w.master.start.day - 6
  {
    hide Occurs, InStep;
  }

  lemma TameMonths(cur: Instant, n: int)
    requires -1_000_000_010 <= cur.day <= 1_000_000_000 && 1 <= n <= 1_000_000_000_000
    ensures InReach(AddMonthsClamped(cur, n).day)
  {
    hide CivilOf, DateDay, DayNumber, ClampedDay;
    AddMonthsClampedExact(cur, n);
    var c, r := CivilOf(cur.day), CivilOf(AddMonthsClamped(cur, n).day);
    AboutDated(c);
    NearYears(r);
  }

  lemma AboutDated(c: Date)
    requires Valid(c) && -1_000_000_010 <= DayNumber(c) <= 1_000_000_000
    ensures -10_000_000 <= c.year <= 10_000_000
  {
    var y := c.year - 1;
    assert y / 4 - y / 100 + y / 400 >= (if y >= 0 then 0 else y);
    assert y / 4 - y / 100 + y / 400 <= (if y >= 0 then y else 0);
  }

  lemma TameYears(cur: Instant, n: int)
    requires -1_000_000_010 <= cur.day <= 1_000_000_000 && 1 <= n <= 100_000_000_000
    ensures InReach(AddDate(cur, n, 0, 0).day)
  {
    hide CivilOf, DateDay, DayNumber;
    var c := CivilOf(cur.day);
    AddYears(cur, n);
    var r := YearsLater(c, n);
    DateReadsBack(r);
    AboutDated(c);
    NearYears(r);
  }

  lemma {:induction false} TameStaysNear(w: Walk, n: nat)
    requires Input(w) && Tame(w.rule)
    ensures w.After(n).Running? ==> w.After(n).near
  {
    hide Near, Walk.Step, Walk.Next, Walk.Candidate, Walk.Considered, Tame;
    if n > 0 {
      TameStaysNear(w, n - 1);
      AfterIsNear(w, n - 1);
      var s := w.After(n - 1);
      if s.Running? && s.mark.Before(w.max) { TameStep(w, s); }
      if s.Running? && s.offset > 0 { BeforeMax(w, s); }
    }
  }

  lemma BeforeMax(w: Walk, s: State)
    requires Input(w) && Near(w, s) && s.offset > 0
    ensures s.mark.Before(w.max)
  {
    hide InStep, Occurs, VisitedSunday;
  }

  /** An interval within those bounds: the loop ends, with exactly what it should return, whatever the
      start, the duration, the window, COUNT, UNTIL and BYDAY. */
  lemma TameComesOut(w: Walk)
    requires Input(w) && Tame(w.rule)
    ensures w.ComesOut()
  {
    hide Walk.After, Walk.Round, Walk.Expected, Tame;
    var n := LeavesOrEnds(w);
    TameStaysNear(w, n);
    assert w.After(n).Done?;
    forall k | 0 <= k < n
      ensures !Shows(w, w.After(k))
    {
      TameStaysNear(w, k);
    }
    NothingShown(w, n);
  }

  // ---- expandEvent -------------------------------------------------------------------------------

  method SortInstances(out: seq<Event>) returns (r: seq<Event>)
    ensures Sorting.IsSortOf(r, out, StartsBefore)
  {
    r := Sorting.Slice(out, StartsBefore);
  }

  /** The instances come out strictly ordered, so the final sort changes nothing. */
  lemma SortIsIdentity(w: Walk, r: seq<Event>)
    requires w.Ok() && Sorting.IsSortOf(r, w.Expected(), StartsBefore)
    ensures r == w.Expected()
  {
    var e, q := w.Expected(), QueryOfWalk(w);
    forall i, j | 0 <= i < j < |e|
      ensures e[i].start.Before(e[j].start)
    {
      InstancesOrdered(w.master, q, i, j);
    }
    Sorting.SortIsUnique(e, r, StartsBefore);
  }

  function WalkOf(master: Event, min: Instant, max: Instant, beyond: Beyond): (w: Walk)
    requires master.repeat.Repeats?
    ensures w.Ok()
  {
    Walk(master, master.repeat.rule, min, max, beyond)
  }

  /** expandEvent returns. */
  ghost predicate Returns(master: Event, min: Instant, max: Instant, beyond: Beyond) {
    master.repeat.Repeats? ==> exists n: nat :: WalkOf(master, min, max, beyond).After(n).Done?
  }

  /** What expandEvent may return: what its loop leaves, sorted by start in one way or another. */
  ghost predicate IsExpansion(master: Event, min: Instant, max: Instant, beyond: Beyond, out: seq<Event>) {
    if !master.repeat.Repeats? then out == Expanded(master, min, max)
    else
      exists n: nat ::
        var s := WalkOf(master, min, max, beyond).After(n);
        s.Done? && Sorting.IsSortOf(out, s.out, StartsBefore)
  }

  /** It returns what it should. */
  ghost predicate ExpandsRight(master: Event, min: Instant, max: Instant, beyond: Beyond) {
    master.repeat.Repeats? ==> WalkOf(master, min, max, beyond).ComesOut()
  }

  /** Expands one stored event. */
  method ExpandEvent(master: Event, min: Instant, max: Instant, beyond: Beyond) returns (out: seq<Event>)
    requires Returns(master, min, max, beyond)
    ensures IsExpansion(master, min, max, beyond, out)
  {
    if !master.repeat.Repeats? {
      if master.start.Before(max) && master.end.After(min) {
        return [master];
      }
      return [];
    }
    var w := WalkOf(master, min, max, beyond);
    hide Walk.After, Sorting.IsSortOf, Instances;
    ghost var n: nat :| w.After(n).Done?;
    match master.repeat.rule.freq {
      case Daily => out := ExpandDaily(w, n);
      case Weekdays => out := ExpandWeekdays(w, n);
      case Weekly => out := ExpandWeekly(w, n);
      case Monthly => out := ExpandMonthly(w, n);
      case Yearly => out := ExpandYearly(w, n);
    }
    out := SortInstances(out);
  }

  /** Whatever expandEvent returns is the specified answer if and only if its loop comes out right. */
  lemma ExpansionIsRight(master: Event, min: Instant, max: Instant, beyond: Beyond, out: seq<Event>)
    requires IsExpansion(master, min, max, beyond, out)
    ensures ExpandsRight(master, min, max, beyond) ==> out == Expanded(master, min, max)
    ensures Dated(master.start) && Dated(max) && out == Expanded(master, min, max) ==>
              ExpandsRight(master, min, max, beyond)
  {
    hide Walk.After, Sorting.IsSortOf, Instances, Dated, Walk.ComesOut;
    if master.repeat.Repeats? {
      var w := WalkOf(master, min, max, beyond);
      var n: nat :| w.After(n).Done? && Sorting.IsSortOf(out, w.After(n).out, StartsBefore);
      if w.ComesOut() {
        DoneOnce(w, n);
        SortIsIdentity(w, out);
      }
      if Input(w) && out == w.Expected() { SortedToExpected(w, n, out); }
    }
  }

  /** So is that of any event with a tame rule or none. */
  lemma TameExpandsRight(master: Event, min: Instant, max: Instant, beyond: Beyond)
    requires Dated(master.start) && Dated(max) && (master.repeat.Repeats? ==> Tame(master.repeat.rule))
    ensures ExpandsRight(master, min, max, beyond) && Returns(master, min, max, beyond)
  {
    hide Walk.After, Tame, Walk.Expected;
    if master.repeat.Repeats? {
      TameComesOut(WalkOf(master, min, max, beyond));
    }
  }

  lemma DoneOnce(w: Walk, n: nat)
    requires w.Ok() && w.ComesOut() && w.After(n).Done?
    ensures w.After(n) == Done(w.Expected())
  {
    var m: nat :| w.After(m) == Done(w.Expected());
    if m <= n { DoneStays(w, m, n); } else { DoneStays(w, n, m); }
  }

  lemma SortedToExpected(w: Walk, n: nat, out: seq<Event>)
    requires Input(w) && w.After(n).Done? && Sorting.IsSortOf(out, w.After(n).out, StartsBefore) && out == w.Expected()
    ensures w.ComesOut()
  {
    hide Walk.After, Near;
    AfterIsNear(w, n);
    assert |multiset(out)| == |out| && |multiset(w.After(n).out)| == |w.After(n).out|;
    assert w.After(n) == Done(w.Expected());
  }
}

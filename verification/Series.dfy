/**
 What the occurrence predicate says about whole series: closed forms for MONTHLY and YEARLY, and
 independence of the window an expansion is asked for.
 */
module Series {
  import opened Civil
  import opened Wrappers
  import opened Recurrence
  import opened Expansion

  // ---- MONTHLY -----------------------------------------------------------------------------------

  /** The k-th value of the MONTHLY loop variable, by the calendar. */
  function MonthlyIterate(start: Instant, interval: int, k: nat): Instant {
    if k == 0 then start else MonthsOn(MonthlyIterate(start, interval, k - 1), interval)
  }

  lemma MonthlyDay(q: Query, day: int)
    requires q.rule.freq == Monthly && Occurs(q.rule, q.start, day)
    ensures CivilOf(day).day ==
            ShortestVisited(CivilOf(q.start.day), q.rule.interval,
                            MonthIndex(CivilOf(day)) - MonthIndex(CivilOf(q.start.day)))
  {
    hide MonthIndex, ShortestVisited, CivilOf;
  }

  lemma MonthlyNextRank(q: Query, cur: Instant)
    requires q.rule.freq == Monthly && Occurs(q.rule, q.start, cur.day)
    ensures var next := MonthsOn(cur, q.rule.interval);
            && Occurs(q.rule, q.start, next.day) && q.Rank(next.day) == q.Rank(cur.day) + 1
            && next.clock == cur.clock
            && MonthIndex(CivilOf(next.day)) == MonthIndex(CivilOf(cur.day)) + q.rule.interval
  {
    hide MonthsOn, MonthIndex, Occurs, CivilOf;
    MonthlyStep(q, cur);
    MonthsOnExact(cur, q.rule.interval);
    Advance(q, cur.day, MonthsOn(cur, q.rule.interval).day);
  }

  lemma {:induction false} MonthlyIterateOccurs(q: Query, k: nat)
    requires q.rule.freq == Monthly
    ensures var t := MonthlyIterate(q.start, q.rule.interval, k);
            && Occurs(q.rule, q.start, t.day) && q.Rank(t.day) == k && t.clock == q.start.clock
            && MonthIndex(CivilOf(t.day)) == MonthIndex(CivilOf(q.start.day)) + k * q.rule.interval
  {
    hide MonthsOn, MonthIndex, CivilOf, Occurs;
    if k == 0 {
      FirstOccurs(q);
    } else {
      MonthlyIterateOccurs(q, k - 1);
      MonthlyNextRank(q, MonthlyIterate(q.start, q.rule.interval, k - 1));
      assert (k - 1) * q.rule.interval + q.rule.interval == k * q.rule.interval;
    }
  }

  /** Occurrence k of a MONTHLY series lies exactly k * INTERVAL months after the start, on the
      smallest of the start's day and the lengths of the months visited so far. */
  lemma MonthlyOccurrence(q: Query, k: nat)
    requires q.rule.freq == Monthly
    ensures var t := MonthlyIterate(q.start, q.rule.interval, k);
            && Occurs(q.rule, q.start, t.day) && q.Rank(t.day) == k && t.clock == q.start.clock
            && MonthIndex(CivilOf(t.day)) == MonthIndex(CivilOf(q.start.day)) + k * q.rule.interval
            && CivilOf(t.day).day == ShortestVisited(CivilOf(q.start.day), q.rule.interval, k * q.rule.interval)
  {
    hide MonthlyIterate, MonthIndex, CivilOf, Occurs, ShortestVisited;
    MonthlyIterateOccurs(q, k);
    MonthlyDay(q, MonthlyIterate(q.start, q.rule.interval, k).day);
  }

  /** ShortestVisited is a minimum: it reaches x exactly when the start's day and every month visited
      after the start do. */
  lemma {:induction false} ShortestVisitedIsMinimum(c: Date, i: int, offset: int, x: int)
    requires i >= 1 && offset >= 0 && offset % i == 0
    ensures ShortestVisited(c, i, offset) >= x <==>
            c.day >= x && forall o :: 0 < o <= offset && o % i == 0 ==> LengthAt(MonthIndex(c) + o) >= x
    decreases offset
  {
    hide LengthAt, MonthIndex;
    if offset > 0 {
      PreviousMultiple(offset, i);
      ShortestVisitedIsMinimum(c, i, offset - i, x);
      forall o | 0 < o <= offset && o % i == 0
        ensures o <= offset - i || o == offset
      {
        if o > offset - i {
          NextMultiple(offset - i, i, o);
        }
      }
    }
  }

  lemma PreviousMultiple(x: int, i: int)
    requires i >= 1 && x > 0 && x % i == 0
    ensures (x - i) % i == 0 && x >= i
  {
    var n := x / i;
    assert x == i * n && n >= 1;
    ModUnique(x - i, i, n - 1, 0);
    MulAtLeast(i, n);
  }

  /** An occurrence is on the start's day clamped to its own month exactly when no month visited
      before it was shorter than that; a series started by day 28 never drifts. */
  lemma MonthlyDrift(s: Date, i: int, e: Date)
    requires i >= 1 && Valid(s) && Valid(e) && OccursMonthly(s, i, e)
    ensures e.day == ClampedDay(s.day, MonthIndex(e)) <==>
            forall o :: 0 < o < MonthIndex(e) - MonthIndex(s) && o % i == 0 ==>
              LengthAt(MonthIndex(s) + o) >= ClampedDay(s.day, MonthIndex(e))
    ensures s.day <= 28 ==> e.day == s.day
  {
    var offset, want := MonthIndex(e) - MonthIndex(s), ClampedDay(s.day, MonthIndex(e));
    ShortestVisitedIsMinimum(s, i, offset, want);
    ShortestVisitedIsMinimum(s, i, offset, s.day);
    assert MonthIndex(s) + offset == MonthIndex(e);
    ShortestVisitedIsMinimum(s, i, offset, e.day);
  }

  /** The start on January 31 the comment on addMonthsClamped speaks of: March falls on the 28th. */
  lemma MonthlyDriftExample()
    ensures OccursMonthly(Date(2026, 1, 31), 1, Date(2026, 2, 28))
    ensures OccursMonthly(Date(2026, 1, 31), 1, Date(2026, 3, 28))
    ensures !OccursMonthly(Date(2026, 1, 31), 1, Date(2026, 3, 31))
  {
    var s := Date(2026, 1, 31);
    assert ShortestVisited(s, 1, 0) == 31;
    assert ShortestVisited(s, 1, 1) == 28;
    assert ShortestVisited(s, 1, 2) == 28;
  }

  // ---- YEARLY ------------------------------------------------------------------------------------

  lemma {:induction false} AllLeapMeans(year: int, i: int, offset: int)
    requires i >= 1 && offset >= 0 && offset % i == 0
    ensures AllLeap(year, i, offset) <==> forall o :: 0 <= o <= offset && o % i == 0 ==> IsLeap(year + o)
    decreases offset
  {
    hide IsLeap;
    if offset > 0 {
      PreviousMultiple(offset, i);
      AllLeapMeans(year, i, offset - i);
      forall o | 0 <= o <= offset && o % i == 0
        ensures o <= offset - i || o == offset
      {
        if o > offset - i {
          NextMultiple(offset - i, i, o);
        }
      }
    }
  }

  /** A February 29 series is on February 29 for as long as every year visited is a leap year; from
      the first one that is not it is on March 1, leap years included. */
  lemma YearlyRollsOver(s: Date, i: int, e: Date)
    requires i >= 1 && s.month == 2 && s.day == 29 && OccursYearly(s, i, e)
    ensures (e.month, e.day) == (2, 29) || (e.month, e.day) == (3, 1)
    ensures (e.month, e.day) == (2, 29) <==>
            forall o :: 0 <= o <= e.year - s.year && o % i == 0 ==> IsLeap(s.year + o)
  {
    AllLeapMeans(s.year, i, e.year - s.year);
  }

  // ---- Windows -----------------------------------------------------------------------------------

  /** The events that overlap [min, max), in order. */
  function Overlapping(events: seq<Event>, min: Instant, max: Instant): seq<Event> {
    if |events| == 0 then []
    else
      var last := events[|events| - 1];
      Overlapping(events[..|events| - 1], min, max) +
      if last.start.Before(max) && last.end.After(min) then [last] else []
  }

  ghost predicate SubWindow(p: Query, q: Query) {
    p.rule == q.rule && p.start == q.start && p.dur == q.dur && !p.min.Before(q.min) && !p.max.After(q.max)
  }

  lemma SameRank(p: Query, q: Query, d: int)
    requires p.rule == q.rule && p.start == q.start
    ensures p.Rank(d) == q.Rank(d)
    decreases d - p.start.day
  {
    hide Occurs;
    if d > p.start.day {
      SameRank(p, q, d - 1);
    }
  }

  lemma OverlappingAppend(events: seq<Event>, e: Event, min: Instant, max: Instant)
    ensures Overlapping(events + [e], min, max) ==
            Overlapping(events, min, max) + if e.start.Before(max) && e.end.After(min) then [e] else []
  {
    assert (events + [e])[..|events|] == events;
  }

  lemma QualifiesInSubWindow(master: Event, p: Query, q: Query, d: int)
    requires master.repeat.Repeats? && SubWindow(p, q)
    requires p == QueryOf(master, p.min, p.max) && q == QueryOf(master, q.min, q.max)
    ensures var e := Instance(master, p.Time(d));
            p.Qualifies(d) <==> q.Qualifies(d) && e.start.Before(p.max) && e.end.After(p.min)
  {
    hide Occurs;
    SameRank(p, q, d);
  }

  lemma KeptStep(q: Query, hi: int)
    requires hi > q.start.day
    ensures q.Kept(hi) == if q.Qualifies(hi - 1) then q.Kept(hi - 1) + [hi - 1] else q.Kept(hi - 1)
  {
    hide Query.Qualifies;
  }

  lemma NothingKept(master: Event, p: Query, q: Query, hi: int)
    requires p.start == q.start && hi <= p.start.day
    ensures Instances(master, p.Kept(hi)) == Overlapping(Instances(master, q.Kept(hi)), p.min, p.max)
  {
    assert Instances(master, []) == [];
  }

  /** Day by day, the sub-window keeps the part of the wider window that overlaps it. */
  lemma {:induction false} KeptInSubWindow(master: Event, p: Query, q: Query, hi: int)
    requires master.repeat.Repeats? && SubWindow(p, q)
    requires p == QueryOf(master, p.min, p.max) && q == QueryOf(master, q.min, q.max)
    ensures Instances(master, p.Kept(hi)) == Overlapping(Instances(master, q.Kept(hi)), p.min, p.max)
    decreases hi - p.start.day
  {
    hide Occurs, Query.Qualifies, Query.Kept, Overlapping, Instances, Instance, Moment.Before, Moment.After, Duration;
    if hi <= p.start.day {
      NothingKept(master, p, q, hi);
    } else {
      KeptInSubWindow(master, p, q, hi - 1);
      QualifiesInSubWindow(master, p, q, hi - 1);
      KeptStep(p, hi);
      KeptStep(q, hi);
      if q.Qualifies(hi - 1) {
        InstancesGrow(master, q.Kept(hi - 1), hi - 1);
        OverlappingAppend(Instances(master, q.Kept(hi - 1)), Instance(master, p.Time(hi - 1)), p.min, p.max);
        InstancesGrow(master, p.Kept(hi - 1), hi - 1);
      }
    }
  }

  lemma {:induction false} OverlappingPrefix(events: seq<Event>, n: nat, min: Instant, max: Instant)
    requires n <= |events|
    ensures Overlapping(events[..n], min, max) <= Overlapping(events, min, max)
    ensures |Overlapping(events[..n], min, max)| <= n
    decreases |events|
  {
    if n == |events| {
      assert events[..n] == events;
      OverlappingLength(events, min, max);
    } else {
      var shorter := events[..|events| - 1];
      OverlappingPrefix(shorter, n, min, max);
      assert shorter[..n] == events[..n];
    }
  }

  lemma {:induction false} OverlappingLength(events: seq<Event>, min: Instant, max: Instant)
    ensures |Overlapping(events, min, max)| <= |events|
  {
    if |events| > 0 {
      OverlappingLength(events[..|events| - 1], min, max);
    }
  }

  lemma WindowOfSingle(e: Event, min: Instant, max: Instant, min': Instant, max': Instant)
    requires !e.repeat.Repeats? && !min'.Before(min) && !max'.After(max)
    ensures Overlapping(Expanded(e, min, max), min', max') == Expanded(e, min', max')
  {
    OverlappingAppend([], e, min', max');
    assert [] + [e] == [e];
  }

  /** Expanding over a sub-window gives what the wider expansion has there: always as a prefix, and
      exactly when the wider expansion was not cut at a thousand instances. */
  lemma WindowIndependence(master: Event, min: Instant, max: Instant, min': Instant, max': Instant)
    requires !min'.Before(min) && !max'.After(max)
    ensures Overlapping(Expanded(master, min, max), min', max') <= Expanded(master, min', max')
    ensures |Expanded(master, min, max)| < MAX_OCCURRENCES ==>
              Overlapping(Expanded(master, min, max), min', max') == Expanded(master, min', max')
  {
    if master.repeat.Repeats? {
      hide Overlapping, Query.Expected;
      WindowOfSeries(master, QueryOf(master, min', max'), QueryOf(master, min, max));
      assert |Instances(master, QueryOf(master, min, max).Expected())| == |QueryOf(master, min, max).Expected()|;
    } else {
      WindowOfSingle(master, min, max, min', max');
    }
  }

  lemma InstancesPrefix(master: Event, days: seq<int>, n: nat)
    requires n <= |days|
    ensures Instances(master, days[..n]) == Instances(master, days)[..n]
  {
  }

  lemma WindowOfSeries(master: Event, p: Query, q: Query)
    requires master.repeat.Repeats? && SubWindow(p, q)
    requires p == QueryOf(master, p.min, p.max) && q == QueryOf(master, q.min, q.max)
    ensures var cut, sub := Overlapping(Instances(master, q.Expected()), p.min, p.max), Instances(master, p.Expected());
            cut <= sub && (|q.Expected()| < MAX_OCCURRENCES ==> cut == sub)
  {
    var all := q.Kept(q.Horizon());
    KeptInSubWindow(master, p, q, q.Horizon());
    NoneFrom(p, p.Horizon(), q.Horizon());
    assert p.Kept(p.Horizon()) == p.Kept(q.Horizon());
    var n := if |all| <= MAX_OCCURRENCES then |all| else MAX_OCCURRENCES;
    assert q.Expected() == all[..n];
    InstancesPrefix(master, all, n);
    OverlappingPrefix(Instances(master, all), n, p.min, p.max);
    var mine := p.Kept(p.Horizon());
    if |mine| > MAX_OCCURRENCES {
      InstancesPrefix(master, mine, MAX_OCCURRENCES);
    }
    OverlappingLength(Instances(master, all), p.min, p.max);
    assert |Instances(master, mine)| == |mine|;
  }
}

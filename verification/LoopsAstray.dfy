/**
 Rules that lead the loops of expandEvent astray (internal/calendar/recurrence.go), and exactly when:
 the loop variable of DAILY, MONTHLY and YEARLY in closed form, intervals whose step is no step, and
 events longer than a duration can say.
 */
module LoopsAstray {
  import opened Civil
  import opened GoTime
  import opened Wrappers
  import opened Recurrence
  import opened Expansion
  import opened Loops
  import opened LoopsEnd

  // ---- DAILY, MONTHLY and YEARLY -----------------------------------------------------------------

  predicate Plain(w: Walk) { w.rule.freq in {Daily, Monthly, Yearly} }

  /** The k-th value of the loop variable. */
  function Mark(w: Walk, k: nat): Instant {
    if k == 0 then w.First() else w.Next(Mark(w, k - 1))
  }

  /** No step before the k-th left the reach of a time. */
  predicate StaysNear(w: Walk, k: nat) {
    k == 0 || (StaysNear(w, k - 1) && InReach(w.Step(Mark(w, k - 1)).day))
  }

  /** The loop is over at its k-th round at the latest, the limit on instances aside. */
  predicate Halts(w: Walk, k: nat) {
    !Mark(w, k).Before(w.max) || (w.rule.count > 0 && k >= w.rule.count) || w.PastUntil(Mark(w, k))
  }

  /** An instance at this time overlaps the window. */
  predicate Overlaps(w: Walk, at: Instant) { at.Before(w.max) && Add(at, Duration(w.master)).After(w.min) }

  lemma PlainMoves(w: Walk, s: State)
    requires Plain(w) && s.Running? && s.offset == 0
    ensures var t := w.Round(s);
            t.Running? ==> t.mark == w.Next(s.mark) && t.offset == 0 && t.emitted == s.emitted + 1 &&
                           t.near == (s.near && InReach(w.Step(s.mark).day))
  {
    hide Walk.Next, Walk.Step, Emit;
  }

  /** A running loop stands where its rounds have brought it, one instance counted a round. */
  lemma {:induction false} RunningAt(w: Walk, k: nat)
    requires Plain(w)
    ensures var s := w.After(k);
            s.Running? ==> s.mark == Mark(w, k) && s.offset == 0 && s.emitted == k && s.near == StaysNear(w, k)
  {
    hide Walk.Next, Walk.Step, Walk.Round;
    if k > 0 {
      RunningAt(w, k - 1);
      if w.After(k - 1).Done? { RoundOfDone(w, w.After(k - 1)); } else { PlainMoves(w, w.After(k - 1)); }
    }
  }

  lemma PlainRound(w: Walk, k: nat)
    requires Plain(w) && w.After(k).Running?
    ensures Halts(w, k) ==> w.Round(w.After(k)) == Done(w.After(k).out)
    ensures !Halts(w, k) ==>
              var out := Emit(w.master, w.min, w.max, w.After(k).out, Mark(w, k));
              && w.Round(w.After(k)).out == out
              && (w.Round(w.After(k)).Done? <==> |out| >= MAX_OCCURRENCES)
              && (out != w.After(k).out <==> Overlaps(w, Mark(w, k)))
  {
    hide Walk.Next, Walk.Step, Walk.After, Instance, Duration;
    RunningAt(w, k);
    var out := w.After(k).out;
    assert |out + [Instance(w.master, Mark(w, k))]| == |out| + 1;
  }

  /** The loop's own tests stop it at round n, and before that no step out of reach had led to a time
      that overlaps the window. */
  ghost predicate QuietlyHalts(w: Walk, n: nat) {
    Halts(w, n) && forall k: nat :: k < n ==> StaysNear(w, k) || !Overlaps(w, Mark(w, k))
  }

  /** When a loop without weeks ends with exactly what it should return, in terms of its loop variable
      alone: a thousand instances are due, or it is stopped before a step out of reach leads back into
      the window. */
  lemma PlainComesOutExactlyWhen(w: Walk)
    requires Input(w) && Plain(w)
    ensures w.ComesOut() <==> |w.Expected()| == MAX_OCCURRENCES || exists n: nat :: QuietlyHalts(w, n)
  {
    hide Walk.After, Walk.Round, Walk.Expected, Mark, Halts, Overlaps, StaysNear, Plain, Walk.ComesOut;
    ComesOutExactlyWhen(w);
    if w.ComesOut() {
      var n: nat :| QuietUntil(w, n);
      QuietHalt(w, n);
    }
    if |w.Expected()| == MAX_OCCURRENCES {
      FullComesOut(w);
    }
    if n: nat :| QuietlyHalts(w, n) {
      QuietHaltEnds(w, n);
    }
  }

  lemma QuietHalt(w: Walk, n: nat)
    requires Input(w) && Plain(w) && QuietUntil(w, n)
    ensures |w.Expected()| == MAX_OCCURRENCES || exists m: nat :: QuietlyHalts(w, m)
  {
    hide Walk.Round, Walk.Expected, Mark, Halts, Overlaps, StaysNear, Plain;
    var m := LastRunning(w, n);
    hide Walk.After;
    if Halts(w, m) {
      forall k: nat | k < m
        ensures StaysNear(w, k) || !Overlaps(w, Mark(w, k))
      {
        StillRunning(w, k, m);
        RunningAt(w, k);
        PlainRound(w, k);
        OneMore(w, k);
        assert !Shows(w, w.After(k));
        GoesOnUnhalted(w, k, m);
      }
      assert QuietlyHalts(w, m);
    } else {
      PlainRound(w, m);
      NothingShown(w, m + 1);
      OneMore(w, m);
      ExpectedIsShort(w);
    }
  }

  lemma ExpectedIsShort(w: Walk)
    requires w.Ok()
    ensures |w.Expected()| <= MAX_OCCURRENCES
  {
    ExpectedIsFirstThousand(QueryOfWalk(w));
  }

  /** The last round a loop makes. */
  lemma {:induction false} LastRunning(w: Walk, n: nat) returns (m: nat)
    requires w.After(n).Done?
    ensures m < n && w.After(m).Running? && w.After(m + 1).Done?
  {
    hide Walk.Round;
    if w.After(n - 1).Done? {
      m := LastRunning(w, n - 1);
    } else {
      m := n - 1;
    }
  }

  lemma StillRunning(w: Walk, k: nat, n: nat)
    requires k <= n && w.After(n).Running?
    ensures w.After(k).Running?
  {
    hide Walk.After;
    if w.After(k).Done? { DoneStays(w, k, n); }
  }

  lemma GoesOnUnhalted(w: Walk, k: nat, m: nat)
    requires Plain(w) && k < m && w.After(m).Running?
    ensures !Halts(w, k)
  {
    hide Walk.After, Halts, Plain;
    StillRunning(w, k, m);
    StillRunning(w, k + 1, m);
    OneMore(w, k);
    PlainRound(w, k);
  }

  lemma FullComesOut(w: Walk)
    requires Input(w) && |w.Expected()| == MAX_OCCURRENCES
    ensures w.ComesOut()
  {
    hide Walk.After, Walk.Round, Walk.Expected, Near;
    var n := LeavesOrEnds(w);
    AfterIsNear(w, n);
    assert w.After(n).Done?;
    var m := LastRunning(w, n);
    FullAtEnd(w, m);
  }

  /** A loop owing a thousand instances ends within reach. */
  lemma FullAtEnd(w: Walk, m: nat)
    requires Input(w) && |w.Expected()| == MAX_OCCURRENCES && w.After(m).Running? && w.After(m + 1).Done?
    ensures w.ComesOut()
  {
    hide Walk.After, Walk.Round, Walk.Expected, Near;
    AfterIsNear(w, m);
    NearRound(w, w.After(m));
    OneMore(w, m);
    assert w.After(m + 1) == Done(w.Expected());
  }

  lemma QuietHaltEnds(w: Walk, n: nat)
    requires Input(w) && Plain(w) && QuietlyHalts(w, n)
    ensures w.ComesOut()
  {
    hide Walk.After, Walk.Round, Walk.Expected, Mark, Halts, Overlaps, StaysNear, Plain, Walk.ComesOut;
    ComesOutExactlyWhen(w);
    forall k: nat | k < n + 1
      ensures !Shows(w, w.After(k))
    {
      if w.After(k).Running? {
        RunningAt(w, k);
        PlainRound(w, k);
      }
    }
    OneMore(w, n);
    if w.After(n).Running? { PlainRound(w, n); } else { RoundOfDone(w, w.After(n)); }
    assert QuietUntil(w, n + 1);
  }

  // ---- DAILY in closed form ----------------------------------------------------------------------

  /** The k-th value of the DAILY loop variable: k intervals on, wrapped around as often as it takes. */
  lemma {:induction false} DailyMark(w: Walk, k: nat)
    requires w.rule.freq == Daily && InReach(w.master.start.day)
    ensures Mark(w, k) == AddDays64(w.master.start, k * w.rule.interval)
  {
    hide AddDays64;
    if k == 0 {
      DailyMarkZero(w.master.start);
    } else {
      DailyMark(w, k - 1);
      AddDays64Twice(w.master.start, (k - 1) * w.rule.interval, w.rule.interval);
      assert (k - 1) * w.rule.interval + w.rule.interval == k * w.rule.interval;
    }
  }

  lemma DailyMarkZero(t: Instant)
    requires InReach(t.day)
    ensures AddDays64(t, 0) == t
  {
    hide Settled;
    assert Moment(t.day + 0, t.clock) == t;
    SettledInReach(t);
  }

  /** 2^57 days are a multiple of 2^64 seconds. */
  const STANDSTILL: int := 0x200_0000_0000_0000

  /** Such an interval goes nowhere. */
  lemma StandsStill(w: Walk, k: nat)
    requires w.rule.freq == Daily && InReach(w.master.start.day) && w.rule.interval % STANDSTILL == 0
    ensures Mark(w, k) == w.master.start
  {
    hide Settled, Mark;
    DailyMark(w, k);
    var start, j := w.master.start, w.rule.interval / STANDSTILL;
    var days := k * w.rule.interval;
    assert days == k * j * STANDSTILL by {
      assert w.rule.interval == j * STANDSTILL;
    }
    SameSeconds(start, k * j, days);
    SettledInReach(start);
  }

  lemma SameSeconds(t: Instant, p: int, days: int)
    requires days == p * STANDSTILL
    ensures Settled(Moment(t.day + days, t.clock)) == Settled(t)
  {
    hide Settled;
    var later: Instant := Moment(t.day + days, t.clock);
    assert later.Ticks() == t.Ticks() + (p * 675_000_000_000) * (WHOLE / 1_000_000_000);
    assert later.Ticks() == t.Ticks() + (p * 675) * WHOLE;
    SettledAlike(later, t, p * 675);
  }

  lemma LeavesAtOnce(w: Walk)
    requires Input(w) && w.rule.freq == Daily && w.rule.interval >= STANDSTILL
    ensures !StaysNear(w, 1)
  {
  }

  lemma {:induction false} LeftForGood(w: Walk, k: nat)
    requires !StaysNear(w, 1) && k >= 1
    ensures !StaysNear(w, k)
  {
    if k > 1 {
      LeftForGood(w, k - 1);
    }
  }

  /** A DAILY rule whose interval is a multiple of 2^57 comes out right exactly when its first instance is
      its last by COUNT, UNTIL or the window, or when COUNT ends it and the instance is not shown. */
  lemma StandstillExactlyWhen(w: Walk)
    requires Input(w) && w.rule.freq == Daily && w.rule.interval % STANDSTILL == 0
    ensures var start := w.master.start;
            w.ComesOut() <==>
              || !start.Before(w.max) || w.PastUntil(start) || w.rule.count == 1
              || (w.rule.count > 0 && !Overlaps(w, start))
  {
    hide Walk.After, Walk.Round, Walk.Expected, Walk.PastUntil, Mark, StaysNear, Walk.ComesOut, Overlaps,
      Duration, QuietlyHalts;
    PlainComesOutExactlyWhen(w);
    AtMostOneDue(w);
    var start := w.master.start;
    if !start.Before(w.max) || w.PastUntil(start) {
      StandstillHalts(w, 0);
    } else if w.rule.count == 1 {
      StandstillHalts(w, 1);
    } else if w.rule.count > 0 && !Overlaps(w, start) {
      StandstillHalts(w, w.rule.count);
    }
    forall n: nat
      ensures QuietlyHalts(w, n) ==>
                !start.Before(w.max) || w.PastUntil(start) ||
                (w.rule.count > 0 && n >= w.rule.count && (n <= 1 || !Overlaps(w, start)))
    {
      StandstillHalts(w, n);
    }
  }

  /** Where such a loop halts quietly. */
  lemma StandstillHalts(w: Walk, n: nat)
    requires Input(w) && w.rule.freq == Daily && w.rule.interval % STANDSTILL == 0
    ensures var start := w.master.start;
            QuietlyHalts(w, n) <==>
              && (!start.Before(w.max) || w.PastUntil(start) || (w.rule.count > 0 && n >= w.rule.count))
              && (n <= 1 || !Overlaps(w, start))
  {
    hide Walk.PastUntil, Mark, StaysNear, Overlaps, Duration, Walk.First;
    assert w.rule.interval >= STANDSTILL;
    LeavesAtOnce(w);
    NearAtFirst(w);
    StandsStill(w, n);
    StandsStill(w, 1);
    forall k: nat | k < n
      ensures Mark(w, k) == w.master.start && (StaysNear(w, k) <==> k == 0)
    {
      StandsStill(w, k);
      if k >= 1 { LeftForGood(w, k); }
    }
  }

  lemma NearAtFirst(w: Walk)
    ensures StaysNear(w, 0)
  {
  }

  /** Nothing after the start is due before the window ends. */
  lemma AtMostOneDue(w: Walk)
    requires Input(w) && w.rule.freq == Daily && w.rule.interval >= STANDSTILL
    ensures |w.Expected()| < MAX_OCCURRENCES
  {
    var q := QueryOfWalk(w);
    var days := q.Expected();
    ExpectedIsFirstThousand(q);
    if |days| >= 2 {
      assert q.Qualifies(days[0]) && q.Qualifies(days[1]);
      OnlyTheStart(q, days[0]);
      OnlyTheStart(q, days[1]);
    }
  }

  lemma OnlyTheStart(q: Query, d: int)
    requires q.rule.freq == Daily && q.rule.interval >= STANDSTILL && q.Qualifies(d) && Dated(q.start) && Dated(q.max)
    ensures d == q.start.day
  {
    var x := d - q.start.day;
    assert 0 <= x < q.rule.interval && x % q.rule.interval == 0;
    ModUnique(x, q.rule.interval, 0, x);
  }

  /** Without COUNT the loop never ends if the instance is not shown. */
  lemma {:induction false} NeverEnds(w: Walk, n: nat)
    requires Input(w) && w.rule.freq == Daily && w.rule.interval % STANDSTILL == 0 && w.rule.count == 0
    requires w.master.start.Before(w.max) && !w.PastUntil(w.master.start) && !Overlaps(w, w.master.start)
    ensures w.After(n).Running? && w.After(n).out == []
  {
    hide Walk.Round, Overlaps, Mark;
    if n > 0 {
      NeverEnds(w, n - 1);
      StandsStill(w, n - 1);
      PlainRound(w, n - 1);
    }
  }

  /** And if it is shown, the loop returns it a thousand times. */
  lemma {:induction false} ThousandCopies(w: Walk, n: nat)
    requires Input(w) && w.rule.freq == Daily && w.rule.interval % STANDSTILL == 0 && w.rule.count == 0
    requires w.master.start.Before(w.max) && !w.PastUntil(w.master.start) && Overlaps(w, w.master.start)
    requires n <= MAX_OCCURRENCES
    ensures w.After(n).out == seq(n, i => Instance(w.master, w.master.start))
    ensures w.After(n).Done? <==> n == MAX_OCCURRENCES
  {
    hide Walk.Round, Mark, Instance;
    if n > 0 {
      ThousandCopies(w, n - 1);
      StandsStill(w, n - 1);
      PlainRound(w, n - 1);
    }
  }

  // ---- WEEKLY ------------------------------------------------------------------------------------

  /** Seven times this interval is two days short of 2^64. */
  const WALKS_BACK: int := 2635249153387078802

  ghost predicate WalksBack(w: Walk) {
    && Input(w) && w.rule == Rule(Weekly, WALKS_BACK, {}, None, 0)
    && Weekday(w.master.start.day) == 0 && w.master.start.Before(w.max) && Overlaps(w, w.master.start)
  }

  /** A week of the walk, its steps as far as days are concerned. */
  lemma WalkBackDay(w: Walk, s: State)
    requires WalksBack(w) && s.Running? && s.offset < 7 && InReach(s.mark.day + s.offset)
    requires s.mark.day + s.offset <= w.master.start.day + 6 && s.mark.Before(w.max)
    ensures var at := s.mark.day + s.offset;
            && w.Candidate(s.mark, s.offset) == Moment(at, w.master.start.clock)
            && (w.Considered(Moment(at, w.master.start.clock)) <==> at == w.master.start.day)
            && w.Round(s) == if at != w.master.start.day then w.Moved(s, s.emitted, s.out)
                             else
                               var out := s.out + [Instance(w.master, w.master.start)];
                               if |out| >= MAX_OCCURRENCES then Done(out) else w.Moved(s, s.emitted + 1, out)
  {
    hide Settled, SetClock, Walk.Next, Walk.Step, Instance, Duration;
    SettledInReach(Moment(s.mark.day + s.offset, s.mark.clock));
    SetClockKeepsDay(AddDays64(s.mark, s.offset), w.master.start);
  }

  lemma WalkBackNext(w: Walk, mark: Instant)
    requires WalksBack(w) && InReach(mark.day - 2) && -REACH <= mark.day
    ensures w.Next(mark) == Moment(mark.day - 2, mark.clock) && !InReach(w.Step(mark).day)
  {
    hide Settled;
    assert 7 * WALKS_BACK == TWO_64 - 2;
    WrapsOnce(7 * WALKS_BACK);
    SettledInReach(Moment(mark.day - 2, mark.clock));
  }

  /** One round on a day that is not the start's. */
  lemma PassesBy(w: Walk, s: State)
    requires WalksBack(w) && s.Running? && s.offset < 6 && InReach(s.mark.day) && InReach(s.mark.day + s.offset)
    requires s.mark.day + s.offset <= w.master.start.day + 6 && s.mark.Before(w.max)
    requires s.mark.day + s.offset != w.master.start.day
    ensures w.Round(s) == s.(offset := s.offset + 1)
  {
    hide Walk.Round, Walk.Candidate, Walk.Considered, Walk.Next, Walk.Step;
    WalkBackDay(w, s);
  }

  lemma StartReach(w: Walk)
    requires WalksBack(w)
    ensures -1_000_000_000 <= w.master.start.day <= 1_000_000_000
    ensures forall d: int, c :: 0 <= c < 86_400_000_000_000 && d < w.master.start.day ==> Moment(d, c).Before(w.max)
    ensures Moment(w.master.start.day, 0).Before(w.max)
  {
    hide Overlaps;
  }

  /** Within the start's week, whose first day is the start's. */
  lemma {:induction false} FirstWeek(w: Walk, k: nat)
    requires WalksBack(w) && 1 <= k <= 6
    ensures w.After(k) == Running(Moment(w.master.start.day, 0), k, 1, [Instance(w.master, w.master.start)], true)
  {
    StartReach(w);
    if k == 1 {
      FirstDay(w);
    } else {
      FirstWeek(w, k - 1);
      hide WalksBack, Walk.Round, Instance, Walk.After;
      PassesBy(w, w.After(k - 1));
      OneMore(w, k - 1);
    }
  }

  lemma FirstDay(w: Walk)
    requires WalksBack(w)
    ensures w.After(1) == Running(Moment(w.master.start.day, 0), 1, 1, [Instance(w.master, w.master.start)], true)
  {
    hide StartOfWeekAt, Walk.Round, Walk.Next, Walk.Step, Instance, Overlaps;
    StartOfWeekAtIsSunday(w.master.start);
    StartReach(w);
    WalkBackDay(w, w.After(0));
  }

  lemma WeekEnds(w: Walk)
    requires WalksBack(w)
    ensures w.After(7) == Running(Moment(w.master.start.day - 2, 0), 0, 1, [Instance(w.master, w.master.start)], false)
  {
    FirstWeek(w, 6);
    StartReach(w);
    OneMore(w, 6);
    hide Instance, Walk.After;
    WeekTurns(w, w.After(6));
  }

  lemma WeekTurns(w: Walk, s: State)
    requires WalksBack(w) && s.Running? && s.offset == 6 && s.mark == Moment(w.master.start.day, 0)
    ensures w.Round(s) == Running(Moment(w.master.start.day - 2, 0), 0, s.emitted, s.out, false)
  {
    StartReach(w);
    hide Walk.Round, Walk.Next, Walk.Step, Overlaps, Walk.Candidate, Walk.Considered;
    WalkBackDay(w, s);
    WalkBackNext(w, s.mark);
  }

  lemma SecondWeek(w: Walk)
    requires WalksBack(w)
    ensures w.After(9) == Running(Moment(w.master.start.day - 2, 0), 2, 1, [Instance(w.master, w.master.start)], false)
  {
    WeekEnds(w);
    StartReach(w);
    hide WalksBack, Walk.Round, Instance, Walk.After;
    PassesBy(w, w.After(7));
    OneMore(w, 7);
    PassesBy(w, w.After(8));
    OneMore(w, 8);
  }

  /** From the second week on the walk goes back two days a week, and the start's day comes up again. */
  lemma WeekComesAgain(w: Walk)
    requires WalksBack(w)
    ensures w.After(10).Running?
            && w.After(10).out == [Instance(w.master, w.master.start), Instance(w.master, w.master.start)]
    ensures !w.ComesOut()
  {
    SecondWeek(w);
    StartReach(w);
    OneMore(w, 9);
    hide Walk.Round, Walk.Next, Walk.Step, Instance, Overlaps, Walk.After, Walk.Candidate, Walk.Considered;
    WalkBackDay(w, w.After(9));
    ShownTooOften(w, 9);
  }

  lemma ShownTooOften(w: Walk, k: nat)
    requires Input(w) && Shows(w, w.After(k)) && w.After(k + 1).Running?
    ensures !w.ComesOut()
  {
    hide Walk.After, Walk.Round, Shows, Walk.ComesOut;
    ComesOutExactlyWhen(w);
    forall n: nat
      ensures !QuietUntil(w, n)
    {
      if n <= k + 1 { StillRunning(w, n, k + 1); }
    }
  }

  // ---- Long events -------------------------------------------------------------------------------

  /** The length of the event itself. */
  function Length(master: Event): int {
    if master.end.Sub(master.start) < 0 then 0 else master.end.Sub(master.start)
  }

  function LongQuery(master: Event, min: Instant, max: Instant): Query
    requires master.repeat.Repeats?
  {
    Query(master.repeat.rule, master.start, Length(master), min, max)
  }

  /** What a series of events of their full length would show. */
  function FullLength(master: Event, min: Instant, max: Instant): seq<Event>
    requires master.repeat.Repeats?
  {
    var days := LongQuery(master, min, max).Expected();
    seq(|days|, i requires 0 <= i < |days| =>
      var at := Moment(days[i], master.start.clock);
      master.(start := at, end := Add(at, Length(master)), recurringEventId := master.id))
  }

  /** A shorter instance overlaps the window only where a longer one does. */
  lemma ShorterQualifies(master: Event, min: Instant, max: Instant, d: int)
    requires master.repeat.Repeats? && QueryOf(master, min, max).Qualifies(d)
    ensures LongQuery(master, min, max).Qualifies(d)
  {
    hide Occurs;
    SameRankAnyLength(QueryOf(master, min, max), LongQuery(master, min, max), d);
  }

  lemma NothingShorter(master: Event, min: Instant, max: Instant)
    requires master.repeat.Repeats? && LongQuery(master, min, max).Expected() == []
    ensures QueryOf(master, min, max).Expected() == []
  {
    hide Occurs, Query.Expected, Query.Qualifies;
    var p, q := QueryOf(master, min, max), LongQuery(master, min, max);
    if p.Expected() != [] {
      var d := p.Expected()[0];
      ExpectedIsFirstThousand(p);
      ShorterQualifies(master, min, max, d);
      ExpectedIsFirstThousand(q);
    }
  }

  lemma {:induction false} SameRankAnyLength(p: Query, q: Query, d: int)
    requires p.rule == q.rule && p.start == q.start
    ensures p.Rank(d) == q.Rank(d)
    decreases d - p.start.day
  {
    hide Occurs;
    if d > p.start.day {
      SameRankAnyLength(p, q, d - 1);
    }
  }

  /** Instances keep the length of their event if and only if it fits a duration, 292 years; otherwise an
      expansion is right only when there is nothing to show. */
  lemma LongEventsExactlyWhen(master: Event, min: Instant, max: Instant)
    requires master.repeat.Repeats?
    ensures Expanded(master, min, max) == FullLength(master, min, max) <==>
              Length(master) <= MAX_DURATION || FullLength(master, min, max) == []
  {
    hide Occurs;
    var p, q := QueryOf(master, min, max), LongQuery(master, min, max);
    if Length(master) <= MAX_DURATION {
      assert p == q && Duration(master) == Length(master);
    } else {
      assert Duration(master) == MAX_DURATION;
      if FullLength(master, min, max) == [] {
        NothingShorter(master, min, max);
      } else if Expanded(master, min, max) != [] {
        var at, long := Moment(p.Expected()[0], master.start.clock), Moment(q.Expected()[0], master.start.clock);
        assert Expanded(master, min, max)[0].end.Sub(Expanded(master, min, max)[0].start) == MAX_DURATION;
        assert FullLength(master, min, max)[0].end.Sub(FullLength(master, min, max)[0].start) == Length(master);
      }
    }
  }

  /** A recurring event from 1700 to 2000 ends in April 1992. */
  lemma LongEventCutShort(master: Event)
    requires master.start == Moment(DayNumber(Date(1700, 1, 1)), 0)
             && master.end == Moment(DayNumber(Date(2000, 1, 1)), 0)
    ensures Instance(master, master.start).end.day == DayNumber(Date(1992, 4, 11))
  {
  }
}

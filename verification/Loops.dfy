/**
 The loops of expandEvent (internal/calendar/recurrence.go) on Go's 64-bit times, round by round, and
 when they end with what Recurrence.Query.Expected asks for.
 */
module Loops {
  import opened Civil
  import opened GoTime
  import opened Wrappers
  import opened Recurrence
  import opened Expansion

  /** What time.Date makes of a month or a year that no time can show: nothing is known of it. */
  datatype Beyond = Beyond(months: (Instant, int) -> Instant, years: (Instant, int) -> Instant)

  /**
   Between two rounds. mark is the loop variable; WEEKLY visits the seven days from it, offset says
   which is next. near records history: no step so far left the reach of a time.
   */
  datatype State =
    | Running(mark: Instant, offset: nat, emitted: nat, out: seq<Event>, near: bool)
    | Done(out: seq<Event>)

  /** The expansion of a recurring master over a window. */
  datatype Walk = Walk(master: Event, rule: RecRule, min: Instant, max: Instant, beyond: Beyond) {

    predicate Ok() { master.repeat == Repeats(rule) }

    /** The loop variable one step on, by the calendar; months are counted in a Go int. */
    function Step(cur: Instant): Instant {
      match rule.freq
      case Daily => Moment(cur.day + rule.interval, cur.clock)
      case Weekdays => Moment(cur.day + 1, cur.clock)
      case Weekly => Moment(cur.day + 7 * rule.interval, cur.clock)
      case Monthly => AddMonthsClamped(cur, rule.interval)
      case Yearly => AddDate(cur, rule.interval, 0, 0)
    }

    /** The loop variable one step on. */
    function Next(cur: Instant): Instant {
      match rule.freq
      case Daily => AddDays64(cur, rule.interval)
      case Weekdays => AddDays64(cur, 1)
      case Weekly => AddDays64(cur, Wrapped(7 * rule.interval))
      case Monthly => AddMonths(cur)
      case Yearly => AddYear(cur)
    }

    function AddMonths(cur: Instant): Instant {
      var r := AddMonthsClamped(cur, rule.interval);
      if InReach(r.day) then r else beyond.months(cur, rule.interval)
    }

    function AddYear(cur: Instant): Instant {
      var r := AddDate(cur, rule.interval, 0, 0);
      if InReach(r.day) then r else beyond.years(cur, rule.interval)
    }

    function First(): Instant { if rule.freq == Weekly then StartOfWeekAt(master.start) else master.start }

    /** The time the round looks at. */
    function Candidate(mark: Instant, offset: int): Instant {
      if rule.freq == Weekly then SetClock(AddDays64(mark, offset), master.start) else mark
    }

    predicate Considered(at: Instant) {
      && (rule.freq == Weekdays ==> 1 <= Weekday(at.day) <= 5)
      && (rule.freq == Weekly ==> !at.Before(master.start) && Weekday(at.day) in Selected(rule, master.start.day))
    }

    predicate WithinCount(emitted: nat) { rule.count == 0 || emitted < rule.count }

    predicate PastUntil(at: Instant) { rule.until.Some? && at.After(rule.until.value) }

    /** On to the next day of the week, or to the next value of the loop variable. */
    function Moved(s: State, emitted: nat, out: seq<Event>): State
      requires s.Running?
    {
      if rule.freq == Weekly && s.offset < 6 then Running(s.mark, s.offset + 1, emitted, out, s.near)
      else Running(Next(s.mark), 0, emitted, out, s.near && InReach(Step(s.mark).day))
    }

    function Round(s: State): State {
      if s.Done? then s
      else
        var at := Candidate(s.mark, s.offset);
        if s.offset == 0 && !(s.mark.Before(max) && WithinCount(s.emitted)) then Done(s.out)
        else if rule.freq == Weekly && !Considered(at) then Moved(s, s.emitted, s.out)
        else if PastUntil(at) then Done(s.out)
        else if !Considered(at) then Moved(s, s.emitted, s.out)
        else if !WithinCount(s.emitted) then Done(s.out)
        else
          var out := Emit(master, min, max, s.out, at);
          if |out| >= MAX_OCCURRENCES then Done(out) else Moved(s, s.emitted + 1, out)
    }

    function After(n: nat): State {
      if n == 0 then Running(First(), 0, 0, [], true) else Round(After(n - 1))
    }

    /** What the expansion should return, before the final sort. */
    function Expected(): seq<Event>
      requires Ok()
    {
      Instances(master, QueryOf(master, min, max).Expected())
    }

    /** The loop ends, with what it should return. */
    ghost predicate ComesOut()
      requires Ok()
    {
      exists n: nat :: After(n) == Done(Expected())
    }
  }

  // ---- The loops ---------------------------------------------------------------------------------

  lemma RoundOfDone(w: Walk, s: State)
    requires s.Done?
    ensures w.Round(s) == s
  {
  }

  lemma {:induction false} DoneStays(w: Walk, k: nat, n: nat)
    requires k <= n && w.After(k).Done?
    ensures w.After(n) == w.After(k)
  {
    hide Walk.Round;
    if k < n {
      DoneStays(w, k, n - 1);
      RoundOfDone(w, w.After(k));
    }
  }

  /** What a loop knows of itself: it stands where the rounds do, and has not passed the end. */
  ghost predicate At(w: Walk, k: nat, n: nat, cur: Instant, offset: nat, emitted: nat, out: seq<Event>, near: bool) {
    k < n && w.After(k) == Running(cur, offset, emitted, out, near)
  }

  lemma OneRound(w: Walk, k: nat, n: nat)
    requires k < n && w.After(n).Done? && w.After(k).Running?
    ensures w.After(k + 1) == w.Round(w.After(k))
    ensures w.After(k + 1).Done? ==> w.After(n) == w.After(k + 1)
    ensures w.After(k + 1).Running? ==> k + 1 < n
  {
    hide Walk.Round;
    if w.After(k + 1).Done? {
      DoneStays(w, k + 1, n);
    }
  }

  /** n is any number of rounds after which the loop is over. */
  method ExpandDaily(w: Walk, ghost n: nat) returns (out: seq<Event>)
    requires w.Ok() && w.rule.freq == Daily && w.After(n).Done?
    ensures w.After(n) == Done(out)
  {
    hide AddDays64, Emit, Walk.Step, Walk.After;
    var rule, max := w.rule, w.max;
    var cur: Instant, emitted: nat := w.master.start, 0;
    out := [];
    ghost var k, near := 0, true;
    Begins(w, n);
    while cur.Before(max) && (rule.count == 0 || emitted < rule.count)
      invariant At(w, k, n, cur, 0, emitted, out, near)
      decreases n - k
    {
      OneRound(w, k, n);
      if rule.until.Some? && cur.After(rule.until.value) {
        break;
      }
      out := Emit(w.master, w.min, max, out, cur);
      emitted := emitted + 1;
      if |out| >= MAX_OCCURRENCES {
        return;
      }
      near := near && InReach(w.Step(cur).day);
      cur := AddDays64(cur, rule.interval);
      k := k + 1;
    }
    OneRound(w, k, n);
  }

  lemma Begins(w: Walk, n: nat)
    requires w.After(n).Done?
    ensures At(w, 0, n, w.First(), 0, 0, [], true)
  {
  }

  method ExpandWeekdays(w: Walk, ghost n: nat) returns (out: seq<Event>)
    requires w.Ok() && w.rule.freq == Weekdays && w.After(n).Done?
    ensures w.After(n) == Done(out)
  {
    hide AddDays64, Emit, Walk.Step, Walk.After;
    var rule, max := w.rule, w.max;
    var cur: Instant, emitted: nat := w.master.start, 0;
    out := [];
    ghost var k, near := 0, true;
    Begins(w, n);
    while cur.Before(max) && (rule.count == 0 || emitted < rule.count)
      invariant At(w, k, n, cur, 0, emitted, out, near)
      decreases n - k
    {
      OneRound(w, k, n);
      if rule.until.Some? && cur.After(rule.until.value) {
        break;
      }
      var wd := Weekday(cur.day);
      if wd != 6 && wd != 0 {
        out := Emit(w.master, w.min, max, out, cur);
        emitted := emitted + 1;
        if |out| >= MAX_OCCURRENCES {
          return;
        }
      }
      near := near && InReach(w.Step(cur).day);
      cur := AddDays64(cur, 1);
      k := k + 1;
    }
    OneRound(w, k, n);
  }

  method ExpandMonthly(w: Walk, ghost n: nat) returns (out: seq<Event>)
    requires w.Ok() && w.rule.freq == Monthly && w.After(n).Done?
    ensures w.After(n) == Done(out)
  {
    hide Emit, Walk.Step, Walk.After, Walk.AddMonths;
    var rule, max := w.rule, w.max;
    var cur: Instant, emitted: nat := w.master.start, 0;
    out := [];
    ghost var k, near := 0, true;
    Begins(w, n);
    while cur.Before(max) && (rule.count == 0 || emitted < rule.count)
      invariant At(w, k, n, cur, 0, emitted, out, near)
      decreases n - k
    {
      OneRound(w, k, n);
      if rule.until.Some? && cur.After(rule.until.value) {
        break;
      }
      out := Emit(w.master, w.min, max, out, cur);
      emitted := emitted + 1;
      if |out| >= MAX_OCCURRENCES {
        return;
      }
      near := near && InReach(w.Step(cur).day);
      cur := w.AddMonths(cur);
      k := k + 1;
    }
    OneRound(w, k, n);
  }

  method ExpandYearly(w: Walk, ghost n: nat) returns (out: seq<Event>)
    requires w.Ok() && w.rule.freq == Yearly && w.After(n).Done?
    ensures w.After(n) == Done(out)
  {
    hide Emit, Walk.Step, Walk.After, Walk.AddYear;
    var rule, max := w.rule, w.max;
    var cur: Instant, emitted: nat := w.master.start, 0;
    out := [];
    ghost var k, near := 0, true;
    Begins(w, n);
    while cur.Before(max) && (rule.count == 0 || emitted < rule.count)
      invariant At(w, k, n, cur, 0, emitted, out, near)
      decreases n - k
    {
      OneRound(w, k, n);
      if rule.until.Some? && cur.After(rule.until.value) {
        break;
      }
      out := Emit(w.master, w.min, max, out, cur);
      emitted := emitted + 1;
      if |out| >= MAX_OCCURRENCES {
        return;
      }
      near := near && InReach(w.Step(cur).day);
      cur := w.AddYear(cur);
      k := k + 1;
    }
    OneRound(w, k, n);
  }

  method ExpandWeekly(w: Walk, ghost n: nat) returns (out: seq<Event>)
    requires w.Ok() && w.rule.freq == Weekly && w.After(n).Done?
    ensures w.After(n) == Done(out)
  {
    hide AddDays64, SetClock, StartOfWeekAt, Emit, Walk.Step, Walk.After;
    var rule, start, max := w.rule, w.master.start, w.max;
    var days := rule.byDay;
    if |days| == 0 {
      days := {Weekday(start.day)};
    }
    var wk: Instant, emitted: nat := StartOfWeekAt(start), 0;
    out := [];
    ghost var k, near := 0, true;
    Begins(w, n);
    while wk.Before(max) && (rule.count == 0 || emitted < rule.count)
      invariant At(w, k, n, wk, 0, emitted, out, near)
      decreases n - k
    {
      var offset := 0;
      ghost var k0 := k;
      while offset < 7
        invariant 0 <= offset <= 7 && k == k0 + offset
        invariant offset < 7 ==> At(w, k, n, wk, offset, emitted, out, near)
        invariant offset == 7 ==> At(w, k, n, w.Next(wk), 0, emitted, out, near && InReach(w.Step(wk).day))
        invariant offset == 0 ==> wk.Before(max) && w.WithinCount(emitted)
      {
        OneRound(w, k, n);
        var cur := SetClock(AddDays64(wk, offset), start);
        if !cur.Before(start) && Weekday(cur.day) in days {
          if rule.until.Some? && cur.After(rule.until.value) {
            return;
          }
          if !(rule.count == 0 || emitted < rule.count) {
            return;
          }
          out := Emit(w.master, w.min, max, out, cur);
          emitted := emitted + 1;
          if |out| >= MAX_OCCURRENCES {
            return;
          }
        }
        offset, k := offset + 1, k + 1;
      }
      near := near && InReach(w.Step(wk).day);
      wk := AddDays64(wk, Wrapped(7 * rule.interval));
    }
    OneRound(w, k, n);
  }
}

/**
 The converter's bounded concurrency (internal/convert/soffice.go, Convert): a channel as a semaphore,
 an atomic counter of running conversions and the highest count observed, kept by a compare-and-swap
 loop. Every interleaving of requests, each step one atomic operation.
 */
module ConvertRuns {
  type Request = nat

  /** Counted: in the loop, about to load the peak. Loaded: about to compare and swap. Leaving: no
      longer counted, still holding its slot. */
  datatype Phase =
    | Waiting
    | Admitted
    | Counted(n: int)
    | Loaded(n: int, p: int)
    | Working(n: int)
    | Leaving

  /** limit is the channel's capacity. past, last and lastBy record history: the counts of all requests
      that left the loop, the latest count and whose it was. */
  datatype State = State(
    limit: nat, slots: nat, running: int, peak: int, phases: map<Request, Phase>,
    past: set<int>, last: int, lastBy: Request)

  function Init(limit: nat): State { State(limit, 0, 0, 0, map[], {}, 0, 0) }

  datatype Step =
    | Arrive(r: Request)
    | GiveUp(r: Request)
    | Acquire(r: Request)
    | Count(r: Request)
    | Load(r: Request)
    | Swap(r: Request)
    | Finish(r: Request)
    | Release(r: Request)

  predicate Enabled(s: State, step: Step) {
    match step
    case Arrive(r) => r !in s.phases
    case GiveUp(r) => r in s.phases && s.phases[r].Waiting?
    case Acquire(r) => r in s.phases && s.phases[r].Waiting? && s.slots < s.limit
    case Count(r) => r in s.phases && s.phases[r].Admitted?
    case Load(r) => r in s.phases && s.phases[r].Counted?
    case Swap(r) => r in s.phases && s.phases[r].Loaded?
    case Finish(r) => r in s.phases && s.phases[r].Working?
    case Release(r) => r in s.phases && s.phases[r].Leaving? && s.slots > 0
  }

  function After(s: State, step: Step): State
    requires Enabled(s, step)
  {
    match step
    case Arrive(r) => s.(phases := s.phases[r := Waiting])
    case GiveUp(r) => s.(phases := s.phases - {r})
    case Acquire(r) => s.(slots := s.slots + 1, phases := s.phases[r := Admitted])
    case Count(r) =>
      var n := s.running + 1;
      s.(running := n, phases := s.phases[r := Counted(n)], last := n, lastBy := r)
    case Load(r) => s.(phases := s.phases[r := Loaded(s.phases[r].n, s.peak)])
    case Swap(r) =>
      var n, p := s.phases[r].n, s.phases[r].p;
      var through := s.(phases := s.phases[r := Working(n)], past := s.past + {n});
      if n <= p then through
      else if s.peak == p then through.(peak := n)
      else s.(phases := s.phases[r := Counted(n)])
    case Finish(r) => s.(running := s.running - 1, phases := s.phases[r := Leaving])
    case Release(r) => s.(slots := s.slots - 1, phases := s.phases - {r})
  }

  // ---- What every run keeps ----------------------------------------------------------------------

  predicate HoldsSlot(p: Phase) { !p.Waiting? }
  predicate IsCounted(p: Phase) { p.Counted? || p.Loaded? || p.Working? }
  predicate InLoop(p: Phase) { p.Counted? || p.Loaded? }

  function Holders(s: State): set<Request> { set r | r in s.phases && HoldsSlot(s.phases[r]) }
  function Running(s: State): set<Request> { set r | r in s.phases && IsCounted(s.phases[r]) }

  ghost predicate PhaseOk(s: State, p: Phase) {
    && (IsCounted(p) ==> 1 <= p.n <= s.limit)
    && (p.Loaded? ==> p.p <= s.peak)
    && (p.Working? ==> p.n in s.past)
  }

  /** The peak is the largest count of a request that left the loop, or 0. */
  ghost predicate PeakIsLargest(s: State) {
    && 0 <= s.peak <= s.limit
    && (forall n :: n in s.past ==> 1 <= n <= s.peak)
    && (s.peak > 0 ==> s.peak in s.past)
  }

  /** The latest count is at least the number running; its request is in the loop or has left it. */
  ghost predicate LatestCount(s: State) {
    && s.running <= s.last
    && (s.last > 0 ==>
          s.last in s.past || (s.lastBy in s.phases && InLoop(s.phases[s.lastBy]) && s.phases[s.lastBy].n == s.last))
  }

  ghost predicate Inv(s: State) {
    && s.slots == |Holders(s)| && s.running == |Running(s)| && s.slots <= s.limit
    && (forall r :: r in s.phases ==> PhaseOk(s, s.phases[r]))
    && PeakIsLargest(s) && LatestCount(s)
  }

  lemma RunningHold(s: State)
    ensures Running(s) <= Holders(s) && |Running(s)| <= |Holders(s)|
  {
    SubsetSize(Running(s), Holders(s));
  }

  lemma {:induction false} SubsetSize(a: set<Request>, b: set<Request>)
    requires a <= b
    ensures |a| <= |b| && (a != b ==> |a| < |b|)
  {
    if a != {} {
      var x :| x in a;
      SubsetSize(a - {x}, b - {x});
    } else if b != {} {
      var x :| x in b;
      assert |b| > 0;
    }
  }

  /** How the sets of holders and of counted requests change. */
  lemma SetsMove(s: State, step: Step)
    requires Enabled(s, step)
    ensures var t, r := After(s, step), step.r;
            && Holders(t) == (if step.Acquire? then Holders(s) + {r}
                              else if step.Release? then Holders(s) - {r} else Holders(s))
            && Running(t) == (if step.Count? then Running(s) + {r}
                              else if step.Finish? then Running(s) - {r} else Running(s))
            && (step.Acquire? ==> r !in Holders(s)) && (step.Release? ==> r in Holders(s))
            && (step.Count? ==> r !in Running(s) && r in Holders(s)) && (step.Finish? ==> r in Running(s))
  {
    var t, r := After(s, step), step.r;
    assert forall q :: q != r ==> (q in t.phases <==> q in s.phases) && (q in s.phases ==> t.phases[q] == s.phases[q]);
  }

  lemma KeepsCounts(s: State, step: Step)
    requires Enabled(s, step) && Inv(s)
    ensures var t := After(s, step);
            t.slots == |Holders(t)| && t.running == |Running(t)| && t.slots <= t.limit && t.limit == s.limit
    ensures step.Count? ==> s.running < s.slots
  {
    SetsMove(s, step);
    RunningHold(s);
    if step.Count? {
      SubsetSize(Running(s), Holders(s));
      assert |Running(s) + {step.r}| == |Running(s)| + 1;
    }
    hide Holders, Running, PhaseOk, PeakIsLargest, LatestCount;
  }

  lemma KeepsPeak(s: State, step: Step)
    requires Enabled(s, step) && Inv(s)
    ensures s.peak <= After(s, step).peak && PeakIsLargest(After(s, step))
  {
    hide Holders, Running, LatestCount;
    assert PhaseOk(s, if step.r in s.phases then s.phases[step.r] else Waiting);
  }

  lemma KeepsLatest(s: State, step: Step)
    requires Enabled(s, step) && Inv(s)
    ensures LatestCount(After(s, step))
  {
    hide Holders, Running, PeakIsLargest;
    assert PhaseOk(s, if step.r in s.phases then s.phases[step.r] else Waiting);
  }

  lemma KeepsPhases(s: State, step: Step, r: Request)
    requires Enabled(s, step) && Inv(s) && r in After(s, step).phases
    requires s.peak <= After(s, step).peak && (step.Count? ==> s.running < s.slots)
    ensures PhaseOk(After(s, step), After(s, step).phases[r])
  {
    hide LatestCount, PeakIsLargest;
    assert r in s.phases ==> PhaseOk(s, s.phases[r]);
    hide Holders;
  }

  lemma KeepsInv(s: State, step: Step)
    requires Enabled(s, step) && Inv(s)
    ensures Inv(After(s, step)) && s.peak <= After(s, step).peak && After(s, step).limit == s.limit
  {
    KeepsCounts(s, step);
    KeepsPeak(s, step);
    KeepsLatest(s, step);
    forall r | r in After(s, step).phases
      ensures PhaseOk(After(s, step), After(s, step).phases[r])
    {
      KeepsPhases(s, step, r);
    }
    hide Holders, Running, PhaseOk, PeakIsLargest, LatestCount, After, Enabled;
  }

  // ---- Runs --------------------------------------------------------------------------------------

  predicate IsRun(limit: nat, steps: seq<Step>)
    decreases |steps|, 0
  {
    |steps| == 0 ||
    (IsRun(limit, steps[..|steps| - 1]) && Enabled(Reached(limit, steps[..|steps| - 1]), steps[|steps| - 1]))
  }

  function Reached(limit: nat, steps: seq<Step>): State
    requires IsRun(limit, steps)
    decreases |steps|, 1
  {
    if |steps| == 0 then Init(limit) else After(Reached(limit, steps[..|steps| - 1]), steps[|steps| - 1])
  }

  lemma {:induction false} RunKeepsInv(limit: nat, steps: seq<Step>)
    requires IsRun(limit, steps)
    ensures Inv(Reached(limit, steps)) && Reached(limit, steps).limit == limit
  {
    if |steps| > 0 {
      hide Inv, Enabled;
      RunKeepsInv(limit, steps[..|steps| - 1]);
      KeepsInv(Reached(limit, steps[..|steps| - 1]), steps[|steps| - 1]);
    } else {
      assert Holders(Init(limit)) == {} && Running(Init(limit)) == {};
    }
  }

  /** In every interleaving: at most as many conversions run as slots are held, and at most limit; when
      every request has gone, every slot is free again. */
  lemma SlotsAreBounded(limit: nat, steps: seq<Step>)
    requires IsRun(limit, steps)
    ensures var s := Reached(limit, steps);
            && 0 <= s.running <= s.slots <= limit
            && s.slots == |Holders(s)| && s.running == |Running(s)|
            && (s.phases == map[] ==> s.slots == 0 && s.running == 0)
  {
    hide IsRun, Reached;
    RunKeepsInv(limit, steps);
    RunningHold(Reached(limit, steps));
    assert Reached(limit, steps).phases == map[] ==> Holders(Reached(limit, steps)) == {};
  }

  /** The peak is the largest count any request past its loop saw, never above limit, and at least the
      number running whenever no request is in its loop. */
  lemma PeakIsObserved(limit: nat, steps: seq<Step>)
    requires IsRun(limit, steps)
    ensures var s := Reached(limit, steps);
            && PeakIsLargest(s) && s.limit == limit
            && ((forall r :: r in s.phases ==> !InLoop(s.phases[r])) ==> s.running <= s.peak)
  {
    hide IsRun, Reached, Holders, Running;
    RunKeepsInv(limit, steps);
  }

  /** Over any run, and whatever follows it, the peak never falls. */
  lemma {:induction false} PeakNeverFalls(limit: nat, steps: seq<Step>, more: seq<Step>)
    requires IsRun(limit, steps) && IsRun(limit, steps + more)
    ensures Reached(limit, steps).peak <= Reached(limit, steps + more).peak
    decreases |more|
  {
    hide Inv, Enabled, After;
    var all := steps + more;
    if more == [] {
      assert all == steps;
    } else {
      assert all[..|all| - 1] == steps + more[..|more| - 1];
      PeakNeverFalls(limit, steps, more[..|more| - 1]);
      RunKeepsInv(limit, all[..|all| - 1]);
      KeepsInv(Reached(limit, all[..|all| - 1]), all[|all| - 1]);
    }
  }

  /** A failed swap means another request raised the peak since it was loaded. */
  lemma SwapFailsOnlyBehindARise(limit: nat, steps: seq<Step>, r: Request)
    requires IsRun(limit, steps) && Enabled(Reached(limit, steps), Swap(r))
    ensures var s := Reached(limit, steps);
            Fails(s, Swap(r)) <==> s.phases[r].p < s.phases[r].n && s.phases[r].p < s.peak
  {
    hide IsRun, Reached, Holders, Running;
    RunKeepsInv(limit, steps);
    assert PhaseOk(Reached(limit, steps), Reached(limit, steps).phases[r]);
  }

  // ---- The loop ends -----------------------------------------------------------------------------

  /** The swap does not happen, and its request goes round the loop again. */
  predicate Fails(s: State, step: Step)
    requires Enabled(s, step)
  {
    step.Swap? && After(s, step).phases[step.r].Counted?
  }

  /** How often the request's swap has failed since it arrived. */
  function Failures(limit: nat, steps: seq<Step>, r: Request): nat
    requires IsRun(limit, steps)
    decreases |steps|
  {
    if |steps| == 0 then 0
    else
      var before, last := steps[..|steps| - 1], steps[|steps| - 1];
      if last.r != r then Failures(limit, before, r)
      else if last.Arrive? then 0
      else Failures(limit, before, r) + if Fails(Reached(limit, before), last) then 1 else 0
  }

  /** How many steps the request has taken since it arrived. */
  function Turns(steps: seq<Step>, r: Request): nat
    decreases |steps|
  {
    if |steps| == 0 then 0
    else
      var before, last := steps[..|steps| - 1], steps[|steps| - 1];
      if last.r != r then Turns(before, r) else if last.Arrive? then 1 else Turns(before, r) + 1
  }

  /** The steps a request has taken if its swap never failed. */
  function Position(p: Phase): nat {
    match p
    case Waiting => 1
    case Admitted => 2
    case Counted(_) => 3
    case Loaded(_, _) => 4
    case Working(_) => 5
    case Leaving => 6
  }

  /** The peak has risen at least as often as the swap has failed, and before the latest load. */
  ghost predicate RoseAsOften(s: State, r: Request, failures: nat) {
    r in s.phases ==> failures <= s.peak && (s.phases[r].Loaded? ==> failures <= s.phases[r].p)
  }

  lemma KeepsRises(s: State, step: Step, r: Request, failures: nat)
    requires Enabled(s, step) && Inv(s) && RoseAsOften(s, r, failures) && s.peak <= After(s, step).peak
    ensures RoseAsOften(After(s, step), r,
                        if step.r != r then failures
                        else if step.Arrive? then 0
                        else failures + if Fails(s, step) then 1 else 0)
  {
    hide Holders, Running, LatestCount;
    assert r in s.phases ==> PhaseOk(s, s.phases[r]);
  }

  /** In every interleaving, each request's place in Convert and its failed swaps account for all the
      steps it has taken, and a swap fails at most limit times: each failure needs another rise of the
      peak. So no request is in the loop for ever, whatever the others do. */
  lemma {:induction false} FailuresAreBounded(limit: nat, steps: seq<Step>, r: Request)
    requires IsRun(limit, steps) && r in Reached(limit, steps).phases
    ensures var s := Reached(limit, steps);
            && Turns(steps, r) == Position(s.phases[r]) + 2 * Failures(limit, steps, r)
            && RoseAsOften(s, r, Failures(limit, steps, r))
            && Failures(limit, steps, r) <= limit
  {
    hide Holders, Running, LatestCount, PhaseOk;
    var before, last := steps[..|steps| - 1], steps[|steps| - 1];
    RunKeepsInv(limit, before);
    RunKeepsInv(limit, steps);
    KeepsInv(Reached(limit, before), last);
    hide Inv;
    if r in Reached(limit, before).phases {
      FailuresAreBounded(limit, before, r);
      KeepsRises(Reached(limit, before), last, r, Failures(limit, before, r)) by { assert Inv(Reached(limit, before)); }
    }
  }

  /** A request that holds a slot can always take a step of its own, and once it has taken 2 * limit + 7
      it holds it no more. */
  lemma HoldersGoOn(limit: nat, steps: seq<Step>, r: Request)
    requires IsRun(limit, steps) && r in Holders(Reached(limit, steps))
    ensures exists step: Step :: step.r == r && !step.Arrive? && Enabled(Reached(limit, steps), step)
    ensures Turns(steps, r) <= 2 * limit + 6
  {
    hide IsRun, Reached, After, Failures, Turns;
    RunKeepsInv(limit, steps);
    FailuresAreBounded(limit, steps, r);
    var s := Reached(limit, steps);
    assert |Holders(s)| > 0;
    var next := match s.phases[r]
      case Waiting => GiveUp(r)
      case Admitted => Count(r)
      case Counted(_) => Load(r)
      case Loaded(_, _) => Swap(r)
      case Working(_) => Finish(r)
      case Leaving => Release(r);
    assert next.r == r && Enabled(s, next);
  }
}

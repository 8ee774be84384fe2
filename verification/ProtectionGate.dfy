/** The cached protection check of the collaboration hub (internal/docs/repository.go, ProtectionGate). */
module ProtectionGate {
  import opened Wrappers

  /** The protection modes; only READ_ONLY matters to the hub. */
  datatype Mode = Unprotected | ReadOnly | Comments | TrackedChanges | Forms

  /** A call: the time, and what Load would return then; None when it fails. */
  datatype Call = Call(now: int, loaded: Option<Mode>)

  const DEFAULT_TTL: int := 2_000_000_000

  function Ttl(ttl: int): int { if ttl == 0 then DEFAULT_TTL else ttl }

  /** The gate's fields; fetched is None for the zero time. */
  datatype State = State(mode: Mode, fetched: Option<int>)

  const INIT: State := State(Unprotected, None)

  predicate Loads(s: State, ttl: int, now: int) { s.fetched.None? || now - s.fetched.value >= Ttl(ttl) }

  function After(s: State, ttl: int, call: Call): State {
    if Loads(s, ttl, call.now)
    then State(if call.loaded.Some? then call.loaded.value else s.mode, Some(call.now))
    else s
  }

  class Gate {
    const ttl: int
    var mode: Mode
    var fetched: Option<int>

    constructor (ttl: int)
      ensures this.ttl == ttl && Now() == INIT
    {
      this.ttl, mode, fetched := ttl, Unprotected, None;
    }

    ghost function Now(): State
      reads this
    {
      State(mode, fetched)
    }

    method IsReadOnly(call: Call) returns (readOnly: bool)
      modifies this
      ensures Now() == After(old(Now()), ttl, call)
      ensures readOnly <==> mode == ReadOnly
    {
      var t := if ttl == 0 then DEFAULT_TTL else ttl;
      if fetched.None? || call.now - fetched.value >= t {
        if call.loaded.Some? { mode := call.loaded.value; }
        fetched := Some(call.now);
      }
      readOnly := mode == ReadOnly;
    }
  }

  // ---- Runs of calls -----------------------------------------------------------------------------

  function Reached(ttl: int, calls: seq<Call>): State {
    if calls == [] then INIT else After(Reached(ttl, calls[..|calls| - 1]), ttl, calls[|calls| - 1])
  }

  /** Call i loads. */
  predicate LoadsAt(ttl: int, calls: seq<Call>, i: nat)
    requires i < |calls|
  {
    Loads(Reached(ttl, calls[..i]), ttl, calls[i].now)
  }

  predicate NonDecreasing(calls: seq<Call>) { forall i, j :: 0 <= i < j < |calls| ==> calls[i].now <= calls[j].now }

  /** fetched is the time of the latest call that loads. */
  lemma {:induction false} FetchedIsLatest(ttl: int, calls: seq<Call>)
    ensures var s := Reached(ttl, calls);
            && (calls == [] <==> s.fetched.None?)
            && (calls != [] ==>
                  exists i :: 0 <= i < |calls| && LoadsAt(ttl, calls, i) && s.fetched == Some(calls[i].now) &&
                              forall j :: i < j < |calls| ==> !LoadsAt(ttl, calls, j))
  {
    if calls != [] {
      var before, n := calls[..|calls| - 1], |calls| - 1;
      FetchedIsLatest(ttl, before);
      forall j | 0 <= j < n
        ensures before[..j] == calls[..j]
      {
      }
      if LoadsAt(ttl, calls, n) {
        assert Reached(ttl, calls).fetched == Some(calls[n].now);
      } else {
        var i :| 0 <= i < |before| && LoadsAt(ttl, before, i) && Reached(ttl, before).fetched == Some(before[i].now) &&
                 forall j :: i < j < |before| ==> !LoadsAt(ttl, before, j);
        assert LoadsAt(ttl, calls, i);
        forall j | i < j < |calls|
          ensures !LoadsAt(ttl, calls, j)
        {
          if j < n { assert !LoadsAt(ttl, before, j); }
        }
      }
    }
  }

  /** Loads are at least the TTL apart, for calls whose times do not go back: at most one query a TTL. */
  lemma LoadsAreApart(ttl: int, calls: seq<Call>, i: nat, j: nat)
    requires NonDecreasing(calls) && i < j < |calls| && LoadsAt(ttl, calls, i) && LoadsAt(ttl, calls, j)
    ensures calls[j].now - calls[i].now >= Ttl(ttl)
  {
    var before := calls[..j];
    FetchedIsLatest(ttl, before);
    var k :| 0 <= k < |before| && LoadsAt(ttl, before, k) && Reached(ttl, before).fetched == Some(before[k].now) &&
             forall m :: k < m < |before| ==> !LoadsAt(ttl, before, m);
    assert before[..i] == calls[..i];
    assert LoadsAt(ttl, before, i);
    assert i <= k;
  }

  /** The mode of the latest load that succeeded; unprotected before any. */
  function LastLoaded(ttl: int, calls: seq<Call>): Mode {
    if calls == [] then Unprotected
    else
      var n := |calls| - 1;
      if LoadsAt(ttl, calls, n) && calls[n].loaded.Some? then calls[n].loaded.value else LastLoaded(ttl, calls[..n])
  }

  /** The answer after any calls is that of the latest successful load; a failed one keeps it. And it is
      fresh: a load was tried less than the TTL before the last call, or by it. */
  lemma {:induction false} AnswersLastLoaded(ttl: int, calls: seq<Call>)
    ensures Reached(ttl, calls).mode == LastLoaded(ttl, calls)
    ensures calls != [] ==>
              var s := Reached(ttl, calls);
              s.fetched.Some? && (calls[|calls| - 1].now == s.fetched.value ||
                                  calls[|calls| - 1].now - s.fetched.value < Ttl(ttl))
  {
    if calls != [] {
      AnswersLastLoaded(ttl, calls[..|calls| - 1]);
    }
  }
}

/**
 The listing of a window: stored rows, expanded and merged with per-occurrence overrides
 (internal/calendar/service.go, ListEvents), and the this-event edit that creates the overrides.
 */
module EventList {
  import opened Civil
  import opened Wrappers
  import opened Recurrence
  import opened Expansion
  import opened Loops
  import opened LoopsEnd

  /** The whole second an instant falls in, as its RFC 3339 rendering shows it. */
  function SecondOf(t: Instant): int { t.Ticks() / 1_000_000_000 }

  datatype Key = Key(master: string, second: Option<int>)

  /** The occurrence an override row replaces. */
  function OverrideKey(e: Event): Key {
    Key(e.parentId, if e.originalStart.Some? then Some(SecondOf(e.originalStart.value)) else None)
  }

  function InstanceKey(inst: Event): Key { Key(inst.recurringEventId, Some(SecondOf(inst.start))) }

  predicate IsOverride(e: Event) { e.parentId != "" }

  function Overrides(list: seq<Event>): seq<Event> {
    if |list| == 0 then []
    else
      var last := list[|list| - 1];
      Overrides(list[..|list| - 1]) + if IsOverride(last) then [last] else []
  }

  function Masters(list: seq<Event>): seq<Event> {
    if |list| == 0 then []
    else
      var last := list[|list| - 1];
      Masters(list[..|list| - 1]) + if IsOverride(last) then [] else [last]
  }

  /** The override rows by key; a later row takes the place of an earlier one. */
  function ExceptionMap(list: seq<Event>): map<Key, Event> {
    if |list| == 0 then map[]
    else
      var last := list[|list| - 1];
      var before := ExceptionMap(list[..|list| - 1]);
      if IsOverride(last) then before[OverrideKey(last) := last] else before
  }

  function AllInstances(masters: seq<Event>, min: Instant, max: Instant): seq<Event> {
    if |masters| == 0 then []
    else AllInstances(masters[..|masters| - 1], min, max) + Expanded(masters[|masters| - 1], min, max)
  }

  predicate Covered(inst: Event, keys: set<Key>) {
    inst.recurringEventId != "" && InstanceKey(inst) in keys
  }

  /** The instances no override replaces, in order. */
  function Uncovered(instances: seq<Event>, keys: set<Key>): seq<Event> {
    if |instances| == 0 then []
    else
      var last := instances[|instances| - 1];
      Uncovered(instances[..|instances| - 1], keys) + if Covered(last, keys) then [] else [last]
  }

  /** What stands in the listing where an instance was computed. */
  function Shown(inst: Event, exceptions: map<Key, Event>): Event {
    if Covered(inst, exceptions.Keys) then exceptions[InstanceKey(inst)] else inst
  }

  /** The rows a repository listing can hold: ids are a primary key, recurringEventId is never
      persisted, and at most one live override stands for a master and second. */
  predicate WellFormedList(list: seq<Event>) {
    && (forall i, j :: 0 <= i < j < |list| ==> list[i].id != list[j].id)
    && (forall e :: e in list ==> e.id != "" && e.recurringEventId == "")
    && DistinctOverrides(list)
  }

  predicate DistinctOverrides(list: seq<Event>) {
    forall i, j :: 0 <= i < j < |list| && IsOverride(list[i]) && IsOverride(list[j]) ==>
      OverrideKey(list[i]) != OverrideKey(list[j])
  }

  // ---- Splitting the rows ------------------------------------------------------------------------

  lemma DistinctFront(list: seq<Event>)
    requires DistinctOverrides(list) && |list| > 0
    ensures var front, last := list[..|list| - 1], list[|list| - 1];
            && DistinctOverrides(front)
            && forall e :: e in front && IsOverride(e) && IsOverride(last) ==> OverrideKey(e) != OverrideKey(last)
  {
    hide OverrideKey;
    var front := list[..|list| - 1];
    forall e | e in front && IsOverride(e) && IsOverride(list[|list| - 1])
      ensures OverrideKey(e) != OverrideKey(list[|list| - 1])
    {
      var i :| 0 <= i < |front| && front[i] == e;
      assert list[i] == e;
    }
  }

  lemma {:induction false} ExceptionMapHoldsOverrides(list: seq<Event>)
    ensures forall k :: k in ExceptionMap(list) ==>
              IsOverride(ExceptionMap(list)[k]) && OverrideKey(ExceptionMap(list)[k]) == k &&
              ExceptionMap(list)[k] in list
    ensures forall e :: e in list && IsOverride(e) ==> OverrideKey(e) in ExceptionMap(list)
    ensures DistinctOverrides(list) ==>
              forall e :: e in list && IsOverride(e) ==> ExceptionMap(list)[OverrideKey(e)] == e
  {
    hide OverrideKey, DistinctOverrides;
    if |list| > 0 {
      var front, last := list[..|list| - 1], list[|list| - 1];
      ExceptionMapHoldsOverrides(front);
      assert forall e :: e in list ==> e in front || e == last;
      if DistinctOverrides(list) {
        DistinctFront(list);
      }
    }
  }

  /** The overrides whose keys are still wanted. */
  function Pending(list: seq<Event>, keys: set<Key>): multiset<Event> {
    if |list| == 0 then multiset{}
    else
      var last := list[|list| - 1];
      Pending(list[..|list| - 1], keys) +
      if IsOverride(last) && OverrideKey(last) in keys then multiset{last} else multiset{}
  }

  /** Dropping the key of one override drops that override, once. */
  lemma {:induction false} PendingRemove(list: seq<Event>, keys: set<Key>, e: Event)
    requires DistinctOverrides(list) && e in list && IsOverride(e) && OverrideKey(e) in keys
    ensures Pending(list, keys) == Pending(list, keys - {OverrideKey(e)}) + multiset{e}
  {
    hide OverrideKey, DistinctOverrides, IsOverride;
    var front, last := list[..|list| - 1], list[|list| - 1];
    DistinctFront(list);
    if e in front {
      PendingRemove(front, keys, e);
    } else {
      PendingUntouched(front, keys, OverrideKey(e));
    }
  }

  lemma {:induction false} PendingUntouched(list: seq<Event>, keys: set<Key>, k: Key)
    requires forall f :: f in list && IsOverride(f) ==> OverrideKey(f) != k
    ensures Pending(list, keys) == Pending(list, keys - {k})
  {
    if |list| > 0 {
      PendingUntouched(list[..|list| - 1], keys, k);
    }
  }

  lemma {:induction false} PendingBounds(list: seq<Event>, keys: set<Key>)
    ensures (forall e :: e in list && IsOverride(e) ==> OverrideKey(e) in keys) ==>
              Pending(list, keys) == multiset(Overrides(list))
    ensures Pending(list, {}) == multiset{}
  {
    if |list| > 0 {
      PendingBounds(list[..|list| - 1], keys);
    }
  }

  // ---- Instances have keys of their own ----------------------------------------------------------

  lemma InstancesOfMaster(m: Event, min: Instant, max: Instant)
    requires m.id != "" && m.recurringEventId == ""
    ensures forall e :: e in Expanded(m, min, max) ==> e.recurringEventId == "" || e.recurringEventId == m.id
    ensures forall i, j :: 0 <= i < j < |Expanded(m, min, max)| && Expanded(m, min, max)[i].recurringEventId != "" ==>
              InstanceKey(Expanded(m, min, max)[i]) != InstanceKey(Expanded(m, min, max)[j])
  {
    if m.repeat.Repeats? {
      var q := QueryOf(m, min, max);
      forall i, j | 0 <= i < j < |Expanded(m, min, max)|
        ensures InstanceKey(Expanded(m, min, max)[i]) != InstanceKey(Expanded(m, min, max)[j])
      {
        InstancesOrdered(m, q, i, j);
      }
    }
  }

  lemma {:induction false} InstanceIds(masters: seq<Event>, min: Instant, max: Instant)
    requires forall m :: m in masters ==> m.id != "" && m.recurringEventId == ""
    ensures forall e :: e in AllInstances(masters, min, max) ==>
              e.recurringEventId == "" || exists m :: m in masters && m.id == e.recurringEventId
  {
    if |masters| > 0 {
      var last := masters[|masters| - 1];
      InstanceIds(masters[..|masters| - 1], min, max);
      InstancesOfMaster(last, min, max);
      assert last in masters;
    }
  }

  /** No two recurring instances of a listing share a key. */
  ghost predicate FreshKey(done: seq<Event>, inst: Event) {
    forall e :: e in done && e.recurringEventId != "" ==> InstanceKey(e) != InstanceKey(inst)
  }

  lemma NextInstanceIsFresh(masters: seq<Event>, n: nat, i: nat, min: Instant, max: Instant)
    requires n < |masters| && i < |Expanded(masters[n], min, max)|
    requires forall m :: m in masters ==> m.id != "" && m.recurringEventId == ""
    requires forall j, k :: 0 <= j < k < |masters| ==> masters[j].id != masters[k].id
    ensures var inst := Expanded(masters[n], min, max)[i];
            inst.recurringEventId != "" ==>
              FreshKey(AllInstances(masters[..n], min, max) + Expanded(masters[n], min, max)[..i], inst)
  {
    hide Expanded;
    var insts := Expanded(masters[n], min, max);
    InstancesOfMaster(masters[n], min, max);
    InstanceIds(masters[..n], min, max);
    assert insts[i] in insts;
  }

  // ---- The merge ---------------------------------------------------------------------------------

  /** The keys of recurring instances already listed. */
  function UsedKeys(done: seq<Event>): set<Key> {
    set e | e in done && e.recurringEventId != "" :: InstanceKey(e)
  }

  /** After the instances in done, an override takes the place of this one: it is the first of its key. */
  predicate Replaced(done: seq<Event>, inst: Event, keys: set<Key>) {
    Covered(inst, keys) && InstanceKey(inst) !in UsedKeys(done)
  }

  /** The instances that stay in the listing, in order. */
  function Unreplaced(instances: seq<Event>, keys: set<Key>): seq<Event> {
    if |instances| == 0 then []
    else
      var front, last := instances[..|instances| - 1], instances[|instances| - 1];
      Unreplaced(front, keys) + if Replaced(front, last, keys) then [] else [last]
  }

  /** What stands in the listing where the i-th instance was computed. */
  function ShownAt(instances: seq<Event>, i: nat, exceptions: map<Key, Event>): Event
    requires i < |instances|
  {
    if Replaced(instances[..i], instances[i], exceptions.Keys) then exceptions[InstanceKey(instances[i])]
    else instances[i]
  }

  /** The overrides still waiting are those of occurrences not yet seen. */
  ghost predicate KeysLeft(all: map<Key, Event>, done: seq<Event>, rest: map<Key, Event>) {
    rest == all - UsedKeys(done)
  }

  ghost predicate InPlace(all: map<Key, Event>, done: seq<Event>, events: seq<Event>) {
    |events| == |done| && forall i :: 0 <= i < |done| ==> events[i] == ShownAt(done, i, all)
  }

  /** Nothing lost, nothing listed twice. */
  ghost predicate Conserved(list: seq<Event>, done: seq<Event>, rest: map<Key, Event>, events: seq<Event>) {
    multiset(events) + Pending(list, rest.Keys) ==
    multiset(Overrides(list)) + multiset(Unreplaced(done, ExceptionMap(list).Keys))
  }

  /** State of the merge after the instances in done. */
  ghost predicate Merged(list: seq<Event>, done: seq<Event>, rest: map<Key, Event>, events: seq<Event>) {
    && KeysLeft(ExceptionMap(list), done, rest) && InPlace(ExceptionMap(list), done, events)
    && Conserved(list, done, rest, events)
  }

  lemma UsedKeysGrow(done: seq<Event>, inst: Event)
    ensures UsedKeys(done + [inst]) == UsedKeys(done) + if inst.recurringEventId != "" then {InstanceKey(inst)} else {}
  {
    hide InstanceKey;
    assert inst in done + [inst];
    forall k | k in UsedKeys(done)
      ensures k in UsedKeys(done + [inst])
    {
      var f :| f in done && f.recurringEventId != "" && InstanceKey(f) == k;
      assert f in done + [inst];
    }
  }

  lemma UnreplacedGrows(done: seq<Event>, inst: Event, keys: set<Key>)
    ensures Unreplaced(done + [inst], keys) ==
            if Replaced(done, inst, keys) then Unreplaced(done, keys) else Unreplaced(done, keys) + [inst]
  {
    assert (done + [inst])[..|done|] == done;
  }

  /** Earlier places are as they were. */
  lemma InPlaceGrows(all: map<Key, Event>, done: seq<Event>, events: seq<Event>, inst: Event, e: Event)
    requires InPlace(all, done, events)
    requires e == if Replaced(done, inst, all.Keys) then all[InstanceKey(inst)] else inst
    ensures InPlace(all, done + [inst], events + [e])
  {
    hide Replaced;
    forall i | 0 <= i < |done + [inst]|
      ensures (events + [e])[i] == ShownAt(done + [inst], i, all)
    {
      assert (done + [inst])[..i] == done[..i];
      assert done[..|done|] == done;
    }
  }

  lemma MoveAcross(shown: multiset<Event>, pending: multiset<Event>, overrides: multiset<Event>,
                   uncovered: multiset<Event>, e: Event)
    requires shown + pending == overrides + uncovered
    ensures shown + multiset{e} + pending == overrides + (uncovered + multiset{e})
  {
    assert shown + multiset{e} + pending == (shown + pending) + multiset{e};
  }

  lemma MergeOverride(list: seq<Event>, done: seq<Event>, rest: map<Key, Event>, events: seq<Event>, inst: Event)
    requires DistinctOverrides(list) && Merged(list, done, rest, events)
    requires inst.recurringEventId != "" && InstanceKey(inst) in rest
    ensures var k := InstanceKey(inst);
            Merged(list, done + [inst], rest - {k}, events + [rest[k]])
  {
    hide ExceptionMap, Pending, Overrides, OverrideKey, InstanceKey, Unreplaced, UsedKeys, DistinctOverrides, InPlace;
    var all, k := ExceptionMap(list), InstanceKey(inst);
    ExceptionMapHoldsOverrides(list);
    UsedKeysGrow(done, inst);
    UnreplacedGrows(done, inst, all.Keys);
    assert rest[k] == all[k];
    InPlaceGrows(all, done, events, inst, rest[k]);
    PendingRemove(list, rest.Keys, rest[k]);
    assert (rest - {k}).Keys == rest.Keys - {k};
    assert rest - {k} == all - UsedKeys(done + [inst]);
    assert multiset(events + [rest[k]]) + Pending(list, rest.Keys - {k}) == multiset(events) + Pending(list, rest.Keys);
  }

  lemma MergeInstance(list: seq<Event>, done: seq<Event>, rest: map<Key, Event>, events: seq<Event>, inst: Event)
    requires Merged(list, done, rest, events)
    requires inst.recurringEventId == "" || InstanceKey(inst) !in rest
    ensures Merged(list, done + [inst], rest, events + [inst])
  {
    hide ExceptionMap, Pending, Overrides, InstanceKey, Unreplaced, UsedKeys, InPlace;
    var all, k := ExceptionMap(list), InstanceKey(inst);
    UsedKeysGrow(done, inst);
    UnreplacedGrows(done, inst, all.Keys);
    assert !Replaced(done, inst, all.Keys);
    InPlaceGrows(all, done, events, inst, inst);
    assert rest == all - UsedKeys(done + [inst]);
    var before := multiset(Unreplaced(done, all.Keys));
    assert multiset(Unreplaced(done + [inst], all.Keys)) == before + multiset{inst};
    MoveAcross(multiset(events), Pending(list, rest.Keys), multiset(Overrides(list)), before, inst);
  }

  // ---- The listing -------------------------------------------------------------------------------

  /** The listing of these instances: in order, the first of a key replaced by its override, then the
      other overrides; every override is there exactly once. */
  ghost predicate IsListingOf(list: seq<Event>, instances: seq<Event>, events: seq<Event>) {
    && |events| >= |instances|
    && (forall i :: 0 <= i < |instances| ==> events[i] == ShownAt(instances, i, ExceptionMap(list)))
    && multiset(events) == multiset(Overrides(list)) + multiset(Unreplaced(instances, ExceptionMap(list).Keys))
  }

  function Flat(parts: seq<seq<Event>>): seq<Event> {
    if |parts| == 0 then [] else Flat(parts[..|parts| - 1]) + parts[|parts| - 1]
  }

  /** ListEvents from the rows the repository returned; parts are the expansions of the masters. The
      range over the leftover map visits its keys in an order of its own choosing. */
  method ListEvents(list: seq<Event>, min: Instant, max: Instant, beyond: Beyond)
    returns (events: seq<Event>, ghost parts: seq<seq<Event>>)
    requires DistinctOverrides(list) && forall m :: m in Masters(list) ==> Returns(m, min, max, beyond)
    ensures |parts| == |Masters(list)|
    ensures forall i :: 0 <= i < |parts| ==> IsExpansion(Masters(list)[i], min, max, beyond, parts[i])
    ensures IsListingOf(list, Flat(parts), events)
  {
    var exceptions: map<Key, Event>, masters: seq<Event> := map[], [];
    for i := 0 to |list|
      invariant exceptions == ExceptionMap(list[..i]) && masters == Masters(list[..i])
    {
      var e := list[i];
      assert list[..i + 1][..i] == list[..i];
      if e.parentId != "" {
        exceptions := exceptions[OverrideKey(e) := e];
      } else {
        masters := masters + [e];
      }
    }
    assert list[..|list|] == list;
    exceptions, events, parts := EmitInstances(list, exceptions, masters, min, max, beyond);
    events := EmitLeftovers(list, Flat(parts), exceptions, events);
  }

  /** When every master expands as it should, every override is listed exactly once and every instance
      without an override exactly once, replaced ones in place. */
  lemma RightExpansionsListed(list: seq<Event>, min: Instant, max: Instant, beyond: Beyond,
                              parts: seq<seq<Event>>, events: seq<Event>)
    requires WellFormedList(list) && forall m :: m in Masters(list) ==> ExpandsRight(m, min, max, beyond)
    requires |parts| == |Masters(list)| && IsListingOf(list, Flat(parts), events)
    requires forall i :: 0 <= i < |parts| ==> IsExpansion(Masters(list)[i], min, max, beyond, parts[i])
    ensures var instances := AllInstances(Masters(list), min, max);
            && Flat(parts) == instances && |events| >= |instances|
            && (forall i :: 0 <= i < |instances| ==> events[i] == Shown(instances[i], ExceptionMap(list)))
            && multiset(events) ==
               multiset(Overrides(list)) + multiset(Uncovered(instances, ExceptionMap(list).Keys))
  {
    hide AllInstances, Masters, ExceptionMap, Overrides, Uncovered, Unreplaced, IsExpansion, ExpandsRight,
      DistinctOverrides,
      Flat, Replaced, Covered, UsedKeys;
    var masters, keys := Masters(list), ExceptionMap(list).Keys;
    forall i | 0 <= i < |parts|
      ensures parts[i] == Expanded(masters[i], min, max)
    {
      ExpansionIsRight(masters[i], min, max, beyond, parts[i]);
    }
    FlatIsAllInstances(masters, min, max, parts);
    var instances := Flat(parts);
    FreshInstances(list, min, max);
    UnreplacedIsUncovered(instances, keys);
    forall i | 0 <= i < |instances|
      ensures events[i] == Shown(instances[i], ExceptionMap(list))
    {
      FreshIsReplaced(instances, i, keys);
    }
  }

  lemma {:induction false} FlatIsAllInstances(masters: seq<Event>, min: Instant, max: Instant, parts: seq<seq<Event>>)
    requires |parts| == |masters| && forall i :: 0 <= i < |parts| ==> parts[i] == Expanded(masters[i], min, max)
    ensures Flat(parts) == AllInstances(masters, min, max)
  {
    if |parts| > 0 {
      FlatIsAllInstances(masters[..|masters| - 1], min, max, parts[..|parts| - 1]);
    }
  }

  /** No instance shares its key with an earlier one. */
  ghost predicate AllFresh(instances: seq<Event>) {
    forall i :: 0 <= i < |instances| && instances[i].recurringEventId != "" ==> FreshKey(instances[..i], instances[i])
  }

  lemma FreshInstances(list: seq<Event>, min: Instant, max: Instant)
    requires WellFormedList(list)
    ensures AllFresh(AllInstances(Masters(list), min, max))
  {
    hide Masters, AllInstances;
    MastersAreRows(list);
    FreshUpTo(Masters(list), |Masters(list)|, min, max);
    assert Masters(list)[..|Masters(list)|] == Masters(list);
  }

  lemma {:induction false} FreshUpTo(masters: seq<Event>, n: nat, min: Instant, max: Instant)
    requires n <= |masters| && forall m :: m in masters ==> m.id != "" && m.recurringEventId == ""
    requires forall j, k :: 0 <= j < k < |masters| ==> masters[j].id != masters[k].id
    ensures AllFresh(AllInstances(masters[..n], min, max))
  {
    hide AllFresh;
    if n == 0 {
      assert AllFresh([]) by { NoneIsFresh(); }
    } else {
      FreshUpTo(masters, n - 1, min, max);
      assert masters[..n][..n - 1] == masters[..n - 1];
      var before, last := AllInstances(masters[..n - 1], min, max), Expanded(masters[n - 1], min, max);
      hide AllInstances, Expanded, FreshKey;
      forall i | 0 <= i < |last| && last[i].recurringEventId != ""
        ensures FreshKey(before + last[..i], last[i])
      {
        NextInstanceIsFresh(masters, n - 1, i, min, max);
      }
      FreshAppend(before, last);
    }
  }

  lemma NoneIsFresh()
    ensures AllFresh([])
  {
  }

  lemma FreshAppend(before: seq<Event>, last: seq<Event>)
    requires AllFresh(before)
    requires forall i :: 0 <= i < |last| && last[i].recurringEventId != "" ==> FreshKey(before + last[..i], last[i])
    ensures AllFresh(before + last)
  {
    hide FreshKey;
    var all := before + last;
    forall i | 0 <= i < |all| && all[i].recurringEventId != ""
      ensures FreshKey(all[..i], all[i])
    {
      if i < |before| {
        assert all[..i] == before[..i];
      } else {
        assert all[..i] == before + last[..i - |before|];
      }
    }
  }

  lemma FreshIsReplaced(instances: seq<Event>, i: nat, keys: set<Key>)
    requires AllFresh(instances) && i < |instances|
    ensures Replaced(instances[..i], instances[i], keys) <==> Covered(instances[i], keys)
  {
    hide InstanceKey;
  }

  lemma {:induction false} UnreplacedIsUncovered(instances: seq<Event>, keys: set<Key>)
    requires AllFresh(instances)
    ensures Unreplaced(instances, keys) == Uncovered(instances, keys)
  {
    if |instances| > 0 {
      var front := instances[..|instances| - 1];
      forall i | 0 <= i < |front|
        ensures front[..i] == instances[..i]
      {
      }
      FreshIsReplaced(instances, |instances| - 1, keys);
      hide FreshKey, Replaced, Covered;
      UnreplacedIsUncovered(front, keys);
    }
  }

  lemma FrontWellFormed(list: seq<Event>)
    requires WellFormedList(list) && |list| > 0
    ensures WellFormedList(list[..|list| - 1])
  {
    hide OverrideKey;
  }

  lemma MastersAreRows(list: seq<Event>)
    requires WellFormedList(list)
    ensures forall m :: m in Masters(list) ==> m in list
    ensures forall i, j :: 0 <= i < j < |Masters(list)| ==> Masters(list)[i].id != Masters(list)[j].id
  {
    hide DistinctOverrides;
    if |list| > 0 {
      var front, last := list[..|list| - 1], list[|list| - 1];
      FrontWellFormed(list);
      MastersAreRows(front);
      forall m | m in Masters(front)
        ensures m.id != last.id
      {
        var i :| 0 <= i < |front| && front[i] == m;
        assert list[i] == m;
      }
    }
  }

  method EmitInstances(ghost list: seq<Event>, exceptions: map<Key, Event>, masters: seq<Event>,
                       min: Instant, max: Instant, beyond: Beyond)
    returns (rest: map<Key, Event>, events: seq<Event>, ghost parts: seq<seq<Event>>)
    requires DistinctOverrides(list) && exceptions == ExceptionMap(list)
    requires forall m :: m in masters ==> Returns(m, min, max, beyond)
    ensures |parts| == |masters| && Merged(list, Flat(parts), rest, events)
    ensures forall i :: 0 <= i < |parts| ==> IsExpansion(masters[i], min, max, beyond, parts[i])
  {
    hide ExceptionMap, Expanded, Merged, InstanceKey, DistinctOverrides, IsExpansion, Returns;
    rest, events, parts := exceptions, [], [];
    ghost var done := [];
    NothingMerged(list);
    for n := 0 to |masters|
      invariant |parts| == n && done == Flat(parts) && Merged(list, done, rest, events)
      invariant forall i :: 0 <= i < n ==> IsExpansion(masters[i], min, max, beyond, parts[i])
    {
      var insts := ExpandEvent(masters[n], min, max, beyond);
      ghost var base := done;
      for i := 0 to |insts|
        invariant done == base + insts[..i] && Merged(list, done, rest, events)
      {
        var inst := insts[i];
        var key := InstanceKey(inst);
        if inst.recurringEventId != "" && key in rest {
          MergeOverride(list, done, rest, events, inst);
          events := events + [rest[key]];
          rest := rest - {key};
        } else {
          MergeInstance(list, done, rest, events, inst);
          events := events + [inst];
        }
        done := done + [inst];
        assert insts[..i + 1] == insts[..i] + [inst];
      }
      assert insts[..|insts|] == insts;
      assert (parts + [insts])[..n] == parts;
      parts := parts + [insts];
    }
  }

  lemma NothingMerged(list: seq<Event>)
    ensures Merged(list, [], ExceptionMap(list), [])
  {
    hide Overrides, Pending, ExceptionMap;
    ExceptionMapHoldsOverrides(list);
    PendingBounds(list, ExceptionMap(list).Keys);
    assert ExceptionMap(list) - UsedKeys([]) == ExceptionMap(list);
  }

  method EmitLeftovers(ghost list: seq<Event>, ghost done: seq<Event>, exceptions: map<Key, Event>, events: seq<Event>)
    returns (out: seq<Event>)
    requires DistinctOverrides(list) && Merged(list, done, exceptions, events)
    ensures events <= out
    ensures multiset(out) == multiset(Overrides(list)) + multiset(Unreplaced(done, ExceptionMap(list).Keys))
  {
    hide ExceptionMap, Pending, Overrides, Unreplaced, OverrideKey, UsedKeys, InPlace, DistinctOverrides;
    out := events;
    var rest := exceptions;
    ghost var total := multiset(Overrides(list)) + multiset(Unreplaced(done, ExceptionMap(list).Keys));
    ExceptionMapHoldsOverrides(list);
    while rest.Keys != {}
      invariant events <= out && (forall k :: k in rest ==> k in ExceptionMap(list) && rest[k] == ExceptionMap(list)[k])
      invariant multiset(out) + Pending(list, rest.Keys) == total
      decreases rest.Keys
    {
      var k :| k in rest.Keys;
      PendingRemove(list, rest.Keys, rest[k]);
      assert (rest - {k}).Keys == rest.Keys - {k};
      out := out + [rest[k]];
      rest := rest - {k};
    }
    PendingBounds(list, {});
  }
}

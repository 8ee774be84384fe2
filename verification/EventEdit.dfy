/**
 The events table and the this-event edit (internal/calendar/repository.go and service.go,
 UpdateEvent): which override row it leaves behind, and what the next listing shows.
 */
module EventEdit {
  import opened Civil
  import opened Wrappers
  import opened Recurrence
  import opened Expansion
  import opened EventList

  datatype Row = Row(event: Event, trashed: bool)

  type Rows = map<string, Row>

  /** The editable fields of a this-event edit; end is None when the request's end does not parse. */
  datatype Fields = Fields(details: string, start: Instant, end: Option<Instant>)

  const HOUR: int := 3_600_000_000_000

  /** The end fieldsFrom settles on. */
  function EndOf(f: Fields): Instant {
    if f.end.None? || f.end.value.Before(f.start) then Add(f.start, HOUR) else f.end.value
  }

  ghost predicate ValidRows(rows: Rows) {
    forall id :: id in rows ==> id != "" && rows[id].event.id == id && rows[id].event.recurringEventId == ""
  }

  predicate OverlapsWindow(e: Event, min: Instant, max: Instant) { e.start.Before(max) && e.end.After(min) }

  /** The WHERE clause of Repository.List. */
  predicate Listed(e: Event, min: Instant, max: Instant) {
    if e.parentId == "" && e.repeat != Blank then e.start.Before(max) else OverlapsWindow(e, min, max)
  }

  ghost predicate IsListing(rows: Rows, min: Instant, max: Instant, list: seq<Event>) {
    && (forall i, j :: 0 <= i < j < |list| ==> list[i].id != list[j].id && !list[j].start.Before(list[i].start))
    && (forall e :: e in list <==> e.id in rows && rows[e.id] == Row(e, false) && Listed(e, min, max))
  }

  /** The live override rows of one occurrence, by exact original start. */
  predicate IsExceptionFor(row: Row, master: string, original: Instant) {
    !row.trashed && row.event.parentId == master && row.event.originalStart == Some(original)
  }

  function Edited(id: string, master: string, original: Instant, f: Fields): Event {
    Event(id, f.details, f.start, EndOf(f), Blank, "", master, Some(original))
  }

  /** after is before with one override of the occurrence written: over an existing one, or new. */
  ghost predicate IsUpsert(before: Rows, after: Rows, master: string, original: Instant, f: Fields,
                           newId: string, id: string) {
    && after == before[id := Row(Edited(id, master, original, f), false)]
    && if exists x :: x in before && IsExceptionFor(before[x], master, original)
       then id in before && IsExceptionFor(before[id], master, original)
       else id == newId
  }

  class EventTable {
    var rows: Rows

    constructor ()
      ensures rows == map[]
    {
      rows := map[];
    }

    method GetExceptionForOccurrence(master: string, original: Instant) returns (id: Option<string>)
      ensures id.None? ==> forall x :: x in rows ==> !IsExceptionFor(rows[x], master, original)
      ensures id.Some? ==> id.value in rows && IsExceptionFor(rows[id.value], master, original)
    {
      var hits := set x | x in rows.Keys && IsExceptionFor(rows[x], master, original);
      if hits == {} {
        assert forall x :: x in rows && IsExceptionFor(rows[x], master, original) ==> x in hits;
        return None;
      }
      var x :| x in hits;
      return Some(x);
    }

    /** UpdateEvent in this-event scope. None is an error reply: original_start does not parse, or
        the master is missing or trashed. */
    method UpdateThisEvent(master: string, original: Option<Instant>, f: Fields, newId: string)
      returns (r: Option<Event>)
      requires ValidRows(rows) && newId != "" && newId !in rows
      modifies this
      ensures ValidRows(rows)
      ensures r.Some? <==> original.Some? && master in old(rows) && !old(rows)[master].trashed
      ensures r.None? ==> rows == old(rows)
      ensures r.Some? ==>
                && IsUpsert(old(rows), rows, master, original.value, f, newId, r.value.id)
                && r.value == Edited(r.value.id, master, original.value, f)
    {
      if original.None? || master !in rows || rows[master].trashed {
        return None;
      }
      var existing := GetExceptionForOccurrence(master, original.value);
      var id := if existing.Some? then existing.value else newId;
      var e := Edited(id, master, original.value, f);
      rows := rows[id := Row(e, false)];
      r := Some(e);
    }
  }

  // ---- At most one live override per occurrence --------------------------------------------------

  predicate LiveOverride(row: Row) { !row.trashed && IsOverride(row.event) }

  ghost predicate UniqueOverrides(rows: Rows) {
    forall x, y :: x in rows && y in rows && x != y && LiveOverride(rows[x]) && LiveOverride(rows[y]) ==>
      OverrideKey(rows[x].event) != OverrideKey(rows[y].event)
  }

  predicate WholeSecond(t: Instant) { t.clock % 1_000_000_000 == 0 }

  ghost predicate WholeSeconds(rows: Rows) {
    forall x :: x in rows && LiveOverride(rows[x]) ==>
      rows[x].event.originalStart.Some? && WholeSecond(rows[x].event.originalStart.value)
  }

  lemma ExactSeconds(k: int)
    ensures (k * 1_000_000_000) / 1_000_000_000 == k
  {
  }

  lemma WholeSecondTicks(t: Instant)
    requires WholeSecond(t)
    ensures t.Ticks() == SecondOf(t) * 1_000_000_000
  {
    var c := t.clock / 1_000_000_000;
    assert t.clock == c * 1_000_000_000;
    assert t.Ticks() == (t.day * 86_400 + c) * 1_000_000_000;
    ExactSeconds(t.day * 86_400 + c);
  }

  lemma SecondsTell(a: Instant, b: Instant)
    requires WholeSecond(a) && WholeSecond(b) && SecondOf(a) == SecondOf(b)
    ensures a == b
  {
    hide SecondOf, WholeSecond;
    WholeSecondTicks(a);
    WholeSecondTicks(b);
  }

  /** Every live override of the master in the original's second is of exactly that time. */
  ghost predicate SecondIsFree(rows: Rows, master: string, original: Instant) {
    forall x :: x in rows && SharesSecond(rows[x], master, original) ==> rows[x].event.originalStart == Some(original)
  }

  predicate SharesSecond(row: Row, master: string, original: Instant) {
    && !row.trashed && row.event.parentId == master && row.event.originalStart.Some?
    && SecondOf(row.event.originalStart.value) == SecondOf(original)
  }

  /** An edit leaves at most one live override per master and second exactly when no other time of its
      second has one already. */
  lemma UpsertKeepsUniqueExactlyWhen(before: Rows, after: Rows, master: string, original: Instant, f: Fields,
                                     newId: string, id: string)
    requires IsUpsert(before, after, master, original, f, newId, id)
    requires UniqueOverrides(before) && master != "" && newId !in before
    ensures UniqueOverrides(after) <==> SecondIsFree(before, master, original)
  {
    hide SecondOf, EndOf;
    assert LiveOverride(after[id]) && OverrideKey(after[id].event) == Key(master, Some(SecondOf(original)));
    if SecondIsFree(before, master, original) {
      FreeSecondKeeps(before, after, master, original, f, newId, id);
    } else {
      var x :| x in before && SharesSecond(before[x], master, original) &&
               before[x].event.originalStart != Some(original);
      assert x != id && after[x] == before[x];
      assert LiveOverride(after[x]) && OverrideKey(after[x].event) == OverrideKey(after[id].event);
    }
  }

  lemma OneException(rows: Rows, master: string, original: Instant, x: string, y: string)
    requires UniqueOverrides(rows) && master != "" && x in rows && y in rows
    requires IsExceptionFor(rows[x], master, original) && IsExceptionFor(rows[y], master, original)
    ensures x == y
  {
    hide SecondOf;
    assert OverrideKey(rows[x].event) == OverrideKey(rows[y].event);
  }

  lemma EditedKeyIsFree(before: Rows, after: Rows, master: string, original: Instant, f: Fields, newId: string,
                        id: string, x: string)
    requires IsUpsert(before, after, master, original, f, newId, id)
    requires UniqueOverrides(before) && master != "" && newId !in before && SecondIsFree(before, master, original)
    requires x in after && LiveOverride(after[x])
    ensures x != id ==> OverrideKey(after[x].event) != OverrideKey(after[id].event)
  {
    hide SecondOf, EndOf, UniqueOverrides;
    if x in before && id in before && IsExceptionFor(before[x], master, original) &&
       IsExceptionFor(before[id], master, original) {
      OneException(before, master, original, x, id);
    }
  }

  lemma FreeSecondKeeps(before: Rows, after: Rows, master: string, original: Instant, f: Fields, newId: string,
                        id: string)
    requires IsUpsert(before, after, master, original, f, newId, id)
    requires UniqueOverrides(before) && master != "" && newId !in before && SecondIsFree(before, master, original)
    ensures UniqueOverrides(after)
  {
    hide SecondOf, EndOf, SecondIsFree;
    forall x, y | x in after && y in after && x != y && LiveOverride(after[x]) && LiveOverride(after[y])
      ensures OverrideKey(after[x].event) != OverrideKey(after[y].event)
    {
      if x == id {
        EditedKeyIsFree(before, after, master, original, f, newId, id, y);
      } else if y == id {
        EditedKeyIsFree(before, after, master, original, f, newId, id, x);
      }
    }
  }

  /** Edits whose original starts are whole seconds never leave two live overrides for one second. */
  lemma UpsertKeepsUnique(before: Rows, after: Rows, master: string, original: Instant, f: Fields, newId: string,
                          id: string)
    requires IsUpsert(before, after, master, original, f, newId, id) && master != "" && newId !in before
    requires UniqueOverrides(before) && WholeSeconds(before) && WholeSecond(original)
    ensures UniqueOverrides(after) && WholeSeconds(after)
  {
    hide SecondOf, WholeSecond, EndOf, UniqueOverrides;
    UpsertKeepsUniqueExactlyWhen(before, after, master, original, f, newId, id);
    forall x | x in before && SharesSecond(before[x], master, original)
      ensures before[x].event.originalStart == Some(original)
    {
      SecondsTell(before[x].event.originalStart.value, original);
    }
  }

  /** Without whole seconds they can: half a second apart, the second edit does not find the first. */
  lemma FractionsBreakUnique(f: Fields)
    ensures var before: Rows := map["a" := Row(Edited("a", "m", Moment(0, 0), f), false)];
            var after := before["b" := Row(Edited("b", "m", Moment(0, 500_000_000), f), false)];
            && UniqueOverrides(before) && !UniqueOverrides(after)
            && IsUpsert(before, after, "m", Moment(0, 500_000_000), f, "b", "b")
  {
    hide EndOf;
    var s: Instant, t: Instant := Moment(0, 0), Moment(0, 500_000_000);
    assert SecondOf(s) == SecondOf(t) == 0;
    var before: Rows := map["a" := Row(Edited("a", "m", s, f), false)];
    var after := before["b" := Row(Edited("b", "m", t, f), false)];
    assert "a" != "b" && "a" in after && "b" in after && LiveOverride(after["a"]) && LiveOverride(after["b"]);
    assert OverrideKey(after["a"].event) == OverrideKey(after["b"].event);
  }

  // ---- What the next listing shows ---------------------------------------------------------------

  lemma ListingIsWellFormed(rows: Rows, min: Instant, max: Instant, list: seq<Event>)
    requires ValidRows(rows) && UniqueOverrides(rows) && IsListing(rows, min, max, list)
    ensures WellFormedList(list)
  {
    hide OverrideKey, Listed;
    forall i, j | 0 <= i < j < |list| && IsOverride(list[i]) && IsOverride(list[j])
      ensures OverrideKey(list[i]) != OverrideKey(list[j])
    {
      assert list[i] in list && list[j] in list;
    }
  }

  lemma {:induction false} OverridesMembers(list: seq<Event>, e: Event)
    requires forall i, j :: 0 <= i < j < |list| ==> list[i].id != list[j].id
    ensures multiset(Overrides(list))[e] == if e in list && IsOverride(e) then 1 else 0
  {
    if |list| > 0 {
      var front, last := list[..|list| - 1], list[|list| - 1];
      OverridesMembers(front, e);
      assert e in front ==> e.id != last.id;
    }
  }

  lemma {:induction false} UncoveredMembers(instances: seq<Event>, keys: set<Key>, e: Event)
    ensures e in Uncovered(instances, keys) <==> e in instances && !Covered(e, keys)
  {
    if |instances| > 0 {
      UncoveredMembers(instances[..|instances| - 1], keys, e);
    }
  }

  lemma {:induction false} InstancesAreNoOverrides(list: seq<Event>, min: Instant, max: Instant)
    requires forall m :: m in list ==> !IsOverride(m)
    ensures forall e :: e in AllInstances(list, min, max) ==> !IsOverride(e)
  {
    if |list| > 0 {
      var last := list[|list| - 1];
      InstancesAreNoOverrides(list[..|list| - 1], min, max);
      assert last in list;
      forall e | e in Expanded(last, min, max)
        ensures !IsOverride(e)
      {
      }
    }
  }

  lemma {:induction false} MastersAreNoOverrides(list: seq<Event>)
    ensures forall m :: m in Masters(list) ==> !IsOverride(m)
  {
    if |list| > 0 {
      MastersAreNoOverrides(list[..|list| - 1]);
    }
  }

  /** The edited occurrence's key is taken by a listed override exactly when the edit is listed. */
  lemma EditedKeyListed(rows: Rows, min: Instant, max: Instant, list: seq<Event>, e: Event)
    requires ValidRows(rows) && UniqueOverrides(rows) && IsListing(rows, min, max, list)
    requires e.id in rows && rows[e.id] == Row(e, false) && IsOverride(e)
    ensures e in list <==> OverlapsWindow(e, min, max)
    ensures OverrideKey(e) in ExceptionMap(list) <==> e in list
  {
    hide OverrideKey;
    ExceptionMapHoldsOverrides(list);
    if OverrideKey(e) in ExceptionMap(list) {
      var f := ExceptionMap(list)[OverrideKey(e)];
      assert f in list && LiveOverride(rows[f.id]) && LiveOverride(rows[e.id]);
    }
  }

  /** The listing holds every override and every instance without one, each once. */
  ghost predicate IsShown(list: seq<Event>, min: Instant, max: Instant, events: seq<Event>) {
    multiset(events) ==
    multiset(Overrides(list)) + multiset(Uncovered(AllInstances(Masters(list), min, max), ExceptionMap(list).Keys))
  }

  /** After an edit e of the occurrence of master at original: the listing shows e exactly once if its
      new time overlaps the window, and the computed occurrence exactly when e is not shown. */
  lemma EditedOccurrence(rows: Rows, min: Instant, max: Instant, list: seq<Event>, events: seq<Event>,
                         e: Event, inst: Event)
    requires ValidRows(rows) && UniqueOverrides(rows) && IsListing(rows, min, max, list)
    requires e.id in rows && rows[e.id] == Row(e, false) && e.parentId != "" && e.originalStart.Some?
    requires IsShown(list, min, max, events)
    ensures multiset(events)[e] == if OverlapsWindow(e, min, max) then 1 else 0
    ensures inst in AllInstances(Masters(list), min, max) && inst.recurringEventId == e.parentId &&
            SecondOf(inst.start) == SecondOf(e.originalStart.value) ==>
              (inst in events <==> !OverlapsWindow(e, min, max))
  {
    hide OverlapsWindow, AllInstances, Masters, Overrides, Uncovered, ExceptionMap, UniqueOverrides, SecondOf;
    var instances, keys := AllInstances(Masters(list), min, max), ExceptionMap(list).Keys;
    MastersAreNoOverrides(list);
    InstancesAreNoOverrides(Masters(list), min, max);
    OverridesMembers(list, e);
    UncoveredMembers(instances, keys, e);
    EditedKeyListed(rows, min, max, list, e);
    OverridesMembers(list, inst);
    UncoveredMembers(instances, keys, inst);
    assert inst in events <==> inst in multiset(events);
  }
}

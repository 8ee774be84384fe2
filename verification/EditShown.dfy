/**
 A this-event edit from the table before it to the listing after it (internal/calendar/service.go,
 UpdateEvent and ListEvents): the edit is shown, its occurrence is not, and the rest is as before.
 */
module EditShown {
  import opened Civil
  import opened Wrappers
  import opened Recurrence
  import opened Expansion
  import opened EventList
  import opened EventEdit
  import opened Loops
  import opened LoopsEnd

  /** The events ListEvents returns from a table, its masters expanding as they should. */
  ghost predicate Lists(rows: Rows, min: Instant, max: Instant, beyond: Beyond, list: seq<Event>,
                        parts: seq<seq<Event>>, events: seq<Event>) {
    && IsListing(rows, min, max, list) && (forall m :: m in Masters(list) ==> ExpandsRight(m, min, max, beyond))
    && |parts| == |Masters(list)|
    && (forall i :: 0 <= i < |parts| ==> IsExpansion(Masters(list)[i], min, max, beyond, parts[i]))
    && IsListingOf(list, Flat(parts), events)
  }

  lemma ListsShows(rows: Rows, min: Instant, max: Instant, beyond: Beyond, list: seq<Event>, parts: seq<seq<Event>>,
                   events: seq<Event>)
    requires Lists(rows, min, max, beyond, list, parts, events) && ValidRows(rows) && UniqueOverrides(rows)
    ensures WellFormedList(list) && IsShown(list, min, max, events)
  {
    hide IsListing, IsListingOf, IsExpansion, ExpandsRight, WellFormedList, UniqueOverrides;
    ListingIsWellFormed(rows, min, max, list);
    RightExpansionsListed(list, min, max, beyond, parts, events);
  }

  /** An edit of an occurrence whose second no other live override has: the next listing shows it
      exactly once if its new time overlaps the window, and the computed occurrence exactly when it does
      not. */
  lemma EditIsShown(before: Rows, after: Rows, master: string, original: Instant, f: Fields, newId: string, id: string,
                    min: Instant, max: Instant, beyond: Beyond, list: seq<Event>, parts: seq<seq<Event>>,
                    events: seq<Event>, inst: Event)
    requires ValidRows(before) && newId != "" && newId !in before && master != ""
    requires IsUpsert(before, after, master, original, f, newId, id)
    requires UniqueOverrides(before) && SecondIsFree(before, master, original)
    requires Lists(after, min, max, beyond, list, parts, events)
    ensures var e := Edited(id, master, original, f);
            && multiset(events)[e] == (if OverlapsWindow(e, min, max) then 1 else 0)
            && (inst in AllInstances(Masters(list), min, max) ==>
                  InstanceKey(inst) == Key(master, Some(SecondOf(original))) ==>
                  (inst in events <==> !OverlapsWindow(e, min, max)))
  {
    UpsertIsValid(before, after, master, original, f, newId, id);
    hide Lists, IsUpsert, ValidRows, UniqueOverrides, SecondIsFree, IsShown, AllInstances, Masters, SecondOf, EndOf,
      OverlapsWindow;
    FreeSecondKeeps(before, after, master, original, f, newId, id);
    ListsShows(after, min, max, beyond, list, parts, events);
    assert IsListing(after, min, max, list) by { ListsIsListing(after, min, max, beyond, list, parts, events); }
    EditedOccurrence(after, min, max, list, events, Edited(id, master, original, f), inst);
  }

  lemma ListsIsListing(rows: Rows, min: Instant, max: Instant, beyond: Beyond, list: seq<Event>,
                       parts: seq<seq<Event>>, events: seq<Event>)
    requires Lists(rows, min, max, beyond, list, parts, events)
    ensures IsListing(rows, min, max, list)
  {
  }

  lemma UpsertIsValid(before: Rows, after: Rows, master: string, original: Instant, f: Fields, newId: string,
                      id: string)
    requires ValidRows(before) && newId != "" && IsUpsert(before, after, master, original, f, newId, id)
    ensures ValidRows(after) && id in after && after[id] == Row(Edited(id, master, original, f), false)
    ensures master != "" && newId !in before && id in before ==> IsOverride(before[id].event)
    ensures forall x :: x != id ==> (x in after <==> x in before) && (x in before ==> after[x] == before[x])
  {
    hide EndOf;
  }

  // ---- The rest of the listing -------------------------------------------------------------------

  lemma {:induction false} OverridesHold(list: seq<Event>, e: Event)
    ensures e in Overrides(list) <==> e in list && IsOverride(e)
  {
    if |list| > 0 {
      OverridesHold(list[..|list| - 1], e);
      assert list == list[..|list| - 1] + [list[|list| - 1]];
    }
  }

  lemma {:induction false} MastersHold(list: seq<Event>, e: Event)
    ensures e in Masters(list) <==> e in list && !IsOverride(e)
  {
    if |list| > 0 {
      MastersHold(list[..|list| - 1], e);
      assert list == list[..|list| - 1] + [list[|list| - 1]];
    }
  }

  lemma {:induction false} InstancesHold(masters: seq<Event>, min: Instant, max: Instant, e: Event)
    ensures e in AllInstances(masters, min, max) <==> exists m :: m in masters && e in Expanded(m, min, max)
  {
    hide Expanded;
    if |masters| > 0 {
      InstancesHold(masters[..|masters| - 1], min, max, e);
      assert masters == masters[..|masters| - 1] + [masters[|masters| - 1]];
    }
  }

  /** What a listing shows, row by row. */
  lemma ShownHolds(list: seq<Event>, min: Instant, max: Instant, events: seq<Event>, e: Event)
    requires IsShown(list, min, max, events)
    ensures e in events <==>
              || (e in list && IsOverride(e))
              || (e in AllInstances(Masters(list), min, max) && !Covered(e, ExceptionMap(list).Keys))
  {
    hide AllInstances, Masters, ExceptionMap, Covered, Overrides, Uncovered;
    OverridesHold(list, e);
    UncoveredMembers(AllInstances(Masters(list), min, max), ExceptionMap(list).Keys, e);
    assert e in events <==> e in multiset(events);
  }

  /** Rows other than the edited one are listed as before, and no master is the edited one. */
  ghost predicate SameRows(before: seq<Event>, after: seq<Event>, id: string) {
    && (forall e: Event :: e.id != id ==> (e in before <==> e in after))
    && (forall e: Event :: e.id == id && (e in before || e in after) ==> IsOverride(e))
  }

  lemma RowsStay(before: Rows, after: Rows, master: string, original: Instant, f: Fields, newId: string, id: string,
                 min: Instant, max: Instant, was: seq<Event>, now: seq<Event>)
    requires ValidRows(before) && newId != "" && newId !in before && master != ""
    requires IsUpsert(before, after, master, original, f, newId, id)
    requires IsListing(before, min, max, was) && IsListing(after, min, max, now)
    ensures SameRows(was, now, id)
    ensures forall e: Event :: e.id == id && (e in was || e in now) ==>
              OverrideKey(e) == Key(master, Some(SecondOf(original)))
  {
    hide EndOf, Listed, SecondOf;
    UpsertIsValid(before, after, master, original, f, newId, id);
  }

  lemma MastersStay(was: seq<Event>, now: seq<Event>, id: string, min: Instant, max: Instant, e: Event)
    requires SameRows(was, now, id)
    ensures e in AllInstances(Masters(was), min, max) <==> e in AllInstances(Masters(now), min, max)
  {
    hide AllInstances, Masters, Expanded;
    InstancesHold(Masters(was), min, max, e);
    InstancesHold(Masters(now), min, max, e);
    forall m
      ensures m in Masters(was) <==> m in Masters(now)
    {
      MastersHold(was, m);
      MastersHold(now, m);
    }
  }

  lemma CoverStays(was: seq<Event>, now: seq<Event>, id: string, edited: Key, e: Event)
    requires SameRows(was, now, id) && InstanceKey(e) != edited
    requires forall x: Event :: x.id == id && (x in was || x in now) ==> OverrideKey(x) == edited
    ensures Covered(e, ExceptionMap(was).Keys) <==> Covered(e, ExceptionMap(now).Keys)
  {
    hide ExceptionMap, InstanceKey, OverrideKey;
    ExceptionMapHoldsOverrides(was);
    ExceptionMapHoldsOverrides(now);
  }

  /** And everything else is shown exactly if it was shown before: every other override, every event that
      does not repeat, and every occurrence but the edited one. */
  lemma EditLeavesTheRest(before: Rows, after: Rows, master: string, original: Instant, f: Fields, newId: string,
                          id: string, min: Instant, max: Instant, was: seq<Event>, now: seq<Event>,
                          shownBefore: seq<Event>, shownAfter: seq<Event>, e: Event)
    requires ValidRows(before) && newId != "" && newId !in before && master != ""
    requires IsUpsert(before, after, master, original, f, newId, id)
    requires IsListing(before, min, max, was) && IsListing(after, min, max, now)
    requires IsShown(was, min, max, shownBefore) && IsShown(now, min, max, shownAfter)
    requires e.id != id && InstanceKey(e) != Key(master, Some(SecondOf(original)))
    ensures e in shownBefore <==> e in shownAfter
  {
    hide IsListing, IsShown, IsUpsert, ValidRows, SameRows, AllInstances, Masters, ExceptionMap, Covered, InstanceKey,
      OverrideKey, SecondOf;
    RowsStay(before, after, master, original, f, newId, id, min, max, was, now);
    MastersStay(was, now, id, min, max, e);
    CoverStays(was, now, id, Key(master, Some(SecondOf(original))), e);
    ShownHolds(was, min, max, shownBefore, e);
    ShownHolds(now, min, max, shownAfter, e);
    assert e in was <==> e in now by { OtherRow(was, now, id, e); }
  }

  lemma OtherRow(was: seq<Event>, now: seq<Event>, id: string, e: Event)
    requires SameRows(was, now, id) && e.id != id
    ensures e in was <==> e in now
  {
  }
}

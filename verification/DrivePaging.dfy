/**
 Paging through a folder (internal/drive/repository.go, ListChildren): a client follows page tokens to
 the end while other requests insert, trash, move and delete rows between the pages.
 */
module DrivePaging {
  import opened Wrappers
  import opened DriveTables

  type Rows = map<Id, File>

  datatype Query = Query(parent: Option<Id>, includeTrashed: bool, pageSize: int)

  /** The page, and the token of the next one. */
  datatype Page = Page(ids: seq<Id>, next: Option<Id>)

  function Size(q: Query): (n: nat)
    ensures 1 <= n <= 200
  {
    if q.pageSize <= 0 || q.pageSize > 200 then 100 else q.pageSize
  }

  /** The WHERE clause without the token. */
  predicate Matches(rows: Rows, q: Query, id: Id) {
    id in rows && rows[id].parent == q.parent && (q.includeTrashed || rows[id].trashed.None?)
  }

  predicate Past(token: Option<Id>, id: Id) { token.None? || token.value < id }

  predicate Selected(rows: Rows, q: Query, token: Option<Id>, id: Id) { Matches(rows, q, id) && Past(token, id) }

  predicate Increasing(ids: seq<Id>) {
    forall i, j :: 0 <= i < j < |ids| ==> ids[i] < ids[j]
  }

  /** The database's answer: the first limit selected rows in the order of their ids. */
  predicate IsAnswer(rows: Rows, q: Query, token: Option<Id>, limit: nat, answer: seq<Id>) {
    && Increasing(answer) && |answer| <= limit
    && (forall id :: id in answer ==> Selected(rows, q, token, id))
    && (forall id :: id in rows && Selected(rows, q, token, id) && id !in answer ==>
          |answer| == limit && forall a :: a in answer ==> a < id)
  }

  /** A page holds the selected rows up to its token, or all of them when it has none; a page with a
      token is full and something is selected past it. */
  ghost predicate IsPage(rows: Rows, q: Query, token: Option<Id>, page: Page) {
    && Increasing(page.ids) && |page.ids| <= Size(q)
    && (forall id: Id :: id in page.ids <==> Selected(rows, q, token, id) && (page.next.None? || id <= page.next.value))
    && (page.next.Some? ==>
          && |page.ids| == Size(q) && page.next.value == page.ids[|page.ids| - 1]
          && exists id: Id :: Selected(rows, q, page.next, id))
  }

  /** One row more than a page is asked for; if it is there it is cut off and makes the token. */
  method ListChildren(rows: Rows, q: Query, token: Option<Id>, answer: seq<Id>) returns (page: Page)
    requires IsAnswer(rows, q, token, Size(q) + 1, answer)
    ensures IsPage(rows, q, token, page)
  {
    var size := Size(q);
    var ids: seq<Id> := [];
    for i := 0 to |answer|
      invariant ids == answer[..i]
    {
      ids := ids + [answer[i]];
    }
    if |ids| > size {
      page := Page(ids[..size], Some(ids[size - 1]));
      assert ids[size] in answer && ids[size - 1] < ids[size];
      assert Selected(rows, q, page.next, ids[size]);
      forall id: Id | id in page.ids
        ensures Selected(rows, q, token, id) && id <= page.next.value
      {
        var i :| 0 <= i < size && page.ids[i] == id;
        assert ids[i] in answer;
      }
      forall id: Id | Selected(rows, q, token, id) && id <= page.next.value
        ensures id in page.ids
      {
        assert id in answer;
        var i :| 0 <= i < |ids| && ids[i] == id;
        assert page.ids[i] == id;
      }
    } else {
      page := Page(ids, None);
    }
  }

  // ---- Walking ------------------------------------------------------------------------------------

  /** A page and the rows it was read from. */
  datatype Visit = Visit(rows: Rows, page: Page)

  /** Each page follows the token of the one before; the rows may be any. */
  ghost predicate IsWalk(q: Query, token: Option<Id>, visits: seq<Visit>)
    decreases |visits|
  {
    |visits| > 0 ==>
      && IsPage(visits[0].rows, q, token, visits[0].page)
      && (|visits| > 1 ==> visits[0].page.next.Some? && IsWalk(q, visits[0].page.next, visits[1..]))
  }

  predicate Complete(visits: seq<Visit>) { |visits| > 0 && visits[|visits| - 1].page.next.None? }

  /** Everything the client was shown, in order. */
  function Listed(visits: seq<Visit>): seq<Id> {
    if visits == [] then [] else visits[0].page.ids + Listed(visits[1..])
  }

  /** However the rows change meanwhile, ids only go up: no row is shown twice. */
  lemma {:induction false} ListedInOrder(q: Query, token: Option<Id>, visits: seq<Visit>)
    requires IsWalk(q, token, visits)
    ensures Increasing(Listed(visits)) && forall id :: id in Listed(visits) ==> Past(token, id)
    decreases |visits|
  {
    if |visits| > 0 {
      var page := visits[0].page;
      var rest := Listed(visits[1..]);
      if |visits| > 1 {
        ListedInOrder(q, page.next, visits[1..]);
        forall i, j | 0 <= i < j < |Listed(visits)|
          ensures Listed(visits)[i] < Listed(visits)[j]
        {
          if i < |page.ids| <= j {
            assert page.ids[i] in page.ids;
            assert rest[j - |page.ids|] in rest;
          }
        }
        forall id | id in rest
          ensures Past(token, id)
        {
          assert page.next.value in page.ids;
        }
      } else {
        assert rest == [];
      }
    }
  }

  /** The visit whose page answers for an id: the first whose token is not before it. */
  function Answering(visits: seq<Visit>, id: Id): (v: Visit)
    requires |visits| > 0
    ensures v in visits
  {
    if |visits| == 1 || visits[0].page.next.None? || id <= visits[0].page.next.value then visits[0]
    else Answering(visits[1..], id)
  }

  /** A complete walk shows a row if and only if it matched when the page answering for it was read. */
  lemma {:induction false} ListedExactly(q: Query, token: Option<Id>, visits: seq<Visit>, id: Id)
    requires IsWalk(q, token, visits) && Complete(visits) && Past(token, id)
    ensures id in Listed(visits) <==> Matches(Answering(visits, id).rows, q, id)
    decreases |visits|
  {
    var page := visits[0].page;
    var rest := visits[1..];
    if |visits| > 1 {
      ListedInOrder(q, page.next, rest);
      if id > page.next.value {
        ListedExactly(q, page.next, rest, id);
        assert id !in page.ids;
      } else {
        assert id !in Listed(rest);
      }
    } else {
      assert Listed(rest) == [];
    }
  }

  /** A row that matches throughout the walk is shown exactly once, in the order of ids, whatever
      happens to other rows between the pages. */
  lemma EachRowOnce(q: Query, visits: seq<Visit>, id: Id)
    requires IsWalk(q, None, visits) && Complete(visits)
    requires forall v :: v in visits ==> Matches(v.rows, q, id)
    ensures multiset(Listed(visits))[id] == 1 && Increasing(Listed(visits))
  {
    ListedExactly(q, None, visits, id);
    ListedInOrder(q, None, visits);
    IncreasingHasOne(Listed(visits), id);
  }

  lemma {:induction false} IncreasingHasOne(ids: seq<Id>, id: Id)
    requires Increasing(ids)
    ensures multiset(ids)[id] == if id in ids then 1 else 0
  {
    if |ids| > 0 {
      var init, last := ids[..|ids| - 1], ids[|ids| - 1];
      assert ids == init + [last];
      IncreasingHasOne(init, id);
      assert id in ids <==> id in init || id == last;
      assert last !in init;
    }
  }

  // ---- Rows that do not change -------------------------------------------------------------------

  function Rest(rows: Rows, q: Query, token: Option<Id>): set<Id> {
    set id | id in rows && Selected(rows, q, token, id)
  }

  function IdsOf(ids: seq<Id>): set<Id> { set id | id in ids }

  lemma {:induction false} IncreasingCount(ids: seq<Id>)
    requires Increasing(ids)
    ensures |IdsOf(ids)| == |ids|
  {
    if |ids| > 0 {
      var init, last := ids[..|ids| - 1], ids[|ids| - 1];
      IncreasingCount(init);
      assert ids == init + [last];
      assert last !in IdsOf(init);
      assert IdsOf(ids) == IdsOf(init) + {last};
    }
  }

  /** A page with a token is full, and leaves something. */
  lemma PageTakesItsSize(rows: Rows, q: Query, token: Option<Id>, page: Page)
    requires IsPage(rows, q, token, page) && page.next.Some?
    ensures |Rest(rows, q, token)| == Size(q) + |Rest(rows, q, page.next)| && |Rest(rows, q, page.next)| > 0
  {
    var later, shown := Rest(rows, q, page.next), IdsOf(page.ids);
    IncreasingCount(page.ids);
    assert page.next.value in page.ids;
    assert Rest(rows, q, token) == shown + later && shown !! later;
    var one: Id :| Selected(rows, q, page.next, one);
    assert one in later;
  }

  /** Over rows that do not change the walk ends: it has no more pages than it takes to show what
      matches, all but the last being full. */
  lemma {:induction false} WalkEnds(rows: Rows, q: Query, token: Option<Id>, visits: seq<Visit>)
    requires IsWalk(q, token, visits) && forall v :: v in visits ==> v.rows == rows
    requires |visits| > 0
    ensures Size(q) * (|visits| - 1) <= |Rest(rows, q, token)|
    ensures visits[|visits| - 1].page.next.Some? ==> Size(q) * |visits| < |Rest(rows, q, token)|
    decreases |visits|
  {
    hide IsPage, Size, Rest;
    var page := visits[0].page;
    assert visits[0] in visits;
    if page.next.Some? {
      PageTakesItsSize(rows, q, token, page);
      if |visits| > 1 {
        WalkEnds(rows, q, page.next, visits[1..]);
        var n, size := |visits|, Size(q);
        assert size * n == size * (n - 1) + size;
        assert size * (n - 1) == size * (n - 2) + size;
      }
    }
  }

  /** And a walk that ends shows exactly the matching rows. */
  lemma UnchangingRowsListed(rows: Rows, q: Query, visits: seq<Visit>, id: Id)
    requires IsWalk(q, None, visits) && Complete(visits) && forall v :: v in visits ==> v.rows == rows
    ensures id in Listed(visits) <==> Matches(rows, q, id)
  {
    ListedExactly(q, None, visits, id);
  }
}

/**
 Comment threads of documents (internal/docs/repository.go): comments and replies under any
 interleaving of requests, and the listing that nests replies under their roots.
 */
module Comments {
  import opened Wrappers

  type Id = nat
  type DocId = nat

  datatype Comment = Comment(id: Id, doc: DocId, parent: Option<Id>, at: int)

  // ---- The table ---------------------------------------------------------------------------------

  /** checked are the replies whose parent was looked up and which are not yet inserted. */
  datatype State = State(comments: map<Id, Comment>, checked: set<(DocId, Id)>, next: Id)

  const INIT: State := State(map[], {}, 0)

  datatype Step =
    | Create(doc: DocId, at: int)
    | CheckParent(doc: DocId, parent: Id)
    | InsertReply(doc: DocId, parent: Id, at: int)
    | Delete(doc: DocId, id: Id)

  predicate Enabled(s: State, step: Step) {
    match step
    case InsertReply(doc, parent, _) => (doc, parent) in s.checked
    case _ => true
  }

  /** ReplyToComment looks the parent up and inserts in two statements; the foreign key refuses a reply
      whose parent has gone. Deleting a comment deletes its replies. */
  function After(s: State, step: Step): State
    requires Enabled(s, step)
  {
    match step
    case Create(doc, at) => s.(comments := s.comments[s.next := Comment(s.next, doc, None, at)], next := s.next + 1)
    case CheckParent(doc, parent) =>
      if parent in s.comments && s.comments[parent].doc == doc && s.comments[parent].parent.None?
      then s.(checked := s.checked + {(doc, parent)}) else s
    case InsertReply(doc, parent, at) =>
      if parent in s.comments
      then s.(comments := s.comments[s.next := Comment(s.next, doc, Some(parent), at)], next := s.next + 1)
      else s
    case Delete(doc, id) =>
      if id in s.comments && s.comments[id].doc == doc
      then s.(comments := map c | c in s.comments && c != id && s.comments[c].parent != Some(id) :: s.comments[c])
      else s
  }

  /** A reply's parent is there, is no reply itself, and belongs to the same document. */
  predicate OneLevel(comments: map<Id, Comment>) {
    forall c :: c in comments ==>
      && comments[c].id == c
      && (comments[c].parent.Some? ==>
            var p := comments[c].parent.value;
            p in comments && comments[p].parent.None? && comments[p].doc == comments[c].doc)
  }

  predicate Inv(s: State) {
    && OneLevel(s.comments)
    && (forall c :: c in s.comments ==> c < s.next)
    && (forall r :: r in s.checked && r.1 in s.comments ==> s.comments[r.1].parent.None? && s.comments[r.1].doc == r.0)
    && (forall r :: r in s.checked ==> r.1 < s.next)
  }

  lemma KeepsInv(s: State, step: Step)
    requires Enabled(s, step) && Inv(s)
    ensures Inv(After(s, step))
  {
    match step
    case Create(_, _) =>
    case CheckParent(_, _) =>
    case InsertReply(_, _, _) =>
    case Delete(_, _) =>
  }

  predicate IsRun(steps: seq<Step>)
    decreases |steps|, 0
  {
    |steps| == 0 ||
    (IsRun(steps[..|steps| - 1]) && Enabled(Reached(steps[..|steps| - 1]), steps[|steps| - 1]))
  }

  function Reached(steps: seq<Step>): State
    requires IsRun(steps)
    decreases |steps|, 1
  {
    if |steps| == 0 then INIT else After(Reached(steps[..|steps| - 1]), steps[|steps| - 1])
  }

  /** Over every run, replies stay one level deep, in their root's document, and no reply outlives it. */
  lemma {:induction false} RepliesStayOneLevel(steps: seq<Step>)
    requires IsRun(steps)
    ensures OneLevel(Reached(steps).comments) && Inv(Reached(steps))
  {
    if |steps| > 0 {
      hide After, Enabled;
      RepliesStayOneLevel(steps[..|steps| - 1]);
      KeepsInv(Reached(steps[..|steps| - 1]), steps[|steps| - 1]);
    }
  }

  // ---- The listing -------------------------------------------------------------------------------

  datatype Thread = Thread(root: Comment, replies: seq<Comment>)

  /** The rows without a parent, in order. */
  function Roots(rows: seq<Comment>): seq<Comment> {
    if rows == [] then []
    else
      var rest, last := Roots(rows[..|rows| - 1]), rows[|rows| - 1];
      if last.parent.None? then rest + [last] else rest
  }

  /** The rows whose parent is among ids, in order. */
  function RepliesIn(rows: seq<Comment>, ids: set<Id>): seq<Comment> {
    if rows == [] then []
    else
      var rest, last := RepliesIn(rows[..|rows| - 1], ids), rows[|rows| - 1];
      if last.parent.Some? && last.parent.value in ids then rest + [last] else rest
  }

  predicate UniqueIds(rows: seq<Comment>) { forall i, j :: 0 <= i < j < |rows| ==> rows[i].id != rows[j].id }

  /** The database's answer: a document's rows, each once, oldest first; ties in any order. */
  ghost predicate IsAnswer(rows: seq<Comment>, comments: map<Id, Comment>, doc: DocId) {
    && UniqueIds(rows)
    && (forall c :: c in rows <==> c.id in comments && comments[c.id] == c && c.doc == doc)
    && (forall i, j :: 0 <= i < j < |rows| ==> rows[i].at <= rows[j].at)
  }

  /** Two passes: roots in order, then each reply to the thread of its root, in order. */
  method ListComments(rows: seq<Comment>) returns (threads: seq<Thread>)
    requires UniqueIds(rows)
    ensures |threads| == |Roots(rows)|
    ensures forall i :: 0 <= i < |threads| ==>
              threads[i] == Thread(Roots(rows)[i], RepliesIn(rows, {Roots(rows)[i].id}))
  {
    threads := [];
    ghost var roots := Roots(rows);
    for i := 0 to |rows|
      invariant |threads| == |Roots(rows[..i])|
      invariant forall k :: 0 <= k < |threads| ==> threads[k] == Thread(Roots(rows[..i])[k], [])
    {
      assert rows[..i + 1][..i] == rows[..i];
      if rows[i].parent.None? {
        threads := threads + [Thread(rows[i], [])];
      }
    }
    assert rows[..|rows|] == rows;
    RootsAreUnique(rows);
    var rootIndex: map<Id, nat> := map[];
    for i := 0 to |threads|
      invariant forall id :: id in rootIndex ==> rootIndex[id] < i && threads[rootIndex[id]].root.id == id
      invariant forall k :: 0 <= k < i ==> threads[k].root.id in rootIndex
    {
      rootIndex := rootIndex[threads[i].root.id := i];
    }
    for i := 0 to |rows|
      invariant |threads| == |roots|
      invariant forall k :: 0 <= k < |threads| ==> threads[k] == Thread(roots[k], RepliesIn(rows[..i], {roots[k].id}))
    {
      assert rows[..i + 1][..i] == rows[..i];
      var c := rows[i];
      if c.parent.Some? && c.parent.value in rootIndex {
        var r := rootIndex[c.parent.value];
        threads := threads[r := threads[r].(replies := threads[r].replies + [c])];
      }
    }
  }

  lemma {:induction false} RootsAreRows(rows: seq<Comment>, c: Comment)
    ensures c in Roots(rows) <==> c in rows && c.parent.None?
  {
    if rows != [] {
      RootsAreRows(rows[..|rows| - 1], c);
      assert rows == rows[..|rows| - 1] + [rows[|rows| - 1]];
    }
  }

  lemma {:induction false} RootsAreUnique(rows: seq<Comment>)
    requires UniqueIds(rows)
    ensures UniqueIds(Roots(rows))
  {
    if rows != [] {
      var front, last := rows[..|rows| - 1], rows[|rows| - 1];
      RootsAreUnique(front);
      forall i | 0 <= i < |Roots(front)|
        ensures Roots(front)[i].id != last.id
      {
        RootsAreRows(front, Roots(front)[i]);
      }
    }
  }

  /** Everything a listing shows. */
  function Listed(threads: seq<Thread>): multiset<Comment> {
    if threads == [] then multiset{}
    else
      var last := threads[|threads| - 1];
      Listed(threads[..|threads| - 1]) + multiset{last.root} + multiset(last.replies)
  }

  function IdsOf(rows: seq<Comment>): set<Id> { set c | c in rows :: c.id }

  /** One more root adds its replies. */
  lemma {:induction false} RepliesSplit(rows: seq<Comment>, ids: set<Id>, id: Id)
    requires id !in ids
    ensures multiset(RepliesIn(rows, ids + {id})) == multiset(RepliesIn(rows, ids)) + multiset(RepliesIn(rows, {id}))
  {
    if rows != [] {
      RepliesSplit(rows[..|rows| - 1], ids, id);
    }
  }

  lemma {:induction false} NoReplies(rows: seq<Comment>)
    ensures RepliesIn(rows, {}) == []
  {
    if rows != [] {
      NoReplies(rows[..|rows| - 1]);
    }
  }

  lemma {:induction false} ListedIsRootsAndReplies(threads: seq<Thread>, roots: seq<Comment>, rows: seq<Comment>)
    requires |threads| == |roots| && UniqueIds(roots)
    requires forall i :: 0 <= i < |threads| ==> threads[i] == Thread(roots[i], RepliesIn(rows, {roots[i].id}))
    ensures Listed(threads) == multiset(roots) + multiset(RepliesIn(rows, IdsOf(roots)))
    decreases |threads|
  {
    if |threads| == 0 {
      NoReplies(rows);
      assert IdsOf(roots) == {};
    } else {
      var front, last := roots[..|roots| - 1], roots[|roots| - 1];
      hide RepliesIn;
      assert last.id !in IdsOf(front);
      assert roots == front + [last];
      assert IdsOf(roots) == IdsOf(front) + {last.id};
      hide IdsOf;
      ListedIsRootsAndReplies(threads[..|threads| - 1], front, rows);
      RepliesSplit(rows, IdsOf(front), last.id);
      ghost var a, b, c := multiset(front), multiset(RepliesIn(rows, IdsOf(front))),
          multiset(RepliesIn(rows, {last.id}));
      assert multiset(roots) == a + multiset{last};
      assert Listed(threads) == (a + b) + multiset{last} + c;
      hide Listed;
      assert (a + b) + multiset{last} + c == (a + multiset{last}) + (b + c);
    }
  }

  /** Rows that are a root or a reply to one of the given ids. */
  function Placed(rows: seq<Comment>, ids: set<Id>): seq<Comment> {
    if rows == [] then []
    else
      var rest, last := Placed(rows[..|rows| - 1], ids), rows[|rows| - 1];
      if last.parent.None? || last.parent.value in ids then rest + [last] else rest
  }

  lemma {:induction false} PlacedIsRootsAndReplies(rows: seq<Comment>, ids: set<Id>)
    ensures multiset(Placed(rows, ids)) == multiset(Roots(rows)) + multiset(RepliesIn(rows, ids))
    ensures |Placed(rows, ids)| <= |rows|
    ensures Placed(rows, ids) == rows <==> forall c :: c in rows && c.parent.Some? ==> c.parent.value in ids
    ensures |Placed(rows, ids)| == |rows| ==> Placed(rows, ids) == rows
  {
    if rows != [] {
      var front, last := rows[..|rows| - 1], rows[|rows| - 1];
      PlacedIsRootsAndReplies(front, ids);
      assert rows == front + [last];
    }
  }

  /** A listing shows every row exactly once if and only if every reply's parent is among the rows and
      is a root. */
  lemma ListsEveryRowOnce(rows: seq<Comment>, threads: seq<Thread>)
    requires UniqueIds(rows) && |threads| == |Roots(rows)|
    requires forall i :: 0 <= i < |threads| ==>
      threads[i] == Thread(Roots(rows)[i], RepliesIn(rows, {Roots(rows)[i].id}))
    ensures Listed(threads) == multiset(rows) <==>
            forall c :: c in rows && c.parent.Some? ==> c.parent.value in IdsOf(Roots(rows))
  {
    hide Roots, RepliesIn, Placed, Listed;
    RootsAreUnique(rows);
    var ids := IdsOf(Roots(rows));
    ListedIsRootsAndReplies(threads, Roots(rows), rows);
    PlacedIsRootsAndReplies(rows, ids);
    assert |multiset(Placed(rows, ids))| == |Placed(rows, ids)| && |multiset(rows)| == |rows|;
  }

  /** Over every run of creations, replies and deletions, the listing of a document shows each of its
      stored comments exactly once, roots and replies oldest first. */
  lemma EveryCommentIsListed(steps: seq<Step>, doc: DocId, rows: seq<Comment>, threads: seq<Thread>)
    requires IsRun(steps) && IsAnswer(rows, Reached(steps).comments, doc)
    requires |threads| == |Roots(rows)|
    requires forall i :: 0 <= i < |threads| ==>
      threads[i] == Thread(Roots(rows)[i], RepliesIn(rows, {Roots(rows)[i].id}))
    ensures Listed(threads) == multiset(rows)
    ensures forall i, j :: 0 <= i < j < |threads| ==> threads[i].root.at <= threads[j].root.at
    ensures forall t, i, j :: 0 <= t < |threads| && 0 <= i < j < |threads[t].replies| ==>
              threads[t].replies[i].at <= threads[t].replies[j].at
  {
    hide IsRun, Reached, Listed;
    RepliesStayOneLevel(steps);
    var comments := Reached(steps).comments;
    forall c | c in rows && c.parent.Some?
      ensures c.parent.value in IdsOf(Roots(rows))
    {
      var p := comments[c.parent.value];
      assert p in rows && p.parent.None?;
      RootsAreRows(rows, p);
    }
    ListsEveryRowOnce(rows, threads);
    RootsInOrder(rows);
    forall t | 0 <= t < |threads|
      ensures InOrder(threads[t].replies)
    {
      RepliesInOrder(rows, {Roots(rows)[t].id});
    }
    assert forall t, i, j :: 0 <= t < |threads| && 0 <= i < j < |threads[t].replies| ==>
        InOrder(threads[t].replies) && threads[t].replies[i].at <= threads[t].replies[j].at;
  }

  predicate InOrder(rows: seq<Comment>) { forall i, j :: 0 <= i < j < |rows| ==> rows[i].at <= rows[j].at }

  lemma {:induction false} RootsInOrder(rows: seq<Comment>)
    requires InOrder(rows)
    ensures InOrder(Roots(rows))
  {
    if rows != [] {
      var front, last := rows[..|rows| - 1], rows[|rows| - 1];
      RootsInOrder(front);
      forall i | 0 <= i < |Roots(front)|
        ensures Roots(front)[i].at <= last.at
      {
        RootsAreRows(front, Roots(front)[i]);
      }
    }
  }

  lemma {:induction false} RepliesInOrder(rows: seq<Comment>, ids: set<Id>)
    requires InOrder(rows)
    ensures InOrder(RepliesIn(rows, ids)) && forall c :: c in RepliesIn(rows, ids) ==> c in rows
  {
    if rows != [] {
      var front, last := rows[..|rows| - 1], rows[|rows| - 1];
      RepliesInOrder(front, ids);
      assert rows == front + [last];
      forall i | 0 <= i < |RepliesIn(front, ids)|
        ensures RepliesIn(front, ids)[i].at <= last.at
      {
        assert RepliesIn(front, ids)[i] in front;
      }
    }
  }
}

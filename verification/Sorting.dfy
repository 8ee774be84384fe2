/** sort.Slice, of which only the contract is known: some sorted permutation. */
module Sorting {

  /** leq orders all elements, ties allowed. */
  ghost predicate TotalPreorder<T(!new)>(leq: (T, T) -> bool) {
    && (forall x, y :: leq(x, y) || leq(y, x))
    && (forall x, y, z :: leq(x, y) && leq(y, z) ==> leq(x, z))
  }

  ghost predicate Sorted<T>(s: seq<T>, leq: (T, T) -> bool) {
    forall i, j :: 0 <= i < j < |s| ==> leq(s[i], s[j])
  }

  ghost predicate IsSortOf<T>(r: seq<T>, s: seq<T>, leq: (T, T) -> bool) {
    Sorted(r, leq) && multiset(r) == multiset(s)
  }

  function Insert<T>(x: T, s: seq<T>, leq: (T, T) -> bool): seq<T> {
    if |s| == 0 || leq(x, s[0]) then [x] + s else [s[0]] + Insert(x, s[1..], leq)
  }

  lemma {:induction false} InsertMultiset<T>(x: T, s: seq<T>, leq: (T, T) -> bool)
    ensures multiset(Insert(x, s, leq)) == multiset(s) + multiset{x}
  {
    if !(|s| == 0 || leq(x, s[0])) {
      InsertMultiset(x, s[1..], leq);
      assert s == [s[0]] + s[1..];
    }
  }

  lemma {:induction false} InsertSorted<T(!new)>(x: T, s: seq<T>, leq: (T, T) -> bool)
    requires TotalPreorder(leq) && Sorted(s, leq)
    ensures Sorted(Insert(x, s, leq), leq)
  {
    if |s| == 0 || leq(x, s[0]) {
    } else {
      InsertSorted(x, s[1..], leq);
      InsertMultiset(x, s[1..], leq);
      var tail := Insert(x, s[1..], leq);
      forall i | 0 <= i < |tail|
        ensures leq(s[0], tail[i])
      {
        assert tail[i] in multiset(tail);
        assert tail[i] == x || tail[i] in s[1..];
      }
    }
  }

  function InsertionSorted<T>(s: seq<T>, leq: (T, T) -> bool): seq<T> {
    if |s| == 0 then [] else Insert(s[|s| - 1], InsertionSorted(s[..|s| - 1], leq), leq)
  }

  lemma {:induction false} InsertionSortSorts<T(!new)>(s: seq<T>, leq: (T, T) -> bool)
    requires TotalPreorder(leq)
    ensures IsSortOf(InsertionSorted(s, leq), s, leq)
  {
    if |s| > 0 {
      var front, last := s[..|s| - 1], s[|s| - 1];
      InsertionSortSorts(front, leq);
      InsertSorted(last, InsertionSorted(front, leq), leq);
      InsertMultiset(last, InsertionSorted(front, leq), leq);
      assert s == front + [last];
    }
  }

  /** Any correct sort would do: callers see only this contract. */
  method Slice<T(!new)>(s: seq<T>, leq: (T, T) -> bool) returns (r: seq<T>)
    requires TotalPreorder(leq)
    ensures IsSortOf(r, s, leq)
  {
    InsertionSortSorts(s, leq);
    r := InsertionSorted(s, leq);
  }

  lemma LeastFirst<T(!new)>(a: seq<T>, b: seq<T>, leq: (T, T) -> bool)
    requires Sorted(a, leq) && multiset(a) == multiset(b) && |b| > 0
    ensures |a| > 0 && (a[0] == b[0] || leq(a[0], b[0]))
  {
    assert b[0] in multiset(a);
  }

  lemma SameHead<T>(a: seq<T>, b: seq<T>)
    requires |a| > 0 && |b| > 0 && a[0] == b[0] && multiset(a) == multiset(b)
    ensures multiset(a[1..]) == multiset(b[1..])
  {
    assert a == [a[0]] + a[1..] && b == [b[0]] + b[1..];
    assert multiset(a[1..]) == multiset(a) - multiset{a[0]};
    assert multiset(b[1..]) == multiset(b) - multiset{b[0]};
  }

  /** No two positions tie. */
  ghost predicate TieFree<T>(s: seq<T>, leq: (T, T) -> bool) {
    forall i, j :: 0 <= i < j < |s| ==> !(leq(s[i], s[j]) && leq(s[j], s[i]))
  }

  /** Sorting is deterministic when no two members tie. */
  lemma {:induction false} SortIsUnique<T(!new)>(a: seq<T>, b: seq<T>, leq: (T, T) -> bool)
    requires Sorted(a, leq) && Sorted(b, leq) && multiset(a) == multiset(b) && TieFree(a, leq)
    ensures a == b
    decreases |a|
  {
    if |a| == 0 {
      assert |multiset(b)| == 0;
    } else {
      LeastFirst(a, b, leq);
      assert a[0] in multiset(b);
      LeastFirst(b, a, leq);
      assert b[0] in multiset(a);
      assert a[0] == b[0];
      SameHead(a, b);
      SortIsUnique(a[1..], b[1..], leq);
      assert a == [a[0]] + a[1..] && b == [b[0]] + b[1..];
    }
  }

  // ---- Repetition --------------------------------------------------------------------------------

  lemma Twice<T>(s: seq<T>, i: nat, j: nat)
    requires i < j < |s| && s[i] == s[j]
    ensures multiset(s)[s[i]] >= 2
  {
    assert s == s[..i] + [s[i]] + s[i + 1..j] + [s[j]] + s[j + 1..];
  }

  lemma {:induction false} AtMostOnce<T>(s: seq<T>, x: T)
    requires forall i, j :: 0 <= i < j < |s| ==> s[i] != s[j]
    ensures multiset(s)[x] <= 1
  {
    if |s| > 0 {
      var init, last := s[..|s| - 1], s[|s| - 1];
      AtMostOnce(init, x);
      assert s == init + [last];
      assert last !in init;
    }
  }
}

/** The converter's in-place sort of extensions and its bounded output buffer (internal/convert/soffice.go). */
module ConvertParts {
  import opened Sorting
  import opened Text

  function Leq(): (string, string) -> bool { (a, b) => StringLeq(a, b) }

  lemma LeqOrders()
    ensures TotalPreorder(Leq())
  {
    forall x, y
      ensures Leq()(x, y) || Leq()(y, x)
    {
      StringLeqTotal(x, y);
    }
    forall x, y, z | Leq()(x, y) && Leq()(y, z)
      ensures Leq()(x, z)
    {
      StringLeqTransitive(x, y, z);
    }
  }

  /** Sorted but for the element at j, which may belong further left. */
  ghost predicate SortedBut(s: seq<string>, j: nat, end: nat, leq: (string, string) -> bool)
    requires j < end <= |s|
  {
    && (forall a, b :: 0 <= a < b < end && a != j && b != j ==> leq(s[a], s[b]))
    && (forall b :: j < b < end ==> leq(s[j], s[b]))
  }

  lemma SwapBack(s: seq<string>, j: nat, end: nat, leq: (string, string) -> bool)
    requires TotalPreorder(leq) && 0 < j < end <= |s| && SortedBut(s, j, end, leq) && !leq(s[j - 1], s[j])
    ensures SortedBut(Swapped(s, j), j - 1, end, leq) && multiset(Swapped(s, j)) == multiset(s)
  {
  }

  lemma InPlace(s: seq<string>, j: nat, end: nat, leq: (string, string) -> bool)
    requires TotalPreorder(leq) && j < end <= |s| && SortedBut(s, j, end, leq) && (j > 0 ==> leq(s[j - 1], s[j]))
    ensures Sorted(s[..end], leq)
  {
    forall a, b | 0 <= a < b < end
      ensures leq(s[a], s[b])
    {
      if b == j && a < j - 1 {
        assert leq(s[a], s[j - 1]);
      }
    }
  }

  lemma AddedLast(s: seq<string>, i: nat, leq: (string, string) -> bool)
    requires i < |s| && Sorted(s[..i], leq)
    ensures SortedBut(s, i, i + 1, leq)
  {
    forall a, b | 0 <= a < b < i
      ensures leq(s[a], s[b])
    {
      assert s[..i][a] == s[a] && s[..i][b] == s[b];
    }
  }

  function Swapped(s: seq<string>, j: nat): seq<string>
    requires 0 < j < |s|
  {
    s[j := s[j - 1]][j - 1 := s[j]]
  }

  method SwapWithPrevious(out: array<string>, j: nat)
    requires 0 < j < out.Length
    modifies out
    ensures out[..] == Swapped(old(out[..]), j)
  {
    out[j], out[j - 1] := out[j - 1], out[j];
  }

  /** One round of the outer loop: the element at i goes back to its place. */
  method SinkBack(out: array<string>, i: nat)
    requires i < out.Length && Sorted(out[..i], Leq())
    modifies out
    ensures Sorted(out[..i + 1], Leq()) && multiset(out[..]) == old(multiset(out[..]))
  {
    ghost var leq, s := Leq(), out[..];
    LeqOrders();
    hide StringLeq, Leq, SortedBut, Sorted, TotalPreorder, Swapped;
    var j: nat := i;
    assert s[..i] == out[..i];
    AddedLast(s, i, leq);
    while j > 0 && StringLeq(out[j], out[j - 1]) && out[j] != out[j - 1]
      invariant 0 <= j <= i < out.Length && out[..] == s
      invariant SortedBut(s, j, i + 1, leq)
      invariant multiset(s) == old(multiset(out[..]))
    {
      NotLess(s[j], s[j - 1]);
      SwapBack(s, j, i + 1, leq);
      SwapWithPrevious(out, j);
      s := Swapped(s, j);
      j := j - 1;
    }
    if j > 0 { NotGreater(s[j], s[j - 1]); }
    InPlace(s, j, i + 1, leq);
    assert s[..i + 1] == out[..i + 1];
  }

  /** keys are the map's keys in the order its iteration happened to give. */
  method SortedExts(keys: seq<string>) returns (out: array<string>)
    ensures fresh(out) && IsSortOf(out[..], keys, Leq())
  {
    hide Leq;
    out := new string[|keys|](i requires 0 <= i < |keys| => keys[i]);
    assert out[..] == keys;
    var i := 1;
    while i < out.Length
      invariant out.Length == |keys| && 1 <= i && (i <= out.Length || out.Length == 0)
      invariant out.Length > 0 ==> Sorted(out[..i], Leq())
      invariant multiset(out[..]) == multiset(keys)
    {
      SinkBack(out, i);
      i := i + 1;
    }
    assert out.Length > 0 ==> out[..i] == out[..];
  }

  lemma NotLess(a: string, b: string)
    requires StringLeq(a, b) && a != b
    ensures !Leq()(b, a)
  {
    StringLeqTotal(a, b);
  }

  lemma NotGreater(a: string, b: string)
    requires !(StringLeq(a, b) && a != b)
    ensures Leq()(b, a)
  {
    StringLeqTotal(a, b);
  }

  /** So the result does not depend on the map's iteration order. */
  lemma ExtsAreDeterministic(a: seq<string>, b: seq<string>, keys: seq<string>, others: seq<string>)
    requires IsSortOf(a, keys, Leq()) && IsSortOf(b, others, Leq()) && multiset(keys) == multiset(others)
    requires forall i, j :: 0 <= i < j < |keys| ==> keys[i] != keys[j]
    ensures a == b
  {
    hide StringLeq;
    assert TieFree(a, Leq()) by {
      Distinct(a, keys);
      forall i, j | 0 <= i < j < |a|
        ensures !(Leq()(a[i], a[j]) && Leq()(a[j], a[i]))
      {
        StringLeqTotal(a[i], a[j]);
      }
    }
    SortIsUnique(a, b, Leq());
  }

  lemma Distinct(a: seq<string>, b: seq<string>)
    requires multiset(a) == multiset(b) && forall i, j :: 0 <= i < j < |b| ==> b[i] != b[j]
    ensures forall i, j :: 0 <= i < j < |a| ==> a[i] != a[j]
  {
    forall i, j | 0 <= i < j < |a|
      ensures a[i] != a[j]
    {
      if a[i] == a[j] {
        Twice(a, i, j);
        AtMostOnce(b, a[i]);
        assert false;
      }
    }
  }

  /** limitedBuffer: whatever is written, it reports success and holds the first max bytes of it all. */
  class LimitedBuffer {
    const max: nat
    var bytes: seq<int>
    ghost var written: seq<int>

    ghost predicate Valid()
      reads this
    {
      bytes == if |written| <= max then written else written[..max]
    }

    constructor (max: nat)
      ensures Valid() && this.max == max && written == []
    {
      this.max, bytes, written := max, [], [];
    }

    method Write(p: seq<int>) returns (n: nat)
      requires Valid()
      modifies this
      ensures Valid() && n == |p| && written == old(written) + p
    {
      var room := max - |bytes|;
      if room > 0 {
        if |p| > room {
          bytes := bytes + p[..room];
        } else {
          bytes := bytes + p;
        }
      }
      written := written + p;
      n := |p|;
    }
  }
}

/**
 The stateless play queue of the Alexa skill (internal/alexa/queue.go): every request rebuilds the
 order from the library and the token.
 */
module Queue {
  import opened Text
  import Shuffle
  import Sorting

  /** A library track; details stands for the columns the queue does not read. */
  datatype Track = Track(id: string, artist: string, album: string, details: string)

  datatype Mode = All | Artist | Album

  const MAX_INT: int := 0x7fff_ffff_ffff_ffff

  /** Go's int. */
  type Int = x: int | -0x8000_0000_0000_0000 <= x <= 0x7fff_ffff_ffff_ffff

  /** Go's addition on int, which wraps around. */
  function WrapAdd(a: Int, b: Int): Int {
    if a + b > 0x7fff_ffff_ffff_ffff then a + b - 0x1_0000_0000_0000_0000
    else if a + b < -0x8000_0000_0000_0000 then a + b + 0x1_0000_0000_0000_0000
    else a + b
  }

  datatype QueueToken = QueueToken(mode: Mode, key: string, idx: Int, seed: bv64) {
    function At(i: Int): QueueToken { this.(idx := i) }
  }

  // ---- filterTracks ------------------------------------------------------------------------------

  predicate Matches(t: Track, mode: Mode, needle: string) {
    needle != "" && Contains(ToLower(if mode == Artist then t.artist else t.album), needle)
  }

  predicate Wanted(t: Track, mode: Mode, key: string) {
    mode == All || key == "" || Matches(t, mode, ToLower(TrimSpace(key)))
  }

  function Filtered(all: seq<Track>, mode: Mode, key: string): seq<Track> {
    if |all| == 0 then []
    else
      var last := all[|all| - 1];
      Filtered(all[..|all| - 1], mode, key) + if Wanted(last, mode, key) then [last] else []
  }

  lemma {:induction false} EverythingWanted(all: seq<Track>, mode: Mode, key: string)
    requires mode == All || key == ""
    ensures Filtered(all, mode, key) == all
  {
    if |all| > 0 {
      EverythingWanted(all[..|all| - 1], mode, key);
    }
  }

  method FilterTracks(all: seq<Track>, mode: Mode, key: string) returns (out: seq<Track>)
    ensures out == Filtered(all, mode, key)
  {
    if mode == All || key == "" {
      EverythingWanted(all, mode, key);
      return all;
    }
    var needle := ToLower(TrimSpace(key));
    out := [];
    for i := 0 to |all|
      invariant out == Filtered(all[..i], mode, key)
    {
      assert all[..i + 1][..i] == all[..i];
      if Matches(all[i], mode, needle) {
        out := out + [all[i]];
      }
    }
    assert all[..|all|] == all;
  }

  // ---- orderedTracks -----------------------------------------------------------------------------

  predicate ById(a: Track, b: Track) { StringLeq(a.id, b.id) }

  lemma ByIdOrders()
    ensures Sorting.TotalPreorder(ById)
  {
    forall x, y: Track
      ensures ById(x, y) || ById(y, x)
    {
      StringLeqTotal(x.id, y.id);
    }
    forall x, y, z: Track | ById(x, y) && ById(y, z)
      ensures ById(x, z)
    {
      StringLeqTransitive(x.id, y.id, z.id);
    }
  }

  /** Ids are the library's primary key. */
  predicate UniqueIds(all: seq<Track>) {
    forall i, j :: 0 <= i < j < |all| ==> all[i].id != all[j].id
  }

  /** The filtered tracks in id order. */
  function Base(all: seq<Track>, q: QueueToken): seq<Track> {
    Sorting.InsertionSorted(Filtered(all, q.mode, q.key), ById)
  }

  function Ordered(all: seq<Track>, q: QueueToken): seq<Track> {
    var tracks := Base(all, q);
    if q.seed != 0 && |tracks| > 1 then Shuffle.Shuffled(tracks, q.seed) else tracks
  }

  lemma {:induction false} FilteredIds(all: seq<Track>, mode: Mode, key: string)
    requires UniqueIds(all)
    ensures UniqueIds(Filtered(all, mode, key))
    ensures forall t :: t in Filtered(all, mode, key) <==> t in all && Wanted(t, mode, key)
  {
    hide Wanted;
    if |all| > 0 {
      var front, last := all[..|all| - 1], all[|all| - 1];
      FilteredIds(front, mode, key);
      assert forall t :: t in all <==> t in front || t == last;
      forall t | t in front
        ensures t.id != last.id
      {
        var i :| 0 <= i < |front| && front[i] == t;
        assert all[i] == t;
      }
    }
  }

  /** Unique ids mean a sort of the tracks has no ties. */
  lemma NoTies(s: seq<Track>)
    requires UniqueIds(s)
    ensures Sorting.TieFree(s, ById)
  {
    forall i, j | 0 <= i < j < |s|
      ensures !(ById(s[i], s[j]) && ById(s[j], s[i]))
    {
      StringLeqTotal(s[i].id, s[j].id);
    }
  }

  /** A sequence with the members of one with unique ids has unique ids. */
  lemma UniqueIdsPermute(s: seq<Track>, r: seq<Track>)
    requires UniqueIds(s) && multiset(r) == multiset(s)
    ensures UniqueIds(r)
  {
    forall i, j | 0 <= i < j < |r|
      ensures r[i].id != r[j].id
    {
      assert r[i] in multiset(s) && r[j] in multiset(s);
      var x :| 0 <= x < |s| && s[x] == r[i];
      var y :| 0 <= y < |s| && s[y] == r[j];
      if x == y {
        Sorting.Twice(r, i, j);
        Sorting.AtMostOnce(s, s[x]);
      }
    }
  }

  /** Whatever sorted permutation sort.Slice picks, it is the id order. */
  lemma SortIsBase(tracks: seq<Track>, r: seq<Track>)
    requires UniqueIds(tracks) && Sorting.IsSortOf(r, tracks, ById)
    ensures r == Sorting.InsertionSorted(tracks, ById)
  {
    ByIdOrders();
    Sorting.InsertionSortSorts(tracks, ById);
    UniqueIdsPermute(tracks, r);
    NoTies(r);
    Sorting.SortIsUnique(r, Sorting.InsertionSorted(tracks, ById), ById);
  }

  method OrderedTracks(all: seq<Track>, q: QueueToken) returns (tracks: seq<Track>)
    requires UniqueIds(all)
    ensures tracks == Ordered(all, q)
  {
    hide Shuffle.Shuffled, Wanted, ById;
    tracks := FilterTracks(all, q.mode, q.key);
    FilteredIds(all, q.mode, q.key);
    ghost var filtered := tracks;
    ByIdOrders();
    tracks := Sorting.Slice(tracks, ById);
    SortIsBase(filtered, tracks);
    if q.seed != 0 && |tracks| > 1 {
      var a := new Track[|tracks|](i requires 0 <= i < |tracks| => tracks[i]);
      assert a[..] == tracks;
      Shuffle.ShuffleInPlace(a, q.seed);
      tracks := a[..];
    }
  }

  /** The order holds every filtered track, each exactly once. */
  lemma OrderedPermutes(all: seq<Track>, q: QueueToken)
    ensures multiset(Ordered(all, q)) == multiset(Filtered(all, q.mode, q.key))
  {
    hide ById;
    ByIdOrders();
    Sorting.InsertionSortSorts(Filtered(all, q.mode, q.key), ById);
    Shuffle.ShuffleFromPermutes(Base(all, q), q.seed, |Base(all, q)| - 1);
  }

  lemma {:induction false} FilteredMultiset(all: seq<Track>, mode: Mode, key: string, t: Track)
    ensures multiset(Filtered(all, mode, key))[t] == if Wanted(t, mode, key) then multiset(all)[t] else 0
  {
    hide Wanted;
    if |all| > 0 {
      assert all == all[..|all| - 1] + [all[|all| - 1]];
      FilteredMultiset(all[..|all| - 1], mode, key, t);
    }
  }

  /** The order does not depend on the order the library was listed in. */
  lemma OrderedIgnoresListing(all: seq<Track>, listed: seq<Track>, q: QueueToken)
    requires UniqueIds(all) && multiset(all) == multiset(listed)
    ensures Ordered(all, q) == Ordered(listed, q)
  {
    hide Wanted, ById, Filtered;
    var a, b := Filtered(all, q.mode, q.key), Filtered(listed, q.mode, q.key);
    forall t: Track
      ensures multiset(a)[t] == multiset(b)[t]
    {
      FilteredMultiset(all, q.mode, q.key, t);
      FilteredMultiset(listed, q.mode, q.key, t);
    }
    assert multiset(a) == multiset(b);
    FilteredIds(all, q.mode, q.key);
    ByIdOrders();
    Sorting.InsertionSortSorts(b, ById);
    SortIsBase(a, Sorting.InsertionSorted(b, ById));
  }
}

/**
 The hub's table of rooms, for one document (internal/docs/collab.go): addPeer fetches the room and
 inserts the peer under different locks, and removePeer deletes the peer and drops the room under
 different locks, so each is two steps and other connections run in between.
 */
module HubRegistry {
  import opened Wrappers

  type Conn = nat
  type RoomId = nat

  /** Where a connection is between addPeer and removePeer. Emptied records what removePeer saw. */
  datatype Phase =
    | Fetched(room: RoomId)
    | Inside(room: RoomId)
    | Emptied(room: RoomId, empty: bool)
    | Gone

  datatype State = State(registry: Option<RoomId>, phases: map<Conn, Phase>, next: RoomId)

  const INIT: State := State(None, map[], 0)

  /** room.peers. */
  function PeersOf(s: State, r: RoomId): set<Conn> {
    set c | c in s.phases && s.phases[c] == Inside(r)
  }

  datatype Step = Fetch(c: Conn) | Insert(c: Conn) | Remove(c: Conn) | Drop(c: Conn)

  predicate Enabled(s: State, step: Step) {
    match step
    case Fetch(c) => c !in s.phases
    case Insert(c) => c in s.phases && s.phases[c].Fetched?
    case Remove(c) => c in s.phases && s.phases[c].Inside?
    case Drop(c) => c in s.phases && s.phases[c].Emptied?
  }

  /** The room goes from the table: it was empty when the peer was deleted, and is still registered. */
  predicate TakesEffect(s: State, step: Step)
    requires Enabled(s, step)
  {
    step.Drop? && s.phases[step.c].empty && s.registry == Some(s.phases[step.c].room)
  }

  function After(s: State, step: Step): State
    requires Enabled(s, step)
  {
    match step
    case Fetch(c) =>
      if s.registry.Some? then s.(phases := s.phases[c := Fetched(s.registry.value)])
      else State(Some(s.next), s.phases[c := Fetched(s.next)], s.next + 1)
    case Insert(c) => s.(phases := s.phases[c := Inside(s.phases[c].room)])
    case Remove(c) =>
      var r := s.phases[c].room;
      s.(phases := s.phases[c := Emptied(r, PeersOf(s, r) - {c} == {})])
    case Drop(c) =>
      var gone := s.(phases := s.phases[c := Gone]);
      if TakesEffect(s, step) then gone.(registry := None) else gone
  }

  /** The connection is in the room or about to be inserted into it. */
  predicate Holds(s: State, c: Conn, r: RoomId) {
    c in s.phases && (s.phases[c] == Fetched(r) || s.phases[c] == Inside(r))
  }

  predicate Held(s: State, r: RoomId) {
    exists c :: c in s.phases && Holds(s, c, r)
  }

  /** The drop that splits a document: it takes effect while another connection holds the room. */
  predicate DropsHeldRoom(s: State, step: Step) {
    Enabled(s, step) && TakesEffect(s, step) && Held(s, s.phases[step.c].room)
  }

  /** Everyone holding a room holds the registered one: the one new connections are given. */
  ghost predicate Together(s: State) {
    forall c: Conn, r: RoomId :: Holds(s, c, r) ==> s.registry == Some(r)
  }

  /** One step: connections that are together stay so unless the step drops a room that is held. */
  lemma SplitExactlyWhen(s: State, step: Step)
    requires Enabled(s, step) && Together(s)
    ensures Together(After(s, step)) <==> !DropsHeldRoom(s, step)
  {
    var t := After(s, step);
    match step
    case Fetch(_) => assert !DropsHeldRoom(s, step);
      assert forall c, r :: Holds(t, c, r) ==> Holds(s, c, r) || c == step.c;
    case Insert(_) =>
      assert forall c, r :: Holds(t, c, r) ==> Holds(s, c, r);
    case Remove(_) =>
      assert forall c, r :: Holds(t, c, r) ==> Holds(s, c, r);
    case Drop(d) =>
      assert forall c, r :: Holds(t, c, r) <==> Holds(s, c, r);
  }

  // ---- Runs --------------------------------------------------------------------------------------

  predicate IsRun(steps: seq<Step>)
    decreases |steps|, 0
  {
    |steps| == 0 ||
    (IsRun(steps[..|steps| - 1]) && Enabled(Reached(steps[..|steps| - 1]), steps[|steps| - 1]))
  }

  function Reached(steps: seq<Step>): State
    requires IsRun(steps)
    decreases |steps|, 1
  {
    if |steps| == 0 then INIT else After(Reached(steps[..|steps| - 1]), steps[|steps| - 1])
  }

  /** No step of the run drops a held room. */
  ghost predicate DropsNoHeldRoom(steps: seq<Step>)
    requires IsRun(steps)
    decreases |steps|
  {
    |steps| == 0 ||
    (DropsNoHeldRoom(steps[..|steps| - 1]) && !DropsHeldRoom(Reached(steps[..|steps| - 1]), steps[|steps| - 1]))
  }

  /** Connections were together after every step of the run. */
  ghost predicate AlwaysTogether(steps: seq<Step>)
    requires IsRun(steps)
    decreases |steps|
  {
    Together(Reached(steps)) && (|steps| == 0 || AlwaysTogether(steps[..|steps| - 1]))
  }

  /** Over every run, all connections of a document share the registered room throughout if and only if
      no step drops a room while it is held. */
  lemma {:induction false} TogetherExactlyWhen(steps: seq<Step>)
    requires IsRun(steps)
    ensures AlwaysTogether(steps) <==> DropsNoHeldRoom(steps)
  {
    if |steps| > 0 {
      hide Together, DropsHeldRoom, After, Enabled;
      var before := steps[..|steps| - 1];
      TogetherExactlyWhen(before);
      assert AlwaysTogether(before) ==> Together(Reached(before));
      if Together(Reached(before)) {
        SplitExactlyWhen(Reached(before), steps[|steps| - 1]);
      }
    }
  }

  /** No room is left behind, whatever the interleaving: a registered room is held, or a connection
      that saw it empty is about to drop it. */
  ghost predicate Wanted(s: State) {
    s.registry.Some? ==>
      exists c :: c in s.phases && (Holds(s, c, s.registry.value) || s.phases[c] == Emptied(s.registry.value, true))
  }

  lemma KeepsWanted(s: State, step: Step)
    requires Enabled(s, step) && Wanted(s)
    ensures Wanted(After(s, step))
  {
    var t := After(s, step);
    if t.registry.Some? {
      var r := t.registry.value;
      match step
      case Fetch(c) => assert Holds(t, c, r);
      case Insert(c) =>
        var w :| w in s.phases && (Holds(s, w, r) || s.phases[w] == Emptied(r, true));
        assert w in t.phases && (Holds(t, w, r) || t.phases[w] == Emptied(r, true));
      case Remove(c) =>
        var w :| w in s.phases && (Holds(s, w, r) || s.phases[w] == Emptied(r, true));
        if w != c {
          assert w in t.phases && (Holds(t, w, r) || t.phases[w] == Emptied(r, true));
        } else if PeersOf(s, r) - {c} == {} {
          assert t.phases[c] == Emptied(r, true);
        } else {
          var other :| other in PeersOf(s, r) - {c};
          assert Holds(t, other, r);
        }
      case Drop(c) =>
        var w :| w in s.phases && (Holds(s, w, r) || s.phases[w] == Emptied(r, true));
        assert w != c;
        assert w in t.phases && (Holds(t, w, r) || t.phases[w] == Emptied(r, true));
    }
  }

  /** Once every connection has gone, the table holds no room. */
  lemma {:induction false} NoRoomLeftBehind(steps: seq<Step>)
    requires IsRun(steps)
    ensures Wanted(Reached(steps))
    ensures (forall c :: c in Reached(steps).phases ==> Reached(steps).phases[c].Gone?) ==>
              Reached(steps).registry.None?
  {
    if |steps| > 0 {
      hide After, Enabled;
      NoRoomLeftBehind(steps[..|steps| - 1]);
      KeepsWanted(Reached(steps[..|steps| - 1]), steps[|steps| - 1]);
    }
  }

  // ---- Atomic add and remove ---------------------------------------------------------------------

  datatype Call = Add(c: Conn) | Leave(c: Conn)

  /** The run in which every addPeer and removePeer finishes before the next begins. */
  function Steps(calls: seq<Call>): seq<Step> {
    if |calls| == 0 then []
    else
      var c := calls[|calls| - 1].c;
      Steps(calls[..|calls| - 1]) + (if calls[|calls| - 1].Add? then [Fetch(c), Insert(c)] else [Remove(c), Drop(c)])
  }

  /** Between calls every connection is in its room or gone, and the table holds exactly the room the
      connections share. */
  ghost predicate Settled(s: State) {
    && (forall c :: c in s.phases ==> s.phases[c].Inside? || s.phases[c].Gone?)
    && Together(s) && Wanted(s)
  }

  lemma LastTwo(steps: seq<Step>, a: Step, b: Step)
    requires IsRun(steps + [a, b])
    ensures IsRun(steps) && Enabled(Reached(steps), a) && Enabled(After(Reached(steps), a), b)
    ensures Reached(steps + [a, b]) == After(After(Reached(steps), a), b)
  {
    hide After, Enabled;
    var all := steps + [a, b];
    assert all[..|all| - 1] == steps + [a];
    assert (steps + [a])[..|steps|] == steps;
  }

  lemma SettledAdd(s: State, c: Conn)
    requires Settled(s) && Enabled(s, Fetch(c))
    ensures var t := After(s, Fetch(c)); Enabled(t, Insert(c)) && Settled(After(t, Insert(c)))
  {
    var t := After(s, Fetch(c));
    hide Together, Wanted;
    SplitExactlyWhen(s, Fetch(c));
    SplitExactlyWhen(t, Insert(c));
    KeepsWanted(s, Fetch(c));
    KeepsWanted(t, Insert(c));
  }

  lemma SettledLeave(s: State, c: Conn)
    requires Settled(s) && Enabled(s, Remove(c))
    ensures var t := After(s, Remove(c)); Enabled(t, Drop(c)) && Settled(After(t, Drop(c)))
  {
    var t := After(s, Remove(c));
    var r := s.phases[c].room;
    assert !DropsHeldRoom(t, Drop(c)) by {
      if TakesEffect(t, Drop(c)) {
        forall d | d in t.phases
          ensures !Holds(t, d, r)
        {
          assert Holds(t, d, r) ==> d in PeersOf(s, r) - {c};
        }
      }
    }
    hide Together, Wanted, DropsHeldRoom;
    SplitExactlyWhen(s, Remove(c));
    assert !DropsHeldRoom(s, Remove(c)) by { NotADrop(s, c); }
    SplitExactlyWhen(t, Drop(c));
    KeepsWanted(s, Remove(c));
    KeepsWanted(t, Drop(c));
  }

  lemma NotADrop(s: State, c: Conn)
    ensures !DropsHeldRoom(s, Remove(c))
  {
  }

  /** With add and remove each in one step, all connections of a document always share one room, and
      the table holds a room exactly while one is connected. */
  lemma {:induction false} AtomicCallsStayTogether(calls: seq<Call>)
    requires IsRun(Steps(calls))
    ensures Settled(Reached(Steps(calls)))
    ensures var s := Reached(Steps(calls)); s.registry.Some? <==> exists c :: c in s.phases && s.phases[c].Inside?
  {
    var all := Steps(calls);
    if |calls| > 0 {
      var before, c := Steps(calls[..|calls| - 1]), calls[|calls| - 1].c;
      if calls[|calls| - 1].Add? {
        LastTwo(before, Fetch(c), Insert(c));
        AtomicCallsStayTogether(calls[..|calls| - 1]);
        hide Settled, Together, Wanted, Enabled, After, Steps;
        SettledAdd(Reached(before), c);
      } else {
        LastTwo(before, Remove(c), Drop(c));
        AtomicCallsStayTogether(calls[..|calls| - 1]);
        hide Settled, Together, Wanted, Enabled, After, Steps;
        SettledLeave(Reached(before), c);
      }
    }
    hide Steps, IsRun, Reached;
    InsideIsRegistered(Reached(all));
  }

  lemma InsideIsRegistered(s: State)
    requires Settled(s)
    ensures s.registry.Some? <==> exists c :: c in s.phases && s.phases[c].Inside?
  {
    if c :| c in s.phases && s.phases[c].Inside? {
      assert Holds(s, c, s.phases[c].room);
    }
  }

  // ---- The split happens -------------------------------------------------------------------------

  lemma Extend(steps: seq<Step>, step: Step)
    requires IsRun(steps) && Enabled(Reached(steps), step)
    ensures IsRun(steps + [step]) && Reached(steps + [step]) == After(Reached(steps), step)
  {
    hide After, Enabled;
    assert (steps + [step])[..|steps|] == steps;
  }

  /** Three connections suffice: the second fetches the room before the first leaves and is inserted
      after it was dropped, so the third is given another room of the same document. */
  lemma DocumentSplits()
    ensures var steps := [Fetch(0), Insert(0), Fetch(1), Remove(0), Drop(0), Insert(1), Fetch(2), Insert(2)];
            IsRun(steps) && Reached(steps).phases[1 := Inside(0)] == Reached(steps).phases
            && 2 in Reached(steps).phases && Reached(steps).phases[2] == Inside(1)
  {
    Extend([], Fetch(0));
    Extend([Fetch(0)], Insert(0));
    var a := [Fetch(0)] + [Insert(0)];
    Extend(a, Fetch(1));
    var b := a + [Fetch(1)];
    assert PeersOf(Reached(b), 0) - {0} == {};
    Extend(b, Remove(0));
    var c := b + [Remove(0)];
    Extend(c, Drop(0));
    var d := c + [Drop(0)];
    Extend(d, Insert(1));
    var e := d + [Insert(1)];
    Extend(e, Fetch(2));
    var f := e + [Fetch(2)];
    Extend(f, Insert(2));
    var g := f + [Insert(2)];
    assert g == [Fetch(0), Insert(0), Fetch(1), Remove(0), Drop(0), Insert(1), Fetch(2), Insert(2)];
    assert Reached(g).phases[1] == Inside(0);
  }
}

/**
 The updates a connection misses (internal/docs/collab.go): route relays before it appends, so a
 connection that joins and reads the log in between gets neither, and nothing later makes up for it.
 */
module HubMissed {
  import opened Wrappers
  import opened HubWire
  import opened HubRuns

  /** Stored after the peer read the log, and never queued to it. */
  predicate Missed(s: State, p: PeerId, e: Relay) {
    && p in s.peers && e in s.log
    && var peer := s.peers[p];
       peer.replay.Some? && e !in peer.replay.value && Relayed(e) !in peer.accepted
  }

  /** A logged message is no longer being relayed. */
  ghost predicate LoggedIsDone(s: State) {
    forall q :: q in s.peers && Pending(s.peers[q].activity).Some? ==> Pending(s.peers[q].activity).value !in s.log
  }

  lemma KeepsLoggedIsDone(s: State, step: Step)
    requires Enabled(s, step) && IdsBelowNext(s) && LoggedIsDone(s)
    ensures LoggedIsDone(After(s, step))
  {
    hide CarriesData, Reply, InFlight;
    var t := After(s, step);
    forall q | q in t.peers && Pending(t.peers[q].activity).Some?
      ensures Pending(t.peers[q].activity).value !in t.log
    {
      match step
      case Append(p, _) => assert PeerIds(s, p) && PeerIds(s, q);
      case Receive(_, _, _) =>
      case QueueTo(_, _) => hide IdsBelowNext;
      case SendAnswer(_) => hide IdsBelowNext;
      case _ => hide IdsBelowNext, Enqueued;
    }
  }

  /** Gone for good, or still missing the update. */
  ghost predicate GoneOrMissing(s: State, p: PeerId, e: Relay) {
    p in s.everJoined && (p in s.peers ==> Missed(s, p, e))
  }

  lemma KeepsMissing(s: State, step: Step, p: PeerId, e: Relay)
    requires Enabled(s, step) && LoggedIsDone(s) && GoneOrMissing(s, p, e)
    ensures GoneOrMissing(After(s, step), p, e)
  {
    hide CarriesData, Reply, InFlight;
    match step
    case Join(_) =>
    case QueueTo(q, _) =>
    case SendAnswer(_) =>
    case _ => hide Enqueued;
  }

  lemma {:induction false} RunKeepsLoggedIsDone(steps: seq<Step>)
    requires IsRun(steps)
    ensures LoggedIsDone(Reached(steps)) && IdsBelowNext(Reached(steps))
  {
    hide After, Enabled, LoggedIsDone, IdsBelowNext, RelaysReach, LogReached, ReplaysArePrefixes, OldRelaysInFlight,
      MissedWereInFlight, LogIsData, WireOrdered;
    RunKeepsInv(steps);
    if |steps| > 0 {
      var before := steps[..|steps| - 1];
      RunKeepsLoggedIsDone(before);
      KeepsLoggedIsDone(Reached(before), steps[|steps| - 1]);
    } else {
      assert LoggedIsDone(INIT) by { NothingRelayed(); }
    }
  }

  lemma NothingRelayed()
    ensures LoggedIsDone(INIT)
  {
  }

  lemma {:induction false} StaysMissing(steps: seq<Step>, more: seq<Step>, p: PeerId, e: Relay)
    requires IsRun(steps) && IsRun(steps + more) && GoneOrMissing(Reached(steps), p, e)
    ensures GoneOrMissing(Reached(steps + more), p, e)
    decreases |more|
  {
    hide GoneOrMissing, After, Enabled, LoggedIsDone, IdsBelowNext;
    if more == [] {
      assert steps + more == steps;
    } else {
      var all := steps + more;
      var fewer := more[..|more| - 1];
      assert all[..|all| - 1] == steps + fewer;
      StaysMissing(steps, fewer, p, e);
      RunKeepsLoggedIsDone(steps + fewer);
      KeepsMissing(Reached(steps + fewer), all[|all| - 1], p, e);
    }
  }

  /** A missed update stays missed for as long as the connection lasts, whatever the hub goes on to do. */
  lemma MissedForGood(steps: seq<Step>, more: seq<Step>, p: PeerId, e: Relay)
    requires IsRun(steps) && IsRun(steps + more) && Missed(Reached(steps), p, e)
    ensures p in Reached(steps + more).peers ==> Missed(Reached(steps + more), p, e)
  {
    hide After, Enabled, IsRun, Reached, LoggedIsDone;
    RunKeepsLoggedIsDone(steps);
    assert PeerIds(Reached(steps), p);
    StaysMissing(steps, more, p, e);
  }

  /** Over every run, an update a connected peer misses is its own, was refused by its full queue, or
      was being relayed when the peer joined. */
  lemma WhyMissed(steps: seq<Step>, p: PeerId, e: Relay)
    requires IsRun(steps) && Missed(Reached(steps), p, e)
    ensures var peer := Reached(steps).peers[p];
            || e.sender == p
            || (Relayed(e) in peer.dropped && |peer.accepted| >= QUEUE_CAP)
            || (e.id in peer.inFlightAtJoin && e.id < peer.joinedAt)
  {
    hide After, Enabled, IsRun, Reached;
    var s := Reached(steps);
    var i :| 0 <= i < |s.log| && s.log[i] == e;
    Delivery(steps, p, i);
    RunKeepsInv(steps);
    HeldWasAccepted(s.peers[p], Relayed(e));
  }

  lemma HeldWasAccepted(p: Peer, item: Item)
    requires WireOrdered(p) && p.replay.Some? && item.Relayed? && item.relay !in p.replay.value
    ensures item in p.wire || item in p.lost || item in p.out ==> item in p.accepted
  {
    hide Replayed;
    var drained := |p.accepted| - |p.out|;
    var replayed := Replayed(p.replay.value[..p.sent]);
    assert item !in replayed by { ReplayedHolds(p.replay.value[..p.sent], item); }
    assert item in p.wire || item in p.lost ==> item in p.wire + p.lost;
    assert item in replayed + p.accepted[..drained] ==> item in p.accepted[..drained];
  }

  lemma ReplayedHolds(log: seq<Relay>, item: Item)
    requires item.Relayed? && item.relay !in log
    ensures item !in Replayed(log)
  {
    forall i | 0 <= i < |log|
      ensures Replayed(log)[i] != item
    {
      assert Replayed(log)[i] == Relayed(log[i]);
    }
  }

  // ---- Exactly when ------------------------------------------------------------------------------

  /** A queue takes or refuses a message of another connection, relayed after the peer joined, and
      does it once. */
  ghost predicate GotRightly(s: State, p: PeerId)
    requires p in s.peers
  {
    forall r: Relay :: Got(s.peers[p], r) ==>
      && s.peers[p].joinedAt <= r.id < s.next && r.sender != p
      && (Relayed(r) in s.peers[p].accepted ==> Relayed(r) !in s.peers[p].dropped)
  }

  /** A target has joined, and if it is still there it joined before the message and is yet to get it. */
  ghost predicate TargetWaits(s: State, sender: PeerId, p: PeerId)
    requires sender in s.peers
  {
    var a := s.peers[sender].activity;
    a.Broadcasting? && p in a.targets ==>
      && p in s.everJoined && p != sender
      && (p in s.peers ==> s.peers[p].joinedAt <= a.relay.id && !Got(s.peers[p], a.relay))
  }

  ghost predicate QueuesOnce(s: State) {
    && (forall p :: p in s.peers ==> GotRightly(s, p))
    && (forall q, p :: q in s.peers ==> TargetWaits(s, q, p))
  }

  lemma KeepsGotRightly(s: State, step: Step, p: PeerId)
    requires Enabled(s, step) && p in After(s, step).peers
    requires forall x :: x in s.peers ==> PeerIds(s, x)
    requires p in s.peers ==> GotRightly(s, p)
    requires step.QueueTo? ==> TargetWaits(s, step.p, p)
    ensures GotRightly(After(s, step), p)
  {
    hide CarriesData, Reply, InFlight;
    match step
    case QueueTo(q, _) => assert PeerIds(s, q);
    case SendAnswer(_) => hide PeerIds;
    case _ => hide Enqueued, PeerIds;
  }

  lemma KeepsTargetWaiting(s: State, step: Step, q: PeerId, p: PeerId)
    requires Enabled(s, step) && q in After(s, step).peers
    requires forall x :: x in s.peers ==> PeerIds(s, x)
    requires q in s.peers ==> TargetWaits(s, q, p)
    requires p in s.peers ==> GotRightly(s, p)
    ensures TargetWaits(After(s, step), q, p)
  {
    hide CarriesData, Reply, InFlight;
    match step
    case QueueTo(x, _) => assert PeerIds(s, x) && (q in s.peers ==> PeerIds(s, q)); hide GotRightly;
    case SendAnswer(_) => hide GotRightly;
    case Receive(_, _, _) => assert p in s.peers ==> PeerIds(s, p);
    case _ => hide Enqueued, GotRightly;
  }

  lemma KeepsQueuesOnce(s: State, step: Step)
    requires Enabled(s, step) && IdsBelowNext(s) && QueuesOnce(s)
    ensures QueuesOnce(After(s, step))
  {
    var t := After(s, step);
    hide After, Enabled, GotRightly, TargetWaits;
    forall p | p in t.peers
      ensures GotRightly(t, p)
    {
      assert step.QueueTo? ==> step.p in s.peers by { assert Enabled(s, step); }
      KeepsGotRightly(s, step, p);
    }
    forall q, p | q in t.peers
      ensures TargetWaits(t, q, p)
    {
      KeepsTargetWaiting(s, step, q, p);
    }
  }

  lemma {:induction false} RunQueuesOnce(steps: seq<Step>)
    requires IsRun(steps)
    ensures QueuesOnce(Reached(steps))
  {
    hide After, Enabled, QueuesOnce, IdsBelowNext;
    if |steps| > 0 {
      var before := steps[..|steps| - 1];
      RunQueuesOnce(before);
      RunKeepsLoggedIsDone(before);
      KeepsQueuesOnce(Reached(before), steps[|steps| - 1]);
    } else {
      assert QueuesOnce(INIT) by { NobodyWaits(); }
    }
  }

  lemma NobodyWaits()
    ensures QueuesOnce(INIT)
  {
  }

  /** Over every run, a connected peer past its log read misses a stored update that it did not read
      exactly when the update is its own, was refused by its full queue, or was relayed before it
      joined; any other such update was written to it, waits in its queue or is the item whose write
      failed. */
  lemma MissedExactlyWhen(steps: seq<Step>, p: PeerId, e: Relay)
    requires IsRun(steps) && p in Reached(steps).peers && Reached(steps).peers[p].replay.Some?
    requires e in Reached(steps).log && e !in Reached(steps).peers[p].replay.value
    ensures var s := Reached(steps);
            var peer := s.peers[p];
            && (Missed(s, p, e) <==> e.sender == p || Relayed(e) in peer.dropped || e.id < peer.joinedAt)
            && (!Missed(s, p, e) <==> Relayed(e) in peer.wire || Relayed(e) in peer.out || Relayed(e) in peer.lost)
  {
    hide After, Enabled, IsRun, Reached;
    var s := Reached(steps);
    RunKeepsInv(steps);
    RunQueuesOnce(steps);
    assert GotRightly(s, p) && LogReached(s);
    HeldWasAccepted(s.peers[p], Relayed(e));
    AcceptedIsHeld(s.peers[p], Relayed(e));
  }

  /** If nobody joined while a message was being relayed or stored, being refused is the only way to
      miss another's update. */
  lemma MissedWhenQuiet(steps: seq<Step>, p: PeerId, e: Relay)
    requires IsRun(steps) && QuietJoins(steps) && p in Reached(steps).peers && Reached(steps).peers[p].replay.Some?
    requires e in Reached(steps).log && e !in Reached(steps).peers[p].replay.value
    ensures Missed(Reached(steps), p, e) <==> e.sender == p || Relayed(e) in Reached(steps).peers[p].dropped
  {
    hide After, Enabled, IsRun, Reached, QuietJoins;
    MissedExactlyWhen(steps, p, e);
    QuietJoinsSeeNothing(steps, p);
    if Missed(Reached(steps), p, e) { WhyMissed(steps, p, e); }
  }

  // ---- It happens --------------------------------------------------------------------------------

  lemma Extend(steps: seq<Step>, step: Step)
    requires IsRun(steps) && Enabled(Reached(steps), step)
    ensures IsRun(steps + [step]) && Reached(steps + [step]) == After(Reached(steps), step)
  {
    hide After, Enabled;
    assert (steps + [step])[..|steps|] == steps;
  }

  /** Two connections suffice: the second joins and reads the log after the first has relayed an edit
      to nobody and before it has stored it. */
  lemma UpdateMissed(edit: Message)
    requires CarriesData(edit)
    ensures var steps := [Join(0), ReadLog(0), Receive(0, edit, true), Join(1), ReadLog(1), FinishBroadcast(0),
                          Append(0, true)];
            IsRun(steps) && Missed(Reached(steps), 1, Relay(0, 0, edit, true)) &&
            Reached(steps).peers[1].dropped == {}
  {
    hide CarriesData;
    Extend([], Join(0));
    Extend([Join(0)], ReadLog(0));
    var a := [Join(0), ReadLog(0)];
    assert [Join(0)] + [ReadLog(0)] == a;
    assert Reached(a).peers.Keys - {0} == {};
    Extend(a, Receive(0, edit, true));
    var b := a + [Receive(0, edit, true)];
    Extend(b, Join(1));
    var c := b + [Join(1)];
    Extend(c, ReadLog(1));
    var d := c + [ReadLog(1)];
    Extend(d, FinishBroadcast(0));
    var f := d + [FinishBroadcast(0)];
    Extend(f, Append(0, true));
    assert f + [Append(0, true)] ==
           [Join(0), ReadLog(0), Receive(0, edit, true), Join(1), ReadLog(1), FinishBroadcast(0), Append(0, true)];
  }
}

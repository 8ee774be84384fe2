/**
 The collaboration hub as a protocol (internal/docs/collab.go): every interleaving of joins, log
 reads, replays, relays, appends and departures in the room of one document.

 A step is what one goroutine does between two points where another can be seen: broadcast takes its
 targets under the room's lock, then queues to one target at a time; the log append comes after.
 */
module HubRuns {
  import opened Wrappers
  import opened HubWire

  type PeerId = nat

  /** A relayed message: ids number the messages in the order their targets were taken. allowed says
      whether canWrite held when it was read. */
  datatype Relay = Relay(id: nat, sender: PeerId, msg: Message, allowed: bool)

  datatype Item = Relayed(relay: Relay) | Answer(msg: Message)

  /** What a connection's reader is doing. */
  datatype Activity =
    | Idle
    | Broadcasting(relay: Relay, targets: set<PeerId>)
    | Appending(relay: Relay)
    | Answering(relay: Relay)

  /**
   A connection. replay is the log as it read it; sent counts the replayed messages written; wire is
   everything written to the socket; lost is the queued item whose write failed, which ends the
   writer. accepted, dropped, joinedAt and inFlightAtJoin record history: the items its queue took,
   those it refused, the number of messages relayed before it joined, and those whose relay had begun
   but was not yet logged when it joined.
   */
  datatype Peer = Peer(
    replay: Option<seq<Relay>>, sent: nat, out: seq<Item>, wire: seq<Item>, lost: seq<Item>, activity: Activity,
    accepted: seq<Item>, dropped: set<Item>, joinedAt: nat, inFlightAtJoin: set<nat>)

  datatype State = State(peers: map<PeerId, Peer>, log: seq<Relay>, next: nat, everJoined: set<PeerId>)

  const INIT: State := State(map[], [], 0, {})

  /** The relay a connection has begun and not yet logged. */
  function Pending(a: Activity): Option<Relay> {
    if a.Broadcasting? || a.Appending? then Some(a.relay) else None
  }

  function InFlight(s: State): set<nat> {
    set p | p in s.peers && Pending(s.peers[p].activity).Some? :: Pending(s.peers[p].activity).value.id
  }

  /** enqueue: a full queue drops the item. */
  function Enqueued(p: Peer, item: Item): Peer {
    if |p.out| < QUEUE_CAP then p.(out := p.out + [item], accepted := p.accepted + [item])
    else p.(dropped := p.dropped + {item})
  }

  predicate ReplayDone(p: Peer) { p.replay.Some? && p.sent == |p.replay.value| }

  // ---- Steps -------------------------------------------------------------------------------------

  datatype Step =
    | Join(p: PeerId)
    | ReadLog(p: PeerId)
    | SendReplay(p: PeerId)
    | Drain(p: PeerId, ok: bool)
    | Receive(p: PeerId, msg: Message, canWrite: bool)
    | QueueTo(p: PeerId, target: PeerId)
    | FinishBroadcast(p: PeerId)
    | Append(p: PeerId, stored: bool)
    | SendAnswer(p: PeerId)
    | Leave(p: PeerId)

  predicate Enabled(s: State, step: Step) {
    if step.Join? then step.p !in s.everJoined
    else
      && step.p in s.peers
      && var peer := s.peers[step.p];
         match step
         case Join(_) => false
         case ReadLog(_) => peer.replay.None?
         case SendReplay(_) => peer.replay.Some? && peer.sent < |peer.replay.value|
         case Drain(_, _) => ReplayDone(peer) && peer.lost == [] && |peer.out| > 0
         case Receive(_, _, _) => ReplayDone(peer) && peer.activity.Idle?
         case QueueTo(_, target) => peer.activity.Broadcasting? && target in peer.activity.targets
         case FinishBroadcast(_) => peer.activity.Broadcasting? && peer.activity.targets == {}
         case Append(_, _) => peer.activity.Appending?
         case SendAnswer(_) => peer.activity.Answering?
         case Leave(_) => peer.activity.Idle?
  }

  function WithPeer(s: State, p: PeerId, peer: Peer): State { s.(peers := s.peers[p := peer]) }

  function After(s: State, step: Step): State
    requires Enabled(s, step)
  {
    match step
    case Join(p) =>
      var newcomer := Peer(None, 0, [], [], [], Idle, [], {}, s.next, InFlight(s));
      WithPeer(s, p, newcomer).(everJoined := s.everJoined + {p})
    case ReadLog(p) => WithPeer(s, p, s.peers[p].(replay := Some(s.log)))
    case SendReplay(p) =>
      var peer := s.peers[p];
      WithPeer(s, p, peer.(sent := peer.sent + 1, wire := peer.wire + [Relayed(peer.replay.value[peer.sent])]))
    case Drain(p, ok) =>
      var peer := s.peers[p];
      var taken := peer.(out := peer.out[1..]);
      WithPeer(s, p, if ok then taken.(wire := peer.wire + [peer.out[0]]) else taken.(lost := [peer.out[0]]))
    case Receive(p, msg, canWrite) =>
      if CarriesData(msg) && !canWrite then s
      else
        var relay := Relay(s.next, p, msg, canWrite);
        WithPeer(s, p, s.peers[p].(activity := Broadcasting(relay, s.peers.Keys - {p}))).(next := s.next + 1)
    case QueueTo(p, target) =>
      var a := s.peers[p].activity;
      var marked := WithPeer(s, p, s.peers[p].(activity := a.(targets := a.targets - {target})));
      if target in s.peers && target != p
      then WithPeer(marked, target, Enqueued(s.peers[target], Relayed(a.relay)))
      else marked
    case FinishBroadcast(p) =>
      var relay := s.peers[p].activity.relay;
      WithPeer(s, p, s.peers[p].(activity := if CarriesData(relay.msg) then Appending(relay) else Answering(relay)))
    case Append(p, stored) =>
      var relay := s.peers[p].activity.relay;
      var logged := WithPeer(s, p, s.peers[p].(activity := Answering(relay)));
      if stored then logged.(log := s.log + [relay]) else logged
    case SendAnswer(p) =>
      var peer := s.peers[p];
      var back := Reply(peer.activity.relay.msg);
      var idle := peer.(activity := Idle);
      WithPeer(s, p, if back.Some? then Enqueued(idle, Answer(back.value)) else idle)
    case Leave(p) => s.(peers := s.peers - {p})
  }

  // ---- What every run keeps ----------------------------------------------------------------------

  /** The peer's queue took or refused the message. */
  predicate Got(p: Peer, r: Relay) { Relayed(r) in p.accepted || Relayed(r) in p.dropped }

  /** A peer that joined before a message's targets were taken is still a target or has got it. */
  ghost predicate RelayReaches(s: State, sender: PeerId)
    requires sender in s.peers
  {
    var a := s.peers[sender].activity;
    forall p :: p in s.peers && p != sender && Pending(a).Some? && s.peers[p].joinedAt <= Pending(a).value.id ==>
      Got(s.peers[p], Pending(a).value) || (a.Broadcasting? && p in a.targets)
  }

  ghost predicate RelaysReach(s: State)
  {
    forall q :: q in s.peers ==> RelayReaches(s, q)
  }

  ghost predicate LogReached(s: State) {
    forall p, e :: p in s.peers && e in s.log && e.sender != p && s.peers[p].joinedAt <= e.id ==> Got(s.peers[p], e)
  }

  ghost predicate ReplaysArePrefixes(s: State) {
    forall p :: p in s.peers ==> ReadsPrefix(s.peers[p], s.log)
  }

  ghost predicate ReadsPrefix(p: Peer, log: seq<Relay>) {
    if p.replay.None? then p.sent == 0 else p.replay.value <= log && p.sent <= |p.replay.value|
  }

  /** A message relayed before a peer joined and still in flight was in flight when it joined. */
  ghost predicate OldRelayKnown(s: State, p: PeerId, q: PeerId)
    requires p in s.peers && q in s.peers
  {
    var pending := Pending(s.peers[q].activity);
    pending.Some? && pending.value.id < s.peers[p].joinedAt ==> pending.value.id in s.peers[p].inFlightAtJoin
  }

  ghost predicate OldRelaysInFlight(s: State) {
    forall p, q :: p in s.peers && q in s.peers ==> OldRelayKnown(s, p, q)
  }

  /** What a peer's log read missed, of what was relayed before it joined, was in flight then. */
  ghost predicate MissedWereInFlight(s: State) {
    forall p, i ::
      (p in s.peers && s.peers[p].replay.Some? && |s.peers[p].replay.value| <= i < |s.log| &&
       s.log[i].id < s.peers[p].joinedAt) ==>
        s.log[i].id in s.peers[p].inFlightAtJoin
  }

  /** Ids count up; a connection relays only messages of its own. */
  ghost predicate PeerIds(s: State, p: PeerId)
    requires p in s.peers
  {
    var peer := s.peers[p];
    && peer.joinedAt <= s.next && p in s.everJoined
    && (!peer.activity.Idle? ==> peer.activity.relay.id < s.next && peer.activity.relay.sender == p)
  }

  ghost predicate IdsBelowNext(s: State) {
    (forall e :: e in s.log ==> e.id < s.next) && (forall p :: p in s.peers ==> PeerIds(s, p))
  }

  /** On the wire: the log read at join first, then queued items in the order they were queued. An
      item is refused only by a queue that has taken QUEUE_CAP others. */
  ghost predicate WireOrdered(p: Peer) {
    && |p.out| <= QUEUE_CAP && |p.out| <= |p.accepted|
    && (p.dropped != {} ==> |p.accepted| >= QUEUE_CAP)
    && var drained := |p.accepted| - |p.out|;
       && p.out == p.accepted[drained..]
       && (p.replay.None? ==> p.wire == [] && p.lost == [] && drained == 0 && p.sent == 0)
       && (p.replay.Some? ==>
             && p.sent <= |p.replay.value|
             && p.wire + p.lost == Replayed(p.replay.value[..p.sent]) + p.accepted[..drained]
             && (drained > 0 || p.lost != [] ==> p.sent == |p.replay.value|))
  }

  function Replayed(log: seq<Relay>): seq<Item> {
    seq(|log|, i requires 0 <= i < |log| => Relayed(log[i]))
  }

  /** Only data messages read while writing was allowed are stored. */
  ghost predicate LogIsData(s: State) {
    && (forall e :: e in s.log ==> CarriesData(e.msg) && e.allowed)
    && (forall p :: p in s.peers && !s.peers[p].activity.Idle? && CarriesData(s.peers[p].activity.relay.msg) ==>
          s.peers[p].activity.relay.allowed)
    && (forall p :: p in s.peers && s.peers[p].activity.Appending? ==> CarriesData(s.peers[p].activity.relay.msg))
  }

  ghost predicate Inv(s: State) {
    && IdsBelowNext(s) && RelaysReach(s) && LogReached(s) && ReplaysArePrefixes(s)
    && OldRelaysInFlight(s) && MissedWereInFlight(s) && LogIsData(s)
    && (forall p :: p in s.peers ==> WireOrdered(s.peers[p]))
  }

  // ---- Each invariant is kept by each step -------------------------------------------------------

  lemma KeepsPeerIds(s: State, step: Step, p: PeerId)
    requires Enabled(s, step) && p in After(s, step).peers && (p in s.peers ==> PeerIds(s, p))
    ensures PeerIds(After(s, step), p)
  {
    hide CarriesData, Reply, InFlight;
    match step
    case Join(_) =>
    case QueueTo(_, _) =>
    case Receive(_, _, _) =>
    case _ =>
  }

  lemma KeepsIds(s: State, step: Step)
    requires Enabled(s, step) && IdsBelowNext(s)
    ensures IdsBelowNext(After(s, step))
  {
    var t := After(s, step);
    forall e | e in t.log
      ensures e.id < t.next
    {
      hide CarriesData, Reply, InFlight, Enqueued;
      assert step.Append? ==> PeerIds(s, step.p);
    }
    hide After, PeerIds;
    forall p | p in t.peers
      ensures PeerIds(t, p)
    {
      KeepsPeerIds(s, step, p);
    }
  }

  lemma KeepsReach(s: State, step: Step)
    requires Enabled(s, step) && IdsBelowNext(s) && RelaysReach(s)
    ensures RelaysReach(After(s, step))
  {
    var t := After(s, step);
    forall q | q in t.peers
      ensures RelayReaches(t, q)
    {
      KeepsRelayReaching(s, step, q);
    }
  }

  /** The part of RelayReaches about one peer. */
  ghost predicate ReachesOne(s: State, sender: PeerId, p: PeerId)
    requires sender in s.peers && p in s.peers
  {
    var a := s.peers[sender].activity;
    p != sender && Pending(a).Some? && s.peers[p].joinedAt <= Pending(a).value.id ==>
      Got(s.peers[p], Pending(a).value) || (a.Broadcasting? && p in a.targets)
  }

  lemma KeepsReachingOne(s: State, step: Step, q: PeerId, p: PeerId)
    requires Enabled(s, step) && q in After(s, step).peers && p in After(s, step).peers
    requires p in s.peers && q in s.peers ==> ReachesOne(s, q, p)
    requires forall x :: x in s.peers ==> PeerIds(s, x)
    ensures ReachesOne(After(s, step), q, p)
  {
    hide CarriesData, Reply, InFlight;
    match step
    case Join(_) => assert q in s.peers ==> PeerIds(s, q);
    case QueueTo(_, _) =>
    case SendAnswer(_) =>
    case Receive(_, _, _) => assert p in s.peers ==> PeerIds(s, p);
    case _ => hide Enqueued;
  }

  lemma KeepsRelayReaching(s: State, step: Step, q: PeerId)
    requires Enabled(s, step) && IdsBelowNext(s) && q in After(s, step).peers
    requires q in s.peers ==> RelayReaches(s, q)
    ensures RelayReaches(After(s, step), q)
  {
    hide After, Enabled, Got, PeerIds, Pending;
    forall p | p in After(s, step).peers
      ensures ReachesOne(After(s, step), q, p)
    {
      assert p in s.peers && q in s.peers ==> ReachesOne(s, q, p);
      KeepsReachingOne(s, step, q, p);
    }
  }

  lemma KeepsEntryReached(s: State, step: Step, p: PeerId, e: Relay)
    requires Enabled(s, step) && IdsBelowNext(s) && RelaysReach(s)
    requires p in After(s, step).peers && e in After(s, step).log && e.sender != p
    requires After(s, step).peers[p].joinedAt <= e.id
    requires p in s.peers && e in s.log && s.peers[p].joinedAt <= e.id ==> Got(s.peers[p], e)
    ensures Got(After(s, step).peers[p], e)
  {
    hide CarriesData, Reply, InFlight;
    match step
    case Append(q, _) => assert RelayReaches(s, q) && PeerIds(s, q);
    case Join(_) =>
    case QueueTo(_, _) => hide RelaysReach, PeerIds;
    case SendAnswer(_) => hide RelaysReach, PeerIds;
    case _ => hide RelaysReach, PeerIds, Enqueued;
  }

  lemma KeepsLogReached(s: State, step: Step)
    requires Enabled(s, step) && IdsBelowNext(s) && RelaysReach(s) && LogReached(s)
    ensures LogReached(After(s, step))
  {
    hide After, Enabled, Got, IdsBelowNext, RelaysReach;
    forall p, e | p in After(s, step).peers && e in After(s, step).log && e.sender != p &&
                  After(s, step).peers[p].joinedAt <= e.id
      ensures Got(After(s, step).peers[p], e)
    {
      KeepsEntryReached(s, step, p, e);
    }
  }

  lemma PrefixStays(a: seq<Relay>, b: seq<Relay>, e: Relay)
    requires a <= b
    ensures a <= b + [e]
  {
  }

  lemma KeepsPrefix(s: State, step: Step, p: PeerId)
    requires Enabled(s, step) && ReplaysArePrefixes(s) && p in After(s, step).peers
    ensures ReadsPrefix(After(s, step).peers[p], After(s, step).log)
  {
    hide CarriesData, Reply, InFlight;
    match step
    case Append(q, _) =>
      if p in s.peers && s.peers[p].replay.Some? {
        PrefixStays(s.peers[p].replay.value, s.log, s.peers[q].activity.relay);
      }
    case ReadLog(_) => assert s.log <= s.log;
    case QueueTo(_, _) =>
    case SendAnswer(_) =>
    case _ => hide Enqueued;
  }

  lemma KeepsPrefixes(s: State, step: Step)
    requires Enabled(s, step) && ReplaysArePrefixes(s)
    ensures ReplaysArePrefixes(After(s, step))
  {
    hide After, Enabled, ReadsPrefix;
    var t := After(s, step);
    forall p | p in t.peers
      ensures ReadsPrefix(t.peers[p], t.log)
    {
      KeepsPrefix(s, step, p);
    }
  }

  lemma KeepsOldRelay(s: State, step: Step, p: PeerId, q: PeerId)
    requires Enabled(s, step) && IdsBelowNext(s) && p in After(s, step).peers && q in After(s, step).peers
    requires p in s.peers && q in s.peers ==> OldRelayKnown(s, p, q)
    ensures OldRelayKnown(After(s, step), p, q)
  {
    hide CarriesData, Reply;
    match step
    case Join(_) => hide Enqueued;
    case QueueTo(_, _) => hide InFlight;
    case SendAnswer(_) => hide InFlight;
    case _ => hide InFlight, Enqueued;
  }

  lemma KeepsOldRelays(s: State, step: Step)
    requires Enabled(s, step) && IdsBelowNext(s) && OldRelaysInFlight(s)
    ensures OldRelaysInFlight(After(s, step))
  {
    hide After, Enabled, IdsBelowNext, OldRelayKnown;
    forall p, q | p in After(s, step).peers && q in After(s, step).peers
      ensures OldRelayKnown(After(s, step), p, q)
    {
      KeepsOldRelay(s, step, p, q);
    }
  }

  lemma KeepsMissedOne(s: State, step: Step, p: PeerId, i: nat)
    requires Enabled(s, step) && OldRelaysInFlight(s) && MissedWereInFlight(s)
    requires var t := After(s, step);
             && p in t.peers && t.peers[p].replay.Some? && |t.peers[p].replay.value| <= i < |t.log|
             && t.log[i].id < t.peers[p].joinedAt
    ensures After(s, step).log[i].id in After(s, step).peers[p].inFlightAtJoin
  {
    hide CarriesData, Reply, InFlight;
    match step
    case Append(q, _) => assert OldRelayKnown(s, p, q);
    case QueueTo(_, _) => hide OldRelaysInFlight;
    case SendAnswer(_) => hide OldRelaysInFlight;
    case _ => hide Enqueued, OldRelaysInFlight;
  }

  lemma KeepsMissed(s: State, step: Step)
    requires Enabled(s, step) && OldRelaysInFlight(s) && MissedWereInFlight(s)
    ensures MissedWereInFlight(After(s, step))
  {
    hide After, Enabled, OldRelaysInFlight;
    var t := After(s, step);
    forall p, i | p in t.peers && t.peers[p].replay.Some? && |t.peers[p].replay.value| <= i < |t.log| &&
                  t.log[i].id < t.peers[p].joinedAt
      ensures t.log[i].id in t.peers[p].inFlightAtJoin
    {
      KeepsMissedOne(s, step, p, i);
    }
  }

  lemma KeepsData(s: State, step: Step)
    requires Enabled(s, step) && LogIsData(s)
    ensures LogIsData(After(s, step))
  {
    hide CarriesData, Reply, InFlight;
  }

  lemma EnqueueKeepsOrder(p: Peer, item: Item)
    requires WireOrdered(p)
    ensures WireOrdered(Enqueued(p, item))
  {
    hide Replayed;
    if |p.out| < QUEUE_CAP {
      var drained := |p.accepted| - |p.out|;
      assert (p.accepted + [item])[drained..] == p.accepted[drained..] + [item];
      assert (p.accepted + [item])[..drained] == p.accepted[..drained];
    }
  }

  lemma SendKeepsOrder(p: Peer)
    requires WireOrdered(p) && p.replay.Some? && p.sent < |p.replay.value|
    ensures WireOrdered(p.(sent := p.sent + 1, wire := p.wire + [Relayed(p.replay.value[p.sent])]))
  {
    var log := p.replay.value;
    assert log[..p.sent + 1] == log[..p.sent] + [log[p.sent]];
    assert Replayed(log[..p.sent + 1]) == Replayed(log[..p.sent]) + [Relayed(log[p.sent])];
    var after := p.(sent := p.sent + 1, wire := p.wire + [Relayed(log[p.sent])]);
    assert p.accepted[..0] == [] && p.lost == [];
    assert p.wire + p.lost == p.wire && Replayed(log[..p.sent]) + p.accepted[..0] == Replayed(log[..p.sent]);
    assert after.wire + after.lost == after.wire == Replayed(log[..p.sent + 1]) + p.accepted[..0];
  }

  /** Drain, whether or not the write succeeds. */
  lemma DrainKeepsOrder(p: Peer, wire: seq<Item>, lost: seq<Item>)
    requires WireOrdered(p) && ReplayDone(p) && p.lost == [] && |p.out| > 0
    requires wire + lost == p.wire + [p.out[0]]
    ensures WireOrdered(p.(out := p.out[1..], wire := wire, lost := lost))
  {
    hide Replayed;
    var drained := |p.accepted| - |p.out|;
    assert p.accepted[..drained + 1] == p.accepted[..drained] + [p.accepted[drained]];
    assert p.out[1..] == p.accepted[drained + 1..] && p.out[0] == p.accepted[drained];
    assert p.wire + p.lost == p.wire;
    assert wire + lost == Replayed(p.replay.value[..p.sent]) + p.accepted[..drained + 1];
  }

  lemma ReadKeepsOrder(p: Peer, log: seq<Relay>)
    requires WireOrdered(p) && p.replay.None?
    ensures WireOrdered(p.(replay := Some(log)))
  {
    assert Replayed(log[..0]) == [] && p.accepted[..0] == [];
    assert [] == Replayed(log[..0]) + p.accepted[..0];
  }

  /** WireOrdered looks at these fields only. */
  predicate SameWire(p: Peer, q: Peer) {
    && p.replay == q.replay && p.sent == q.sent && p.out == q.out && p.wire == q.wire
    && p.lost == q.lost && p.accepted == q.accepted
    && p.dropped == q.dropped
  }

  lemma SameWireIsOrdered(p: Peer, q: Peer)
    requires SameWire(p, q) && WireOrdered(p)
    ensures WireOrdered(q)
  {
    hide Replayed;
  }

  /** The steps that write, read the log or queue. */
  lemma KeepsWireMoving(s: State, step: Step, p: PeerId)
    requires Enabled(s, step) && p in s.peers && p in After(s, step).peers && WireOrdered(s.peers[p])
    requires step.ReadLog? || step.SendReplay? || step.Drain? || step.QueueTo? || step.SendAnswer?
    ensures WireOrdered(After(s, step).peers[p])
  {
    hide CarriesData, Reply, InFlight, WireOrdered, Enqueued;
    var peer := s.peers[p];
    match step
    case ReadLog(q) => if p == q { ReadKeepsOrder(peer, s.log); }
    case SendReplay(q) => if p == q { SendKeepsOrder(peer); }
    case Drain(q, ok) =>
      if p == q {
        assert ok ==> peer.wire + [peer.out[0]] + peer.lost == peer.wire + [peer.out[0]];
        DrainKeepsOrder(peer, if ok then peer.wire + [peer.out[0]] else peer.wire,
                        if ok then peer.lost else [peer.out[0]]);
      }
    case QueueTo(q, target) =>
      if p == target && p != q {
        EnqueueKeepsOrder(peer, Relayed(s.peers[q].activity.relay));
      } else {
        SameWireIsOrdered(peer, After(s, step).peers[p]);
      }
    case SendAnswer(q) =>
      if p == q {
        var idle := peer.(activity := Idle);
        SameWireIsOrdered(peer, idle);
        var back := Reply(peer.activity.relay.msg);
        if back.Some? { EnqueueKeepsOrder(idle, Answer(back.value)); }
      }
  }

  lemma KeepsWire(s: State, step: Step, p: PeerId)
    requires Enabled(s, step) && p in After(s, step).peers
    requires p in s.peers ==> WireOrdered(s.peers[p])
    ensures WireOrdered(After(s, step).peers[p])
  {
    if step.Join? {
      hide InFlight, Replayed;
    } else if step.ReadLog? || step.SendReplay? || step.Drain? || step.QueueTo? || step.SendAnswer? {
      hide WireOrdered;
      assert p in s.peers by { hide Enqueued, Reply, CarriesData; }
      hide After, Enabled;
      KeepsWireMoving(s, step, p);
    } else {
      hide CarriesData, WireOrdered, Enqueued, Reply, InFlight;
      SameWireIsOrdered(s.peers[p], After(s, step).peers[p]);
    }
  }

  lemma KeepsInv(s: State, step: Step)
    requires Enabled(s, step) && Inv(s)
    ensures Inv(After(s, step))
  {
    hide After, Enabled, IdsBelowNext, RelaysReach, LogReached, ReplaysArePrefixes, OldRelaysInFlight,
      MissedWereInFlight, LogIsData, WireOrdered;
    KeepsIds(s, step);
    KeepsReach(s, step);
    KeepsLogReached(s, step);
    KeepsPrefixes(s, step);
    KeepsOldRelays(s, step);
    KeepsMissed(s, step);
    KeepsData(s, step);
    forall p | p in After(s, step).peers
      ensures WireOrdered(After(s, step).peers[p])
    {
      KeepsWire(s, step, p);
    }
  }

  // ---- Runs --------------------------------------------------------------------------------------

  /** The steps can be taken one after the other from the empty hub. */
  predicate IsRun(steps: seq<Step>)
    decreases |steps|, 0
  {
    |steps| == 0 ||
    (IsRun(steps[..|steps| - 1]) && Enabled(Reached(steps[..|steps| - 1]), steps[|steps| - 1]))
  }

  function Reached(steps: seq<Step>): State
    requires IsRun(steps)
    decreases |steps|, 1
  {
    if |steps| == 0 then INIT else After(Reached(steps[..|steps| - 1]), steps[|steps| - 1])
  }

  lemma {:induction false} RunKeepsInv(steps: seq<Step>)
    requires IsRun(steps)
    ensures Inv(Reached(steps))
  {
    if |steps| > 0 {
      hide Inv, After, Enabled;
      RunKeepsInv(steps[..|steps| - 1]);
      KeepsInv(Reached(steps[..|steps| - 1]), steps[|steps| - 1]);
    }
  }

  /** Delivery, over every run: for a connected peer past its log read and a stored update, the update
      is in its replay, is its own, was written to it or waits in its queue, is the item whose write
      failed, was refused by its full queue, or was being relayed when it joined and was stored after
      its log read. */
  lemma Delivery(steps: seq<Step>, p: PeerId, i: nat)
    requires IsRun(steps)
    ensures var s := Reached(steps);
            p in s.peers && s.peers[p].replay.Some? && i < |s.log| ==>
              var peer, e := s.peers[p], s.log[i];
              || (i < |peer.replay.value| && peer.replay.value[i] == e)
              || e.sender == p
              || Relayed(e) in peer.wire || Relayed(e) in peer.out || Relayed(e) in peer.lost
              || (Relayed(e) in peer.dropped && |peer.accepted| >= QUEUE_CAP)
              || (e.id in peer.inFlightAtJoin && e.id < peer.joinedAt && i >= |peer.replay.value|)
  {
    hide IsRun, Reached, Enabled, After;
    RunKeepsInv(steps);
    var s := Reached(steps);
    if p in s.peers && s.peers[p].replay.Some? && i < |s.log| {
      AcceptedIsHeld(s.peers[p], Relayed(s.log[i]));
    }
  }

  lemma AcceptedIsHeld(p: Peer, item: Item)
    requires WireOrdered(p) && p.replay.Some?
    ensures item in p.accepted ==> item in p.wire || item in p.lost || item in p.out
  {
    hide Replayed;
    var drained := |p.accepted| - |p.out|;
    assert p.accepted == p.accepted[..drained] + p.accepted[drained..];
    assert item in p.accepted[..drained] ==> item in p.wire + p.lost;
  }

  /** No connection joined while a message was being relayed or stored. */
  ghost predicate QuietJoins(steps: seq<Step>)
    requires IsRun(steps)
  {
    |steps| == 0 ||
    var before, last := steps[..|steps| - 1], steps[|steps| - 1];
    QuietJoins(before) && (last.Join? ==> InFlight(Reached(before)) == {})
  }

  /** Relay and append are one step: until a message is relayed and stored only its sender moves. */
  ghost predicate AtomicRelays(steps: seq<Step>)
    requires IsRun(steps)
  {
    |steps| == 0 ||
    var before, last := steps[..|steps| - 1], steps[|steps| - 1];
    AtomicRelays(before) && OnlySenderMoves(Reached(before), last)
  }

  ghost predicate OnlySenderMoves(s: State, step: Step) {
    forall q :: q in s.peers && Pending(s.peers[q].activity).Some? ==> step.p == q
  }

  /** What was in flight when a peer joined is fixed then. */
  lemma KeepsFlightRecords(s: State, step: Step, p: PeerId)
    requires Enabled(s, step) && p in After(s, step).peers && (p in s.peers ==> PeerIds(s, p))
    ensures p in s.peers ==> After(s, step).peers[p].inFlightAtJoin == s.peers[p].inFlightAtJoin
    ensures p !in s.peers ==> step.Join? && After(s, step).peers[p].inFlightAtJoin == InFlight(s)
  {
    hide CarriesData, Reply, InFlight;
  }

  lemma {:induction false} QuietJoinsSeeNothing(steps: seq<Step>, p: PeerId)
    requires IsRun(steps) && QuietJoins(steps) && p in Reached(steps).peers
    ensures Reached(steps).peers[p].inFlightAtJoin == {}
  {
    hide After, Enabled, InFlight, PeerIds, RelaysReach, LogReached, ReplaysArePrefixes, OldRelaysInFlight,
      MissedWereInFlight, LogIsData, WireOrdered;
    if |steps| > 0 {
      var before, last := steps[..|steps| - 1], steps[|steps| - 1];
      RunKeepsInv(before);
      assert QuietJoins(before) && Reached(steps) == After(Reached(before), last);
      KeepsFlightRecords(Reached(before), last, p);
      if p in Reached(before).peers { QuietJoinsSeeNothing(before, p); }
    }
  }

  lemma NobodyInFlight(s: State)
    ensures (forall q :: q in s.peers ==> Pending(s.peers[q].activity).None?) ==> InFlight(s) == {}
  {
  }

  lemma NothingInFlight(s: State, p: PeerId)
    requires Enabled(s, Join(p)) && IdsBelowNext(s) && OnlySenderMoves(s, Join(p))
    ensures InFlight(s) == {}
  {
    assert forall q :: q in s.peers ==> PeerIds(s, q) && q != p;
    assert forall q :: q in s.peers ==> Pending(s.peers[q].activity).None?;
    NobodyInFlight(s);
  }

  lemma {:induction false} AtomicRelaysJoinQuietly(steps: seq<Step>)
    requires IsRun(steps) && AtomicRelays(steps)
    ensures QuietJoins(steps)
  {
    hide After, InFlight, IdsBelowNext, OnlySenderMoves, RelaysReach, LogReached, ReplaysArePrefixes, OldRelaysInFlight,
      MissedWereInFlight, LogIsData, WireOrdered;
    if |steps| > 0 {
      var before, last := steps[..|steps| - 1], steps[|steps| - 1];
      AtomicRelaysJoinQuietly(before);
      RunKeepsInv(before);
      if last.Join? { NothingInFlight(Reached(before), last.p); }
    }
  }

  /** Over every run in which nobody joins while a message is being relayed or stored, nothing but
      what a full queue refused is missed. */
  lemma DeliveryWhenQuiet(steps: seq<Step>, p: PeerId, i: nat)
    requires IsRun(steps) && QuietJoins(steps)
    ensures var s := Reached(steps);
            p in s.peers && s.peers[p].replay.Some? && i < |s.log| ==>
              var peer, e := s.peers[p], s.log[i];
              || (i < |peer.replay.value| && peer.replay.value[i] == e)
              || e.sender == p
              || Relayed(e) in peer.wire || Relayed(e) in peer.out || Relayed(e) in peer.lost
              || (Relayed(e) in peer.dropped && |peer.accepted| >= QUEUE_CAP)
  {
    hide IsRun, Reached, QuietJoins;
    Delivery(steps, p, i);
    if p in Reached(steps).peers { QuietJoinsSeeNothing(steps, p); }
  }

  /** The same of every run whose relays and appends are one step. */
  lemma DeliveryWhenAtomic(steps: seq<Step>, p: PeerId, i: nat)
    requires IsRun(steps) && AtomicRelays(steps)
    ensures var s := Reached(steps);
            p in s.peers && s.peers[p].replay.Some? && i < |s.log| ==>
              var peer, e := s.peers[p], s.log[i];
              || (i < |peer.replay.value| && peer.replay.value[i] == e)
              || e.sender == p
              || Relayed(e) in peer.wire || Relayed(e) in peer.out || Relayed(e) in peer.lost
              || (Relayed(e) in peer.dropped && |peer.accepted| >= QUEUE_CAP)
  {
    hide IsRun, Reached, QuietJoins, AtomicRelays;
    AtomicRelaysJoinQuietly(steps);
    DeliveryWhenQuiet(steps, p, i);
  }

  /** On every peer's wire the whole log it read comes first, then what its queue took, in order; so
      no answer of the hub precedes the replay. */
  lemma WireOrder(steps: seq<Step>, p: PeerId)
    requires IsRun(steps)
    ensures var s := Reached(steps);
            p in s.peers ==>
              var peer := s.peers[p];
              && (peer.replay.None? ==> peer.wire == [])
              && (peer.replay.Some? && peer.sent < |peer.replay.value| ==>
                    peer.wire == Replayed(peer.replay.value[..peer.sent]))
              && (ReplayDone(peer) ==> peer.wire + peer.lost + peer.out == Replayed(peer.replay.value) + peer.accepted)
  {
    hide IsRun, Reached, Enabled, After, Replayed, WireOrdered;
    RunKeepsInv(steps);
    var s := Reached(steps);
    if p in s.peers { OrderedReads(s.peers[p]); }
  }

  lemma OrderedReads(peer: Peer)
    requires WireOrdered(peer)
    ensures peer.replay.None? ==> peer.wire == []
    ensures peer.replay.Some? && peer.sent < |peer.replay.value| ==>
              peer.wire == Replayed(peer.replay.value[..peer.sent])
    ensures ReplayDone(peer) ==> peer.wire + peer.lost + peer.out == Replayed(peer.replay.value) + peer.accepted
  {
    hide Replayed;
    if peer.replay.Some? {
      var drained := |peer.accepted| - |peer.out|;
      assert peer.accepted == peer.accepted[..drained] + peer.accepted[drained..];
      assert peer.replay.value[..|peer.replay.value|] == peer.replay.value;
      if peer.sent < |peer.replay.value| {
        assert peer.accepted[..drained] == [] && peer.wire + peer.lost == peer.wire;
      }
    }
  }

  /** The log holds data messages only, each read while its sender was allowed to write. */
  lemma LogHoldsPermittedData(steps: seq<Step>, e: Relay)
    requires IsRun(steps) && e in Reached(steps).log
    ensures CarriesData(e.msg) && e.allowed && Reply(e.msg).None?
  {
    hide IsRun, Reached, Enabled, After, CarriesData, Reply;
    RunKeepsInv(steps);
    StoredIsNotAnswered(e.msg);
  }
}

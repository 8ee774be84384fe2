/**
 HubRuns against HubObjects (internal/docs/collab.go): the steps of one inbound message, taken with no
 other in between and to the other connections in any order, leave what the reader's loop leaves.
 */
module HubAlone {
  import opened Wrappers
  import opened HubWire
  import opened HubRuns
  import HubObjects

  /** The steps one after the other, those that are not due left out. */
  function Taken(s: State, steps: seq<Step>): State
    decreases |steps|
  {
    if steps == [] then s
    else Taken(if Enabled(s, steps[0]) then After(s, steps[0]) else s, steps[1..])
  }

  lemma {:induction false} TakenInTwo(s: State, first: seq<Step>, second: seq<Step>)
    ensures Taken(s, first + second) == Taken(Taken(s, first), second)
    decreases |first|
  {
    hide Enabled, After;
    if first == [] {
      assert first + second == second;
    } else {
      assert (first + second)[0] == first[0] && (first + second)[1..] == first[1..] + second;
      TakenInTwo(if Enabled(s, first[0]) then After(s, first[0]) else s, first[1..], second);
    }
  }

  function ToEach(p: PeerId, order: seq<PeerId>): seq<Step> {
    seq(|order|, i requires 0 <= i < |order| => QueueTo(p, order[i]))
  }

  /** What a connection's queue holds. */
  function Queue(peer: Peer): seq<Message> { MessagesOf(peer.out) }

  function MessagesOf(items: seq<Item>): seq<Message> {
    seq(|items|, i requires 0 <= i < |items| => if items[i].Relayed? then items[i].relay.msg else items[i].msg)
  }

  /** The messages of the log. */
  function Log(s: State): seq<Message> {
    seq(|s.log|, i requires 0 <= i < |s.log| => s.log[i].msg)
  }

  lemma EnqueuedIsOffered(peer: Peer, item: Item, msg: Message)
    requires msg == if item.Relayed? then item.relay.msg else item.msg
    ensures Queue(Enqueued(peer, item)) == HubObjects.Offered(Queue(peer), msg)
  {
  }

  /** Which connections have been offered the relay. */
  ghost predicate OfferedTo(s: State, t: State, p: PeerId, relay: Relay, order: seq<PeerId>) {
    && t == s.(peers := t.peers) && t.peers.Keys == s.peers.Keys
    && forall q :: q in s.peers && q != p ==>
         t.peers[q] == if q in order then Enqueued(s.peers[q], Relayed(relay)) else s.peers[q]
  }

  lemma QueueOne(s: State, p: PeerId, relay: Relay, target: PeerId)
    requires p in s.peers && target in s.peers && target != p
    requires s.peers[p].activity.Broadcasting? && s.peers[p].activity.relay == relay
    requires target in s.peers[p].activity.targets
    ensures Enabled(s, QueueTo(p, target))
    ensures var t := After(s, QueueTo(p, target));
            && OfferedTo(s, t, p, relay, [target])
            && t.peers[p] == s.peers[p].(activity := Broadcasting(relay, s.peers[p].activity.targets - {target}))
  {
    hide Enqueued, CarriesData, Reply, InFlight;
  }

  /** The targets, each once, in some order. */
  ghost predicate Lists(order: seq<PeerId>, targets: set<PeerId>) {
    && (forall i, j :: 0 <= i < j < |order| ==> order[i] != order[j])
    && (forall q :: q in order <==> q in targets)
  }

  lemma ListsRest(order: seq<PeerId>, targets: set<PeerId>)
    requires Lists(order, targets)
    ensures order == [] ==> targets == {}
    ensures order != [] ==> order[0] in targets && Lists(order[1..], targets - {order[0]})
    ensures order != [] ==> forall q :: q in order <==> q == order[0] || q in order[1..]
  {
    if order != [] {
      assert order == [order[0]] + order[1..];
    } else {
      assert forall q :: q in targets ==> q in order;
    }
  }

  lemma {:induction false} QueueAll(s: State, p: PeerId, relay: Relay, order: seq<PeerId>, targets: set<PeerId>)
    requires p in s.peers && targets <= s.peers.Keys - {p} && Lists(order, targets)
    requires s.peers[p].activity == Broadcasting(relay, targets)
    ensures var t := Taken(s, ToEach(p, order));
            && OfferedTo(s, t, p, relay, order)
            && t.peers[p] == s.peers[p].(activity := Broadcasting(relay, {}))
    decreases |order|
  {
    hide Enabled, After, Enqueued, Lists;
    ListsRest(order, targets);
    if order == [] {
      assert ToEach(p, order) == [];
    } else {
      var head, tail := order[0], order[1..];
      QueueOne(s, p, relay, head);
      var t := After(s, QueueTo(p, head));
      assert ToEach(p, order)[0] == QueueTo(p, head) && ToEach(p, order)[1..] == ToEach(p, tail);
      QueueAll(t, p, relay, tail, targets - {head});
      hide ToEach;
      assert head !in tail by { assert Lists(tail, targets - {head}); ListsHas(tail, targets - {head}, head); }
    }
  }

  lemma ListsHas(order: seq<PeerId>, targets: set<PeerId>, q: PeerId)
    requires Lists(order, targets)
    ensures q in order <==> q in targets
  {
  }

  /** Relayed to all, the message is stored if it is due, and its sender answered. */
  lemma Finishes(s: State, p: PeerId, relay: Relay, stored: bool)
    requires p in s.peers && s.peers[p].activity == Broadcasting(relay, {})
    ensures var t := Taken(s, [FinishBroadcast(p), Append(p, stored), SendAnswer(p)]);
            var back := Reply(relay.msg);
            var idle := s.peers[p].(activity := Idle);
            && t == s.(log := if CarriesData(relay.msg) && stored then s.log + [relay] else s.log,
                       peers := s.peers[p := if back.Some? then Enqueued(idle, Answer(back.value)) else idle])
  {
    hide CarriesData, Reply, Enqueued, InFlight;
    var a := After(s, FinishBroadcast(p));
    assert Taken(s, [FinishBroadcast(p), Append(p, stored), SendAnswer(p)]) ==
           Taken(a, [Append(p, stored), SendAnswer(p)]);
    var b := if CarriesData(relay.msg) then After(a, Append(p, stored)) else a;
    assert Taken(a, [Append(p, stored), SendAnswer(p)]) == Taken(b, [SendAnswer(p)]);
    assert Taken(b, [SendAnswer(p)]) == After(b, SendAnswer(p));
  }

  /** The steps of one inbound message. */
  function Steps(p: PeerId, msg: Message, canWrite: bool, stored: bool, order: seq<PeerId>): seq<Step> {
    [Receive(p, msg, canWrite)] + ToEach(p, order) + [FinishBroadcast(p), Append(p, stored), SendAnswer(p)]
  }

  /** A message that is not allowed is read, and that is all. */
  lemma {:induction false} NothingDue(s: State, p: PeerId, steps: seq<Step>)
    requires p in s.peers && s.peers[p].activity.Idle?
    requires forall step :: step in steps ==>
               && step.p == p
               && (step.QueueTo? || step.FinishBroadcast? || step.Append? || step.SendAnswer?)
    ensures Taken(s, steps) == s
    decreases |steps|
  {
    hide After;
    if steps != [] {
      NothingDue(s, p, steps[1..]);
    }
  }

  /** The targets of a relay have been taken. */
  function Begun(s: State, relay: Relay): State
    requires relay.sender in s.peers
  {
    var others := s.peers.Keys - {relay.sender};
    WithPeer(s, relay.sender, s.peers[relay.sender].(activity := Broadcasting(relay, others))).(next := s.next + 1)
  }

  lemma RelaysAlone(s: State, relay: Relay, stored: bool, order: seq<PeerId>)
    requires relay.sender in s.peers && Lists(order, s.peers.Keys - {relay.sender})
    ensures var p := relay.sender;
            var t := Taken(Begun(s, relay), ToEach(p, order) + [FinishBroadcast(p), Append(p, stored), SendAnswer(p)]);
            && t.peers.Keys == s.peers.Keys
            && (forall q :: q in s.peers && q != p ==>
                  Queue(t.peers[q]) == HubObjects.Offered(Queue(s.peers[q]), relay.msg))
            && Queue(t.peers[p]) == (if Reply(relay.msg).Some?
                                     then HubObjects.Offered(Queue(s.peers[p]), Reply(relay.msg).value)
                                     else Queue(s.peers[p]))
            && Log(t) == (if CarriesData(relay.msg) && stored then Log(s) + [relay.msg] else Log(s))
  {
    hide CarriesData, Reply, Enqueued, HubObjects.Offered, After, Taken, MessagesOf, ToEach, Lists;
    var p, a := relay.sender, Begun(s, relay);
    TakenInTwo(a, ToEach(p, order), [FinishBroadcast(p), Append(p, stored), SendAnswer(p)]);
    QueueAll(a, p, relay, order, s.peers.Keys - {p});
    var b := Taken(a, ToEach(p, order));
    Finishes(b, p, relay, stored);
    forall q | q in s.peers && q != p
      ensures q in order
              && Queue(Enqueued(s.peers[q], Relayed(relay))) == HubObjects.Offered(Queue(s.peers[q]), relay.msg)
    {
      ListsHas(order, s.peers.Keys - {p}, q);
      EnqueuedIsOffered(s.peers[q], Relayed(relay), relay.msg);
    }
    if Reply(relay.msg).Some? {
      EnqueuedIsOffered(b.peers[p].(activity := Idle), Answer(Reply(relay.msg).value), Reply(relay.msg).value);
    }
  }

  /** The steps of one message leave the queues and the log as HubObjects.Hub.Receive does, whatever the
      order its targets are taken in. */
  lemma ReceivesAlone(s: State, p: PeerId, msg: Message, canWrite: bool, stored: bool, order: seq<PeerId>)
    requires p in s.peers && ReplayDone(s.peers[p]) && s.peers[p].activity.Idle?
    requires Lists(order, s.peers.Keys - {p})
    ensures var t := Taken(s, Steps(p, msg, canWrite, stored, order));
            var skipped := CarriesData(msg) && !canWrite;
            && t.peers.Keys == s.peers.Keys
            && (forall q :: q in s.peers && q != p ==>
                  Queue(t.peers[q]) ==
                  if skipped then Queue(s.peers[q]) else HubObjects.Offered(Queue(s.peers[q]), msg))
            && Queue(t.peers[p]) == (if Reply(msg).Some? then HubObjects.Offered(Queue(s.peers[p]), Reply(msg).value)
                                     else Queue(s.peers[p]))
            && Log(t) == (if CarriesData(msg) && canWrite && stored then Log(s) + [msg] else Log(s))
  {
    StoredIsNotAnswered(msg);
    hide CarriesData, Reply, Enqueued, HubObjects.Offered, Queue, Log, InFlight;
    var a := After(s, Receive(p, msg, canWrite));
    var rest := ToEach(p, order) + [FinishBroadcast(p), Append(p, stored), SendAnswer(p)];
    assert Steps(p, msg, canWrite, stored, order) == [Receive(p, msg, canWrite)] + rest;
    assert Taken(s, [Receive(p, msg, canWrite)] + rest) == Taken(a, rest);
    if CarriesData(msg) && !canWrite {
      NothingDue(a, p, rest);
    } else {
      var relay := Relay(s.next, p, msg, canWrite);
      assert a == Begun(s, relay);
      hide After, Taken;
      RelaysAlone(s, relay, stored, order);
    }
  }
}

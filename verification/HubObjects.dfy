/**
 The hub's objects (internal/docs/collab.go): peers with bounded queues, rooms, the table of rooms and
 the update log, as each method leaves them when no other runs in between. HubRuns and HubRegistry
 take these effects apart into the steps that can interleave.
 */
module HubObjects {
  import opened Wrappers
  import opened HubWire

  /** What a bounded queue holds after a message is offered to it. */
  function Offered(queue: seq<Message>, msg: Message): seq<Message> {
    if |queue| < QUEUE_CAP then queue + [msg] else queue
  }

  class Peer {
    var out: seq<Message>

    constructor ()
      ensures out == []
    {
      out := [];
    }

    method Enqueue(msg: Message)
      modifies this
      ensures out == Offered(old(out), msg)
    {
      if |out| < QUEUE_CAP {
        out := out + [msg];
      }
    }
  }

  class Room {
    var peers: set<Peer>

    constructor ()
      ensures peers == {}
    {
      peers := {};
    }

    /** Every other peer of the room is offered the message once; the sender is not. */
    method Broadcast(from: Peer, msg: Message)
      modifies peers - {from}
      ensures forall p :: p in peers && p != from ==> p.out == Offered(old(p.out), msg)
    {
      var targets := peers - {from};
      var left := targets;
      while left != {}
        invariant left <= targets
        invariant forall p :: p in targets ==> p.out == if p in left then old(p.out) else Offered(old(p.out), msg)
        decreases |left|
      {
        var p :| p in left;
        p.Enqueue(msg);
        left := left - {p};
      }
    }
  }

  class Hub {
    var rooms: map<string, Room>
    var store: map<string, seq<Message>>

    /** Only non-empty rooms are registered, each under one document, and no peer is in two of them. */
    ghost predicate Valid()
      reads this, rooms.Values
    {
      && (forall d :: d in rooms ==> rooms[d].peers != {})
      && (forall d, e :: d in rooms && e in rooms && d != e ==>
            rooms[d] != rooms[e] && rooms[d].peers !! rooms[e].peers)
    }

    /** Who is connected to a document. */
    ghost function Connected(doc: string): set<Peer>
      reads this, rooms.Values
    {
      if doc in rooms then rooms[doc].peers else {}
    }

    /** The document's update log. */
    function Log(doc: string): seq<Message>
      reads this
    {
      if doc in store then store[doc] else []
    }

    constructor ()
      ensures Valid() && rooms == map[] && store == map[]
    {
      rooms := map[];
      store := map[];
    }

    method RoomFor(doc: string) returns (r: Room)
      modifies this`rooms
      ensures doc in old(rooms) ==> r == old(rooms)[doc]
      ensures doc !in old(rooms) ==> fresh(r) && r.peers == {}
      ensures rooms == old(rooms)[doc := r]
    {
      if doc in rooms {
        r := rooms[doc];
      } else {
        r := new Room();
        rooms := rooms[doc := r];
      }
    }

    method AddPeer(doc: string, p: Peer) returns (r: Room)
      requires Valid() && forall d :: d in rooms ==> p !in rooms[d].peers
      modifies this`rooms, rooms.Values
      ensures Valid() && rooms == old(rooms)[doc := r]
      ensures Connected(doc) == old(Connected(doc)) + {p}
      ensures forall d :: d != doc ==> Connected(d) == old(Connected(d))
    {
      r := RoomFor(doc);
      r.peers := r.peers + {p};
    }

    /** r is the room AddPeer gave for doc; it may have been dropped from the table since. */
    method RemovePeer(doc: string, r: Room, p: Peer)
      requires Valid() && forall d :: d in rooms && rooms[d] == r ==> d == doc
      modifies this`rooms, r
      ensures Valid() && r.peers == old(r.peers) - {p}
      ensures forall d :: d != doc ==> Connected(d) == old(Connected(d))
      ensures var registered := doc in old(rooms) && old(rooms)[doc] == r;
              && Connected(doc) == (if registered then old(Connected(doc)) - {p} else old(Connected(doc)))
              && rooms == if registered && r.peers == {} then old(rooms) - {doc} else old(rooms)
    {
      r.peers := r.peers - {p};
      if r.peers == {} {
        if doc in rooms && rooms[doc] == r {
          rooms := rooms - {doc};
        }
      }
    }

    /** One message from a connection: relayed to the others, and stored when it carries data. */
    method Route(doc: string, r: Room, from: Peer, msg: Message, storeFails: bool)
      modifies this`store, r.peers - {from}
      ensures forall p :: p in r.peers && p != from ==> p.out == Offered(old(p.out), msg)
      ensures Log(doc) == if CarriesData(msg) && !storeFails then old(Log(doc)) + [msg] else old(Log(doc))
      ensures forall d :: d != doc ==> Log(d) == old(Log(d))
    {
      r.Broadcast(from, msg);
      if CarriesData(msg) {
        if !storeFails {
          store := store[doc := Log(doc) + [msg]];
        }
      }
    }

    /** The body of the reader's loop: a connection that may not write can relay awareness and ask
        questions, but nothing it sends is stored or relayed as data. */
    method Receive(doc: string, r: Room, from: Peer, msg: Message, canWrite: bool, storeFails: bool)
      modifies this`store, r.peers, from
      ensures var skipped := CarriesData(msg) && !canWrite;
              && (forall p :: p in r.peers && p != from ==>
                    p.out == if skipped then old(p.out) else Offered(old(p.out), msg))
              && from.out == (if Reply(msg).Some? then Offered(old(from.out), Reply(msg).value) else old(from.out))
              && Log(doc) == (if CarriesData(msg) && canWrite && !storeFails then old(Log(doc)) + [msg]
                              else old(Log(doc)))
      ensures forall d :: d != doc ==> Log(d) == old(Log(d))
    {
      hide CarriesData, Reply;
      StoredIsNotAnswered(msg);
      if CarriesData(msg) && !canWrite {
        return;
      }
      Route(doc, r, from, msg, storeFails);
      var back := Reply(msg);
      if back.Some? {
        from.Enqueue(back.value);
      }
    }

    /** The log, in order, straight to the socket; ok says the whole of it was written. fails is the
        number of writes that succeed before one does not. */
    method Replay(doc: string, fails: Option<nat>) returns (written: seq<Message>, ok: bool)
      ensures written <= Log(doc)
      ensures ok <==> written == Log(doc)
      ensures ok <==> fails.None? || |Log(doc)| <= fails.value
      ensures !ok ==> |written| == fails.value
    {
      var updates := Log(doc);
      written := [];
      for i := 0 to |updates|
        invariant written == updates[..i]
        invariant fails.Some? ==> i <= fails.value
      {
        if fails.Some? && i == fails.value {
          return written, false;
        }
        written := written + [updates[i]];
      }
      ok := true;
    }
  }
}

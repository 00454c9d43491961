/**
  The socket.io connection handler of server.js: the presence registry, the
  'chatroom' room, the set of live sockets and the outbox, changed in place by
  the `join`, `message`, `privateMessage` and `disconnect` handlers. Each
  handler is one atomic step. The database is reduced to whether the upsert or
  save succeeded, and to the record of what it holds.
 */
module ChatServer {
  import opened Presence
  import opened Delivery

  /** Every delivered event is backed by a durable record: a chat message by the
      stored message, a presence notice by the stored user. */
  ghost predicate Persisted(e: Event, users: set<Name>, messages: seq<Payload>) {
    match e
    case UserJoined(n) => n in users
    case UserLeft(n) => n in users
    case RoomMessage(p) => p in messages
    case PrivateMessage(p) => p in messages
  }

  /** Every binding names a stored user and a socket that has existed. */
  ghost predicate BindingsStored(m: Registry, sockets: set<SocketId>, users: set<Name>) {
    forall e :: e in m ==> e.socket in sockets && e.name in users
  }

  /** Persist-before-deliver over a whole outbox. */
  ghost predicate AllPersisted(out: seq<Emission>, users: set<Name>, messages: seq<Payload>) {
    forall em :: em in out ==> Persisted(em.event, users, messages)
  }

  lemma AllPersistedAppend(out: seq<Emission>, more: seq<Emission>, users: set<Name>, messages: seq<Payload>)
    requires AllPersisted(out, users, messages) && AllPersisted(more, users, messages)
    ensures AllPersisted(out + more, users, messages)
  {
  }

  /** Storing more users or messages keeps every earlier delivery backed. */
  lemma AllPersistedGrow(out: seq<Emission>, users: set<Name>, messages: seq<Payload>, users': set<Name>, messages': seq<Payload>)
    requires AllPersisted(out, users, messages) && users <= users'
    requires forall p :: p in messages ==> p in messages'
    ensures AllPersisted(out, users', messages')
  {
    forall em | em in out ensures Persisted(em.event, users', messages') {
      assert Persisted(em.event, users, messages);
    }
  }

  /** The disconnect scan that stops at position `i` keeps the registry and the
      outbox consistent with what the database holds. */
  lemma DisconnectAt(m: Registry, s: SocketId, i: nat, sockets: set<SocketId>, users: set<Name>,
                     out: seq<Emission>, messages: seq<Payload>, live: set<SocketId>)
    requires UniqueNames(m) && BindingsStored(m, sockets, users) && AllPersisted(out, users, messages)
    requires i < |m| && m[i].socket == s
    requires forall j :: 0 <= j < i ==> m[j].socket != s
    ensures Leaver(m, s) == Some(m[i].name) && Unbind(m, s) == Delete(m, m[i].name)
    ensures UniqueNames(Delete(m, m[i].name)) && BindingsStored(Delete(m, m[i].name), sockets, users)
    ensures AllPersisted(out + [Emission(live, UserLeft(m[i].name))], users, messages)
  {
    UnbindAt(m, s, i);
    assert m[i] in m;
    var e := Emission(live, UserLeft(m[i].name));
    assert AllPersisted([e], users, messages);
    AllPersistedAppend(out, [e], users, messages);
  }

  /** What a successful `privateMessage` emits: the payload to the receiver's
      socket, if the receiver's name is bound, and then back to the sender. */
  function PrivateEmissions(users: Registry, live: set<SocketId>, sender: SocketId, p: Payload): (r: seq<Emission>)
    ensures |r| == if HasName(users, p.receiverName) then 2 else 1
    ensures forall em :: em in r ==> em.event == PrivateMessage(p)
    ensures r[|r| - 1] == Emission({sender}, PrivateMessage(p))
  {
    (match Lookup(users, p.receiverName) {
       case None => []
       case Some(r) => [Emission({r} * live, PrivateMessage(p))]
     })
    + [Emission({sender}, PrivateMessage(p))]
  }

  /** How many copies of a private message socket `x` should get: one if it is
      the live socket the receiver's name is bound to, one if it is the sender's. */
  function PrivateCopies(users: Registry, live: set<SocketId>, sender: SocketId, p: Payload, x: SocketId): nat {
    (if Lookup(users, p.receiverName) == Some(x) && x in live then 1 else 0) + (if x == sender then 1 else 0)
  }

  /** Exact recipients of a private message: the receiver's live socket once if
      the receiver's name is bound to it, the sender once, nobody else; a socket
      that is both receives the payload twice. */
  lemma PrivateRouting(users: Registry, live: set<SocketId>, sender: SocketId, p: Payload, x: SocketId)
    ensures forall e :: e in Inbox(PrivateEmissions(users, live, sender, p), x) ==> e == PrivateMessage(p)
    ensures |Inbox(PrivateEmissions(users, live, sender, p), x)| == PrivateCopies(users, live, sender, p, x)
  {
    var echo := Emission({sender}, PrivateMessage(p));
    InboxOne(echo, x);
    match Lookup(users, p.receiverName) {
      case None =>
      case Some(r) =>
        var direct := Emission({r} * live, PrivateMessage(p));
        InboxOne(direct, x);
        InboxAppend([direct], [echo], x);
    }
  }

  /** The receiver's live socket, when it is not the sender's, gets the message
      exactly when the receiver's name is bound to it. */
  lemma PrivateReachesReceiver(users: Registry, live: set<SocketId>, sender: SocketId, p: Payload, r: SocketId)
    requires r in live && r != sender
    ensures PrivateMessage(p) in Inbox(PrivateEmissions(users, live, sender, p), r)
        <==> Lookup(users, p.receiverName) == Some(r)
  {
    PrivateRouting(users, live, sender, p, r);
  }

  /** A socket that is both the sender's and the receiver's gets the payload twice. */
  lemma PrivateSameSocketTwice(users: Registry, live: set<SocketId>, sender: SocketId, p: Payload)
    requires sender in live && Lookup(users, p.receiverName) == Some(sender)
    ensures Inbox(PrivateEmissions(users, live, sender, p), sender) == [PrivateMessage(p), PrivateMessage(p)]
  {
    var direct := Emission({sender} * live, PrivateMessage(p));
    var echo := Emission({sender}, PrivateMessage(p));
    assert PrivateEmissions(users, live, sender, p) == [direct] + [echo];
    InboxAppend([direct], [echo], sender);
    InboxOne(direct, sender);
    InboxOne(echo, sender);
  }

  class Server {
    /** `connectedUsers`: username to socket id, in insertion order. */
    var connectedUsers: Registry
    /** The sockets currently connected to the server. */
    var connected: set<SocketId>
    /** The members of the 'chatroom' room. */
    var chatroom: set<SocketId>
    /** Every emission so far, in order. */
    var outbox: seq<Emission>
    /** The messages the database holds. */
    var storedMessages: seq<Payload>
    /** The usernames the database holds. */
    var storedUsers: set<Name>
    /** Every socket id ever handed out; socket.io does not reuse them. */
    ghost var everConnected: set<SocketId>
    /** Every socket that has completed a join. */
    ghost var identified: set<SocketId>

    ghost predicate Valid()
      reads this
    {
      && UniqueNames(connectedUsers)
      && chatroom <= connected <= everConnected
      && identified <= everConnected
      && chatroom == identified * connected
      && BindingsStored(connectedUsers, everConnected, storedUsers)
      && AllPersisted(outbox, storedUsers, storedMessages)
    }

    constructor ()
      ensures Valid()
      ensures connectedUsers == [] && connected == {} && chatroom == {} && outbox == []
      ensures storedMessages == [] && storedUsers == {} && everConnected == {}
    {
      connectedUsers, connected, chatroom, outbox := [], {}, {}, [];
      storedMessages, storedUsers := [], {};
      everConnected, identified := {}, {};
    }

    /** A new socket connects (`io.on('connection')`); it has no binding yet. */
    method OnConnection(s: SocketId)
      requires Valid() && s !in everConnected
      modifies this
      ensures Valid()
      ensures connected == old(connected) + {s} && everConnected == old(everConnected) + {s}
      ensures connectedUsers == old(connectedUsers) && chatroom == old(chatroom) && outbox == old(outbox)
      ensures storedMessages == old(storedMessages) && storedUsers == old(storedUsers)
      ensures identified == old(identified) && s !in chatroom
      ensures Leaver(connectedUsers, s).None?
    {
      connected := connected + {s};
      everConnected := everConnected + {s};
    }

    /** `join`: after a successful upsert, bind the name to this socket, enter
        'chatroom' and tell every connected socket, this one included. A failed
        upsert changes nothing. */
    method OnJoin(s: SocketId, username: Name, upserted: bool)
      requires Valid() && s in connected
      modifies this
      ensures Valid()
      ensures connected == old(connected) && everConnected == old(everConnected)
      ensures storedMessages == old(storedMessages)
      ensures identified == old(identified) + if upserted then {s} else {}
      ensures upserted ==>
        && connectedUsers == Bind(old(connectedUsers), username, s)
        && chatroom == old(chatroom) + {s}
        && storedUsers == old(storedUsers) + {username}
        && outbox == old(outbox) + [Emission(connected, UserJoined(username))]
      ensures !upserted ==>
        && connectedUsers == old(connectedUsers) && chatroom == old(chatroom)
        && storedUsers == old(storedUsers) && outbox == old(outbox)
      ensures forall k :: Lookup(connectedUsers, k) == if upserted && k == username then Some(s) else Lookup(old(connectedUsers), k)
      ensures forall x :: Inbox(outbox, x) == Inbox(old(outbox), x) + if upserted && x in connected then [UserJoined(username)] else []
    {
      if upserted {
        AllPersistedGrow(outbox, storedUsers, storedMessages, storedUsers + {username}, storedMessages);
        storedUsers := storedUsers + {username};
        ghost var before := connectedUsers;
        connectedUsers := Bind(connectedUsers, username, s);
        forall k ensures Lookup(connectedUsers, k) == if k == username then Some(s) else Lookup(before, k) {
          BindLookup(before, username, s, k);
        }
        assert BindingsStored(connectedUsers, everConnected, storedUsers);
        chatroom := chatroom + {s};
        identified := identified + {s};
        ghost var sent := outbox;
        var e := Emission(connected, UserJoined(username));
        assert AllPersisted([e], storedUsers, storedMessages);
        AllPersistedAppend(sent, [e], storedUsers, storedMessages);
        outbox := outbox + [e];
        InboxAppendOne(sent, e);
      }
    }

    /** `message`: after a successful save, forward the client's payload to the
        members of 'chatroom', and to nobody else. A failed save emits nothing. */
    method OnMessage(p: Payload, saved: bool)
      requires Valid()
      modifies this
      ensures Valid()
      ensures connectedUsers == old(connectedUsers) && connected == old(connected) && chatroom == old(chatroom)
      ensures storedUsers == old(storedUsers) && everConnected == old(everConnected) && identified == old(identified)
      ensures storedMessages == old(storedMessages) + if saved then [p] else []
      ensures outbox == old(outbox) + if saved then [Emission(chatroom, RoomMessage(p))] else []
      ensures forall x :: Inbox(outbox, x) == Inbox(old(outbox), x) + if saved && x in chatroom then [RoomMessage(p)] else []
    {
      if saved {
        AllPersistedGrow(outbox, storedUsers, storedMessages, storedUsers, storedMessages + [p]);
        storedMessages := storedMessages + [p];
        ghost var sent := outbox;
        var e := Emission(chatroom, RoomMessage(p));
        assert AllPersisted([e], storedUsers, storedMessages);
        AllPersistedAppend(sent, [e], storedUsers, storedMessages);
        outbox := outbox + [e];
        InboxAppendOne(sent, e);
      }
    }

    /** `privateMessage`: after a successful save, forward the payload to the
        socket bound to its receiver, if any, and back to the sending socket.
        A failed save emits nothing. */
    method OnPrivateMessage(s: SocketId, p: Payload, saved: bool)
      requires Valid() && s in connected
      modifies this
      ensures Valid()
      ensures connectedUsers == old(connectedUsers) && connected == old(connected) && chatroom == old(chatroom)
      ensures storedUsers == old(storedUsers) && everConnected == old(everConnected) && identified == old(identified)
      ensures storedMessages == old(storedMessages) + if saved then [p] else []
      ensures outbox == old(outbox) + if saved then PrivateEmissions(connectedUsers, connected, s, p) else []
      ensures forall x :: |Inbox(outbox, x)| == |Inbox(old(outbox), x)| + if saved then PrivateCopies(connectedUsers, connected, s, p, x) else 0
    {
      if saved {
        AllPersistedGrow(outbox, storedUsers, storedMessages, storedUsers, storedMessages + [p]);
        storedMessages := storedMessages + [p];
        ghost var sent := outbox;
        assert AllPersisted(PrivateEmissions(connectedUsers, connected, s, p), storedUsers, storedMessages);
        AllPersistedAppend(sent, PrivateEmissions(connectedUsers, connected, s, p), storedUsers, storedMessages);
        var receiverSocket := Lookup(connectedUsers, p.receiverName);
        if receiverSocket.Some? {
          outbox := outbox + [Emission({receiverSocket.value} * connected, PrivateMessage(p))];
        }
        outbox := outbox + [Emission({s}, PrivateMessage(p))];
        assert outbox == sent + PrivateEmissions(connectedUsers, connected, s, p);
        forall x ensures |Inbox(outbox, x)| == |Inbox(sent, x)| + PrivateCopies(connectedUsers, connected, s, p, x) {
          InboxAppend(sent, PrivateEmissions(connectedUsers, connected, s, p), x);
          PrivateRouting(connectedUsers, connected, s, p, x);
        }
      }
    }

    /** `disconnect`: socket.io has already taken the socket out of the server
        and its rooms. Scan the registry in order, delete the first entry bound
        to the socket, tell the remaining sockets, and stop. */
    method OnDisconnect(s: SocketId)
      requires Valid() && s in connected
      modifies this
      ensures Valid()
      ensures connected == old(connected) - {s} && chatroom == old(chatroom) - {s}
      ensures storedUsers == old(storedUsers) && storedMessages == old(storedMessages)
      ensures everConnected == old(everConnected) && identified == old(identified)
      ensures connectedUsers == Unbind(old(connectedUsers), s)
      ensures outbox == old(outbox) + match Leaver(old(connectedUsers), s) {
                case None => []
                case Some(n) => [Emission(connected, UserLeft(n))]
              }
      ensures forall k :: Lookup(connectedUsers, k) == if Leaver(old(connectedUsers), s) == Some(k) then None else Lookup(old(connectedUsers), k)
      ensures forall x :: Inbox(outbox, x) == Inbox(old(outbox), x) + match Leaver(old(connectedUsers), s) {
                case None => []
                case Some(n) => if x in connected then [UserLeft(n)] else []
              }
    {
      connected := connected - {s};
      chatroom := chatroom - {s};
      assert chatroom == identified * connected;
      UnbindLookupAll(connectedUsers, s);
      var i := 0;
      while i < |connectedUsers|
        invariant 0 <= i <= |connectedUsers|
        invariant connectedUsers == old(connectedUsers) && outbox == old(outbox)
        invariant connected == old(connected) - {s} && chatroom == old(chatroom) - {s}
        invariant storedUsers == old(storedUsers) && storedMessages == old(storedMessages)
        invariant everConnected == old(everConnected) && identified == old(identified)
        invariant forall j :: 0 <= j < i ==> connectedUsers[j].socket != s
      {
        if connectedUsers[i].socket == s {
          var username := connectedUsers[i].name;
          DisconnectAt(connectedUsers, s, i, everConnected, storedUsers, outbox, storedMessages, connected);
          connectedUsers := Delete(connectedUsers, username);
          var e := Emission(connected, UserLeft(username));
          outbox := outbox + [e];
          InboxAppendOne(old(outbox), e);
          break;
        }
        i := i + 1;
      }
    }
  }

  /**
    Socket 1 joins as "alice", then socket 2 joins as "alice", then socket 1
    disconnects: "alice" stays bound to socket 2 and socket 2 sees no `userLeft`.
   */
  method SupersededJoinScenario() returns (alice: Option<SocketId>, seenBy2: seq<Event>)
    ensures alice == Some(2)
    ensures seenBy2 == [UserJoined("alice"), UserJoined("alice")]
  {
    var server := new Server();
    server.OnConnection(1);
    server.OnConnection(2);
    server.OnJoin(1, "alice", true);
    assert server.connectedUsers == [Entry("alice", 1)];
    server.OnJoin(2, "alice", true);
    assert server.connectedUsers == [Entry("alice", 2)];
    assert Inbox(server.outbox, 2) == [UserJoined("alice"), UserJoined("alice")] by {
      assert Inbox([], 2) == [];
    }
    ghost var sent := server.outbox;
    assert Leaver([Entry("alice", 2)], 1) == None;
    server.OnDisconnect(1);
    assert server.outbox == sent;
    alice := Lookup(server.connectedUsers, "alice");
    seenBy2 := Inbox(server.outbox, 2);
  }
}

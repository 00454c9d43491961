/**
  What the server emits. Every `emit` of server.js becomes one Emission: the set
  of sockets it actually reaches and the event it carries. The outbox is the
  sequence of emissions in the order the handlers made them; what one socket
  observed is its Inbox.
 */
module Delivery {
  import opened Presence

  /** A chat message as the client submitted it. The server stores it and
      forwards it unchanged; routing reads only `receiverName`. */
  datatype Payload = Payload(senderName: Name, receiverName: Name, message: string, status: string)

  datatype Event =
    | UserJoined(joined: Name)
    | UserLeft(left: Name)
    | RoomMessage(room: Payload)
    | PrivateMessage(direct: Payload)

  datatype Emission = Emission(recipients: set<SocketId>, event: Event)

  /** The events socket `x` received, in order. */
  function Inbox(out: seq<Emission>, x: SocketId): (r: seq<Event>)
    ensures |r| <= |out|
    ensures forall e :: e in r ==> exists i :: 0 <= i < |out| && out[i].event == e && x in out[i].recipients
  {
    if out == [] then []
    else (if x in out[0].recipients then [out[0].event] else []) + Inbox(out[1..], x)
  }

  /** Emitting more never changes what a socket had already received: it only adds to the end. */
  lemma {:induction false} InboxAppend(a: seq<Emission>, b: seq<Emission>, x: SocketId)
    ensures Inbox(a + b, x) == Inbox(a, x) + Inbox(b, x)
  {
    if a == [] {
      assert a + b == b;
    } else {
      var head := if x in a[0].recipients then [a[0].event] else [];
      assert (a + b)[0] == a[0] && (a + b)[1..] == a[1..] + b;
      assert Inbox(a + b, x) == head + Inbox(a[1..] + b, x);
      InboxAppend(a[1..], b, x);
      assert Inbox(a, x) == head + Inbox(a[1..], x);
    }
  }

  /** A further emission adds its event, once, to the inbox of each of its recipients and of nobody else. */
  lemma InboxAppendOne(out: seq<Emission>, e: Emission)
    ensures forall x :: Inbox(out + [e], x) == Inbox(out, x) + if x in e.recipients then [e.event] else []
  {
    forall x ensures Inbox(out + [e], x) == Inbox(out, x) + if x in e.recipients then [e.event] else [] {
      InboxAppend(out, [e], x);
      InboxOne(e, x);
    }
  }

  /** One emission reaches exactly its recipients, once each. */
  lemma InboxOne(e: Emission, x: SocketId)
    ensures Inbox([e], x) == if x in e.recipients then [e.event] else []
  {
    assert [e][1..] == [];
  }
}

# Presence and routing core of a socket.io chat relay

This project models the in-memory core of a Node.js chat server (`server.js`). Clients connect over socket.io and `join` under a username. They then send room messages (`message`), which go to everyone in the `'chatroom'` room, and direct messages (`privateMessage`), which go to the receiver's socket and are echoed back to the sender. The server keeps a `connectedUsers` Map from username to socket id. A `disconnect` removes the first entry bound to the leaving socket. Every message is saved to the database before it is forwarded.

The model has three modules:

- `Presence` (presence.dfy) models the `connectedUsers` Map as a sequence of `(username, socket id)` entries in insertion order. `Bind` is `set`: it replaces an existing key where it stands or appends a new one. `Delete` is `delete`, `Lookup` is `get`, and `Leaver`/`Unbind` model the `for … of` scan with `break` in the disconnect handler. The lemmas cover last-join-wins, idempotent re-join, removal of exactly one binding, and the rule that a disconnect keeps a newer binding of the same name.
- `Delivery` (delivery.dfy) models events and emissions. An emission is the set of sockets one `emit` actually reaches, paired with its event. `Inbox` is the sequence of events one socket has received.
- `ChatServer` (server.dfy) holds the class `Server`. Its fields are the registry, the connected sockets, the `'chatroom'` members, the outbox, and what the database holds. It has one method per handler, and each handler runs as one atomic step. The database appears only as a boolean argument to each handler: `upserted` for join, `saved` for the message handlers. It says whether the awaited upsert or save succeeded. A failure takes the `catch` path, which only logs.
  - `Valid()` is preserved by every handler. It requires unique usernames in the registry. It also requires that `'chatroom'` is exactly the connected sockets that have completed a join. Finally it requires persist-before-deliver: every delivered message is among the stored messages, and every presence notice names a stored user.

Socket ids are numbers that are never reused. In socket.io they are non-empty strings, so the source's truthiness test `if (receiverSocketId)` is the same as "the name is bound". `io.emit` reaches the connected sockets. `io.to('chatroom')` reaches the room's members. `io.to(id)` reaches that socket only while it is still connected, because a registry entry can outlive its socket. `socket.emit` reaches the socket itself. socket.io removes a leaving socket from the server and its rooms before the `disconnect` handler runs, so `userLeft` goes to the remaining sockets.

Three behaviours of the code a reader might not expect:
- A failed join is only logged. Nothing is sent to the joining socket.
- The disconnect handler removes only the first entry bound to the socket. Further entries for the same socket (one socket that joined under two names) stay in the registry.
- The room echo reaches the sender only if the sender has completed a join.

## Model

| member | source | states |
|---|---|---|
| Presence.IndexOfName | server.js:46 | The index found holds the key, and no earlier entry does; None means no entry has the key. |
| Presence.FirstBoundTo | server.js:121-122 | The index found is bound to the socket, and no earlier entry is; None means no entry is bound to it. This is the order of the `for … of` scan. |
| Presence.Lookup | server.js:100 | `get` returns a value exactly when the key is present, and the returned pair is an entry of the Map. |
| Presence.Bind | server.js:63 | `set` keeps the length when the key exists and otherwise appends the new pair at the end. Every key keeps its position. Entries with other keys are unchanged. No entry appears other than the new pair. |
| Presence.Delete | server.js:123 | `delete` removes one entry when the key is present and is the identity otherwise. It never adds an entry. The entries before the removed one keep their positions, and the entries after it move down by one, so iteration order is kept. |
| Presence.Leaver | server.js:121-126 | The disconnect scan names a leaver exactly when some entry is bound to the socket, and that name is bound to the socket. |
| Presence.Unbind | server.js:121-127 | The Map after a disconnect: unchanged when no entry is bound to the socket, otherwise one entry shorter, with no new entries. UnbindAt ties it to the first entry the scan finds, and UnbindLookup shows only the leaver's binding goes. |
| Presence.LookupEntry | server.js:46 | With unique keys, `get` of an entry's name finds that entry's position and socket. |
| Presence.BindLookup | server.js:63 | Last join wins: after `set(k, v)`, `k` maps to `v`, every other key keeps its binding, and keys stay unique. |
| Presence.BindIdempotent | server.js:63 | Joining twice under the same name from the same socket gives the Map one join gives. |
| Presence.RemoveAtLookup | server.js:123 | Removing the entry at a position removes exactly that key's binding and keeps keys unique. |
| Presence.DeleteLookup | server.js:123 | `delete(k)` unbinds exactly `k`, leaves every other key's binding, and keeps keys unique. |
| Presence.UnbindAt | server.js:121-126 | A scan that stops at the first entry bound to the socket has found the leaver, and deleting that name is the whole effect on the Map. |
| Presence.UnbindLookup | server.js:121-127 | A disconnect removes at most one entry, the leaver's. Every other name keeps its binding, and the length drops by one exactly when there is a leaver. |
| Presence.UnbindKeepsOtherSockets | server.js:121-127 | A binding of any name to a socket other than the leaving one survives that socket's disconnect. |
| Presence.UnbindKeepsLaterEntries | server.js:121-127 | Because of the `break`, a later entry bound to the same socket stays bound after the disconnect. |
| Presence.SupersededDisconnect | server.js:121-127 | If socket a joins as n and then socket b joins as n, a's disconnect leaves n bound to b, and the leaver is not n. |
| Delivery.Inbox | server.js:69-124 | A socket's inbox is never longer than the outbox. Every event in it was emitted with that socket among the recipients. |
| Delivery.InboxAppend | server.js:69-124 | Later emits only add to the end of each socket's inbox. |
| Delivery.InboxAppendOne | server.js:69-124 | One more emit adds its event once to each of its recipients' inboxes and to no other inbox. |
| Delivery.InboxOne | server.js:69-124 | A single emit reaches exactly its recipients, once each. |
| ChatServer.PrivateEmissions | server.js:103-112 | A successful private message makes two emits when the receiver's name is bound and one otherwise. Every emit carries the original payload, and the last one goes to the sender. PrivateRouting gives the exact per-socket counts. |
| ChatServer.PrivateRouting | server.js:99-112 | After a successful save, every event a socket gets from a private message is that payload. A socket gets one copy if it is the live socket the receiver's name maps to, plus one if it is the sender's. Any other socket gets nothing. |
| ChatServer.PrivateReachesReceiver | server.js:100-105 | A live receiver socket other than the sender's gets the message exactly when the receiver's name is bound to it. |
| ChatServer.PrivateSameSocketTwice | server.js:103-112 | When the receiver's name is bound to the sender's own socket, that socket receives the payload twice. |
| ChatServer.Server.constructor | server.js:46 | The server starts with an empty Map, no sockets, an empty room and an empty outbox. |
| ChatServer.Server.OnConnection | server.js:49-50 | A new socket joins the connected set and has no binding. Nothing else changes. |
| ChatServer.Server.OnJoin | server.js:52-74 | On upsert success, the Map becomes `set(username, socket)`, so only `username` changes binding. The socket enters 'chatroom', and every connected socket, the joiner included, gets exactly one `userJoined`. On failure nothing changes. |
| ChatServer.Server.OnMessage | server.js:76-89 | On save success, the payload is stored, and exactly the 'chatroom' members get it once each. On failure nothing is emitted. The Map, the sockets and the room never change. |
| ChatServer.Server.OnPrivateMessage | server.js:92-117 | On save success, the payload is stored, and the receiver's live mapped socket and the sender get the copies PrivateRouting counts. On failure nothing is emitted. The Map, the sockets and the room never change. |
| ChatServer.Server.OnDisconnect | server.js:119-129 | The socket leaves the server and the room. The Map becomes `Unbind` of the old one, so only the first entry bound to the socket is removed. The remaining sockets get one `userLeft` for that name, or nothing when no entry matched. |
| ChatServer.SupersededJoinScenario | server.js:121-127 | Sockets 1 and 2 join as "alice", then socket 1 disconnects. "alice" is still bound to socket 2, and socket 2 has seen two `userJoined` events and no `userLeft`. |

## Left out

- MongoDB and its schemas (server.js:21-43): each upsert or save is a success flag given to the handler. The stored record, its `Date.now` timestamp and `lastSeen` are not modelled. Only the fact that the record is stored is kept.
- The REST endpoints (server.js:133-181): they are database queries whose ordering lives in Mongo.
- Express, HTTP, CORS and socket.io setup, `server.listen`, environment configuration, and every `console.log`/`console.error` (server.js:1-19, 183-186): these are transport and I/O.
- Interleaving of awaits across sockets: each handler is one atomic transition, and an event arrives only from a connected socket.
- The per-username room (server.js:67): nothing emits to it. Because it is left out, the model does not capture a username equal to some socket id, which would make `io.to(id)` also reach the sockets that joined under that name.
- Missing payload fields: usernames and receiver names are always strings. The model does not cover `join` without `senderName`, which would bind the key `undefined`, nor a private message without `receiverName`.

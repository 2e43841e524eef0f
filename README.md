# Signalling server of vide-chat-app, modelled in Dafny

The server (`server/index.js`) is a socket.io relay that lets two browsers set up a WebRTC call. It keeps two in-memory maps: email to socket id, and socket id to email. It also relies on socket.io's room membership. It handles six events:

- `room:join` records the email/socket pair in both maps and adds the socket to the named room. It then emits `user:joined` to that room and echoes the request back to the joining socket.
- `call:incoming`, `call:accepted`, `peer:negotiation:needed` and `peer:negotiation:done` each forward a session description (an offer or an answer) to the socket the sender names. The sender's id is stamped on it. `peer:negotiation:done` goes out renamed as `peer:negotiation:final`.
- `disconnect` removes the socket's entry and its email's entry from both maps, but only when the socket has a non-empty email.

The files:

- `signals.dfy` (module `Signals`): event names, inbound events, payloads, and the emission record `io.to(target).emit(event, payload)`. The session description is a type parameter `S` with no characteristics. So no function can look into one or make one, and each description that goes out is one that came in. The other fields of a `room:join` request are a type parameter `X`, echoed back unread.
- `relay.dfy` (module `SignalRelay`): the four relay handlers as pure functions. Also socket.io's dispatch to them (`Relay`), and the two handshake round trips.
- `registry.dfy` (module `EmailRegistry`): the two maps as a value, and the updates that `room:join` and `disconnect` make. The server never keeps the two maps inverse to each other. These lemmas say exactly when a join breaks that, and what a later disconnect then deletes.
- `rooms.dfy` (module `Rooms`): the `socket.join` calls the handlers make, recorded as a table from room name to the sockets joined to it, and the two emissions of `room:join`. The table is not socket.io's full membership; see "## Left out".
- `eventloop.dfy` (module `EventLoop`): a run of the server, meaning the events it handles one after another, each tagged with its socket. It gives the registry after a run and proves properties by induction over runs.
- `server.dfy` (module `Server`): class `SignalServer`. It holds the two maps and the room table as fields. Its handler methods update the fields in place and are proved against the value-level functions above.

The joiner also receives its own `user:joined`, because `io.to(roomId)` runs after `socket.join(roomId)` (server/index.js:43-46).

## Model

| member | source | states |
|---|---|---|
| `SignalRelay.OnCallIncoming` | server/index.js:51-53 | goes to the `to` socket under the same name, as an offer stamped `offererId` = sender, with the offer passed through |
| `SignalRelay.OnCallAccepted` | server/index.js:56-58 | goes to the `offererId` socket under the same name, as an answer stamped `answererId` = sender, with the answer passed through |
| `SignalRelay.OnNegotiationNeeded` | server/index.js:60-70 | goes to the `answererId` socket under the same name, as an offer stamped `offererId` = sender, with the offer passed through |
| `SignalRelay.OnNegotiationDone` | server/index.js:72-80 | goes to the `offererId` socket renamed `peer:negotiation:final`, as an answer stamped `answererId` = sender, with the answer passed through |
| `SignalRelay.Relay` | server/index.js:51-80 | for every relay event: exactly one emission, to the named addressee, stamped with the sender in the offerer role for offers and the answerer role for answers, description unchanged, name kept except done becomes final |
| `SignalRelay.CallRoundTrip` | server/index.js:51-58 | when `b` accepts using the `offererId` it received, the answer reaches `a`, stamped with `b` |
| `SignalRelay.NegotiationRoundTrip` | server/index.js:60-80 | when `b` replies `peer:negotiation:done` to the `offererId` it received, `a` gets `peer:negotiation:final` stamped with `b` |
| `EmailRegistry.Join` | server/index.js:39-41 | afterwards `email -> s` and `s -> email`; each map gains only that key, and every other entry is unchanged, including stale ones pointing at `s` |
| `EmailRegistry.Leave` | server/index.js:83-88 | if `s` has a truthy email `e`, exactly the keys `s` and `e` are removed and all other entries stay; otherwise both maps are unchanged; afterwards `s` has no truthy email |
| `EmailRegistry.JoinPreservesInverse` | server/index.js:29-41 | starting from inverse maps, a join keeps them inverse if and only if the email was unbound or bound to `s`, and `s` was unbound or bound to the email |
| `EmailRegistry.LeavePreservesInverse` | server/index.js:83-88 | a disconnect never breaks inverse maps |
| `EmailRegistry.LeaveUndoesFreshJoin` | server/index.js:40-88 | joining with a fresh socket and a fresh non-empty email, then disconnecting, restores both maps exactly |
| `EmailRegistry.EmptyEmailSurvivesLeave` | server/index.js:84-85 | a socket that joined with the empty email keeps both entries after its disconnect |
| `EmailRegistry.LeaveIdempotent` | server/index.js:83-88 | a second disconnect of the same socket changes nothing |
| `EmailRegistry.DuplicateEmailDisconnectDropsNewer` | server/index.js:40-87 | after the same email joins from `s1` and then `s2`, the maps are not inverse; disconnecting `s1` deletes the email's entry although it points at `s2`, while `s2 -> email` stays |
| `EmailRegistry.RejoinDisconnectLeavesDangling` | server/index.js:40-87 | after `s` joins under `e1` and then `e2`, `e1 -> s` stays; disconnecting `s` removes `e2` and `s` but leaves `e1` pointing at the unregistered `s` |
| `EventLoop.Apply` | server/index.js:38-90 | a `room:join` step is `Join` with its email, a `disconnect` step is `Leave`, and a relay step leaves the registry as it was |
| `EventLoop.RelaysKeepRegistry` | server/index.js:51-80 | any run made only of relay events leaves both maps exactly as they were |
| `EventLoop.EntriesComeFromJoins` | server/index.js:38-90 | after any run, each registered socket and each socket an email points at (dangling or not) was there before or joined in the run; each registered email was there before or was joined with |
| `EventLoop.DistinctJoinsKeepInverse` | server/index.js:29-90 | in every run from the start in which no socket joins twice and no email is joined twice, the two maps stay mutually inverse |
| `Rooms.AddMember` | server/index.js:43 | records `socket.join(r)` by `s`: `s` is added to `r`, no other room changes and nobody is removed |
| `Rooms.JoinEmissions` | server/index.js:46-47 | exactly two emissions, in order: `user:joined {email, socketId: s}` to the room, then the unmodified request back to `s` as `room:join` |
| `Rooms.JoinNoticeReachesJoiner` | server/index.js:43-46 | the `user:joined` notice's target room holds, among the `socket.join` calls recorded, every earlier joiner of the room and the joiner itself |
| `Server.SignalServer.constructor` | server/index.js:29-30 | both maps start empty and no room has members |
| `Server.SignalServer.RoomJoin` | server/index.js:38-48 | new maps = `Join` of the old ones, new rooms = `AddMember` of the old ones, output = `JoinEmissions`; the sockets joined to the notice's target room are the earlier joiners plus `s` |
| `Server.SignalServer.Disconnect` | server/index.js:83-90 | new maps = `Leave` of the old ones; the handler makes no room change, so the table of `socket.join` calls is unchanged |
| `Server.SignalServer.Handle` | server/index.js:34-91 | the new maps are `Apply` of the old ones for this step; each event runs its own handler; the relay events leave the whole state unchanged and emit exactly `[Relay(s, ev)]`; `disconnect` emits nothing |
| `Server.DuplicateEmailScenario` | server/index.js:40-87 | using only the class contracts: two joins with the same email from `s1` and `s2`, then `s1`'s disconnect, leave no entry for the email and keep `s2 -> email`; the handlers themselves remove nobody from a room, so the table of `socket.join` calls still holds both sockets |

## Left out

- HTTPS, Express and socket.io setup: certificate reading, CORS and `listen` (server/index.js:1-27, 93-95). This is I/O and library configuration.
- `console.log` calls. They are output only.
- socket.io delivery. The model returns emissions as records addressed to a room name and does not claim they arrive or in what order. socket.io puts each socket in a room named by its own id, and the model does not track this. So an emission addressed to a socket id is stated as addressed to that id, not as received by that socket; `JoinedToTarget` of the `room:join` echo is empty in the model unless some handler joined a room named by that id, although socket.io delivers the echo to the joiner.
- socket.io's automatic removal of a disconnected socket from its rooms. It is library behaviour and not in the handler, so `Disconnect` leaves the table of `socket.join` calls as it was; after a disconnect that table is not socket.io's membership.
- Malformed requests. Emails, room ids and target ids are modelled as strings. In the code, a missing field is `undefined`, which is still stored as a `Map` key. A `null` or `undefined` payload makes the destructuring throw. A number, string or boolean payload does not throw: its fields destructure to `undefined`, and an `undefined` email is stored as a `Map` key, as in the missing-field case. None of these cases is modelled. A string email's truthiness is modelled exactly: only `""` is falsy.
- `let users = []` (server/index.js:32) is never used.
- The matchmaking events the client pages send (`findMatch`, `next`, `chat:message`, `chat:typing`) have no server handler: socket.io ignores them.
- The client pages, the peer-connection wrapper and the context providers. They are UI and browser-API glue and are not part of this model.

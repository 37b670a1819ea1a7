# Signalling relay: registry and call-state machine

A Dafny model of the signalling relay in `server.js`, a Node.js WebSocket
server that brokers the handshake for peer-to-peer video calls. Everything
below the WebSocket plumbing is modelled as one pure step function:

- The **registry** is a JavaScript `Map` from user id to an entry
  `{socket, name, avatar, flag, busy}`. It is modelled as an insertion-ordered
  sequence of id/entry pairs with distinct ids (`OrderedMap.OMap`). `Map.set`
  on a present id keeps its position, and on a new id appends it. `Map.delete`
  removes the one entry and keeps the others in order.
- An **event** is a parsed frame on a connection (`Message`), a frame that is
  not JSON (`Unparsable`), or a connection closing (`Close`).
- `Relay.Step(registry, open, event)` returns the next registry and the
  ordered **outbox** of `(socket, frame)` pairs the event sends. `open` is the
  set of connections whose state is open.

Files:

- `optional.dfy` holds `Option`.
- `ordered_map.dfy` holds the insertion-ordered map. Its operations are
  proved against the unordered map it denotes (`ToMap`).
- `relay.dfy` holds the entities and messages, the reverse lookup from a
  connection to its user, the userlist snapshot and broadcast, one handler
  per state-changing event, and `Step`.
- `scenarios.dfy` holds properties of event sequences. Module `Scenarios`
  covers the edge cases the code exhibits as written. Module `Runs` runs
  any sequence of events and proves by induction that a busy flag persists.

The model keeps these behaviours of the code as they are:

- One connection registered under two ids resolves only to the id that
  comes first in iteration order. That is the first id registered, unless
  the second id already sat ahead of the first in iteration order and so
  keeps its earlier slot.
  The close removes that id only and leaves a stale entry for the other id.
- Registering an id held by another connection rebinds the entry. If that
  was the old connection's only id, the old connection then resolves to
  nobody.
- An idle user's offer to itself is accepted. It marks the sender busy and
  sends the offer back on the sender's own connection.
- A close never clears the busy flag of the closing user's call partner.

Three behaviours a reader might expect do not hold in the code, and the
model follows the code:

- One might expect both call participants to return to idle when either one
  disconnects. The code only removes the disconnecting user's entry, so the
  partner stays busy (`Scenarios.CloseLeavesPartnerBusy`). It stays busy
  until an event names it (`Runs.BusyPersists`).
- One might expect an entry to disappear when its connection closes. With
  two registrations on one connection, the entry later in iteration order
  survives the close (`Scenarios.DoubleRegistrationLeavesStaleEntry`).
- One might expect the snapshot to go once to every open connection. The
  code sends it once per registry entry, so a connection bound to two ids
  receives it twice (`Scenarios.SharedSocketGetsTwoSnapshots`). In general, an
  open connection receives one copy per id bound to it
  (`Relay.BroadcastSendsOncePerEntry`).

## Model

| member | source | states |
|---|---|---|
| OrderedMap.Get | server.js:66-67 | The lookup finds nothing exactly when the id is not a key. Otherwise it returns the value stored at that id's position. |
| OrderedMap.Set | server.js:48-54 | A present key keeps its position and takes the new value. A new key is appended last. Every other entry keeps its position. Lookup of the key yields the new value, and lookup of every other key is unchanged. |
| OrderedMap.Delete | server.js:139 | Deleting an absent key changes nothing. Deleting a present key removes exactly its entry and keeps the rest in order. The key is no longer found, and every other lookup is unchanged. |
| OrderedMap.GetAgreesWithToMap | server.js:7 | Lookup in the ordered registry agrees with lookup in the unordered map it denotes. |
| OrderedMap.SetIsMapUpdate | server.js:48-54 | `Map.set` on the ordered registry is map update on the denoted map. |
| OrderedMap.DeleteIsMapRemoval | server.js:139 | `Map.delete` on the ordered registry is key removal on the denoted map. |
| Relay.FindBySocket | server.js:28-35 | Finds the first entry in iteration order whose connection is the given one. Finds nothing exactly when no entry is bound to that connection. |
| Relay.MarkBusy | server.js:74-75 | Setting a busy flag changes that flag only. Ids, order, connections and display fields stay as they were. The named entry gets the new flag, other entries are unchanged, and an absent id stays absent. |
| Relay.Snapshot | server.js:10-19 | The userlist has one row per registered id, in registry order, with no id twice. Each row shows that id's name, avatar, flag and busy flag. |
| Relay.Deliver | server.js:21-25 | Every frame sent goes to an open connection that some entry is bound to. Every entry whose connection is open is sent the frame. |
| Relay.DeliverSendsOncePerEntry | server.js:21-25 | An open connection is sent as many copies as there are entries bound to it. A closed connection is sent none. |
| Relay.Broadcast | server.js:9-26 | The presence broadcast sends only the userlist snapshot of the current registry. It reaches exactly the open connections bound to some entry. |
| Relay.BroadcastSendsOncePerEntry | server.js:9-26 | The presence broadcast reaches an open connection once for every id bound to it, and never reaches a closed one. |
| Relay.OnRegister | server.js:46-56 | After `register`, the id is bound to the registering connection, idle, with missing name, avatar and flag set to empty. A known id keeps its position and a new id is appended. No other entry changes. The outbox is the presence broadcast of the new registry. |
| Relay.OnOffer | server.js:64-84 | An offer to an unknown id does nothing. An offer to a busy id only sends `busy{userId}` to the sender. An offer to an idle id makes sender and target busy and changes nothing else. It then broadcasts, and afterwards sends `offer{from, sdp}` to the target's connection. |
| Relay.OnEndCall | server.js:107-120 | The sender becomes idle whether or not the target exists. A known target becomes idle and first gets `call-ended{from}`. Only busy flags change, only for these two users. The presence broadcast always follows. |
| Relay.Dispatch | server.js:59-133 | For a registered sender, the frame acts for the first entry bound to its connection (`fromId`). `offer` and `end-call` run the offer and end-call handlers for that sender. `answer`, `ice-candidate` and `chat` never change the registry or broadcast. Each sends at most one frame, to the target's connection, and sends it exactly when the target exists. The frame carries the sender's id and the payload verbatim. A chat's `fromName` falls back to `User <id>` and its message to empty. Unknown types do nothing. Only `offer` and `end-call` may change the registry or broadcast. |
| Relay.OnClose | server.js:136-142 | A close removes only the first entry bound to the connection, then broadcasts. A connection with no entry changes nothing. Every remaining entry, busy flag included, is unchanged, and no frame other than the userlist is sent. |
| Scenarios.RegisterStep | server.js:46-57 | A `register` frame runs the register handler whatever the registry holds, bound connection or not. |
| Scenarios.CloseStep | server.js:136-142 | A close runs the close handler. |
| Relay.Step | server.js:38-63 | An unparsable frame does nothing. A non-register frame on a connection with no entry does nothing. A non-register frame is attributed to the first entry bound to its connection. Only `register`, `offer`, `end-call` and close change the registry or broadcast. A register and a close run their handlers (`Scenarios.RegisterStep`, `Scenarios.CloseStep`). |
| Scenarios.RegisterBindsOnlyThatId | server.js:46-56 | After a registration from a connection no entry was bound to, whatever display fields it carries, the only entry bound to that connection is the registered id's. |
| Scenarios.BoundToBoth | server.js:46-54 | After an unbound connection registers two distinct ids, the entries bound to it are exactly those two ids'. |
| Scenarios.FirstOfBound | server.js:28-35 | When exactly two ids are bound to a connection, it resolves to whichever of them comes first in iteration order. The other comes later and is still bound to it. |
| Scenarios.FirstOfTwo | server.js:28-54 | After two registrations from an unbound connection, it resolves to the first of the two ids in iteration order. A second id that is new comes after the first. A second id already held elsewhere keeps its earlier slot, so when the first id is new the second one wins. |
| Scenarios.DoubleRegistrationLeavesStaleEntry | server.js:136-142 | One connection registers under two distinct ids. Its frames then speak for whichever id comes first in iteration order, which is the first id registered when the second is new. Its close removes only that id. The other entry remains, bound to the closed connection. |
| Scenarios.CloseLeavesPartnerBusy | server.js:136-142 | After an accepted offer, the caller's close removes the caller but leaves the callee busy. That close sends nothing but userlists. |
| Scenarios.RebindOrphansOldSocket | server.js:46-60 | Suppose the old connection held only this id. Re-registering the id from another connection then leaves the old connection bound to nobody, so its later frames and its close change nothing. |
| Scenarios.SharedSocketGetsTwoSnapshots | server.js:21-25 | With two entries bound to the same open connection, the broadcast sends that connection the snapshot twice. |
| Scenarios.SelfOfferIsAccepted | server.js:64-84 | An idle user's offer to itself marks it busy. The last frame sent is the offer, on its own connection. |
| Runs.StepKeepsBusyEntry | server.js:59-142 | A busy user's entry is left exactly as it was by any event that does not name it. Naming it means registering its id, an end-call to it or from it, or closing the connection that resolves to it. |
| Runs.BusyPersists | server.js:38-142 | Over any sequence of events, a busy user stays busy, with its entry unchanged, as long as no event names it. A partner's disconnect alone never frees it. |

## Left out

- WebSocket server construction and the port read from the environment (server.js:2-4) are left out. They are I/O.
- The startup log line (server.js:145) is left out. It is I/O.
- `JSON.parse` is left out. Inbound frames are an already-parsed datatype, and a frame that fails to parse is the `Unparsable` event, which does nothing.
- `JSON.stringify` is left out. Outbound frames are a datatype.
- A frame that is valid JSON but parses to `null` is not modelled. It passes the parse at server.js:40-44, then reading `data.type` at server.js:46 throws. No listener catches the exception, so it escapes the handler and can end the process. No `Event` value stands for such a frame. Other non-object JSON values (numbers, strings, booleans) have no `type`, so they act like `Unrecognized`.
- `String(...)` coercion of ids is left out. Ids are strings, so a missing `userId` or `to`, which the code turns into the string `"undefined"`, is not distinguished.
- JavaScript truthiness is modelled only for strings. Optional fields are `Option<string>`, and `x || ''` is `GetOr("")`. A truthy non-string value, which the code would store as is, is not representable.
- Socket `readyState` is the `open` set supplied with each step. Only the broadcast consults it. The set is not tied to the event. When the close handler runs, its connection is already closed, so for `Close(s)` the real handler sees `s` outside `open` and its broadcast at server.js:140 never reaches `s`, not even through a stale entry still bound to `s`. Every property here holds for any `open`, that case included. Direct sends are always emitted, and send failures are not modelled.
- The SDP and ICE-candidate payloads are opaque `Payload` values forwarded verbatim. An absent payload field is not distinguished.
- Concurrency is left out. Node runs one event handler at a time, so each step is atomic.
- Relay.Deliver: the contract does not state the order of sends across connections. `Relay.DeliverSendsOncePerEntry` states how many copies each connection receives.
- Relay.Broadcast: the contract does not state the order of sends across connections. `Relay.BroadcastSendsOncePerEntry` states how many copies each connection receives.

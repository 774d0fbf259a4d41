# Textura document registry and session handlers, in Dafny

Textura is a minimal collaborative text editor server. It keeps every
document in one in-memory map from document id to `{ text, users }`. The
map's `users` field is the set of socket ids that joined the document.
Four pieces of logic act on this map:

- `GET /new` draws up to ten generated names until one is unused, then
  inserts an empty document.
- The socket `join` handler checks that the document exists, records it as
  the connection's current document, adds the socket to `users`, and sends
  `load` and `userCount`.
- The `edit` handler replaces the text wholesale (last writer wins) and
  sends `update` to the room without the sender.
- The `disconnect` handler removes the socket from its current document
  and sends the new `userCount`. When the document becomes empty it
  schedules a callback. When that callback fires, it deletes the document
  only if the document still exists and is still empty.

The model has four modules:

- `Documents` holds the data model (`Doc`, `Table`, the emitted messages)
  and one step function per handler. Each step gives the new map, the
  connection's current document, the messages sent and any timer scheduled.
  Their `ensures` clauses state what each handler changes and sends.
- `Server` is the imperative form. Class `Registry` owns the `documents`
  map; class `Session` is one connection with its `currentDocId`. Their
  methods update the map in place and are proved to perform the steps of
  `Documents`. The `do … while` allocation loop is the method
  `Registry.Draw`, proved against `Documents.FirstFree`.
- `Lifecycle` holds lemmas that relate several steps.
- `Traces` treats the single-threaded event loop as sequences of actions.
  It proves by induction that a document is removed only by a timer that
  fires while the document has no users, and that a document's text is
  the last edit sent to it. A run may contain a timer at any point and
  messages from a connection after its disconnect. The program never
  produces either, so what holds for every run holds for the program.
- `Server.SharedEditingScenario` drives the classes through one session:
  two editors, a late joiner and a join to an unknown id.

Messages are returned as a list of `Emission(recipient, message)` values.
The recipient is `Caller`, `Room(id)` or `RoomExceptCaller(id)`, standing
for `socket.emit`, `io.to(id).emit` and `socket.to(id).emit`.

Inputs the code gets from outside become parameters:

- The random name generator becomes a sequence `draws` of candidate ids.
  Draw `i` is the `i`-th call of `generateDocId`. Since the generator
  always returns a name, every allocation has `MaxAttempts` (10) draws
  available.
- The 300000 ms `setTimeout` becomes an explicit reclamation step.
  `Disconnect` returns the id the timer will examine. The callback reads
  the closure variable `currentDocId` when it fires, but no handler of a
  disconnected socket runs again, so that value is the one the disconnect
  saw.

Behaviours of the code that the model keeps as they are:

- A second `join` on one connection overwrites `currentDocId` without
  removing the socket from the earlier document's `users`. Disconnect then
  leaves only the last-joined document. So a socket can be a user of two
  documents at once, and the earlier document is never reclaimed on its
  account (`Lifecycle.SecondJoinLeavesEarlierMembership`). Each
  connection being in at most one participant set is therefore not an
  invariant of this code.
- `disconnect` does not clear `currentDocId`.
- The disconnect guard `!currentDocId` is JavaScript truthiness, so a
  current document whose id is the empty string counts as "never joined"
  (`Documents.Truthy`, `Lifecycle.EmptyIdDisconnectIsNoOp`).
- `userCount` is also sent when the room has just become empty.

## Model

| member | source | states |
|---|---|---|
| Documents.FirstFree | index.js:37-44 | The draw at which allocation stops is below 10 and is the first draw not in the registry: every earlier draw is taken. None exactly when all 10 draws are taken. |
| Documents.AllocateStep | index.js:36-46 | Fails with status 500 and "Unable to generate unique document ID" exactly when all 10 draws are taken, and then the registry is unchanged. On success the id is the first free draw, was absent before, now maps to text "" with no users, and every other entry is unchanged. |
| Documents.JoinStep | index.js:61-73 | An unknown id sends only `error "Document not found"` to the caller and changes neither the registry nor the current document. Otherwise the socket is added to that document's users, its text and every other entry are kept, and the current document becomes the id. `load` with the stored text goes to the caller and `userCount` with the new set size goes to the room. |
| Documents.EditStep | index.js:75-79 | An unknown id changes nothing and sends nothing. Otherwise only the text of that document is replaced, its users and every other entry are kept, and `update` with the new text goes to the room without the sender. The connection's current document is neither consulted nor changed. |
| Documents.DisconnectStep | index.js:81-95 | No-op when the current document is null, empty or no longer registered. Otherwise only this socket is removed, from the last-joined document only. Text and other entries are kept, and the room is sent `userCount` equal to the new set size. A reclamation timer for that document is scheduled exactly when the set became empty. |
| Documents.ReclaimStep | index.js:88-93 | Deletes the document exactly when it is still present with an empty user set, keeping every other entry. Otherwise the registry is unchanged. |
| Server.Registry.constructor | index.js:23-24 | The registry starts as the empty map. |
| Server.Registry.Draw | index.js:37-42 | Makes between 1 and 10 draws and returns the last one drawn. Every earlier draw was taken, and it stops early only at a free id. The result agrees with `FirstFree`. |
| Server.Registry.Allocate | index.js:36-48 | The map and response are those of `AllocateStep`. On failure the map is unchanged; on success it gains exactly the new id, mapped to an empty document. |
| Server.Registry.Reclaim | index.js:88-92 | The map becomes `ReclaimStep` of the old map. |
| Server.Session.constructor | index.js:58-59 | A new connection has no current document. |
| Server.Session.Join | index.js:61-73 | Registry, current document and emissions are exactly those of `JoinStep` from the old state. |
| Server.Session.Edit | index.js:75-79 | Registry and emissions are those of `EditStep`; the current document is not modified. |
| Server.Session.Disconnect | index.js:81-95 | Registry, emissions and scheduled timer are those of `DisconnectStep`; the current document is not cleared. |
| Lifecycle.RepeatedJoinIsStable | index.js:67-72 | Joining the same document a second time leaves the registry, the current document and the emissions as after the first join, so the user set does not grow. |
| Lifecycle.EditThenJoinLoadsEdit | index.js:71-77 | After an edit of an existing document, any later join of it receives `load` with the edited text. |
| Lifecycle.ReclaimIsIdempotent | index.js:89-90 | Running reclamation twice has the effect of running it once. |
| Lifecycle.ReclaimSparesOccupied | index.js:89 | A reclamation that fires while the document has a user changes nothing. |
| Lifecycle.LastLeaveThenReclaimRemoves | index.js:84-90 | When the only user leaves, `userCount 0` is sent to the room and a timer is scheduled. Firing that timer removes the document. |
| Lifecycle.RejoinWithinGraceKeepsDocument | index.js:69-89 | If the last user leaves and any connection (whatever its current document) joins before the timer fires, the timer is a no-op, and the text and the joiner's `load` are those from before the leave. |
| Lifecycle.SecondJoinLeavesEarlierMembership | index.js:67-84 | After joining document A, then document B, then disconnecting, the socket is still in A's users but not in B's, and reclaiming A does nothing. |
| Lifecycle.EmptyIdDisconnectIsNoOp | index.js:82 | A connection whose current document id is the empty string disconnects without any effect, as if it had never joined. |
| Traces.Step | index.js:36-95 | An allocation, join, edit or disconnect never removes a registered document. A firing timer never adds one and touches no connection. |
| Traces.PersistsUntilReclaimed | index.js:46-90 | A registered document stays registered through any run in which every reclamation timer for it fires while it has a user; late timers that find it occupied are allowed. |
| Traces.LastWriterWins | index.js:46-90 | Through any run in which no timer fires while the document has no users, its text afterwards is that of the run's last edit to it, or the earlier text if the run has no such edit. |
| Traces.NewDocumentHoldsLastEdit | index.js:36-90 | A document created by `GET /new` stays registered until a timer for it fires while it has no users. Until then its text is the last edit sent to it, or "" if there was none. |
| Traces.LateTimerAfterRejoin | index.js:84-90 | When the only user leaves, a timer is scheduled. If another connection then joins and the timer fires, the run meets the late-timer hypothesis and the document is still registered. |

## Left out

- Express setup, static file serving, the `Cache-Control` header, the `/` and `/:docId` routes and the HTTP redirect: HTTP plumbing. A successful allocation is modelled as `Created(id)` rather than a 302 to `/id`.
- The socket.io transport: connection events, room membership and message delivery. Emissions are modelled as descriptors naming their recipients.
- `unique-names-generator` and its "animal-color" lowercase format: a foreign library whose wordlists are not visible. Its output is the input sequence `draws`.
- Real time and the 300000 ms delay: reclamation is an explicit step, which in `Traces` may happen at any point of a run.
- `console.log`, `process.env.PORT` and `server.listen`: I/O and process start-up.
- Malformed messages (a missing `docId`, non-string text): ids and texts are typed as strings.

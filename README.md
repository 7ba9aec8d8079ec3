# Group chat relay: a Dafny model of the server logic

This project models the server side of a WebSocket group chat relay whose
transcript lives in a key-value store (Redis in the original code). Three
pieces are modelled:

- **The connection registry** (`ConnectionManager`). It maps each session
  identity to a connection handle and broadcasts a payload to every entry.
- **The per-connection protocol handler** (`websocket_endpoint`). It reads
  frames in a loop. It has no identity at first. A frame with a `username`
  key joins. Any other frame is a chat send. A disconnect unregisters the
  identity and announces it.
- **Transcript persistence.** At startup the transcript is loaded from one
  fixed key. The whole transcript is written back to that key after every
  send and again at shutdown.

Modules, leaf first:

- `ChatTypes` (`types.dfy`) holds the values. These are the `Message`
  record, the parsed inbound frames (`JoinFrame`, `SendFrame`,
  `Unparseable`) and the outbound frames. An outbound frame is plain `Text`,
  a `Chat` message, or a system `Notice`. This module also builds the
  session identity `name#suffix`.
- `Registry` (`registry.dfy`) holds the `ConnectionManager` class and the
  `Transport` class. `Transport` records the frames written to each
  connection, in an `outbox` map. This module also holds the specification
  functions `Removed` and `Delivered`, with their lemmas.
- `History` (`history.dfy`) holds the store as a map from key to decoded
  transcript. It has `Load` and `Save`, message numbering (`NextMessage`,
  `AppendSends`, `Gapless`) and the join replay (`Replay`).
- `Server` (`server.dfy`) holds the shared process state (`ChatServer`:
  manager, network, transcript, store) and one `Endpoint` per accepted
  WebSocket. An `Endpoint` holds the handler's local `username` and its
  phase: running, closed by a disconnect, or aborted by an exception.

Each handler event is one atomic step on the shared state: a `Receive` of
one frame, or a `Close`. The random suffix and the clock reading are
parameters.

`ChatServer.Valid()` is the standing invariant. It has two parts:

- Every registered handle is an accepted connection.
- `Load(store) == history`: the store always mirrors the in-memory
  transcript. This holds even when the key was absent at startup.

In these places the code behaves differently from what a chat relay might
be expected to do, and the model follows the code:

- **No failure isolation.** `broadcast` has no per-recipient error handling.
  It does not defer removal of failed handles, and it sends no roster
  (`user_list`) updates. The model claims none of these.
- **Bad frames end the handler.** This covers data that is not JSON, a send
  frame without `content`, and a send before any join (`Message` cannot be
  built with `username=None`). Each raises an exception that the handler
  does not catch, so it ends without cleanup. The model calls this `Aborted`.
  If the connection had joined, its identity stays registered.
- **A second join leaks the first identity.** The old entry stays in the
  registry, so the same handle sits under two identities. Broadcast goes
  over the registry's values, so that connection gets every later broadcast
  once per identity. `Delivered` counts copies by `Multiplicity`, and
  `RejoinDuplicates` proves the doubling. When no handle is shared
  (`Injective`), each registered connection gets exactly one copy
  (`DeliveredOnce`, `JoinOrder`, `LeaveNotice`).
- **Ids are gapless only from a gapless start.** A message id is the
  transcript length plus one. So ids are gapless only if the loaded
  transcript was (`SendKeepsGapless`, `SendsFromEmpty`). A stored transcript
  with other ids is taken as it is.

## Model

| member | source | states |
|---|---|---|
| `ChatTypes.Identity` | server.py:80 | the identity is `name`, `#`, then the six-character suffix. `SplitIdentity` recovers both parts from it. It is never the system username |
| `ChatTypes.IdentityInjective` | server.py:80 | equal identities come from equal names and equal suffixes |
| `Registry.Removed` | server.py:54-56 | removing an identity drops exactly that key, whether or not it was present. Every other entry keeps its handle |
| `Registry.RemovedIdempotent` | server.py:54-56 | disconnecting twice leaves the same registry as disconnecting once |
| `Registry.Repeat` | server.py:60-61 | `n` copies of one frame. A broadcast appends this to each outbox |
| `Registry.Delivered` | server.py:59-61 | a broadcast keeps the set of connections the same. It only appends to outboxes, and only copies of the payload. A connection with no registry entry gets nothing |
| `Registry.MultiplicityInjective` | server.py:59-61 | when no handle is shared, a registered connection is the target of exactly one entry and any other connection of none |
| `Registry.DeliveredOnce` | server.py:59-61 | when no handle is shared, a broadcast appends the payload exactly once to each registered connection and nothing to the others |
| `Registry.DeliveredCount` | server.py:59-61 | a broadcast appends to each outbox exactly as many frames as there are registry entries pointing at that connection |
| `Registry.SharedHandleDoubles` | server.py:51 | a handle stored under two identities is the target of at least two entries, so by `DeliveredCount` it gets every broadcast at least twice |
| `Registry.ConnectionManager.constructor` | server.py:46-47 | the registry starts empty |
| `Registry.ConnectionManager.Connect` | server.py:50-51 | the entry for the identity is set to the handle, overwriting any earlier one. All other entries are unchanged |
| `Registry.ConnectionManager.Disconnect` | server.py:54-56 | the new registry is `Removed(old, identity)`. Nothing happens if the identity is absent |
| `Registry.ConnectionManager.Broadcast` | server.py:59-61 | the loop over the registry leaves the outboxes equal to `Delivered(old outboxes, registry, payload)`. The registry is not modified |
| `Registry.Transport.Accept` | server.py:73 | an accepted connection starts with an empty outbox |
| `Registry.Transport.SendText` | server.py:61 | one frame is appended to one connection's outbox, and nothing else changes |
| `History.Save` | server.py:96 | writing the transcript makes `Load` return exactly that transcript. Only the fixed key changes |
| `History.SaveOverwrites` | server.py:96 | a save overwrites the previous save and never appends to it |
| `History.GaplessIncreasing` | server.py:90 | in a gapless transcript ids strictly increase, so they are unique |
| `History.SendKeepsGapless` | server.py:90-95 | a send onto a gapless transcript keeps it gapless |
| `History.AppendSendsSpec` | server.py:89-95 | after k sends, the transcript is the old one followed by k messages. The j-th new message has id `old length + j + 1`, and its username, timestamp and content come from send j |
| `History.AppendSendsSnoc` | server.py:89-95 | one more send appends exactly the message that `NextMessage` builds for it. This links single `Receive` steps to `AppendSends` |
| `History.SendsFromEmpty` | server.py:89-95 | from an empty transcript, k sends give ids 1..k in order |
| `History.ReplayAt` | server.py:86-87 | the replay has one frame per transcript message, carrying that message in transcript order |
| `Server.AfterJoin` | server.py:79-87 | after a join, the connection set is unchanged. The joiner's outbox ends with the "Connected as" text, then one "joined" notice per entry pointing at it, then the full replay. Every other connection gets the notice once per entry pointing at it |
| `Server.JoinOrder` | server.py:79-87 | when no handle is shared, the joiner's outbox ends with exactly the confirmation, the "joined" notice and the replay. Every other registered connection gets the notice once |
| `Server.ConnectFreshKeepsInjective` | server.py:50-51 | registering a handle that had no entry keeps handles unshared |
| `Server.RejoinDuplicates` | server.py:79-81 | a second join on one connection keeps the first identity registered. A broadcast over the new registry then appends at least two frames to that connection's outbox |
| `Server.LeaveNotice` | server.py:100-105 | when no handle is shared, the "left" notice reaches each remaining registered connection once. The departing connection does not get it |
| `Server.ChatServer.constructor` | server.py:37-42 | startup takes the stored transcript if the key exists, and the empty transcript otherwise. The registry and the network start empty |
| `Server.ChatServer.ReplayTo` | server.py:86-87 | the replay loop appends `Replay(history)` to the joiner's outbox and to no other |
| `Server.ChatServer.Shutdown` | server.py:108-111 | shutdown writes the whole transcript to the fixed key and leaves the transcript unchanged |
| `Server.Endpoint.constructor` | server.py:72-74 | an accepted connection has no identity and an empty outbox |
| `Server.Endpoint.Receive` | server.py:76-97 | A join sets the identity and registers it. The outboxes become `AfterJoin`, and the transcript and store are unchanged. A send on a joined connection appends `NextMessage`, with id `len+1`, the current identity and the frame's content. It leaves the store equal to `Save` of the new transcript, broadcasts the message, and keeps gaplessness. Any other frame aborts the handler and changes no shared state |
| `Server.Endpoint.Close` | server.py:99-105 | with an identity, the identity is removed and the "left" notice is broadcast over the remaining registry. Without one, nothing shared changes. The transcript is never touched |

## Left out

- Framework wiring: the FastAPI app, CORS middleware, the HTML page
  (`read_root`, which reads `index.html`) and `uvicorn.run`. This is
  infrastructure with no chat logic.
- The Redis client. It is a map from key to decoded transcript with
  exists/get/set semantics.
- JSON encoding and decoding of frames, transcript and notices. Inbound
  frames arrive parsed; outbound frames are datatypes.
- Exotic JSON values are not distinguished. For example, a JSON list that
  contains the string "username", or a non-string `username` or `content`.
  Names and contents are strings, and non-objects are `Unparseable`.
- `uuid.uuid4()` and `datetime.now()`/`utcnow()`. The suffix and the
  timestamp are method parameters. The suffix is required to be six
  lower-case hex digits, which is the guaranteed shape of `uuid4().hex[:6]`.
  The two clocks are not told apart.
- Registry.ConnectionManager.Broadcast: does not model `send_text` raising
  on a dead peer. Every send succeeds in the model. In the code such an
  exception would escape into the calling handler.
- Registry.ConnectionManager.Broadcast: visits registry entries in an
  arbitrary order rather than dict insertion order. Each connection's own
  outbox does not depend on that order. Interleaving across connections is
  not modelled.
- Concurrency: asyncio `await` points and interleaving between connection
  tasks. This includes an insertion or removal during a broadcast's
  iteration, which Python reports as a RuntimeError; an overwrite of an
  existing entry goes undetected. Each handler event is one atomic step.
- What happens to an `Aborted` handler's socket afterwards. The model only
  records that the handler ends without cleanup.
- static/chat.js is not part of this model. It is browser user-interface
  code.

# Post service status mirror, modelled in Dafny

The post service keeps a single in-memory string, the mirrored status of the
profile service. The cell starts at the safe default `"down"`. At startup it is
seeded once from the key `profile_service_status` in the key-value store.
After that, a background listener on the channel
`profile_service_status_updates` overwrites it with every data message.
The HTTP endpoint `GET /` reads it. It answers 200 `{"message": "hello from post service"}`
only when the cell is exactly `"up"`. Otherwise it answers 503 `{"message": "not available"}`.

The model has three modules:

- `StatusCache` (`status_cache.dfy`): the cell, the store read result
  (`Value` / `Missing` / `StoreError`), the pub/sub message, the response, and
  the three transitions `Bootstrap`, `Apply` and `Respond`.
- `Listener` (`listener.dfy`): the listener thread as a sequential trace of
  atomic writes. `Replay` is the left fold of `Apply`. `LastData` is an
  independent right-to-left definition of "the last payload". `Listen` is
  the loop itself. The lemmas tie the three together.
- `Service` (`service.dfy`): startup (bootstrap, then start the listener) and
  a run over a trace of events. Each event either delivers a message or serves
  a request.

Python's `if value:` on the decoded store value is modelled by `Truthy`.
`None` and `""` are falsy; every other string is truthy. Requests return no
new cell, so the endpoint is read-only by construction.
`QueryIsReadOnly` states this at the level of a whole run.

## Model

| member | source | states |
|---|---|---|
| StatusCache.Initial | post.py:51-53 | a fresh cell is not "up" |
| StatusCache.DefaultIsUnavailable | post.py:51-53 | a fresh cell is answered 503 "not available" |
| StatusCache.Bootstrap | post.py:84-102 | a truthy store value replaces the cell; a missing value, an empty string or a store error leave it unchanged; the result is the old cell or a non-empty store value |
| StatusCache.BootstrapFailureKeepsCell | post.py:93-102 | an absent value, an empty value or a store error keep any cell as it was, so a fresh process still answers 503 |
| StatusCache.BootstrapIsDataWrite | post.py:87-88 | a truthy bootstrap value has the same effect as a data message carrying it |
| StatusCache.EmptyPayloadAsymmetry | post.py:87 | the empty string is ignored by the bootstrap but stored verbatim by the listener |
| StatusCache.Apply | post.py:65-70 | a "message"-type event sets the cell to its payload without validation; any other type leaves the cell unchanged |
| StatusCache.ApplyIdempotent | post.py:69-70 | applying the same message twice gives the same cell and response as applying it once |
| StatusCache.Respond | post.py:117-125 | 200 with the greeting if and only if the cell equals "up"; every other cell gives 503 "not available" |
| StatusCache.GateIsExactMatch | post.py:119-125 | "up" is available; "down", "", "Up", "up " and "degraded" are all unavailable |
| Listener.LastData | post.py:65-70 | the last data payload of a trace exists exactly when some message carries data, and no data message follows it |
| Listener.ReplayAppend | post.py:65-70 | processing a trace in two pieces is the same as processing it at once |
| Listener.ReplayIsLastWrite | post.py:65-70 | last write wins: after a trace the cell holds the payload of its last data message, or the prior value if there is none |
| Listener.ControlOnlyKeepsCell | post.py:66-67 | a trace of control messages only leaves the cell unchanged |
| Listener.ControlMessageIsNoOp | post.py:66-67 | a control message can be removed from anywhere in a trace without changing the outcome |
| Listener.DuplicateDeliveryIsNoOp | post.py:69-70 | a message delivered twice in a row has the effect of one delivery anywhere in a trace |
| Listener.ReplayIdempotent | post.py:65-70 | replaying a trace a second time leaves the cell as the first replay did |
| Listener.LastDataAfterWrite | post.py:65-70 | a data message followed only by control messages is the last write |
| Listener.Listen | post.py:65-70 | the loop ends holding the payload of the last data message, or the starting cell when there is none, and agrees with the fold |
| Service.Startup | post.py:82-111 | the cell after startup is the truthy store value, else the default "down"; that the listener is started holds by construction, since the one source path that skips it is not modelled |
| Service.RunCellIsReplay | post.py:117-125 | requests do not write the cell: after a run it is the listener's fold over the delivered messages, with one response per request |
| Service.RunSnocQuery | post.py:118-125 | a request at the end of a run is answered from the cell that run left, and changes nothing |
| Service.QueryIsReadOnly | post.py:117-125 | removing a request from anywhere in a run leaves the final cell unchanged |
| Service.ResponseFollowsLastWrite | post.py:51-125 | a request after startup is answered 200 exactly when the last write (payload, else truthy bootstrap value, else default) is "up", and 503 otherwise |
| Service.FailedBootstrapServesUnavailable | post.py:84-111 | after a failed or empty bootstrap with no data message, the cell is the default and every request is answered 503 (the listener flag is true by construction) |
| Service.RunCellIsCurrent | post.py:51-102 | the cell after startup and a run is the last write: the last payload delivered, else the truthy bootstrap value, else "down" |
| Service.RunPrefix | post.py:117-125 | later events never change the responses already given to earlier requests |
| Service.QueryAnsweredFromLastWrite | post.py:119-125 | every request in a run, wherever it occurs, is answered 200 exactly when the last write before it is "up", and 503 otherwise |
| Service.LaterWriteOverrides | post.py:65-70 | a data message followed by no other data message decides the run's final cell, over earlier messages and the bootstrap value |
| Service.MessagesAppend | post.py:65 | the listener's view of a concatenated run is the concatenation of the views |
| Service.NoDataInMessages | post.py:66-67 | a run with no data delivery gives the listener no data message |

## Left out

- The web framework: app construction, the startup hook and routing (post.py:5-6, 23, 81, 117). Only the gate is modelled. The 200 status is the framework's default for a returned dict.
- The store client: client construction, timeouts, `subscribe`/`listen` and the `get` call itself (post.py:39-45, 60-61, 85). The read result is the input `StoreRead`, and the subscription is a given finite sequence of messages.
- Threads and daemon semantics (post.py:105-109). The listener is a sequential trace of atomic writes. Races and messages lost between the startup read and the subscription are not modelled.
- Logging (post.py:13-17, 63, 72-75, 89-102), which has only side effects.
- Environment configuration (post.py:29-33): host, port and the key and channel names.
- Loss of the subscription connection, and exceptions other than store errors during startup. The source gives them no behaviour. Such an exception is the only path that would skip starting the listener, so `State.listening` is always true in the model.
- The payload of a control message: the store client reports an integer count there, but the listener never reads it. `Message.data` is a string for every message type.

# VRC9xx client core in Dafny

This project models the core of `VRC9xxAPI`, a client for the Vaillant VRC9xx
heating-control cloud API. It models four pieces:

- **request executor** (`query` / `executeQuery`): up to three attempts with a linear back-off of 5000 ms per attempt. Only HTTP 200 counts as success. After three failures it calls `logIn` and makes one last attempt.
- **session logic** (`logIn`): a token is requested only when none is held. The token is then stored, the password is moved out of the credential object, and the session is authorised.
- **write-command queue** (`enqueueCommand` / `processQueue`) and the five setters that feed it. A command replaces a pending command for the same URL where it stands; otherwise it is appended. Only one drain timer is armed at a time. The drain executes the head of the queue one command at a time.
- **snapshot aggregation** (`getFullState`): the four reads are merged. Zones and hot-water circuits are indexed by `_id`, and each circuit gets the `TEMPERATURE` reports of its device.

Modules:

- `Js` — JavaScript values: JSON, `undefined` as `None`, truthiness, property access that throws on `null`/`undefined`.
- `Http` — requests, replies and a scripted `Transport` class. It answers each request with the next reply of a script and logs every exchange with the delay the request waited.
- `Executor` — `executeQuery`, `query` and `logIn` as functions of the client's state (`World`), with the lemmas about them.
- `CommandQueue` — coalescing, the timer and the drain as functions on sequences, with their lemmas.
- `Setters` — the five setters' endpoints and commands.
- `StateAggregator` — `getFullState` as a function of its four reads.
- `Client` — the class `Api`. It holds the fields the source updates in place (`auth`, `password`, `commands`, `timer`) and the transport. Its methods (`Query` with its `while (count < 3)` loop, `LogIn`, `EnqueueCommand`, `ProcessQueue` with its drain loop, the setters) are proved to produce exactly the results and new state that the `Executor` and `CommandQueue` functions describe.

Where the code does not do what its structure suggests, the model follows the code:

- **`query` never resolves to `null`, and `logIn` never returns `false`** (`Executor.RetryShape`, `Executor.LogInShape`). A query resolves only with a 200 response; on any other path it rejects. So the `return false` branches of `logIn` (lines 86 and 95) and the `return null` of `query` (line 48) are unreachable. A failed re-login makes `query` reject instead of returning `null`.
- **The last attempt after a re-login is not guarded** (line 45). When it fails, `query` rejects.
  - In `processQueue` a rejection ends the drain.
  - The timer is then never cleared, so no later `enqueueCommand` arms a drain again: the queue is wedged. The rejected `processQueue` promise is never handled; "wedged" assumes the runtime does not treat an unhandled rejection as fatal. See `CommandQueue.Drain`, `Client.Api.ProcessQueue` (the timer stays `Draining`) and `CommandQueue.ArmsOnce` with a timer already set.
- **The password is kept, not discarded** (line 89). It moves from the credential object to the client's `password` field. A re-login nested inside the token request can overwrite that field with `undefined`.
- **`getFullState` is not all-or-nothing.** A failed read yields `null` from `queryBody` rather than a rejection.
  - A failed status or gateway read never fails the snapshot and is passed through into it (`StateAggregator.MissingStatusPassesThrough`).
  - A failed live-report read always fails the snapshot, even with no hot-water entry, because line 148 reads `info.measures.devices` unconditionally (`StateAggregator.MissingMeasuresFails`).
- `case 200: resolve(resp)` falls through to `reject` (lines 58-60). A promise settles once, so this has no effect.

## Model

| member | source | states |
|---|---|---|
| Executor.StoreToken | src/VaillantAPIClient.mjs:88-90 | after a token request, the credential object holds the token and no password; the password it held is stashed on the client; every other credential field is kept, no other field is added, and the transport is unchanged |
| Executor.RetryTrace | src/VaillantAPIClient.mjs:31-48 | the attempts from `count` on stop at the first 200 reply among the at most 3 - `count` remaining attempts; attempt `k` is logged with delay `k * 5000`; after three failures the query goes on to the re-login step with exactly those three attempts logged |
| Executor.QueryWithinAttempts | src/VaillantAPIClient.mjs:31-40 | when one of the first three replies is a 200, the query resolves with the first such reply; every earlier reply failed; exactly the attempts up to it were sent, with delays 0, 5000, ...; credentials and password are untouched |
| Executor.QueryAfterLogin | src/VaillantAPIClient.mjs:42-48 | after three failed attempts the query calls `logIn` once; if it returns true, exactly one more attempt follows, with delay 0, and it resolves with that reply if it is a 200 and rejects otherwise; if `logIn` does not return true, nothing more is sent and the query rejects |
| Executor.RetryShape | src/VaillantAPIClient.mjs:31-48 | a query (from any attempt) never resolves to `null`; when it resolves, it resolves with a 200 reply that is the last exchange it logged, to its own URL; it only appends to the transport log |
| Executor.ExhaustedShape | src/VaillantAPIClient.mjs:42-48 | the same for the re-login step of a query |
| Executor.LogInShape | src/VaillantAPIClient.mjs:79-99 | `logIn` never returns false; when it returns, its last exchange is a 200 reply from the authorise endpoint; it only appends to the log |
| Executor.AuthorizeShape | src/VaillantAPIClient.mjs:92-98 | the authorise step returns only true, right after a 200 reply from the authorise endpoint |
| Executor.RetryKeepsToken | src/VaillantAPIClient.mjs:31-48 | with a token held, a query changes neither credentials nor password and sends only its own attempts and authorise requests: no new token is requested |
| Executor.ExhaustedKeepsToken | src/VaillantAPIClient.mjs:42-46 | the same for the re-login step |
| Executor.LogInKeepsToken | src/VaillantAPIClient.mjs:83-93 | with a token held, `logIn` sends only authorise requests and leaves credentials and password as they were |
| Executor.RetryWithoutPassword | src/VaillantAPIClient.mjs:31-48 | once the password is gone from the credentials, a query whose own body has no password sends no password in any request, nested re-logins included, and never puts it back |
| Executor.ExhaustedWithoutPassword | src/VaillantAPIClient.mjs:42-46 | the same for the re-login step |
| Executor.LogInWithoutPassword | src/VaillantAPIClient.mjs:79-99 | the same for `logIn` |
| Executor.AuthorizeWithoutPassword | src/VaillantAPIClient.mjs:93 | the same for the authorise step |
| Executor.TokenAcquisitionDropsPassword | src/VaillantAPIClient.mjs:83-93 | without a token, the first request of `logIn` goes to the token endpoint with the credentials as they are; once that request resolves with a token field, the password is gone from the credentials and no later request of that `logIn` carries it |
| CommandQueue.FindIndex | src/VaillantAPIClient.mjs:166-168 | the first position holding the URL, or -1 when no pending command has it |
| CommandQueue.Coalesce | src/VaillantAPIClient.mjs:165-175 | the queue after an enqueue contains the command; its URL list is unchanged when the URL was pending and grows by that URL otherwise; every entry for another URL keeps its position |
| CommandQueue.ReplaceInPlace | src/VaillantAPIClient.mjs:165-179 | a command for a pending URL replaces that entry at the same index, keeps the length and all other entries, and arms no timer; a command for a new URL is appended and arms the timer only when none is set |
| CommandQueue.CoalesceUnique | src/VaillantAPIClient.mjs:165-175 | from a queue without duplicate URLs, an enqueue leaves none, and the enqueued command is the only one pending for its URL |
| CommandQueue.CoalesceOthers | src/VaillantAPIClient.mjs:165-175 | an enqueue neither adds nor removes a command for any other URL |
| CommandQueue.EnqueuedKeepsOrder | src/VaillantAPIClient.mjs:165-175 | after any burst of enqueues, the old queue's URLs still come first, position by position, and every pending command was pending before or part of the burst |
| CommandQueue.LastWriteWins | src/VaillantAPIClient.mjs:165-175 | after a burst, for each URL the burst addresses, exactly one command is pending and it is the burst's last command for that URL; URLs the burst does not address keep their commands |
| CommandQueue.ArmsOnce | src/VaillantAPIClient.mjs:177-179 | with a timer set exactly when the queue is non-empty, a burst on an idle queue arms exactly one drain; a burst on a queue with a timer set (scheduled or draining) arms none; a non-empty queue always has a timer |
| CommandQueue.DrainOrderFifo | src/VaillantAPIClient.mjs:182-188 | with nothing enqueued mid-drain, the commands are executed in queue order |
| CommandQueue.DrainOrderKeepsTargets | src/VaillantAPIClient.mjs:182-188 | with commands enqueued mid-drain, the URLs pending at the start are executed first, position by position in queue order |
| CommandQueue.DrainFollowsOrder | src/VaillantAPIClient.mjs:182-191 | the drain issues one query per command in that order; a drain that does not stop early issues all of it and leaves the queue empty; one that stops at a rejected query has issued a non-empty prefix |
| Setters.EndpointShape | src/VaillantAPIClient.mjs:193-261 | every setter's endpoint starts with `/facilities/` and the facility serial and ends in `/` and the setting's leaf segment |
| Setters.SetCommand | src/VaillantAPIClient.mjs:193-261 | every setter enqueues a `put` under `/facilities/<serial>`; its body has exactly one field, named after the URL's last segment, holding the value written |
| Setters.ZoneUrlInjective | src/VaillantAPIClient.mjs:194 | for one facility and setter, two zones get the same endpoint exactly when they are the same zone |
| Setters.DhwUrlInjective | src/VaillantAPIClient.mjs:208 | the same for hot-water circuits |
| Setters.EndpointMarker | src/VaillantAPIClient.mjs:193-261 | each of the five endpoints, for any facility and zone or circuit, has its own character at the 14th position from the end |
| Setters.EndpointsDistinct | src/VaillantAPIClient.mjs:193-261 | two different setters never target the same URL, whatever the facilities and zones, so their commands never replace each other; one setter's URL determines the zone or circuit |
| Setters.TemperatureBurst | src/VaillantAPIClient.mjs:193-205 | after a burst of `setTargetTemperature` calls on one zone, exactly one command is pending for that zone's setpoint, carrying the last temperature; the other pending commands stay pending |
| Setters.SingleSetpointDrained | src/VaillantAPIClient.mjs:193-205 | one `setTargetTemperature(serial, "Z1", 21.5)` on an empty queue drains as exactly one put to `/facilities/serial/systemcontrol/v1/zones/Z1/heating/configuration/setpoint_temperature` with body `{setpoint_temperature: 21.5}` |
| StateAggregator.ZipObject | src/VaillantAPIClient.mjs:143 | the key set of `_.zipObject(keys, values)` is the set of keys |
| StateAggregator.ZipObjectLastWins | src/VaillantAPIClient.mjs:143-146 | a key maps to the value at its last occurrence |
| StateAggregator.ZipObjectFrom | src/VaillantAPIClient.mjs:143-146 | every value of the map stands, in the input, at the last position carrying its key |
| StateAggregator.IndexEntriesById | src/VaillantAPIClient.mjs:143-146 | the indexed zones (or circuits) have exactly the entries' ids as keys; each id maps to an entry with that id; with distinct ids every entry is found under its own id |
| StateAggregator.IndexEntriesLastWins | src/VaillantAPIClient.mjs:143-146 | when several zones (or circuits) share an id, the index keeps the last of them |
| StateAggregator.FindDevice | src/VaillantAPIClient.mjs:151 | the position of the first device with the id, or -1 when none has it |
| StateAggregator.Temperatures | src/VaillantAPIClient.mjs:153 | the filtered reports are exactly the reports whose category is `TEMPERATURE` |
| StateAggregator.TemperaturesOne | src/VaillantAPIClient.mjs:153 | the filter keeps a single report exactly when its category is `TEMPERATURE` |
| StateAggregator.TemperaturesAppend | src/VaillantAPIClient.mjs:153 | filtering a concatenation is concatenating the filtered parts, so the filter keeps the input's order and repeats |
| StateAggregator.ZipObjectSnoc | src/VaillantAPIClient.mjs:156 | zipping one more key and value sets that key to that value over the earlier zip |
| StateAggregator.ReportIndexSnoc | src/VaillantAPIClient.mjs:153-156 | one more report: a `TEMPERATURE` report takes its id's slot in the configuration; any other report changes nothing |
| StateAggregator.ReportIndexLastWins | src/VaillantAPIClient.mjs:153-156 | each id of the configuration maps to the last `TEMPERATURE` report carrying that id |
| StateAggregator.ConfigurationContents | src/VaillantAPIClient.mjs:149-156 | a circuit's configuration is empty when no device has its id; otherwise its keys are exactly the ids of the first matching device's `TEMPERATURE` reports, each mapping to the last such report with that id |
| StateAggregator.FullStateNullIff | src/VaillantAPIClient.mjs:131-162 | the snapshot is `null` exactly when the system tree is missing or lacks a zone or hot-water list, or the live report is missing, or some circuit cannot be configured (no device list, or its first matching device has no report list) |
| StateAggregator.FullStateContents | src/VaillantAPIClient.mjs:131-160 | a snapshot carries the live report, status and gateway as read and the system's other fields; its zones are the indexed zones; its circuits are keyed by exactly the circuit ids, each holding the indexed entry for that id and the configuration computed for it |
| StateAggregator.MissingStatusPassesThrough | src/VaillantAPIClient.mjs:131-160 | for all inputs, whether the snapshot fails does not depend on the status and gateway reads; a snapshot carries them as read, a failed one as missing |
| StateAggregator.MissingMeasuresFails | src/VaillantAPIClient.mjs:148 | a failed live-report read fails the snapshot, even with no hot-water entry |
| StateAggregator.ZonesExample | src/VaillantAPIClient.mjs:143 | zones `Z1`, `Z2` index to exactly the keys `Z1` and `Z2`, each mapping to its entry |
| StateAggregator.DhwConfigurationExample | src/VaillantAPIClient.mjs:149-156 | a device `D1` with a temperature report `r1` and a humidity report `r2` gives circuit `D1` a configuration holding `r1` only |
| Client.Api.constructor | src/VaillantAPIClient.mjs:9-15 | the credential object is the given data; no password is stashed, no command is pending and no timer is set, so the client starts in its invariant |
| Client.Api.ExecuteQuery | src/VaillantAPIClient.mjs:51-68 | one request, delayed `retry * 5000` ms, carrying the current credentials when the body is the credential object; it resolves exactly on a 200 reply |
| Client.Api.Query | src/VaillantAPIClient.mjs:17-49 | the attempt loop and the re-login end in the outcome and state `Executor.Query` gives, so every `Executor` lemma about queries holds of the method |
| Client.Api.LogIn | src/VaillantAPIClient.mjs:79-99 | the token request, the credential update and the authorise step end in the outcome and state `Executor.LogIn` gives |
| Client.Api.EnqueueCommand | src/VaillantAPIClient.mjs:165-180 | the new queue is `Coalesce` of the old one and the timer is `Arm`ed as described there; URLs stay unique, a non-empty queue has a timer, and a scheduled timer has something to drain |
| Client.Api.EnqueueAll | src/VaillantAPIClient.mjs:165-180 | the enqueues that land during a drain: the queue is the burst `Enqueued` into it, and the timer stays set |
| Client.Api.DrainHead | src/VaillantAPIClient.mjs:183-187 | one turn of the drain loop: the head is shifted out and queried, the arrivals are enqueued behind the rest, and the turn reports whether the query rejected |
| Client.Api.ProcessQueue | src/VaillantAPIClient.mjs:182-191 | the drain issues, leaves and ends in exactly what `CommandQueue.Drain` gives; the timer is cleared when the queue empties and stays set when a query rejects; the queue invariant holds afterwards |
| Client.Api.SetTargetTemperature | src/VaillantAPIClient.mjs:193-205 | enqueues the zone-setpoint command |
| Client.Api.SetTargetDhwTemperature | src/VaillantAPIClient.mjs:207-219 | enqueues the hot-water-setpoint command |
| Client.Api.SetTargetReducedTemperature | src/VaillantAPIClient.mjs:221-233 | enqueues the zone-setback command |
| Client.Api.SetHeatingMode | src/VaillantAPIClient.mjs:235-247 | enqueues the zone-mode command |
| Client.Api.SetDhwOperationMode | src/VaillantAPIClient.mjs:249-261 | enqueues the hot-water operation-mode command |

## Left out

- The transport:
  - axios, the cookie jar and the base URL (lines 1-6, 18-25) are replaced by a transport that answers from a script of replies;
  - a script that has run out answers with a network error;
  - requests record their relative URL, method, body and delay.
- Timing and the asynchronous scheduling:
  - `setTimeout` (lines 53, 66, 178) is recorded as the delay of each request, or as the `Scheduled` timer state;
  - the commands enqueued while a drain's query is in flight are an input to the drain (`arrivals`);
  - other interleavings, such as a second client call running while a query is suspended, are not modelled.
- Logging (lines 11, 38, 170, 185) has no effect on the state and is not modelled.
- The read helpers:
  - `getFacilities`, `getFullSystem`, `getStatus`, `getEmfLiveReport` and `getGateway` (lines 101-129) differ only in their URL;
  - `getFullState` takes their four results as inputs;
  - `queryBody` (lines 70-77) is represented by those inputs being `None` when the read failed.
- The debug helpers (lines 264-345) are not part of this model.
- The `logIn`↔`query` recursion (lines 43, 84, 93) has no bound in the code:
  - the model bounds its depth with `fuel`;
  - a call that would nest deeper yields `OutOfFuel` (a `LoginOutOfFuel` for `logIn`), which the drain treats as it treats a rejection;
  - of a call that runs out of fuel, only the lemmas stated for every outcome (log growth, token and password handling) say anything.
- Values:
  - `undefined` and a missing field are both `None`;
  - JavaScript numbers are reals, so NaN, infinities and floating-point rounding are not modelled;
  - ids (`_id`) are strings;
  - zone, hot-water, device and report entries are objects;
  - `system.zones`, `system.dhw`, `measures.devices` and `reports` are either lists or are `None`, and `None` throws where the code would throw on a non-list.
- `getFullState` writes `configuration` into the dhw entry objects of the fetched system tree. The model returns a new record with the configuration beside each entry. Aliasing between the entries of the tree is not modelled.
- `Promise.all` (line 133) cannot reject, because the four reads catch their own errors. So its concurrency and failure path are not modelled.

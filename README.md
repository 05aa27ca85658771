# Node agent and test utilities, modelled in Dafny

This project models two parts of the hirte/BlueChi code base.

**The node agent** (`src/agent/agent.c`). The agent answers the orchestrator's
`ListUnits` and `StartUnit` calls by forwarding them to the systemd service
manager. Each forwarded call becomes a reference-counted `SystemdRequest`.
The request is linked into the agent's `outstanding_requests` list until the
service manager's reply arrives. A `StartUnit` request carries a `StartUnitOp`
payload holding the orchestrator's job id. When the reply names a job, the
payload moves into a `JobTracker` on the agent's `tracked_jobs` list. When
systemd's `JobRemoved` signal arrives for that job, the tracker emits
`JobDone` to the orchestrator and is freed.

The model is imperative, as the C code is:

- `Agent`, `SystemdRequest` and `StartUnitOp` are classes whose fields the
  methods update.
- The two intrusive lists are `seq` fields.
- A job tracker is a value (`JobTracker`).
- Every bus primitive is a parameter: a boolean that says whether it
  succeeded, or a `ReadResult` that says what a message read returned.
- The messages the agent sends are appended to `Agent.sent`.

Ghost state follows the `StartUnitOp` payloads. `holder` records, for every
payload ever allocated, which request or tracker is to free it, or that it
has been freed. `freed` logs each run of the destructor. The invariants are:

- `Agent.Valid()`:
  - the agent's reference count equals the external references plus one per
    outstanding request;
  - requests are linked once;
  - every payload has exactly one holder;
  - the destructor has run at most once per payload.
- `Agent.Quiescent()`: `Valid()`, and also every outstanding request is owned
  by its pending reply callback alone. This holds between two steps of the
  event loop.

Every handler and callback is proved to keep `Quiescent()`.

**The test utilities** (`tests/bluechi_test/util.py`) are modelled as pure
functions:

- the two unit-name formatters, with parsers that invert them;
- the shape of a random name;
- a scanner for the ANSI escape-sequence pattern, with `remove_control_chars`
  built on it.

Files:

- `wrappers.dfy`: `Option`.
- `lists.dfy`: sequence helpers for the linked lists, namely index, removal
  and distinctness.
- `bus.dfy`: integer widths, bus errors, downstream replies and outgoing
  messages.
- `agent.dfy`: the agent.
- `test_util.dfy`: the test utilities.

## Model

| member | source | states |
|---|---|---|
| AgentCore.StartUnitOp.constructor | src/agent/agent.c:292-295 | a payload records the agent it belongs to and the orchestrator's job id, as `agent_method_start_unit` fills it at agent.c:363-364 |
| AgentCore.SystemdRequest.constructor | src/agent/agent.c:69-76 | a new request is zeroed: one reference, no outbound call, no payload, no destructor, no callback |
| AgentCore.SystemdRequest.Ref | src/agent/agent.c:30-33 | the reference count goes up by one and the same request is returned |
| AgentCore.SystemdRequest.Unref | src/agent/agent.c:35-60 | the count drops by one. Above zero, the agent's lists, reference count and freed log are unchanged. At zero: the payload is destroyed exactly when both payload and destructor are set; the request is removed from the outstanding requests once and is no longer in them; the agent loses one reference; the agent stays valid |
| AgentCore.SystemdRequest.SetUserdata | src/agent/agent.c:95-98 | payload and destructor are set to the given ones |
| AgentCore.SystemdRequest.TakeUserdata | src/agent/agent.c:333 | the payload is handed over and the request keeps none, so its own cleanup can no longer free it |
| AgentCore.SystemdRequest.Start | src/agent/agent.c:100-112 | the result is the call's success; on success the callback is pending and holds one more reference; on failure nothing changes |
| AgentCore.Agent.constructor | src/agent/agent.c:130-138 | one reference, default port `HIRTE_DEFAULT_PORT`, no name or host, empty lists, and the agent is quiescent |
| AgentCore.Agent.New | src/agent/agent.c:115-139 | null exactly when the event loop or the service-name copy fails; otherwise a fresh quiescent agent on the default port with empty lists |
| AgentCore.Agent.Ref | src/agent/agent.c:141-144 | the agent's count goes up by one and the same agent is returned |
| AgentCore.Agent.Unref | src/agent/agent.c:146-172 | the count goes down by one, and the agent is destroyed exactly when the count reaches zero |
| AgentCore.Agent.OwnerRef | src/agent/agent.c:141-144 | a reference taken by the agent's owner: the count and the owner's references go up by one, the same agent is returned, and the invariant holds |
| AgentCore.Agent.OwnerUnref | src/agent/agent.c:146-172 | a reference dropped by the owner: the count goes down by one; the agent is destroyed exactly at zero, and then no request is outstanding; the lists are left as they are and the invariant holds |
| AgentCore.Agent.TrackersAbandoned | src/agent/agent.c:146-172 | when the last reference is gone no request is outstanding, but every tracker still linked holds a payload the destructor has not run on: `agent_unref` does not free `tracked_jobs`, so these payloads leak |
| AgentCore.Agent.SetPort | src/agent/agent.c:181-190 | succeeds exactly when the port string parses; the port becomes the parsed value on success and is unchanged otherwise |
| AgentCore.Agent.SetHost | src/agent/agent.c:192-201 | succeeds exactly when the copy is allocated; the host is replaced only then |
| AgentCore.Agent.SetName | src/agent/agent.c:203-213 | succeeds exactly when the copy is allocated; the name is replaced only then |
| AgentCore.Agent.ParseConfig | src/agent/agent.c:215-252 | an unreadable file fails with nothing changed; a file without `Node` succeeds with nothing changed; otherwise `Name`, `Host`, `Port` are applied in that order, the first failing setter stops the rest, and the result says whether all present keys applied |
| AgentCore.Agent.CreateRequest | src/agent/agent.c:68-93 | null exactly when allocation or building the call fails. On null, the list, reference count and freed log are unchanged. Otherwise a fresh request with count 1 and outbound call `member` is appended last, and the agent has one more reference |
| AgentCore.Agent.NewRequest | src/agent/agent.c:69-79 | the allocation and linking steps of `agent_create_request`: a fresh zeroed request with one reference is appended last, the agent has one more reference, and the invariant holds with the request owned by the handler alone |
| AgentCore.Agent.Discard | src/agent/agent.c:88-90 | the cleanup that runs when the handler still owns the request it created: the request is removed from the end of the list, the agent loses its reference, the payload, if any, is destroyed once, and the agent is quiescent again |
| AgentCore.Agent.Abandon | src/agent/agent.c:359-374 | each "Internal error" return after the request exists (agent.c:361, 369, 373; agent.c:286 in `agent_method_list_units`): the error reply is sent once, then the cleanup destroys the request with its payload, if any |
| AgentCore.Agent.Launch | src/agent/agent.c:285-289 | `systemd_request_start` at the end of a handler (also agent.c:372-376). The result is the call's success. On success the request stays registered with its callback as sole owner, and nothing is sent or freed. On failure an "Internal error" reply is sent and the request is destroyed with its payload, if any. Either way the agent is quiescent |
| AgentCore.Agent.MethodListUnits | src/agent/agent.c:277-290 | a request is left registered exactly when create and start succeed, with `ListUnits` as its call and its reply callback as sole owner; otherwise the reply is "Internal error" and the list and reference count are unchanged; no payload is freed; the agent stays quiescent |
| AgentCore.Agent.ListUnitsCallback | src/agent/agent.c:254-275 | a method error is forwarded unchanged to the orchestrator's call; a return is copied back only when the reply can be built; either way the request is removed once, the agent loses one reference, no tracker is added and nothing is freed |
| AgentCore.Agent.ReleaseCallbackRef | src/agent/agent.c:255 | the `_cleanup_systemd_request_` of both reply callbacks (also agent.c:319): the callback's reference, the last one, is dropped; the request leaves the list, the agent loses one reference, the payload, if still held, is destroyed once, and the agent is quiescent |
| AgentCore.Agent.MethodStartUnit | src/agent/agent.c:342-377 | arguments that are not `ssu` give "Invalid arguments" and create no request. A registered request carries `StartUnit(name, mode)`, a fresh payload with the job id, and its callback as sole owner. On any later failure: the reply is "Internal error"; the list and reference count are as before; the payload, if one was allocated, is destroyed exactly once |
| AgentCore.Agent.ForwardStartUnit | src/agent/agent.c:359-376 | allocating and attaching the payload, appending name and mode, and starting the call; a failing step answers "Internal error" and destroys the request with its payload, if any |
| AgentCore.Agent.AttachStartUnitOp | src/agent/agent.c:359-365 | the request holds a fresh payload for this agent with the job id and its destructor, and the invariant holds |
| AgentCore.Agent.StartUnitCallback | src/agent/agent.c:318-340 | a method error is forwarded unchanged; an unreadable job path answers "Internal Error"; in both cases no tracker is added and the payload is destroyed once with the request. On success, one tracker for the job path, holding the payload, is prepended and the reply is empty; if the tracker cannot be made, the payload is destroyed once. The request is always removed |
| AgentCore.Agent.AnswerStartUnit | src/agent/agent.c:323-339 | the answer of `start_unit_callback` before its cleanup, by case, with the payload left in the request on the error paths |
| AgentCore.Agent.TrackStartedJob | src/agent/agent.c:333-339 | the payload leaves the request and goes into a new first tracker, or, if tracking fails, is freed here with an "Internal Error" reply |
| AgentCore.Agent.TrackJob | src/agent/agent.c:405-429 | succeeds exactly when tracker and path copy are allocated; then one tracker is prepended, otherwise the list is unchanged |
| AgentCore.Agent.MatchJobRemoved | src/agent/agent.c:431-458 | an unreadable event returns its error and changes nothing. Otherwise the result is 0, and the first tracker (`FirstMatch`) for the job path is removed and its callback runs once with the job's result, and its payload is destroyed once. With no match nothing changes |
| AgentCore.Agent.FireTracker | src/agent/agent.c:449-453 | the tracker at `i` is unlinked, runs its callback once, which emits `JobDone` with its job id when emission succeeds, and its payload is destroyed once |
| AgentCore.StartUnitJobDone | src/agent/agent.c:301-316 | `JobDone(hirte_job_id, result)` is sent when emission succeeds and nothing is sent otherwise |
| AgentCore.Agent.FreeStartUnitOp | src/agent/agent.c:297-299 | the destructor runs once on the payload, which then has no holder |
| AgentCore.Agent.JobTrackerFree | src/agent/agent.c:388-394 | the payload is destroyed exactly when both payload and destructor are set |
| AgentCore.Agent.FreedAtMostOnce | src/agent/agent.c:43-45 | under the invariant, no payload appears twice in the destructor log |
| AgentCore.Agent.PayloadAccounted | src/agent/agent.c:333-337 | under the invariant, every payload allocated is either freed or carried, with its destructor, by an outstanding request or a tracker, so none leaks while the agent lives (`TrackersAbandoned` covers its destruction) |
| AgentCore.Agent.PayloadHeldOnce | src/agent/agent.c:333-337 | under the invariant, no payload is carried by two requests, or by a request and a tracker, so no path can free it twice |
| AgentCore.FirstMatch | src/agent/agent.c:448-455 | the index of the first tracker whose path equals the job path, with no match before it, or none when no tracker matches |
| AgentCore.FirstMatchAt | src/agent/agent.c:448-455 | a scan that stops at `i`, with no match before it, has found `FirstMatch` |
| AgentCore.TrackPrepended | src/agent/agent.c:426 | prepending a tracker with a payload that no tracker held keeps every payload held by exactly one tracker |
| AgentCore.TrackerRemoved | src/agent/agent.c:450-452 | unlinking a tracker and freeing its payload keeps the trackers' side of the invariant |
| AgentCore.FreedAppended | src/agent/agent.c:389-391 | running the destructor on a payload not yet freed keeps the destructor log duplicate-free |
| Lists.Remove | src/agent/agent.c:57 | unlinks the first node holding `x` (also agent.c:450), every other node keeping its order; the list is unchanged when `x` is absent |
| Lists.IndexOf | src/agent/agent.c:57 | the position of the first occurrence of the element being unlinked |
| Lists.RemoveDistinct | src/agent/agent.c:57 | removing an element from a list without duplicates leaves a list without duplicates, without that element, one shorter |
| Lists.RemoveAppended | src/agent/agent.c:79 | removing the element just appended gives back the original list |
| Lists.DistinctCount | src/agent/agent.c:57 | an element of a duplicate-free list occurs at most once |
| TestUtil.DepServiceName | tests/bluechi_test/util.py:39-40 | the result is `bluechi-dep@` followed by the unit name |
| TestUtil.ProxyServiceName | tests/bluechi_test/util.py:43-44 | the result is `bluechi-proxy@`, the node name, `_`, the unit name |
| TestUtil.DepServiceNameRoundTrip | tests/bluechi_test/util.py:39-40 | the dependency service name parses back to the unit name |
| TestUtil.ProxyServiceNameRoundTrip | tests/bluechi_test/util.py:43-44 | a proxy service name whose node name has no `_` parses back to node and unit |
| TestUtil.ProxyServiceNameAmbiguous | tests/bluechi_test/util.py:43-44 | for every node name with a `_` at position `i` and every unit name, the pair (node up to `i`, rest of node + `_` + unit) is a different pair with the same service name |
| TestUtil.RandomName | tests/bluechi_test/util.py:47-50 | the name has the requested length (none for a negative one) and only lower-case ASCII letters |
| TestUtil.MatchLength | tests/bluechi_test/util.py:53-66 | the length of the escape sequence at the start of the input, 0 or at least 2 and within the input; `MatchLengthSound` and `MatchLengthComplete` say it is exactly a match of the pattern |
| TestUtil.MatchLengthSound | tests/bluechi_test/util.py:53-66 | the prefix the scanner matches is an ANSI sequence of the pattern: ESC with a Fe byte, or ESC `[` parameters, intermediates and a final byte |
| TestUtil.MatchLengthComplete | tests/bluechi_test/util.py:53-66 | when a prefix of the input is an ANSI sequence of the pattern, the scanner matches exactly that prefix, so it is the only match |
| TestUtil.RemoveControlChars | tests/bluechi_test/util.py:69-70 | the result is no longer than the input and uses only its characters |
| TestUtil.RemoveControlCharsNoEsc | tests/bluechi_test/util.py:69-70 | text without ESC is unchanged |
| TestUtil.RemoveControlCharsPrefix | tests/bluechi_test/util.py:69-70 | text without ESC before the rest is kept as it is, and the rest is processed on its own |
| TestUtil.RemoveControlCharsFe | tests/bluechi_test/util.py:53-70 | a two-character Fe sequence is removed wherever it stands, with the text before it kept |
| TestUtil.RemoveControlCharsCsi | tests/bluechi_test/util.py:53-70 | a complete CSI sequence is removed wherever it stands, with the text before it kept |
| TestUtil.RemoveControlCharsUnterminatedCsi | tests/bluechi_test/util.py:53-70 | an ESC `[` whose parameter and intermediate run is followed by neither another run character nor a final byte is kept verbatim, with that run, wherever it stands; the text after it is processed on its own |
| TestUtil.RemoveControlCharsColouredText | tests/bluechi_test/util.py:69-70 | `"foo"` ESC `[31m` `"bar"` becomes `"foobar"` |
| TestUtil.RemoveControlCharsSinglePass | tests/bluechi_test/util.py:69-70 | removal is a single left-to-right pass: a sequence formed by the removal itself survives |

## Left out

- `agent_start`, `agent_stop`, bus connection set-up and the vtable or match registration (agent.c:379-385 and 461 onward) are not modelled. They only wire handlers to the bus.
- Logging to stderr is left out. It changes no state.
- The bus itself is not modelled. Message encoding, `sd_bus_message_read`, `new_method_call`, `call_async`, `append`, `copy`, `new_method_return` and signal emission are oracle parameters: a success flag or a read result.
- The forwarded call is started with `HIRTE_DEFAULT_DBUS_TIMEOUT` (agent.c:104). When the timeout expires, sd-bus delivers an error reply to the callback. The model covers this case as an `ErrorReply`, which the callbacks forward unchanged. The timer itself is not modelled.
- The results of `sd_bus_reply_method_*` and `sd_bus_message_send` are not modelled. The handlers' integer return codes are not modelled either, except for `agent_match_job_removed`. The reply a handler sends is recorded in `sent` instead.
- The references a request holds on `request_message`, `message` and `slot` are not tracked, and neither is their release in `systemd_request_unref`. The orchestrator's call is a number, `requestMessage`.
- `parse_port` is a function parameter. `parsing_ini_file`, `config_lookup_topic` and `topic_lookup` are replaced by an optional map of topics to maps of keys.
- `HIRTE_DEFAULT_PORT` (842) and the bus names come from headers that are not part of this model.
- AgentCore.Agent.Unref: at zero, it reports destruction but does not model freeing the strings and bus handles.
- `agent_unref` frees neither `outstanding_requests` nor `tracked_jobs`. Under the invariant no request remains at that point. The trackers and their `StartUnitOp` payloads are abandoned without running their destructors. The model keeps them in place, and `TrackersAbandoned` states the leak. Nothing after the destruction is modelled.
- AgentCore.Agent.constructor: `malloc0` in `agent_new` is unchecked, so the allocation is modelled as infallible.
- AgentCore.JobTracker: the only callback the agent registers is `start_unit_job_done`, so the callback is a one-constructor datatype.
- Trackers may share a job path, because `agent_track_job` does not refuse duplicates. Only the first match fires, as in the code.
- Several C functions are split into more than one Dafny method:
  - `agent_create_request` into `NewRequest` and `Discard`;
  - the cleanup on failure into `Abandon`, and `systemd_request_start` at the end of a handler into `Launch`;
  - `agent_method_start_unit` into `ForwardStartUnit` and `AttachStartUnitOp`;
  - `start_unit_callback` into `AnswerStartUnit`, `TrackStartedJob` and `ReleaseCallbackRef`.
- `get_random_name` is not modelled as random: the random source is a parameter `draw`. `read_file`, `get_primary_ip` and `Timeout` are left out, because they do file, socket and signal I/O.
- `remove_control_chars` is written as a scanner rather than a regular-expression engine. `MatchLengthSound` and `MatchLengthComplete` tie the scanner to the pattern.

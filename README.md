# MycilaMQTT core, modelled in Dafny

MycilaMQTT is an ESP32 MQTT client adapter. It keeps one connection to a broker
through a library client (espMqttClient). It tracks that connection's lifecycle,
announces the device through a retained will topic ("online", "offline"), and
routes each inbound message to the listeners whose topic filter matches it.

This project models two parts:

- **The topic filter matcher** `MQTTClass::_topicMatches`. The module `TopicMatcher`
  contains:
  - the method `TopicMatches`, a statement-by-statement model of the C
    cursor walk over `seq<char>`. The terminator sits at index `|s|`.
  - the function `Walk`, the same walk one state at a time.
  - proofs about both against `TopicSpec.Matches`. That module is a level-by-level
    reference of the wildcard rules in section 4.7 of the OASIS MQTT Version
    3.1.1 standard: split on '/', then compare levels.
  - `TopicExamples` states the behaviours the matcher's comments and the standard
    call out.
- **The client**, class `Mqtt.Client`:
  - its state machine: DISABLED, CONNECTING, CONNECTED, DISCONNECTED, PUBLISHING.
  - its ordered listener registry (module `Listeners`).
  - the three event handlers the library client calls back.

  The library client is modelled as the flag `hasClient` plus the append-only
  trace `sent` of the calls made on it (module `Trace`). The user's callbacks are
  the trace `calls` of their invocations. Time is the parameter `now` of `Loop`.
  The reconnect test subtracts modulo 2^32, as `millis()` arithmetic does.

Every state-changing method of `Mqtt.Client` states its whole new state as one
update of the record `View()`. The public methods and event handlers that change
the state (`Begin`, `End`, `Loop`, `OnMqttConnect`, `OnMqttDisconnect`) also
preserve `Valid()`: a library client exists exactly while the client is enabled,
and the last error is one of the fixed texts. Their state changes are steps of
`Mqtt.CodeStep`. The private `Connect` states only its new `View()`; it is
reached only through `Begin` and `Loop`, whose contracts carry both facts.

The source files are two versions of the library:
- `src/MycilaMQTT.cpp` is the espMqttClient version. It has `begin()` without
  arguments, `_disconnectReason`, `loop()` and PUBLISHING.
- `src/MycilaMQTT.h` is the esp-idf version. It has `begin(const Config&)`,
  `_lastError`, and no PUBLISHING.

The model follows the `.cpp`. It takes from the header the public surface, the
initial field values and the `Config` defaults. `Begin` takes the configuration
as a parameter and stores it as the `.cpp` does. `Config` also carries the
`enabled` and `baseTopic` fields that the `.cpp` reads.

Three behaviours of the code shape the model:
- The connect callback runs from the next `loop()` after the connect event, which
  then moves the client to a fifth state, PUBLISHING (src/MycilaMQTT.cpp:52-56).
- Reconnecting is driven by `loop()`, which polls a 5-second timer
  (src/MycilaMQTT.cpp:46-50).
- `unsubscribe` calls `remove_if` without `erase` (src/MycilaMQTT.cpp:77-79; see
  Findings).

PUBLISHING is modelled literally, and it matters:
- `isConnected()` is true only in CONNECTED (src/MycilaMQTT.h:121).
- After the first `loop()` following a connect, `publish` therefore returns false
  and `subscribe` no longer forwards to the broker.
- `Mqtt.PublishStopsAfterFirstLoop` proves the outcome of that sequence on a fresh client.
- The header's enum has no PUBLISHING, although its comments name it.
- `Mqtt.TransitionsTaken` drives one client through a sequence of calls and
  proves the state after each. That sequence takes every transition the comments
  document, and four they do not: DISCONNECTED to CONNECTING, CONNECTED to
  PUBLISHING, CONNECTING to DISABLED, and CONNECTING to DISCONNECTED.
- So "only the documented transitions happen" does not hold of the code. The
  predicate `Mqtt.CodeStep` bounds what every method may do to the state, and
  `Mqtt.DocumentedAreCodeSteps` and `Mqtt.UndocumentedCodeSteps` relate it to
  the documented transitions.

The message dispatch in `OnMqttMessage` uses the corrected matcher `FixedMatches`.
On every well-formed filter it agrees with the code as written
(`TopicMatcher.AsWrittenOnValidFilters`). So over a registry of well-formed
filters the calls it makes are exactly those the code as written makes
(`Listeners.DispatchAgrees`).

## Model

| member | source | states |
|---|---|---|
| `TopicMatcher.TopicMatches` | src/MycilaMQTT.cpp:170-259 | The cursor walk returns `AsWritten(sub, topic)`. Every cursor read, including `sub[-1]` and `sub[1..3]`, is in bounds. A true result needs both strings non-empty, '$' at the start of both or of neither, and a topic without wildcards. On NUL-free strings and a well-formed filter the result is the reference matcher `Matches`. |
| `TopicMatcher.SkipLevel` | src/MycilaMQTT.cpp:198-202 | Skipping the rest of a topic level stops at or after the start, on a '/' or the terminator. |
| `TopicMatcher.SkipLevelMeaning` | src/MycilaMQTT.cpp:196-202 | The skip fails exactly when a wildcard comes first. Otherwise the skipped text holds no '/' and no wildcard, and ends the level. |
| `TopicMatcher.RestCleanMeaning` | src/MycilaMQTT.cpp:213-219 | The scan after a final '#' succeeds exactly when the rest of the topic has no wildcard. |
| `TopicMatcher.FilterExhausted` | src/MycilaMQTT.cpp:182-258 | A filter used up before the topic leaves no match. |
| `TopicMatcher.PlusStep` | src/MycilaMQTT.cpp:187-202 | A well-placed '+' consumes exactly one topic level. The state after it decides the same question. |
| `TopicMatcher.CharStep` | src/MycilaMQTT.cpp:237-246 | A character shared by filter and topic can be stepped over without changing the question. |
| `TopicMatcher.HashBranch` | src/MycilaMQTT.cpp:205-220 | A misplaced '#' (not after '/', or not last) matches nothing. A final '#' level matches exactly a wildcard-free rest of the topic. |
| `TopicMatcher.MismatchBranch` | src/MycilaMQTT.cpp:221-236 | A literal filter character that differs from the topic's gives a match only in the "foo/+/#" against "foo/bar" case. The strict test also demands that the '#' ends the filter. |
| `TopicMatcher.PlusWalk` | src/MycilaMQTT.cpp:187-204 | The '+' branch of the walk decides what is left, as the reference does. |
| `TopicMatcher.CharWalk` | src/MycilaMQTT.cpp:237-256 | The equal-character branch, with its "foo" against "foo/#" and "a/" against "a/+" shortcuts, decides what is left, as the reference does. |
| `TopicMatcher.HashAfter` | src/MycilaMQTT.cpp:239-242 | "foo" is matched by "foo/#": the shortcut agrees with the reference. |
| `TopicMatcher.WalkIsRemainder` | src/MycilaMQTT.cpp:182-257 | From every reachable state of the loop, the walk answers exactly the reference question on what is left. For the walk as written this needs a well-formed rest of the filter; for the corrected walk it holds on any filter. |
| `TopicMatcher.StartIsReference` | src/MycilaMQTT.cpp:174-178 | The empty-string and '$' guards plus the reference question on the whole strings are exactly `Matches`. |
| `TopicMatcher.FixedIsReference` | src/MycilaMQTT.cpp:170-259 | The corrected matcher equals the reference on every pair of NUL-free strings, both directions. |
| `TopicMatcher.FixedMatches` | src/MycilaMQTT.cpp:170-259 | The corrected matcher used for dispatch is `Matches` on NUL-free strings. |
| `TopicMatcher.AsWrittenOnValidFilters` | src/MycilaMQTT.cpp:170-259 | On a well-formed filter the code as written matches exactly what the reference matches. |
| `TopicMatcher.WalkCleanTopic` | src/MycilaMQTT.cpp:183-216 | The walk answers true only after reading a rest of the topic free of '+' and '#'. |
| `TopicMatcher.AsWrittenCleanTopic` | src/MycilaMQTT.cpp:183-216 | Whatever the filter, a topic containing '+' or '#' is never matched. |
| `TopicMatcher.WalksDiffer` | src/MycilaMQTT.cpp:223 | The walk as written and the corrected walk disagree only on a filter with a '+' followed by "/#" and at least one more character. |
| `TopicMatcher.AsWrittenOnInvalidFilters` | src/MycilaMQTT.cpp:223-235 | The code as written accepts an ill-formed filter only when the filter has that shape. |
| `TopicMatcher.AsWrittenAcceptsPlusHashSuffix` | src/MycilaMQTT.cpp:223-224 | The code as written matches "+/#/b" with "a", which the standard forbids. The corrected matcher does not. |
| `TopicSpec.DollarIsolation` | src/MycilaMQTT.cpp:177-178 | A reference match pairs a '$' topic only with a '$' filter, and the other way round. |
| `TopicSpec.ExactWithoutWildcards` | src/MycilaMQTT.cpp:186 | A wildcard-free filter matches a topic exactly when the two are equal. |
| `TopicSpec.LevelsMatchWithoutHash` | src/MycilaMQTT.cpp:187-204 | Without '#', a filter matches exactly the topics with as many levels, each filter level being '+' or equal. So '+' takes one level and never crosses a '/'. |
| `TopicSpec.LevelsMatchTrailingHash` | src/MycilaMQTT.cpp:205-220 | A trailing '#' takes every remaining level, zero included. |
| `TopicExamples.AsWrittenExact` | src/MycilaMQTT.cpp:186 | The code as written, given a wildcard-free filter, matches exactly the equal topic. |
| `TopicExamples.AsWrittenSelf` | src/MycilaMQTT.cpp:237-248 | Every wildcard-free topic matches itself. |
| `TopicExamples.AsWrittenRejects` | src/MycilaMQTT.cpp:187-235 | An ill-formed filter without an inner "+/#" matches nothing. |
| `TopicExamples.ViaReference` | src/MycilaMQTT.cpp:170-259 | A verdict of the reference on a well-formed filter is the code's verdict. |
| `TopicExamples.PlusMustFillLevel` | src/MycilaMQTT.cpp:188-194 | "foo+", "+foo" and "a/+foo" match no topic. |
| `TopicExamples.HashMustEndFilter` | src/MycilaMQTT.cpp:206-212 | "foo#" and "sport/#/ranking" match no topic. |
| `TopicExamples.PlusTakesOneLevel` | src/MycilaMQTT.cpp:249-255 | "a/+" matches "a/", and "a/+/c" matches "a/b/c". |
| `TopicExamples.PlusStaysInLevel` | src/MycilaMQTT.cpp:198-202 | "sport/tennis/+" does not match "sport/tennis/player1/ranking". |
| `TopicExamples.HashTakesRemainingLevels` | src/MycilaMQTT.cpp:239-242 | "foo/#" matches "foo" and "foo/bar/baz", and "foo/+/#" matches "foo/bar". |
| `TopicExamples.DollarTopics` | src/MycilaMQTT.cpp:177-178 | "#" and "+/x" do not match "$SYS/x"; "$SYS/#" does. |
| `Listeners.RemoveAll` | src/MycilaMQTT.cpp:74-80 | The intended removal: a listener survives exactly when it was registered and its filter differs from the argument. Nothing is added. |
| `Listeners.RemoveAllCounts` | src/MycilaMQTT.cpp:77-79 | The intended removal keeps every copy of a listener with another filter, as many times as it was registered, and no copy of one with the filter. |
| `Listeners.RemoveAllConcat` | src/MycilaMQTT.cpp:77-79 | Removal distributes over concatenation, so the kept listeners keep their order. |
| `Listeners.RemoveAllAbsent` | src/MycilaMQTT.cpp:77-79 | Removing a filter no listener has leaves the registry unchanged. |
| `Listeners.RemoveAllIdempotent` | src/MycilaMQTT.cpp:77-79 | Unsubscribing twice is unsubscribing once. |
| `Listeners.Leftover` | src/MycilaMQTT.cpp:77-79 | Slot by slot, the tail left by `remove_if` holds a removed entry intact, or the husk of a kept one. |
| `Listeners.RemoveIfNoErase` | src/MycilaMQTT.cpp:77-79 | `unsubscribe` as written keeps the vector's length. Its front is the intended result. |
| `Listeners.RemovedLastSurvives` | src/MycilaMQTT.cpp:77-79 | As written, a removed last listener stays in place, still under its filter. |
| `Listeners.UnsubscribeLastStillDelivers` | src/MycilaMQTT.cpp:74-80 | After unsubscribing "y" from [x, y] as written, a message on "y" still calls y's callback. After the intended removal, nothing is called. |
| `Listeners.SubscribeAll` | src/MycilaMQTT.cpp:127-131 | One Subscribe per listener, the k-th for the k-th listener's filter. |
| `Listeners.SubscribeAllSnoc` | src/MycilaMQTT.cpp:127-131 | A listener added at the end adds its Subscribe at the end. |
| `Listeners.DispatchExactly` | src/MycilaMQTT.cpp:165-167 | An inbound message calls exactly the listeners whose filter matches, duplicates included. Each gets its own callback, the topic and the payload, once, in registration order. |
| `Listeners.DispatchAgrees` | src/MycilaMQTT.cpp:165-167 | Over a registry of NUL-free, well-formed filters, the corrected dispatch makes exactly the calls, in the same order, that dispatch through `_topicMatches` as written makes. |
| `Listeners.UnsubscribedNeverCalled` | src/MycilaMQTT.cpp:74-80 | After the intended removal of a filter, no listener subscribed with it is called. |
| `Listeners.VacatedNeverCalled` | src/MycilaMQTT.cpp:165-167 | A moved-from husk's empty filter matches nothing, as written or corrected. |
| `Mqtt.ReasonText` | src/MycilaMQTT.cpp:135-157 | Every disconnect reason maps to one of the fixed texts. "Unknown error" is used exactly for the unnamed reasons. |
| `Mqtt.ReasonTextDistinct` | src/MycilaMQTT.cpp:135-157 | The named reasons have pairwise different texts. |
| `Mqtt.Elapsed` | src/MycilaMQTT.cpp:46 | `millis() - _lastReconnectTry` in 32-bit unsigned arithmetic: the plain difference, or the difference across one wrap. |
| `Mqtt.DocumentedAreCodeSteps` | src/MycilaMQTT.h:61-72 | Every transition the enum's comments document is allowed by `CodeStep`, the bound on the methods' state changes. |
| `Mqtt.UndocumentedCodeSteps` | src/MycilaMQTT.h:61-72 | `CodeStep` also allows four transitions the comments omit. |
| `Mqtt.TransitionsTaken` | src/MycilaMQTT.cpp:11-160 | One client driven through begin, end, loop and the connect and disconnect events passes exactly the listed states. It takes every documented transition, and the four undocumented ones. |
| `Mqtt.Drive` | src/MycilaMQTT.cpp:11-160 | Five legs on one client (connect aborted by `end`; failed try, timed retry, dropped session; `end` while CONNECTED; a dropped PUBLISHING session; `end` while PUBLISHING) pass exactly the states of `Journey`. |
| `Mqtt.JourneyCovers` | src/MycilaMQTT.h:61-72 | The states of `Journey` contain every transition the enum's comments document, and the four that they omit. |
| `Mqtt.StepsIntoPublishingAndOutOfDisabled` | src/MycilaMQTT.cpp:45-58 | PUBLISHING is entered only from CONNECTED. DISABLED is left only for CONNECTING. |
| `Mqtt.Client.constructor` | src/MycilaMQTT.h:124-131 | Initially DISABLED, no listeners, no connect callback, no last error, not async, default configuration, no library client, empty traces. |
| `Mqtt.Client.IsEnabled` | src/MycilaMQTT.h:120 | True exactly when not DISABLED, which is exactly while a library client exists. |
| `Mqtt.Client.IsConnected` | src/MycilaMQTT.h:121 | True only in CONNECTED. It is false in PUBLISHING and implies enabled. |
| `Mqtt.Client.GetLastError` | src/MycilaMQTT.h:122 | The last error is absent or one of the fixed disconnect texts. |
| `Mqtt.Client.SetAsync` | src/MycilaMQTT.h:106-107 | Only the async flag changes, and `IsAsync` returns the new value. |
| `Mqtt.Client.SetOnConnect` | src/MycilaMQTT.h:118 | The new connect callback replaces the held one. Nothing else changes. |
| `Mqtt.Client.Begin` | src/MycilaMQTT.cpp:11-28 | No effect unless DISABLED. A disabled configuration is stored and nothing else happens. An enabled one also creates the client and connects. |
| `Mqtt.Client.Connect` | src/MycilaMQTT.cpp:82-121 | Always CONNECTING. The connect is sent only with a usable configuration. |
| `Mqtt.Client.End` | src/MycilaMQTT.cpp:30-43 | A no-op from DISABLED. Otherwise exactly one retained "offline" publish to the will topic, then one disconnect, no client, reconnect time 0, DISABLED. |
| `Mqtt.Client.Loop` | src/MycilaMQTT.cpp:45-58 | From DISCONNECTED, once 5000 ms have elapsed modulo 2^32: a new try, stamped `now`. From CONNECTED: the connect callback once, then PUBLISHING. Otherwise nothing. |
| `Mqtt.Client.Publish` | src/MycilaMQTT.cpp:60-64 | Unless CONNECTED: false, and no effect. Otherwise one publish, and the result is whether the library returned a packet id. |
| `Mqtt.Client.Subscribe` | src/MycilaMQTT.cpp:66-72 | The listener is always appended. The Subscribe is forwarded only when CONNECTED. |
| `Mqtt.Client.Unsubscribe` | src/MycilaMQTT.cpp:74-80 | One unsubscribe is sent, and the registry becomes the intended removal. |
| `Mqtt.Client.OnMqttConnect` | src/MycilaMQTT.cpp:123-133 | A retained "online" publish, then one Subscribe per listener in registration order, then CONNECTED. |
| `Mqtt.Client.SubscribeListeners` | src/MycilaMQTT.cpp:127-131 | The loop appends exactly `SubscribeAll` of the registry. Nothing else changes. |
| `Mqtt.Client.OnMqttDisconnect` | src/MycilaMQTT.cpp:135-160 | The reason's fixed text becomes the last error, and the state is DISCONNECTED, whatever it was. |
| `Mqtt.Client.OnMqttMessage` | src/MycilaMQTT.cpp:162-168 | The calls made are exactly `Dispatch` over the whole registry. Nothing else changes. |
| `Mqtt.PublishStopsAfterFirstLoop` | src/MycilaMQTT.cpp:45-64 | After begin and the connect event, a publish succeeds. After the next loop, a publish fails. |

## Left out

- Null pointers: `!sub || !topic` (src/MycilaMQTT.cpp:174) and the null check on `_onConnect` become an `Option` and plain strings.
- NUL characters inside strings: the matcher theorems assume NUL-free strings (`NoNul`). A C string cannot hold one; the method itself accepts any sequence.
- Logging (`ESP_LOGx`) throughout.
- Construction, configuration and deletion of the library client (src/MycilaMQTT.cpp:22-25, :90-118, :40-41). They are foreign calls. Only the `connect()` at :120 is recorded, as `ClientConnect`. The will registered through `setWill` is not recorded.
- QoS: every publish and subscribe of the core uses QoS 0, so actions do not carry it.
- Concurrency: the library raises events from its own task. The model runs each event handler as one atomic method call.
- `millis()` becomes the parameter `now`. `Mqtt.Client.Loop` uses one reading for the test and for the new `_lastReconnectTry`; the source reads the clock twice (:46-47).
- TLS and certificate material of `Config` (src/MycilaMQTT.h:94-98). The contents of credentials are carried but not interpreted.
- Payload conversion `String(payload, len)` and the `properties`, `index` and `total` arguments (src/MycilaMQTT.cpp:162-163). The payload is an opaque string, and each fragment is dispatched as a message of its own.
- Callback bodies: they are opaque user code, recorded as invocations only. A callback that calls back into the client during dispatch is not modelled.
- The process-wide singleton (src/MycilaMQTT.cpp:261-263). `begin()` reads the configuration from it; `Begin` takes it as a parameter instead.
- The asynchronous publish path: only the `_async` flag exists in the shown code.
- The header version's esp-idf event handler `_mqttEventHandler` and its task, stack and buffer macros (src/MycilaMQTT.h:28-50, :134). The destructor's call of `end()` (src/MycilaMQTT.h:101) is `End`.
- The defaults of `enabled` and `baseTopic`, which neither file shows: the model takes false and the empty string.
- Disconnect reasons other than the six named ones are `OtherReason(code)`.
- Mqtt.Client.Unsubscribe: requires a library client, because the source dereferences `_mqttClient` unconditionally (src/MycilaMQTT.cpp:76). Calling `unsubscribe` while disabled is undefined behaviour there, and the model does not give it one.
- Mqtt.Client.OnMqttConnect: requires a library client. So do `OnMqttDisconnect` and `Connect`, because only an existing library client raises these events and only `begin` and `loop` reach `_connect`. The model lets a connect event arrive in any enabled state, so `CodeStep` allows any enabled state to go to CONNECTED.
- Listeners.Vacated: what a moved-from `String` holds is up to the Arduino core, and a moved-from `std::function` is empty under libstdc++. The model empties the filter and keeps the callback id. Keeping the id is harmless only because the husk's empty filter never matches (`Listeners.VacatedNeverCalled`), so the empty callback is never called.
- Mqtt.Client.OnMqttMessage: dispatches with the corrected matcher `FixedMatches`, not `_topicMatches` as written (src/MycilaMQTT.cpp:166). The two differ only on filters with a '+' followed by "/#" and more, such as "+/#/b" (see Findings). On those filters the model does not call the listeners that the code as written calls. Over registries of well-formed filters the two dispatches are equal (`Listeners.DispatchAgrees`).

## Findings

| source | as written | input that shows it | evidently intended | confidence | as-written member | corrected member |
|---|---|---|---|---|---|---|
| src/MycilaMQTT.cpp:223 | The "foo/+/#" against "foo/bar" shortcut checks `sub[-1] == '+'`, `sub[0] == '/'` and `sub[1] == '#'`, but not that the '#' ends the filter. | The filter "+/#/b" (ill-formed: '#' not last) matches the topic "a". | Take the shortcut only when `sub[2] == 0` as well, so an ill-formed filter matches nothing, as the check at :211 does for the other '#' case. | high (proved; not executed) | `TopicMatcher.AsWrittenAcceptsPlusHashSuffix` | `TopicMatcher.FixedMatches` |
| src/MycilaMQTT.cpp:77-79 | `remove_if` is called without `erase`. The vector keeps its length, and the tail keeps the removed entries. | Listeners [("x", 0), ("y", 1)], `unsubscribe("y")`: the vector is unchanged, and a message on "y" still calls callback 1. | `_listeners.erase(remove_if(...), _listeners.end())`: drop every entry with that filter and keep the others in order. | high (proved; not executed) | `Listeners.UnsubscribeLastStillDelivers` | `Listeners.RemoveAll` |

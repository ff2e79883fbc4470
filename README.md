# event-bus-zeromq, modelled in Dafny

event-bus-zeromq is a small ZeroMQ event bus for Node.js with three moving parts:

- The **broker** (`lib/bus.js`). Producers send events to its collector endpoint. The broker gives every event the next value of one counter (`++state.sequence`) and publishes it once on its publisher endpoint.
- The **subscriber** (`lib/subscriber.js`). It registers handlers per topic prefix. On connect it sends a `SYNCSTART` request (its topics and the last sequence it stored) to the snapshot endpoint. It stores and dispatches every replayed event it receives. On `SYNCEND` it records the broker's sequence as its cursor and attaches the live channel. After that it applies a live event only when the cursor accepts it.
- Two small codecs: endpoint port shifting (`lib/address.js`) and the three-frame replay command (`lib/command.js`). The model uses the in-memory event store (`test/support/memory_event_store.js`) as the subscriber's store. The source's default store is the Mongo store (`config.store.instance`), which is not part of this model.

The project has one module per source file, plus three shared modules:

- `Wrappers`: Option and Result.
- `Text`: the JavaScript built-ins the code relies on, namely `split`, `join`, `parseInt(…, 10)` and `String(n)`.
- `Frames`: a message frame, which is text, a number, or absent.

`lib/event.js` is not part of this model. `Event` models the event as a record plus its six frames, `[topic, sequence, producer, timestamp, uuid, data]`, at the positions `test/event_test.js` fixes.

State that the source mutates is modelled as classes:

- `Bus.Broker` holds the counter and the list of published messages.
- `MemoryEventStore.Store` holds the entry list.
- `Subscriber.Client` holds the handler registry, the cursor and the attached flag.

Pure code is modelled as functions with lemmas.

Where the code and its documentation disagree, the model follows the code:

- `command.get` keeps the topic frame as it is; it does not split the topic on commas.
- The shown `lib/bus.js` has only a publisher and a collector socket. It has no snapshot/replay channel, no store, and does not derive the snapshot endpoint from the publisher. `test/bus_test.js:186-193` expects that derivation; `Bus.GetConfig` keeps the default instead.
- The broker counter starts at 0 (`lib/bus.js:53`); it is not loaded from a store.
- The live handler accepts every event while the cursor is 0 (`lib/subscriber.js:118`).
- The snapshot handler treats every message whose first frame is not `SYNCEND` as a replayed event, whatever that first frame says.

## Model

| member | source | states |
|---|---|---|
| Text.ParseIntText | lib/address.js:9 | `parseInt(String(n), 10)` gives back `n` for every integer `n` |
| Text.SplitJoin | lib/address.js:5 | splitting on a separator undoes joining fields that do not contain it |
| Frames.FrameText | lib/command.js:8-10 | `toString()` of a frame fails exactly when the frame is absent |
| Address.GetAddressFields | lib/address.js:4-11 | for every input, `GetAddress(address, diff)` splits on ':' into exactly three fields: the input's first two fields unchanged (or "undefined" when missing), then the decimal of the parsed port plus `diff` |
| Address.ShiftPort | lib/address.js:5-10 | for a three-field address with a canonical decimal port, only the port changes, to `port + diff` |
| Address.ShiftThereAndBack | lib/address.js:5-10 | for every input, shifting by `diff` and then by `-diff` is the same as shifting by 0 |
| Address.ShiftBack | lib/address.js:5-10 | a canonical address (one that shifting by 0 leaves unchanged) shifted by `diff` and then by `-diff` is given back |
| Address.EndpointCanonical | lib/address.js:5-10 | three fields without ':' around a decimal port form a canonical address |
| Address.ExtraFieldsDropped | lib/address.js:5-8 | fields after the third do not affect the result |
| Address.DefaultEndpoints | test/address_test.js:4-12 | 'tcp://127.0.0.1:5557' shifted by +1 is '…:5558', and by -1 is '…:5556' |
| Command.Get | lib/command.js:7-17 | succeeds exactly when none of the first three frames is absent; cmd and topic are the frames' text verbatim; sequence is `parseInt` of frame 2; on failure it names the first absent frame |
| Command.ToFrames | lib/command.js:3-5 | exactly three frames: cmd, topic, then the sequence as a number |
| Command.GetToFrames | lib/command.js:3-17 | reading back the frames of any command gives that command |
| Command.ToFramesGet | test/command_test.js:32-38 | `get([c, t, decimal(n)]).toFrames()` is `[c, t, n]` for every integer `n` |
| Command.GetIgnoresExtraFrames | lib/command.js:9-11 | frames after the third change nothing |
| Command.TagsDiffer | lib/command.js:19-23 | the tags are "SYNCSTART" and "SYNCEND", and they differ |
| Command.SyncStartExample | test/command_test.js:17-23 | `['SYNCSTART', '/test', '1']` reads as cmd SYNCSTART, topic /test, sequence 1 |
| Event.ToFrames | test/event_test.js:140-200 | six frames; the sequence frame is absent exactly when there is no sequence; the data frame is absent exactly when there is no data; `Event.FromFrames` decodes the frames back to the same event |
| Bus.GetConfig | lib/bus.js:8-24 | snapshot and publisher are the given values or the defaults; a truthy collector is kept; a truthy publisher without a truthy collector puts the collector at the publisher's port + 1; otherwise the collector is the given value or the default |
| Bus.ConfigDefaults | test/bus_test.js:119-125 | with no options the endpoints are 127.0.0.1 ports 5556, 5557 and 5558 |
| Bus.CollectorFollowsPublisher | lib/bus.js:19-21 | a publisher at port p without a collector gives a collector at port p + 1 |
| Bus.CollectorExample | test/bus_test.js:127-134 | publisher '…:7767' gives collector '…:7768' |
| Bus.Stamp | lib/bus.js:26-32 | the published message is six frames; frame 1 is the new counter value; it decodes to the incoming event, minus the identity frame, with only the sequence replaced |
| Bus.RunIsStamps | lib/bus.js:29-31 | N collector messages give exactly N publishes, in arrival order; the i-th carries sequence base + i + 1 |
| Bus.RunNumbersConsecutively | test/bus_test.js:511-530 | the i-th published event is the i-th incoming event with sequence base + i + 1, so the sequences run 1..N from a fresh counter |
| Bus.StampPassesFieldsThrough | test/bus_test.js:532-557 | topic, producer, timestamp, uuid and data reach the six published frames unchanged; the incoming sequence frame is overwritten |
| Bus.Broker.constructor | lib/bus.js:48-55 | the counter starts at 0 and nothing has been published |
| Bus.Broker.CollectorHandler | lib/bus.js:26-32 | the counter goes up by exactly 1; exactly one message is published, stamped with the new value; the published list stays the stamped run of all arrivals from 0 |
| MemoryEventStore.Newer | test/support/memory_event_store.js:12-14 | the entries kept are in insertion order; all of them have a sequence greater than s; every entry with a sequence greater than s is kept |
| MemoryEventStore.NewerCounts | test/support/memory_event_store.js:12-14 | the filter keeps every copy of an entry whose sequence is greater than s, and no copy of any other entry |
| MemoryEventStore.Raws | test/support/memory_event_store.js:15-17 | one raw per entry, position by position |
| MemoryEventStore.QueryInOrder | test/support/memory_event_store.js:10-21 | the result of `get` is a subsequence of the stored raws |
| MemoryEventStore.QueryExactly | test/support/memory_event_store.js:10-21 | `get(s)` holds the raw of every entry whose sequence is greater than s, and nothing else |
| MemoryEventStore.QueryAfterInsert | test/support/memory_event_store.js:4-17 | after `insert(q, r)`, `get(s)` gains `r` at its end when q > s, and is unchanged otherwise |
| MemoryEventStore.QueryShrinks | test/support/memory_event_store.js:12-14 | when s1 <= s2, `get(s2)` is a subsequence of `get(s1)` |
| MemoryEventStore.Store.constructor | test/support/memory_event_store.js:23-29 | a new store is empty |
| MemoryEventStore.Store.Insert | test/support/memory_event_store.js:4-7 | appends exactly one entry and leaves the earlier entries unchanged |
| MemoryEventStore.Store.Get | test/support/memory_event_store.js:10-21 | leaves the store as it is; returns, in insertion order, the raws of exactly the entries after s, and is equal to `Query` of the entries, whose order and multiplicities `QueryInOrder`, `QueryExactly` and `NewerCounts` fix |
| Subscriber.GetConfig | lib/subscriber.js:19-34 | address is the given value or the default; a truthy snapshot is kept; a truthy address without a truthy snapshot puts the snapshot at the address's port - 1; otherwise the snapshot is the given value or the default |
| Subscriber.ConfigDefaults | test/subscriber_test.js:103-107 | with no options the endpoints are 127.0.0.1 ports 5556 and 5557 |
| Subscriber.SnapshotBelowAddress | test/subscriber_test.js:109-114 | an address at port p without a snapshot gives a snapshot at port p - 1 |
| Subscriber.Register | lib/subscriber.js:57-64 | `on` appends the handler at the end of the topic's list, creating the list when the topic is new; a new topic goes last in key order; other keys and lists are unchanged |
| Subscriber.RegistrationKeys | lib/subscriber.js:57-62 | after a series of `on` calls, the keys are the topics in order of first registration, each once |
| Subscriber.RegistrationLists | test/subscriber_test.js:436-452 | after a series of `on` calls, each topic's list is its handlers in registration order |
| Subscriber.DispatchComplete | lib/subscriber.js:66-79 | a handler is called exactly when it is registered under a key that is a prefix of the event's topic |
| Subscriber.DispatchAfterNewKey | lib/subscriber.js:67-77 | a handler under a new key is called after every handler registered earlier, and only for topics the key prefixes |
| Subscriber.DispatchAfterKnownKey | lib/subscriber.js:75-77 | one more handler under an existing key adds exactly one call of it, for matching topics |
| Subscriber.TriggerEvent | lib/subscriber.js:66-79 | the loop calls the prefix-matching handlers with the event's data, in key order and then registration order |
| Subscriber.HandleEvent | lib/subscriber.js:81-84 | appends `(evt.sequence, evt)` to the store, then dispatches the event |
| Subscriber.SyncStartFrames | lib/subscriber.js:47-53 | the request is three frames that read as a SYNCSTART command carrying the keys joined by ',' and the last stored sequence, or 0 when there is none |
| Subscriber.SyncStartTopics | lib/subscriber.js:49 | keys without ',' can be split back from the request, in order |
| Subscriber.Connect | lib/subscriber.js:36-55 | subscribes to every key, in order, before connecting the snapshot socket and then the live socket; then sends one SYNCSTART request |
| Subscriber.AcceptsNumbers | lib/subscriber.js:118 | for numbers, `Accepts(cursor, sequence)`, meaning the live event is new, holds exactly when the cursor is 0 or the event's sequence is past it |
| Subscriber.ReadSnapshot | lib/subscriber.js:86-110 | a message is a SYNCEND or a failure exactly when its first frame reads SYNCEND; a SYNCEND reads topic and sequence like `command.get`; a failure means frame 1 or 2 is absent; any other message is the event in the frames after the first |
| Subscriber.Client.constructor | lib/subscriber.js:133-161 | a new client has no handlers, cursor 0 and the live socket detached |
| Subscriber.Client.On | lib/subscriber.js:57-64 | registers the handler; cursor and attachment are untouched |
| Subscriber.Client.SnapshotHandler | lib/subscriber.js:86-110 | SYNCEND sets the cursor to its sequence and attaches the live socket, storing and dispatching nothing; any other message is stored and dispatched, and leaves cursor and attachment unchanged; an absent topic or sequence frame after SYNCEND throws and changes nothing |
| Subscriber.Client.LiveHandler | lib/subscriber.js:112-125 | an event the cursor accepts is stored, dispatched, and becomes the cursor; any other event is dropped and nothing changes |
| Subscriber.Client.LiveHandlerRun | lib/subscriber.js:112-125 | for a series of live messages handled one after another: the sequences of the events applied are exactly `LiveRun` from the starting cursor; the store gains exactly `LiveEntries`, one `(evt.sequence, evt)` entry per applied event, in order; the cursor ends at `LiveCursor`; handlers and socket state are untouched |
| Subscriber.LiveEntriesAreApplied | lib/subscriber.js:118-120 | the entries a live run stores correspond one to one, in order, to the sequences `LiveRun` applies, and each entry's key is its own event's sequence |
| Subscriber.LiveCursorIsLastApplied | lib/subscriber.js:121-122 | after a live run the cursor is the sequence of the last event applied, or the starting cursor when none was applied |
| Subscriber.LiveRunIncreasing | lib/subscriber.js:117-124 | from a positive cursor, whatever order live events arrive in, the applied ones are past the cursor and strictly increasing, so none is applied twice |
| Subscriber.LiveRunSkipsReplayed | test/subscriber_test.js:392-434 | from a positive cursor, events in increasing order: exactly those past the cursor are applied, in order |
| Subscriber.NaNCursorDropsAll | lib/subscriber.js:95-100 | a SYNCEND whose sequence does not parse leaves a NaN cursor, and that cursor drops every live event |
| Subscriber.ZeroCursorAcceptsAll | lib/subscriber.js:118 | cursor 0 accepts any event, and two live events with sequence 0 are both applied |

## Left out

- ZeroMQ sockets are not modelled: creation, bind, connect, close, subscribe and message delivery. `Subscriber.Connect` returns the socket calls it would make, in order. `ref`/`unref` are the boolean `attached`. The live handler does not look at `attached`, and neither does the source.
- Promises and asynchronous ordering are not modelled. Every store call and every handler runs to completion before the next step. The cursor update in the live handler happens after the store insert and the dispatch; the source does the same once the insert's promise resolves. Because the source writes `state.sequence = evt.sequence` inside that promise's `.then` (`lib/subscriber.js:121-122`), a live message that arrives before the callback runs is compared with the old cursor. `Subscriber.LiveRun`, `Subscriber.LiveRunIncreasing`, `Subscriber.LiveRunSkipsReplayed` and `Subscriber.Client.LiveHandlerRun` assume each cursor write lands before the next live message is handled.
- Handlers are identities (`Callback`). What a handler does with the data, or an exception it throws, is not modelled. A call is recorded as an `Invocation`.
- Logging, including the warning for each non-matching key, is left out: it has no effect on state.
- `lib/event.js`, msgpack data encoding, uuid generation and `Date` timestamps are external. `Event` keeps the data in serialized form, and a missing uuid or timestamp reads as "". Reading a text sequence frame as a decimal is an assumption about `lib/event.js`.
- The Mongo store and its `lastSequence()` are external. The last stored sequence is a parameter of `Subscriber.Connect`. The `store`/`dbUrl` configuration option is not modelled.
- `close`, the snapshot socket's uuid identity, `lib/publisher.js`, `lib/store/filesystem.js`, `bin/setup.js`, `index.js` and the examples are not modelled.
- The broker's snapshot/replay handling and its store-seeded counter are not modelled: they are tested (`test/bus_test.js:204-447`, `467-509`) but absent from `lib/bus.js`.
- JavaScript numbers are modelled as unbounded integers or NaN. -0, values above 2^53, exponent notation in `String(n)` and a NaN last sequence are not modelled. `Bus.Broker.CollectorHandler` assumes the counter never passes 2^53.
- Subscriber.Register: treats the handler dictionary as a plain ordered map. It does not model that JavaScript puts integer-like keys first in `_.keys` order, or that inherited keys such as "constructor" and "__proto__" make `on` misbehave.
- MemoryEventStore.Store.Get: the bound is an integer. A null or non-numeric bound, compared with JavaScript's `>`, is not modelled.
- Event.FromFrames: decoding never fails. An event that `lib/event.js` rejects is not modelled. In the source such a rejection throws in `lib/bus.js:29`, before the counter is incremented at line 30, and in `lib/subscriber.js:108` and `115`, before anything is stored. So `Bus.Broker.CollectorHandler`, `Subscriber.Client.SnapshotHandler` and `Subscriber.Client.LiveHandler` always decode the event.
- MemoryEventStore.Store.Get: returns the plain sequence of raws. The source calls `.values()` on a lodash chain without `.value()`, so its promise resolves to a chain wrapper holding that sequence, and the model returns the sequence the wrapper holds.

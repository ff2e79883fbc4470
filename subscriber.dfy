/**
 * lib/subscriber.js: the subscriber client. Handlers are registered per topic
 * prefix; on connect the client asks the broker's snapshot endpoint to replay
 * what it missed, applies the replayed events, and on SYNCEND records the
 * broker's sequence as its cursor and attaches the live channel, whose events
 * it applies only when they are newer than the cursor.
 */
module Subscriber {
  import opened Wrappers
  import opened Text
  import opened Frames
  import Address
  import Command
  import Event
  import MemoryEventStore

  const DefaultSnapshot: string := "tcp://127.0.0.1:5556"
  const DefaultAddress: string := "tcp://127.0.0.1:5557"

  // ---------------------------------------------------------------------------
  // Configuration

  /** The endpoint options handed to `getInstance`; `None` is an option left out. */
  datatype Options = Options(snapshot: Option<string>, address: Option<string>)

  datatype Config = Config(snapshot: string, address: string)

  /**
   * `getConfig`: given options are kept, others take their defaults, except
   * that a truthy address without a truthy snapshot puts the snapshot endpoint
   * at the address's port - 1 (the same split-parse-format as `address.get`).
   */
  function GetConfig(conf: Options): (config: Config)
    ensures config.address == conf.address.GetOr(DefaultAddress)
    ensures Truthy(conf.snapshot) ==> config.snapshot == conf.snapshot.value
    ensures !Truthy(conf.address) ==> config.snapshot == conf.snapshot.GetOr(DefaultSnapshot)
    ensures Truthy(conf.address) && !Truthy(conf.snapshot) ==>
      config.snapshot == Address.GetAddress(conf.address.value, -1)
  {
    var config := Config(conf.snapshot.GetOr(DefaultSnapshot), conf.address.GetOr(DefaultAddress));
    if Truthy(conf.address) && !Truthy(conf.snapshot) then
      config.(snapshot := Address.GetAddress(conf.address.value, -1))
    else
      config
  }

  /** With no options the endpoints are ports 5556 and 5557 of 127.0.0.1. */
  lemma ConfigDefaults()
    ensures GetConfig(Options(None, None)) ==
      Config(Address.Endpoint("tcp", "//127.0.0.1", 5556), Address.Endpoint("tcp", "//127.0.0.1", 5557))
  {
    Address.DefaultEndpointTexts();
  }

  /** An address without a snapshot endpoint: the snapshot endpoint is one port down. */
  lemma SnapshotBelowAddress(protocol: string, host: string, port: int)
    requires ':' !in protocol && ':' !in host
    ensures GetConfig(Options(None, Some(Address.Endpoint(protocol, host, port)))) ==
      Config(Address.Endpoint(protocol, host, port - 1), Address.Endpoint(protocol, host, port))
  {
    var address := Address.Endpoint(protocol, host, port);
    assert address[|protocol|] == ':';
    Address.ShiftPort(protocol, host, port, -1);
  }

  // ---------------------------------------------------------------------------
  // Handler registry

  /** A registered handler, known by its identity. */
  datatype Callback = Callback(id: nat)

  /**
   * The `handlers` dictionary: topic prefixes in the order they were first
   * registered, each with its list of callbacks in registration order.
   */
  datatype Registry = Registry(keys: seq<string>, lists: map<string, seq<Callback>>) {
    predicate Valid() {
      (forall k :: k in keys ==> k in lists) && (forall k :: k in lists ==> k in keys) &&
      (forall i, j :: 0 <= i < j < |keys| ==> keys[i] != keys[j])
    }
  }

  const NoHandlers: Registry := Registry([], map[])

  /**
   * `on(topic, handler)`: append the handler to the topic's list, creating
   * the list (and the key, last in key order) when the topic is new.
   */
  function Register(r: Registry, topic: string, h: Callback): (r': Registry)
    requires r.Valid()
    ensures r'.Valid()
    ensures topic in r'.lists && r'.lists[topic] == (if topic in r.lists then r.lists[topic] else []) + [h]
    ensures forall k :: k in r.lists && k != topic ==> k in r'.lists && r'.lists[k] == r.lists[k]
    ensures r'.lists.Keys == r.lists.Keys + {topic}
    ensures r'.keys == if topic in r.lists then r.keys else r.keys + [topic]
  {
    if topic in r.lists then
      Registry(r.keys, r.lists[topic := r.lists[topic] + [h]])
    else
      Registry(r.keys + [topic], r.lists[topic := [h]])
  }

  /** A series of `on` calls, one per (topic, handler) pair, in order. */
  function RegisterAll(r: Registry, calls: seq<(string, Callback)>): (r': Registry)
    requires r.Valid()
    ensures r'.Valid()
  {
    if calls == [] then r
    else
      var last := calls[|calls| - 1];
      Register(RegisterAll(r, calls[..|calls| - 1]), last.0, last.1)
  }

  /** The topics of `ts` in order of first occurrence, each once. */
  function FirstOccurrences(ts: seq<string>): seq<string> {
    if ts == [] then []
    else
      var earlier := ts[..|ts| - 1];
      FirstOccurrences(earlier) + (if ts[|ts| - 1] in earlier then [] else [ts[|ts| - 1]])
  }

  function Topics(calls: seq<(string, Callback)>): (ts: seq<string>)
    ensures |ts| == |calls| && forall i :: 0 <= i < |calls| ==> ts[i] == calls[i].0
  {
    seq(|calls|, i requires 0 <= i < |calls| => calls[i].0)
  }

  /** The handlers registered under `topic`, in registration order. */
  function CallbacksFor(calls: seq<(string, Callback)>, topic: string): seq<Callback> {
    if calls == [] then []
    else
      var last := calls[|calls| - 1];
      CallbacksFor(calls[..|calls| - 1], topic) + (if last.0 == topic then [last.1] else [])
  }

  lemma {:induction false} FirstOccurrencesMembers(ts: seq<string>)
    ensures forall t :: t in FirstOccurrences(ts) <==> t in ts
  {
    if ts != [] {
      FirstOccurrencesMembers(ts[..|ts| - 1]);
      assert ts == ts[..|ts| - 1] + [ts[|ts| - 1]];
    }
  }

  /** Registering from nothing: exactly the registered topics have a list. */
  lemma {:induction false} RegistrationDomain(calls: seq<(string, Callback)>)
    ensures forall t :: t in RegisterAll(NoHandlers, calls).lists <==> t in Topics(calls)
  {
    if calls != [] {
      var earlier := calls[..|calls| - 1];
      RegistrationDomain(earlier);
      assert Topics(calls) == Topics(earlier) + [calls[|calls| - 1].0];
    }
  }

  /** Registering from nothing: the keys are the topics in order of first registration. */
  lemma {:induction false} RegistrationKeys(calls: seq<(string, Callback)>)
    ensures RegisterAll(NoHandlers, calls).keys == FirstOccurrences(Topics(calls))
  {
    if calls != [] {
      var earlier := calls[..|calls| - 1];
      var topic := calls[|calls| - 1].0;
      RegistrationKeys(earlier);
      RegistrationDomain(earlier);
      var ts := Topics(calls);
      assert ts[..|ts| - 1] == Topics(earlier);
      assert ts[|ts| - 1] == topic;
      var r := RegisterAll(NoHandlers, earlier);
      assert topic in r.lists <==> topic in Topics(earlier);
      assert FirstOccurrences(ts) ==
        FirstOccurrences(Topics(earlier)) + (if topic in Topics(earlier) then [] else [topic]);
    }
  }

  /**
   * Registering from nothing: each topic's list holds the handlers registered
   * under it, in the order they were registered.
   */
  lemma {:induction false} RegistrationLists(calls: seq<(string, Callback)>)
    ensures forall t :: t in RegisterAll(NoHandlers, calls).lists ==>
      RegisterAll(NoHandlers, calls).lists[t] == CallbacksFor(calls, t)
  {
    if calls != [] {
      var earlier := calls[..|calls| - 1];
      var last := calls[|calls| - 1];
      RegistrationLists(earlier);
      var r := RegisterAll(NoHandlers, earlier);
      if last.0 !in r.lists {
        RegistrationDomain(earlier);
        CallbacksForAbsent(earlier, last.0);
      }
    }
  }

  lemma {:induction false} CallbacksForAbsent(calls: seq<(string, Callback)>, topic: string)
    requires topic !in Topics(calls)
    ensures CallbacksFor(calls, topic) == []
  {
    if calls != [] {
      assert Topics(calls[..|calls| - 1]) == Topics(calls)[..|calls| - 1];
      CallbacksForAbsent(calls[..|calls| - 1], topic);
    }
  }

  // ---------------------------------------------------------------------------
  // Dispatch by topic prefix

  /** The callbacks under those of `keys` that are prefixes of `topic`: key order, then list order. */
  function Matching(keys: seq<string>, lists: map<string, seq<Callback>>, topic: string): seq<Callback>
    requires forall i :: 0 <= i < |keys| ==> keys[i] in lists
  {
    if keys == [] then []
    else
      var k := keys[|keys| - 1];
      Matching(keys[..|keys| - 1], lists, topic) + (if k <= topic then lists[k] else [])
  }

  function Dispatch(r: Registry, topic: string): seq<Callback>
    requires r.Valid()
  {
    Matching(r.keys, r.lists, topic)
  }

  /** One handler called with the event's data. */
  datatype Invocation = Invocation(callback: Callback, data: Option<Event.Data>)

  function Invoke(callbacks: seq<Callback>, data: Option<Event.Data>): (calls: seq<Invocation>)
    ensures |calls| == |callbacks|
    ensures forall i :: 0 <= i < |callbacks| ==> calls[i] == Invocation(callbacks[i], data)
  {
    seq(|callbacks|, i requires 0 <= i < |callbacks| => Invocation(callbacks[i], data))
  }

  lemma {:induction false} MatchingMembers(keys: seq<string>, lists: map<string, seq<Callback>>, topic: string,
                                           c: Callback)
    requires forall i :: 0 <= i < |keys| ==> keys[i] in lists
    ensures c in Matching(keys, lists, topic) <==> exists k :: k in keys && k <= topic && c in lists[k]
  {
    if keys != [] {
      var earlier := keys[..|keys| - 1];
      MatchingMembers(earlier, lists, topic, c);
      assert keys == earlier + [keys[|keys| - 1]];
    }
  }

  /**
   * A handler is called for an event exactly when it is registered under a
   * key that is a prefix of the event's topic.
   */
  lemma DispatchComplete(r: Registry, topic: string, c: Callback)
    requires r.Valid()
    ensures c in Dispatch(r, topic) <==> exists k :: k in r.keys && k <= topic && c in r.lists[k]
  {
    MatchingMembers(r.keys, r.lists, topic, c);
  }

  lemma {:induction false} MatchingAgrees(keys: seq<string>, l1: map<string, seq<Callback>>,
                                          l2: map<string, seq<Callback>>, topic: string)
    requires forall i :: 0 <= i < |keys| ==> keys[i] in l1 && keys[i] in l2 && l1[keys[i]] == l2[keys[i]]
    ensures Matching(keys, l1, topic) == Matching(keys, l2, topic)
  {
    if keys != [] {
      MatchingAgrees(keys[..|keys| - 1], l1, l2, topic);
    }
  }

  /** A handler under a new key is called after every handler registered before it, for matching topics. */
  lemma DispatchAfterNewKey(r: Registry, key: string, h: Callback, topic: string)
    requires r.Valid() && key !in r.lists
    ensures Dispatch(Register(r, key, h), topic) == Dispatch(r, topic) + (if key <= topic then [h] else [])
  {
    var r' := Register(r, key, h);
    assert r'.keys[..|r'.keys| - 1] == r.keys;
    MatchingAgrees(r.keys, r.lists, r'.lists, topic);
  }

  lemma {:induction false} MatchingAfterAppend(keys: seq<string>, lists: map<string, seq<Callback>>,
                                               key: string, h: Callback, topic: string)
    requires key in lists && forall i :: 0 <= i < |keys| ==> keys[i] in lists
    requires forall i, j :: 0 <= i < j < |keys| ==> keys[i] != keys[j]
    ensures multiset(Matching(keys, lists[key := lists[key] + [h]], topic)) ==
            multiset(Matching(keys, lists, topic)) + (if key in keys && key <= topic then multiset{h} else multiset{})
  {
    if keys != [] {
      var earlier := keys[..|keys| - 1];
      var k := keys[|keys| - 1];
      MatchingAfterAppend(earlier, lists, key, h, topic);
      assert key in keys <==> key in earlier || key == k by {
        assert keys == earlier + [k];
      }
      if k == key {
        assert key !in earlier;
      }
    }
  }

  /** Another handler under a known key adds one call of it, for matching topics. */
  lemma DispatchAfterKnownKey(r: Registry, key: string, h: Callback, topic: string)
    requires r.Valid() && key in r.lists
    ensures multiset(Dispatch(Register(r, key, h), topic)) ==
            multiset(Dispatch(r, topic)) + (if key <= topic then multiset{h} else multiset{})
  {
    MatchingAfterAppend(r.keys, r.lists, key, h, topic);
  }

  /**
   * `triggerEvent`: for each key in order, when it is a prefix of the event's
   * topic, call each of its handlers in order with the event's data.
   */
  method TriggerEvent(handlers: Registry, evt: Event.Event) returns (calls: seq<Invocation>)
    requires handlers.Valid()
    ensures calls == Invoke(Dispatch(handlers, evt.topic), evt.data)
  {
    var keys := handlers.keys;
    calls := [];
    var i := 0;
    while i < |keys|
      invariant 0 <= i <= |keys|
      invariant calls == Invoke(Matching(keys[..i], handlers.lists, evt.topic), evt.data)
    {
      var key := keys[i];
      assert keys[..i + 1][..i] == keys[..i];
      if key <= evt.topic {
        var callbacks := handlers.lists[key];
        var done := Matching(keys[..i], handlers.lists, evt.topic);
        var j := 0;
        while j < |callbacks|
          invariant 0 <= j <= |callbacks|
          invariant calls == Invoke(done + callbacks[..j], evt.data)
        {
          assert done + callbacks[..j + 1] == (done + callbacks[..j]) + [callbacks[j]];
          calls := calls + [Invocation(callbacks[j], evt.data)];
          j := j + 1;
        }
        assert callbacks[..j] == callbacks;
      }
      i := i + 1;
    }
    assert keys[..i] == keys;
  }

  /** `handleEvent`: insert `(evt.sequence, evt)` into the store, then dispatch the event. */
  method HandleEvent(store: MemoryEventStore.Store<Event.Event>, handlers: Registry, evt: Event.Event)
    returns (calls: seq<Invocation>)
    requires handlers.Valid()
    modifies store
    ensures store.entries == old(store.entries) + [MemoryEventStore.Entry(evt.sequence, evt)]
    ensures calls == Invoke(Dispatch(handlers, evt.topic), evt.data)
  {
    store.Insert(evt.sequence, evt);
    calls := TriggerEvent(handlers, evt);
  }

  // ---------------------------------------------------------------------------
  // Connect

  /** What `connect` does to the two sockets, in order. */
  datatype SocketCall =
    | Subscribe(topic: string)
    | ConnectSnapshot(endpoint: string)
    | ConnectLive(endpoint: string)
    | SendSnapshot(frames: seq<Frame>)

  /** `[SYNCSTART, topics joined by ',', last stored sequence || 0]`. */
  function SyncStartFrames(topics: seq<string>, lastSequence: Option<int>): (frames: seq<Frame>)
    ensures |frames| == 3
    ensures Command.Get(frames) == Ok(Command.Command(Command.SyncStart, Join(topics, ','), Int(lastSequence.GetOr(0))))
  {
    var request := Command.Command(Command.SyncStart, Join(topics, ','), Int(lastSequence.GetOr(0)));
    Command.GetToFrames(request);
    Command.ToFrames(request)
  }

  /** Topics without ',' can be read back from the request in registration order. */
  lemma SyncStartTopics(topics: seq<string>, lastSequence: Option<int>)
    requires |topics| >= 1 && forall i :: 0 <= i < |topics| ==> ',' !in topics[i]
    ensures Split(Command.Get(SyncStartFrames(topics, lastSequence)).value.topic, ',') == topics
  {
    SplitJoin(topics, ',');
  }

  /**
   * `connect`: subscribe the live socket to every registered key, then
   * connect the snapshot and live sockets, then send one SYNCSTART request
   * with the keys and the store's last sequence (0 when it has none).
   */
  method Connect(config: Config, handlers: Registry, lastSequence: Option<int>) returns (calls: seq<SocketCall>)
    ensures |calls| == |handlers.keys| + 3
    ensures forall i :: 0 <= i < |handlers.keys| ==> calls[i] == Subscribe(handlers.keys[i])
    ensures calls[|handlers.keys|] == ConnectSnapshot(config.snapshot)
    ensures calls[|handlers.keys| + 1] == ConnectLive(config.address)
    ensures calls[|handlers.keys| + 2] == SendSnapshot(SyncStartFrames(handlers.keys, lastSequence))
  {
    var topics := handlers.keys;
    calls := [];
    var i := 0;
    while i < |topics|
      invariant 0 <= i <= |topics|
      invariant |calls| == i
      invariant forall j :: 0 <= j < i ==> calls[j] == Subscribe(topics[j])
    {
      calls := calls + [Subscribe(topics[i])];
      i := i + 1;
    }
    calls := calls + [ConnectSnapshot(config.snapshot), ConnectLive(config.address)];
    var sequence := lastSequence.GetOr(0);
    calls := calls + [SendSnapshot([Str(Command.SyncStart), Str(Join(topics, ',')), Numeric(Int(sequence))])];
  }

  // ---------------------------------------------------------------------------
  // The cursor and the two message handlers

  /** The value of `state.sequence`: a number (NaN when parsing failed) or null. */
  datatype Cursor = Value(num: Num) | Null

  /** `state.sequence = evt.sequence`. */
  function CursorOf(sequence: Option<int>): Cursor {
    match sequence
    case Some(n) => Value(Int(n))
    case None => Null
  }

  /** `evt.sequence > state.sequence` in JavaScript: null compares as 0, NaN compares false. */
  predicate Greater(sequence: Option<int>, c: Cursor) {
    match c
    case Null => sequence.GetOr(0) > 0
    case Value(Int(v)) => sequence.GetOr(0) > v
    case Value(NaN) => false
  }

  /** `state.sequence === 0 || evt.sequence > state.sequence`. */
  predicate Accepts(c: Cursor, sequence: Option<int>) {
    c == Value(Int(0)) || Greater(sequence, c)
  }

  /** For numbers: an event is new when the cursor is 0 or the event is past it. */
  lemma AcceptsNumbers(cursor: int, sequence: int)
    ensures Accepts(Value(Int(cursor)), Some(sequence)) <==> cursor == 0 || sequence > cursor
  {
  }

  /** A message on the snapshot channel, as the snapshot handler reads it. */
  datatype SnapshotMessage =
    | SyncEnd(command: Command.Command)
    | Replayed(evt: Event.Event)
    | Broken(error: Command.Error)

  /**
   * A message whose first frame reads SYNCEND is parsed like `command.get`
   * (a missing topic or sequence frame throws); any other message, whatever
   * its first frame, carries an event in the frames after the first.
   */
  function ReadSnapshot(frames: seq<Frame>): (m: SnapshotMessage)
    ensures !m.Replayed? <==> FrameText(At(frames, 0)) == Some(Command.SyncEnd)
    ensures m.SyncEnd? ==>
      m.command.cmd == Command.SyncEnd && |frames| >= 3 &&
      Some(m.command.topic) == FrameText(frames[1]) && FrameText(frames[2]).Some? &&
      m.command.sequence == ParseInt(FrameText(frames[2]).value)
    ensures m.Broken? ==> At(frames, 1) == Missing || At(frames, 2) == Missing
    ensures m.Replayed? ==> m.evt == Event.FromFrames(if frames == [] then [] else frames[1..])
  {
    if FrameText(At(frames, 0)) == Some(Command.SyncEnd) then
      match Command.Get(frames)
      case Ok(c) => SyncEnd(c)
      case Err(e) => Broken(e)
    else
      Replayed(Event.FromFrames(if frames == [] then [] else frames[1..]))
  }

  /** What one message on either channel led to. */
  datatype Outcome =
    | Applied(calls: seq<Invocation>)
    | Synchronised
    | Discarded
    | Threw(error: Command.Error)

  /** The state `getInstance` keeps for one subscriber. */
  class Client {
    const config: Config
    const store: MemoryEventStore.Store<Event.Event>
    var handlers: Registry
    var sequence: Cursor
    /** Whether the live socket is attached (`ref`) rather than detached (`unref`). */
    var attached: bool

    /** `getInstance(conf)`: no handlers, cursor 0, live socket detached. */
    constructor (conf: Options, store: MemoryEventStore.Store<Event.Event>)
      ensures config == GetConfig(conf) && this.store == store
      ensures handlers == NoHandlers && sequence == Value(Int(0)) && !attached
    {
      config := GetConfig(conf);
      this.store := store;
      handlers := NoHandlers;
      sequence := Value(Int(0));
      attached := false;
    }

    /** `on(topic, handler)`. */
    method On(topic: string, h: Callback)
      requires handlers.Valid()
      modifies this
      ensures handlers == Register(old(handlers), topic, h)
      ensures sequence == old(sequence) && attached == old(attached)
    {
      handlers := Register(handlers, topic, h);
    }

    /**
     * `snapshotHandler`: SYNCEND sets the cursor to its sequence and attaches
     * the live socket, storing and dispatching nothing; any other message is
     * stored and dispatched as a replayed event, leaving cursor and socket as
     * they are.
     */
    method SnapshotHandler(frames: seq<Frame>) returns (outcome: Outcome)
      requires handlers.Valid()
      modifies this, store
      ensures handlers == old(handlers)
      ensures match ReadSnapshot(frames)
        case SyncEnd(c) =>
          sequence == Value(c.sequence) && attached &&
          store.entries == old(store.entries) && outcome == Synchronised
        case Replayed(evt) =>
          sequence == old(sequence) && attached == old(attached) &&
          store.entries == old(store.entries) + [MemoryEventStore.Entry(evt.sequence, evt)] &&
          outcome == Applied(Invoke(Dispatch(handlers, evt.topic), evt.data))
        case Broken(e) =>
          sequence == old(sequence) && attached == old(attached) &&
          store.entries == old(store.entries) && outcome == Threw(e)
    {
      match ReadSnapshot(frames)
      case SyncEnd(c) =>
        sequence := Value(c.sequence);
        attached := true;
        outcome := Synchronised;
      case Replayed(evt) =>
        var calls := HandleEvent(store, handlers, evt);
        outcome := Applied(calls);
      case Broken(e) =>
        outcome := Threw(e);
    }

    /**
     * `subscriberHandler`: an event the cursor accepts is stored and
     * dispatched, and then becomes the cursor; any other is dropped and
     * nothing changes.
     */
    method LiveHandler(frames: seq<Frame>) returns (outcome: Outcome)
      requires handlers.Valid()
      modifies this, store
      ensures handlers == old(handlers) && attached == old(attached)
      ensures var evt := Event.FromFrames(frames);
        if Accepts(old(sequence), evt.sequence) then
          sequence == CursorOf(evt.sequence) &&
          store.entries == old(store.entries) + [MemoryEventStore.Entry(evt.sequence, evt)] &&
          outcome == Applied(Invoke(Dispatch(handlers, evt.topic), evt.data))
        else
          sequence == old(sequence) && store.entries == old(store.entries) && outcome == Discarded
    {
      var evt := Event.FromFrames(frames);
      if Accepts(sequence, evt.sequence) {
        var calls := HandleEvent(store, handlers, evt);
        sequence := CursorOf(evt.sequence);
        outcome := Applied(calls);
      } else {
        outcome := Discarded;
      }
    }

    /**
     * A series of `subscriberHandler` calls, one per live message: the
     * sequences of the events it applies are exactly the live run of the
     * decoded sequences from the cursor it started with, the store gains
     * one entry per applied event, in order, and the cursor ends where
     * that run leaves it.
     */
    method LiveHandlerRun(messages: seq<seq<Frame>>) returns (applied: seq<Option<int>>)
      requires handlers.Valid()
      modifies this, store
      ensures handlers == old(handlers) && attached == old(attached)
      ensures applied == LiveRun(old(sequence), LiveSequences(messages))
      ensures sequence == LiveCursor(old(sequence), LiveSequences(messages))
      ensures store.entries == old(store.entries) + LiveEntries(old(sequence), messages)
      ensures |store.entries| == |old(store.entries)| + |applied|
    {
      var sequences := LiveSequences(messages);
      applied := [];
      var i := 0;
      while i < |messages|
        invariant 0 <= i <= |messages|
        invariant handlers == old(handlers) && attached == old(attached)
        invariant applied + LiveRun(sequence, sequences[i..]) == LiveRun(old(sequence), sequences)
        invariant LiveCursor(sequence, sequences[i..]) == LiveCursor(old(sequence), sequences)
        invariant store.entries + LiveEntries(sequence, messages[i..]) == old(store.entries) + LiveEntries(old(sequence), messages)
        invariant |store.entries| == |old(store.entries)| + |applied|
      {
        ghost var before := sequence;
        ghost var entries := store.entries;
        var outcome := LiveHandler(messages[i]);
        assert sequences[i..][1..] == sequences[i + 1..];
        assert messages[i..][1..] == messages[i + 1..];
        if outcome.Applied? {
          LiveRunAccepted(before, sequences[i..]);
          LiveEntriesAccepted(before, messages[i..]);
          applied := applied + [sequences[i]];
        } else {
          LiveRunDropped(before, sequences[i..]);
          LiveEntriesDropped(before, messages[i..]);
        }
        i := i + 1;
      }
      assert sequences[i..] == [] && messages[i..] == [];
    }
  }

  /** The sequence numbers of live messages, as `subscriberHandler` decodes them. */
  function LiveSequences(messages: seq<seq<Frame>>): (r: seq<Option<int>>)
    ensures |r| == |messages|
    ensures forall i :: 0 <= i < |messages| ==> r[i] == Event.FromFrames(messages[i]).sequence
  {
    seq(|messages|, i requires 0 <= i < |messages| => Event.FromFrames(messages[i]).sequence)
  }

  // ---------------------------------------------------------------------------
  // Runs of live events

  /** The sequences of the live events applied, in order, from cursor `c`. */
  function LiveRun(c: Cursor, sequences: seq<Option<int>>): seq<Option<int>>
    decreases |sequences|
  {
    if sequences == [] then []
    else if Accepts(c, sequences[0]) then [sequences[0]] + LiveRun(CursorOf(sequences[0]), sequences[1..])
    else LiveRun(c, sequences[1..])
  }

  /** The cursor after the live run of `sequences` from cursor `c`. */
  function LiveCursor(c: Cursor, sequences: seq<Option<int>>): Cursor
    decreases |sequences|
  {
    if sequences == [] then c
    else if Accepts(c, sequences[0]) then LiveCursor(CursorOf(sequences[0]), sequences[1..])
    else LiveCursor(c, sequences[1..])
  }

  /** The store entries the live run of `messages` from cursor `c` adds, in order. */
  function LiveEntries(c: Cursor, messages: seq<seq<Frame>>): seq<MemoryEventStore.Entry<Event.Event>>
    decreases |messages|
  {
    if messages == [] then []
    else
      var evt := Event.FromFrames(messages[0]);
      if Accepts(c, evt.sequence) then
        [MemoryEventStore.Entry(evt.sequence, evt)] + LiveEntries(CursorOf(evt.sequence), messages[1..])
      else LiveEntries(c, messages[1..])
  }

  lemma LiveEntriesAccepted(c: Cursor, messages: seq<seq<Frame>>)
    requires messages != [] && Accepts(c, Event.FromFrames(messages[0]).sequence)
    ensures var evt := Event.FromFrames(messages[0]);
      LiveEntries(c, messages) == [MemoryEventStore.Entry(evt.sequence, evt)] + LiveEntries(CursorOf(evt.sequence), messages[1..])
  {
  }

  lemma LiveEntriesDropped(c: Cursor, messages: seq<seq<Frame>>)
    requires messages != [] && !Accepts(c, Event.FromFrames(messages[0]).sequence)
    ensures LiveEntries(c, messages) == LiveEntries(c, messages[1..])
  {
  }

  /**
   * The entries a live run stores are the applied events themselves, keyed
   * by their own sequences, and those sequences are the live run.
   */
  lemma {:induction false} LiveEntriesAreApplied(c: Cursor, messages: seq<seq<Frame>>)
    ensures |LiveEntries(c, messages)| == |LiveRun(c, LiveSequences(messages))|
    ensures forall k :: 0 <= k < |LiveEntries(c, messages)| ==>
      LiveEntries(c, messages)[k].sequence == LiveRun(c, LiveSequences(messages))[k] &&
      LiveEntries(c, messages)[k].raw.sequence == LiveEntries(c, messages)[k].sequence
    decreases |messages|
  {
    if messages != [] {
      var evt := Event.FromFrames(messages[0]);
      var sequences := LiveSequences(messages);
      assert sequences[0] == evt.sequence;
      assert sequences[1..] == LiveSequences(messages[1..]);
      if Accepts(c, evt.sequence) {
        LiveEntriesAreApplied(CursorOf(evt.sequence), messages[1..]);
      } else {
        LiveEntriesAreApplied(c, messages[1..]);
      }
    }
  }

  /** The cursor a live run leaves is the last sequence it applied, or `c` when it applied none. */
  lemma {:induction false} LiveCursorIsLastApplied(c: Cursor, sequences: seq<Option<int>>)
    ensures var run := LiveRun(c, sequences);
      LiveCursor(c, sequences) == if run == [] then c else CursorOf(run[|run| - 1])
    decreases |sequences|
  {
    if sequences != [] {
      if Accepts(c, sequences[0]) {
        LiveCursorIsLastApplied(CursorOf(sequences[0]), sequences[1..]);
      } else {
        LiveCursorIsLastApplied(c, sequences[1..]);
      }
    }
  }

  /** The numbers of `sequences` above `s`, in order. */
  function Above(sequences: seq<int>, s: int): seq<int> {
    if sequences == [] then []
    else (if sequences[0] > s then [sequences[0]] else []) + Above(sequences[1..], s)
  }

  function Numbered(sequences: seq<int>): (r: seq<Option<int>>)
    ensures |r| == |sequences| && forall i :: 0 <= i < |sequences| ==> r[i] == Some(sequences[i])
  {
    seq(|sequences|, i requires 0 <= i < |sequences| => Some(sequences[i]))
  }

  /** Every sequence in `applied` is a number past `s`. */
  predicate AllPast(applied: seq<Option<int>>, s: int) {
    forall i :: 0 <= i < |applied| ==> applied[i].Some? && applied[i].value > s
  }

  /** The sequences in `applied` are numbers, each smaller than every later one. */
  predicate StrictlyIncreasing(applied: seq<Option<int>>) {
    forall i, j :: 0 <= i < j < |applied| ==> applied[i].Some? && applied[j].Some? && applied[i].value < applied[j].value
  }

  /**
   * From a positive cursor, whatever order the live events come in, the ones
   * applied are all past the cursor and strictly increasing: none is applied
   * twice.
   */
  lemma {:induction false} LiveRunIncreasing(s: int, sequences: seq<int>)
    requires s > 0
    ensures AllPast(LiveRun(Value(Int(s)), Numbered(sequences)), s)
    ensures StrictlyIncreasing(LiveRun(Value(Int(s)), Numbered(sequences)))
    decreases |sequences|
  {
    if sequences != [] {
      var q := sequences[0];
      assert Numbered(sequences)[1..] == Numbered(sequences[1..]);
      var applied := LiveRun(Value(Int(s)), Numbered(sequences));
      if q > s {
        LiveRunIncreasing(q, sequences[1..]);
        var rest := LiveRun(Value(Int(q)), Numbered(sequences[1..]));
        assert applied == [Some(q)] + rest;
        forall i | 0 <= i < |applied|
          ensures applied[i].Some? && applied[i].value > s
        {
          if i > 0 {
            assert applied[i] == rest[i - 1];
          }
        }
        forall i, j | 0 <= i < j < |applied|
          ensures applied[i].Some? && applied[j].Some? && applied[i].value < applied[j].value
        {
          assert applied[j] == rest[j - 1];
          if i > 0 {
            assert applied[i] == rest[i - 1];
          }
        }
      } else {
        LiveRunIncreasing(s, sequences[1..]);
        assert applied == LiveRun(Value(Int(s)), Numbered(sequences[1..]));
      }
    }
  }

  /**
   * From a positive cursor, live events in increasing order: exactly those
   * past the cursor are applied, in order, so the ones the replay already
   * delivered are dropped.
   */
  lemma {:induction false} LiveRunSkipsReplayed(s: int, sequences: seq<int>)
    requires s > 0
    requires forall i, j :: 0 <= i < j < |sequences| ==> sequences[i] < sequences[j]
    ensures LiveRun(Value(Int(s)), Numbered(sequences)) == Numbered(Above(sequences, s))
    decreases |sequences|, 1
  {
    if sequences == [] {
    } else if sequences[0] > s {
      SkipsReplayedFirstNew(s, sequences);
    } else {
      SkipsReplayedFirstOld(s, sequences);
    }
  }

  /** The first event is past the cursor: it and, the order being increasing, all later ones are applied. */
  lemma {:induction false} SkipsReplayedFirstNew(s: int, sequences: seq<int>)
    requires s > 0 && sequences != [] && sequences[0] > s
    requires forall i, j :: 0 <= i < j < |sequences| ==> sequences[i] < sequences[j]
    ensures LiveRun(Value(Int(s)), Numbered(sequences)) == Numbered(Above(sequences, s))
    decreases |sequences|, 0
  {
    var q, tail := sequences[0], sequences[1..];
    IncreasingTail(sequences);
    NumberedFirst(sequences);
    var numbered := Numbered(sequences);
    assert numbered[0] == Some(q) && numbered[1..] == Numbered(tail);
    LiveRunSkipsReplayed(q, tail);
    AboveAll(tail, q, s);
    LiveRunAccepted(Value(Int(s)), numbered);
    assert Above(sequences, s) == sequences;
  }

  /** The first event is not past the cursor: it is dropped and the cursor stays. */
  lemma {:induction false} SkipsReplayedFirstOld(s: int, sequences: seq<int>)
    requires s > 0 && sequences != [] && sequences[0] <= s
    requires forall i, j :: 0 <= i < j < |sequences| ==> sequences[i] < sequences[j]
    ensures LiveRun(Value(Int(s)), Numbered(sequences)) == Numbered(Above(sequences, s))
    decreases |sequences|, 0
  {
    var tail := sequences[1..];
    IncreasingTail(sequences);
    NumberedFirst(sequences);
    var numbered := Numbered(sequences);
    assert numbered[0] == Some(sequences[0]) && numbered[1..] == Numbered(tail);
    LiveRunSkipsReplayed(s, tail);
    LiveRunDropped(Value(Int(s)), numbered);
  }

  lemma LiveRunAccepted(c: Cursor, sequences: seq<Option<int>>)
    requires sequences != [] && Accepts(c, sequences[0])
    ensures LiveRun(c, sequences) == [sequences[0]] + LiveRun(CursorOf(sequences[0]), sequences[1..])
    ensures LiveCursor(c, sequences) == LiveCursor(CursorOf(sequences[0]), sequences[1..])
  {
  }

  lemma LiveRunDropped(c: Cursor, sequences: seq<Option<int>>)
    requires sequences != [] && !Accepts(c, sequences[0])
    ensures LiveRun(c, sequences) == LiveRun(c, sequences[1..])
    ensures LiveCursor(c, sequences) == LiveCursor(c, sequences[1..])
  {
  }

  /** After the first of increasing numbers, the rest are increasing and all past the first. */
  lemma IncreasingTail(sequences: seq<int>)
    requires sequences != []
    requires forall i, j :: 0 <= i < j < |sequences| ==> sequences[i] < sequences[j]
    ensures forall i, j :: 0 <= i < j < |sequences[1..]| ==> sequences[1..][i] < sequences[1..][j]
    ensures forall i :: 0 <= i < |sequences[1..]| ==> sequences[1..][i] > sequences[0]
  {
    forall i, j | 0 <= i < j < |sequences[1..]|
      ensures sequences[1..][i] < sequences[1..][j]
    {
      assert sequences[1..][i] == sequences[i + 1] && sequences[1..][j] == sequences[j + 1];
    }
    forall i | 0 <= i < |sequences[1..]|
      ensures sequences[1..][i] > sequences[0]
    {
      assert sequences[1..][i] == sequences[i + 1];
    }
  }

  lemma NumberedFirst(sequences: seq<int>)
    requires sequences != []
    ensures Numbered(sequences) == [Some(sequences[0])] + Numbered(sequences[1..])
  {
  }

  lemma {:induction false} AboveAll(sequences: seq<int>, q: int, s: int)
    requires s < q && forall i :: 0 <= i < |sequences| ==> sequences[i] > q
    ensures Above(sequences, q) == Above(sequences, s) == sequences
  {
    if sequences != [] {
      AboveAll(sequences[1..], q, s);
    }
  }

  /** A cursor that is NaN (SYNCEND without a numeric sequence) drops every live event. */
  lemma {:induction false} NaNCursorDropsAll(sequences: seq<Option<int>>)
    ensures LiveRun(Value(NaN), sequences) == []
  {
    if sequences != [] {
      NaNCursorDropsAll(sequences[1..]);
    }
  }

  /**
   * Cursor 0 accepts any event, even one as old as the cursor: two live
   * events with sequence 0 are both applied.
   */
  lemma ZeroCursorAcceptsAll(sequence: Option<int>)
    ensures Accepts(Value(Int(0)), sequence)
    ensures LiveRun(Value(Int(0)), [Some(0), Some(0)]) == [Some(0), Some(0)]
  {
    assert [Some(0), Some(0)][1..] == [Some(0)];
  }
}

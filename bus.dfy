/**
 * lib/bus.js: the broker. It binds a publisher endpoint and a collector
 * endpoint; every event a producer sends to the collector is given the next
 * sequence number and published once on the publisher endpoint.
 */
module Bus {
  import opened Wrappers
  import opened Text
  import opened Frames
  import Address
  import Event

  const DefaultSnapshot: string := "tcp://127.0.0.1:5556"
  const DefaultPublisher: string := "tcp://127.0.0.1:5557"
  const DefaultCollector: string := "tcp://127.0.0.1:5558"

  /** The configuration handed to `getInstance`; `None` is an option left out. */
  datatype Options = Options(snapshot: Option<string>, publisher: Option<string>, collector: Option<string>)

  datatype Config = Config(snapshot: string, publisher: string, collector: string)

  /**
   * `getConfig`: every option given is kept and every other one takes its
   * default, except that a truthy publisher without a truthy collector puts
   * the collector at the publisher's port + 1. The snapshot endpoint is not
   * derived.
   */
  function GetConfig(conf: Options): (config: Config)
    ensures config.snapshot == conf.snapshot.GetOr(DefaultSnapshot)
    ensures config.publisher == conf.publisher.GetOr(DefaultPublisher)
    ensures Truthy(conf.collector) ==> config.collector == conf.collector.value
    ensures !Truthy(conf.publisher) ==> config.collector == conf.collector.GetOr(DefaultCollector)
    ensures Truthy(conf.publisher) && !Truthy(conf.collector) ==>
      config.collector == Address.GetAddress(conf.publisher.value, 1)
  {
    var config := Config(conf.snapshot.GetOr(DefaultSnapshot), conf.publisher.GetOr(DefaultPublisher),
                         conf.collector.GetOr(DefaultCollector));
    if Truthy(conf.publisher) && !Truthy(conf.collector) then
      config.(collector := Address.GetAddress(conf.publisher.value, 1))
    else
      config
  }

  /** With no options the endpoints are ports 5556, 5557 and 5558 of 127.0.0.1. */
  lemma ConfigDefaults()
    ensures GetConfig(Options(None, None, None)) ==
      Config(Address.Endpoint("tcp", "//127.0.0.1", 5556), Address.Endpoint("tcp", "//127.0.0.1", 5557),
             Address.Endpoint("tcp", "//127.0.0.1", 5558))
  {
    Address.DefaultEndpointTexts();
  }

  /** A publisher endpoint without a collector: the collector listens one port up. */
  lemma CollectorFollowsPublisher(snapshot: Option<string>, protocol: string, host: string, port: int)
    requires ':' !in protocol && ':' !in host
    ensures GetConfig(Options(snapshot, Some(Address.Endpoint(protocol, host, port)), None)).collector ==
            Address.Endpoint(protocol, host, port + 1)
  {
    var publisher := Address.Endpoint(protocol, host, port);
    assert publisher[|protocol|] == ':';
    Address.ShiftPort(protocol, host, port, 1);
  }

  lemma ExamplePortTexts()
    ensures IntText(7767) == "7767" && IntText(7768) == "7768"
  {
    assert NatDigits(7) == "7";
    assert NatDigits(77) == "77";
    assert NatDigits(776) == "776";
  }

  lemma ExampleTexts()
    ensures Address.Endpoint("tcp", "//127.0.0.1", 7767) == "tcp://127.0.0.1:7767"
    ensures Address.Endpoint("tcp", "//127.0.0.1", 7768) == "tcp://127.0.0.1:7768"
  {
    ExamplePortTexts();
  }

  /** Publisher 'tcp://127.0.0.1:7767' gives collector 'tcp://127.0.0.1:7768'. */
  lemma CollectorExample()
    ensures GetConfig(Options(None, Some("tcp://127.0.0.1:7767"), None)).collector == "tcp://127.0.0.1:7768"
  {
    ExampleTexts();
    CollectorFollowsPublisher(None, "tcp", "//127.0.0.1", 7767);
  }

  /** The frames after the router's identity frame. */
  function Payload(message: seq<Frame>): seq<Frame> {
    if message == [] then [] else message[1..]
  }

  /**
   * What the collector handler publishes for `message` when the counter has
   * just become `k`: the decoded event with its sequence replaced by `k`.
   */
  function Stamp(message: seq<Frame>, k: int): (frames: seq<Frame>)
    ensures |frames| == 6 && frames[1] == Numeric(Int(k))
    ensures Event.FromFrames(frames) == Event.FromFrames(Payload(message)).(sequence := Some(k))
  {
    Event.ToFrames(Event.FromFrames(Payload(message)).(sequence := Some(k)))
  }

  /** What is published for `messages`, in arrival order, by a counter starting at `base`. */
  function Run(base: int, messages: seq<seq<Frame>>): seq<seq<Frame>>
  {
    if messages == [] then []
    else Run(base, messages[..|messages| - 1]) + [Stamp(messages[|messages| - 1], base + |messages|)]
  }

  lemma {:induction false} RunIsStamps(base: int, messages: seq<seq<Frame>>)
    ensures |Run(base, messages)| == |messages|
    ensures forall i :: 0 <= i < |messages| ==> Run(base, messages)[i] == Stamp(messages[i], base + i + 1)
  {
    if messages != [] {
      var prefix := messages[..|messages| - 1];
      RunIsStamps(base, prefix);
      forall i | 0 <= i < |prefix|
        ensures Run(base, messages)[i] == Stamp(messages[i], base + i + 1)
      {
        assert messages[i] == prefix[i];
      }
    }
  }

  /**
   * One publish per message, in arrival order; the i-th carries sequence
   * base + i + 1, so the sequences are base + 1 .. base + N without gaps or
   * repeats, and every other field is the incoming one.
   */
  lemma RunNumbersConsecutively(base: int, messages: seq<seq<Frame>>, i: nat)
    requires i < |messages|
    ensures |Run(base, messages)| == |messages|
    ensures Event.FromFrames(Run(base, messages)[i]) ==
            Event.FromFrames(Payload(messages[i])).(sequence := Some(base + i + 1))
  {
    RunIsStamps(base, messages);
  }

  /** The six published frames repeat the incoming ones but for the sequence. */
  lemma StampPassesFieldsThrough(identity: Frame, topic: string, incoming: Frame, producer: string,
                                 timestamp: string, uuid: string, data: string, k: int)
    ensures Stamp([identity, Str(topic), incoming, Str(producer), Str(timestamp), Str(uuid), Str(data)], k) ==
            [Str(topic), Numeric(Int(k)), Str(producer), Str(timestamp), Str(uuid), Str(data)]
  {
  }

  /** The broker's state: the `state.sequence` counter and what went out on the publisher socket. */
  class Broker {
    const config: Config
    var sequence: nat
    var published: seq<seq<Frame>>
    /** The collector messages received so far, identity frame included. */
    ghost var arrivals: seq<seq<Frame>>

    ghost predicate Valid()
      reads this
    {
      sequence == |arrivals| && published == Run(0, arrivals)
    }

    /** `getInstance(conf)`: the counter starts at 0 and nothing is published. */
    constructor (conf: Options)
      ensures Valid() && config == GetConfig(conf)
      ensures sequence == 0 && published == [] && arrivals == []
    {
      config := GetConfig(conf);
      sequence := 0;
      published := [];
      arrivals := [];
    }

    /**
     * `collectorHandler`: drop the identity frame, decode the event, give it
     * `++state.sequence` whatever sequence it carried, publish it once.
     */
    method CollectorHandler(message: seq<Frame>)
      requires Valid()
      modifies this
      ensures Valid() && arrivals == old(arrivals) + [message]
      ensures sequence == old(sequence) + 1
      ensures published == old(published) + [Stamp(message, sequence)]
    {
      var evt := Event.FromFrames(Payload(message));
      sequence := sequence + 1;
      evt := evt.(sequence := Some(sequence));
      published := published + [Event.ToFrames(evt)];
      arrivals := arrivals + [message];
      assert arrivals[..|arrivals| - 1] == old(arrivals);
    }
  }
}

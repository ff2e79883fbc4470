/**
 * The event as it travels in six frames. lib/event.js is not part of this
 * model: the frame positions below are the ones test/event_test.js fixes, and
 * the payload is kept in its serialized form.
 */
module Event {
  import opened Wrappers
  import opened Text
  import opened Frames

  /** The application payload, opaque here: its serialized block. */
  datatype Data = Data(serialized: string)

  datatype Event = Event(
    topic: string,
    sequence: Option<int>,
    producer: string,
    timestamp: string,
    uuid: string,
    data: Option<Data>)

  /** The sequence frame: a number, or absent while no sequence is assigned. */
  function SequenceFrame(sequence: Option<int>): Frame {
    match sequence
    case Some(n) => Numeric(Int(n))
    case None => Missing
  }

  function DataFrame(data: Option<Data>): Frame {
    match data
    case Some(d) => Str(d.serialized)
    case None => Missing
  }

  /** `toFrames()`: `[topic, sequence, producer, timestamp, uuid, data]`. */
  function ToFrames(e: Event): (frames: seq<Frame>)
    ensures |frames| == 6
    ensures frames[1].Missing? <==> e.sequence.None?
    ensures frames[5].Missing? <==> e.data.None?
    ensures FromFrames(frames) == e
  {
    [Str(e.topic), SequenceFrame(e.sequence), Str(e.producer), Str(e.timestamp), Str(e.uuid), DataFrame(e.data)]
  }

  function TextOr(f: Frame, default: string): string {
    FrameText(f).GetOr(default)
  }

  /** A sequence frame read back: a number, or the decimal text of one. */
  function SequenceOf(f: Frame): (r: Option<int>)
    ensures f.Missing? ==> r.None?
  {
    match f
    case Numeric(Int(n)) => Some(n)
    case Numeric(NaN) => None
    case Str(s) => (match ParseInt(s) case Int(n) => Some(n) case NaN => None)
    case Missing => None
  }

  function DataOf(f: Frame): Option<Data> {
    match FrameText(f)
    case Some(s) => Some(Data(s))
    case None => None
  }

  /** Build an event from its frames by position; absent trailing frames read as empty or null. */
  function FromFrames(frames: seq<Frame>): Event {
    Event(TextOr(At(frames, 0), ""), SequenceOf(At(frames, 1)), TextOr(At(frames, 2), ""),
          TextOr(At(frames, 3), ""), TextOr(At(frames, 4), ""), DataOf(At(frames, 5)))
  }
}

/**
 * Message frames as the event bus hands them to, and takes them from, its
 * sockets: text, a number, or an absent value (null or undefined).
 */
module Frames {
  import opened Wrappers
  import opened Text

  datatype Frame = Str(text: string) | Numeric(num: Num) | Missing

  /** `frame.toString()`; `None` where JavaScript throws, on an absent frame. */
  function FrameText(f: Frame): (r: Option<string>)
    ensures r.None? <==> f.Missing?
  {
    match f
    case Str(s) => Some(s)
    case Numeric(n) => Some(NumText(n))
    case Missing => None
  }

  /** `frames[i]`: an index past the end reads as undefined. */
  function At(frames: seq<Frame>, i: nat): Frame {
    if i < |frames| then frames[i] else Missing
  }
}

/** lib/command.js: the replay-control command carried on the snapshot channel. */
module Command {
  import opened Wrappers
  import opened Text
  import opened Frames

  const SyncStart: string := "SYNCSTART"
  const SyncEnd: string := "SYNCEND"

  /** `{cmd, topic, sequence}`; `topic` is the frame's text as it is, not split on ','. */
  datatype Command = Command(cmd: string, topic: string, sequence: Num)

  /** `.toString()` was called on the absent frame at `index`, which throws a TypeError. */
  datatype Error = MissingFrame(index: nat)

  /**
   * `get(frames)`: frame 0 is the command, frame 1 the topic, frame 2 is read
   * with `parseInt(…, 10)`; frames after the third are ignored, and a missing
   * one among the first three throws (the first missing one is reported).
   */
  function Get(frames: seq<Frame>): (r: Result<Command, Error>)
    ensures r.Ok? <==> At(frames, 0) != Missing && At(frames, 1) != Missing && At(frames, 2) != Missing
    ensures r.Ok? ==>
      Some(r.value.cmd) == FrameText(frames[0]) && Some(r.value.topic) == FrameText(frames[1]) &&
      r.value.sequence == ParseInt(FrameText(frames[2]).value)
    ensures r.Err? ==>
      At(frames, r.error.index) == Missing && forall i :: 0 <= i < r.error.index ==> At(frames, i) != Missing
  {
    match (FrameText(At(frames, 0)), FrameText(At(frames, 1)), FrameText(At(frames, 2)))
    case (None, _, _) => Err(MissingFrame(0))
    case (_, None, _) => Err(MissingFrame(1))
    case (_, _, None) => Err(MissingFrame(2))
    case (Some(cmd), Some(topic), Some(sequence)) => Ok(Command(cmd, topic, ParseInt(sequence)))
  }

  /** `toFrames()`: `[cmd, topic, sequence]`, the sequence as a number. */
  function ToFrames(c: Command): (frames: seq<Frame>)
    ensures |frames| == 3
    ensures FrameText(frames[0]) == Some(c.cmd) && FrameText(frames[1]) == Some(c.topic)
    ensures frames[2] == Numeric(c.sequence)
  {
    [Str(c.cmd), Str(c.topic), Numeric(c.sequence)]
  }

  /** Reading back the frames of a command gives that command. */
  lemma GetToFrames(c: Command)
    ensures Get(ToFrames(c)) == Ok(c)
  {
    ParseNumText(c.sequence);
  }

  /** Text frames with a decimal third frame give back the integer, as a number frame. */
  lemma ToFramesGet(cmd: string, topic: string, n: int)
    ensures Get([Str(cmd), Str(topic), Str(IntText(n))]).Ok?
    ensures ToFrames(Get([Str(cmd), Str(topic), Str(IntText(n))]).value) ==
            [Str(cmd), Str(topic), Numeric(Int(n))]
  {
    ParseIntText(n);
  }

  /** Frames beyond the third change nothing. */
  lemma GetIgnoresExtraFrames(frames: seq<Frame>, extra: seq<Frame>)
    requires |frames| >= 3
    ensures Get(frames + extra) == Get(frames)
  {
    assert (frames + extra)[..3] == frames[..3];
  }

  lemma TagsDiffer()
    ensures SyncStart == "SYNCSTART" && SyncEnd == "SYNCEND" && SyncStart != SyncEnd
  {
  }

  /** The frames `['SYNCSTART', '/test', '1']`. */
  lemma SyncStartExample()
    ensures Get([Str("SYNCSTART"), Str("/test"), Str("1")]) == Ok(Command("SYNCSTART", "/test", Int(1)))
  {
    ParseIntText(1);
    assert IntText(1) == "1";
  }
}

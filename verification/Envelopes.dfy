/** What REQ, ROUTER and DEALER sockets do to the frames of a message. */
module Envelopes {
  import opened Bytes

  /** REQ puts an empty delimiter in front of what it sends. */
  function ReqSend(frames: Frames): Frames {
    [EMPTY] + frames
  }

  /** REQ takes the first frame off what it receives, unless it is the only one. */
  function ReqReceive(frames: Frames): Frames {
    if |frames| > 1 then frames[1..] else frames
  }

  /** ROUTER names the connection a message came from. */
  function RouterReceive(id: Bytes, frames: Frames): Frames {
    [id] + frames
  }

  /** ROUTER sends everything but the first frame to the connection the first frame names. */
  function RouterSend(frames: Frames): (Bytes, Frames)
    requires frames != []
  {
    (frames[0], frames[1..])
  }
}

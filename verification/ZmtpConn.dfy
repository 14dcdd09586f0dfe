/** A ZMTP connection over an abstract byte stream: the write and read paths as they are written. */
module ZmtpConn {
  import opened Bytes
  import opened Sequences
  import opened Zmtp

  datatype Security = NullSecurity | PlainSecurity {
    /** NULL and PLAIN pass data through unchanged. */
    function Encrypt(data: Bytes): Bytes { data }
    function Decrypt(data: Bytes): Bytes { data }
  }

  datatype Outcome = Done | Failed(fault: Fault)

  /** A message whose first frames are already known. */
  function Continue(frames: Frames, isCommand: bool, r: MsgRead): MsgRead {
    match r
    case NoMsg(fault, rest) => r
    case Msg(fs, c, rest) => Msg(frames + fs, isCommand || c, rest)
  }

  /** One more frame read: what it means for the message being collected. */
  lemma ContinueStep(frames: Frames, isCommand: bool, s: Bytes)
    ensures var f, r := ReadFrame(s), Continue(frames, isCommand, ReadMsg(s));
            if f.NoFrame? then r == NoMsg(f.fault, f.rest)
            else if f.more then r == Continue(frames + [f.body], isCommand || f.isCommand, ReadMsg(f.rest))
            else r == Msg(frames + [f.body], isCommand || f.isCommand, f.rest)
  {
    var f := ReadFrame(s);
    if f.Frame? {
      ReadMsgUnfold(s, f.more, f.isCommand, f.body, f.rest);
      if f.more && ReadMsg(f.rest).Msg? { Assoc(frames, [f.body], ReadMsg(f.rest).frames); }
    }
  }

  lemma EncodeFrom(done: Bytes, frames: Frames, i: nat)
    requires i < |frames|
    ensures done + EncodeFrames(frames[i..])
         == (done + EncodeFrame(false, i < |frames| - 1, frames[i])) + EncodeFrames(frames[i + 1..])
  {
    assert frames[i..][1..] == frames[i + 1..];
  }

  /** The header bytes as the write paths assemble them, from flags of their own. */
  function BuildHeader(flag: byte, isCommand: bool, size: nat): (h: Bytes)
    requires flag == 0 || flag == MORE
    requires size <= MAX_INT64
    ensures h == Header(isCommand, flag == MORE, size)
  {
    var long := if size > 255 then Toggle(flag, LONG) else flag;
    var all := if isCommand then Toggle(long, COMMAND) else long;
    [all] + if size > 255 then BigEndian(size, 8) else [size]
  }

  class Conn {
    const sec: Security
    var input: Bytes    // what the peer has sent and nobody has read yet
    var output: Bytes   // what has been written so far
    var closed: bool

    constructor (sec: Security, input: Bytes)
      ensures this.sec == sec && this.input == input && output == [] && !closed
    {
      this.sec, this.input, output, closed := sec, input, [], false;
    }

    /** Writes one frame: the header, then the body. */
    method Send(isCommand: bool, body: Bytes, flag0: byte)
      requires flag0 == 0 || flag0 == MORE
      requires |body| <= MAX_INT64
      modifies this`output
      ensures output == old(output) + EncodeFrame(isCommand, flag0 == MORE, body)
    {
      output := output + BuildHeader(flag0, isCommand, |body|);
      if |body| > 0 { output := output + sec.Encrypt(body); }
    }

    /** The two buffers of one frame of a multipart message. */
    method FrameBuffers(frame: Bytes, flag: byte) returns (buffers: Bytes)
      requires flag == 0 || flag == MORE
      requires |frame| <= MAX_INT64
      ensures buffers == EncodeFrame(false, flag == MORE, frame)
    {
      var header := BuildHeader(flag, false, |frame|);
      buffers := header + if sec == NullSecurity then frame else sec.Encrypt(frame);
    }

    /** Collects the buffers of all frames and writes them at once: the same bytes as frame by frame. */
    method SendMulti(frames: Frames)
      requires forall f :: f in frames ==> |f| <= MAX_INT64
      modifies this`output
      ensures output == old(output) + EncodeFrames(frames)
    {
      var buffers: Bytes := [];
      assert frames[0..] == frames;
      for i := 0 to |frames|
        invariant output == old(output)
        invariant buffers + EncodeFrames(frames[i..]) == EncodeFrames(frames)
      {
        EncodeFrom(buffers, frames, i);
        var next := FrameBuffers(frames[i], if i < |frames| - 1 then MORE else 0);
        buffers := buffers + next;
      }
      assert buffers + EncodeFrames(frames[|frames|..]) == buffers;
      output := output + buffers;
    }

    /** Writes a message frame by frame. */
    method SendMsg(frames: Frames, multipart: bool) returns (r: Outcome)
      requires forall f :: f in frames ==> |f| <= MAX_INT64
      modifies this`output
      ensures closed ==> r == Failed(Closed) && output == old(output)
      ensures !closed ==> r == Done && output == old(output) + EncodeFrames(frames)
    {
      if closed { return Failed(Closed); }
      if multipart {
        SendMulti(frames);
        return Done;
      }
      for i := 0 to |frames|
        invariant output + EncodeFrames(frames[i..]) == old(output) + EncodeFrames(frames)
      {
        EncodeFrom(output, frames, i);
        Send(false, frames[i], if i < |frames| - 1 then MORE else 0);
      }
      r := Done;
    }

    method SendCmd(name: Bytes, data: Bytes) returns (r: Outcome)
      requires 1 + |name| + |data| <= MAX_INT64
      modifies this`output
      ensures r == if closed then Failed(Closed) else if |name| > 255 then Failed(BadCommand) else Done
      ensures output == old(output) + if r == Done then Encode(Command(name, data)) else []
    {
      if closed { return Failed(Closed); }
      if |name| > 255 { return Failed(BadCommand); }
      Send(true, [|name|] + name + data, 0);
      r := Done;
    }

    /** Reads exactly `n` bytes, or consumes what there is and fails; the end of input closes. */
    method ReadFull(n: nat) returns (r: Outcome, data: Bytes)
      modifies this`input, this`closed
      ensures n <= |old(input)| ==>
                r == Done && data == old(input)[..n] && input == old(input)[n..] && closed == old(closed)
      ensures n > |old(input)| ==>
                r == Failed(ShortRead(old(input), n)) && input == [] && closed == (old(closed) || old(input) == [])
    {
      if n <= |input| {
        r, data := Done, input[..n];
        input := input[n..];
      } else {
        r, data := Failed(ShortRead(input, n)), [];
        closed := closed || input == [];
        input := [];
      }
    }

    /** Reads one frame. */
    method ReadOne() returns (r: FrameRead)
      modifies this`input, this`closed
      ensures r == ReadFrame(old(input)) && input == r.rest
      ensures closed == (old(closed) || (r.NoFrame? && r.fault == Eof))
    {
      var io, header := ReadFull(2);
      if io.Failed? { return NoFrame(io.fault, input); }
      var size: nat := header[1];
      if HasBit(header[0], LONG) {
        var tail;
        io, tail := ReadFull(7);
        if io.Failed? { return NoFrame(io.fault, input); }
        assert [header[1]] + tail == old(input)[1..9];
        size := Value([header[1]] + tail);
      }
      if size > MAX_INT64 { return NoFrame(Overflow, input); }
      var body;
      io, body := ReadFull(size);
      if io.Failed? { return NoFrame(io.fault, input); }
      r := Frame(HasBit(header[0], MORE), HasBit(header[0], COMMAND), sec.Decrypt(body), input);
    }

    /** Reads frames until one announces no other. */
    method Read() returns (r: MsgRead)
      modifies this`input, this`closed
      ensures r == ReadMsg(old(input)) && input == r.rest
      ensures closed == (old(closed) || (r.NoMsg? && r.fault == Eof))
    {
      var frames: Frames := [];
      var isCommand, hasMore := false, true;
      while hasMore
        invariant hasMore ==> Continue(frames, isCommand, ReadMsg(input)) == ReadMsg(old(input))
        invariant !hasMore ==> Msg(frames, isCommand, input) == ReadMsg(old(input))
        invariant closed == old(closed)
        decreases |input|, hasMore
      {
        ghost var here := input;
        var f := ReadOne();
        ContinueStep(frames, isCommand, here);
        if f.NoFrame? { return NoMsg(f.fault, input); }
        hasMore, isCommand := f.more, isCommand || f.isCommand;
        frames := frames + [f.body];
      }
      r := Msg(frames, isCommand, input);
    }

    /** Reads a message that has to be a command of one frame. */
    method RecvCmd() returns (r: Received)
      modifies this`input, this`closed
      ensures var m := ReadMsg(old(input));
              && r == (if old(closed) then Nothing(Closed, old(input))
                       else if m.Msg? && !m.isCommand then Nothing(BadFrame, m.rest)
                       else Receive(old(input)))
              && input == (if old(closed) then old(input) else m.rest)
              && closed == (old(closed) || (m.NoMsg? && m.fault == Eof))
    {
      if closed { return Nothing(Closed, input); }
      var m := Read();
      if m.NoMsg? { return Nothing(m.fault, input); }
      if !m.isCommand { return Nothing(BadFrame, input); }
      if |m.frames| != 1 { return Nothing(LongCommand, input); }
      var u := Unmarshal(m.frames[0]);
      r := if u.Nothing? then Nothing(u.fault, input) else Item(u.item, input);
    }
  }
}

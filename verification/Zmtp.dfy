/** ZMTP framing (section "Framing" of RFC 23/ZMTP) for the NULL and PLAIN mechanisms. */
module Zmtp {
  import opened Bytes
  import opened Sequences

  // Flag bits of a frame header.
  const MORE: byte := 1
  const LONG: byte := 2
  const COMMAND: byte := 4

  predicate HasBit(flag: byte, bit: byte)
    requires bit != 0
  {
    flag / bit % 2 == 1
  }

  /** Exclusive or with a single bit. */
  function Toggle(flag: byte, bit: byte): byte
    requires bit == MORE || bit == LONG || bit == COMMAND
  {
    if HasBit(flag, bit) then flag - bit else flag + bit
  }

  datatype Fault = Eof | UnexpectedEof | Overflow | BadFrame | EmptyCommand | LongCommand | BadCommand | Closed

  // ---------------------------------------------------------------- writing

  function FlagOf(isCommand: bool, more: bool, long: bool): byte {
    (if more then 1 else 0) + (if long then 2 else 0) + (if isCommand then 4 else 0)
  }

  function Header(isCommand: bool, more: bool, size: nat): Bytes {
    if size > 255 then [FlagOf(isCommand, more, true)] + BigEndian(size, 8)
    else [FlagOf(isCommand, more, false), size]
  }

  function EncodeFrame(isCommand: bool, more: bool, body: Bytes): Bytes {
    Header(isCommand, more, |body|) + body
  }

  /** The frames of one message: every frame but the last announces another. */
  function EncodeFrames(frames: Frames): Bytes {
    if frames == [] then [] else EncodeFrame(false, |frames| > 1, frames[0]) + EncodeFrames(frames[1..])
  }

  /** A command body: the length of the name, the name, the data. */
  function Marshal(name: Bytes, data: Bytes): Bytes
    requires |name| <= 255
  {
    [|name|] + name + data
  }

  datatype Item = Message(frames: Frames) | Command(name: Bytes, data: Bytes)

  /** Items that the writing side accepts and the length field can express. */
  predicate Sendable(i: Item) {
    match i
    case Message(frames) => frames != [] && forall f :: f in frames ==> |f| <= MAX_INT64
    case Command(name, data) => |name| <= 255 && 1 + |name| + |data| <= MAX_INT64
  }

  function Encode(i: Item): Bytes
    requires Sendable(i)
  {
    match i
    case Message(frames) => EncodeFrames(frames)
    case Command(name, data) => EncodeFrame(true, false, Marshal(name, data))
  }

  function EncodeAll(items: seq<Item>): Bytes
    requires forall i :: i in items ==> Sendable(i)
  {
    if items == [] then [] else Encode(items[0]) + EncodeAll(items[1..])
  }

  // ---------------------------------------------------------------- reading

  /** `io.ReadFull` of `n` bytes: all of them, or how it fails. */
  function ShortRead(s: Bytes, n: nat): Fault
    requires |s| < n
  {
    if s == [] then Eof else UnexpectedEof
  }

  datatype FrameRead =
    | Frame(more: bool, isCommand: bool, body: Bytes, rest: Bytes)
    | NoFrame(fault: Fault, rest: Bytes)

  /** The body of a frame whose length is known. */
  function ReadBody(flag: byte, size: nat, s: Bytes): FrameRead {
    if size > MAX_INT64 then NoFrame(Overflow, s)
    else if |s| < size then NoFrame(ShortRead(s, size), [])
    else Frame(HasBit(flag, MORE), HasBit(flag, COMMAND), s[..size], s[size..])
  }

  function ReadFrame(s: Bytes): (r: FrameRead)
    ensures r.Frame? ==> |r.rest| < |s|
  {
    if |s| < 2 then NoFrame(ShortRead(s, 2), [])
    else if !HasBit(s[0], LONG) then ReadBody(s[0], s[1], s[2..])
    else if |s| < 9 then NoFrame(ShortRead(s[2..], 7), [])
    else ReadBody(s[0], Value(s[1..9]), s[9..])
  }

  datatype MsgRead =
    | Msg(frames: Frames, isCommand: bool, rest: Bytes)
    | NoMsg(fault: Fault, rest: Bytes)

  function ReadMsg(s: Bytes): (r: MsgRead)
    ensures r.Msg? ==> |r.rest| < |s| && r.frames != []
    decreases |s|
  {
    match ReadFrame(s)
    case NoFrame(fault, rest) => NoMsg(fault, rest)
    case Frame(more, isCommand, body, rest) =>
      if !more then Msg([body], isCommand, rest) else
      match ReadMsg(rest)
      case NoMsg(fault, rest') => NoMsg(fault, rest')
      case Msg(frames, isCommand', rest') => Msg([body] + frames, isCommand || isCommand', rest')
  }

  datatype Received = Item(item: Item, rest: Bytes) | Nothing(fault: Fault, rest: Bytes)

  function Unmarshal(data: Bytes): (r: Received)
    ensures r.Item? ==> r.rest == []
  {
    if data == [] then Nothing(UnexpectedEof, [])
    else if data[0] > |data| - 1 then Nothing(BadCommand, [])
    else Item(Command(data[1..data[0] + 1], data[data[0] + 1..]), [])
  }

  /** Reads one message and, if it is a command, takes it apart. */
  function Receive(s: Bytes): (r: Received)
    ensures r.Item? ==> |r.rest| < |s|
  {
    match ReadMsg(s)
    case NoMsg(fault, rest) => Nothing(fault, rest)
    case Msg(frames, isCommand, rest) =>
      if !isCommand then Item(Message(frames), rest)
      else if |frames| != 1 then Nothing(LongCommand, rest)
      else
        match Unmarshal(frames[0])
        case Nothing(fault, _) => Nothing(fault, rest)
        case Item(c, _) => Item(c, rest)
  }

  /** The first `n` items of a stream and what follows them, if they can be read. */
  function ReceiveMany(s: Bytes, n: nat): (seq<Item>, Bytes)
    decreases n
  {
    if n == 0 then ([], s) else
    match Receive(s)
    case Nothing(_, rest) => ([], rest)
    case Item(item, rest) => var (items, rest') := ReceiveMany(rest, n - 1); ([item] + items, rest')
  }

  // ---------------------------------------------------------------- round trips

  lemma FlagBits(isCommand: bool, more: bool, long: bool)
    ensures var f := FlagOf(isCommand, more, long);
            (HasBit(f, MORE) <==> more) && (HasBit(f, LONG) <==> long) && (HasBit(f, COMMAND) <==> isCommand)
  {
  }

  lemma FrameRoundTrip(isCommand: bool, more: bool, body: Bytes, tail: Bytes)
    requires |body| <= MAX_INT64
    ensures ReadFrame(EncodeFrame(isCommand, more, body) + tail) == Frame(more, isCommand, body, tail)
  {
    FlagBits(isCommand, more, |body| > 255);
    var h, rest := Header(isCommand, more, |body|), body + tail;
    var s := EncodeFrame(isCommand, more, body) + tail;
    assert s == h + rest && s[|h|..] == rest;
    assert rest[..|body|] == body && rest[|body|..] == tail;
    if |body| > 255 {
      Powers();
      ValueBigEndian(|body|, 8);
      assert s[1..9] == BigEndian(|body|, 8);
    }
  }

  /** Any frame sizes, any number of frames, any bytes after the message. */
  lemma ReadMsgUnfold(s: Bytes, more: bool, isCommand: bool, body: Bytes, rest: Bytes)
    requires ReadFrame(s) == Frame(more, isCommand, body, rest)
    ensures !more ==> ReadMsg(s) == Msg([body], isCommand, rest)
    ensures more && ReadMsg(rest).Msg? ==>
      ReadMsg(s) == Msg([body] + ReadMsg(rest).frames, isCommand || ReadMsg(rest).isCommand, ReadMsg(rest).rest)
    ensures more && ReadMsg(rest).NoMsg? ==> ReadMsg(s) == ReadMsg(rest)
  {}

  /** Reading a first frame, then the rest of the message. */
  lemma ReadMsgCons(frames: Frames, s: Bytes, rest: Bytes, tail: Bytes)
    requires frames != [] && ReadFrame(s) == Frame(|frames| > 1, false, frames[0], rest)
    requires |frames| > 1 ==> ReadMsg(rest) == Msg(frames[1..], false, tail)
    requires |frames| == 1 ==> rest == tail
    ensures ReadMsg(s) == Msg(frames, false, tail)
  {
    ReadMsgUnfold(s, |frames| > 1, false, frames[0], rest);
    assert frames == [frames[0]] + frames[1..];
  }

  lemma {:induction false} MessageRoundTrip(frames: Frames, tail: Bytes)
    requires frames != [] && forall f :: f in frames ==> |f| <= MAX_INT64
    ensures ReadMsg(EncodeFrames(frames) + tail) == Msg(frames, false, tail)
    decreases |frames|
  {
    var first, others := EncodeFrame(false, |frames| > 1, frames[0]), EncodeFrames(frames[1..]);
    FrameRoundTrip(false, |frames| > 1, frames[0], others + tail);
    Assoc(first, others, tail);
    if |frames| > 1 {
      MessageRoundTrip(frames[1..], tail);
    } else {
      assert others + tail == tail;
    }
    ReadMsgCons(frames, EncodeFrames(frames) + tail, others + tail, tail);
  }

  lemma MarshalRoundTrip(name: Bytes, data: Bytes)
    requires |name| <= 255
    ensures Unmarshal(Marshal(name, data)) == Item(Command(name, data), [])
  {
    var m := Marshal(name, data);
    assert m[1..|name| + 1] == name && m[|name| + 1..] == data;
  }

  lemma ItemRoundTrip(i: Item, tail: Bytes)
    requires Sendable(i)
    ensures Receive(Encode(i) + tail) == Item(i, tail)
  {
    match i
    case Message(frames) => MessageRoundTrip(frames, tail);
    case Command(name, data) =>
      FrameRoundTrip(true, false, Marshal(name, data), tail);
      MarshalRoundTrip(name, data);
  }

  lemma EncodeAllStep(items: seq<Item>, tail: Bytes)
    requires items != [] && forall i :: i in items ==> Sendable(i)
    ensures EncodeAll(items) + tail == Encode(items[0]) + (EncodeAll(items[1..]) + tail)
  {
  }

  lemma ReceiveManyStep(s: Bytes, n: nat, first: Item, rest: Bytes, later: seq<Item>, tail: Bytes)
    requires Receive(s) == Item(first, rest) && ReceiveMany(rest, n) == (later, tail)
    ensures ReceiveMany(s, n + 1) == ([first] + later, tail)
  {
  }

  /** Any sequence of messages and commands is read back exactly, and no byte after it is touched. */
  lemma {:induction false} StreamRoundTrip(items: seq<Item>, tail: Bytes)
    requires forall i :: i in items ==> Sendable(i)
    ensures ReceiveMany(EncodeAll(items) + tail, |items|) == (items, tail)
  {
    if items == [] {
      assert EncodeAll(items) + tail == tail;
    } else {
      var first, later := items[0], items[1..];
      var rest := EncodeAll(later) + tail;
      EncodeAllStep(items, tail);
      ItemRoundTrip(first, rest);
      StreamRoundTrip(later, tail);
      ReceiveManyStep(EncodeAll(items) + tail, |later|, first, rest, later, tail);
      assert [first] + later == items;
    }
  }

  // ---------------------------------------------------------------- prefixes

  lemma BodyExtends(flag: byte, size: nat, s: Bytes, more: Bytes)
    requires ReadBody(flag, size, s).Frame?
    ensures var r := ReadBody(flag, size, s);
            ReadBody(flag, size, s + more) == Frame(r.more, r.isCommand, r.body, r.rest + more)
  {
    assert (s + more)[..size] == s[..size] && (s + more)[size..] == s[size..] + more;
  }

  /** Bytes that arrive later do not change a frame that was already complete. */
  lemma FrameExtends(s: Bytes, more: Bytes)
    requires ReadFrame(s).Frame?
    ensures var r := ReadFrame(s); ReadFrame(s + more) == Frame(r.more, r.isCommand, r.body, r.rest + more)
  {
    var t := s + more;
    if HasBit(s[0], LONG) {
      assert t[1..9] == s[1..9] && t[9..] == s[9..] + more;
      BodyExtends(s[0], Value(s[1..9]), s[9..], more);
    } else {
      assert t[2..] == s[2..] + more;
      BodyExtends(s[0], s[1], s[2..], more);
    }
  }

  lemma {:induction false} MsgExtends(s: Bytes, more: Bytes)
    requires ReadMsg(s).Msg?
    ensures var r := ReadMsg(s); ReadMsg(s + more) == Msg(r.frames, r.isCommand, r.rest + more)
    decreases |s|
  {
    FrameExtends(s, more);
    if ReadFrame(s).more { MsgExtends(ReadFrame(s).rest, more); }
  }

  /** The reader takes all of an encoding. */
  lemma EncodingIsWhole(i: Item)
    requires Sendable(i)
    ensures ReadMsg(Encode(i)).Msg? && ReadMsg(Encode(i)).rest == []
  {
    assert Encode(i) + [] == Encode(i);
    match i
    case Message(frames) => MessageRoundTrip(frames, []);
    case Command(name, data) => FrameRoundTrip(true, false, Marshal(name, data), []);
  }

  /** No proper prefix of an encoding is taken for a message. */
  lemma NoPrefixAccepted(i: Item, n: nat)
    requires Sendable(i) && n < |Encode(i)|
    ensures ReadMsg(Encode(i)[..n]).NoMsg?
  {
    var p, q := Encode(i)[..n], Encode(i)[n..];
    assert p + q == Encode(i);
    EncodingIsWhole(i);
    if ReadMsg(p).Msg? { MsgExtends(p, q); }
  }

  // ---------------------------------------------------------------- which bytes are an encoding

  /** No reserved bit is set, and the long form is used only where the short one cannot be. */
  predicate CanonicalHeader(s: Bytes)
    requires |s| >= 2
  {
    s[0] < 8 && (HasBit(s[0], LONG) ==> |s| >= 9 && Value(s[1..9]) > 255)
  }

  lemma FlagFromBits(f: byte)
    ensures f < 8 <==> f == FlagOf(HasBit(f, COMMAND), HasBit(f, MORE), HasBit(f, LONG))
  {
  }

  /** The bytes that were read, by field. */
  lemma FrameFields(s: Bytes)
    requires ReadFrame(s).Frame?
    ensures var r := ReadFrame(s);
            && r.more == HasBit(s[0], MORE) && r.isCommand == HasBit(s[0], COMMAND)
            && (HasBit(s[0], LONG) ==> |s| >= 9 && Value(s[1..9]) == |r.body| && s == [s[0]] + s[1..9] + (r.body + r.rest))
            && (!HasBit(s[0], LONG) ==> s[1] == |r.body| && s == [s[0], s[1]] + (r.body + r.rest))
  {
    var r := ReadFrame(s);
    if HasBit(s[0], LONG) {
      assert s == [s[0]] + s[1..9] + s[9..];
      assert s[9..] == r.body + r.rest;
    } else {
      assert s == [s[0], s[1]] + s[2..];
      assert s[2..] == r.body + r.rest;
    }
  }

  /** The reader also takes frames the writer would not produce: exactly those with another header. */
  lemma ReencodeFrame(s: Bytes)
    requires ReadFrame(s).Frame?
    ensures var r := ReadFrame(s);
            EncodeFrame(r.isCommand, r.more, r.body) + r.rest == s <==> CanonicalHeader(s)
  {
    var r := ReadFrame(s);
    var long := |r.body| > 255;
    var flag := FlagOf(r.isCommand, r.more, long);
    var t := EncodeFrame(r.isCommand, r.more, r.body) + r.rest;
    FrameFields(s);
    FlagFromBits(s[0]);
    FlagBits(r.isCommand, r.more, long);
    assert t[0] == flag;
    if CanonicalHeader(s) {
      if long {
        BigEndianValue(s[1..9]);
        Assoc([flag] + s[1..9], r.body, r.rest);
      } else {
        Assoc([flag, s[1]], r.body, r.rest);
      }
    }
  }

  // ---------------------------------------------------------------- the bytes on the wire

  /**
   A frame as it is written. The first byte is 0 for a last frame, 1 when more follow and 4 for a
   command, with one length byte, up to 255 bytes; with longer bodies it is 2, 3 or 6, with eight.
   */
  lemma FrameOnTheWire(isCommand: bool, more: bool, body: Bytes)
    requires |body| <= MAX_INT64 && !(isCommand && more)
    ensures var s, first := EncodeFrame(isCommand, more, body), if isCommand then 4 else if more then 1 else 0;
            if |body| <= 255 then s == [first, |body|] + body
            else |s| >= 9 && s[0] == first + 2 && EightBytes(s[1..9], |body|) && s[9..] == body
  {
    if |body| > 255 {
      var s := EncodeFrame(isCommand, more, body);
      assert s[1..9] == BigEndian(|body|, 8) && s[9..] == body;
      Powers();
      ValueBigEndian(|body|, 8);
      ValueOfEight(s[1..9]);
    }
  }

  lemma BitsOf(f: byte)
    ensures HasBit(f, MORE) <==> f % 2 == 1
    ensures HasBit(f, LONG) <==> f % 4 >= 2
    ensures HasBit(f, COMMAND) <==> f % 8 >= 4
  {}

  lemma LongFrame(s: Bytes, n: nat)
    requires |s| >= 9 && HasBit(s[0], LONG) && n == Value(s[1..9])
    ensures if n > MAX_INT64 then ReadFrame(s) == NoFrame(Overflow, s[9..])
            else if |s| < 9 + n then ReadFrame(s).NoFrame?
            else ReadFrame(s) == Frame(HasBit(s[0], MORE), HasBit(s[0], COMMAND), s[9..9 + n], s[9 + n..])
  {
    if |s| >= 9 + n { assert s[9..][..n] == s[9..9 + n] && s[9..][n..] == s[9 + n..]; }
  }

  lemma ShortFrame(s: Bytes, n: nat)
    requires |s| >= 2 && !HasBit(s[0], LONG) && n == s[1]
    ensures if |s| < 2 + n then ReadFrame(s).NoFrame?
            else ReadFrame(s) == Frame(HasBit(s[0], MORE), HasBit(s[0], COMMAND), s[2..2 + n], s[2 + n..])
  {
    if |s| >= 2 + n { assert s[2..][..n] == s[2..2 + n] && s[2..][n..] == s[2 + n..]; }
  }

  /**
   A frame as it is read. Of the first byte only three bits count: an odd byte announces more,
   2 and 3 modulo 4 stand for a long length, 4 to 7 modulo 8 for a command.
   */
  lemma FrameFromTheWire(s: Bytes, n: nat)
    requires |s| >= 2
    ensures var more, long, isCommand := s[0] % 2 == 1, s[0] % 4 >= 2, s[0] % 8 >= 4;
            && (!long && n == s[1] ==>
                  if |s| < 2 + n then ReadFrame(s).NoFrame?
                  else ReadFrame(s) == Frame(more, isCommand, s[2..2 + n], s[2 + n..]))
            && (long && |s| < 9 ==> ReadFrame(s).NoFrame?)
            && (long && |s| >= 9 && EightBytes(s[1..9], n) ==>
                  if n > 0x7FFF_FFFF_FFFF_FFFF then ReadFrame(s) == NoFrame(Overflow, s[9..])
                  else if |s| < 9 + n then ReadFrame(s).NoFrame?
                  else ReadFrame(s) == Frame(more, isCommand, s[9..9 + n], s[9 + n..]))
  {
    BitsOf(s[0]);
    if s[0] % 4 < 2 {
      ShortFrame(s, s[1]);
    } else if |s| >= 9 {
      ValueOfEight(s[1..9]);
      LongFrame(s, Value(s[1..9]));
    }
  }

  /** A message of two one-byte frames, byte by byte, written and read. */
  lemma MessageExample()
    ensures Encode(Message([[65], [66]])) == [1, 1, 65, 0, 1, 66]
    ensures Receive([1, 1, 65, 0, 1, 66]) == Item(Message([[65], [66]]), [])
  {
    var frames: Frames := [[65], [66]];
    assert frames[1..] == [[66]] && [[66]][1..] == [];
    assert EncodeFrames([[66]]) == EncodeFrame(false, false, [66]) + EncodeFrames([]);
    assert EncodeFrames(frames) == [1, 1, 65] + ([0, 1, 66] + []);
    assert [1, 1, 65] + ([0, 1, 66] + []) == [1, 1, 65, 0, 1, 66];
    ItemRoundTrip(Message(frames), []);
    assert Encode(Message(frames)) + [] == Encode(Message(frames));
  }

  /** A command with a four-byte name and two bytes of data. */
  lemma CommandExample()
    ensures Encode(Command([80, 73, 78, 71], [0, 9])) == [4, 7, 4, 80, 73, 78, 71, 0, 9]
    ensures Receive([4, 7, 4, 80, 73, 78, 71, 0, 9]) == Item(Command([80, 73, 78, 71], [0, 9]), [])
  {
    var c := Command([80, 73, 78, 71], [0, 9]);
    ItemRoundTrip(c, []);
    assert Encode(c) + [] == Encode(c);
  }

  predicate Marshals(name: Bytes, body: Bytes, data: Bytes) {
    |name| <= 255 && Marshal(name, body) == data
  }

  /** What unmarshals is a command, and marshals to the same bytes; nothing else does. */
  lemma RemarshalExact(data: Bytes)
    ensures Unmarshal(data).Item? <==> exists name, body :: Marshals(name, body, data)
    ensures Unmarshal(data).Item? ==>
      Unmarshal(data).item.Command? && Marshals(Unmarshal(data).item.name, Unmarshal(data).item.data, data)
  {
    if Unmarshal(data).Item? {
      var c := Unmarshal(data).item;
      assert data == [data[0]] + c.name + c.data;
      assert Marshals(c.name, c.data, data);
    }
    if name, body :| Marshals(name, body, data) { MarshalRoundTrip(name, body); }
  }

  lemma CutHeader(h: Bytes, body: Bytes, n: nat)
    requires n < |h + body|
    ensures n >= |h| ==> (h + body)[..n] == h + body[..n - |h|]
    ensures n < |h| ==> (h + body)[..n] == h[..n]
  {}

  lemma CutBody(flag: byte, size: nat, s: Bytes)
    requires |s| < size <= MAX_INT64
    ensures ReadBody(flag, size, s) == NoFrame(if s == [] then Eof else UnexpectedEof, [])
  {}

  /**
   How a cut-off frame fails: with nothing missing but the start of a part, that is at 0 bytes, after
   the first two of a long header and after the header, as if the stream had ended; else as broken.
   */
  lemma CutFrameFault(isCommand: bool, more: bool, body: Bytes, n: nat)
    requires |body| <= MAX_INT64 && n < |EncodeFrame(isCommand, more, body)|
    ensures var header := if |body| > 255 then 9 else 2;
            ReadFrame(EncodeFrame(isCommand, more, body)[..n])
              == NoFrame(if n == 0 || n == header || (n == 2 && |body| > 255) then Eof else UnexpectedEof, [])
  {
    var h := Header(isCommand, more, |body|);
    var s := (h + body)[..n];
    FlagBits(isCommand, more, |body| > 255);
    CutHeader(h, body, n);
    if n >= |h| {
      assert s[|h|..] == body[..n - |h|];
      if |body| > 255 {
        Powers();
        ValueBigEndian(|body|, 8);
        assert s[1..9] == BigEndian(|body|, 8);
      }
      CutBody(h[0], |body|, body[..n - |h|]);
    }
  }
}

/** Frames of the Majordomo protocol: formatting, separator-based reconstruction, parsing. */
module Mdp {
  import opened Bytes

  const CLIENT_PROTOCOL: Bytes := [77, 68, 80, 67, 48, 49]       // "MDPC01"
  const WORKER_PROTOCOL: Bytes := [77, 68, 80, 87, 48, 49]       // "MDPW01"
  const REQUEST_WORD: Bytes := [82, 69, 81, 85, 69, 83, 84]      // "REQUEST"
  const REPLY_WORD: Bytes := [82, 69, 80, 76, 89]                // "REPLY"
  const READY: Bytes := [1]
  const REQUEST: Bytes := [2]
  const REPLY: Bytes := [3]
  const HEARTBEAT: Bytes := [4]
  const DISCONNECT: Bytes := [5]

  datatype Error =
    | TooShort | MissingDelimiter | ProtocolTooShort | BadProtocol | MissingService
    | BadService | MissingSeparator | UnknownCommand
  datatype Result<+T> = Ok(value: T) | Err(error: Error)

  datatype ClientMessage = ClientMessage(envelope: Frames, command: Bytes, service: Bytes, body: Bytes)
  datatype WorkerMessage = WorkerMessage(
    envelope: Frames, command: Bytes, service: Bytes, clientEnvelope: Frames, clientAddr: Bytes, body: Bytes)

  /** `ServiceName.Validate`. */
  predicate ValidService(s: Bytes) {
    0 < |s| <= 255
  }

  // ---------------------------------------------------------------- formatting

  /** A body frame is sent only when there is a body. */
  function BodyFrames(body: Bytes): Frames {
    if body == EMPTY then [] else [body]
  }

  function FormatClientRequest(service: Bytes, body: Bytes): Frames {
    [EMPTY, CLIENT_PROTOCOL, REQUEST_WORD, service] + BodyFrames(body)
  }

  function FormatClientReply(envelope: Frames, service: Bytes, body: Bytes): Frames {
    envelope + [EMPTY, CLIENT_PROTOCOL, REPLY_WORD, service] + BodyFrames(body)
  }

  function FormatWorkerMessage(m: WorkerMessage): Frames {
    var head := m.envelope + [EMPTY, WORKER_PROTOCOL, m.command];
    var client := if m.clientEnvelope != [] then m.clientEnvelope
                  else if m.clientAddr != EMPTY then [m.clientAddr] else [];
    if m.command == READY then
      head + if m.service != EMPTY then [m.service] else []
    else if m.command == REQUEST || m.command == REPLY then
      head + client + [EMPTY] + BodyFrames(m.body)
    else if m.command == HEARTBEAT || m.command == DISCONNECT || client == [] then
      head
    else
      head + client + [EMPTY] + BodyFrames(m.body)
  }

  /** `NewWorkerMessage`: what the broker and the worker hand to the formatter. */
  function NewWorkerMessage(command: Bytes, clientAddr: Bytes, body: Bytes): WorkerMessage {
    WorkerMessage([], command, EMPTY, [], clientAddr, body)
  }

  // ---------------------------------------------------------------- parsing

  /** The first empty frame at or after `from`, or the length of `frames`. */
  function FirstEmpty(frames: Frames, from: nat): (i: nat)
    requires from <= |frames|
    ensures from <= i <= |frames|
    ensures i < |frames| ==> frames[i] == EMPTY
    ensures forall j :: from <= j < i ==> frames[j] != EMPTY
    decreases |frames| - from
  {
    if from == |frames| || frames[from] == EMPTY then from else FirstEmpty(frames, from + 1)
  }

  method FindDelimiterFrame(frames: Frames, from: nat) returns (i: int)
    requires from <= |frames|
    ensures i == if FirstEmpty(frames, from) == |frames| then -1 else FirstEmpty(frames, from)
  {
    i := from;
    while i < |frames|
      invariant from <= i <= |frames| && FirstEmpty(frames, from) == FirstEmpty(frames, i)
    {
      if frames[i] == EMPTY { return; }
      i := i + 1;
    }
    i := -1;
  }

  function ParseClient(frames: Frames): Result<ClientMessage> {
    if |frames| < 2 then Err(TooShort) else
    var i := FirstEmpty(frames, 0);
    var envelope, protocol := if i < |frames| then frames[..i] else [], if i < |frames| then frames[i + 1..] else frames;
    if |protocol| < 2 then Err(ProtocolTooShort)
    else if protocol[0] != CLIENT_PROTOCOL then Err(BadProtocol)
    else if |protocol| < 3 then Err(MissingService)
    else
      var command := protocol[1];
      var explicit := command == REQUEST_WORD || command == REPLY_WORD;
      var service, bodyIdx := if explicit then protocol[2] else protocol[1], if explicit then 3 else 2;
      if service != EMPTY && !ValidService(service) then Err(BadService)
      else Ok(ClientMessage(envelope, command, service, if |protocol| > bodyIdx then protocol[bodyIdx] else EMPTY))
  }

  /** The fields after `[protocol][command]` of a REQUEST or REPLY. */
  function ParseClientPart(envelope: Frames, protocol: Frames): Result<WorkerMessage>
    requires |protocol| >= 2
  {
    if |protocol| < 3 then Err(ProtocolTooShort) else
    var sep := FirstEmpty(protocol, 2);
    if sep == |protocol| then Err(MissingSeparator) else
    var clients := protocol[2..sep];
    Ok(WorkerMessage(envelope, protocol[1], EMPTY, clients,
                     if clients == [] then EMPTY else clients[0],
                     if |protocol| > sep + 1 then protocol[sep + 1] else EMPTY))
  }

  function ParseWorker(frames: Frames): Result<WorkerMessage> {
    if |frames| < 3 then Err(TooShort) else
    var i := FirstEmpty(frames, 0);
    if i == |frames| then Err(MissingDelimiter) else
    var envelope, protocol := frames[..i], frames[i + 1..];
    if |protocol| < 2 then Err(ProtocolTooShort)
    else if protocol[0] != WORKER_PROTOCOL then Err(BadProtocol)
    else
      var command := protocol[1];
      var bare := WorkerMessage(envelope, command, EMPTY, [], EMPTY, EMPTY);
      if command == READY then
        if |protocol| < 3 then Err(MissingService)
        else if !ValidService(protocol[2]) then Err(BadService)
        else Ok(bare.(service := protocol[2]))
      else if command == REQUEST || command == REPLY then ParseClientPart(envelope, protocol)
      else if command == HEARTBEAT || command == DISCONNECT then Ok(bare)
      else Err(UnknownCommand)
  }

  // ---------------------------------------------------------------- separator-based reconstruction

  /** The runs of non-empty frames, where `current` is the run being collected. */
  function Parts(frames: Frames, current: Frames): (parts: seq<Frames>)
    ensures [] !in parts
    decreases |frames|
  {
    var done := if current == [] then [] else [current];
    if frames == [] then done
    else if frames[0] == EMPTY then done + Parts(frames[1..], [])
    else Parts(frames[1..], current + [frames[0]])
  }

  method SplitOnSeparators(frames: Frames) returns (parts: seq<Frames>)
    ensures parts == Parts(frames, [])
  {
    parts := [];
    var current: Frames := [];
    for i := 0 to |frames|
      invariant Parts(frames, []) == parts + Parts(frames[i..], current)
    {
      assert frames[i..][1..] == frames[i + 1..];
      if |frames[i]| == 0 {
        if |current| > 0 {
          parts := parts + [current];
          current := [];
        }
      } else {
        current := current + [frames[i]];
      }
    }
    if |current| > 0 { parts := parts + [current]; }
  }

  /** Parts put together again, each after one empty frame. */
  function Join(parts: seq<Frames>): Frames {
    if parts == [] then [] else [EMPTY] + parts[0] + Join(parts[1..])
  }

  datatype Detected = Unknown | FromWorker(frames: Frames) | FromClient(frames: Frames)

  predicate IsProtocol(frame: Bytes) {
    frame == WORKER_PROTOCOL || frame == CLIENT_PROTOCOL
  }

  /** The first part, from `i` on, that begins with a protocol name. */
  function ProtocolPart(parts: seq<Frames>, i: nat): (k: nat)
    requires i <= |parts| && [] !in parts
    ensures i <= k <= |parts|
    ensures forall j :: i <= j < k ==> parts[j] != [] && !IsProtocol(parts[j][0])
    ensures k < |parts| ==> parts[k] != [] && IsProtocol(parts[k][0])
    decreases |parts| - i
  {
    if i == |parts| || IsProtocol(parts[i][0]) then i else ProtocolPart(parts, i + 1)
  }

  /** The first frame, from `i` on, that is a protocol name. */
  function ProtocolFrame(frames: Frames, i: nat): (k: nat)
    requires i <= |frames|
    ensures i <= k <= |frames|
    ensures forall j :: i <= j < k ==> !IsProtocol(frames[j])
    ensures k < |frames| ==> IsProtocol(frames[k])
    decreases |frames| - i
  {
    if i == |frames| || IsProtocol(frames[i]) then i else ProtocolFrame(frames, i + 1)
  }

  function Tagged(protocol: Bytes, frames: Frames): Detected {
    if protocol == WORKER_PROTOCOL then FromWorker(frames) else FromClient(frames)
  }

  /** No part begins with a protocol name: look for one anywhere. */
  function DetectAnywhere(working: Frames): Detected {
    var i := ProtocolFrame(working, 0);
    if i == |working| then Unknown
    else if i > 0 && working[i - 1] == EMPTY then Tagged(working[i], working[i - 1..])
    else Tagged(working[i], [EMPTY] + working[i..])
  }

  /** What kind of message this is, and its frames as the parsers get to see them. */
  function Detect(working: Frames): Detected {
    if |working| < 2 then Unknown else
    var parts := Parts(working, []);
    var k := ProtocolPart(parts, 0);
    if k == |parts| then DetectAnywhere(working)
    else if parts[k][0] == WORKER_PROTOCOL then FromWorker([EMPTY] + parts[k] + Join(parts[1..]))
    else FromClient([EMPTY] + parts[k])
  }

  method DetectMessageType(working: Frames) returns (d: Detected)
    ensures d == Detect(working)
  {
    if |working| < 2 { return Unknown; }
    var parts := SplitOnSeparators(working);
    for k := 0 to |parts|
      invariant ProtocolPart(parts, 0) == ProtocolPart(parts, k)
    {
      assert parts[k] in parts;
      if parts[k][0] == WORKER_PROTOCOL {
        var frames := [EMPTY] + parts[k];
        for i := 1 to |parts|
          invariant [EMPTY] + parts[k] + Join(parts[1..]) == frames + Join(parts[i..])
        {
          assert parts[i..][0] == parts[i] && parts[i..][1..] == parts[i + 1..];
          assert frames + ([EMPTY] + parts[i] + Join(parts[i + 1..]))
              == (frames + [EMPTY] + parts[i]) + Join(parts[i + 1..]);
          frames := frames + [EMPTY] + parts[i];
        }
        assert frames + [] == frames;
        return FromWorker(frames);
      } else if parts[k][0] == CLIENT_PROTOCOL {
        return FromClient([EMPTY] + parts[k]);
      }
    }
    for i := 0 to |working|
      invariant ProtocolFrame(working, 0) == ProtocolFrame(working, i)
    {
      if IsProtocol(working[i]) {
        if i > 0 && |working[i - 1]| == 0 { return Tagged(working[i], working[i - 1..]); }
        return Tagged(working[i], [EMPTY] + working[i..]);
      }
    }
    return Unknown;
  }

  /** Between separators nothing is empty, no two separators touch, and the end is not one. */
  ghost predicate SingleSeparators(frames: Frames) {
    && (frames != [] ==> frames[|frames| - 1] != EMPTY)
    && (forall i :: 0 < i < |frames| ==> frames[i - 1] != EMPTY || frames[i] != EMPTY)
  }

  lemma SingleSeparatorsRest(f: Frames)
    requires f != []
    ensures f[0] != EMPTY ==> (SingleSeparators(f) <==> SingleSeparators(f[1..]))
    ensures f[0] == EMPTY ==>
      (SingleSeparators(f) <==> |f| > 1 && f[1] != EMPTY && SingleSeparators(f[1..]))
  {
    var g := f[1..];
    assert forall i :: 0 < i < |g| ==> g[i - 1] == f[i] && g[i] == f[i + 1];
    if g != [] { assert g[|g| - 1] == f[|f| - 1]; }
    if SingleSeparators(f) {
      assert SingleSeparators(g);
      if f[0] == EMPTY { assert f[1 - 1] == EMPTY; }
    }
    if SingleSeparators(g) && |f| > 1 && (f[0] != EMPTY || f[1] != EMPTY) {
      forall i | 0 < i < |f| ensures f[i - 1] != EMPTY || f[i] != EMPTY {
        if i > 1 { assert g[i - 2] == f[i - 1] && g[i - 1] == f[i]; }
      }
    }
  }

  /** Frames that start with a separator never grow by being split and joined. */
  lemma {:induction false} JoinNotLonger(f: Frames)
    requires f == [] || f[0] == EMPTY
    ensures |Join(Parts(f, []))| <= |f|
    decreases |f|
  {
    if f != [] {
      var g := f[1..];
      assert Parts(f, []) == Parts(g, []);
      if g == [] || g[0] == EMPTY {
        JoinNotLonger(g);
      } else {
        assert [] + [g[0]] == [g[0]];
        JoinParts(g[1..], [g[0]]);
      }
    }
  }

  /** Splitting and joining gives the frames back exactly when separators are single. */
  lemma {:induction false} JoinParts(f: Frames, current: Frames)
    requires current != []
    ensures SingleSeparators(f) ==> Join(Parts(f, current)) == [EMPTY] + current + f
    ensures !SingleSeparators(f) ==> |Join(Parts(f, current))| <= |current| + |f|
    decreases |f|
  {
    if f == [] {
      assert Parts(f, current) == [current] && [current][1..] == [];
    } else {
      var g := f[1..];
      SingleSeparatorsRest(f);
      if f[0] != EMPTY {
        JoinParts(g, current + [f[0]]);
        assert [EMPTY] + (current + [f[0]]) + g == [EMPTY] + current + f;
      } else {
        assert ([current] + Parts(g, []))[1..] == Parts(g, []);
        if g == [] || g[0] == EMPTY {
          JoinNotLonger(g);
        } else {
          assert [] + [g[0]] == [g[0]];
          JoinParts(g[1..], [g[0]]);
          SingleSeparatorsRest(g);
          assert [EMPTY] + [g[0]] + g[1..] == f;
        }
      }
    }
  }
}

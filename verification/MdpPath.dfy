/** A request and its reply, end to end: client, broker, worker and back. */
module MdpPath {
  import opened Bytes
  import opened Sequences
  import opened Envelopes
  import opened Mdp
  import opened BrokerModel

  datatype Inbound =
    | Dropped
    | ClientIn(sender: Bytes, service: Bytes, body: Bytes)
    | WorkerIn(sender: Bytes, message: WorkerMessage)

  /** What the broker makes of the frames its ROUTER socket delivers. */
  function Decode(frames: Frames): Inbound {
    if |frames| < 3 then Dropped else
    match Detect(frames[1..])
    case Unknown => Dropped
    case FromWorker(fs) => (match ParseWorker(fs) case Ok(m) => WorkerIn(frames[0], m) case Err(_) => Dropped)
    case FromClient(fs) => (match ParseClient(fs) case Ok(m) => ClientIn(frames[0], m.service, m.body) case Err(_) => Dropped)
  }

  /** The event an inbound message is for the broker, if any. */
  function EventOf(m: Inbound, now: Time, outcomes: seq<bool>): Option<Event> {
    match m
    case Dropped => None
    case ClientIn(id, n, body) => Some(ClientRequest(id, n, body, now, outcomes))
    case WorkerIn(id, w) =>
      if w.command == READY then Some(Ready(id, w.service, now))
      else if w.command == REPLY then Some(Reply(id, w.clientAddr, w.body, now))
      else if w.command == HEARTBEAT then Some(Heartbeat(id, now))
      else if w.command == DISCONNECT then Some(Disconnect(id))
      else None
  }

  /** What the broker hands to its socket to send a request, a reply or a DISCONNECT. */
  function FramesOf(a: Action): Frames
    requires a.Send? || a.Forward? || a.SendDisconnect?
  {
    match a
    case Send(w, r, _) => [w.identity] + FormatWorkerMessage(NewWorkerMessage(REQUEST, r.client, r.body))
    case Forward(w, client, body) => [client] + FormatClientReply([], w.service, body)
    case SendDisconnect(id) => [id] + FormatWorkerMessage(NewWorkerMessage(DISCONNECT, EMPTY, EMPTY))
  }

  // ---------------------------------------------------------------- reconstruction

  lemma JoinPartsFromStart(w: Frames)
    requires w != []
    ensures Join(Parts(w, [])) == w <==> w[0] == EMPTY && SingleSeparators(w)
  {
    SingleSeparatorsRest(w);
    if w[0] == EMPTY {
      var g := w[1..];
      assert Parts(w, []) == Parts(g, []);
      if g == [] || g[0] == EMPTY {
        JoinNotLonger(g);
      } else {
        assert [] + [g[0]] == [g[0]];
        JoinParts(g[1..], [g[0]]);
        SingleSeparatorsRest(g);
        assert [EMPTY] + [g[0]] + g[1..] == w;
      }
    }
  }

  lemma {:induction false} FirstOfPart(f: Frames, current: Frames)
    requires current != []
    ensures exists p :: p in Parts(f, current) && p != [] && p[0] == current[0]
    decreases |f|
  {
    if f == [] {
      assert current in Parts(f, current);
    } else if f[0] == EMPTY {
      assert current in Parts(f, current);
    } else {
      FirstOfPart(f[1..], current + [f[0]]);
    }
  }

  /** A frame that follows a separator, or comes first, begins a part. */
  lemma {:induction false} AfterSeparator(f: Frames, current: Frames, i: nat)
    requires i < |f| && f[i] != EMPTY
    requires if i == 0 then current == [] else f[i - 1] == EMPTY
    ensures exists p :: p in Parts(f, current) && p != [] && p[0] == f[i]
    decreases |f|
  {
    var g := f[1..];
    if i == 0 {
      assert [] + [f[0]] == [f[0]];
      FirstOfPart(g, [f[0]]);
    } else {
      assert g[i - 1] == f[i];
      if i > 1 { assert g[i - 2] == f[i - 1]; }
      if f[0] == EMPTY {
        if i == 1 {
          AfterSeparator(g, [], 0);
        } else {
          AfterSeparator(g, [], i - 1);
        }
        var p :| p in Parts(g, []) && p != [] && p[0] == f[i];
        assert p in Parts(f, current);
      } else {
        AfterSeparator(g, current + [f[0]], i - 1);
      }
    }
  }

  /** When no part begins with a protocol name, none follows a separator or comes first either. */
  lemma FallbackInserts(w: Frames)
    requires ProtocolPart(Parts(w, []), 0) == |Parts(w, [])|
    requires ProtocolFrame(w, 0) < |w|
    ensures ProtocolFrame(w, 0) > 0 && w[ProtocolFrame(w, 0) - 1] != EMPTY
    ensures |w| >= 2 ==>
      var i := ProtocolFrame(w, 0);
      && (w[i] == [77, 68, 80, 87, 48, 49] ==> Detect(w) == FromWorker([[]] + w[i..]))
      && (w[i] == [77, 68, 80, 67, 48, 49] ==> Detect(w) == FromClient([[]] + w[i..]))
  {
    var i := ProtocolFrame(w, 0);
    if i == 0 || w[i - 1] == EMPTY { AfterSeparator(w, [], i); }
  }

  lemma {:induction false} FirstPart(f: Frames, current: Frames)
    requires current != []
    ensures var parts := Parts(f, current); parts != [] && parts[0] != [] && parts[0][0] == current[0]
    decreases |f|
  {
    if f != [] && f[0] != EMPTY { FirstPart(f[1..], current + [f[0]]); }
  }

  /** A delimiter and then the worker protocol: the first part is the protocol part. */
  lemma DelimitedFirst(w: Frames)
    requires |w| >= 2 && w[0] == EMPTY && w[1] == WORKER_PROTOCOL
    ensures var parts := Parts(w, []);
            parts != [] && ProtocolPart(parts, 0) == 0 && parts[0] != [] && parts[0][0] == WORKER_PROTOCOL
  {
    var g := w[1..];
    assert Parts(w, []) == Parts(g, []);
    assert [] + [g[0]] == [g[0]] && g[0] == WORKER_PROTOCOL;
    FirstPart(g[1..], [g[0]]);
  }

  /** What is rebuilt begins with a delimiter and the protocol, so it is the message only if that does too. */
  lemma RebuiltBeginsDelimited(w: Frames)
    requires |w| >= 2 && Detect(w) == FromWorker(w)
    ensures w[0] == EMPTY && w[1] == WORKER_PROTOCOL
  {
    var parts := Parts(w, []);
    var k := ProtocolPart(parts, 0);
    if k == |parts| {
      if ProtocolFrame(w, 0) < |w| { FallbackInserts(w); }
    } else {
      var frames := [EMPTY] + parts[k] + Join(parts[1..]);
      assert frames[0] == EMPTY && frames[1] == parts[k][0];
    }
  }

  /**
   For every message of two frames or more, the broker's reconstruction returns the frames
   that were sent exactly when they begin with the delimiter and the worker protocol and
   separators stand singly and never last.
   */
  lemma ReconstructionExact(w: Frames)
    requires |w| >= 2
    ensures Detect(w) == FromWorker(w) <==> w[0] == EMPTY && w[1] == WORKER_PROTOCOL && SingleSeparators(w)
  {
    if Detect(w) == FromWorker(w) { RebuiltBeginsDelimited(w); }
    if w[0] == EMPTY && w[1] == WORKER_PROTOCOL {
      DelimitedFirst(w);
      JoinPartsFromStart(w);
    }
  }

  // ---------------------------------------------------------------- the four legs

  lemma {:induction false} RunOfFrames(f: Frames, current: Frames)
    requires current != [] && forall i :: 0 <= i < |f| ==> f[i] != EMPTY
    ensures Parts(f, current) == [current + f]
    decreases |f|
  {
    if f == [] {
      assert current + f == current;
    } else {
      RunOfFrames(f[1..], current + [f[0]]);
      assert (current + [f[0]]) + f[1..] == current + f;
    }
  }

  lemma OnePart(f: Frames)
    requires f != [] && forall i :: 0 <= i < |f| ==> f[i] != EMPTY
    ensures Parts(f, []) == [f]
    ensures Parts([EMPTY] + f, []) == [f]
    ensures Parts([EMPTY, EMPTY] + f, []) == [f]
  {
    RunOfFrames(f[1..], [f[0]]);
    assert [] + [f[0]] == [f[0]];
    assert [f[0]] + f[1..] == f;
    assert ([EMPTY] + f)[1..] == f;
    assert ([EMPTY, EMPTY] + f)[1..] == [EMPTY] + f;
  }

  /** A client's REQUEST reaches the broker with its service and body, for every identity and body. */
  lemma RequestReachesBroker(id: Bytes, service: Bytes, body: Bytes)
    requires ValidService(service)
    ensures Decode(RouterReceive(id, ReqSend(FormatClientRequest(service, body)))) == ClientIn(id, service, body)
  {
    var part := [CLIENT_PROTOCOL, REQUEST_WORD, service] + BodyFrames(body);
    var frames := RouterReceive(id, ReqSend(FormatClientRequest(service, body)));
    assert frames[1..] == [EMPTY, EMPTY] + part;
    OnePart(part);
    assert ProtocolPart([part], 0) == 0;
    assert Detect(frames[1..]) == FromClient([EMPTY] + part);
    assert ([EMPTY] + part)[1..] == part;
  }

  lemma {:induction false} EmptyAfter(frames: Frames, from: nat, i: nat)
    requires from <= i < |frames| && frames[i] == EMPTY
    requires forall j :: from <= j < i ==> frames[j] != EMPTY
    ensures FirstEmpty(frames, from) == i
  {
  }

  /** A REQUEST with its delimiter in front parses to its client frames and body. */
  lemma RequestParses(clients: Frames, body: Bytes)
    requires |clients| <= 1 && EMPTY !in clients
    ensures ParseWorker([EMPTY] + ([WORKER_PROTOCOL, REQUEST] + clients + [EMPTY] + BodyFrames(body)))
         == Ok(WorkerMessage([], REQUEST, EMPTY, clients, if clients == [] then EMPTY else clients[0], body))
  {
    var protocol := [WORKER_PROTOCOL, REQUEST] + clients + [EMPTY] + BodyFrames(body);
    var frames := [EMPTY] + protocol;
    assert frames[1..] == protocol && frames[..0] == [];
    assert protocol[2..2 + |clients|] == clients && protocol[2 + |clients|] == EMPTY;
    assert forall j :: 2 <= j < 2 + |clients| ==> protocol[j] == clients[j - 2];
    EmptyAfter(protocol, 2, 2 + |clients|);
  }

  /** The broker's REQUEST reaches the worker with the client's address and body, whatever they are. */
  lemma RequestReachesWorker(w: Worker, r: Request, ok: bool)
    ensures var (id, frames) := RouterSend(FramesOf(Send(w, r, ok)));
            && id == w.identity
            && ParseWorker(frames)
                 == Ok(WorkerMessage([], REQUEST, EMPTY, if r.client == EMPTY then [] else [r.client], r.client, r.body))
  {
    var frames := RouterSend(FramesOf(Send(w, r, ok))).1;
    var clients := if r.client == EMPTY then [] else [r.client];
    assert frames == [EMPTY] + ([WORKER_PROTOCOL, REQUEST] + clients + [EMPTY] + BodyFrames(r.body));
    RequestParses(clients, r.body);
  }

  /** The frames of a worker's REPLY, as the worker sends them. */
  function ReplyFrames(client: Bytes, body: Bytes): Frames {
    FormatWorkerMessage(NewWorkerMessage(REPLY, client, body))
  }

  function ReplyHead(client: Bytes): (p: Frames)
    ensures |p| >= 2 && p[0] == WORKER_PROTOCOL && p[1] == REPLY
    ensures forall i :: 0 <= i < |p| ==> p[i] != EMPTY
  {
    [WORKER_PROTOCOL, REPLY] + if client == EMPTY then [] else [client]
  }

  lemma ReplyShape(client: Bytes, body: Bytes)
    ensures ReplyFrames(client, body) == [EMPTY] + ReplyHead(client) + [EMPTY] + BodyFrames(body)
  {
  }

  lemma {:induction false} HeadThenRest(f: Frames, current: Frames, rest: Frames)
    requires current != [] && rest != [] && rest[0] == EMPTY
    requires forall i :: 0 <= i < |f| ==> f[i] != EMPTY
    ensures Parts(f + rest, current) == [current + f] + Parts(rest[1..], [])
    decreases |f|
  {
    if f == [] {
      assert f + rest == rest && current + f == current;
    } else {
      assert (f + rest)[1..] == f[1..] + rest;
      HeadThenRest(f[1..], current + [f[0]], rest);
      assert (current + [f[0]]) + f[1..] == current + f;
    }
  }

  /** The parts of a REPLY: the head, and the body when there is one. */
  lemma ReplyParts(client: Bytes, body: Bytes)
    ensures Parts(ReplyFrames(client, body), []) == [ReplyHead(client)] + (if body == EMPTY then [] else [[body]])
  {
    var p := ReplyHead(client);
    var rest := [EMPTY] + BodyFrames(body);
    ReplyShape(client, body);
    assert ReplyFrames(client, body)[1..] == p + rest;
    HeadThenRest(p[1..], [p[0]], rest);
    assert [] + [p[0]] == [p[0]] && (p + rest)[1..] == p[1..] + rest;
    assert [p[0]] + p[1..] == p;
    assert rest[1..] == BodyFrames(body);
    if body != EMPTY { OnePart([body]); }
  }

  lemma ReplyDetected(client: Bytes, body: Bytes)
    requires body != EMPTY
    ensures Detect(ReplyFrames(client, body)) == FromWorker([EMPTY] + (ReplyHead(client) + [EMPTY, body]))
  {
    var p := ReplyHead(client);
    ReplyShape(client, body);
    ReplyParts(client, body);
    assert ProtocolPart([p, [body]], 0) == 0;
    assert Join([[body]]) == [EMPTY, body] by { assert [[body]][1..] == []; }
    assert [p, [body]][1..] == [[body]];
    Assoc([EMPTY], p, [EMPTY, body]);
  }

  /** A REPLY with a body reaches the broker with the client's address and the body. */
  lemma ReplyReachesBroker(id: Bytes, client: Bytes, body: Bytes)
    requires body != EMPTY
    ensures var clients := if client == EMPTY then [] else [client];
            Decode(RouterReceive(id, ReplyFrames(client, body)))
              == WorkerIn(id, WorkerMessage([], REPLY, EMPTY, clients, client, body))
  {
    var frames, p := ReplyFrames(client, body), ReplyHead(client);
    var clients := if client == EMPTY then [] else [client];
    ReplyShape(client, body);
    ReplyDetected(client, body);
    assert RouterReceive(id, frames)[1..] == frames;
    var protocol := p + [EMPTY, body];
    assert ([EMPTY] + protocol)[1..] == protocol && ([EMPTY] + protocol)[..0] == [];
    assert FirstEmpty(protocol, 2) == |p| by { EmptyAfter(protocol, 2, |p|); }
    assert protocol[2..|p|] == clients;
  }

  /** A REPLY without a body never makes it past reconstruction: its trailing separator is gone. */
  lemma EmptyReplyIsDropped(id: Bytes, client: Bytes)
    ensures Decode(RouterReceive(id, ReplyFrames(client, EMPTY))) == Dropped
  {
    var frames := ReplyFrames(client, EMPTY);
    var p := ReplyHead(client);
    ReplyShape(client, EMPTY);
    ReplyParts(client, EMPTY);
    assert RouterReceive(id, frames)[1..] == frames;
    assert ProtocolPart([p], 0) == 0;
    assert Join([p][1..]) == [];
    assert [EMPTY] + p + [] == [EMPTY] + p;
    assert ([EMPTY] + p)[1..] == p;
    assert Detect(frames) == FromWorker([EMPTY] + p);
  }

  /** A REPLY gets through exactly when it has a body. */
  lemma ReplyGetsThrough(id: Bytes, client: Bytes, body: Bytes)
    ensures Decode(RouterReceive(id, ReplyFrames(client, body))) != Dropped <==> body != EMPTY
  {
    if body == EMPTY { EmptyReplyIsDropped(id, client); } else { ReplyReachesBroker(id, client, body); }
  }

  // ---------------------------------------------------------------- READY, HEARTBEAT and DISCONNECT

  /** A worker message of one run of frames is rebuilt as it was sent. */
  lemma BareDetected(part: Frames)
    requires part != [] && part[0] == WORKER_PROTOCOL && forall i :: 0 <= i < |part| ==> part[i] != EMPTY
    ensures Detect([EMPTY] + part) == FromWorker([EMPTY] + part)
  {
    OnePart(part);
    assert ProtocolPart([part], 0) == 0;
    assert Join([part][1..]) == [];
    assert [EMPTY] + part + [] == [EMPTY] + part;
  }

  /** What the broker makes of a READY, a HEARTBEAT or a DISCONNECT on the wire. */
  lemma CommandReachesBroker(id: Bytes, command: Bytes, rest: Frames, now: Time, outcomes: seq<bool>)
    requires command != EMPTY && |rest| <= 1 && EMPTY !in rest
    ensures var worker: Bytes := [77, 68, 80, 87, 48, 49];
            var e := EventOf(Decode([id, [], worker, command] + rest), now, outcomes);
            && (command == [1] ==> e == if rest != [] && |rest[0]| <= 255 then Some(Ready(id, rest[0], now)) else None)
            && (command == [4] ==> e == Some(Heartbeat(id, now)))
            && (command == [5] ==> e == Some(Disconnect(id)))
            && (command !in {[1], [3], [4], [5]} ==> e == None)
  {
    var part := [WORKER_PROTOCOL, command] + rest;
    var frames := [id, EMPTY, WORKER_PROTOCOL, command] + rest;
    assert frames[1..] == [EMPTY] + part;
    BareDetected(part);
    assert ([EMPTY] + part)[1..] == part && ([EMPTY] + part)[..0] == [];
    assert FirstEmpty([EMPTY] + part, 0) == 0;
    if command == REQUEST { assert FirstEmpty(part, 2) == |part|; }
  }

  /** READY, as the worker formats it: the service goes where the body was given. */
  function ReadyFrames(service: Bytes): Frames {
    FormatWorkerMessage(NewWorkerMessage(READY, EMPTY, EMPTY).(service := service))
  }

  function BareFrames(command: Bytes): Frames {
    FormatWorkerMessage(NewWorkerMessage(command, EMPTY, EMPTY))
  }

  /** The worker's READY registers it for its service if and only if the service has 1 to 255 bytes. */
  lemma ReadyGetsThrough(id: Bytes, service: Bytes, now: Time, outcomes: seq<bool>)
    ensures EventOf(Decode(RouterReceive(id, ReadyFrames(service))), now, outcomes)
         == if 1 <= |service| <= 255 then Some(Ready(id, service, now)) else None
  {
    var rest := if service == EMPTY then [] else [service];
    assert RouterReceive(id, ReadyFrames(service)) == [id, EMPTY, WORKER_PROTOCOL, [1]] + rest;
    CommandReachesBroker(id, [1], rest, now, outcomes);
  }

  /** HEARTBEAT and DISCONNECT reach the broker as what they are, from every worker. */
  lemma BareReachesBroker(id: Bytes, now: Time, outcomes: seq<bool>)
    ensures EventOf(Decode(RouterReceive(id, BareFrames(HEARTBEAT))), now, outcomes) == Some(Heartbeat(id, now))
    ensures EventOf(Decode(RouterReceive(id, BareFrames(DISCONNECT))), now, outcomes) == Some(Disconnect(id))
  {
    assert RouterReceive(id, BareFrames(HEARTBEAT)) == [id, EMPTY, WORKER_PROTOCOL, [4]] + [];
    assert RouterReceive(id, BareFrames(DISCONNECT)) == [id, EMPTY, WORKER_PROTOCOL, [5]] + [];
    CommandReachesBroker(id, [4], [], now, outcomes);
    CommandReachesBroker(id, [5], [], now, outcomes);
  }

  /** The broker's DISCONNECT is addressed to the worker, which parses it as one. */
  lemma DisconnectReachesWorker(id: Identity)
    ensures var (to, frames) := RouterSend(FramesOf(SendDisconnect(id)));
            && to == id
            && frames == [[], [77, 68, 80, 87, 48, 49], [5]]
            && ParseWorker(frames) == Ok(WorkerMessage([], [5], EMPTY, [], EMPTY, EMPTY))
  {
    var frames := RouterSend(FramesOf(SendDisconnect(id))).1;
    assert frames[1..] == [WORKER_PROTOCOL, DISCONNECT] && frames[..0] == [];
  }

  /** The frames on the wire, byte by byte: a client's request, the broker's request and both replies. */
  lemma WireFrames(w: Worker, r: Request, client: Bytes, body: Bytes)
    requires r.client != EMPTY && r.body != EMPTY && client != EMPTY && body != EMPTY
    ensures var worker: Bytes := [77, 68, 80, 87, 48, 49];
            var asks: Bytes := [77, 68, 80, 67, 48, 49];
            && ReqSend(FormatClientRequest(w.service, body))
                 == [[], [], asks, [82, 69, 81, 85, 69, 83, 84], w.service, body]
            && FramesOf(Send(w, r, true)) == [w.identity, [], worker, [2], r.client, [], r.body]
            && RouterReceive(w.identity, ReplyFrames(client, body)) == [w.identity, [], worker, [3], client, [], body]
            && FramesOf(Forward(w, client, body)) == [client, [], asks, [82, 69, 80, 76, 89], w.service, body]
  {}

  /** Delimiters, a run of frames, a separator: the run is the first part. */
  lemma RunIsFirst(head: Frames, rest: Frames)
    requires head != [] && EMPTY !in head && rest != [] && rest[0] == EMPTY
    ensures Parts([EMPTY, EMPTY] + (head + rest), []) == [head] + Parts(rest[1..], [])
  {
    var f := head + rest;
    assert ([EMPTY, EMPTY] + f)[1..] == [EMPTY] + f && ([EMPTY] + f)[1..] == f;
    assert Parts([EMPTY, EMPTY] + f, []) == Parts([EMPTY] + f, []) == Parts(f, []);
    assert f[0] == head[0] && f[1..] == head[1..] + rest && [] + [head[0]] == [head[0]];
    HeadThenRest(head[1..], [head[0]], rest);
    assert [head[0]] + head[1..] == head;
  }

  /** Without a service the parts fall apart after the command. */
  lemma NamelessRequestDropped(id: Bytes, body: Bytes)
    ensures Decode(RouterReceive(id, ReqSend(FormatClientRequest(EMPTY, body)))) == Dropped
  {
    var head := [CLIENT_PROTOCOL, REQUEST_WORD];
    var rest := [EMPTY] + BodyFrames(body);
    var frames := RouterReceive(id, ReqSend(FormatClientRequest(EMPTY, body)))[1..];
    assert frames == [EMPTY, EMPTY] + (head + rest);
    RunIsFirst(head, rest);
    var parts := Parts(frames, []);
    assert parts[0] == head && ProtocolPart(parts, 0) == 0;
    assert ([EMPTY] + head)[1..] == head;
  }

  /** The older form of a request, with neither command: taken if and only if a body follows the service. */
  lemma OldFormReachesBroker(id: Bytes, service: Bytes, body: Bytes)
    requires 1 <= |service| <= 255 && service != REQUEST_WORD && service != REPLY_WORD
    ensures var asks: Bytes := [77, 68, 80, 67, 48, 49];
            && (body != [] ==> Decode([id, [], asks, service, body]) == ClientIn(id, service, body))
            && Decode([id, [], asks, service]) == Dropped
  {
    var long, short := [CLIENT_PROTOCOL, service, body], [CLIENT_PROTOCOL, service];
    OnePart(short);
    assert [id, EMPTY, CLIENT_PROTOCOL, service][1..] == [EMPTY] + short;
    assert ProtocolPart([short], 0) == 0 && ([EMPTY] + short)[1..] == short;
    if body != [] {
      OnePart(long);
      assert [id, EMPTY, CLIENT_PROTOCOL, service, body][1..] == [EMPTY] + long;
      assert ProtocolPart([long], 0) == 0 && ([EMPTY] + long)[1..] == long;
    }
  }

  /** A client's REQUEST gets through if and only if its service has 1 to 255 bytes. */
  lemma RequestGetsThrough(id: Bytes, service: Bytes, body: Bytes)
    ensures Decode(RouterReceive(id, ReqSend(FormatClientRequest(service, body))))
         == if 1 <= |service| <= 255 then ClientIn(id, service, body) else Dropped
  {
    var frames := RouterReceive(id, ReqSend(FormatClientRequest(service, body)));
    if service == EMPTY {
      NamelessRequestDropped(id, body);
    } else if |service| > 255 {
      var part := [CLIENT_PROTOCOL, REQUEST_WORD, service] + BodyFrames(body);
      assert frames[1..] == [EMPTY, EMPTY] + part;
      OnePart(part);
      assert ProtocolPart([part], 0) == 0;
      assert Detect(frames[1..]) == FromClient([EMPTY] + part);
      assert ([EMPTY] + part)[1..] == part;
    } else {
      RequestReachesBroker(id, service, body);
    }
  }

  /** The broker's reply reaches the client's REQ socket with the service and the body. */
  lemma ReplyReachesClient(w: Worker, client: Bytes, body: Bytes)
    requires ValidService(w.service)
    ensures var (id, frames) := RouterSend(FramesOf(Forward(w, client, body)));
            && id == client
            && ParseClient(ReqReceive(frames)) == Ok(ClientMessage([], REPLY_WORD, w.service, body))
  {
    var frames := RouterSend(FramesOf(Forward(w, client, body))).1;
    var protocol := [CLIENT_PROTOCOL, REPLY_WORD, w.service] + BodyFrames(body);
    assert frames == [EMPTY] + protocol;
    assert ReqReceive(frames) == protocol;
    assert FirstEmpty(protocol, 0) == |protocol|;
  }
}

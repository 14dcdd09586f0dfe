/** A whole service call through the broker, in frames on the outside and states on the inside. */
module MdpService {
  import opened Bytes
  import opened Sequences
  import opened Envelopes
  import opened Mdp
  import opened BrokerModel
  import opened BrokerLifetimes
  import opened MdpPath

  /** The live available workers of a service, in list order. */
  function LiveWorkers(st: State, n: ServiceName, now: Time): seq<Worker> {
    Drop(Lookup(st, n).available, ExpiredWorkers(st.workers, now))
  }

  lemma DispatchOne(r: Request, live: seq<Worker>)
    requires live != []
    ensures Dispatch([r], live, []) == Dispatched([], live[1..], [live[0]], [Send(live[0], r, true)])
  {
    assert [r][1..] == [];
    assert [live[0]] + [] == [live[0]];
  }

  /** With nothing queued, a request goes straight to the first live worker, which becomes busy. */
  lemma RequestIsAssigned(st: State, c: Bytes, n: ServiceName, body: Bytes, now: Time)
    requires Inv(st) && Lookup(st, n).requests == [] && LiveWorkers(st, n, now) != []
    ensures var w := LiveWorkers(st, n, now)[0];
            var r := Request(Lookup(st, n).totalRequests, c, n, body, now);
            var (end, log) := Step(st, ClientRequest(c, n, body, now, []));
            && log == [Arrive(r), Send(w, r, true)]
            && n in end.services && end.services[n].requests == [] && w in end.services[n].busy
            && end.workers == st.workers && end.heartbeatExpiry == st.heartbeatExpiry
            && w.service == n && w.identity in st.workers && st.workers[w.identity].worker == w
  {
    var s, live := Lookup(st, n), LiveWorkers(st, n, now);
    var w := live[0];
    var r := Request(s.totalRequests, c, n, body, now);
    assert s.requests + [r] == [r];
    DispatchOne(r, live);
    assert w in s.available;
    assert ServiceInv(st.workers, n, s);
    assert Member(st.workers, n, w);
    assert [Arrive(r)] + [Send(w, r, true)] == [Arrive(r), Send(w, r, true)];
  }

  /** A reply from a registered worker is forwarded and makes it available again. */
  lemma ReplyIsForwarded(st: State, w: Worker, c: Bytes, body: Bytes, now: Time)
    requires w.identity in st.workers && st.workers[w.identity].worker == w
    ensures var (end, log) := Step(st, Reply(w.identity, c, body, now));
            && log == [Forward(w, c, body)]
            && w.service in end.services && w in end.services[w.service].available
            && end.services[w.service].requests == Lookup(st, w.service).requests
  {
  }

  /**
   A client asks for service `n`. Whenever some live worker is available and nothing is queued:
   the frames the client sends make the broker send one REQUEST, to the first live worker, which
   reads the client's address and body from it; and when that worker answers with a body, the
   frames it sends make the broker send one reply, addressed to the client, whose REQ socket
   reads the service and the worker's answer from it. The worker is then available again.
   */
  lemma ServiceCall(st: State, c: Bytes, n: ServiceName, body: Bytes, answer: Bytes, now: Time, later: Time)
    requires Inv(st) && ValidService(n)
    requires Lookup(st, n).requests == [] && LiveWorkers(st, n, now) != []
    requires answer != EMPTY
    ensures var w := LiveWorkers(st, n, now)[0];
            var r := Request(Lookup(st, n).totalRequests, c, n, body, now);
            var asked := EventOf(Decode(RouterReceive(c, ReqSend(FormatClientRequest(n, body)))), now, []);
            && asked.Some?
            && var (mid, log) := Step(st, asked.value);
            && log == [Arrive(r), Send(w, r, true)]
            && RouterSend(FramesOf(log[1])).0 == w.identity
            && var got := ParseWorker(RouterSend(FramesOf(log[1])).1);
            && got.Ok? && got.value.command == REQUEST && got.value.clientAddr == c && got.value.body == body
            && var answered := EventOf(Decode(RouterReceive(w.identity, ReplyFrames(c, answer))), later, []);
            && answered.Some?
            && var (end, log') := Step(mid, answered.value);
            && log' == [Forward(w, c, answer)]
            && RouterSend(FramesOf(log'[0])).0 == c
            && ParseClient(ReqReceive(RouterSend(FramesOf(log'[0])).1))
                 == Ok(ClientMessage([], REPLY_WORD, n, answer))
            && n in end.services && w in end.services[n].available && end.services[n].requests == []
  {
    var w := LiveWorkers(st, n, now)[0];
    var r := Request(Lookup(st, n).totalRequests, c, n, body, now);
    RequestReachesBroker(c, n, body);
    RequestIsAssigned(st, c, n, body, now);
    RequestReachesWorker(w, r, true);
    ReplyReachesBroker(w.identity, c, answer);
    var mid := Step(st, ClientRequest(c, n, body, now, [])).0;
    ReplyIsForwarded(mid, w, c, answer, later);
    ReplyReachesClient(w, c, answer);
  }

  /** An answer without a body is lost on the way: the broker sees no event at all. */
  lemma EmptyAnswerIsLost(w: Worker, c: Bytes, later: Time, outcomes: seq<bool>)
    ensures EventOf(Decode(RouterReceive(w.identity, ReplyFrames(c, EMPTY))), later, outcomes) == None
  {
    EmptyReplyIsDropped(w.identity, c);
  }

  /**
   A worker's life in frames: READY registers a new worker, HEARTBEAT keeps a registered one, each
   for the heartbeat expiry from now; DISCONNECT takes it off the registry and every list.
   */
  lemma LifeInFrames(st: State, id: Bytes, n: ServiceName, now: Time)
    requires Inv(st)
    ensures var worker: Bytes := [77, 68, 80, 87, 48, 49];
            && var ready := EventOf(Decode([id, [], worker, [1], n]), now, []);
            && var beat := EventOf(Decode([id, [], worker, [4]]), now, []);
            && var leave := EventOf(Decode([id, [], worker, [5]]), now, []);
            && (1 <= |n| <= 255 && id !in st.workers ==>
                  ready.Some? && LivesUntil(Step(st, ready.value).0, id, now + st.heartbeatExpiry))
            && (id in st.workers ==>
                  beat.Some? && LivesUntil(Step(st, beat.value).0, id, now + st.heartbeatExpiry))
            && (id in st.workers ==> leave.Some? && Absent(Step(st, leave.value).0, id))
  {
    var worker: Bytes := [77, 68, 80, 87, 48, 49];
    if n != EMPTY { CommandReachesBroker(id, [1], [n], now, []); }
    CommandReachesBroker(id, [4], [], now, []);
    CommandReachesBroker(id, [5], [], now, []);
    assert [id, [], worker, [1]] + [n] == [id, [], worker, [1], n];
    assert [id, [], worker, [4]] + [] == [id, [], worker, [4]] && [id, [], worker, [5]] + [] == [id, [], worker, [5]];
    SignOfLife(st, id, n, EMPTY, EMPTY, now);
    if id in st.workers { LeavingRetires(st, id, n, now); }
  }
}

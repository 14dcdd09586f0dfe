/**
 * Subscription replication between one SUB socket and the publishers it is
 * connected to.  A subscribe call changes the local topic set first and only
 * later, under the socket's lock, sends a frame to every connection; a new
 * connection replays a snapshot of the topics under the same lock; frames are
 * delivered in order.  Every such step is a separate event here.
 */
module Subscriptions {
  import opened Bytes

  /** One subscribe or unsubscribe call. */
  datatype Call = Call(subscribe: bool, topic: Bytes)

  /** A connection: frames in flight, and the publisher's topic set for it. */
  datatype Link = Link(inflight: seq<Bytes>, topics: set<Bytes>)

  /** Who holds the socket's lock, and what it still has to send. */
  datatype Lock =
    | Free
    | Replaying(conn: nat, todo: seq<Bytes>)
    | Writing(call: Call, owed: set<nat>)

  /** `halves` are the calls that changed the topics and have not got the lock yet. */
  datatype State = State(topics: set<Bytes>, halves: seq<Call>, lock: Lock, links: map<nat, Link>)

  datatype Event =
    | Begin(call: Call)
    | Start(index: nat)
    | SendTo(conn: nat)
    | Connect(conn: nat, order: seq<Bytes>)
    | Replay
    | Unlock
    | Disconnect(conn: nat)
    | Deliver(conn: nat)

  const INITIAL := State({}, [], Free, map[])

  /** The frame that carries a call: a one for subscribe, a zero for unsubscribe, then the topic. */
  function Frame(call: Call): (f: Bytes) {
    [if call.subscribe then 1 else 0] + call.topic
  }

  /** The publisher's test for a subscription message. */
  predicate IsTopic(msg: Frames) {
    |msg| == 1 && |msg[0]| > 0 && (msg[0][0] == 0 || msg[0][0] == 1)
  }

  function Applied(topics: set<Bytes>, call: Call): (r: set<Bytes>) {
    if call.subscribe then topics + {call.topic} else topics - {call.topic}
  }

  /** What the publisher's listener does to a connection's topics with one message. */
  function Heard(topics: set<Bytes>, msg: Frames): (r: set<Bytes>) {
    if !IsTopic(msg) then topics
    else if msg[0][0] == 0 then topics - {msg[0][1..]} else topics + {msg[0][1..]}
  }

  function Drained(topics: set<Bytes>, frames: seq<Bytes>): (r: set<Bytes>)
    decreases |frames|
  {
    if frames == [] then topics else Drained(Heard(topics, [frames[0]]), frames[1..])
  }

  function AllApplied(topics: set<Bytes>, calls: seq<Call>): (r: set<Bytes>)
    decreases |calls|
  {
    if calls == [] then topics else AllApplied(Applied(topics, calls[0]), calls[1..])
  }

  function Elements(s: seq<Bytes>): (r: set<Bytes>) { set x | x in s }

  function Sent(l: Link, frame: Bytes): (r: Link) { l.(inflight := l.inflight + [frame]) }

  /** One step; an event that the lock or the state does not allow changes nothing. */
  function Step(s: State, e: Event): (r: State) {
    match e
    case Begin(call) => s.(topics := Applied(s.topics, call), halves := s.halves + [call])
    case Start(i) =>
      if s.lock.Free? && i < |s.halves|
      then s.(halves := s.halves[..i] + s.halves[i + 1..], lock := Writing(s.halves[i], s.links.Keys))
      else s
    case SendTo(c) =>
      if s.lock.Writing? && c in s.lock.owed && c in s.links
      then s.(lock := Writing(s.lock.call, s.lock.owed - {c}),
              links := s.links[c := Sent(s.links[c], Frame(s.lock.call))])
      else s
    case Connect(c, order) =>
      if s.lock.Free? && c !in s.links && Elements(order) == s.topics
      then s.(lock := Replaying(c, order), links := s.links[c := Link([], {})])
      else s
    case Replay =>
      if s.lock.Replaying? && s.lock.todo != [] && s.lock.conn in s.links
      then s.(lock := Replaying(s.lock.conn, s.lock.todo[1..]),
              links := s.links[s.lock.conn := Sent(s.links[s.lock.conn], Frame(Call(true, s.lock.todo[0])))])
      else s
    case Unlock =>
      if (s.lock.Replaying? && s.lock.todo == []) || (s.lock.Writing? && s.lock.owed == {})
      then s.(lock := Free)
      else s
    case Disconnect(c) => if s.lock.Free? then s.(links := s.links - {c}) else s
    case Deliver(c) =>
      if c in s.links && s.links[c].inflight != [] then
        var l := s.links[c];
        s.(links := s.links[c := Link(l.inflight[1..], Heard(l.topics, [l.inflight[0]]))])
      else s
  }

  function Run(s: State, events: seq<Event>): (r: State)
    decreases |events|
  {
    if events == [] then s else Run(Step(s, events[0]), events[1..])
  }

  // ---- What connection c is still owed -----------------------------------

  /** The topics the publisher will have for `c` once everything being sent arrives. */
  function Seen(s: State, c: nat): (r: set<Bytes>)
    requires c in s.links
  {
    Drained(s.links[c].topics, s.links[c].inflight)
    + (if s.lock.Replaying? && s.lock.conn == c then Elements(s.lock.todo) else {})
  }

  /** The half-done calls connection `c` has not been sent. */
  function Owed(s: State, c: nat): (r: seq<Call>) {
    (if s.lock.Writing? && c in s.lock.owed then [s.lock.call] else []) + s.halves
  }

  /** Every half-done call, whoever it is still owed to. */
  function Pending(s: State): (r: seq<Call>) {
    (if s.lock.Writing? then [s.lock.call] else []) + s.halves
  }

  /** No call that still waits for the lock is the opposite one on the same topic. */
  ghost predicate Compatible(s: State, call: Call) {
    forall p :: p in s.halves && p.topic == call.topic ==> p.subscribe == call.subscribe
  }

  /** A call never begins while an opposite one on its topic waits for the lock. */
  ghost predicate Disciplined(s: State, events: seq<Event>)
    decreases |events|
  {
    events == [] ||
    ((events[0].Begin? ==> Compatible(s, events[0].call)) && Disciplined(Step(s, events[0]), events[1..]))
  }

  /** Local topics show the outcome of the call. */
  predicate Shows(s: State, call: Call) { call.subscribe <==> call.topic in s.topics }

  ghost predicate Mentions(calls: seq<Call>, t: Bytes) {
    exists p :: p in calls && p.topic == t
  }

  /** Local topics show every waiting call, and the one being written unless a waiting one overrides it. */
  ghost predicate Settled(s: State) {
    && (forall p :: p in s.halves ==> Shows(s, p))
    && (s.lock.Writing? ==> Shows(s, s.lock.call) || Mentions(s.halves, s.lock.call.topic))
  }

  /** `c` will agree with the subscriber on every topic no call it is owed mentions. */
  ghost predicate Agrees(s: State, c: nat)
    requires c in s.links
  {
    forall t :: !Mentions(Owed(s, c), t) ==> (t in Seen(s, c) <==> t in s.topics)
  }

  ghost predicate LockSane(s: State) {
    && (s.lock.Replaying? ==> s.lock.conn in s.links)
    && (s.lock.Writing? ==> s.lock.owed <= s.links.Keys)
  }

  ghost predicate Inv(s: State) {
    LockSane(s) && Settled(s) && forall c :: c in s.links ==> Agrees(s, c)
  }

  // ---- Frames -------------------------------------------------------------

  /** The publisher reads a subscription frame back as the call it carries. */
  lemma HeardFrame(topics: set<Bytes>, call: Call)
    ensures Heard(topics, [Frame(call)]) == Applied(topics, call)
  {
    assert Frame(call)[1..] == call.topic;
  }

  lemma {:induction false} DrainedAppend(topics: set<Bytes>, frames: seq<Bytes>, frame: Bytes)
    ensures Drained(topics, frames + [frame]) == Heard(Drained(topics, frames), [frame])
    decreases |frames|
  {
    if frames == [] {
      assert (frames + [frame])[1..] == [];
    } else {
      assert (frames + [frame])[1..] == frames[1..] + [frame];
      DrainedAppend(Heard(topics, [frames[0]]), frames[1..], frame);
    }
  }

  lemma DrainedSent(l: Link, call: Call)
    ensures Drained(l.topics, Sent(l, Frame(call)).inflight) == Applied(Drained(l.topics, l.inflight), call)
  {
    DrainedAppend(l.topics, l.inflight, Frame(call));
    HeardFrame(Drained(l.topics, l.inflight), call);
  }

  /** On the wire: one byte, 1 to subscribe and 0 to unsubscribe, then the topic. Nothing else is a subscription. */
  lemma SubscriptionOnTheWire(topics: set<Bytes>, t: Bytes, msg: Frames)
    ensures Frame(Call(true, t)) == [1] + t && Frame(Call(false, t)) == [0] + t
    ensures Heard(topics, [[1] + t]) == topics + {t} && Heard(topics, [[0] + t]) == topics - {t}
    ensures (forall u :: msg != [[1] + u] && msg != [[0] + u]) ==> Heard(topics, msg) == topics
  {
    HeardFrame(topics, Call(true, t));
    HeardFrame(topics, Call(false, t));
    if IsTopic(msg) {
      var u := msg[0][1..];
      assert msg[0] == [msg[0][0]] + u && msg == [msg[0]];
    }
  }

  // ---- One step keeps the invariant ---------------------------------------

  lemma BeginSettled(s: State, call: Call)
    requires Settled(s) && Compatible(s, call)
    ensures Settled(Step(s, Begin(call)))
  {
    var r := Step(s, Begin(call));
    assert call in r.halves;
    forall p | p in r.halves ensures Shows(r, p) {
      if p in s.halves { assert Shows(s, p); }
    }
    if s.lock.Writing? && Mentions(s.halves, s.lock.call.topic) {
      var p :| p in s.halves && p.topic == s.lock.call.topic;
      assert p in r.halves;
    }
  }

  lemma BeginInv(s: State, call: Call)
    requires Inv(s) && Compatible(s, call)
    ensures Inv(Step(s, Begin(call)))
  {
    var r := Step(s, Begin(call));
    BeginSettled(s, call);
    assert call in r.halves;
    forall c | c in r.links ensures Agrees(r, c) {
      assert Agrees(s, c) && Seen(r, c) == Seen(s, c) && Owed(r, c) == Owed(s, c) + [call];
      forall t | !Mentions(Owed(r, c), t) ensures t in Seen(r, c) <==> t in r.topics {
        assert call in Owed(r, c);
        assert forall p :: p in Owed(s, c) ==> p in Owed(r, c);
        assert !Mentions(Owed(s, c), t) && t != call.topic;
      }
    }
  }

  lemma StartInv(s: State, i: nat)
    requires Inv(s)
    ensures Inv(Step(s, Start(i)))
  {
    var r := Step(s, Start(i));
    if r != s {
      assert s.halves == s.halves[..i] + [s.halves[i]] + s.halves[i + 1..];
      assert forall p :: p in r.halves ==> p in s.halves && Shows(s, p);
      assert Shows(s, s.halves[i]);
      forall c | c in r.links ensures Agrees(r, c) {
        assert Agrees(s, c) && Seen(r, c) == Seen(s, c);
        assert forall p :: p in Owed(r, c) <==> p in Owed(s, c);
        forall t | !Mentions(Owed(r, c), t) ensures !Mentions(Owed(s, c), t) {}
      }
    }
  }

  lemma SendToInv(s: State, c: nat)
    requires Inv(s)
    ensures Inv(Step(s, SendTo(c)))
  {
    var r := Step(s, SendTo(c));
    if r != s {
      var call := s.lock.call;
      DrainedSent(s.links[c], call);
      assert Agrees(s, c) && Seen(r, c) == Applied(Seen(s, c), call);
      assert Owed(s, c) == [call] + Owed(r, c);
      forall t | !Mentions(Owed(r, c), t) ensures t in Seen(r, c) <==> t in r.topics {
        if t != call.topic { assert !Mentions(Owed(s, c), t); }
      }
      forall d | d in r.links && d != c ensures Agrees(r, d) {
        assert Agrees(s, d) && Seen(r, d) == Seen(s, d) && Owed(r, d) == Owed(s, d);
      }
    }
  }

  lemma ConnectInv(s: State, c: nat, order: seq<Bytes>)
    requires Inv(s)
    ensures Inv(Step(s, Connect(c, order)))
  {
    var r := Step(s, Connect(c, order));
    if r != s {
      assert Seen(r, c) == s.topics;
      forall d | d in r.links && d != c ensures Agrees(r, d) {
        assert Agrees(s, d) && Seen(r, d) == Seen(s, d) && Owed(r, d) == Owed(s, d);
      }
    }
  }

  lemma ReplayInv(s: State)
    requires Inv(s)
    ensures Inv(Step(s, Replay))
  {
    var r := Step(s, Replay);
    if r != s {
      var c, t := s.lock.conn, s.lock.todo[0];
      DrainedSent(s.links[c], Call(true, t));
      assert Elements(s.lock.todo) == {t} + Elements(s.lock.todo[1..]) by {
        assert s.lock.todo == [t] + s.lock.todo[1..];
      }
      assert Seen(r, c) == Seen(s, c);
      forall d | d in r.links ensures Agrees(r, d) {
        assert Agrees(s, d) && Seen(r, d) == Seen(s, d) && Owed(r, d) == Owed(s, d);
      }
    }
  }

  lemma UnlockInv(s: State)
    requires Inv(s)
    ensures Inv(Step(s, Unlock))
  {
    var r := Step(s, Unlock);
    forall c | c in r.links ensures Agrees(r, c) {
      assert Agrees(s, c) && Seen(r, c) == Seen(s, c) && Owed(r, c) == Owed(s, c);
    }
  }

  lemma DisconnectInv(s: State, c: nat)
    requires Inv(s)
    ensures Inv(Step(s, Disconnect(c)))
  {
    var r := Step(s, Disconnect(c));
    forall d | d in r.links ensures Agrees(r, d) {
      assert Agrees(s, d) && Seen(r, d) == Seen(s, d) && Owed(r, d) == Owed(s, d);
    }
  }

  lemma DeliverInv(s: State, c: nat)
    requires Inv(s)
    ensures Inv(Step(s, Deliver(c)))
  {
    var r := Step(s, Deliver(c));
    forall d | d in r.links ensures Agrees(r, d) {
      assert Agrees(s, d) && Seen(r, d) == Seen(s, d) && Owed(r, d) == Owed(s, d);
    }
  }

  lemma StepInv(s: State, e: Event)
    requires Inv(s) && (e.Begin? ==> Compatible(s, e.call))
    ensures Inv(Step(s, e))
  {
    match e
    case Begin(call) => BeginInv(s, call);
    case Start(i) => StartInv(s, i);
    case SendTo(c) => SendToInv(s, c);
    case Connect(c, order) => ConnectInv(s, c, order);
    case Replay => ReplayInv(s);
    case Unlock => UnlockInv(s);
    case Disconnect(c) => DisconnectInv(s, c);
    case Deliver(c) => DeliverInv(s, c);
  }

  lemma {:induction false} RunInv(s: State, events: seq<Event>)
    requires Inv(s) && Disciplined(s, events)
    ensures Inv(Run(s, events))
    decreases |events|
  {
    if events != [] {
      StepInv(s, events[0]);
      RunInv(Step(s, events[0]), events[1..]);
    }
  }

  // ---- The replication theorem --------------------------------------------

  /** Applying settled calls to a set that agrees elsewhere gives the local topics. */
  lemma {:induction false} AllAppliedSettles(seen: set<Bytes>, calls: seq<Call>, topics: set<Bytes>)
    requires forall p :: p in calls ==> (p.subscribe <==> p.topic in topics)
    requires forall t :: !Mentions(calls, t) ==> (t in seen <==> t in topics)
    ensures AllApplied(seen, calls) == topics
    decreases |calls|
  {
    if calls == [] {
      forall t ensures t in seen <==> t in topics { assert !Mentions(calls, t); }
    } else {
      var rest := calls[1..];
      assert calls == [calls[0]] + rest;
      forall t | !Mentions(rest, t) ensures t in Applied(seen, calls[0]) <==> t in topics {
        if t != calls[0].topic { assert !Mentions(calls, t); }
      }
      AllAppliedSettles(Applied(seen, calls[0]), rest, topics);
    }
  }

  lemma OwedSettles(s: State, c: nat)
    requires Inv(s) && c in s.links
    ensures AllApplied(Seen(s, c), Owed(s, c)) == s.topics
  {
    assert Agrees(s, c);
    assert forall p :: p in s.halves ==> Shows(s, p);
    if s.lock.Writing? && c in s.lock.owed {
      var call, seen := s.lock.call, Seen(s, c);
      assert Owed(s, c) == [call] + s.halves && Owed(s, c)[1..] == s.halves;
      forall t | !Mentions(s.halves, t) ensures t in Applied(seen, call) <==> t in s.topics {
        if t != call.topic { assert !Mentions(Owed(s, c), t); }
      }
      AllAppliedSettles(Applied(seen, call), s.halves, s.topics);
    } else {
      assert Owed(s, c) == s.halves;
      AllAppliedSettles(Seen(s, c), s.halves, s.topics);
    }
  }

  /**
   * Over every interleaving of disciplined calls, connections, replays, sends and
   * deliveries: a connection's in-flight frames, then its replay, then the calls
   * it is owed, take the publisher's topics exactly to the subscriber's.
   */
  lemma Replication(events: seq<Event>, c: nat)
    requires Disciplined(INITIAL, events) && c in Run(INITIAL, events).links
    ensures var s := Run(INITIAL, events);
            AllApplied(Seen(s, c), Owed(s, c)) == s.topics
  {
    RunInv(INITIAL, events);
    OwedSettles(Run(INITIAL, events), c);
  }

  /** Once nothing is half done, replaying or in flight, both sides hold the same topics. */
  lemma DrainedAgree(events: seq<Event>, c: nat)
    requires Disciplined(INITIAL, events) && c in Run(INITIAL, events).links
    requires var s := Run(INITIAL, events);
             s.lock.Free? && s.halves == [] && s.links[c].inflight == []
    ensures var s := Run(INITIAL, events);
            s.links[c].topics == s.topics
  {
    Replication(events, c);
  }

  /** A caller that starts a call only when none is half done keeps the discipline. */
  ghost predicate OneCaller(s: State, events: seq<Event>)
    decreases |events|
  {
    events == [] ||
    ((events[0].Begin? ==> Pending(s) == []) && OneCaller(Step(s, events[0]), events[1..]))
  }

  lemma {:induction false} OneCallerDisciplined(s: State, events: seq<Event>)
    requires OneCaller(s, events)
    ensures Disciplined(s, events)
    decreases |events|
  {
    if events != [] { OneCallerDisciplined(Step(s, events[0]), events[1..]); }
  }

  function Deliveries(c: nat, n: nat): (r: seq<Event>)
    ensures |r| == n && forall i :: 0 <= i < n ==> r[i] == Deliver(c)
  {
    seq(n, (i: nat) => Deliver(c))
  }

  /** As many deliveries as frames in flight bring a connection up to date, and touch nothing else. */
  lemma {:induction false} DeliveriesDrain(s: State, c: nat)
    requires c in s.links
    ensures Run(s, Deliveries(c, |s.links[c].inflight|))
         == s.(links := s.links[c := Link([], Drained(s.links[c].topics, s.links[c].inflight))])
    decreases |s.links[c].inflight|
  {
    var l := s.links[c];
    if l.inflight == [] {
      assert s.links[c := Link([], l.topics)] == s.links;
    } else {
      var next := Step(s, Deliver(c));
      assert Deliveries(c, |l.inflight|) == [Deliver(c)] + Deliveries(c, |l.inflight| - 1);
      assert Deliveries(c, |l.inflight|)[1..] == Deliveries(c, |l.inflight| - 1);
      DeliveriesDrain(next, c);
      var end := Link([], Drained(l.topics, l.inflight));
      assert next.links[c := end] == s.links[c := end];
    }
  }

  /**
   * After every disciplined run that ends with no call half done, delivering what is in flight
   * on a connection makes the publisher's topics for it the subscriber's.
   */
  lemma DeliveredAgree(events: seq<Event>, c: nat)
    requires Disciplined(INITIAL, events) && c in Run(INITIAL, events).links
    requires Run(INITIAL, events).lock.Free? && Run(INITIAL, events).halves == []
    ensures var s := Run(INITIAL, events);
            var r := Run(s, Deliveries(c, |s.links[c].inflight|));
            c in r.links && r.links[c] == Link([], s.topics) && r.topics == s.topics
  {
    Replication(events, c);
    DeliveriesDrain(Run(INITIAL, events), c);
  }

  /** A connection that goes takes nothing with it, and one that comes is sent a snapshot of the topics. */
  lemma ComingAndGoing(s: State, c: nat, order: seq<Bytes>)
    requires s.lock.Free?
    ensures Step(s, Disconnect(c)) == s.(links := map d | d in s.links && d != c :: s.links[d])
    ensures c !in s.links && Elements(order) == s.topics ==>
      var r := Step(s, Connect(c, order));
      r.links == s.links[c := Link([], {})] && r.lock == Replaying(c, order) && r.topics == s.topics
  {
    assert s.links - {c} == map d | d in s.links && d != c :: s.links[d];
  }

  // ---- The discipline is exactly what is needed -------------------------------

  lemma RunOne(s: State, e: Event)
    ensures Run(s, [e]) == Step(s, e)
  {
    assert Run(Step(s, e), [e][1..]) == Step(s, e);
  }

  lemma {:induction false} RunSplit(s: State, a: seq<Event>, b: seq<Event>)
    ensures Run(s, a + b) == Run(Run(s, a), b)
    decreases |a|
  {
    if a == [] {
      assert a + b == b;
    } else {
      assert (a + b)[1..] == a[1..] + b;
      RunSplit(Step(s, a[0]), a[1..], b);
    }
  }

  lemma RunCons(s: State, e: Event, rest: seq<Event>)
    ensures Run(s, [e] + rest) == Run(Step(s, e), rest)
  {
    assert ([e] + rest)[1..] == rest;
  }

  /** No new call begins. */
  ghost predicate Quiet(events: seq<Event>) {
    forall e :: e in events ==> !e.Begin?
  }

  /** `r` has the lock free, and the subscriber's side, the waiting calls and the connections of `s`. */
  ghost predicate Released(s: State, r: State) {
    r.lock.Free? && r.topics == s.topics && r.halves == s.halves && r.links.Keys == s.links.Keys
  }

  /** Every connection has been sent `call` on top of what it had in `s`. */
  ghost predicate SentAll(s: State, r: State, call: Call, to: set<nat>)
    requires r.links.Keys == s.links.Keys
  {
    forall c :: c in s.links ==> Seen(r, c) == if c in to then Applied(Seen(s, c), call) else Seen(s, c)
  }

  lemma SentOneMore(s: State, next: State, r: State, c: nat)
    requires s.lock.Writing? && c in s.lock.owed && s.lock.owed <= s.links.Keys && next == Step(s, SendTo(c))
    requires Released(next, r) && SentAll(next, r, s.lock.call, s.lock.owed - {c})
    ensures SentAll(s, r, s.lock.call, s.lock.owed)
  {
    DrainedSent(s.links[c], s.lock.call);
    forall d | d in s.links
      ensures Seen(r, d) == if d in s.lock.owed then Applied(Seen(s, d), s.lock.call) else Seen(s, d)
    {
      assert d in next.links;
    }
  }

  /** Whoever is writing can finish, and then every connection it owed has the call. */
  lemma {:induction false} FinishWriting(s: State) returns (events: seq<Event>)
    requires s.lock.Writing? && s.lock.owed <= s.links.Keys
    ensures Quiet(events) && Released(s, Run(s, events))
    ensures SentAll(s, Run(s, events), s.lock.call, s.lock.owed)
    decreases |s.lock.owed|
  {
    if s.lock.owed == {} {
      events := [Unlock];
      RunOne(s, Unlock);
    } else {
      var c :| c in s.lock.owed;
      var next := Step(s, SendTo(c));
      assert next.lock == Writing(s.lock.call, s.lock.owed - {c}) && next.links.Keys == s.links.Keys;
      var rest := FinishWriting(next);
      events := [SendTo(c)] + rest;
      RunCons(s, SendTo(c), rest);
      SentOneMore(s, next, Run(next, rest), c);
    }
  }

  /** A replay can finish. */
  lemma {:induction false} FinishReplay(s: State) returns (events: seq<Event>)
    requires s.lock.Replaying? && s.lock.conn in s.links
    ensures Quiet(events) && Released(s, Run(s, events))
    decreases |s.lock.todo|
  {
    if s.lock.todo == [] {
      events := [Unlock];
      RunOne(s, Unlock);
    } else {
      var rest := FinishReplay(Step(s, Replay));
      events := [Replay] + rest;
      RunCons(s, Replay, rest);
    }
  }

  lemma Release(s: State) returns (events: seq<Event>)
    requires LockSane(s)
    ensures Quiet(events) && Released(s, Run(s, events))
  {
    match s.lock
    case Free => events := [];
    case Replaying(_, _) => events := FinishReplay(s);
    case Writing(_, _) => events := FinishWriting(s);
  }

  /** The whole second half of the waiting call at `i`. */
  lemma Round(s: State, i: nat) returns (events: seq<Event>)
    requires s.lock.Free? && i < |s.halves|
    ensures Quiet(events)
    ensures var r := Run(s, events);
            && r.lock.Free? && r.topics == s.topics && r.links.Keys == s.links.Keys
            && r.halves == s.halves[..i] + s.halves[i + 1..]
            && SentAll(s, r, s.halves[i], s.links.Keys)
  {
    var next := Step(s, Start(i));
    var rest := FinishWriting(next);
    events := [Start(i)] + rest;
    RunCons(s, Start(i), rest);
    assert forall c :: c in s.links ==> Seen(next, c) == Seen(s, c);
  }

  /** All waiting calls but the one at `i` can go first. */
  lemma {:induction false} OthersFirst(s: State, i: nat) returns (events: seq<Event>)
    requires s.lock.Free? && i < |s.halves|
    ensures Quiet(events)
    ensures var r := Run(s, events);
            r.lock.Free? && r.topics == s.topics && r.links.Keys == s.links.Keys && r.halves == [s.halves[i]]
    decreases |s.halves|
  {
    if |s.halves| == 1 {
      events := [];
    } else {
      var first := Round(s, if i == 0 then 1 else 0);
      var mid := Run(s, first);
      assert mid.halves[if i == 0 then 0 else i - 1] == s.halves[i];
      var rest := OthersFirst(mid, if i == 0 then 0 else i - 1);
      events := first + rest;
      RunSplit(s, first, rest);
    }
  }

  lemma {:induction false} Enumerate(s: set<Bytes>) returns (order: seq<Bytes>)
    ensures Elements(order) == s
    decreases |s|
  {
    if s == {} {
      order := [];
    } else {
      var x :| x in s;
      var rest := Enumerate(s - {x});
      order := [x] + rest;
      assert Elements(order) == {x} + Elements(rest);
    }
  }

  /** A socket with the lock free can have a connection. */
  lemma SomeConnection(s: State) returns (events: seq<Event>)
    requires s.lock.Free?
    ensures Quiet(events)
    ensures var r := Run(s, events);
            r.lock.Free? && r.topics == s.topics && r.halves == s.halves && r.links.Keys != {}
  {
    if s.links.Keys != {} {
      events := [];
    } else {
      var order := Enumerate(s.topics);
      var next := Step(s, Connect(0, order));
      var rest := FinishReplay(next);
      events := [Connect(0, order)] + rest;
      RunCons(s, Connect(0, order), rest);
    }
  }

  /** Nothing is half done, there is a connection, and every one has the topic the wrong way. */
  ghost predicate AllWrong(r: State, t: Bytes) {
    && r.lock.Free? && r.halves == [] && r.links.Keys != {}
    && forall c :: c in r.links ==> (t in Seen(r, c) <==> t !in r.topics)
  }

  lemma LastWins(s: State, r: State, call: Call)
    requires r.links.Keys == s.links.Keys != {} && SentAll(s, r, call, s.links.Keys)
    requires r.lock.Free? && r.halves == [] && r.topics == s.topics && !Shows(s, call)
    ensures AllWrong(r, call.topic)
  {
    forall c | c in r.links ensures call.topic in Seen(r, c) <==> call.topic !in r.topics {
      assert Seen(r, c) == Applied(Seen(s, c), call);
    }
  }

  /**
   * Whatever else is going on, if a waiting call is overtaken in the local topics by an
   * opposite one, there is a schedule that sends it last: every publisher ends up wrong.
   */
  lemma SentLastIsWrong(s: State, i: nat) returns (events: seq<Event>)
    requires LockSane(s) && i < |s.halves| && !Shows(s, s.halves[i])
    ensures Quiet(events) && AllWrong(Run(s, events), s.halves[i].topic)
  {
    var p := s.halves[i];
    var e1 := Release(s);
    var s1 := Run(s, e1);
    var e2 := SomeConnection(s1);
    var s2 := Run(s1, e2);
    var e3 := OthersFirst(s2, i);
    var s3 := Run(s2, e3);
    var e4 := Round(s3, 0);
    events := e1 + (e2 + (e3 + e4));
    RunSplit(s, e1, e2 + (e3 + e4));
    RunSplit(s1, e2, e3 + e4);
    RunSplit(s2, e3, e4);
    LastWins(s3, Run(s3, e4), p);
  }

  /** Once nothing is half done, every connection will have the subscriber's topics. */
  ghost predicate EndsRight(r: State) {
    r.lock.Free? && r.halves == [] ==> forall c :: c in r.links ==> Seen(r, c) == r.topics
  }

  /** However things go on without further calls, they end right. */
  ghost predicate AlwaysEndsRight(s: State) {
    forall events :: Quiet(events) ==> EndsRight(Run(s, events))
  }

  lemma {:induction false} QuietDisciplined(s: State, events: seq<Event>)
    requires Quiet(events)
    ensures Disciplined(s, events)
    decreases |events|
  {
    if events != [] {
      assert events[0] in events;
      QuietDisciplined(Step(s, events[0]), events[1..]);
    }
  }

  lemma InvEndsRight(s: State, events: seq<Event>)
    requires Inv(s) && Quiet(events)
    ensures EndsRight(Run(s, events))
  {
    QuietDisciplined(s, events);
    RunInv(s, events);
    var r := Run(s, events);
    forall c | c in r.links && r.lock.Free? && r.halves == [] ensures Seen(r, c) == r.topics { OwedSettles(r, c); }
  }

  /**
   * A call may begin if and only if it is compatible: with any number of connections and
   * waiting calls and whoever holds the lock, every way to go on ends with all
   * publishers right exactly when no opposite call on the topic waits for the lock.
   */
  lemma CompatibleExactly(s: State, call: Call)
    requires Inv(s)
    ensures AlwaysEndsRight(Step(s, Begin(call))) <==> Compatible(s, call)
  {
    var next := Step(s, Begin(call));
    if Compatible(s, call) {
      BeginInv(s, call);
      forall events | Quiet(events) ensures EndsRight(Run(next, events)) { InvEndsRight(next, events); }
    } else {
      var p :| p in s.halves && p.topic == call.topic && p.subscribe != call.subscribe;
      var i :| 0 <= i < |s.halves| && s.halves[i] == p;
      assert next.halves[i] == p;
      var events := SentLastIsWrong(next, i);
      var r := Run(next, events);
      var c :| c in r.links;
      assert p.topic in Seen(r, c) <==> p.topic !in r.topics;
      assert !EndsRight(r);
    }
  }

  /** The same after every disciplined run from a fresh socket. */
  lemma DisciplineIsNeeded(events: seq<Event>, call: Call)
    requires Disciplined(INITIAL, events)
    ensures AlwaysEndsRight(Step(Run(INITIAL, events), Begin(call))) <==> Compatible(Run(INITIAL, events), call)
  {
    RunInv(INITIAL, events);
    CompatibleExactly(Run(INITIAL, events), call);
  }

  /** A connection, a subscribe call, an overlapping unsubscribe call that gets the lock first, and all delivered. */
  function Overtaken(t: Bytes): (r: seq<Event>) {
    [Connect(0, []), Unlock, Begin(Call(true, t)), Begin(Call(false, t))]
    + ([Start(1), SendTo(0), Unlock, Start(0), SendTo(0), Unlock] + [Deliver(0), Deliver(0)])
  }

  lemma RunTwo(s: State, a: Event, b: Event)
    ensures Run(s, [a, b]) == Step(Step(s, a), b)
  {
    RunCons(s, a, [b]);
    assert [a] + [b] == [a, b];
    RunOne(Step(s, a), b);
  }

  lemma OverlapBegun(t: Bytes)
    ensures Run(INITIAL, [Connect(0, []), Unlock, Begin(Call(true, t)), Begin(Call(false, t))])
         == State({}, [Call(true, t), Call(false, t)], Free, map[0 := Link([], {})])
  {
    var on, off := Call(true, t), Call(false, t);
    var a, b := [Connect(0, []), Unlock], [Begin(on), Begin(off)];
    assert a + b == [Connect(0, []), Unlock, Begin(on), Begin(off)];
    RunSplit(INITIAL, a, b);
    RunTwo(INITIAL, Connect(0, []), Unlock);
    assert Elements([]) == {};
    var s := State({}, [], Free, map[0 := Link([], {})]);
    RunTwo(s, Begin(on), Begin(off));
    assert ({} + {t}) - {t} == {};
  }

  lemma OneSent(s: State, call: Call)
    requires s.lock.Free? && s.links.Keys == {0}
    ensures var w := s.(lock := Writing(call, s.links.Keys));
            Step(Step(w, SendTo(0)), Unlock) == s.(links := s.links[0 := Sent(s.links[0], Frame(call))])
  {
    assert s.links.Keys - {0} == {};
  }

  /** A write to the only connection. */
  lemma {:induction false} RoundOne(s: State, i: nat)
    requires s.lock.Free? && s.links.Keys == {0} && i < |s.halves|
    ensures Run(s, [Start(i), SendTo(0), Unlock])
         == s.(halves := s.halves[..i] + s.halves[i + 1..],
               links := s.links[0 := Sent(s.links[0], Frame(s.halves[i]))])
  {
    assert [Start(i), SendTo(0), Unlock] == [Start(i)] + [SendTo(0), Unlock];
    RunCons(s, Start(i), [SendTo(0), Unlock]);
    RunTwo(Step(s, Start(i)), SendTo(0), Unlock);
    OneSent(s.(halves := s.halves[..i] + s.halves[i + 1..]), s.halves[i]);
  }

  /** Both calls waiting, then only the older one. */
  function Both(t: Bytes): (s: State) {
    State({}, [Call(true, t), Call(false, t)], Free, map[0 := Link([], {})])
  }

  function Older(t: Bytes): (s: State) {
    State({}, [Call(true, t)], Free, map[0 := Link([Frame(Call(false, t))], {})])
  }

  lemma NewerSent(t: Bytes)
    ensures Run(Both(t), [Start(1), SendTo(0), Unlock]) == Older(t)
  {
    var on, off := Call(true, t), Call(false, t);
    RoundOne(Both(t), 1);
    assert [on, off][..1] + [on, off][2..] == [on] && [] + [Frame(off)] == [Frame(off)];
    assert Both(t).links[0 := Link([Frame(off)], {})] == Older(t).links;
  }

  lemma OlderSent(t: Bytes)
    ensures Run(Older(t), [Start(0), SendTo(0), Unlock])
         == State({}, [], Free, map[0 := Link([Frame(Call(false, t)), Frame(Call(true, t))], {})])
  {
    var on, off := Call(true, t), Call(false, t);
    RoundOne(Older(t), 0);
    assert [on][..0] + [on][1..] == [] && [Frame(off)] + [Frame(on)] == [Frame(off), Frame(on)];
    assert Older(t).links[0 := Link([Frame(off), Frame(on)], {})] == map[0 := Link([Frame(off), Frame(on)], {})];
  }

  lemma OverlapSent(t: Bytes)
    ensures Run(Both(t), [Start(1), SendTo(0), Unlock, Start(0), SendTo(0), Unlock])
         == State({}, [], Free, map[0 := Link([Frame(Call(false, t)), Frame(Call(true, t))], {})])
  {
    var a, b := [Start(1), SendTo(0), Unlock], [Start(0), SendTo(0), Unlock];
    assert a + b == [Start(1), SendTo(0), Unlock, Start(0), SendTo(0), Unlock];
    RunSplit(Both(t), a, b);
    NewerSent(t);
    OlderSent(t);
  }

  lemma OverlapDelivered(t: Bytes)
    ensures Run(State({}, [], Free, map[0 := Link([Frame(Call(false, t)), Frame(Call(true, t))], {})]),
                [Deliver(0), Deliver(0)])
         == State({}, [], Free, map[0 := Link([], {t})])
  {
    var on, off := Frame(Call(true, t)), Frame(Call(false, t));
    HeardFrame({}, Call(false, t));
    HeardFrame({}, Call(true, t));
    var one, s := [on], State({}, [], Free, map[0 := Link([off, on], {})]);
    RunTwo(s, Deliver(0), Deliver(0));
    assert [off, on][1..] == one && one[1..] == [];
    assert Applied({}, Call(false, t)) == {} && Applied({}, Call(true, t)) == {t};
    assert Step(s, Deliver(0)).links == map[0 := Link(one, {})];
    assert Step(Step(s, Deliver(0)), Deliver(0)).links == map[0 := Link([], {t})];
  }

  lemma OverlapFromStart(t: Bytes)
    ensures Run(INITIAL, Overtaken(t)) == State({}, [], Free, map[0 := Link([], {t})])
  {
    var on, off := Call(true, t), Call(false, t);
    var e1 := [Connect(0, []), Unlock, Begin(on), Begin(off)];
    var e2 := [Start(1), SendTo(0), Unlock, Start(0), SendTo(0), Unlock];
    var e3 := [Deliver(0), Deliver(0)];
    RunSplit(INITIAL, e1, e2 + e3);
    OverlapBegun(t);
    RunSplit(Both(t), e2, e3);
    OverlapSent(t);
    OverlapDelivered(t);
  }

  // ---- The tables as they are kept -----------------------------------------

  /** The topic map of a SUB socket. */
  class SubSocket {
    var topics: set<Bytes>

    constructor ()
      ensures topics == INITIAL.topics
    {
      topics := {};
    }

    /** The first half of a subscribe or unsubscribe call; the frame is what the second half sends. */
    method SetOption(call: Call) returns (frame: Bytes)
      modifies this
      ensures topics == Applied(old(topics), call)
      ensures forall t :: Heard(t, [frame]) == Applied(t, call)
    {
      if call.subscribe {
        topics := topics + {call.topic};
        frame := [1] + call.topic;
      } else {
        frame := [0] + call.topic;
        topics := topics - {call.topic};
      }
      forall t ensures Heard(t, [frame]) == Applied(t, call) { HeardFrame(t, call); }
    }
  }

  /** A topic is wanted when some subscription is a prefix of it; the empty one is. */
  predicate Matches(topics: set<Bytes>, topic: Bytes) {
    exists k :: k in topics && k <= topic
  }

  /** The topic map a publisher keeps for one connection. */
  class PubConn {
    var topics: set<Bytes>

    constructor ()
      ensures topics == {}
    {
      topics := {};
    }

    method Subscribe(msg: Frames)
      requires IsTopic(msg)
      modifies this
      ensures topics == Heard(old(topics), msg)
    {
      var v := msg[0];
      var k := v[1..];
      if v[0] == 0 {
        topics := topics - {k};
      } else if v[0] == 1 {
        topics := topics + {k};
      }
    }

    /** The listener's treatment of one received message. */
    method Listen(msg: Frames) returns (forwarded: bool)
      modifies this
      ensures topics == Heard(old(topics), msg)
      ensures forwarded <==> !IsTopic(msg)
    {
      forwarded := !IsTopic(msg);
      if !forwarded { Subscribe(msg); }
    }

    method Subscribed(topic: Bytes) returns (r: bool)
      ensures r <==> Matches(topics, topic)
    {
      var left := topics;
      while left != {}
        invariant left <= topics
        invariant forall k :: k in topics && k !in left ==> !(k <= topic)
        decreases |left|
      {
        var k :| k in left;
        if k == EMPTY || k <= topic { return true; }
        left := left - {k};
      }
      return false;
    }
  }
}

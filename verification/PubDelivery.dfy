/**
 * Delivery from a PUB socket to one connection: a bounded channel whose capacity
 * is the high-water mark when the connection was made, a publisher that drops
 * when the channel is full, and a goroutine that takes messages in order and
 * sends those whose first frame is subscribed at that moment.
 */
module PubDelivery {
  import opened Bytes
  import opened Sequences
  import opened Subscriptions

  /** A message the goroutine decided about, and the topics it decided by. */
  datatype Verdict = Verdict(index: nat, topics: set<Bytes>)

  /** A message that was not queued, and how many were waiting then. */
  datatype Loss = Loss(index: nat, backlog: nat)

  /** Messages are named by their place in `published`. */
  datatype Delivery = Delivery(
    published: seq<Frames>, cap: nat, queue: seq<nat>, held: Option<nat>, topics: set<Bytes>,
    sent: seq<Verdict>, filtered: seq<Verdict>, dropped: seq<Loss>, panicked: bool)

  /** `parked` says that the goroutine is waiting on the channel. */
  datatype Happening =
    | Publish(msg: Frames, parked: bool)
    | Take
    | Decide
    | Hear(msg: Frames)

  function Connected(hwm: nat): (d: Delivery) {
    Delivery([], hwm, [], None, {}, [], [], [], false)
  }

  /** A send that does not block: into the buffer, to a waiting receiver, or dropped. */
  function Offer(d: Delivery, msg: Frames, parked: bool): (r: Delivery) {
    var n := |d.published|;
    var d' := d.(published := d.published + [msg]);
    if |d.queue| < d.cap then d'.(queue := d.queue + [n])
    else if parked && d.held.None? && d.queue == [] then d'.(held := Some(n))
    else d'.(dropped := d.dropped + [Loss(n, |d.queue|)])
  }

  /** The goroutine indexes the first frame, so a message without frames panics. */
  function Judge(d: Delivery, i: nat): (r: Delivery) {
    if i >= |d.published| then d
    else if d.published[i] == [] then d.(panicked := true)
    else if Matches(d.topics, d.published[i][0])
    then d.(held := None, sent := d.sent + [Verdict(i, d.topics)])
    else d.(held := None, filtered := d.filtered + [Verdict(i, d.topics)])
  }

  function Next(d: Delivery, e: Happening): (r: Delivery) {
    if d.panicked then d else
    match e
    case Publish(msg, parked) => Offer(d, msg, parked)
    case Take =>
      if d.held.None? && d.queue != [] then d.(held := Some(d.queue[0]), queue := d.queue[1..]) else d
    case Decide => if d.held.Some? then Judge(d, d.held.value) else d
    case Hear(msg) => d.(topics := Heard(d.topics, msg))
  }

  function History(d: Delivery, events: seq<Happening>): (r: Delivery)
    decreases |events|
  {
    if events == [] then d else History(Next(d, events[0]), events[1..])
  }

  // ---- Accounting -----------------------------------------------------------

  function Judged(vs: seq<Verdict>): (r: seq<nat>)
    ensures |r| == |vs|
  {
    seq(|vs|, (i: nat) requires i < |vs| => vs[i].index)
  }

  function Lost(ls: seq<Loss>): (r: seq<nat>)
    ensures |r| == |ls|
  {
    seq(|ls|, (i: nat) requires i < |ls| => ls[i].index)
  }

  function Held(d: Delivery): (r: seq<nat>) { if d.held.Some? then [d.held.value] else [] }

  /** Taken but undecided, then queued: what is still on its way. */
  function Waiting(d: Delivery): (r: seq<nat>) { Held(d) + d.queue }

  ghost predicate Ordered(s: seq<nat>, bound: nat) {
    Increasing(s) && Below(s, bound)
  }

  function Count(s: seq<nat>, i: nat): (r: nat) {
    if s == [] then 0 else Count(s[1..], i) + if s[0] == i then 1 else 0
  }

  /** How often message `i` shows up as sent, filtered, dropped, held or queued. */
  function Occurrences(d: Delivery, i: nat): (r: nat) {
    Count(Judged(d.sent), i) + Count(Judged(d.filtered), i) + Count(Lost(d.dropped), i) + Count(Waiting(d), i)
  }

  /** Everything published is in exactly one of the five places. */
  ghost predicate Accounted(d: Delivery) {
    forall i: nat :: Occurrences(d, i) == if i < |d.published| then 1 else 0
  }

  ghost predicate InOrder(d: Delivery) {
    && Ordered(Judged(d.sent) + Waiting(d), |d.published|)
    && Ordered(Judged(d.filtered) + Waiting(d), |d.published|)
    && Ordered(Lost(d.dropped), |d.published|)
  }

  /** The first frame of message `i` was subscribed. */
  ghost predicate Wanted(published: seq<Frames>, v: Verdict) {
    v.index < |published| && published[v.index] != [] && Matches(v.topics, published[v.index][0])
  }

  ghost predicate Unwanted(published: seq<Frames>, v: Verdict) {
    v.index < |published| && published[v.index] != [] && !Matches(v.topics, published[v.index][0])
  }

  ghost predicate Justified(d: Delivery) {
    && (forall v :: v in d.sent ==> Wanted(d.published, v))
    && (forall v :: v in d.filtered ==> Unwanted(d.published, v))
    && (forall l :: l in d.dropped ==> l.backlog == d.cap)
    && (d.panicked ==> d.held.Some? && d.held.value < |d.published| && d.published[d.held.value] == [])
  }

  ghost predicate DeliveryInv(d: Delivery) {
    |d.queue| <= d.cap && Accounted(d) && InOrder(d) && Justified(d)
  }

  lemma {:induction false} CountConcat(s: seq<nat>, t: seq<nat>, i: nat)
    ensures Count(s + t, i) == Count(s, i) + Count(t, i)
  {
    if s == [] {
      assert s + t == t;
    } else {
      assert (s + t)[1..] == s[1..] + t;
      CountConcat(s[1..], t, i);
    }
  }

  lemma CountOne(x: nat, i: nat)
    ensures Count([x], i) == if x == i then 1 else 0
  {
    assert Count([x][1..], i) == 0;
  }

  lemma JudgedNext(vs: seq<Verdict>, v: Verdict)
    ensures Judged(vs + [v]) == Judged(vs) + [v.index]
  {}

  lemma LostNext(ls: seq<Loss>, l: Loss)
    ensures Lost(ls + [l]) == Lost(ls) + [l.index]
  {}

  lemma OrderedNext(s: seq<nat>, n: nat)
    requires Ordered(s, n)
    ensures Ordered(s + [n], n + 1) && Ordered(s, n + 1)
  {}

  /** The order kept by `a + b` is kept when only part of `a` stays in front of `b`. */
  lemma OrderedMiddle(a: seq<nat>, x: nat, b: seq<nat>, n: nat)
    requires Ordered(a + ([x] + b), n)
    ensures Ordered(a + b, n)
  {
    var s, r := a + ([x] + b), a + b;
    forall i | 0 <= i < |r| ensures r[i] == s[if i < |a| then i else i + 1] {}
  }

  lemma OfferAccounted(d: Delivery, msg: Frames, parked: bool)
    requires Accounted(d)
    ensures Accounted(Offer(d, msg, parked))
  {
    var n, r := |d.published|, Offer(d, msg, parked);
    forall i: nat ensures Occurrences(r, i) == if i < n + 1 then 1 else 0 {
      assert Occurrences(d, i) == if i < n then 1 else 0;
      CountOne(n, i);
      if r.dropped == d.dropped {
        assert Waiting(r) == Waiting(d) + [n];
        CountConcat(Waiting(d), [n], i);
      } else {
        assert Waiting(r) == Waiting(d);
        LostNext(d.dropped, Loss(n, |d.queue|));
        CountConcat(Lost(d.dropped), [n], i);
      }
    }
  }

  lemma OfferJustified(d: Delivery, msg: Frames, parked: bool)
    requires |d.queue| <= d.cap && Justified(d)
    ensures Justified(Offer(d, msg, parked))
  {
    var r := Offer(d, msg, parked);
    forall v | v in r.sent ensures Wanted(r.published, v) { assert Wanted(d.published, v); }
    forall v | v in r.filtered ensures Unwanted(r.published, v) { assert Unwanted(d.published, v); }
  }

  lemma OfferOrder(d: Delivery, msg: Frames, parked: bool)
    requires DeliveryInv(d)
    ensures InOrder(Offer(d, msg, parked))
  {
    var n, r := |d.published|, Offer(d, msg, parked);
    OrderedNext(Judged(d.sent) + Waiting(d), n);
    OrderedNext(Judged(d.filtered) + Waiting(d), n);
    OrderedNext(Lost(d.dropped), n);
    LostNext(d.dropped, Loss(n, |d.queue|));
    if r.dropped == d.dropped {
      assert Waiting(r) == Waiting(d) + [n];
      assert Judged(d.sent) + Waiting(r) == Judged(d.sent) + Waiting(d) + [n];
      assert Judged(d.filtered) + Waiting(r) == Judged(d.filtered) + Waiting(d) + [n];
    } else {
      assert Waiting(r) == Waiting(d);
    }
  }

  lemma OfferInv(d: Delivery, msg: Frames, parked: bool)
    requires DeliveryInv(d)
    ensures DeliveryInv(Offer(d, msg, parked))
  {
    OfferOrder(d, msg, parked);
    OfferAccounted(d, msg, parked);
    OfferJustified(d, msg, parked);
  }

  lemma TakeInv(d: Delivery)
    requires DeliveryInv(d)
    ensures DeliveryInv(Next(d, Take))
  {
    var r := Next(d, Take);
    assert Waiting(r) == Waiting(d);
    forall i: nat ensures Occurrences(r, i) == Occurrences(d, i) {}
  }

  lemma JudgeMoves(d: Delivery, i: nat, k: nat)
    requires d.held == Some(i) && Judge(d, i).held.None?
    ensures Occurrences(Judge(d, i), k) == Occurrences(d, k)
  {
    var r, v := Judge(d, i), Verdict(i, d.topics);
    assert Waiting(d) == [i] + d.queue && Waiting(r) == d.queue;
    CountConcat([i], d.queue, k);
    if r.filtered == d.filtered {
      JudgedNext(d.sent, v);
      CountConcat(Judged(d.sent), [i], k);
    } else {
      JudgedNext(d.filtered, v);
      CountConcat(Judged(d.filtered), [i], k);
    }
  }

  lemma JudgeAccounted(d: Delivery, i: nat)
    requires Accounted(d) && d.held == Some(i)
    ensures Accounted(Judge(d, i))
  {
    var r := Judge(d, i);
    forall k: nat ensures Occurrences(r, k) == if k < |d.published| then 1 else 0 {
      assert Occurrences(d, k) == if k < |d.published| then 1 else 0;
      if r.held.None? { JudgeMoves(d, i, k); }
    }
  }

  lemma JudgeOrder(d: Delivery, i: nat)
    requires InOrder(d) && d.held == Some(i)
    ensures InOrder(Judge(d, i))
  {
    var n, r, v := |d.published|, Judge(d, i), Verdict(i, d.topics);
    if r.held.None? {
      assert Waiting(r) == d.queue;
      JudgedNext(d.sent, v);
      JudgedNext(d.filtered, v);
      OrderedMiddle(Judged(d.sent), i, d.queue, n);
      OrderedMiddle(Judged(d.filtered), i, d.queue, n);
      assert Judged(d.sent) + [i] + d.queue == Judged(d.sent) + Waiting(d);
      assert Judged(d.filtered) + [i] + d.queue == Judged(d.filtered) + Waiting(d);
    }
  }

  lemma JudgeJustified(d: Delivery, i: nat)
    requires Justified(d) && d.held == Some(i) && !d.panicked
    ensures Justified(Judge(d, i))
  {
    var r, v := Judge(d, i), Verdict(i, d.topics);
    assert forall x :: x in r.sent ==> x in d.sent || (x == v && Wanted(d.published, v));
    assert forall x :: x in r.filtered ==> x in d.filtered || (x == v && Unwanted(d.published, v));
  }

  lemma JudgeInv(d: Delivery, i: nat)
    requires DeliveryInv(d) && d.held == Some(i) && !d.panicked
    ensures DeliveryInv(Judge(d, i))
  {
    JudgeAccounted(d, i);
    JudgeOrder(d, i);
    assert (Judged(d.sent) + Waiting(d))[|d.sent|] == i;
    JudgeJustified(d, i);
  }

  lemma HearInv(d: Delivery, msg: Frames)
    requires DeliveryInv(d)
    ensures DeliveryInv(Next(d, Hear(msg)))
  {
    var r := Next(d, Hear(msg));
    assert Waiting(r) == Waiting(d);
    forall i: nat ensures Occurrences(r, i) == Occurrences(d, i) {}
  }

  lemma NextInv(d: Delivery, e: Happening)
    requires DeliveryInv(d)
    ensures DeliveryInv(Next(d, e)) && Next(d, e).cap == d.cap
  {
    if !d.panicked {
      match e
      case Publish(msg, parked) => OfferInv(d, msg, parked);
      case Take => TakeInv(d);
      case Decide => if d.held.Some? { JudgeInv(d, d.held.value); }
      case Hear(msg) => HearInv(d, msg);
    }
  }

  lemma {:induction false} HistoryInv(d: Delivery, events: seq<Happening>)
    requires DeliveryInv(d)
    ensures DeliveryInv(History(d, events)) && History(d, events).cap == d.cap
    decreases |events|
  {
    if events != [] {
      NextInv(d, events[0]);
      HistoryInv(Next(d, events[0]), events[1..]);
    }
  }

  // ---- The delivery theorem -------------------------------------------------

  lemma ConnectedInv(hwm: nat)
    ensures DeliveryInv(Connected(hwm))
  {
    var d := Connected(hwm);
    assert Judged(d.sent) == [] && Judged(d.filtered) == [] && Lost(d.dropped) == [] && Waiting(d) == [];
  }

  /**
   * Over every history of a connection: each published message is in exactly one
   * place; what was sent, followed by what waits, is in publish order; each sent
   * message had a subscribed prefix when it was taken and each filtered one had
   * none; the backlog stays within the mark captured at connect, and a message is
   * lost only when the backlog is at that mark.
   */
  lemma EveryMessageOnce(hwm: nat, events: seq<Happening>, i: nat)
    requires i < |History(Connected(hwm), events).published|
    ensures var d := History(Connected(hwm), events);
            && Occurrences(d, i) == 1
            && Ordered(Judged(d.sent) + Waiting(d), |d.published|)
            && |d.queue| <= hwm
            && (forall v :: v in d.sent ==> Wanted(d.published, v))
            && (forall v :: v in d.filtered ==> Unwanted(d.published, v))
            && (forall l :: l in d.dropped ==> l.backlog == hwm)
  {
    ConnectedInv(hwm);
    HistoryInv(Connected(hwm), events);
    var d := History(Connected(hwm), events);
  }

  // ---- Messages without frames ------------------------------------------------

  predicate IsFrameless(d: Delivery, i: nat) { i < |d.published| && d.published[i] == [] }

  /** Some message on its way has no frames. */
  ghost predicate Frameless(d: Delivery) {
    exists i :: i in Waiting(d) && IsFrameless(d, i)
  }

  /** Nothing more is published. */
  ghost predicate Draining(events: seq<Happening>) {
    forall e :: e in events ==> !e.Publish?
  }

  lemma HistoryCons(d: Delivery, e: Happening, rest: seq<Happening>)
    ensures History(d, [e] + rest) == History(Next(d, e), rest)
  {
    assert ([e] + rest)[1..] == rest;
  }

  lemma {:induction false} HistoryPanicked(d: Delivery, events: seq<Happening>)
    requires d.panicked
    ensures History(d, events) == d
    decreases |events|
  {
    if events != [] { HistoryPanicked(d, events[1..]); }
  }

  lemma StillWaiting(d: Delivery, i: nat)
    requires DeliveryInv(d) && !d.panicked && i in Waiting(d) && IsFrameless(d, i)
    requires !Next(d, if d.held.Some? then Decide else Take).panicked
    ensures var r := Next(d, if d.held.Some? then Decide else Take);
            && i in Waiting(r) && IsFrameless(r, i)
            && (if d.held.Some? then |Waiting(r)| < |Waiting(d)| else |Waiting(r)| == |Waiting(d)| && |r.queue| < |d.queue|)
  {
    if d.held.Some? {
      assert Waiting(d) == [d.held.value] + d.queue;
      assert d.held.value in Waiting(d);
      assert (Judged(d.sent) + Waiting(d))[|d.sent|] == d.held.value;
      assert Waiting(Judge(d, d.held.value)) == d.queue;
    } else {
      assert Waiting(d) == d.queue;
      assert Waiting(Next(d, Take)) == d.queue;
    }
  }

  /** A message without frames that is on its way can be reached. */
  lemma {:induction false} PanicReached(d: Delivery) returns (events: seq<Happening>)
    requires DeliveryInv(d) && !d.panicked && Frameless(d)
    ensures Draining(events) && History(d, events).panicked
    decreases |Waiting(d)|, |d.queue|
  {
    var e := if d.held.Some? then Decide else Take;
    var r := Next(d, e);
    NextInv(d, e);
    if r.panicked {
      events := [e];
      HistoryCons(d, e, []);
      assert [e] + [] == [e];
    } else {
      var i :| i in Waiting(d) && IsFrameless(d, i);
      StillWaiting(d, i);
      var rest := PanicReached(r);
      events := [e] + rest;
      HistoryCons(d, e, rest);
    }
  }

  /** Without one, the goroutine goes on. */
  lemma {:induction false} NoPanic(d: Delivery, events: seq<Happening>)
    requires !d.panicked && !Frameless(d) && Draining(events)
    ensures !History(d, events).panicked
    decreases |events|
  {
    if events != [] {
      var e := events[0];
      assert e in events;
      var r := Next(d, e);
      assert d.held.Some? ==> d.held.value in Waiting(d);
      assert forall i :: i in Waiting(r) ==> i in Waiting(d);
      assert r.published == d.published;
      assert forall i :: IsFrameless(r, i) ==> IsFrameless(d, i);
      NoPanic(r, events[1..]);
    }
  }

  /** The goroutine can still panic. */
  ghost predicate CanPanic(d: Delivery) {
    exists events :: Draining(events) && History(d, events).panicked
  }

  /**
   * From every state that keeps the account: without further publishing the goroutine
   * can panic if and only if a message on its way has no frames.
   */
  lemma PanicExactly(d: Delivery)
    requires DeliveryInv(d) && !d.panicked
    ensures CanPanic(d) <==> Frameless(d)
  {
    if Frameless(d) {
      var events := PanicReached(d);
    } else {
      forall events | Draining(events) ensures !History(d, events).panicked { NoPanic(d, events); }
    }
  }

  /** A connection to which only messages with frames are published never panics. */
  lemma {:induction false} FramesNeverPanic(d: Delivery, events: seq<Happening>)
    requires !d.panicked && forall m :: m in d.published ==> m != []
    requires forall e :: e in events && e.Publish? ==> e.msg != []
    ensures !History(d, events).panicked
    decreases |events|
  {
    if events != [] {
      assert events[0] in events;
      var r := Next(d, events[0]);
      assert d.held.Some? && d.held.value < |d.published| ==> d.published[d.held.value] in d.published;
      assert forall m :: m in r.published ==> m in d.published || events[0] == Publish(m, events[0].parked);
      FramesNeverPanic(r, events[1..]);
    }
  }

  /** Sending a message without frames: published, taken, and the goroutine panics. */
  lemma FramelessPanics(hwm: nat)
    requires hwm > 0
    ensures History(Connected(hwm), [Publish([], false), Take, Decide]).panicked
  {
    var d := Connected(hwm);
    var d1 := Next(d, Publish([], false));
    assert d1.queue == [0] && d1.published == [[]];
    var d2 := Next(d1, Take);
    HistoryCons(d, Publish([], false), [Take, Decide]);
    HistoryCons(d1, Take, [Decide]);
    HistoryCons(d2, Decide, []);
    assert [Publish([], false)] + [Take, Decide] == [Publish([], false), Take, Decide];
    assert [Take] + [Decide] == [Take, Decide] && [Decide] + [] == [Decide];
  }

  lemma HeldIsGood(d: Delivery)
    requires DeliveryInv(d) && !Frameless(d) && d.held.Some?
    ensures Waiting(d) == [d.held.value] + d.queue
    ensures d.held.value < |d.published| && d.published[d.held.value] != []
  {
    assert d.held.value in Waiting(d);
    assert (Judged(d.sent) + Waiting(d))[|d.sent|] == d.held.value;
    assert !IsFrameless(d, d.held.value);
  }

  lemma TurnTaken(d: Delivery)
    requires DeliveryInv(d) && !d.panicked && !Frameless(d) && Waiting(d) != []
    ensures var r := Next(d, if d.held.Some? then Decide else Take);
            && !r.panicked && !Frameless(r) && r.published == d.published && r.dropped == d.dropped
            && (if d.held.Some? then |Waiting(r)| < |Waiting(d)|
                else |Waiting(r)| == |Waiting(d)| && |r.queue| < |d.queue|)
  {
    if d.held.Some? {
      HeldIsGood(d);
      assert Waiting(Judge(d, d.held.value)) == d.queue;
      assert forall i :: i in d.queue ==> i in Waiting(d);
    } else {
      assert Waiting(d) == d.queue;
      assert Waiting(Next(d, Take)) == d.queue;
    }
  }

  /** Taking and deciding until nothing waits: every message that was not dropped is sent or filtered. */
  lemma {:induction false} EverythingIsDecided(d: Delivery) returns (events: seq<Happening>)
    requires DeliveryInv(d) && !d.panicked && !Frameless(d)
    ensures forall e :: e in events ==> e.Take? || e.Decide?
    ensures var r := History(d, events);
            && !r.panicked && Waiting(r) == [] && r.published == d.published && r.dropped == d.dropped
            && DeliveryInv(r)
    decreases |Waiting(d)|, |d.queue|
  {
    if Waiting(d) == [] {
      events := [];
    } else {
      var e := if d.held.Some? then Decide else Take;
      var r := Next(d, e);
      NextInv(d, e);
      TurnTaken(d);
      var rest := EverythingIsDecided(r);
      events := [e] + rest;
      HistoryCons(d, e, rest);
    }
  }

  // ---- From the subscriber's calls to what it gets ----------------------------------------

  /** A subscription matches the topics it is a prefix of, byte by byte; the empty one matches all. */
  lemma MatchesExactly(topics: set<Bytes>, topic: Bytes)
    ensures Matches(topics, topic) <==>
      exists k :: k in topics && |k| <= |topic| && forall i :: 0 <= i < |k| ==> topic[i] == k[i]
    ensures [] in topics ==> Matches(topics, topic)
  {
    if k :| k in topics && |k| <= |topic| && forall i :: 0 <= i < |k| ==> topic[i] == k[i] { assert k <= topic; }
    if [] in topics { assert [] <= topic; }
  }

  /** The messages heard from the connection, in order. */
  function HeardIn(events: seq<Happening>): (r: seq<Frames>) {
    if events == [] then []
    else (if events[0].Hear? then [events[0].msg] else []) + HeardIn(events[1..])
  }

  /** What hearing messages one after the other makes of the topics. */
  function Hearing(topics: set<Bytes>, msgs: seq<Frames>): (r: set<Bytes>)
    decreases |msgs|
  {
    if msgs == [] then topics else Hearing(Heard(topics, msgs[0]), msgs[1..])
  }

  lemma {:induction false} TopicsAreHeard(d: Delivery, events: seq<Happening>)
    requires !History(d, events).panicked
    ensures History(d, events).topics == Hearing(d.topics, HeardIn(events))
    decreases |events|
  {
    if events != [] {
      var next := Next(d, events[0]);
      if next.panicked { HistoryPanicked(next, events[1..]); }
      TopicsAreHeard(next, events[1..]);
      var later := HeardIn(events[1..]);
      if events[0].Hear? {
        assert HeardIn(events) == [events[0].msg] + later && HeardIn(events)[1..] == later;
      } else {
        assert HeardIn(events) == [] + later == later;
        assert next.topics == d.topics;
      }
    }
  }

  /** Frames, each a message of its own. */
  function Singles(frames: seq<Bytes>): (r: seq<Frames>)
    ensures |r| == |frames| && forall i :: 0 <= i < |frames| ==> r[i] == [frames[i]]
  {
    seq(|frames|, (i: nat) requires i < |frames| => [frames[i]])
  }

  lemma {:induction false} HearingFrames(topics: set<Bytes>, frames: seq<Bytes>)
    ensures Hearing(topics, Singles(frames)) == Drained(topics, frames)
    decreases |frames|
  {
    if frames != [] {
      assert Singles(frames)[1..] == Singles(frames[1..]);
      HearingFrames(Heard(topics, [frames[0]]), frames[1..]);
    }
  }

  /**
   * The whole way: after any disciplined calls that put `frames` on the wire of a new
   * connection, with no call half done, a publisher that has heard those frames sends a message
   * it takes if and only if the subscriber's own topics want it, whatever else happened there.
   */
  lemma SubscriberGetsWhatItAsked(
    calls: seq<Event>, c: nat, frames: seq<Bytes>, hwm: nat, events: seq<Happening>, i: nat)
    requires Disciplined(INITIAL, calls)
    requires var s := Run(INITIAL, calls);
             s.lock.Free? && s.halves == [] && c in s.links && s.links[c] == Link(frames, {})
    requires HeardIn(events) == Singles(frames)
    requires var d := History(Connected(hwm), events);
             !d.panicked && d.held == Some(i) && i < |d.published| && d.published[i] != []
    ensures var s, d := Run(INITIAL, calls), History(Connected(hwm), events);
            var r := Next(d, Decide);
            if Matches(s.topics, d.published[i][0])
            then r.sent == d.sent + [Verdict(i, s.topics)] && r.filtered == d.filtered
            else r.sent == d.sent && r.filtered == d.filtered + [Verdict(i, s.topics)]
  {
    var s, d := Run(INITIAL, calls), History(Connected(hwm), events);
    Replication(calls, c);
    assert Owed(s, c) == [] && Seen(s, c) == Drained({}, frames) == s.topics;
    TopicsAreHeard(Connected(hwm), events);
    HearingFrames({}, frames);
    assert d.topics == s.topics;
  }

  /**
   * From subscriber to delivery: once a disciplined subscriber's calls have reached
   * connection `c`, the goroutine sends exactly what the subscriber's own topics want.
   */
  lemma SentAsSubscribed(calls: seq<Event>, c: nat, d: Delivery, i: nat)
    requires Disciplined(INITIAL, calls) && c in Run(INITIAL, calls).links
    requires var s := Run(INITIAL, calls);
             s.lock.Free? && s.halves == [] && s.links[c].inflight == [] && d.topics == s.links[c].topics
    requires d.held == Some(i) && !d.panicked && i < |d.published| && d.published[i] != []
    ensures var s, r := Run(INITIAL, calls), Next(d, Decide);
            && (Matches(s.topics, d.published[i][0]) ==>
                  r.sent == d.sent + [Verdict(i, s.topics)] && r.filtered == d.filtered)
            && (!Matches(s.topics, d.published[i][0]) ==>
                  r.sent == d.sent && r.filtered == d.filtered + [Verdict(i, s.topics)])
  {
    DrainedAgree(calls, c);
  }

  // ---- The writer as it is kept ---------------------------------------------

  /** A buffered channel of capacity `cap`. */
  datatype Channel = Channel(cap: nat, buffer: seq<Frames>)

  /** The buffer a non-blocking send leaves when no receiver is waiting. */
  function Pushed(ch: Channel, msg: Frames): (r: Channel) {
    if |ch.buffer| < ch.cap then ch.(buffer := ch.buffer + [msg]) else ch
  }

  /** The channels in `offered` were pushed to, the others are as before. */
  ghost predicate OfferedTo(before: map<nat, Channel>, after: map<nat, Channel>, offered: set<nat>, msg: Frames) {
    && after.Keys == before.Keys
    && forall c :: c in before ==> after[c] == if c in offered then Pushed(before[c], msg) else before[c]
  }

  ghost predicate WithinCap(channels: map<nat, Channel>) {
    forall c :: c in channels ==> |channels[c].buffer| <= channels[c].cap
  }

  lemma OfferedWithin(before: map<nat, Channel>, after: map<nat, Channel>, offered: set<nat>, msg: Frames)
    requires WithinCap(before) && OfferedTo(before, after, offered, msg)
    ensures WithinCap(after)
  {}

  lemma OfferOne(before: map<nat, Channel>, after: map<nat, Channel>, offered: set<nat>, msg: Frames, c: nat)
    requires OfferedTo(before, after, offered, msg) && c in before && c !in offered
    ensures OfferedTo(before, after[c := Pushed(after[c], msg)], offered + {c}, msg)
  {}

  /** The publisher's channels, one per connection. */
  class PubWriter {
    var hwm: nat
    var subscribers: map<nat, Channel>

    ghost predicate Valid()
      reads this
    {
      WithinCap(subscribers)
    }

    constructor ()
      ensures Valid() && hwm == 1000 && subscribers == map[]
    {
      hwm, subscribers := 1000, map[];
    }

    method AddConn(c: nat)
      requires Valid()
      modifies this`subscribers
      ensures Valid() && subscribers == old(subscribers)[c := Channel(hwm, [])]
    {
      subscribers := subscribers[c := Channel(hwm, [])];
    }

    method RmConn(c: nat)
      requires Valid()
      modifies this`subscribers
      ensures Valid() && subscribers == old(subscribers) - {c}
    {
      if c in subscribers { subscribers := subscribers - {c}; }
    }

    /**
     * Offers the message to one connection after the other, in whatever order the map is
     * walked; a cancelled context may be noticed at turn `cancelled` and ends the walk.
     */
    method Write(msg: Frames, cancelled: nat) returns (ok: bool, ghost offered: set<nat>)
      requires Valid()
      modifies this`subscribers
      ensures Valid() && OfferedTo(old(subscribers), subscribers, offered, msg)
      ensures offered <= subscribers.Keys && |offered| <= cancelled
      ensures if ok then offered == subscribers.Keys else |offered| == cancelled && offered != subscribers.Keys
    {
      ghost var keys := subscribers.Keys;
      var left, turn := subscribers.Keys, 0;
      offered := {};
      while left != {}
        invariant offered <= keys && left == keys - offered
        invariant turn == |offered| <= cancelled
        invariant OfferedTo(old(subscribers), subscribers, offered, msg)
        decreases |left|
      {
        if turn == cancelled {
          OfferedWithin(old(subscribers), subscribers, offered, msg);
          return false, offered;
        }
        var c :| c in left;
        OfferOne(old(subscribers), subscribers, offered, msg, c);
        subscribers := subscribers[c := Pushed(subscribers[c], msg)];
        left, turn := left - {c}, turn + 1;
        offered := offered + {c};
      }
      OfferedWithin(old(subscribers), subscribers, offered, msg);
      return true, offered;
    }
  }

  function Bodies(published: seq<Frames>, queue: seq<nat>): (r: seq<Frames>)
    ensures |r| == |queue|
  {
    seq(|queue|, (k: nat) requires k < |queue| =>
      if queue[k] < |published| then published[queue[k]] else [])
  }

  lemma BodiesStay(published: seq<Frames>, msg: Frames, queue: seq<nat>)
    requires forall k :: 0 <= k < |queue| ==> queue[k] < |published|
    ensures Bodies(published + [msg], queue) == Bodies(published, queue)
    ensures Bodies(published + [msg], queue + [|published|]) == Bodies(published, queue) + [msg]
  {}

  /** The writer's channel and the delivery model drop and queue alike. */
  lemma OfferIsPush(d: Delivery, msg: Frames, parked: bool)
    requires DeliveryInv(d)
    ensures var r := Offer(d, msg, parked);
            Channel(r.cap, Bodies(r.published, r.queue))
            == Pushed(Channel(d.cap, Bodies(d.published, d.queue)), msg)
  {
    forall k | 0 <= k < |d.queue| ensures d.queue[k] < |d.published| {
      assert d.queue[k] == (Judged(d.sent) + Waiting(d))[|d.sent| + |Held(d)| + k];
    }
    BodiesStay(d.published, msg, d.queue);
  }
}

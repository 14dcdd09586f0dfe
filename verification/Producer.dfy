/**
 * A DAFKA producer: records get the next offset of their topic and join its
 * pending batch; batches move to a bounded queue when flushed and from there to
 * publishing.  The produce loop, the flush timer, the flush command and the
 * publish loop interleave between the points where the lock is released.
 */
module DafkaProducer {
  import opened Bytes
  import opened Sequences

  const QUEUE: nat := 1000

  /** What a caller asks to have produced. */
  datatype Payload = Payload(key: Bytes, value: Bytes, headers: map<Bytes, Bytes>, timestamp: int)

  datatype Record = Record(topic: Bytes, offset: nat, payload: Payload)

  datatype Batch = Batch(topic: Bytes, records: seq<Record>, baseOffset: nat, batchSize: nat, created: int)

  datatype TopicState = TopicState(nextOffset: nat, pending: Option<Batch>)

  /** Where the produce loop stands: between requests, about to look at the batch, or about to flush it. */
  datatype Phase = Idle | Checking(topic: Bytes) | Flushing(topic: Bytes) | Panicked

  /** `accepted` lists every record in the order it got its offset. */
  datatype State = State(
    topics: map<Bytes, TopicState>, queue: seq<Batch>, published: seq<Record>, phase: Phase, accepted: seq<Record>)

  datatype Event =
    | Append(topic: Bytes, payload: Payload, now: int)
    | Check(limit: nat)
    | FlushFull
    | Flush(topic: Bytes)
    | Publish

  const INITIAL := State(map[], [], [], Idle, [])

  function Topic(s: State, t: Bytes): (r: TopicState) {
    if t in s.topics then s.topics[t] else TopicState(0, None)
  }

  /** The batch with one more record, or a fresh batch that starts with it. */
  function Grown(pending: Option<Batch>, r: Record, now: int): (b: Batch) {
    match pending
    case None => Batch(r.topic, [r], r.offset, 1, now)
    case Some(b) => b.(records := b.records + [r], batchSize := b.batchSize + 1)
  }

  function Appended(s: State, t: Bytes, payload: Payload, now: int): (r: State) {
    var ts := Topic(s, t);
    var rec := Record(t, ts.nextOffset, payload);
    s.(topics := s.topics[t := TopicState(ts.nextOffset + 1, Some(Grown(ts.pending, rec, now)))],
       phase := Checking(t), accepted := s.accepted + [rec])
  }

  /** Moves the pending batch to the queue; a full queue leaves it pending. */
  function Flushed(s: State, t: Bytes): (r: State) {
    var ts := Topic(s, t);
    if ts.pending.None? || ts.pending.value.records == [] || |s.queue| >= QUEUE then s
    else s.(topics := s.topics[t := ts.(pending := None)], queue := s.queue + [ts.pending.value])
  }

  /** The look at the batch after the lock was released: it must still be there. */
  function Checked(s: State, t: Bytes, limit: nat): (r: State) {
    var p := Topic(s, t).pending;
    s.(phase := if p.None? then Panicked else if p.value.batchSize >= limit then Flushing(t) else Idle)
  }

  function Step(s: State, e: Event): (r: State) {
    if s.phase.Panicked? then s else
    match e
    case Append(t, payload, now) => if s.phase.Idle? then Appended(s, t, payload, now) else s
    case Check(limit) => if s.phase.Checking? then Checked(s, s.phase.topic, limit) else s
    case FlushFull => if s.phase.Flushing? then Flushed(s, s.phase.topic).(phase := Idle) else s
    case Flush(t) => Flushed(s, t)
    case Publish =>
      if s.queue == [] then s
      else s.(queue := s.queue[1..], published := s.published + s.queue[0].records)
  }

  function Run(s: State, events: seq<Event>): (r: State)
    decreases |events|
  {
    if events == [] then s else Run(Step(s, events[0]), events[1..])
  }

  // ---- The trail of a topic -----------------------------------------------------

  function Of(rs: seq<Record>, t: Bytes): (r: seq<Record>) {
    if rs == [] then [] else (if rs[0].topic == t then [rs[0]] else []) + Of(rs[1..], t)
  }

  function Queued(q: seq<Batch>): (r: seq<Record>) {
    if q == [] then [] else q[0].records + Queued(q[1..])
  }

  function PendingOf(s: State, t: Bytes): (r: seq<Record>) {
    if Topic(s, t).pending.Some? then Topic(s, t).pending.value.records else []
  }

  /** A topic's records: those handed to publishing, those in queued batches, those pending. */
  function Trail(s: State, t: Bytes): (r: seq<Record>) {
    Of(s.published, t) + Of(Queued(s.queue), t) + PendingOf(s, t)
  }

  ghost predicate AllOf(rs: seq<Record>, t: Bytes) {
    forall i :: 0 <= i < |rs| ==> rs[i].topic == t
  }

  ghost predicate BatchOk(b: Batch) {
    && b.records != [] && b.batchSize == |b.records| && b.baseOffset == b.records[0].offset
    && AllOf(b.records, b.topic)
    && forall i :: 0 <= i < |b.records| ==> b.records[i].offset == b.baseOffset + i
  }

  ghost predicate Numbered(rs: seq<Record>) {
    forall i :: 0 <= i < |rs| ==> rs[i].offset == i
  }

  /** Nothing of the topic is lost, repeated or moved, and its offsets count up from zero. */
  ghost predicate TopicInv(s: State, t: Bytes) {
    && Trail(s, t) == Of(s.accepted, t)
    && Numbered(Trail(s, t))
    && |Trail(s, t)| == Topic(s, t).nextOffset
    && (Topic(s, t).pending.Some? ==> BatchOk(Topic(s, t).pending.value) && Topic(s, t).pending.value.topic == t)
  }

  ghost predicate Inv(s: State) {
    && |s.queue| <= QUEUE
    && (forall i :: 0 <= i < |s.queue| ==> BatchOk(s.queue[i]))
    && forall t :: TopicInv(s, t)
  }

  // ---- One step keeps the invariant ------------------------------------------------

  lemma {:induction false} OfConcat(a: seq<Record>, b: seq<Record>, t: Bytes)
    ensures Of(a + b, t) == Of(a, t) + Of(b, t)
  {
    if a == [] {
      assert a + b == b;
    } else {
      assert (a + b)[0] == a[0] && (a + b)[1..] == a[1..] + b;
      OfConcat(a[1..], b, t);
      var head := if a[0].topic == t then [a[0]] else [];
      Assoc(head, Of(a[1..], t), Of(b, t));
      assert Of(a + b, t) == head + Of(a[1..] + b, t);
    }
  }

  lemma {:induction false} OfAll(rs: seq<Record>, u: Bytes, t: Bytes)
    requires AllOf(rs, u)
    ensures Of(rs, t) == if u == t then rs else []
  {
    if rs != [] {
      assert rs[0].topic == u;
      OfAll(rs[1..], u, t);
      assert rs == [rs[0]] + rs[1..];
    }
  }

  lemma {:induction false} QueuedSnoc(q: seq<Batch>, b: Batch)
    ensures Queued(q + [b]) == Queued(q) + b.records
  {
    if q == [] {
      assert (q + [b])[1..] == [];
      assert b.records + [] == b.records;
    } else {
      assert (q + [b])[1..] == q[1..] + [b];
      QueuedSnoc(q[1..], b);
      assert q[0].records + (Queued(q[1..]) + b.records) == q[0].records + Queued(q[1..]) + b.records;
    }
  }

  lemma OfOne(r: Record, t: Bytes)
    ensures Of([r], t) == if r.topic == t then [r] else []
  {
    assert Of([r][1..], t) == [];
  }

  lemma GrownOk(pending: Option<Batch>, r: Record, now: int, before: seq<Record>)
    requires pending.Some? ==> BatchOk(pending.value) && pending.value.topic == r.topic
    requires var rs := if pending.Some? then pending.value.records else [];
             Numbered(before + rs) && r.offset == |before + rs|
    ensures BatchOk(Grown(pending, r, now)) && Grown(pending, r, now).topic == r.topic
    ensures Grown(pending, r, now).records == (if pending.Some? then pending.value.records else []) + [r]
  {
    if pending.Some? {
      var rs := pending.value.records;
      assert (before + rs)[|before| + |rs| - 1] == rs[|rs| - 1];
    }
  }

  lemma NumberedNext(rs: seq<Record>, rec: Record)
    requires Numbered(rs) && rec.offset == |rs|
    ensures Numbered(rs + [rec])
  {}

  lemma AppendTrail(s: State, t: Bytes, payload: Payload, now: int)
    requires TopicInv(s, t)
    ensures var r, rec := Appended(s, t, payload, now), Record(t, Topic(s, t).nextOffset, payload);
            && Trail(r, t) == Trail(s, t) + [rec]
            && Topic(r, t).pending.Some? && BatchOk(Topic(r, t).pending.value)
            && Topic(r, t).pending.value.topic == t
  {
    var before := Of(s.published, t) + Of(Queued(s.queue), t);
    var rec := Record(t, Topic(s, t).nextOffset, payload);
    GrownOk(Topic(s, t).pending, rec, now, before);
    Assoc(before, PendingOf(s, t), [rec]);
  }

  lemma AppendTopic(s: State, t: Bytes, payload: Payload, now: int, u: Bytes)
    requires TopicInv(s, u)
    ensures TopicInv(Appended(s, t, payload, now), u)
  {
    var r := Appended(s, t, payload, now);
    var rec := Record(t, Topic(s, t).nextOffset, payload);
    OfConcat(s.accepted, [rec], u);
    OfOne(rec, u);
    if u == t {
      AppendTrail(s, t, payload, now);
      NumberedNext(Trail(s, t), rec);
    } else {
      assert Trail(r, u) == Trail(s, u);
    }
  }

  lemma Moved(a: seq<Record>, b: seq<Record>, c: seq<Record>)
    ensures a + (b + c) + [] == a + b + c
    ensures a + (b + []) == a + b
  {}

  lemma FlushTrail(s: State, t: Bytes, u: Bytes)
    requires TopicInv(s, t) && Flushed(s, t) != s
    ensures Trail(Flushed(s, t), u) == Trail(s, u)
  {
    var b := Topic(s, t).pending.value;
    QueuedSnoc(s.queue, b);
    OfConcat(Queued(s.queue), b.records, u);
    OfAll(b.records, t, u);
    Moved(Of(s.published, u), Of(Queued(s.queue), u), if u == t then b.records else []);
  }

  lemma FlushTopic(s: State, t: Bytes, u: Bytes)
    requires TopicInv(s, u) && TopicInv(s, t)
    ensures TopicInv(Flushed(s, t), u)
  {
    var r := Flushed(s, t);
    if r != s { FlushTrail(s, t, u); }
  }

  lemma PublishTrail(s: State, u: Bytes)
    requires s.queue != [] && !s.phase.Panicked?
    ensures Trail(Step(s, Publish), u) == Trail(s, u)
  {
    var b, q := s.queue[0], s.queue[1..];
    OfConcat(s.published, b.records, u);
    OfConcat(b.records, Queued(q), u);
    Assoc(Of(s.published, u), Of(b.records, u), Of(Queued(q), u));
  }

  lemma PublishTopic(s: State, u: Bytes)
    requires TopicInv(s, u)
    ensures TopicInv(Step(s, Publish), u)
  {
    if s.queue != [] && !s.phase.Panicked? { PublishTrail(s, u); }
  }

  lemma SameTopic(s: State, phase: Phase, u: Bytes)
    requires TopicInv(s, u)
    ensures TopicInv(s.(phase := phase), u)
  {
    assert Trail(s.(phase := phase), u) == Trail(s, u);
  }

  lemma PhaseInv(s: State, phase: Phase)
    requires Inv(s)
    ensures Inv(s.(phase := phase))
  {
    forall u ensures TopicInv(s.(phase := phase), u) { SameTopic(s, phase, u); }
  }

  lemma FlushedInv(s: State, t: Bytes)
    requires Inv(s)
    ensures Inv(Flushed(s, t))
  {
    assert TopicInv(s, t);
    forall u ensures TopicInv(Flushed(s, t), u) {
      assert TopicInv(s, u);
      FlushTopic(s, t, u);
    }
  }

  lemma StepInv(s: State, e: Event)
    requires Inv(s)
    ensures Inv(Step(s, e))
  {
    if !s.phase.Panicked? {
      match e
      case Append(t, payload, now) =>
        forall u ensures TopicInv(Appended(s, t, payload, now), u) {
          assert TopicInv(s, u);
          AppendTopic(s, t, payload, now, u);
        }
      case Check(limit) => PhaseInv(s, Step(s, e).phase);
      case FlushFull =>
        if s.phase.Flushing? {
          FlushedInv(s, s.phase.topic);
          PhaseInv(Flushed(s, s.phase.topic), Idle);
        }
      case Flush(t) => FlushedInv(s, t);
      case Publish =>
        forall u ensures TopicInv(Step(s, Publish), u) {
          assert TopicInv(s, u);
          PublishTopic(s, u);
        }
    }
  }

  lemma {:induction false} RunInv(s: State, events: seq<Event>)
    requires Inv(s)
    ensures Inv(Run(s, events))
    decreases |events|
  {
    if events != [] {
      StepInv(s, events[0]);
      RunInv(Step(s, events[0]), events[1..]);
    }
  }

  /**
   * Over every interleaving, through full queues and panics: per topic, what was
   * handed to publishing, then the queued batches, then the pending batch, are the
   * accepted records in order, numbered 0, 1, ... up to the next offset; every
   * batch's base offset and size match its records.
   */
  lemma OffsetsHaveNoGap(events: seq<Event>, t: Bytes)
    ensures var s := Run(INITIAL, events);
            && Trail(s, t) == Of(s.accepted, t)
            && Numbered(Trail(s, t)) && |Trail(s, t)| == Topic(s, t).nextOffset
            && (Topic(s, t).pending.Some? ==> BatchOk(Topic(s, t).pending.value))
            && (forall i :: 0 <= i < |s.queue| ==> BatchOk(s.queue[i]))
            && |s.queue| <= QUEUE
  {
    forall u ensures TopicInv(INITIAL, u) { assert Trail(INITIAL, u) == []; }
    RunInv(INITIAL, events);
    assert TopicInv(Run(INITIAL, events), t);
  }

  /**
   * Over every run the i-th record of a topic that is handed to publishing is the i-th that
   * was accepted, with offset i: none is handed out twice, early or in another place.
   */
  lemma PublishedInOrder(events: seq<Event>, t: Bytes)
    ensures var s := Run(INITIAL, events);
            && Numbered(Of(s.published, t))
            && Of(s.published, t) <= Of(s.accepted, t)
  {
    OffsetsHaveNoGap(events, t);
    var s := Run(INITIAL, events);
    var front := Of(s.published, t);
    Assoc(front, Of(Queued(s.queue), t), PendingOf(s, t));
    assert Trail(s, t)[..|front|] == front;
    forall i | 0 <= i < |front| ensures front[i].offset == i { assert Trail(s, t)[i] == front[i]; }
  }

  // ---- Everything gets out --------------------------------------------------------------

  function Publishes(n: nat): (r: seq<Event>)
    ensures |r| == n && forall i :: 0 <= i < n ==> r[i] == Publish
  {
    seq(n, (i: nat) => Publish)
  }

  lemma RunCons(s: State, e: Event, rest: seq<Event>)
    ensures Run(s, [e] + rest) == Run(Step(s, e), rest)
  {
    assert ([e] + rest)[1..] == rest;
  }

  lemma {:induction false} RunSplit(s: State, a: seq<Event>, b: seq<Event>)
    ensures Run(s, a + b) == Run(Run(s, a), b)
    decreases |a|
  {
    if a == [] {
      assert a + b == b;
    } else {
      assert (a + b)[1..] == a[1..] + b;
      RunSplit(Step(s, a[0]), a[1..], b);
    }
  }

  /** As many publishes as there are batches empty the queue and hand over all records in it, in order. */
  lemma {:induction false} PublishDrains(s: State)
    requires !s.phase.Panicked?
    ensures Run(s, Publishes(|s.queue|)) == s.(queue := [], published := s.published + Queued(s.queue))
    decreases |s.queue|
  {
    if s.queue == [] {
      assert s.published + [] == s.published;
    } else {
      var next := Step(s, Publish);
      assert Publishes(|s.queue|) == [Publish] + Publishes(|next.queue|);
      RunCons(s, Publish, Publishes(|next.queue|));
      PublishDrains(next);
      Assoc(s.published, s.queue[0].records, Queued(next.queue));
    }
  }

  /** Publishing what is queued, one flush and one more publish. */
  function Outgoing(s: State, t: Bytes): (r: seq<Event>) {
    Publishes(|s.queue|) + ([Flush(t)] + [Publish])
  }

  lemma {:induction false} RunTwo(s: State, a: Event, b: Event)
    ensures Run(s, [a] + [b]) == Step(Step(s, a), b)
  {
    RunCons(s, a, [b]);
    RunCons(Step(s, a), b, []);
    assert [b] + [] == [b];
  }

  lemma {:induction false} TrailOut(s: State, t: Bytes)
    ensures Of(s.published + Queued(s.queue), t) + PendingOf(s, t) == Trail(s, t)
  {
    OfConcat(s.published, Queued(s.queue), t);
  }

  lemma LastBatch(s: State, t: Bytes)
    requires s.queue == [] && !s.phase.Panicked?
    requires Topic(s, t).pending.Some? ==> BatchOk(Topic(s, t).pending.value) && Topic(s, t).pending.value.topic == t
    ensures var r := Step(Step(s, Flush(t)), Publish);
            && Of(r.published, t) == Of(s.published, t) + PendingOf(s, t)
            && Topic(r, t).pending.None? && r.queue == [] && r.accepted == s.accepted
  {
    OfConcat(s.published, PendingOf(s, t), t);
    OfAll(PendingOf(s, t), t, t);
    assert s.published + [] == s.published;
  }

  /** From every state it takes no more than that until all accepted records of a topic have been handed out. */
  lemma {:induction false} EverythingGetsOut(s: State, t: Bytes)
    requires Inv(s) && !s.phase.Panicked?
    ensures var r := Run(s, Outgoing(s, t));
            && Of(r.published, t) == Of(s.accepted, t) && r.accepted == s.accepted
            && Topic(r, t).pending.None? && r.queue == []
  {
    var mid := s.(queue := [], published := s.published + Queued(s.queue));
    PublishDrains(s);
    RunSplit(s, Publishes(|s.queue|), [Flush(t)] + [Publish]);
    RunTwo(mid, Flush(t), Publish);
    assert TopicInv(s, t);
    LastBatch(mid, t);
    TrailOut(s, t);
  }

  // ---- The look at the batch after the lock was released ---------------------------

  /** Only the other goroutines move while the produce loop is on its way to the check. */
  predicate Others(events: seq<Event>) {
    forall i :: 0 <= i < |events| ==> events[i].Flush? || events[i].Publish?
  }

  /** Some flush of `t` found room in the queue. */
  predicate Emptied(s: State, events: seq<Event>, t: Bytes)
    decreases |events|
  {
    events != [] &&
    ((events[0] == Flush(t) && |s.queue| < QUEUE) || Emptied(Step(s, events[0]), events[1..], t))
  }

  lemma {:induction false} PendingUntilFlushed(s: State, events: seq<Event>, t: Bytes)
    requires Others(events) && s.phase == Checking(t)
    requires Topic(s, t).pending.Some? ==> Topic(s, t).pending.value.records != []
    ensures Run(s, events).phase == Checking(t)
    ensures Topic(Run(s, events), t).pending.Some? <==> Topic(s, t).pending.Some? && !Emptied(s, events, t)
    decreases |events|
  {
    if events != [] {
      var s' := Step(s, events[0]);
      assert events[0].Flush? || events[0].Publish?;
      assert forall i :: 0 <= i < |events[1..]| ==> events[1..][i] == events[i + 1];
      PendingUntilFlushed(s', events[1..], t);
    }
  }

  /**
   * After a record was appended, the check that follows dereferences a missing batch
   * if and only if, in between, a flush of that topic found room in the queue.
   */
  lemma CheckPanicsExactly(s: State, t: Bytes, payload: Payload, now: int, between: seq<Event>, limit: nat)
    requires Inv(s) && s.phase.Idle? && Others(between)
    ensures var a := Step(s, Append(t, payload, now));
            Step(Run(a, between), Check(limit)).phase.Panicked? <==> Emptied(a, between, t)
  {
    assert TopicInv(s, t);
    AppendTopic(s, t, payload, now, t);
    PendingUntilFlushed(Step(s, Append(t, payload, now)), between, t);
  }

  /** A produce request that finds room in the queue leaves the batch pending if and only if it is not full. */
  lemma FullBatchIsFlushed(s: State, t: Bytes, payload: Payload, now: int, limit: nat)
    requires Inv(s) && s.phase.Idle? && |s.queue| < QUEUE
    ensures var a := Step(s, Append(t, payload, now));
            var r := Step(Step(a, Check(limit)), FlushFull);
            && r.phase.Idle? && PendingOf(a, t) == PendingOf(s, t) + [Record(t, Topic(s, t).nextOffset, payload)]
            && (Topic(r, t).pending.Some? <==> |PendingOf(s, t)| + 1 < limit)
            && (Topic(r, t).pending.Some? ==> PendingOf(r, t) == PendingOf(a, t) && r.queue == s.queue)
            && (Topic(r, t).pending.None? ==> |r.queue| == |s.queue| + 1 && r.queue[..|s.queue|] == s.queue
                                              && r.queue[|s.queue|].records == PendingOf(a, t))
  {
    assert TopicInv(s, t);
    AppendTrail(s, t, payload, now);
    var a := Step(s, Append(t, payload, now));
    var b := Topic(a, t).pending.value;
    assert a == Appended(s, t, payload, now) && a.phase == Checking(t) && a.queue == s.queue;
    var c := Step(a, Check(limit));
    if b.batchSize >= limit {
      assert c == a.(phase := Flushing(t)) && Topic(c, t).pending == Some(b);
      assert Flushed(c, t).queue == s.queue + [b] && Topic(Flushed(c, t), t).pending.None?;
    } else {
      assert c == a.(phase := Idle) && Topic(c, t).pending == Some(b);
    }
  }

  /** A batch is as old as its first record, and the queue takes it as long as fewer than 1000 wait. */
  lemma BatchAges(s: State, t: Bytes, payload: Payload, now: int)
    requires Inv(s) && s.phase.Idle?
    ensures var b := Topic(Step(s, Append(t, payload, now)), t).pending;
            b.Some? && b.value.created == if Topic(s, t).pending.Some? then Topic(s, t).pending.value.created else now
    ensures Topic(Step(s, Flush(t)), t).pending.Some? <==> Topic(s, t).pending.Some? && |s.queue| >= 1000
    ensures Topic(Step(s, Flush(t)), t).pending.Some? ==> Step(s, Flush(t)) == s
  {
    assert TopicInv(s, t);
  }

  /** The smallest such run: append, timer flush, check. */
  lemma FlushBeforeCheckPanics(t: Bytes, payload: Payload, now: int, limit: nat)
    ensures Step(Run(Step(INITIAL, Append(t, payload, now)), [Flush(t)]), Check(limit)).phase.Panicked?
  {
    forall u ensures TopicInv(INITIAL, u) { assert Trail(INITIAL, u) == []; }
    CheckPanicsExactly(INITIAL, t, payload, now, [Flush(t)], limit);
  }

  // ---- The producer as it is kept ----------------------------------------------------

  lemma {:induction false} RunSnoc(s: State, events: seq<Event>, e: Event)
    ensures Run(s, events + [e]) == Step(Run(s, events), e)
    decreases |events|
  {
    if events == [] {
      assert (events + [e])[1..] == [];
    } else {
      assert (events + [e])[1..] == events[1..] + [e];
      RunSnoc(Step(s, events[0]), events[1..], e);
    }
  }

  /** The records whose turn succeeds, in order. */
  function Successes(rs: seq<Record>, outcomes: seq<bool>): (r: seq<Record>)
    requires |rs| == |outcomes|
  {
    if rs == [] then []
    else
      var n := |rs| - 1;
      Successes(rs[..n], outcomes[..n]) + if outcomes[n] then [rs[n]] else []
  }

  lemma SuccessesNext(rs: seq<Record>, outcomes: seq<bool>, i: nat)
    requires |rs| == |outcomes| && i < |rs|
    ensures Successes(rs[..i + 1], outcomes[..i + 1])
         == Successes(rs[..i], outcomes[..i]) + if outcomes[i] then [rs[i]] else []
  {
    assert rs[..i + 1][..i] == rs[..i] && outcomes[..i + 1][..i] == outcomes[..i];
  }

  /** The topic has a pending batch and, unless all are meant, it is older than the linger time. */
  predicate ToFlush(topics: map<Bytes, TopicState>, t: Bytes, all: bool, now: int, linger: int) {
    t in topics && topics[t].pending.Some? && (all || now - topics[t].pending.value.created > linger)
  }

  class Producer {
    const limit: nat
    var topics: map<Bytes, TopicState>
    var queue: seq<Batch>
    var published: seq<Record>
    var phase: Phase
    ghost var accepted: seq<Record>

    ghost function Abs(): (s: State)
      reads this
    {
      State(topics, queue, published, phase, accepted)
    }

    constructor (limit: nat)
      ensures Abs() == INITIAL && this.limit == limit
    {
      this.limit := limit;
      topics, queue, published, phase := map[], [], [], Idle;
      accepted := [];
    }

    /** A request up to the point where the lock is released: the offset goes back to the caller. */
    method Accept(t: Bytes, key: Bytes, value: Bytes, headers: map<Bytes, Bytes>, timestamp: int, now: int)
      returns (offset: nat)
      requires phase.Idle?
      modifies this
      ensures Abs() == Step(old(Abs()), Append(t, Payload(key, value, headers, timestamp), now))
      ensures accepted == old(accepted) + [Record(t, offset, Payload(key, value, headers, timestamp))]
    {
      ghost var e := Append(t, Payload(key, value, headers, timestamp), now);
      if t !in topics { topics := topics[t := TopicState(0, None)]; }
      var ts := topics[t];
      var record := Record(t, ts.nextOffset, Payload(key, value, headers, timestamp));
      ts := ts.(nextOffset := ts.nextOffset + 1);
      if ts.pending.None? { ts := ts.(pending := Some(Batch(t, [], record.offset, 0, now))); }
      var batch := ts.pending.value;
      batch := batch.(records := batch.records + [record], batchSize := batch.batchSize + 1);
      topics := topics[t := ts.(pending := Some(batch))];
      offset := record.offset;
      phase := Checking(t);
      accepted := accepted + [record];
      assert [] + [record] == [record];
      assert topics == Step(old(Abs()), e).topics;
    }

    /** The second look at the batch; `shouldFlush` sends the loop on to flush it. */
    method CheckBatch() returns (shouldFlush: bool)
      requires phase.Checking?
      modifies this`phase
      ensures Abs() == Step(old(Abs()), Check(limit))
      ensures shouldFlush <==> phase.Flushing?
    {
      var t := phase.topic;
      var pending := if t in topics then topics[t].pending else None;
      shouldFlush := false;
      if pending.None? {
        phase := Panicked;
      } else {
        shouldFlush := pending.value.batchSize >= limit;
        phase := if shouldFlush then Flushing(t) else Idle;
      }
    }

    method FlushTopicBatchLocked(t: Bytes)
      requires t in topics
      modifies this`topics, this`queue
      ensures Abs() == Flushed(old(Abs()), t) && topics.Keys == old(topics.Keys)
      ensures forall u :: u in topics && u != t ==> topics[u] == old(topics)[u]
    {
      var ts := topics[t];
      if ts.pending.None? || ts.pending.value.records == [] { return; }
      if |queue| < QUEUE {
        queue := queue + [ts.pending.value];
        topics := topics[t := ts.(pending := None)];
      }
    }

    method FlushTopicBatch()
      requires phase.Flushing?
      modifies this`topics, this`queue, this`phase
      ensures Abs() == Step(old(Abs()), FlushFull)
    {
      if phase.topic in topics { FlushTopicBatchLocked(phase.topic); }
      phase := Idle;
    }

    /** Flushes the topics that have a batch, all of them or those that lingered, in the order the map is walked. */
    method FlushBatches(all: bool, now: int, linger: int) returns (ghost walked: seq<Event>)
      requires !phase.Panicked?
      modifies this`topics, this`queue
      ensures Abs() == Run(old(Abs()), walked)
      ensures forall e :: e in walked <==> e.Flush? && ToFlush(old(topics), e.topic, all, now, linger)
    {
      walked := [];
      var left := topics.Keys;
      while left != {}
        invariant left <= topics.Keys == old(topics.Keys)
        invariant forall t :: t in left ==> topics[t] == old(topics)[t]
        invariant Abs() == Run(old(Abs()), walked) && phase == old(phase)
        invariant forall e :: e in walked <==> e.Flush? && e.topic !in left && ToFlush(old(topics), e.topic, all, now, linger)
        decreases |left|
      {
        var t :| t in left;
        if topics[t].pending.Some? && (all || now - topics[t].pending.value.created > linger) {
          FlushTopicBatchLocked(t);
          RunSnoc(old(Abs()), walked, Flush(t));
          walked := walked + [Flush(t)];
        }
        left := left - {t};
      }
    }

    /** The timer's flush: exactly the batches that have been pending for longer than the linger time. */
    method FlushPendingBatches(now: int, linger: int) returns (ghost walked: seq<Event>)
      requires !phase.Panicked?
      modifies this`topics, this`queue
      ensures Abs() == Run(old(Abs()), walked)
      ensures forall e :: e in walked <==> e.Flush? && ToFlush(old(topics), e.topic, false, now, linger)
    {
      walked := FlushBatches(false, now, linger);
    }

    /** The flush command: every batch there is. */
    method FlushAllBatches() returns (ghost walked: seq<Event>)
      requires !phase.Panicked?
      modifies this`topics, this`queue
      ensures Abs() == Run(old(Abs()), walked)
      ensures forall e :: e in walked <==> e.Flush? && ToFlush(old(topics), e.topic, true, 0, 0)
    {
      walked := FlushBatches(true, 0, 0);
    }

    /**
     * Takes a batch from the queue and hands over its records one by one; a record whose
     * turn fails is skipped and counted.
     */
    method PublishBatch(outcomes: seq<bool>) returns (sent: seq<Record>, errors: nat)
      requires !phase.Panicked? && queue != [] && |outcomes| == |queue[0].records|
      modifies this`queue, this`published
      ensures Abs() == Step(old(Abs()), Publish)
      ensures sent == Successes(old(queue)[0].records, outcomes) && |sent| + errors == |outcomes|
    {
      var batch := queue[0];
      queue, sent, errors := queue[1..], [], 0;
      var i := 0;
      while i < |batch.records|
        invariant i <= |batch.records| && queue == old(queue)[1..]
        invariant published == old(published) + batch.records[..i]
        invariant sent == Successes(batch.records[..i], outcomes[..i]) && |sent| + errors == i
      {
        SuccessesNext(batch.records, outcomes, i);
        published := published + [batch.records[i]];
        if outcomes[i] { sent := sent + [batch.records[i]]; } else { errors := errors + 1; }
        i := i + 1;
      }
      assert batch.records[..i] == batch.records && outcomes[..i] == outcomes;
    }
  }
}

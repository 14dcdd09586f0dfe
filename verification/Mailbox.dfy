/**
 * Malamute mailboxes: messages stored per address with a global id, received
 * oldest first among those not yet expired, trimmed at the backlog limit and
 * cleaned up when expired.
 */
module MalamuteMailbox {
  import opened Bytes
  import opened Sequences

  const MAX_BACKLOG: nat := 10000
  const MAX_NAME: nat := 255
  const MAX_SIZE: nat := 16 * 1024 * 1024
  const WRAP: nat := 0x1_0000_0000_0000_0000

  /** What a sender hands over; `timeout` counts from `timestamp`. */
  datatype Delivery = Delivery(
    address: Bytes, subject: Bytes, sender: Bytes, tracker: Bytes, attributes: map<Bytes, Bytes>, body: Bytes,
    timeout: int, timestamp: int)

  datatype Message = Message(
    id: nat, subject: Bytes, sender: Bytes, tracker: Bytes, attributes: map<Bytes, Bytes>, body: Bytes,
    timestamp: int, timeout: int)

  datatype Box = Box(messages: seq<Message>, owner: Bytes, bytesStored: nat, lastActivity: int)

  datatype Config = Config(maxMailboxes: nat, retention: int)

  /**
   * `received` lists the messages handed out per address, `accepted` the deliveries that
   * were stored (id 1 first), and `clock` is when the last receive happened.
   */
  datatype State = State(
    boxes: map<Bytes, Box>, messageId: nat, received: map<Bytes, seq<Message>>, accepted: seq<Delivery>, clock: int)

  datatype Event =
    | Deliver(delivery: Delivery, now: int)
    | Receive(client: Bytes, address: Bytes, now: int)
    | Create(address: Bytes, owner: Bytes, now: int)
    | RemoveClient(client: Bytes)
    | Cleanup(now: int)

  function Initial(clock: int): (s: State) { State(map[], 0, map[], [], clock) }

  /** Unsigned 64-bit subtraction. */
  function Minus(a: nat, b: nat): (r: nat) { (a - b) % WRAP }

  function Plus(a: nat, b: nat): (r: nat) { (a + b) % WRAP }

  // ---- Storing ---------------------------------------------------------------------

  /** What the sender checks before a delivery is queued. */
  predicate Sendable(address: Bytes, body: Bytes) {
    0 < |address| <= MAX_NAME && |body| <= MAX_SIZE
  }

  function Stored(b: Box, m: Message, now: int): (r: Box) {
    var all := b.messages + [m];
    var bytes := Plus(b.bytesStored, |m.body|);
    if |all| > MAX_BACKLOG
    then Box(all[1..], b.owner, Minus(bytes, |all[0].body|), now)
    else Box(all, b.owner, bytes, now)
  }

  /** The message a delivery becomes: it expires its timeout after it was sent. */
  function MessageOf(id: nat, d: Delivery): (m: Message) {
    Message(id, d.subject, d.sender, d.tracker, d.attributes, d.body, d.timestamp, d.timestamp + d.timeout)
  }

  function DeliverStep(c: Config, s: State, d: Delivery, now: int): (r: State) {
    var a := d.address;
    if !Sendable(a, d.body) || (a !in s.boxes && |s.boxes| >= c.maxMailboxes) then s
    else
      var box := if a in s.boxes then s.boxes[a] else Box([], EMPTY, 0, now);
      s.(boxes := s.boxes[a := Stored(box, MessageOf(s.messageId + 1, d), now)],
         messageId := s.messageId + 1, accepted := s.accepted + [d])
  }

  // ---- Receiving -------------------------------------------------------------------

  /** The place of the first message that has not expired, or the end. */
  function FirstLive(ms: seq<Message>, now: int): (i: nat)
    ensures i <= |ms| && (i < |ms| ==> ms[i].timeout > now)
    ensures forall k :: 0 <= k < i ==> ms[k].timeout <= now
  {
    if ms == [] || ms[0].timeout > now then 0
    else
      var i := FirstLive(ms[1..], now);
      assert forall k :: 0 < k < i + 1 ==> ms[k] == ms[1..][k - 1];
      i + 1
  }

  predicate MayReceive(s: State, client: Bytes, a: Bytes) {
    a in s.boxes && (s.boxes[a].owner == EMPTY || s.boxes[a].owner == client)
  }

  function Owned(b: Box, client: Bytes): (r: Box) { if b.owner == EMPTY then b.(owner := client) else b }

  function TakenFrom(b: Box, i: nat, now: int): (r: Box)
    requires i < |b.messages|
  {
    Box(b.messages[..i] + b.messages[i + 1..], b.owner, Minus(b.bytesStored, |b.messages[i].body|), now)
  }

  /** The messages received at an address, and their ids. */
  function Handed(s: State, a: Bytes): (r: seq<Message>) { if a in s.received then s.received[a] else [] }

  function Ids(ms: seq<Message>): (r: seq<nat>)
    ensures |r| == |ms| && forall i :: 0 <= i < |ms| ==> r[i] == ms[i].id
  {
    seq(|ms|, (i: nat) requires i < |ms| => ms[i].id)
  }

  function Got(s: State, a: Bytes): (r: seq<nat>) { Ids(Handed(s, a)) }

  function ReceiveStep(s: State, client: Bytes, a: Bytes, now: int): (r: State) {
    if !MayReceive(s, client, a) then s.(clock := now)
    else
      var b := Owned(s.boxes[a], client);
      var i := FirstLive(b.messages, now);
      if i == |b.messages| then s.(boxes := s.boxes[a := b], clock := now)
      else s.(boxes := s.boxes[a := TakenFrom(b, i, now)],
              received := s.received[a := Handed(s, a) + [b.messages[i]]], clock := now)
  }

  // ---- Removing --------------------------------------------------------------------

  function CreateStep(c: Config, s: State, a: Bytes, owner: Bytes, now: int): (r: State) {
    if |s.boxes| >= c.maxMailboxes || a in s.boxes then s
    else s.(boxes := s.boxes[a := Box([], owner, 0, now)])
  }

  function RemoveClientStep(s: State, client: Bytes): (r: State) {
    s.(boxes := map a | a in s.boxes && s.boxes[a].owner != client :: s.boxes[a])
  }

  function Live(ms: seq<Message>, now: int): (r: seq<Message>) {
    if ms == [] then [] else (if ms[0].timeout > now then [ms[0]] else []) + Live(ms[1..], now)
  }

  /** The byte count after taking off the expired messages one by one. */
  function LiveBytes(bytes: nat, ms: seq<Message>, now: int): (r: nat)
    decreases |ms|
  {
    if ms == [] then bytes
    else LiveBytes(if ms[0].timeout > now then bytes else Minus(bytes, |ms[0].body|), ms[1..], now)
  }

  function Cleaned(b: Box, now: int): (r: Box) {
    b.(messages := Live(b.messages, now), bytesStored := LiveBytes(b.bytesStored, b.messages, now))
  }

  predicate Stale(c: Config, b: Box, now: int) { b.messages == [] && now - b.lastActivity > c.retention }

  function CleanupStep(c: Config, s: State, now: int): (r: State) {
    s.(boxes := map a | a in s.boxes && !Stale(c, Cleaned(s.boxes[a], now), now) :: Cleaned(s.boxes[a], now))
  }

  function Step(c: Config, s: State, e: Event): (r: State) {
    match e
    case Deliver(d, now) => DeliverStep(c, s, d, now)
    case Receive(client, a, now) => ReceiveStep(s, client, a, now)
    case Create(a, owner, now) => CreateStep(c, s, a, owner, now)
    case RemoveClient(client) => RemoveClientStep(s, client)
    case Cleanup(now) => CleanupStep(c, s, now)
  }

  function Run(c: Config, s: State, events: seq<Event>): (r: State)
    decreases |events|
  {
    if events == [] then s else Run(c, Step(c, s, events[0]), events[1..])
  }

  // ---- What every state keeps ------------------------------------------------------

  function Sum(ms: seq<Message>): (r: nat) {
    if ms == [] then 0 else |ms[0].body| + Sum(ms[1..])
  }

  ghost predicate IdsIncrease(ms: seq<Message>) {
    forall i, j :: 0 <= i < j < |ms| ==> ms[i].id < ms[j].id
  }

  ghost predicate Small(ms: seq<Message>) {
    forall m :: m in ms ==> |m.body| <= MAX_SIZE
  }

  /** A box within its limits: exact byte count, ids in order. */
  ghost predicate BoxOk(b: Box) {
    |b.messages| <= MAX_BACKLOG && Small(b.messages) && IdsIncrease(b.messages) && b.bytesStored == Sum(b.messages)
  }

  /** The message is what the delivery with its number handed over for address `a`. */
  ghost predicate At(s: State, m: Message, a: Bytes) {
    && 0 < m.id <= |s.accepted|
    && var d := s.accepted[m.id - 1];
    && d.address == a && m.subject == d.subject && m.sender == d.sender && m.tracker == d.tracker
    && m.attributes == d.attributes && m.body == d.body
    && m.timestamp == d.timestamp && m.timeout == d.timestamp + d.timeout
  }

  ghost predicate Addressed(s: State, ms: seq<Message>, a: Bytes) {
    forall m :: m in ms ==> At(s, m, a)
  }

  ghost predicate BoxesInv(c: Config, s: State) {
    && |s.boxes| <= c.maxMailboxes && |s.accepted| == s.messageId
    && forall a :: a in s.boxes ==> BoxOk(s.boxes[a]) && Addressed(s, s.boxes[a].messages, a)
  }

  /** Whatever is still stored behind a received id had expired by the last receive. */
  ghost predicate Passed(ms: seq<Message>, ids: seq<nat>, clock: int) {
    forall m :: m in ms && !Below(ids, m.id) ==> m.timeout <= clock
  }

  ghost predicate ReceiptsInv(s: State, a: Bytes) {
    && Increasing(Got(s, a))
    && Addressed(s, Handed(s, a), a)
    && (a in s.boxes ==> Passed(s.boxes[a].messages, Got(s, a), s.clock))
  }

  // ---- Byte counts -------------------------------------------------------------------

  lemma {:induction false} SumConcat(a: seq<Message>, b: seq<Message>)
    ensures Sum(a + b) == Sum(a) + Sum(b)
  {
    if a == [] {
      assert a + b == b;
    } else {
      assert (a + b)[1..] == a[1..] + b;
      SumConcat(a[1..], b);
    }
  }

  lemma SumOne(m: Message)
    ensures Sum([m]) == |m.body|
  {
    assert Sum([m][1..]) == 0;
  }

  lemma SumWithout(ms: seq<Message>, i: nat)
    requires i < |ms|
    ensures Sum(ms[..i] + ms[i + 1..]) == Sum(ms) - |ms[i].body|
  {
    assert ms == ms[..i] + ([ms[i]] + ms[i + 1..]);
    SumConcat(ms[..i], [ms[i]] + ms[i + 1..]);
    SumConcat([ms[i]], ms[i + 1..]);
    SumConcat(ms[..i], ms[i + 1..]);
    SumOne(ms[i]);
  }

  lemma {:induction false} SumBound(ms: seq<Message>)
    requires Small(ms)
    ensures Sum(ms) <= |ms| * MAX_SIZE
  {
    if ms != [] { SumBound(ms[1..]); }
  }

  lemma MinusExact(a: nat, b: nat)
    requires b <= a < WRAP
    ensures Minus(a, b) == a - b
  {}

  lemma PlusExact(a: nat, b: nat)
    requires a + b < WRAP
    ensures Plus(a, b) == a + b
  {}

  lemma StoredOk(b: Box, m: Message, now: int)
    requires BoxOk(b) && |m.body| <= MAX_SIZE
    requires forall i :: 0 <= i < |b.messages| ==> b.messages[i].id < m.id
    ensures BoxOk(Stored(b, m, now))
  {
    var all := b.messages + [m];
    SumConcat(b.messages, [m]);
    SumOne(m);
    SumBound(b.messages);
    PlusExact(b.bytesStored, |m.body|);
    if |all| > MAX_BACKLOG {
      assert Sum(all) == |all[0].body| + Sum(all[1..]);
      MinusExact(Sum(all), |all[0].body|);
    }
  }

  lemma WithoutOk(b: Box, i: nat, now: int)
    requires BoxOk(b) && i < |b.messages|
    ensures BoxOk(TakenFrom(b, i, now))
  {
    SumWithout(b.messages, i);
    SumBound(b.messages);
    MinusExact(b.bytesStored, |b.messages[i].body|);
  }

  /** The survivors keep their order and their byte count, without going below zero. */
  lemma {:induction false} LiveOk(ms: seq<Message>, now: int, bytes: nat, extra: nat)
    requires Small(ms) && bytes == Sum(ms) + extra < WRAP
    ensures LiveBytes(bytes, ms, now) == Sum(Live(ms, now)) + extra
    decreases |ms|
  {
    if ms != [] {
      var m, rest := ms[0], ms[1..];
      if m.timeout > now {
        LiveOk(rest, now, bytes, extra + |m.body|);
        assert Live(ms, now)[1..] == Live(rest, now);
      } else {
        MinusExact(bytes, |m.body|);
        LiveOk(rest, now, bytes - |m.body|, extra);
        assert Live(ms, now) == Live(rest, now);
      }
    }
  }

  /** Each survivor was there before, and survivors stay in order. */
  lemma {:induction false} LiveKeeps(ms: seq<Message>, now: int)
    ensures |Live(ms, now)| <= |ms|
    ensures forall m :: m in Live(ms, now) ==> m in ms
    ensures IdsIncrease(ms) ==> IdsIncrease(Live(ms, now))
  {
    if ms != [] {
      LiveKeeps(ms[1..], now);
      var l, rest := Live(ms, now), Live(ms[1..], now);
      assert forall i :: 0 <= i < |rest| ==> rest[i] in ms[1..] && rest[i] in rest;
      if ms[0].timeout > now {
        assert l == [ms[0]] + rest;
        if IdsIncrease(ms) {
          forall i | 0 <= i < |rest| ensures ms[0].id < rest[i].id {}
        }
      }
    }
  }

  /** A cleanup keeps exactly the messages that have not expired. */
  lemma {:induction false} LiveExact(ms: seq<Message>, now: int, m: Message)
    ensures m in Live(ms, now) <==> m in ms && m.timeout > now
  {
    if ms != [] {
      assert ms == [ms[0]] + ms[1..];
      LiveExact(ms[1..], now, m);
    }
  }

  lemma CleanedOk(b: Box, now: int)
    requires BoxOk(b)
    ensures BoxOk(Cleaned(b, now))
  {
    SumBound(b.messages);
    LiveOk(b.messages, now, b.bytesStored, 0);
    LiveKeeps(b.messages, now);
  }

  // ---- Limits and exact counts, in every state -----------------------------------------

  lemma {:induction false} SubsetSize<T>(a: set<T>, b: set<T>)
    requires a <= b
    ensures |a| <= |b|
    decreases |a|
  {
    if a != {} {
      var x :| x in a;
      SubsetSize(a - {x}, b - {x});
    }
  }

  lemma AddressedLater(s: State, r: State, ms: seq<Message>, a: Bytes)
    requires Addressed(s, ms, a) && s.accepted <= r.accepted
    ensures Addressed(r, ms, a)
  {
    forall m | m in ms ensures At(r, m, a) { assert At(s, m, a); }
  }

  lemma StoredAddressed(s: State, r: State, box: Box, m: Message, a: Bytes, now: int)
    requires Addressed(s, box.messages, a) && s.accepted <= r.accepted && At(r, m, a)
    ensures Addressed(r, Stored(box, m, now).messages, a)
  {
    AddressedLater(s, r, box.messages, a);
    forall x | x in Stored(box, m, now).messages ensures At(r, x, a) {
      assert x in box.messages || x == m;
    }
  }

  lemma DeliveredBox(s: State, r: State, box: Box, d: Delivery, now: int)
    requires BoxOk(box) && Addressed(s, box.messages, d.address) && |d.body| <= MAX_SIZE
    requires r.accepted == s.accepted + [d]
    ensures var after := Stored(box, MessageOf(|s.accepted| + 1, d), now);
            BoxOk(after) && Addressed(r, after.messages, d.address)
  {
    var m := MessageOf(|s.accepted| + 1, d);
    forall i | 0 <= i < |box.messages| ensures box.messages[i].id < m.id {
      assert At(s, box.messages[i], d.address);
    }
    StoredOk(box, m, now);
    StoredAddressed(s, r, box, m, d.address, now);
  }

  lemma DeliverBoxes(c: Config, s: State, d: Delivery, now: int)
    requires BoxesInv(c, s)
    ensures BoxesInv(c, DeliverStep(c, s, d, now))
  {
    var r, a := DeliverStep(c, s, d, now), d.address;
    if r != s {
      DeliveredBox(s, r, if a in s.boxes then s.boxes[a] else Box([], EMPTY, 0, now), d, now);
      forall b | b in r.boxes && b != a ensures Addressed(r, r.boxes[b].messages, b) {
        AddressedLater(s, r, s.boxes[b].messages, b);
      }
    }
  }

  lemma AddressedSub(s: State, r: State, ms: seq<Message>, kept: seq<Message>, a: Bytes)
    requires Addressed(s, ms, a) && s.accepted == r.accepted && forall m :: m in kept ==> m in ms
    ensures Addressed(r, kept, a)
  {
    forall m | m in kept ensures At(r, m, a) { assert At(s, m, a); }
  }

  lemma ReceiveKeys(s: State, client: Bytes, a: Bytes, now: int)
    ensures var r := ReceiveStep(s, client, a, now);
            r.boxes.Keys == s.boxes.Keys && r.accepted == s.accepted && r.messageId == s.messageId
  {}

  /** A receive touches no other mailbox; it makes the client the owner of a mailbox that has none. */
  lemma ReceiveElsewhere(c: Config, s: State, client: Bytes, a: Bytes, now: int, x: Bytes)
    ensures var r := Step(c, s, Receive(client, a, now));
            && (x in r.boxes <==> x in s.boxes)
            && (x in s.boxes && (x != a || !MayReceive(s, client, a)) ==> r.boxes[x] == s.boxes[x])
            && (x != a || !MayReceive(s, client, a) ==> Handed(r, x) == Handed(s, x))
            && (MayReceive(s, client, a) ==>
                  r.boxes[a].owner == if s.boxes[a].owner == [] then client else s.boxes[a].owner)
  {}

  lemma ReceivedBox(s: State, client: Bytes, a: Bytes, now: int)
    requires MayReceive(s, client, a) && BoxOk(s.boxes[a]) && Addressed(s, s.boxes[a].messages, a)
    ensures var r := ReceiveStep(s, client, a, now);
            a in r.boxes && BoxOk(r.boxes[a]) && Addressed(r, r.boxes[a].messages, a)
  {
    var r, b := ReceiveStep(s, client, a, now), Owned(s.boxes[a], client);
    var i := FirstLive(b.messages, now);
    if i < |b.messages| { WithoutOk(b, i, now); }
    AddressedSub(s, r, s.boxes[a].messages, r.boxes[a].messages, a);
  }

  lemma ReceiveBoxes(c: Config, s: State, client: Bytes, a: Bytes, now: int)
    requires BoxesInv(c, s)
    ensures BoxesInv(c, ReceiveStep(s, client, a, now))
  {
    var r := ReceiveStep(s, client, a, now);
    ReceiveKeys(s, client, a, now);
    forall x | x in r.boxes ensures BoxOk(r.boxes[x]) && Addressed(r, r.boxes[x].messages, x) {
      ReceiveElsewhere(c, s, client, a, now, x);
      if x == a && MayReceive(s, client, a) {
        ReceivedBox(s, client, a, now);
      } else {
        AddressedLater(s, r, s.boxes[x].messages, x);
      }
    }
  }

  lemma CleanupBoxes(c: Config, s: State, now: int)
    requires BoxesInv(c, s)
    ensures BoxesInv(c, CleanupStep(c, s, now))
  {
    var r := CleanupStep(c, s, now);
    SubsetSize(r.boxes.Keys, s.boxes.Keys);
    forall a | a in r.boxes ensures BoxOk(r.boxes[a]) && Addressed(r, r.boxes[a].messages, a) {
      CleanedOk(s.boxes[a], now);
      LiveKeeps(s.boxes[a].messages, now);
      AddressedSub(s, r, s.boxes[a].messages, r.boxes[a].messages, a);
    }
  }

  lemma RemoveClientBoxes(c: Config, s: State, client: Bytes)
    requires BoxesInv(c, s)
    ensures BoxesInv(c, RemoveClientStep(s, client))
  {
    var r := RemoveClientStep(s, client);
    SubsetSize(r.boxes.Keys, s.boxes.Keys);
    forall a | a in r.boxes ensures Addressed(r, r.boxes[a].messages, a) {
      AddressedLater(s, r, s.boxes[a].messages, a);
    }
  }

  lemma CreateBoxes(c: Config, s: State, a: Bytes, owner: Bytes, now: int)
    requires BoxesInv(c, s)
    ensures BoxesInv(c, CreateStep(c, s, a, owner, now))
  {
    var r := CreateStep(c, s, a, owner, now);
    forall b | b in r.boxes && b in s.boxes ensures Addressed(r, r.boxes[b].messages, b) {
      AddressedLater(s, r, s.boxes[b].messages, b);
    }
  }

  lemma StepBoxes(c: Config, s: State, e: Event)
    requires BoxesInv(c, s)
    ensures BoxesInv(c, Step(c, s, e))
  {
    match e
    case Deliver(d, now) => DeliverBoxes(c, s, d, now);
    case Receive(client, a, now) => ReceiveBoxes(c, s, client, a, now);
    case Create(a, owner, now) => CreateBoxes(c, s, a, owner, now);
    case RemoveClient(client) => RemoveClientBoxes(c, s, client);
    case Cleanup(now) => CleanupBoxes(c, s, now);
  }

  lemma {:induction false} RunBoxes(c: Config, s: State, events: seq<Event>)
    requires BoxesInv(c, s)
    ensures BoxesInv(c, Run(c, s, events))
    decreases |events|
  {
    if events != [] {
      StepBoxes(c, s, events[0]);
      RunBoxes(c, Step(c, s, events[0]), events[1..]);
    }
  }

  /**
   * In every reachable state, whatever the clocks did: at most the configured number
   * of mailboxes, at most the backlog in each, ids in increasing order, and a byte
   * count that is the sum of the stored bodies, so it never went below zero.
   */
  lemma CountsAreExact(c: Config, clock: int, events: seq<Event>, a: Bytes)
    ensures var s := Run(c, Initial(clock), events);
            && |s.boxes| <= c.maxMailboxes
            && (a in s.boxes ==>
                  && |s.boxes[a].messages| <= MAX_BACKLOG
                  && s.boxes[a].bytesStored == Sum(s.boxes[a].messages)
                  && IdsIncrease(s.boxes[a].messages))
  {
    RunBoxes(c, Initial(clock), events);
  }

  // ---- The order of received ids ----------------------------------------------------------

  lemma ReceiptsLater(s: State, r: State, a: Bytes)
    requires ReceiptsInv(s, a) && s.accepted <= r.accepted && Handed(r, a) == Handed(s, a)
    requires a in r.boxes ==> Passed(r.boxes[a].messages, Got(s, a), r.clock)
    ensures ReceiptsInv(r, a)
  {
    AddressedLater(s, r, Handed(s, a), a);
  }

  /** Ids handed out lie below the next one to be given. */
  lemma HandedBelow(s: State, a: Bytes, x: nat)
    requires Addressed(s, Handed(s, a), a) && x > |s.accepted|
    ensures Below(Got(s, a), x)
  {
    forall i | 0 <= i < |Got(s, a)| ensures Got(s, a)[i] < x { assert At(s, Handed(s, a)[i], a); }
  }

  lemma DeliverReceipts(c: Config, s: State, d: Delivery, now: int, x: Bytes)
    requires BoxesInv(c, s) && ReceiptsInv(s, x)
    ensures ReceiptsInv(DeliverStep(c, s, d, now), x)
  {
    var r, a := DeliverStep(c, s, d, now), d.address;
    if r != s {
      if x == a {
        var box := if a in s.boxes then s.boxes[a] else Box([], EMPTY, 0, now);
        var m := MessageOf(s.messageId + 1, d);
        HandedBelow(s, a, m.id);
        assert forall y :: y in r.boxes[a].messages ==> y in box.messages || y == m;
      }
      ReceiptsLater(s, r, x);
    }
  }

  lemma ReceiptsGrow(s: State, r: State, a: Bytes, m: Message)
    requires ReceiptsInv(s, a) && s.accepted == r.accepted && Handed(r, a) == Handed(s, a) + [m]
    requires Below(Got(s, a), m.id) && At(s, m, a)
    ensures Increasing(Got(r, a)) && Addressed(r, Handed(r, a), a) && Got(r, a) == Got(s, a) + [m.id]
  {
    AddressedLater(s, r, Handed(s, a), a);
  }

  lemma BelowNext(ids: seq<nat>, id: nat, x: nat)
    requires id < x
    ensures Below(ids, x) ==> Below(ids + [id], x)
  {}

  lemma PassedBehind(ms: seq<Message>, i: nat, ids: seq<nat>, clock: int, now: int)
    requires i < |ms| && IdsIncrease(ms) && Passed(ms, ids, clock) && clock <= now
    requires forall k :: 0 <= k < i ==> ms[k].timeout <= now
    ensures Passed(ms[..i] + ms[i + 1..], ids + [ms[i].id], now)
  {
    var kept, ids' := ms[..i] + ms[i + 1..], ids + [ms[i].id];
    forall m | m in kept && !Below(ids', m.id) ensures m.timeout <= now {
      var k :| 0 <= k < |ms| && k != i && ms[k] == m;
      if k > i { BelowNext(ids, ms[i].id, m.id); }
    }
  }

  /** The first live message comes after everything received before, if the clock did not go back. */
  lemma ReceiveAtReceipts(s: State, client: Bytes, a: Bytes, now: int)
    requires ReceiptsInv(s, a) && now >= s.clock && MayReceive(s, client, a)
    requires BoxOk(s.boxes[a]) && Addressed(s, s.boxes[a].messages, a)
    ensures ReceiptsInv(ReceiveStep(s, client, a, now), a)
  {
    var r := ReceiveStep(s, client, a, now);
    var ms := s.boxes[a].messages;
    var i := FirstLive(ms, now);
    if i == |ms| {
      ReceiptsLater(s, r, a);
    } else {
      var ids := Got(s, a);
      assert ms[i] in ms;
      assert Below(ids, ms[i].id);
      assert At(s, ms[i], a);
      ReceiptsGrow(s, r, a, ms[i]);
      PassedBehind(ms, i, ids, s.clock, now);
    }
  }

  lemma ReceiveReceipts(c: Config, s: State, client: Bytes, a: Bytes, now: int, x: Bytes)
    requires BoxesInv(c, s) && ReceiptsInv(s, x) && now >= s.clock
    ensures ReceiptsInv(ReceiveStep(s, client, a, now), x)
  {
    var r := ReceiveStep(s, client, a, now);
    if x == a && MayReceive(s, client, a) {
      ReceiveAtReceipts(s, client, a, now);
    } else {
      ReceiptsLater(s, r, x);
    }
  }

  lemma StepReceipts(c: Config, s: State, e: Event, x: Bytes)
    requires BoxesInv(c, s) && ReceiptsInv(s, x) && (e.Receive? ==> e.now >= s.clock)
    ensures ReceiptsInv(Step(c, s, e), x)
  {
    match e
    case Deliver(d, now) => DeliverReceipts(c, s, d, now, x);
    case Receive(client, a, now) => ReceiveReceipts(c, s, client, a, now, x);
    case Create(a, owner, now) => ReceiptsLater(s, Step(c, s, e), x);
    case RemoveClient(client) => ReceiptsLater(s, Step(c, s, e), x);
    case Cleanup(now) =>
      if x in s.boxes { LiveKeeps(s.boxes[x].messages, now); }
      ReceiptsLater(s, Step(c, s, e), x);
  }

  /** The clock read by receives never goes back. */
  predicate Monotone(clock: int, events: seq<Event>)
    decreases |events|
  {
    events == [] ||
    if events[0].Receive? then clock <= events[0].now && Monotone(events[0].now, events[1..])
    else Monotone(clock, events[1..])
  }

  lemma StepClock(c: Config, s: State, e: Event)
    ensures Step(c, s, e).clock == if e.Receive? then e.now else s.clock
  {}

  lemma {:induction false} RunReceipts(c: Config, s: State, events: seq<Event>, x: Bytes)
    requires BoxesInv(c, s) && ReceiptsInv(s, x) && Monotone(s.clock, events)
    ensures ReceiptsInv(Run(c, s, events), x)
    decreases |events|
  {
    if events != [] {
      StepBoxes(c, s, events[0]);
      StepReceipts(c, s, events[0], x);
      StepClock(c, s, events[0]);
      RunReceipts(c, Step(c, s, events[0]), events[1..], x);
    }
  }

  /**
   * With a clock that does not go back, the ids received from an address strictly
   * increase over the whole run, even when its mailbox was removed and made again
   * in between; and no id is ever received at two addresses.
   */
  lemma ReceivedInOrder(c: Config, clock: int, events: seq<Event>, a: Bytes, b: Bytes)
    requires Monotone(clock, events)
    ensures var s := Run(c, Initial(clock), events);
            && Increasing(Got(s, a))
            && (a != b ==> forall id :: id in Got(s, a) ==> id !in Got(s, b))
  {
    var s := Run(c, Initial(clock), events);
    RunReceipts(c, Initial(clock), events, a);
    RunReceipts(c, Initial(clock), events, b);
    if a != b {
      forall i, j | 0 <= i < |Got(s, a)| && 0 <= j < |Got(s, b)| ensures Got(s, a)[i] != Got(s, b)[j] {
        assert At(s, Handed(s, a)[i], a) && At(s, Handed(s, b)[j], b);
      }
    }
  }

  // ---- What is received is what was delivered -----------------------------------------------

  /** `m` is stored, has not expired, and every message stored before it has. */
  ghost predicate OldestLive(ms: seq<Message>, now: int, m: Message) {
    exists i :: 0 <= i < |ms| && ms[i] == m && m.timeout > now && forall k :: 0 <= k < i ==> ms[k].timeout <= now
  }

  /** Within a mailbox in order, the oldest live message has the least id of all live ones. */
  lemma OldestIsLeast(b: Box, now: int, m: Message)
    requires BoxOk(b) && OldestLive(b.messages, now, m)
    ensures m in b.messages && m.timeout > now
    ensures forall x :: x in b.messages && x.timeout > now ==> m.id <= x.id
  {}

  ghost predicate AnyLive(ms: seq<Message>, now: int) {
    exists m :: m in ms && m.timeout > now
  }

  lemma LiveFound(ms: seq<Message>, now: int)
    ensures FirstLive(ms, now) < |ms| <==> AnyLive(ms, now)
  {
    if FirstLive(ms, now) < |ms| { assert ms[FirstLive(ms, now)] in ms; }
  }

  /** When the client may not use the mailbox, or nothing in it is live, nothing is handed out or taken. */
  lemma ReceiveNothing(c: Config, s: State, client: Bytes, a: Bytes, now: int)
    requires !(MayReceive(s, client, a) && AnyLive(s.boxes[a].messages, now))
    ensures var r := Step(c, s, Receive(client, a, now));
            && Handed(r, a) == Handed(s, a)
            && (a in s.boxes ==> r.boxes[a].messages == s.boxes[a].messages)
  {
    if a in s.boxes { LiveFound(s.boxes[a].messages, now); }
  }

  lemma TakenOut(ms: seq<Message>, i: nat)
    requires i < |ms|
    ensures multiset(ms[..i] + ms[i + 1..]) == multiset(ms) - multiset{ms[i]}
  {
    assert ms == ms[..i] + [ms[i]] + ms[i + 1..];
  }

  lemma ReceiveTakes(s: State, client: Bytes, a: Bytes, now: int, i: nat)
    requires MayReceive(s, client, a) && i == FirstLive(s.boxes[a].messages, now)
    ensures var r, ms := ReceiveStep(s, client, a, now), s.boxes[a].messages;
            && a in r.boxes
            && (i < |ms| ==> r.boxes[a].messages == ms[..i] + ms[i + 1..] && Handed(r, a) == Handed(s, a) + [ms[i]]
                             && r.boxes[a].lastActivity == now)
            && (i == |ms| ==> r.boxes[a].messages == ms && Handed(r, a) == Handed(s, a))
  {}

  /** Otherwise the oldest live message is handed out, and just that one is taken. */
  lemma ReceiveHandsOldest(c: Config, s: State, client: Bytes, a: Bytes, now: int) returns (m: Message)
    requires MayReceive(s, client, a) && AnyLive(s.boxes[a].messages, now)
    ensures OldestLive(s.boxes[a].messages, now, m)
    ensures var r := Step(c, s, Receive(client, a, now));
            && Handed(r, a) == Handed(s, a) + [m]
            && multiset(r.boxes[a].messages) == multiset(s.boxes[a].messages) - multiset{m}
            && r.boxes[a].lastActivity == now
  {
    var ms := s.boxes[a].messages;
    LiveFound(ms, now);
    var i := FirstLive(ms, now);
    m := ms[i];
    ReceiveTakes(s, client, a, now, i);
    TakenOut(ms, i);
  }

  ghost predicate Unreceived(ms: seq<Message>, ids: seq<nat>) {
    forall m :: m in ms ==> m.id !in ids
  }

  /** Every message handed out at an address was delivered to it, and no id twice. */
  ghost predicate OnceInv(s: State, a: Bytes) {
    && Addressed(s, Handed(s, a), a) && NoDup(Got(s, a))
    && (a in s.boxes ==> Unreceived(s.boxes[a].messages, Got(s, a)))
  }

  lemma OnceLater(s: State, r: State, a: Bytes)
    requires OnceInv(s, a) && s.accepted <= r.accepted && Handed(r, a) == Handed(s, a)
    requires a in r.boxes ==> Unreceived(r.boxes[a].messages, Got(s, a))
    ensures OnceInv(r, a)
  {
    AddressedLater(s, r, Handed(s, a), a);
  }

  lemma DeliverOnce(c: Config, s: State, d: Delivery, now: int, x: Bytes)
    requires BoxesInv(c, s) && OnceInv(s, x)
    ensures OnceInv(DeliverStep(c, s, d, now), x)
  {
    var r, a := DeliverStep(c, s, d, now), d.address;
    if r != s {
      if x == a {
        var box := if a in s.boxes then s.boxes[a] else Box([], EMPTY, 0, now);
        var m := MessageOf(s.messageId + 1, d);
        HandedBelow(s, a, m.id);
        assert forall y :: y in r.boxes[a].messages ==> y in box.messages || y == m;
      }
      OnceLater(s, r, x);
    }
  }

  lemma UnreceivedBehind(ms: seq<Message>, i: nat, ids: seq<nat>)
    requires i < |ms| && IdsIncrease(ms) && Unreceived(ms, ids)
    ensures Unreceived(ms[..i] + ms[i + 1..], ids + [ms[i].id])
  {
    forall m | m in ms[..i] + ms[i + 1..] ensures m.id !in ids + [ms[i].id] {
      var k :| 0 <= k < |ms| && k != i && ms[k] == m;
    }
  }

  lemma HandedOnce(s: State, r: State, a: Bytes, ms: seq<Message>, i: nat)
    requires OnceInv(s, a) && r.accepted == s.accepted && i < |ms| && Handed(r, a) == Handed(s, a) + [ms[i]]
    requires IdsIncrease(ms) && Addressed(s, ms, a) && Unreceived(ms, Got(s, a))
    requires a in r.boxes && r.boxes[a].messages == ms[..i] + ms[i + 1..]
    ensures OnceInv(r, a)
  {
    assert ms[i] in ms && At(s, ms[i], a) && ms[i].id !in Got(s, a);
    assert Got(r, a) == Got(s, a) + [ms[i].id];
    AddressedLater(s, r, Handed(s, a), a);
    UnreceivedBehind(ms, i, Got(s, a));
  }

  lemma ReceiveOnce(c: Config, s: State, client: Bytes, a: Bytes, now: int, x: Bytes)
    requires BoxesInv(c, s) && OnceInv(s, x)
    ensures OnceInv(ReceiveStep(s, client, a, now), x)
  {
    var r := ReceiveStep(s, client, a, now);
    ReceiveKeys(s, client, a, now);
    ReceiveElsewhere(c, s, client, a, now, x);
    if x == a && MayReceive(s, client, a) {
      var ms := s.boxes[a].messages;
      var i := FirstLive(ms, now);
      ReceiveTakes(s, client, a, now, i);
      if i < |ms| { HandedOnce(s, r, a, ms, i); } else { OnceLater(s, r, a); }
    } else {
      OnceLater(s, r, x);
    }
  }

  lemma StepOnce(c: Config, s: State, e: Event, x: Bytes)
    requires BoxesInv(c, s) && OnceInv(s, x)
    ensures OnceInv(Step(c, s, e), x)
  {
    match e
    case Deliver(d, now) => DeliverOnce(c, s, d, now, x);
    case Receive(client, a, now) => ReceiveOnce(c, s, client, a, now, x);
    case Create(a, owner, now) => OnceLater(s, Step(c, s, e), x);
    case RemoveClient(client) => OnceLater(s, Step(c, s, e), x);
    case Cleanup(now) =>
      if x in s.boxes { LiveKeeps(s.boxes[x].messages, now); }
      OnceLater(s, Step(c, s, e), x);
  }

  lemma {:induction false} RunOnce(c: Config, s: State, events: seq<Event>, x: Bytes)
    requires BoxesInv(c, s) && OnceInv(s, x)
    ensures OnceInv(Run(c, s, events), x)
    decreases |events|
  {
    if events != [] {
      StepBoxes(c, s, events[0]);
      StepOnce(c, s, events[0], x);
      RunOnce(c, Step(c, s, events[0]), events[1..], x);
    }
  }

  /** The deliveries among the events that find room: a name and body within limits, and a mailbox to have. */
  function Accepted(c: Config, s: State, events: seq<Event>): (ds: seq<Delivery>)
    decreases |events|
  {
    if events == [] then []
    else
      var e, rest := events[0], Accepted(c, Step(c, s, events[0]), events[1..]);
      if && e.Deliver? && 1 <= |e.delivery.address| <= 255 && |e.delivery.body| <= 16777216
         && (e.delivery.address in s.boxes || |s.boxes| < c.maxMailboxes)
      then [e.delivery] + rest else rest
  }

  lemma StepAccepts(c: Config, s: State, e: Event)
    ensures Step(c, s, e).accepted
         == s.accepted + if && e.Deliver? && 1 <= |e.delivery.address| <= 255 && |e.delivery.body| <= 16777216
                            && (e.delivery.address in s.boxes || |s.boxes| < c.maxMailboxes)
                         then [e.delivery] else []
  {}

  lemma {:induction false} RunAccepts(c: Config, s: State, events: seq<Event>)
    ensures Run(c, s, events).accepted == s.accepted + Accepted(c, s, events)
    decreases |events|
  {
    if events != [] {
      var next := Step(c, s, events[0]);
      RunAccepts(c, next, events[1..]);
      StepAccepts(c, s, events[0]);
      Assoc(s.accepted, next.accepted[|s.accepted|..], Accepted(c, next, events[1..]));
    }
  }

  /**
   * Over every run and any clock: a message received at an address under id k is the k-th
   * delivery that found room, addressed there, with every field as it was sent and the timeout
   * counted from its sending; and no id is received twice.
   */
  lemma ReceivedAsDelivered(c: Config, clock: int, events: seq<Event>, a: Bytes, m: Message)
    requires m in Handed(Run(c, Initial(clock), events), a)
    ensures NoDup(Got(Run(c, Initial(clock), events), a))
    ensures var ds := Accepted(c, Initial(clock), events);
            && 1 <= m.id <= |ds|
            && var d := ds[m.id - 1];
            && d.address == a && m.subject == d.subject && m.sender == d.sender && m.tracker == d.tracker
            && m.attributes == d.attributes && m.body == d.body
            && m.timestamp == d.timestamp && m.timeout == d.timestamp + d.timeout
  {
    RunOnce(c, Initial(clock), events, a);
    RunAccepts(c, Initial(clock), events);
    assert At(Run(c, Initial(clock), events), m, a);
  }

  // ---- Which mailboxes and messages stay -------------------------------------------------------

  /** A delivery that finds room is stored last, keeps the newest 10000 and counts as activity. */
  lemma DeliverKeepsNewest(c: Config, s: State, d: Delivery, now: int)
    requires Step(c, s, Deliver(d, now)).accepted != s.accepted
    requires d.address in s.boxes ==> |s.boxes[d.address].messages| <= 10000
    ensures var r := Step(c, s, Deliver(d, now));
            var before := if d.address in s.boxes then s.boxes[d.address].messages else [];
            && d.address in r.boxes
            && var after := r.boxes[d.address];
            && after.messages != [] && after.messages[|after.messages| - 1].id == s.messageId + 1
            && after.messages[..|after.messages| - 1] == (if |before| == 10000 then before[1..] else before)
            && after.lastActivity == now
            && after.owner == if d.address in s.boxes then s.boxes[d.address].owner else []
  {}

  /** A cleanup removes a mailbox if and only if nothing in it is live and it was idle for too long. */
  lemma CleanupExactly(c: Config, s: State, now: int, a: Bytes, m: Message)
    ensures var r := Step(c, s, Cleanup(now));
            && (a in r.boxes <==>
                  a in s.boxes && ((exists x :: x in s.boxes[a].messages && x.timeout > now)
                                   || now - s.boxes[a].lastActivity <= c.retention))
            && (a in r.boxes ==>
                  && r.boxes[a].owner == s.boxes[a].owner && r.boxes[a].lastActivity == s.boxes[a].lastActivity
                  && (m in r.boxes[a].messages <==> m in s.boxes[a].messages && m.timeout > now))
  {
    if a in s.boxes {
      var ms := s.boxes[a].messages;
      LiveExact(ms, now, m);
      if x :| x in ms && x.timeout > now { LiveExact(ms, now, x); }
      if Live(ms, now) != [] { LiveExact(ms, now, Live(ms, now)[0]); }
    }
  }

  /** A created mailbox is empty and has the owner it was given; nothing else changes. */
  lemma CreateExactly(c: Config, s: State, a: Bytes, owner: Bytes, now: int)
    ensures Step(c, s, Create(a, owner, now))
         == if |s.boxes| < c.maxMailboxes && a !in s.boxes
            then s.(boxes := s.boxes[a := Box([], owner, 0, now)]) else s
  {}

  /** Removing a client removes exactly the mailboxes it owns. */
  lemma RemoveClientExactly(c: Config, s: State, client: Bytes, a: Bytes)
    ensures var r := Step(c, s, RemoveClient(client));
            && (a in r.boxes <==> a in s.boxes && s.boxes[a].owner != client)
            && (a in r.boxes ==> r.boxes[a] == s.boxes[a])
  {}

  /** A mailbox with an owner keeps it as long as it exists. */
  lemma OwnerIsKept(c: Config, s: State, e: Event, a: Bytes)
    requires a in s.boxes && s.boxes[a].owner != [] && a in Step(c, s, e).boxes
    ensures Step(c, s, e).boxes[a].owner == s.boxes[a].owner
  {}

  /** A letter without content that expires at `end`. */
  function Letter(a: Bytes, end: int): (d: Delivery) { Delivery(a, EMPTY, EMPTY, EMPTY, map[], EMPTY, end, 0) }

  /** Two messages waiting, the older one expiring first. */
  function Waiting(a: Bytes, now: int, back: int): (s: State) {
    var d1, d2 := Letter(a, now), Letter(a, now + 1);
    State(map[a := Box([MessageOf(1, d1), MessageOf(2, d2)], EMPTY, 0, back)], 2, map[], [d1, d2], back)
  }

  lemma TwoDelivered(c: Config, a: Bytes, now: int, back: int)
    requires c.maxMailboxes > 0 && 0 < |a| <= MAX_NAME
    ensures Step(c, Step(c, Initial(back), Deliver(Letter(a, now), back)), Deliver(Letter(a, now + 1), back))
         == Waiting(a, now, back)
  {
    var d1, d2 := Letter(a, now), Letter(a, now + 1);
    var m1, m2 := MessageOf(1, d1), MessageOf(2, d2);
    var s := Step(c, Initial(back), Deliver(d1, back));
    assert [] + [m1] == [m1] && [m1] + [m2] == [m1, m2];
    assert s == State(map[a := Box([m1], EMPTY, 0, back)], 1, map[], [d1], back);
  }

  /** The newer one received at `now`, the older one left behind. */
  function Behind(a: Bytes, client: Bytes, now: int): (s: State) {
    var d1, d2 := Letter(a, now), Letter(a, now + 1);
    State(map[a := Box([MessageOf(1, d1)], client, 0, now)], 2, map[a := [MessageOf(2, d2)]], [d1, d2], now)
  }

  lemma TwoMessages(m1: Message, m2: Message, now: int)
    requires m1.timeout <= now < m2.timeout
    ensures FirstLive([m1, m2], now) == 1
  {
    assert [m1, m2][0] == m1 && [m1, m2][1] == m2;
  }

  lemma SecondFirst(a: Bytes, client: Bytes, now: int, back: int)
    requires client != EMPTY
    ensures ReceiveStep(Waiting(a, now, back), client, a, now) == Behind(a, client, now)
  {
    var m1, m2 := MessageOf(1, Letter(a, now)), MessageOf(2, Letter(a, now + 1));
    TwoMessages(m1, m2, now);
    assert [m1, m2][..1] + [m1, m2][2..] == [m1];
    assert [] + [m2] == [m2];
  }

  lemma FirstSecond(a: Bytes, client: Bytes, now: int, back: int)
    requires back < now && client != EMPTY
    ensures Got(ReceiveStep(Behind(a, client, now), client, a, back), a) == [2, 1]
  {
    var m1, m2 := MessageOf(1, Letter(a, now)), MessageOf(2, Letter(a, now + 1));
    assert FirstLive([m1], back) == 0;
    assert Handed(ReceiveStep(Behind(a, client, now), client, a, back), a) == [m2] + [m1];
  }

  lemma RunCons(c: Config, s: State, e: Event, rest: seq<Event>)
    ensures Run(c, s, [e] + rest) == Run(c, Step(c, s, e), rest)
  {
    assert ([e] + rest)[1..] == rest;
  }

  lemma RunFour(c: Config, s: State, e1: Event, e2: Event, e3: Event, e4: Event)
    ensures Run(c, s, [e1, e2, e3, e4]) == Step(c, Step(c, Step(c, Step(c, s, e1), e2), e3), e4)
  {
    RunCons(c, s, e1, [e2, e3, e4]);
    RunCons(c, Step(c, s, e1), e2, [e3, e4]);
    RunCons(c, Step(c, Step(c, s, e1), e2), e3, [e4]);
    RunCons(c, Step(c, Step(c, Step(c, s, e1), e2), e3), e4, []);
    assert [e1] + [e2, e3, e4] == [e1, e2, e3, e4];
    assert [e2] + [e3, e4] == [e2, e3, e4];
    assert [e3] + [e4] == [e3, e4];
    assert [e4] + [] == [e4];
  }

  /**
   * Why the model needs `Monotone`: with an arbitrary clock an older id could come second.
   * The manager's clock cannot do that, since Go compares the monotonic readings of its times.
   */
  lemma ClockBackReorders(c: Config, a: Bytes, client: Bytes, now: int, back: int)
    requires back < now && c.maxMailboxes > 0 && 0 < |a| <= MAX_NAME && client != EMPTY
    ensures var events := [Deliver(Letter(a, now), back), Deliver(Letter(a, now + 1), back),
                           Receive(client, a, now), Receive(client, a, back)];
            Got(Run(c, Initial(back), events), a) == [2, 1]
  {
    var e1, e2 := Deliver(Letter(a, now), back), Deliver(Letter(a, now + 1), back);
    var e3, e4 := Receive(client, a, now), Receive(client, a, back);
    TwoDelivered(c, a, now, back);
    SecondFirst(a, client, now, back);
    FirstSecond(a, client, now, back);
    RunFour(c, Initial(back), e1, e2, e3, e4);
  }

  // ---- The manager as it is kept -----------------------------------------------------------

  datatype Reply = NotFound | AccessDenied | Nothing | Received(message: Message)

  /** What a receive answers, by the mailboxes it finds. */
  ghost predicate ReplyIs(boxes: map<Bytes, Box>, client: Bytes, a: Bytes, now: int, reply: Reply) {
    if a !in boxes then reply == NotFound
    else if boxes[a].owner != [] && boxes[a].owner != client then reply == AccessDenied
    else if !AnyLive(boxes[a].messages, now) then reply == Nothing
    else reply.Received? && OldestLive(boxes[a].messages, now, reply.message)
  }

  lemma ReceiveReply(s: State, client: Bytes, a: Bytes, now: int, i: nat)
    requires MayReceive(s, client, a) && i == FirstLive(s.boxes[a].messages, now)
    ensures var ms := s.boxes[a].messages;
            ReplyIs(s.boxes, client, a, now, if i == |ms| then Nothing else Received(ms[i]))
    ensures var ms, b := s.boxes[a].messages, Owned(s.boxes[a], client);
            if i == |ms| then ReceiveStep(s, client, a, now) == s.(boxes := s.boxes[a := b], clock := now)
            else ReceiveStep(s, client, a, now) == s.(boxes := s.boxes[a := TakenFrom(b, i, now)],
                   received := s.received[a := Handed(s, a) + [ms[i]]], clock := now)
  {
    LiveFound(s.boxes[a].messages, now);
  }

  method FindLive(ms: seq<Message>, now: int) returns (i: nat)
    ensures i == FirstLive(ms, now)
  {
    i := 0;
    assert ms[0..] == ms;
    while i < |ms|
      invariant i <= |ms| && FirstLive(ms, now) == i + FirstLive(ms[i..], now)
    {
      assert ms[i..][1..] == ms[i + 1..];
      if ms[i].timeout > now { return i; }
      i := i + 1;
    }
  }

  lemma LiveAt(ms: seq<Message>, i: nat, now: int, valid: seq<Message>, bytes: nat)
    requires i < |ms|
    ensures valid + Live(ms[i..], now)
         == (if ms[i].timeout > now then valid + [ms[i]] else valid) + Live(ms[i + 1..], now)
    ensures LiveBytes(bytes, ms[i..], now)
         == LiveBytes(if ms[i].timeout > now then bytes else Minus(bytes, |ms[i].body|), ms[i + 1..], now)
  {
    assert ms[i..][0] == ms[i] && ms[i..][1..] == ms[i + 1..];
  }

  method CleanBox(box: Box, now: int) returns (r: Box)
    ensures r == Cleaned(box, now)
  {
    var ms := box.messages;
    var valid, bytes, i := [], box.bytesStored, 0;
    assert ms[0..] == ms;
    while i < |ms|
      invariant i <= |ms|
      invariant Live(ms, now) == valid + Live(ms[i..], now)
      invariant LiveBytes(box.bytesStored, ms, now) == LiveBytes(bytes, ms[i..], now)
    {
      LiveAt(ms, i, now, valid, bytes);
      if ms[i].timeout > now {
        valid := valid + [ms[i]];
      } else {
        bytes := Minus(bytes, |ms[i].body|);
      }
      i := i + 1;
    }
    r := box.(messages := valid, bytesStored := bytes);
  }

  class MailboxManager {
    const config: Config
    var mailboxes: map<Bytes, Box>
    var messageId: nat
    ghost var received: map<Bytes, seq<Message>>
    ghost var accepted: seq<Delivery>
    ghost var clock: int

    ghost function Abs(): (s: State)
      reads this
    {
      State(mailboxes, messageId, received, accepted, clock)
    }

    constructor (config: Config, ghost clock: int)
      ensures this.config == config && Abs() == Initial(clock)
    {
      this.config := config;
      mailboxes, messageId := map[], 0;
      received, accepted, this.clock := map[], [], clock;
    }

    /** A delivery taken off the queue; the sender's checks let only sendable ones in. */
    method ProcessDelivery(d: Delivery, now: int)
      requires Sendable(d.address, d.body)
      modifies this
      ensures Abs() == Step(config, old(Abs()), Deliver(d, now))
    {
      var a := d.address;
      if a !in mailboxes {
        if |mailboxes| >= config.maxMailboxes { return; }
        mailboxes := mailboxes[a := Box([], EMPTY, 0, now)];
      }
      messageId := messageId + 1;
      var message := Message(messageId, d.subject, d.sender, d.tracker, d.attributes, d.body, d.timestamp,
                             d.timestamp + d.timeout);
      var box := mailboxes[a];
      box := box.(messages := box.messages + [message], bytesStored := Plus(box.bytesStored, |d.body|),
                  lastActivity := now);
      if |box.messages| > MAX_BACKLOG {
        var removed := box.messages[0];
        box := box.(messages := box.messages[1..], bytesStored := Minus(box.bytesStored, |removed.body|));
      }
      mailboxes := mailboxes[a := box];
      accepted := accepted + [d];
      assert mailboxes == Step(config, old(Abs()), Deliver(d, now)).boxes;
    }

    /** Takes the message at `i` out of the mailbox and hands it out. */
    method TakeOut(a: Bytes, i: nat, now: int) returns (message: Message)
      requires a in mailboxes && i < |mailboxes[a].messages|
      modifies this`mailboxes, this`received
      ensures message == old(mailboxes)[a].messages[i]
      ensures mailboxes == old(mailboxes)[a := TakenFrom(old(mailboxes)[a], i, now)]
      ensures received == old(received)[a := old(Handed(Abs(), a)) + [message]]
    {
      var box := mailboxes[a];
      message := box.messages[i];
      mailboxes := mailboxes[a := Box(box.messages[..i] + box.messages[i + 1..], box.owner,
                                      Minus(box.bytesStored, |message.body|), now)];
      received := received[a := Handed(old(Abs()), a) + [message]];
    }

    /** Hands out the first message that has not expired, to the owner of the mailbox. */
    method HandleReceive(client: Bytes, a: Bytes, now: int) returns (reply: Reply)
      modifies this
      ensures Abs() == Step(config, old(Abs()), Receive(client, a, now))
      ensures ReplyIs(old(mailboxes), client, a, now, reply)
      ensures Handed(Abs(), a) == old(Handed(Abs(), a)) + if reply.Received? then [reply.message] else []
    {
      clock := now;
      if a !in mailboxes { return NotFound; }
      if mailboxes[a].owner != EMPTY && mailboxes[a].owner != client { return AccessDenied; }
      if mailboxes[a].owner == EMPTY { mailboxes := mailboxes[a := mailboxes[a].(owner := client)]; }
      assert mailboxes == old(mailboxes)[a := Owned(old(mailboxes)[a], client)];
      var i := FindLive(mailboxes[a].messages, now);
      ReceiveReply(old(Abs()), client, a, now, i);
      if i == |mailboxes[a].messages| { return Nothing; }
      var message := TakeOut(a, i, now);
      assert mailboxes == old(mailboxes)[a := TakenFrom(Owned(old(mailboxes)[a], client), i, now)];
      return Received(message);
    }

    method HandleCreate(a: Bytes, owner: Bytes, now: int) returns (ok: bool)
      modifies this`mailboxes
      ensures Abs() == Step(config, old(Abs()), Create(a, owner, now))
      ensures ok <==> |old(mailboxes)| < config.maxMailboxes && a !in old(mailboxes)
    {
      if |mailboxes| >= config.maxMailboxes { return false; }
      if a in mailboxes { return false; }
      mailboxes := mailboxes[a := Box([], owner, 0, now)];
      return true;
    }

    method HandleRemoveClient(client: Bytes)
      modifies this`mailboxes
      ensures Abs() == Step(config, old(Abs()), RemoveClient(client))
    {
      var left := mailboxes.Keys;
      while left != {}
        invariant left <= mailboxes.Keys
        invariant mailboxes == map a | a in old(mailboxes) && (a in left || old(mailboxes)[a].owner != client)
                               :: old(mailboxes)[a]
        decreases |left|
      {
        var a :| a in left;
        if mailboxes[a].owner == client { mailboxes := mailboxes - {a}; }
        left := left - {a};
      }
    }

    method CleanupExpiredMessages(now: int)
      modifies this`mailboxes
      ensures Abs() == Step(config, old(Abs()), Cleanup(now))
    {
      var left := mailboxes.Keys;
      ghost var before := mailboxes;
      while left != {}
        invariant left <= mailboxes.Keys <= before.Keys
        invariant forall a :: a in left ==> mailboxes[a] == before[a]
        invariant forall a :: a in before && a !in left ==>
          (a in mailboxes <==> !Stale(config, Cleaned(before[a], now), now))
        invariant forall a :: a in mailboxes && a !in left ==> mailboxes[a] == Cleaned(before[a], now)
        decreases |left|
      {
        var a :| a in left;
        var box := CleanBox(mailboxes[a], now);
        if |box.messages| == 0 && now - box.lastActivity > config.retention {
          mailboxes := mailboxes - {a};
        } else {
          mailboxes := mailboxes[a := box];
        }
        left := left - {a};
      }
      assert mailboxes == CleanupStep(config, old(Abs()), now).boxes;
    }
  }
}

/**
 * Credit-based flow control: a controller grants clients credit within a window,
 * clients spend it, and confirmations give it back.  All amounts are 32-bit; every
 * addition and subtraction wraps explicitly, and is then shown not to.
 */
module MalamuteCredit {
  import opened Bytes

  type int32 = x: int | -0x8000_0000 <= x < 0x8000_0000

  const DEFAULT_WINDOW: int32 := 1000
  const MIN_WINDOW: int32 := 10
  const MAX_WINDOW: int32 := 100000
  const HOUR: int := 3600_000_000_000

  /** Two's complement. */
  function Wrap(x: int): (r: int32)
    ensures -0x8000_0000 <= x < 0x8000_0000 ==> r == x
  {
    (x + 0x8000_0000) % 0x1_0000_0000 - 0x8000_0000
  }

  /** A quarter without its fraction, which is dropped on either side of zero. */
  function Quarter(x: int32): (r: int32) {
    if x >= 0 then x / 4 else -((0 - x) / 4)
  }

  function Half(x: int32): (r: int32) {
    if x >= 0 then x / 2 else -((0 - x) / 2)
  }

  /** `spent` adds up the amounts of all successful uses. */
  datatype Client = Client(available: int32, total: int32, used: int32, lastRequest: int, spent: int)

  /** `largest` is the largest window so far. */
  datatype State = State(window: int32, high: int32, clients: map<Bytes, Client>, largest: int32)

  datatype Event =
    | Request(id: Bytes, amount: int32, now: int)
    | Confirm(id: Bytes, amount: int32)
    | Use(id: Bytes, amount: int32)
    | SetWindow(size: int32)
    | Remove(id: Bytes)
    | Cleanup(now: int)

  function High(window: int32): (r: int32) { Quarter(Wrap(window * 3)) }

  function Initial(window: int32): (s: State) {
    var w := if window <= 0 then DEFAULT_WINDOW else window;
    State(w, High(w), map[], w)
  }

  /** The credit a request is granted, nothing or less meaning denied. */
  function Grant(s: State, c: Client, requested: int32): (g: int32) {
    if c.available >= s.high || c.total >= s.window then 0
    else
      var available := Wrap(s.window - c.total);
      var granted := if requested > available then available else requested;
      if granted > Half(s.window) then Half(s.window) else granted
  }

  function Requested(s: State, c: Client, amount: int32, now: int): (r: Client) {
    var g := Grant(s, c, amount);
    if g > 0 then c.(available := Wrap(c.available + g), total := Wrap(c.total + g), lastRequest := now)
    else c.(lastRequest := now)
  }

  function Confirmed(c: Client, amount: int32): (r: Client) {
    if amount <= 0 then c
    else
      var used := Wrap(c.used - amount);
      c.(used := if used < 0 then 0 else used)
  }

  function Spent(c: Client, amount: int32): (r: Client) {
    if c.available < amount then c
    else c.(available := Wrap(c.available - amount), used := Wrap(c.used + amount), spent := c.spent + amount)
  }

  predicate Inactive(c: Client, now: int) {
    c.lastRequest < now - HOUR && c.available == 0 && c.used == 0
  }

  function Step(s: State, e: Event): (r: State) {
    match e
    case Request(id, amount, now) =>
      var c := if id in s.clients then s.clients[id] else Client(0, 0, 0, now, 0);
      s.(clients := s.clients[id := Requested(s, c, amount, now)])
    case Confirm(id, amount) =>
      if id in s.clients then s.(clients := s.clients[id := Confirmed(s.clients[id], amount)]) else s
    case Use(id, amount) =>
      if id in s.clients then s.(clients := s.clients[id := Spent(s.clients[id], amount)]) else s
    case SetWindow(size) =>
      if size < MIN_WINDOW || size > MAX_WINDOW then s
      else State(size, High(size), s.clients, if size > s.largest then size else s.largest)
    case Remove(id) => s.(clients := s.clients - {id})
    case Cleanup(now) => s.(clients := map id | id in s.clients && !Inactive(s.clients[id], now) :: s.clients[id])
  }

  function Run(s: State, events: seq<Event>): (r: State)
    decreases |events|
  {
    if events == [] then s else Run(Step(s, events[0]), events[1..])
  }

  // ---- Conservation ---------------------------------------------------------------------

  /** What a client has, plus what it ever spent, is what it was granted; it owes no more than it spent. */
  ghost predicate Conserved(c: Client, largest: int32) {
    && c.available + c.spent == c.total <= largest
    && 0 <= c.available && 0 <= c.used <= c.spent
  }

  ghost predicate Inv(s: State) {
    && 0 < s.window <= s.largest
    && forall id :: id in s.clients ==> Conserved(s.clients[id], s.largest)
  }

  /** A grant stays within the request, half the window and what is left of the window. */
  lemma GrantBounded(s: State, c: Client, requested: int32)
    requires s.window > 0 && 0 <= c.total
    ensures var g := Grant(s, c, requested);
            g > 0 ==> g <= requested && g <= s.window / 2 && c.total + g <= s.window
  {}

  lemma RequestedExactly(s: State, c: Client, amount: int32, now: int)
    ensures var g := Grant(s, c.(lastRequest := now), amount);
            && g == Grant(s, c, amount)
            && Requested(s, c, amount, now)
            == c.(lastRequest := now, available := if g > 0 then Wrap(c.available + g) else c.available,
                  total := if g > 0 then Wrap(c.total + g) else c.total)
  {}

  /** A client below the high mark and the window gets the least of the three bounds, any other nothing. */
  lemma GrantExactly(s: State, c: Client, requested: int32)
    requires s.window > 1 && 0 <= c.total
    ensures var g := Grant(s, c, requested);
            && (g > 0 <==> requested > 0 && c.available < s.high && c.total < s.window)
            && (g > 0 ==> g == requested || g == s.window - c.total || g == s.window / 2)
  {}

  /** A request changes the record by exactly its grant: nothing wraps. */
  lemma RequestConserves(s: State, c: Client, amount: int32, now: int)
    requires Inv(s) && Conserved(c, s.largest)
    ensures var g, r := Grant(s, c, amount), Requested(s, c, amount, now);
            && Conserved(r, s.largest) && r.used == c.used && r.spent == c.spent
            && r.total == c.total + (if g > 0 then g else 0)
            && r.available == c.available + (if g > 0 then g else 0)
  {
    GrantBounded(s, c, amount);
  }

  /** A confirmation lowers what is in use, to zero at the least, and nothing else. */
  lemma ConfirmConserves(c: Client, amount: int32, largest: int32)
    requires Conserved(c, largest)
    ensures var r := Confirmed(c, amount);
            && Conserved(r, largest) && r == c.(used := r.used)
            && r.used == if amount <= 0 then c.used else if c.used < amount then 0 else c.used - amount
  {}

  /** A use keeps the books if and only if it is refused or takes back no more than is in use. */
  lemma UseConservesExactly(c: Client, amount: int32, largest: int32)
    requires Conserved(c, largest)
    ensures Conserved(Spent(c, amount), largest) <==> c.available < amount || c.used + amount >= 0
    ensures 0 <= amount <= c.available ==>
      Spent(c, amount).available == c.available - amount && Spent(c, amount).used == c.used + amount
  {}

  /** Every use is refused or takes back no more than is in use; an amount of zero or more always is. */
  predicate Proper(s: State, e: Event) {
    e.Use? && e.id in s.clients ==>
      s.clients[e.id].available < e.amount || s.clients[e.id].used + e.amount >= 0
  }

  /** One event keeps every record's books if and only if it is proper. */
  lemma StepConserves(s: State, e: Event)
    requires Inv(s)
    ensures Inv(Step(s, e)) <==> Proper(s, e)
  {
    match e
    case Request(id, amount, now) =>
      RequestConserves(s, if id in s.clients then s.clients[id] else Client(0, 0, 0, now, 0), amount, now);
    case Confirm(id, amount) =>
      if id in s.clients { ConfirmConserves(s.clients[id], amount, s.largest); }
    case Use(id, amount) =>
      if id in s.clients {
        UseConservesExactly(s.clients[id], amount, s.largest);
        assert Step(s, e).clients[id] == Spent(s.clients[id], amount);
      }
    case SetWindow(size) =>
    case Remove(id) =>
    case Cleanup(now) =>
  }

  ghost predicate AllProper(s: State, events: seq<Event>)
    decreases |events|
  {
    events == [] || (Proper(s, events[0]) && AllProper(Step(s, events[0]), events[1..]))
  }

  ghost predicate AlwaysConserved(s: State, events: seq<Event>)
    decreases |events|
  {
    Inv(s) && (events == [] || AlwaysConserved(Step(s, events[0]), events[1..]))
  }

  /** Over a whole run the books balance in every state if and only if every use is proper. */
  lemma {:induction false} RunConserves(s: State, events: seq<Event>)
    requires Inv(s)
    ensures AlwaysConserved(s, events) <==> AllProper(s, events)
    decreases |events|
  {
    if events != [] {
      StepConserves(s, events[0]);
      if Proper(s, events[0]) { RunConserves(Step(s, events[0]), events[1..]); }
    }
  }

  lemma {:induction false} LastConserved(s: State, events: seq<Event>)
    requires AlwaysConserved(s, events)
    ensures Inv(Run(s, events))
    decreases |events|
  {
    if events != [] { LastConserved(Step(s, events[0]), events[1..]); }
  }

  /** Uses of zero or more are proper in whatever state they come. */
  lemma {:induction false} NonNegativeProper(s: State, events: seq<Event>)
    requires Inv(s) && forall i :: 0 <= i < |events| && events[i].Use? ==> events[i].amount >= 0
    ensures AllProper(s, events)
    decreases |events|
  {
    if events != [] {
      assert Proper(s, events[0]);
      StepConserves(s, events[0]);
      assert forall i :: 0 <= i < |events[1..]| ==> events[1..][i] == events[i + 1];
      NonNegativeProper(Step(s, events[0]), events[1..]);
    }
  }

  /**
   * For every first window and every run whose uses are not negative: a client's
   * available credit and all it ever spent add up to all it was granted, which is at
   * most the largest window so far; what is in use is between zero and what is left.
   */
  lemma CreditIsConserved(window: int32, events: seq<Event>, id: Bytes)
    requires forall i :: 0 <= i < |events| && events[i].Use? ==> events[i].amount >= 0
    requires id in Run(Initial(window), events).clients
    ensures var s := Run(Initial(window), events);
            var c := s.clients[id];
            && c.available + c.spent == c.total <= s.largest
            && 0 <= c.available && 0 <= c.used && c.available + c.used <= c.total
  {
    NonNegativeProper(Initial(window), events);
    RunConserves(Initial(window), events);
    LastConserved(Initial(window), events);
  }

  /** A use of a negative amount makes credit: one granted, eight available. */
  lemma NegativeUseMints(now: int)
    ensures Run(Initial(100), [Request([1], 1, now), Use([1], -7)]).clients
         == map[[1] := Client(8, 1, -7, now, -7)]
  {
    var e1, e2 := Request([1], 1, now), Use([1], -7);
    var s1 := Step(Initial(100), e1);
    assert s1.clients[[1]] == Client(1, 1, 0, now, 0);
    assert [e1, e2][1..] == [e2] && [e2][1..] == [];
    assert Run(Initial(100), [e1, e2]) == Run(s1, [e2]) == Run(Step(s1, e2), []);
  }

  /** The high mark is three quarters of the window if and only if tripling it does not wrap. */
  lemma HighMarkExact(window: int32)
    requires window > 0
    ensures High(window) == window * 3 / 4 <==> window <= 0x7FFF_FFFF / 3
  {
    if window > 0x7FFF_FFFF / 3 { assert Wrap(window * 3) < window * 3 - 4; }
  }

  // ---- Who is removed, and which window counts --------------------------------------------

  /** A cleanup removes a client if and only if it has nothing and asked for nothing for more than an hour. */
  lemma CleanupExactly(s: State, now: int, id: Bytes)
    ensures var r := Step(s, Cleanup(now));
            && (id in r.clients <==>
                  id in s.clients && !(s.clients[id].available == 0 && s.clients[id].used == 0
                                       && now - s.clients[id].lastRequest > 60 * 60 * 1000000000))
            && (id in r.clients ==> r.clients[id] == s.clients[id])
  {}

  /** A request, granted or not, is what counts as the last sign of a client; nothing else is. */
  lemma RequestIsTheSign(s: State, e: Event, id: Bytes)
    requires id in Step(s, e).clients
    ensures e.Request? && e.id == id ==> Step(s, e).clients[id].lastRequest == e.now
    ensures !(e.Request? && e.id == id) ==>
      id in s.clients && Step(s, e).clients[id].lastRequest == s.clients[id].lastRequest
  {}

  /**
   * A new window from 10 to 100000 is in force at once: its three quarters are the high mark,
   * and the next grant is measured by it. Any other is refused.
   */
  lemma WindowInForce(s: State, size: int32)
    ensures var r := Step(s, SetWindow(size));
            if 10 <= size <= 100000 then r.window == size && r.high == size * 3 / 4 && r.clients == s.clients
            else r == s
  {}

  /** Removing a client forgets its record and no other. */
  lemma RemoveForgets(s: State, id: Bytes, other: Bytes)
    ensures var r := Step(s, Remove(id));
            && id !in r.clients
            && (other != id ==> (other in r.clients <==> other in s.clients)
                                && (other in s.clients ==> r.clients[other] == s.clients[other]))
  {}

  // ---- The controller as it is kept --------------------------------------------------------

  datatype Response = Granted(granted: int32, available: int32) | Denied(available: int32)

  class CreditController {
    var windowSize: int32
    var lowWatermark: int32
    var highWatermark: int32
    var clientCredits: map<Bytes, Client>
    ghost var largest: int32

    ghost function Abs(): (s: State)
      reads this
    {
      State(windowSize, highWatermark, clientCredits, largest)
    }

    constructor (window: int32)
      ensures Abs() == Initial(window) && Inv(Abs())
    {
      var w := if window <= 0 then DEFAULT_WINDOW else window;
      windowSize, lowWatermark, highWatermark := w, Quarter(w), Quarter(Wrap(w * 3));
      clientCredits, largest := map[], w;
    }

    method CalculateGrantedCredit(c: Client, requested: int32) returns (granted: int32)
      ensures granted == Grant(Abs(), c, requested)
    {
      if c.available >= highWatermark { return 0; }
      var maxCredit := windowSize;
      if c.total >= maxCredit { return 0; }
      var available := Wrap(maxCredit - c.total);
      granted := requested;
      if granted > available { granted := available; }
      if granted > Half(windowSize) { granted := Half(windowSize); }
    }

    /** The answer carries the grant and the credit that is available after it. */
    method ProcessRequest(id: Bytes, amount: int32, now: int) returns (r: Response)
      modifies this`clientCredits
      ensures Abs() == Step(old(Abs()), Request(id, amount, now))
      ensures old(Inv(Abs())) ==> Inv(Abs())
      ensures r.available == clientCredits[id].available
      ensures r.Granted? ==> 0 < r.granted <= amount && r.granted <= Half(windowSize)
      ensures old(Inv(Abs())) && id in old(clientCredits) && r.Granted? ==>
        clientCredits[id].total == old(clientCredits)[id].total + r.granted
    {
      if Inv(Abs()) { StepConserves(Abs(), Request(id, amount, now)); }
      var c := if id in clientCredits then clientCredits[id] else Client(0, 0, 0, now, 0);
      ghost var before := c;
      RequestedExactly(Abs(), c, amount, now);
      c := c.(lastRequest := now);
      var granted := CalculateGrantedCredit(c, amount);
      if granted > 0 {
        c := c.(available := Wrap(c.available + granted), total := Wrap(c.total + granted));
        r := Granted(granted, c.available);
      } else {
        r := Denied(c.available);
      }
      clientCredits := clientCredits[id := c];
      if old(Inv(Abs())) { GrantBounded(old(Abs()), before, amount); }
    }

    method ProcessConfirmation(id: Bytes, amount: int32)
      modifies this`clientCredits
      ensures Abs() == Step(old(Abs()), Confirm(id, amount))
      ensures old(Inv(Abs())) ==> Inv(Abs())
    {
      if Inv(Abs()) { StepConserves(Abs(), Confirm(id, amount)); }
      if id !in clientCredits { return; }
      var c := clientCredits[id];
      if amount > 0 {
        c := c.(used := Wrap(c.used - amount));
        if c.used < 0 { c := c.(used := 0); }
      }
      clientCredits := clientCredits[id := c];
    }

    /** Any amount is accepted that is not more than is available. */
    method UseCredit(id: Bytes, amount: int32) returns (ok: bool)
      modifies this`clientCredits
      ensures Abs() == Step(old(Abs()), Use(id, amount))
      ensures old(Inv(Abs())) ==> (Inv(Abs()) <==> Proper(old(Abs()), Use(id, amount)))
      ensures ok <==> id in old(clientCredits) && amount <= old(clientCredits)[id].available
    {
      if Inv(Abs()) { StepConserves(Abs(), Use(id, amount)); }
      if id !in clientCredits { return false; }
      var c := clientCredits[id];
      if c.available < amount {
        assert clientCredits[id := c] == clientCredits;
        return false;
      }
      clientCredits := clientCredits[id := c.(available := Wrap(c.available - amount), used := Wrap(c.used + amount),
                                              spent := c.spent + amount)];
      return true;
    }

    method SetWindowSize(size: int32) returns (ok: bool)
      modifies this`windowSize, this`lowWatermark, this`highWatermark, this`largest
      ensures Abs() == Step(old(Abs()), SetWindow(size))
      ensures old(Inv(Abs())) ==> Inv(Abs())
      ensures ok <==> MIN_WINDOW <= size <= MAX_WINDOW
    {
      if Inv(Abs()) { StepConserves(Abs(), SetWindow(size)); }
      if size < MIN_WINDOW || size > MAX_WINDOW { return false; }
      windowSize, lowWatermark, highWatermark := size, Quarter(size), Quarter(Wrap(size * 3));
      largest := if size > largest then size else largest;
      return true;
    }

    method CleanupInactiveClients(now: int)
      modifies this`clientCredits
      ensures Abs() == Step(old(Abs()), Cleanup(now))
      ensures old(Inv(Abs())) ==> Inv(Abs())
    {
      if Inv(Abs()) { StepConserves(Abs(), Cleanup(now)); }
      var cutoff := now - HOUR;
      var left := clientCredits.Keys;
      while left != {}
        invariant left <= clientCredits.Keys
        invariant clientCredits == map id | id in old(clientCredits) &&
                                            (id in left || !Inactive(old(clientCredits)[id], now))
                                   :: old(clientCredits)[id]
        decreases |left|
      {
        var id :| id in left;
        var c := clientCredits[id];
        if c.lastRequest < cutoff && c.available == 0 && c.used == 0 {
          clientCredits := clientCredits - {id};
        }
        left := left - {id};
      }
    }
  }
}

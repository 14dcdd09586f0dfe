/** Over any run, every request that arrived is dispatched, expired or still queued, once. */
module BrokerRuns {
  import opened Sequences
  import opened BrokerModel
  import opened BrokerDispatch
  import opened BrokerInvariant

  /** What the log says became of the requests of one service. */
  datatype Books = Books(arrived: seq<Request>, dispatched: seq<Request>, expired: seq<Request>)

  function Post(b: Books, a: Action, n: ServiceName): Books {
    match a
    case Arrive(r) => if r.service == n then b.(arrived := b.arrived + [r]) else b
    case Send(_, r, ok) => if ok && r.service == n then b.(dispatched := b.dispatched + [r]) else b
    case Sweep(gone) => if n in gone then b.(expired := b.expired + gone[n]) else b
    case Forward(_, _, _) => b
    case SendDisconnect(_) => b
  }

  function PostAll(b: Books, log: seq<Action>, n: ServiceName): Books {
    if log == [] then b else Post(PostAll(b, log[..|log| - 1], n), log[|log| - 1], n)
  }

  function Ledger(log: seq<Action>, n: ServiceName): Books {
    PostAll(Books([], [], []), log, n)
  }

  /** Requests in arrival order: tickets strictly increase. */
  ghost predicate InArrivalOrder(s: seq<Request>) {
    forall i, j :: 0 <= i < j < |s| ==> s[i].ticket < s[j].ticket
  }

  /**
   The books of one service balance. The arrivals are numbered from zero and their number is
   the `TotalRequests` counter; every arrival is dispatched, expired or queued, exactly once;
   and the dispatched requests followed by the queued ones are in arrival order.
   */
  ghost predicate Balanced(s: Service, b: Books) {
    && |b.arrived| == s.totalRequests
    && (forall i :: 0 <= i < |b.arrived| ==> b.arrived[i].ticket == i)
    && multiset(b.dispatched) + multiset(b.expired) + multiset(s.requests) == multiset(b.arrived)
    && InArrivalOrder(b.dispatched + s.requests)
  }

  lemma {:induction false} PostConcat(b: Books, log: seq<Action>, more: seq<Action>, n: ServiceName)
    ensures PostAll(b, log + more, n) == PostAll(PostAll(b, log, n), more, n)
  {
    if more == [] {
      assert log + more == log;
    } else {
      var init := more[..|more| - 1];
      assert (log + more)[..|log + more| - 1] == log + init;
      PostConcat(b, log, init, n);
    }
  }

  lemma PostOne(b: Books, a: Action, rest: seq<Action>, n: ServiceName)
    ensures PostAll(b, [a] + rest, n) == PostAll(Post(b, a, n), rest, n)
  {
    assert [a][..0] == [];
    PostConcat(b, [a], rest, n);
  }

  lemma {:induction false} PostQuiet(b: Books, log: seq<Action>, n: ServiceName)
    requires forall i :: 0 <= i < |log| ==>
      log[i].Forward? || log[i].SendDisconnect? || (log[i].Send? && log[i].request.service != n)
    ensures PostAll(b, log, n) == b
  {
    if log != [] { PostQuiet(b, log[..|log| - 1], n); }
  }

  /** A dispatch logs sends only, of requests that were queued to workers that were listed. */
  lemma {:induction false} DispatchLogsSends(requests: seq<Request>, available: seq<Worker>, outcomes: seq<bool>)
    ensures forall a :: a in Dispatch(requests, available, outcomes).log ==>
              a.Send? && a.request in requests && a.worker in available
    decreases |outcomes|, |requests|
  {
    if requests != [] && available != [] {
      var sent, reqs, ws, later := DispatchUnfold(requests, available, outcomes);
      DispatchLogsSends(reqs, ws, later);
    }
  }

  lemma {:induction false} DispatchPosts(
    b: Books, requests: seq<Request>, available: seq<Worker>, outcomes: seq<bool>, n: ServiceName)
    requires forall r :: r in requests ==> r.service == n
    ensures PostAll(b, Dispatch(requests, available, outcomes).log, n)
         == b.(dispatched := b.dispatched + requests[..Min(|requests|, |available|)])
    decreases |outcomes|, |requests|
  {
    var m := Min(|requests|, |available|);
    if m == 0 {
      assert b.dispatched + requests[..m] == b.dispatched;
    } else {
      var sent, reqs, ws, later := DispatchUnfold(requests, available, outcomes);
      PostOne(b, sent, Dispatch(reqs, ws, later).log, n);
      DispatchPosts(Post(b, sent, n), reqs, ws, later, n);
      if sent.ok {
        assert requests[..m] == [requests[0]] + requests[1..][..m - 1];
        Assoc(b.dispatched, [requests[0]], requests[1..][..m - 1]);
      }
    }
  }

  lemma TicketsBelow(arrived: seq<Request>, r: Request)
    requires forall i :: 0 <= i < |arrived| ==> arrived[i].ticket == i
    requires r in multiset(arrived)
    ensures r.ticket < |arrived| && arrived[r.ticket] == r
  {
    assert r in arrived;
  }

  lemma ArrivalBalances(s: Service, s': Service, b: Books, r: Request, m: nat)
    requires Balanced(s, b)
    requires r.ticket == s.totalRequests
    requires m <= |s.requests| + 1
    requires s'.requests == (s.requests + [r])[m..] && s'.totalRequests == s.totalRequests + 1
    ensures Balanced(s', b.(arrived := b.arrived + [r], dispatched := b.dispatched + (s.requests + [r])[..m]))
  {
    var queue, line := s.requests + [r], b.dispatched + s.requests;
    assert queue == queue[..m] + queue[m..];
    assert (b.dispatched + queue[..m]) + s'.requests == line + [r];
    forall i | 0 <= i < |line| ensures line[i].ticket < r.ticket {
      assert line[i] in multiset(b.dispatched) + multiset(s.requests);
      TicketsBelow(b.arrived, line[i]);
    }
    calc {
      multiset(b.dispatched + queue[..m]) + multiset(b.expired) + multiset(s'.requests);
      multiset(b.dispatched) + multiset(b.expired) + (multiset(queue[..m]) + multiset(queue[m..]));
      { assert multiset(queue) == multiset(queue[..m]) + multiset(queue[m..]); }
      multiset(b.dispatched) + multiset(b.expired) + multiset(s.requests) + multiset{r};
      multiset(b.arrived + [r]);
    }
  }

  lemma ClientBalances(st: State, e: Event, b: Books)
    requires Inv(st) && e.ClientRequest? && Balanced(Lookup(st, e.service), b)
    ensures Balanced(Lookup(Step(st, e).0, e.service), PostAll(b, Step(st, e).1, e.service))
  {
    var n := e.service;
    var s := Lookup(st, n);
    var r := Request(s.totalRequests, e.client, n, e.body, e.now);
    var queue := s.requests + [r];
    var live := Drop(s.available, ExpiredWorkers(st.workers, e.now));
    var d := Dispatch(queue, live, e.outcomes);
    PostOne(b, Arrive(r), d.log, n);
    DispatchCounts(queue, live, e.outcomes);
    assert n in st.services ==> ServiceInv(st.workers, n, s);
    DispatchPosts(Post(b, Arrive(r), n), queue, live, e.outcomes, n);
    ArrivalBalances(s, Lookup(Step(st, e).0, n), b, r, Min(|queue|, |live|));
  }

  lemma OtherClientBalances(st: State, e: Event, n: ServiceName, b: Books)
    requires Inv(st) && e.ClientRequest? && e.service != n && Balanced(Lookup(st, n), b)
    ensures Balanced(Lookup(Step(st, e).0, n), PostAll(b, Step(st, e).1, n))
  {
    var s := Lookup(st, e.service);
    var r := Request(s.totalRequests, e.client, e.service, e.body, e.now);
    var live := Drop(s.available, ExpiredWorkers(st.workers, e.now));
    var log := Dispatch(s.requests + [r], live, e.outcomes).log;
    assert e.service in st.services ==> ServiceInv(st.workers, e.service, s);
    DispatchLogsSends(s.requests + [r], live, e.outcomes);
    PostOne(b, Arrive(r), log, n);
    PostQuiet(b, log, n);
  }

  /** Dropping elements keeps what comes before and the order. */
  lemma {:induction false} DropKeepsOrder(front: seq<Request>, s: seq<Request>, dead: set<Request>)
    requires InArrivalOrder(front + s)
    ensures InArrivalOrder(front + Drop(s, dead))
    decreases |s|
  {
    if s != [] {
      if s[0] in dead {
        assert InArrivalOrder(front + s[1..]) by {
          var a, b := front + s, front + s[1..];
          assert forall i :: 0 <= i < |b| ==> b[i] == a[if i < |front| then i else i + 1];
        }
        DropKeepsOrder(front, s[1..], dead);
      } else {
        assert (front + [s[0]]) + s[1..] == front + s;
        DropKeepsOrder(front + [s[0]], s[1..], dead);
        assert front + ([s[0]] + Drop(s[1..], dead)) == (front + [s[0]]) + Drop(s[1..], dead);
      }
    }
  }

  lemma SweepBalances(s: Service, s': Service, b: Books, dead: set<Request>)
    requires Balanced(s, b)
    requires s'.requests == Drop(s.requests, dead) && s'.totalRequests == s.totalRequests
    ensures Balanced(s', b.(expired := b.expired + Pick(s.requests, dead)))
  {
    DropPick(s.requests, dead);
    DropKeepsOrder(b.dispatched, s.requests, dead);
  }

  lemma CleanupPosts(st: State, now: Time, n: ServiceName, b: Books)
    ensures PostAll(b, CleanupStep(st, now).1, n)
         == if n in st.services
            then b.(expired := b.expired + Pick(st.services[n].requests,
                      ExpiredRequests(st.services[n].requests, now, st.requestTimeout)))
            else b
  {
    var more := CleanupStep(st, now).1;
    assert more[..0] == [] && PostAll(b, more, n) == Post(PostAll(b, more[..0], n), more[0], n);
  }

  lemma CleanupBalances(st: State, e: Event, n: ServiceName, b: Books)
    requires e.Cleanup? && Balanced(Lookup(st, n), b)
    ensures Balanced(Lookup(Step(st, e).0, n), PostAll(b, Step(st, e).1, n))
  {
    CleanupPosts(st, e.now, n, b);
    if n in st.services {
      var s := st.services[n];
      SweepBalances(s, Swept(st, n, e.now), b, ExpiredRequests(s.requests, e.now, st.requestTimeout));
    }
  }

  lemma WorkerKeepsQueue(st: State, e: Event, n: ServiceName)
    requires !e.Cleanup? && !e.ClientRequest?
    ensures var s, s' := Lookup(st, n), Lookup(Step(st, e).0, n);
            s'.requests == s.requests && s'.totalRequests == s.totalRequests
  {
  }

  lemma WorkerBalances(st: State, e: Event, n: ServiceName, b: Books)
    requires !e.Cleanup? && !e.ClientRequest? && Balanced(Lookup(st, n), b)
    ensures Balanced(Lookup(Step(st, e).0, n), PostAll(b, Step(st, e).1, n))
  {
    PostQuiet(b, Step(st, e).1, n);
    WorkerKeepsQueue(st, e, n);
  }

  /** Every step posts to the books what it does to the queue. */
  lemma StepBalances(st: State, e: Event, n: ServiceName, b: Books)
    requires Inv(st) && Balanced(Lookup(st, n), b)
    ensures Balanced(Lookup(Step(st, e).0, n), PostAll(b, Step(st, e).1, n))
  {
    if e.Cleanup? {
      CleanupBalances(st, e, n, b);
    } else if e.ClientRequest? && e.service == n {
      ClientBalances(st, e, b);
    } else if e.ClientRequest? {
      OtherClientBalances(st, e, n, b);
    } else {
      WorkerBalances(st, e, n, b);
    }
  }

  /** After every run, the books of every service balance. */
  lemma {:induction false} RunBalances(expiry: Time, timeout: Time, events: seq<Event>, n: ServiceName)
    ensures var (st, log) := Run(Initial(expiry, timeout), events); Balanced(Lookup(st, n), Ledger(log, n))
  {
    if events != [] {
      var before, e := events[..|events| - 1], events[|events| - 1];
      var (st, log) := Run(Initial(expiry, timeout), before);
      RunBalances(expiry, timeout, before, n);
      ReachableInv(expiry, timeout, before);
      StepBalances(st, e, n, Ledger(log, n));
      PostConcat(Books([], [], []), log, Step(st, e).1, n);
    }
  }

  lemma OnceFromBalance(s: Service, b: Books)
    requires Balanced(s, b)
    ensures |b.arrived| == |b.dispatched + s.requests| + |b.expired|
    ensures NoDup(b.dispatched)
    ensures forall r :: r in b.dispatched ==> r !in b.expired && r !in s.requests
    ensures var line := b.dispatched + s.requests;
            forall i :: 0 <= i < |line| ==> line[i].ticket < |b.arrived| && b.arrived[line[i].ticket] == line[i]
  {
    var line := b.dispatched + s.requests;
    assert |multiset(b.arrived)| == |multiset(b.dispatched)| + |multiset(b.expired)| + |multiset(s.requests)|;
    assert NoDup(b.dispatched) by {
      assert forall i :: 0 <= i < |b.dispatched| ==> b.dispatched[i] == line[i];
    }
    assert NoDup(b.arrived);
    NoDupCounts(b.arrived);
    forall r | r in b.dispatched ensures r !in b.expired && r !in s.requests {
      assert r in multiset(b.dispatched);
      assert r in multiset(b.arrived);
    }
    forall i | 0 <= i < |line| ensures line[i].ticket < |b.arrived| && b.arrived[line[i].ticket] == line[i] {
      assert line[i] in multiset(b.dispatched) + multiset(s.requests);
      TicketsBelow(b.arrived, line[i]);
    }
  }

  /**
   Over any run and for each service: the arrivals number `TotalRequests` and split into
   dispatched, expired and queued; no request is dispatched twice or after it expired; and the
   dispatched requests followed by the queued ones are a subsequence of the arrivals.
   */
  lemma EveryRequestOnce(expiry: Time, timeout: Time, events: seq<Event>, n: ServiceName)
    ensures var (st, log) := Run(Initial(expiry, timeout), events);
            var b, s := Ledger(log, n), Lookup(st, n);
            var line := b.dispatched + s.requests;
            && |b.arrived| == s.totalRequests == |b.dispatched| + |b.expired| + |s.requests|
            && NoDup(b.dispatched)
            && (forall r :: r in b.dispatched ==> r !in b.expired && r !in s.requests)
            && (forall i :: 0 <= i < |line| ==> line[i].ticket < |b.arrived| && b.arrived[line[i].ticket] == line[i])
            && InArrivalOrder(line)
  {
    RunBalances(expiry, timeout, events, n);
    var (st, log) := Run(Initial(expiry, timeout), events);
    OnceFromBalance(Lookup(st, n), Ledger(log, n));
  }
}

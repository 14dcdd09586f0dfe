/** Over any run, a worker registration never holds two requests at a time. */
module BrokerOutstanding {
  import opened Sequences
  import opened BrokerModel
  import opened BrokerDispatch
  import opened BrokerInvariant

  ghost predicate SentTo(a: Action, reg: nat) {
    a.Send? && a.ok && a.worker.reg == reg
  }

  ghost predicate RepliedBy(a: Action, reg: nat) {
    a.Forward? && a.worker.reg == reg
  }

  /** Registration `reg` has been sent a request that it has not replied to. */
  ghost predicate Outstanding(log: seq<Action>, reg: nat) {
    log != [] &&
    var a := log[|log| - 1];
    SentTo(a, reg) || (!RepliedBy(a, reg) && Outstanding(log[..|log| - 1], reg))
  }

  /** Nothing is sent to a registration while it has a request outstanding. */
  ghost predicate OneAtATime(log: seq<Action>) {
    forall j :: 0 <= j < |log| && log[j].Send? && log[j].ok ==> !Outstanding(log[..j], log[j].worker.reg)
  }

  ghost predicate Idle(log: seq<Action>, ws: seq<Worker>) {
    forall w :: w in ws ==> !Outstanding(log, w.reg)
  }

  ghost predicate RegsDiffer(ws: seq<Worker>) {
    forall i, j :: 0 <= i < j < |ws| ==> ws[i].reg != ws[j].reg
  }

  /** Available workers and registrations yet to come have nothing outstanding. */
  ghost predicate OutstandingInv(st: State, log: seq<Action>) {
    && OneAtATime(log)
    && (forall n :: n in st.services ==> Idle(log, st.services[n].available))
    && (forall reg :: reg >= st.totalWorkers ==> !Outstanding(log, reg))
  }

  lemma OutstandingAppend(log: seq<Action>, a: Action, reg: nat)
    ensures Outstanding(log + [a], reg) <==> SentTo(a, reg) || (!RepliedBy(a, reg) && Outstanding(log, reg))
  {
    assert (log + [a])[..|log|] == log;
  }

  lemma OneAtATimeAppend(log: seq<Action>, a: Action)
    requires OneAtATime(log)
    requires a.Send? && a.ok ==> !Outstanding(log, a.worker.reg)
    ensures OneAtATime(log + [a])
  {
    forall j | 0 <= j < |log + [a]| && (log + [a])[j].Send? && (log + [a])[j].ok
      ensures !Outstanding((log + [a])[..j], (log + [a])[j].worker.reg)
    {
      if j < |log| { assert (log + [a])[..j] == log[..j]; } else { assert (log + [a])[..j] == log; }
    }
  }

  /** A dispatch sends only to idle workers, each at most once, and concerns nobody else. */
  lemma {:induction false} DispatchOutstanding(
    log: seq<Action>, requests: seq<Request>, available: seq<Worker>, outcomes: seq<bool>)
    requires OneAtATime(log) && Idle(log, available)
    requires RegsDiffer(available)
    ensures var d := Dispatch(requests, available, outcomes);
            && OneAtATime(log + d.log)
            && Idle(log + d.log, d.available)
            && forall reg :: (forall w :: w in available ==> w.reg != reg) ==>
                 (Outstanding(log + d.log, reg) <==> Outstanding(log, reg))
    decreases |outcomes|, |requests|
  {
    var d := Dispatch(requests, available, outcomes);
    if requests == [] || available == [] {
      assert log + d.log == log;
    } else {
      var sent, reqs, ws, later := DispatchUnfold(requests, available, outcomes);
      var e := Dispatch(reqs, ws, later);
      assert log + d.log == (log + [sent]) + e.log;
      OneAtATimeAppend(log, sent);
      forall reg: nat ensures Outstanding(log + [sent], reg) <==> SentTo(sent, reg) || Outstanding(log, reg) {
        OutstandingAppend(log, sent, reg);
      }
      assert forall w :: w in ws ==> w in available;
      if sent.ok { assert forall w :: w in ws ==> w.reg != available[0].reg; }
      assert d.available == e.available;
      DispatchOutstanding(log + [sent], reqs, ws, later);
    }
  }

  lemma ListedRegs(st: State, n: ServiceName, w: Worker)
    requires Inv(st) && n in st.services && w in st.services[n].available
    ensures w.identity in st.workers && st.workers[w.identity].worker == w && w.service == n
  {
    assert ServiceInv(st.workers, n, st.services[n]);
    assert Member(st.workers, n, w);
  }

  /** Different listed workers have different registration numbers. */
  lemma DistinctRegs(st: State, n: ServiceName, m: ServiceName, v: Worker, w: Worker)
    requires Inv(st) && n in st.services && m in st.services
    requires v in st.services[n].available && w in st.services[m].available && v != w
    ensures v.reg != w.reg
  {
    ListedRegs(st, n, v);
    ListedRegs(st, m, w);
  }

  lemma LiveDistinct(st: State, n: ServiceName, dead: set<Worker>)
    requires Inv(st)
    ensures RegsDiffer(Drop(Lookup(st, n).available, dead))
  {
    if n in st.services {
      var s := st.services[n];
      var live := Drop(s.available, dead);
      assert ServiceInv(st.workers, n, s);
      NoDupParts(s.available, s.busy);
      NoDupSubMultiset(s.available, live);
      forall i, j | 0 <= i < j < |live| ensures live[i].reg != live[j].reg {
        assert live[i] in live && live[j] in live;
        DistinctRegs(st, n, n, live[i], live[j]);
      }
    }
  }

  /** Nobody listed elsewhere, and no future registration, shares a number with `ws`. */
  ghost predicate Apart(st: State, n: ServiceName, ws: seq<Worker>) {
    && (forall m, w, v :: m in st.services && m != n && w in st.services[m].available && v in ws ==> v.reg != w.reg)
    && (forall v :: v in ws ==> v.reg < st.totalWorkers)
  }

  lemma LiveApart(st: State, n: ServiceName, ws: seq<Worker>)
    requires Inv(st) && forall v :: v in ws ==> v in Lookup(st, n).available
    ensures Apart(st, n, ws)
  {
    forall m, w, v | m in st.services && m != n && w in st.services[m].available && v in ws
      ensures v.reg != w.reg
    {
      ListedRegs(st, m, w);
      ListedRegs(st, n, v);
      DistinctRegs(st, n, m, v, w);
    }
    forall v | v in ws ensures v.reg < st.totalWorkers { ListedRegs(st, n, v); }
  }

  /** Logging something that is neither a send nor a reply changes nothing. */
  lemma ArriveOutstanding(st: State, log: seq<Action>, r: Request)
    requires OutstandingInv(st, log)
    ensures OutstandingInv(st, log + [Arrive(r)])
  {
    OneAtATimeAppend(log, Arrive(r));
    forall reg: nat ensures Outstanding(log + [Arrive(r)], reg) <==> Outstanding(log, reg) {
      OutstandingAppend(log, Arrive(r), reg);
    }
  }

  lemma OthersStayIdle(st: State, log: seq<Action>, more: seq<Action>, n: ServiceName, live: seq<Worker>)
    requires OutstandingInv(st, log) && Apart(st, n, live)
    requires forall reg :: (forall w :: w in live ==> w.reg != reg) ==>
               (Outstanding(log + more, reg) <==> Outstanding(log, reg))
    ensures forall m :: m in st.services && m != n ==> Idle(log + more, st.services[m].available)
    ensures forall reg :: reg >= st.totalWorkers ==> !Outstanding(log + more, reg)
  {
    forall m | m in st.services && m != n ensures Idle(log + more, st.services[m].available) {
      assert Idle(log, st.services[m].available);
    }
  }

  lemma DispatchKeeps(
    st: State, log: seq<Action>, n: ServiceName, requests: seq<Request>, live: seq<Worker>,
    outcomes: seq<bool>, end: State, all: seq<Action>)
    requires OutstandingInv(st, log) && Apart(st, n, live) && Idle(log, live)
    requires RegsDiffer(live)
    requires n in end.services && end.services == st.services[n := end.services[n]]
    requires end.totalWorkers == st.totalWorkers
    requires end.services[n].available == Dispatch(requests, live, outcomes).available
    requires all == log + Dispatch(requests, live, outcomes).log
    ensures OutstandingInv(end, all)
  {
    DispatchOutstanding(log, requests, live, outcomes);
    OthersStayIdle(st, log, Dispatch(requests, live, outcomes).log, n, live);
  }

  lemma LiveIdle(st: State, log: seq<Action>, n: ServiceName, dead: set<Worker>)
    requires OutstandingInv(st, log)
    ensures Idle(log, Drop(Lookup(st, n).available, dead))
  {
    if n in st.services { assert Idle(log, st.services[n].available); }
  }

  /** How a client request changes the state: one service, by one dispatch. */
  lemma ClientShape(st: State, e: Event, r: Request, live: seq<Worker>)
    requires e.ClientRequest?
    requires r == Request(Lookup(st, e.service).totalRequests, e.client, e.service, e.body, e.now)
    requires live == Drop(Lookup(st, e.service).available, ExpiredWorkers(st.workers, e.now))
    ensures var (end, more) := Step(st, e);
            var d := Dispatch(Lookup(st, e.service).requests + [r], live, e.outcomes);
            && more == [Arrive(r)] + d.log
            && e.service in end.services
            && end.services == st.services[e.service := end.services[e.service]]
            && end.services[e.service].available == d.available
            && end.totalWorkers == st.totalWorkers
  {
  }

  lemma ClientSends(
    st: State, log: seq<Action>, n: ServiceName, r: Request, requests: seq<Request>, live: seq<Worker>,
    outcomes: seq<bool>, end: State, more: seq<Action>)
    requires OutstandingInv(st, log) && Apart(st, n, live) && Idle(log + [Arrive(r)], live) && RegsDiffer(live)
    requires n in end.services && end.services == st.services[n := end.services[n]]
    requires end.totalWorkers == st.totalWorkers
    requires end.services[n].available == Dispatch(requests, live, outcomes).available
    requires more == [Arrive(r)] + Dispatch(requests, live, outcomes).log
    ensures OutstandingInv(end, log + more)
  {
    ArriveOutstanding(st, log, r);
    assert log + more == (log + [Arrive(r)]) + Dispatch(requests, live, outcomes).log;
    DispatchKeeps(st, log + [Arrive(r)], n, requests, live, outcomes, end, log + more);
  }

  lemma ClientOutstanding(st: State, log: seq<Action>, e: Event)
    requires Inv(st) && OutstandingInv(st, log) && e.ClientRequest?
    ensures OutstandingInv(Step(st, e).0, log + Step(st, e).1)
  {
    var n, s := e.service, Lookup(st, e.service);
    var r := Request(s.totalRequests, e.client, n, e.body, e.now);
    var live := Drop(s.available, ExpiredWorkers(st.workers, e.now));
    assert Idle(log + [Arrive(r)], live) by {
      ArriveOutstanding(st, log, r);
      LiveIdle(st, log + [Arrive(r)], n, ExpiredWorkers(st.workers, e.now));
    }
    LiveDistinct(st, n, ExpiredWorkers(st.workers, e.now));
    LiveApart(st, n, live);
    ClientShape(st, e, r, live);
    ClientSends(st, log, n, r, s.requests + [r], live, e.outcomes, Step(st, e).0, Step(st, e).1);
  }

  lemma RemovedSubset(s: seq<Worker>, x: Worker, w: Worker)
    requires w in Without(s, x)
    ensures w in s
  {
    WithoutMultiset(s, x);
    assert w in multiset(Without(s, x));
    assert w in multiset(s);
  }

  /** Who is available after a step that sends no request. */
  lemma AvailableAfter(st: State, e: Event, n: ServiceName, w: Worker)
    requires !e.ClientRequest?
    requires n in Step(st, e).0.services && w in Step(st, e).0.services[n].available
    ensures || (n in st.services && w in st.services[n].available)
            || (e.Ready? && w.reg == st.totalWorkers)
            || (e.Reply? && Step(st, e).1 == [Forward(w, e.client, e.body)])
  {
    if n in st.services {
      var s := st.services[n];
      if e.Ready? || e.Disconnect? {
        if e.identity in st.workers && st.workers[e.identity].worker.service == n {
          RemovedSubset(s.available, st.workers[e.identity].worker, w);
        }
      }
    }
  }

  /** Steps that send no request: only the worker that replied may become available. */
  lemma QuietOutstanding(st: State, log: seq<Action>, e: Event)
    requires Inv(st) && OutstandingInv(st, log) && !e.ClientRequest?
    ensures OutstandingInv(Step(st, e).0, log + Step(st, e).1)
  {
    var (end, more) := Step(st, e);
    if more == [] {
      assert log + more == log;
    } else {
      assert more == [more[0]];
      OneAtATimeAppend(log, more[0]);
    }
    forall reg: nat
      ensures Outstanding(log + more, reg)
          <==> Outstanding(log, reg) && !(more != [] && RepliedBy(more[0], reg))
    {
      if more != [] { OutstandingAppend(log, more[0], reg); }
    }
    forall n | n in end.services ensures Idle(log + more, end.services[n].available) {
      forall w | w in end.services[n].available ensures !Outstanding(log + more, w.reg) {
        AvailableAfter(st, e, n, w);
      }
    }
  }

  /** Every step keeps the discipline. */
  lemma StepOutstanding(st: State, log: seq<Action>, e: Event)
    requires Inv(st) && OutstandingInv(st, log)
    ensures OutstandingInv(Step(st, e).0, log + Step(st, e).1)
  {
    if e.ClientRequest? { ClientOutstanding(st, log, e); } else { QuietOutstanding(st, log, e); }
  }

  lemma {:induction false} RunOutstanding(expiry: Time, timeout: Time, events: seq<Event>)
    ensures var (st, log) := Run(Initial(expiry, timeout), events); OutstandingInv(st, log)
  {
    if events != [] {
      var before := events[..|events| - 1];
      var (st, log) := Run(Initial(expiry, timeout), before);
      RunOutstanding(expiry, timeout, before);
      ReachableInv(expiry, timeout, before);
      StepOutstanding(st, log, events[|events| - 1]);
    }
  }

  lemma {:induction false} OutstandingUntilReply(log: seq<Action>, i: nat, j: nat, reg: nat)
    requires i < j <= |log| && SentTo(log[i], reg)
    requires forall k :: i < k < j ==> !RepliedBy(log[k], reg)
    ensures Outstanding(log[..j], reg)
    decreases j
  {
    assert log[..j][..j - 1] == log[..j - 1];
    if i < j - 1 { OutstandingUntilReply(log, i, j - 1, reg); }
  }

  /**
   Over any run, between two requests sent to the same registration the broker has processed
   a reply from it.
   */
  lemma ReplyBetweenRequests(expiry: Time, timeout: Time, events: seq<Event>, i: nat, j: nat, reg: nat)
    requires var log := Run(Initial(expiry, timeout), events).1;
             i < j < |log| && SentTo(log[i], reg) && SentTo(log[j], reg)
    ensures var log := Run(Initial(expiry, timeout), events).1;
            exists k :: i < k < j && RepliedBy(log[k], reg)
  {
    var log := Run(Initial(expiry, timeout), events).1;
    RunOutstanding(expiry, timeout, events);
    if forall k :: i < k < j ==> !RepliedBy(log[k], reg) { OutstandingUntilReply(log, i, j, reg); }
  }
}

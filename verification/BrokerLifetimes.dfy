/** How long workers and requests live: what READY, REPLY, HEARTBEAT, DISCONNECT and the cleanup do to them. */
module BrokerLifetimes {
  import opened Bytes
  import opened Sequences
  import opened BrokerModel
  import opened BrokerDispatch
  import opened BrokerInvariant
  import opened BrokerRuns

  // ---------------------------------------------------------------- settings in force

  /** The heartbeat expiry and the request timeout after these events, from the last configuration. */
  function Settings(expiry: Time, timeout: Time, events: seq<Event>): (r: (Time, Time)) {
    if events == [] then (expiry, timeout)
    else
      var e := events[|events| - 1];
      if e.Configure? then (e.heartbeatExpiry, e.requestTimeout)
      else Settings(expiry, timeout, events[..|events| - 1])
  }

  lemma StepSettings(st: State, e: Event)
    ensures var end := Step(st, e).0;
            if e.Configure? then end.heartbeatExpiry == e.heartbeatExpiry && end.requestTimeout == e.requestTimeout
            else end.heartbeatExpiry == st.heartbeatExpiry && end.requestTimeout == st.requestTimeout
  {}

  lemma {:induction false} SettingsInForce(expiry: Time, timeout: Time, events: seq<Event>)
    ensures var st := Run(Initial(expiry, timeout), events).0;
            (st.heartbeatExpiry, st.requestTimeout) == Settings(expiry, timeout, events)
  {
    if events != [] {
      var init, e := events[..|events| - 1], events[|events| - 1];
      SettingsInForce(expiry, timeout, init);
      StepSettings(Run(Initial(expiry, timeout), init).0, e);
    }
  }

  // ---------------------------------------------------------------- the life of a worker

  /** `id` is registered, and a cleanup leaves it registered exactly up to time `end`. */
  ghost predicate LivesUntil(st: State, id: Identity, end: Time) {
    id in st.workers && forall t :: id in Step(st, Cleanup(t)).0.workers <==> t <= end
  }

  /** A cleanup takes out the workers whose time is over and leaves every other registration as it is. */
  lemma CleanupRegisters(st: State, t: Time, id: Identity)
    ensures var end := Step(st, Cleanup(t)).0;
            && (id in end.workers <==> id in st.workers && t <= st.workers[id].expiry)
            && (id in end.workers ==> end.workers[id] == st.workers[id])
  {}

  lemma LivesToExpiry(st: State, id: Identity)
    requires id in st.workers
    ensures LivesUntil(st, id, st.workers[id].expiry)
  {
    forall t ensures id in Step(st, Cleanup(t)).0.workers <==> t <= st.workers[id].expiry {
      CleanupRegisters(st, t, id);
    }
  }

  /** READY from a new worker, REPLY and HEARTBEAT give a worker the heartbeat expiry from now. */
  lemma SignOfLife(st: State, id: Identity, n: ServiceName, client: Bytes, body: Bytes, now: Time)
    ensures id !in st.workers ==> LivesUntil(Step(st, Ready(id, n, now)).0, id, now + st.heartbeatExpiry)
    ensures id in st.workers ==> LivesUntil(Step(st, Reply(id, client, body, now)).0, id, now + st.heartbeatExpiry)
    ensures id in st.workers ==> LivesUntil(Step(st, Heartbeat(id, now)).0, id, now + st.heartbeatExpiry)
  {
    if id in st.workers {
      LivesToExpiry(Step(st, Reply(id, client, body, now)).0, id);
      LivesToExpiry(Step(st, Heartbeat(id, now)).0, id);
    } else {
      LivesToExpiry(Step(st, Ready(id, n, now)).0, id);
    }
  }

  /** The event is a sign of life of `id`. */
  predicate SignOf(e: Event, id: Identity) {
    (e.Ready? || e.Reply? || e.Heartbeat?) && e.identity == id
  }

  /** When the last sign of life in these events stops counting, by the expiry then in force. */
  function LastSign(expiry: Time, timeout: Time, events: seq<Event>, id: Identity): (end: Time) {
    if events == [] then 0
    else
      var init, e := events[..|events| - 1], events[|events| - 1];
      if SignOf(e, id) then e.now + Settings(expiry, timeout, init).0 else LastSign(expiry, timeout, init, id)
  }

  lemma StepExpiry(st: State, e: Event, id: Identity)
    requires WorkersInv(st) && id in Step(st, e).0.workers
    ensures var end := Step(st, e).0.workers[id].expiry;
            if SignOf(e, id) then end == e.now + st.heartbeatExpiry
            else id in st.workers && end == st.workers[id].expiry
  {}

  lemma {:induction false} ExpiryIsLastSign(expiry: Time, timeout: Time, events: seq<Event>, id: Identity)
    requires id in Run(Initial(expiry, timeout), events).0.workers
    ensures Run(Initial(expiry, timeout), events).0.workers[id].expiry == LastSign(expiry, timeout, events, id)
  {
    if events != [] {
      var init, e := events[..|events| - 1], events[|events| - 1];
      ReachableInv(expiry, timeout, init);
      StepExpiry(Run(Initial(expiry, timeout), init).0, e, id);
      if SignOf(e, id) { SettingsInForce(expiry, timeout, init); } else { ExpiryIsLastSign(expiry, timeout, init, id); }
    }
  }

  /**
   Over every run, a registered worker lives until its last READY, REPLY or HEARTBEAT plus the
   heartbeat expiry that was in force then; nothing else lengthens or shortens its life.
   */
  lemma LifeIsLastSign(expiry: Time, timeout: Time, events: seq<Event>, id: Identity)
    requires id in Run(Initial(expiry, timeout), events).0.workers
    ensures LivesUntil(Run(Initial(expiry, timeout), events).0, id, LastSign(expiry, timeout, events, id))
  {
    ExpiryIsLastSign(expiry, timeout, events, id);
    LivesToExpiry(Run(Initial(expiry, timeout), events).0, id);
  }

  // ---------------------------------------------------------------- which workers get requests

  lemma ListedIsMember(st: State, n: ServiceName, w: Worker)
    requires Inv(st) && (w in Lookup(st, n).available || w in Lookup(st, n).busy)
    ensures n in st.services && Member(st.workers, n, w)
  {
    assert ServiceInv(st.workers, n, st.services[n]);
  }

  lemma ExpiredExactly(st: State, w: Worker, t: Time)
    requires WorkersInv(st) && w.identity in st.workers && st.workers[w.identity].worker == w
    ensures w in ExpiredWorkers(st.workers, t) <==> t > st.workers[w.identity].expiry
  {}

  /** The workers of a service's available list that live at `t`. */
  ghost predicate LiveListed(st: State, n: ServiceName, w: Worker, t: Time) {
    w in Lookup(st, n).available && w.identity in st.workers && t <= st.workers[w.identity].expiry
  }

  lemma LiveIsListed(st: State, n: ServiceName, t: Time, w: Worker)
    requires Inv(st)
    ensures w in Drop(Lookup(st, n).available, ExpiredWorkers(st.workers, t)) <==> LiveListed(st, n, w, t)
  {
    if w in Lookup(st, n).available {
      ListedIsMember(st, n, w);
      ExpiredExactly(st, w, t);
    }
  }

  lemma RequestShape(st: State, client: Bytes, n: ServiceName, body: Bytes, t: Time, outcomes: seq<bool>, live: seq<Worker>)
    requires live == Drop(Lookup(st, n).available, ExpiredWorkers(st.workers, t))
    ensures var (end, log) := Step(st, ClientRequest(client, n, body, t, outcomes));
            var r := Request(Lookup(st, n).totalRequests, client, n, body, t);
            var d := Dispatch(Lookup(st, n).requests + [r], live, outcomes);
            && log == [Arrive(r)] + d.log
            && n in end.services && end.services[n].available == d.available
            && end.services[n].busy == Lookup(st, n).busy + d.taken
  {}

  /** What a client request sends goes to listed workers that live at that moment, and to no other. */
  lemma OnlyLiveWorkersUsed(st: State, client: Bytes, n: ServiceName, body: Bytes, t: Time, outcomes: seq<bool>, a: Action)
    requires Inv(st) && a in Step(st, ClientRequest(client, n, body, t, outcomes)).1 && a.Send?
    ensures LiveListed(st, n, a.worker, t)
  {
    var live := Drop(Lookup(st, n).available, ExpiredWorkers(st.workers, t));
    var r := Request(Lookup(st, n).totalRequests, client, n, body, t);
    RequestShape(st, client, n, body, t, outcomes, live);
    DispatchLogsSends(Lookup(st, n).requests + [r], live, outcomes);
    LiveIsListed(st, n, t, a.worker);
  }

  lemma InParts(w: Worker, a: seq<Worker>, b: seq<Worker>, c: seq<Worker>)
    requires multiset(a) + multiset(b) == multiset(c)
    ensures w in a || w in b <==> w in c
  {
    assert w in multiset(c) <==> w in multiset(a) || w in multiset(b);
  }

  lemma NotBusy(st: State, n: ServiceName, w: Worker)
    requires Inv(st) && w in Lookup(st, n).available
    ensures w !in Lookup(st, n).busy
  {
    var s := Lookup(st, n);
    assert ServiceInv(st.workers, n, s);
    var i :| 0 <= i < |s.available| && s.available[i] == w;
    forall j | 0 <= j < |s.busy| ensures s.busy[j] != w {
      assert (s.available + s.busy)[i] == w && (s.available + s.busy)[|s.available| + j] == s.busy[j];
    }
  }

  /**
   A client request keeps an available worker on the lists if and only if it lives, and when
   there are at least as many requests as live workers each of them becomes busy.
   */
  lemma LiveWorkersServe(st: State, client: Bytes, n: ServiceName, body: Bytes, t: Time, outcomes: seq<bool>, w: Worker)
    requires Inv(st) && w in Lookup(st, n).available
    ensures var end := Step(st, ClientRequest(client, n, body, t, outcomes)).0.services[n];
            w in end.available || w in end.busy <==> LiveListed(st, n, w, t)
    ensures var end := Step(st, ClientRequest(client, n, body, t, outcomes)).0.services[n];
            var live := Drop(Lookup(st, n).available, ExpiredWorkers(st.workers, t));
            LiveListed(st, n, w, t) && |live| <= |Lookup(st, n).requests| + 1 ==> w in end.busy
  {
    var s := Lookup(st, n);
    var live := Drop(s.available, ExpiredWorkers(st.workers, t));
    var requests := s.requests + [Request(s.totalRequests, client, n, body, t)];
    var d := Dispatch(requests, live, outcomes);
    RequestShape(st, client, n, body, t, outcomes, live);
    DispatchCounts(requests, live, outcomes);
    InParts(w, d.available, d.taken, live);
    LiveIsListed(st, n, t, w);
    NotBusy(st, n, w);
  }

  /** A new worker is listed last, with the next registration number; no other list and no queue changes. */
  lemma ReadyListsLast(st: State, id: Identity, n: ServiceName, now: Time, m: ServiceName)
    requires id !in st.workers
    ensures var (end, log) := Step(st, Ready(id, n, now));
            && log == [] && n in end.services && end.totalWorkers == st.totalWorkers + 1
            && end.services[n].available == Lookup(st, n).available + [Worker(id, st.totalWorkers, n)]
            && end.services[n].busy == Lookup(st, n).busy && end.services[n].requests == Lookup(st, n).requests
            && (m != n ==> Lookup(end, m) == Lookup(st, m))
  {}

  /**
   A worker that replies, at place `i` of the busy list, goes to the end of the available list;
   the other busy workers keep their order. One that was available stays where it was.
   */
  lemma ReplyListsLast(st: State, id: Identity, client: Bytes, body: Bytes, now: Time, i: nat, m: ServiceName)
    requires Inv(st) && id in st.workers
    ensures var w, (end, log) := st.workers[id].worker, Step(st, Reply(id, client, body, now));
            var s := Lookup(st, w.service);
            && log == [Forward(w, client, body)] && w.service in end.services
            && (i < |s.busy| && s.busy[i] == w ==>
                  && end.services[w.service].busy == s.busy[..i] + s.busy[i + 1..]
                  && end.services[w.service].available == s.available + [w])
            && (w in s.available ==>
                  end.services[w.service].available == s.available && end.services[w.service].busy == s.busy)
            && (m != w.service ==> Lookup(end, m) == Lookup(st, m))
  {
    var w := st.workers[id].worker;
    var s := Lookup(st, w.service);
    assert ServiceInv(st.workers, w.service, s);
    if i < |s.busy| && s.busy[i] == w {
      NoDupParts(s.available, s.busy);
      WithoutAt(s.busy, w, i);
      if w in s.available { NotBusy(st, w.service, w); }
    }
    if w in s.available { NotBusy(st, w.service, w); }
  }

  // ---------------------------------------------------------------- leaving for good

  /** Registration `reg` was given and is not in force. */
  ghost predicate Retired(st: State, reg: nat) {
    reg < st.totalWorkers && forall id :: id in st.workers ==> st.workers[id].worker.reg != reg
  }

  /** `id` is neither registered nor on any list. */
  ghost predicate Absent(st: State, id: Identity) {
    && id !in st.workers
    && forall n, w: Worker :: n in st.services && w.identity == id ==>
         w !in st.services[n].available && w !in st.services[n].busy
  }

  lemma UnregisteredIsAbsent(st: State, id: Identity)
    requires Inv(st) && id !in st.workers
    ensures Absent(st, id)
  {
    forall n, w: Worker | n in st.services && w.identity == id
      ensures w !in st.services[n].available && w !in st.services[n].busy
    {
      if w in st.services[n].available || w in st.services[n].busy { ListedIsMember(st, n, w); }
    }
  }

  /**
   DISCONNECT, and READY from a worker that is registered already, take the identity off the
   registry and every list; a cleanup does so to a worker whose time is over. The registration
   is retired, and READY tells the worker to disconnect.
   */
  lemma LeavingRetires(st: State, id: Identity, n: ServiceName, now: Time)
    requires Inv(st) && id in st.workers
    ensures var end := Step(st, Disconnect(id)).0; Absent(end, id) && Retired(end, st.workers[id].worker.reg)
    ensures var (end, log) := Step(st, Ready(id, n, now));
            Absent(end, id) && Retired(end, st.workers[id].worker.reg) && log == [SendDisconnect(id)]
    ensures now > st.workers[id].expiry ==>
            var end := Step(st, Cleanup(now)).0; Absent(end, id) && Retired(end, st.workers[id].worker.reg)
  {
    StepInv(st, Disconnect(id));
    StepInv(st, Ready(id, n, now));
    StepInv(st, Cleanup(now));
    UnregisteredIsAbsent(Step(st, Disconnect(id)).0, id);
    UnregisteredIsAbsent(Step(st, Ready(id, n, now)).0, id);
    if now > st.workers[id].expiry { UnregisteredIsAbsent(Step(st, Cleanup(now)).0, id); }
  }

  /** A worker that is not registered is told to disconnect, or ignored if it does; nothing changes. */
  lemma StrangerChangesNothing(st: State, id: Identity, client: Bytes, body: Bytes, now: Time)
    requires id !in st.workers
    ensures Step(st, Heartbeat(id, now)) == (st, [SendDisconnect(id)])
    ensures Step(st, Reply(id, client, body, now)) == (st, [SendDisconnect(id)])
    ensures Step(st, Disconnect(id)) == (st, [])
  {}

  /** Only client requests send to workers, only replies are forwarded, only cleanups sweep. */
  lemma ActionsOf(st: State, e: Event, a: Action)
    requires a in Step(st, e).1
    ensures a.Send? ==> e.ClientRequest?
    ensures a.Forward? ==> e.Reply? && e.identity in st.workers && a.worker == st.workers[e.identity].worker
    ensures a.Sweep? ==> e.Cleanup?
    ensures a.Arrive? ==> e.ClientRequest?
  {
    if e.ClientRequest? {
      var live := Drop(Lookup(st, e.service).available, ExpiredWorkers(st.workers, e.now));
      var r := Request(Lookup(st, e.service).totalRequests, e.client, e.service, e.body, e.now);
      RequestShape(st, e.client, e.service, e.body, e.now, e.outcomes, live);
      DispatchLogsSends(Lookup(st, e.service).requests + [r], live, e.outcomes);
    }
  }

  /** Whatever is sent or forwarded is for a worker registered at that moment. */
  lemma ActsForRegistered(st: State, e: Event, a: Action)
    requires Inv(st) && a in Step(st, e).1 && (a.Send? || a.Forward?)
    ensures a.worker.identity in st.workers && st.workers[a.worker.identity].worker == a.worker
  {
    ActionsOf(st, e, a);
    if a.Send? {
      OnlyLiveWorkersUsed(st, e.client, e.service, e.body, e.now, e.outcomes, a);
      ListedIsMember(st, e.service, a.worker);
    }
  }

  /** The action concerns registration `reg`. */
  predicate Concerns(a: Action, reg: nat) {
    (a.Send? || a.Forward?) && a.worker.reg == reg
  }

  lemma StaysRetired(st: State, e: Event, reg: nat)
    requires WorkersInv(st) && Retired(st, reg)
    ensures Retired(Step(st, e).0, reg)
  {}

  lemma StepRetired(st: State, e: Event, reg: nat)
    requires Inv(st) && Retired(st, reg)
    ensures Retired(Step(st, e).0, reg)
    ensures forall a :: a in Step(st, e).1 ==> !Concerns(a, reg)
  {
    StaysRetired(st, e, reg);
    forall a | a in Step(st, e).1 ensures !Concerns(a, reg) {
      if a.Send? || a.Forward? { ActsForRegistered(st, e, a); }
    }
  }

  /** A retired registration is never sent anything again, and nothing is forwarded for it, over every run. */
  lemma {:induction false} RetiredForGood(st: State, events: seq<Event>, reg: nat)
    requires Inv(st) && Retired(st, reg)
    ensures Inv(Run(st, events).0) && Retired(Run(st, events).0, reg)
    ensures forall a :: a in Run(st, events).1 ==> !Concerns(a, reg)
  {
    if events != [] {
      var init, e := events[..|events| - 1], events[|events| - 1];
      RetiredForGood(st, init, reg);
      StepInv(Run(st, init).0, e);
      StepRetired(Run(st, init).0, e, reg);
    }
  }

  // ---------------------------------------------------------------- the life of a request

  /**
   A cleanup keeps exactly the queued requests that are not older than the timeout, and its
   report names exactly the others, service by service.
   */
  lemma CleanupSweepsOld(st: State, now: Time, n: ServiceName, r: Request)
    ensures var (end, log) := Step(st, Cleanup(now));
            && (r in Lookup(end, n).requests <==>
                  r in Lookup(st, n).requests && now - r.created <= st.requestTimeout)
            && |log| == 1 && log[0].Sweep?
            && (n in log[0].expired && r in log[0].expired[n] <==>
                  r in Lookup(st, n).requests && now - r.created > st.requestTimeout)
  {}

  predicate OldAt(expiry: Time, timeout: Time, events: seq<Event>, i: nat, r: Request)
    requires i < |events|
  {
    events[i].Cleanup? && events[i].now - r.created > Settings(expiry, timeout, events[..i]).1
  }

  /** A cleanup among the events found the request older than the timeout then in force. */
  ghost predicate SweptWhenOld(expiry: Time, timeout: Time, events: seq<Event>, r: Request) {
    exists i :: 0 <= i < |events| && OldAt(expiry, timeout, events, i, r)
  }

  lemma SweptEarlier(expiry: Time, timeout: Time, events: seq<Event>, e: Event, r: Request)
    requires SweptWhenOld(expiry, timeout, events, r)
    ensures SweptWhenOld(expiry, timeout, events + [e], r)
  {
    var i :| 0 <= i < |events| && OldAt(expiry, timeout, events, i, r);
    assert (events + [e])[..i] == events[..i];
    assert OldAt(expiry, timeout, events + [e], i, r);
  }

  lemma {:induction false} NoSweep(b: Books, log: seq<Action>, n: ServiceName)
    requires forall a :: a in log ==> !a.Sweep?
    ensures PostAll(b, log, n).expired == b.expired
  {
    if log != [] {
      assert log[|log| - 1] in log;
      NoSweep(b, log[..|log| - 1], n);
    }
  }

  /** What one step adds to the expired requests was found too old by it. */
  lemma StepExpires(st: State, e: Event, n: ServiceName, b: Books, r: Request)
    requires Inv(st) && r in PostAll(b, Step(st, e).1, n).expired
    ensures r in b.expired || (e.Cleanup? && e.now - r.created > st.requestTimeout)
  {
    if e.Cleanup? {
      CleanupPosts(st, e.now, n, b);
    } else {
      forall a | a in Step(st, e).1 ensures !a.Sweep? { ActionsOf(st, e, a); }
      NoSweep(b, Step(st, e).1, n);
    }
  }

  /** Over every run, a request that expired was swept by a cleanup that found it too old. */
  lemma {:induction false} ExpiredWereOld(expiry: Time, timeout: Time, events: seq<Event>, n: ServiceName, r: Request)
    requires r in Ledger(Run(Initial(expiry, timeout), events).1, n).expired
    ensures SweptWhenOld(expiry, timeout, events, r)
  {
    if events != [] {
      var init, e := events[..|events| - 1], events[|events| - 1];
      var (mid, log) := Run(Initial(expiry, timeout), init);
      assert events == init + [e];
      ReachableInv(expiry, timeout, init);
      PostConcat(Books([], [], []), log, Step(mid, e).1, n);
      StepExpires(mid, e, n, Ledger(log, n), r);
      if r in Ledger(log, n).expired {
        ExpiredWereOld(expiry, timeout, init, n, r);
        SweptEarlier(expiry, timeout, init, e, r);
      } else {
        SettingsInForce(expiry, timeout, init);
        assert OldAt(expiry, timeout, events, |init|, r);
      }
    }
  }

  // ---------------------------------------------------------------- what arrived

  /** The requests the client events ask of service `n`, numbered as they come. */
  function Asked(events: seq<Event>, n: ServiceName): (rs: seq<Request>) {
    if events == [] then []
    else
      var rs, e := Asked(events[..|events| - 1], n), events[|events| - 1];
      if e.ClientRequest? && e.service == n then rs + [Request(|rs|, e.client, n, e.body, e.now)] else rs
  }

  /** A dispatch and the handling of a worker's message book no arrival. */
  lemma {:induction false} NoArrival(b: Books, log: seq<Action>, n: ServiceName)
    requires forall a :: a in log ==> !a.Arrive?
    ensures PostAll(b, log, n).arrived == b.arrived
  {
    if log != [] {
      assert log[|log| - 1] in log;
      NoArrival(b, log[..|log| - 1], n);
    }
  }

  lemma StepArrives(st: State, e: Event, n: ServiceName, b: Books)
    requires Inv(st)
    ensures PostAll(b, Step(st, e).1, n).arrived
         == b.arrived + if e.ClientRequest? && e.service == n
                        then [Request(Lookup(st, n).totalRequests, e.client, n, e.body, e.now)] else []
  {
    if e.ClientRequest? {
      var live := Drop(Lookup(st, e.service).available, ExpiredWorkers(st.workers, e.now));
      var r := Request(Lookup(st, e.service).totalRequests, e.client, e.service, e.body, e.now);
      RequestShape(st, e.client, e.service, e.body, e.now, e.outcomes, live);
      var log := Dispatch(Lookup(st, e.service).requests + [r], live, e.outcomes).log;
      DispatchLogsSends(Lookup(st, e.service).requests + [r], live, e.outcomes);
      PostOne(b, Arrive(r), log, n);
      NoArrival(Post(b, Arrive(r), n), log, n);
    } else {
      NoArrival(b, Step(st, e).1, n);
    }
  }

  /** Over every run, what a service booked as arrived is exactly what the clients asked of it, in order. */
  lemma {:induction false} ArrivedAsAsked(expiry: Time, timeout: Time, events: seq<Event>, n: ServiceName)
    ensures Ledger(Run(Initial(expiry, timeout), events).1, n).arrived == Asked(events, n)
  {
    if events != [] {
      var init, e := events[..|events| - 1], events[|events| - 1];
      var (mid, log) := Run(Initial(expiry, timeout), init);
      ReachableInv(expiry, timeout, init);
      RunBalances(expiry, timeout, init, n);
      PostConcat(Books([], [], []), log, Step(mid, e).1, n);
      StepArrives(mid, e, n, Ledger(log, n));
      ArrivedAsAsked(expiry, timeout, init, n);
    }
  }
}

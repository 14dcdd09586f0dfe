/** The registry invariant holds in every reachable state of the broker. */
module BrokerInvariant {
  import opened Bytes
  import opened Sequences
  import opened BrokerModel
  import opened BrokerDispatch

  lemma PutService(st: State, n: ServiceName, s: Service)
    requires Inv(st) && ServiceInv(st.workers, n, s)
    ensures Inv(st.(services := st.services[n := s]))
  {
  }

  /** A shorter pair of lists, counted, of the same or still registered workers. */
  lemma FewerWorkers(
    before: map<Identity, Entry>, after: map<Identity, Entry>, n: ServiceName,
    a: seq<Worker>, b: seq<Worker>, a': seq<Worker>, b': seq<Worker>)
    requires ListsInv(before, n, a, b)
    requires multiset(a') + multiset(b') <= multiset(a) + multiset(b)
    requires forall w :: w in a' || w in b' ==> (Member(before, n, w) ==> Member(after, n, w))
    ensures ListsInv(after, n, a', b')
  {
    assert multiset(a' + b') <= multiset(a + b);
    NoDupSubMultiset(a + b, a' + b');
    forall w | w in a' || w in b' ensures Member(after, n, w) {
      assert w in multiset(a') + multiset(b');
      assert w in multiset(a) + multiset(b);
    }
  }

  lemma OneMoreAvailable(workers: map<Identity, Entry>, n: ServiceName, a: seq<Worker>, b: seq<Worker>, w: Worker)
    requires ListsInv(workers, n, a, b) && Member(workers, n, w) && w !in a && w !in b
    ensures ListsInv(workers, n, a + [w], b)
  {
    assert NoDup((a + b) + [w]);
    assert multiset((a + [w]) + b) == multiset((a + b) + [w]);
    NoDupSameMultiset((a + b) + [w], (a + [w]) + b);
  }

  lemma WithoutNoDup(s: seq<Worker>, w: Worker)
    requires NoDup(s)
    ensures w !in Without(s, w)
  {
    NoDupCounts(s);
    WithoutMultiset(s, w);
    assert multiset(Without(s, w))[w] == 0;
  }

  lemma ServingWithout(workers: map<Identity, Entry>, id: Identity, n: ServiceName)
    requires id in workers
    ensures |Serving(workers - {id}, n)|
         == |Serving(workers, n)| - if n == workers[id].worker.service then 1 else 0
  {
    var before, after := Serving(workers, n), Serving(workers - {id}, n);
    if n == workers[id].worker.service {
      assert before == after + {id};
    } else {
      assert before == after;
    }
  }

  lemma NoDupParts<T(!new)>(a: seq<T>, b: seq<T>)
    requires NoDup(a + b)
    ensures NoDup(a) && NoDup(b)
  {
    assert forall i :: 0 <= i < |a| ==> a[i] == (a + b)[i];
    assert forall i :: 0 <= i < |b| ==> b[i] == (a + b)[|a| + i];
  }

  lemma {:induction false} ListsWithout(workers: map<Identity, Entry>, n: ServiceName, a: seq<Worker>, b: seq<Worker>, w: Worker)
    requires ListsInv(workers, n, a, b) && Member(workers, n, w)
    ensures ListsInv(workers - {w.identity}, n, Without(a, w), Without(b, w))
  {
    NoDupParts(a, b);
    WithoutNoDup(a, w);
    WithoutNoDup(b, w);
    WithoutMultiset(a, w);
    WithoutMultiset(b, w);
    FewerWorkers(workers, workers - {w.identity}, n, a, b, Without(a, w), Without(b, w));
  }

  lemma UnregisteredService(st: State, w: Worker, n: ServiceName)
    requires Inv(st) && n in st.services && Member(st.workers, w.service, w)
    ensures ServiceInv(st.workers - {w.identity}, n, Unregister(st, w).services[n])
  {
    var s := st.services[n];
    assert ServiceInv(st.workers, n, s);
    ServingWithout(st.workers, w.identity, n);
    if n == w.service {
      ListsWithout(st.workers, n, s.available, s.busy, w);
    } else {
      FewerWorkers(st.workers, st.workers - {w.identity}, n, s.available, s.busy, s.available, s.busy);
    }
  }

  lemma UnregisterInv(st: State, w: Worker)
    requires Inv(st) && Member(st.workers, w.service, w)
    ensures Inv(Unregister(st, w))
  {
    var end := Unregister(st, w);
    assert WorkersInv(end);
    forall n | n in end.services ensures ServiceInv(end.workers, n, end.services[n]) {
      UnregisteredService(st, w, n);
    }
  }

  lemma OtherService(st: State, w: Worker, expiry: Time, n: ServiceName, s: Service)
    requires w.identity !in st.workers && n != w.service && ServiceInv(st.workers, n, s)
    ensures ServiceInv(st.workers[w.identity := Entry(w, expiry)], n, s)
  {
    var ws := st.workers[w.identity := Entry(w, expiry)];
    assert Serving(ws, n) == Serving(st.workers, n);
    FewerWorkers(st.workers, ws, n, s.available, s.busy, s.available, s.busy);
  }

  lemma JoinedService(st: State, w: Worker, expiry: Time, s: Service)
    requires w.identity !in st.workers && ServiceInv(st.workers, w.service, s)
    ensures ServiceInv(st.workers[w.identity := Entry(w, expiry)], w.service,
                       s.(available := s.available + [w], activeWorkers := s.activeWorkers + 1))
  {
    var ws := st.workers[w.identity := Entry(w, expiry)];
    assert Serving(ws, w.service) == Serving(st.workers, w.service) + {w.identity};
    FewerWorkers(st.workers, ws, w.service, s.available, s.busy, s.available, s.busy);
    assert !Member(st.workers, w.service, w);
    OneMoreAvailable(ws, w.service, s.available, s.busy, w);
  }

  lemma NewServiceInv(st: State, n: ServiceName)
    requires Inv(st)
    ensures ServiceInv(st.workers, n, Lookup(st, n))
  {
    if n !in st.services { assert Serving(st.workers, n) == {}; }
  }

  lemma RegisterInv(st: State, id: Identity, n: ServiceName, now: Time)
    requires Inv(st) && id !in st.workers
    ensures Inv(ReadyStep(st, id, n, now).0)
  {
    var end := ReadyStep(st, id, n, now).0;
    var w := Worker(id, st.totalWorkers, n);
    assert WorkersInv(end);
    forall m | m in end.services ensures ServiceInv(end.workers, m, end.services[m]) {
      NewServiceInv(st, m);
      if m == n {
        JoinedService(st, w, now + st.heartbeatExpiry, Lookup(st, n));
      } else {
        OtherService(st, w, now + st.heartbeatExpiry, m, st.services[m]);
      }
    }
  }

  lemma RefreshedService(workers: map<Identity, Entry>, id: Identity, expiry: Time, n: ServiceName, s: Service)
    requires id in workers && ServiceInv(workers, n, s)
    ensures ServiceInv(workers[id := workers[id].(expiry := expiry)], n, s)
  {
    var ws := workers[id := workers[id].(expiry := expiry)];
    assert Serving(ws, n) == Serving(workers, n);
    FewerWorkers(workers, ws, n, s.available, s.busy, s.available, s.busy);
  }

  /** Refreshing an expiry leaves everything the invariant speaks of as it was. */
  lemma RefreshInv(st: State, id: Identity, expiry: Time)
    requires Inv(st) && id in st.workers
    ensures Inv(Refreshed(st, id, expiry))
  {
    var end := Refreshed(st, id, expiry);
    assert WorkersInv(end);
    forall n | n in end.services ensures ServiceInv(end.workers, n, end.services[n]) {
      RefreshedService(st.workers, id, expiry, n, st.services[n]);
    }
  }

  lemma MoveToAvailableInv(workers: map<Identity, Entry>, n: ServiceName, s: Service, w: Worker)
    requires ServiceInv(workers, n, s) && Member(workers, n, w)
    ensures ServiceInv(workers, n, MoveToAvailable(s, w))
  {
    NoDupParts(s.available, s.busy);
    var b := Without(s.busy, w);
    WithoutNoDup(s.busy, w);
    WithoutMultiset(s.busy, w);
    FewerWorkers(workers, workers, n, s.available, s.busy, s.available, b);
    if w !in s.available { OneMoreAvailable(workers, n, s.available, b, w); }
  }

  lemma ReplyIs(st: State, id: Identity, client: Bytes, body: Bytes, now: Time)
    requires id in st.workers
    ensures ReplyStep(st, id, client, body, now).0
         == Relisted(Refreshed(st, id, now + st.heartbeatExpiry), st.workers[id].worker)
  {}

  lemma RelistInv(st: State, w: Worker)
    requires Inv(st) && w.service in st.services && Member(st.workers, w.service, w)
    ensures Inv(Relisted(st, w))
  {
    assert ServiceInv(st.workers, w.service, st.services[w.service]);
    MoveToAvailableInv(st.workers, w.service, st.services[w.service], w);
    PutService(st, w.service, MoveToAvailable(st.services[w.service], w));
  }

  lemma RefreshedRelistInv(st: State, id: Identity, expiry: Time, end: State)
    requires Inv(st) && id in st.workers && end == Relisted(Refreshed(st, id, expiry), st.workers[id].worker)
    ensures Inv(end)
  {
    var mid, w := Refreshed(st, id, expiry), st.workers[id].worker;
    assert w.service in mid.services && Member(mid.workers, w.service, w);
    RefreshInv(st, id, expiry);
    RelistInv(mid, w);
  }

  lemma ReplyInv(st: State, id: Identity, client: Bytes, body: Bytes, now: Time)
    requires Inv(st) && id in st.workers
    ensures Inv(ReplyStep(st, id, client, body, now).0)
  {
    ReplyIs(st, id, client, body, now);
    RefreshedRelistInv(st, id, now + st.heartbeatExpiry, ReplyStep(st, id, client, body, now).0);
  }

  lemma HeartbeatInv(st: State, id: Identity, now: Time)
    requires Inv(st)
    ensures Inv(HeartbeatStep(st, id, now).0)
  {
    if id in st.workers { RefreshInv(st, id, now + st.heartbeatExpiry); }
  }

  /** A dispatch only moves live available workers to the busy list. */
  lemma DispatchServiceInv(
    workers: map<Identity, Entry>, n: ServiceName, s: Service, dead: set<Worker>, outcomes: seq<bool>)
    requires ServiceInv(workers, n, s)
    ensures ServiceInv(workers, n, DispatchService(s, dead, outcomes).0)
  {
    var live := Drop(s.available, dead);
    var d := Dispatch(s.requests, live, outcomes);
    DispatchCounts(s.requests, live, outcomes);
    FewerWorkers(workers, workers, n, s.available, s.busy, d.available, s.busy + d.taken);
  }

  lemma ClientInv(st: State, client: Bytes, n: ServiceName, body: Bytes, now: Time, outcomes: seq<bool>)
    requires Inv(st)
    ensures Inv(ClientStep(st, client, n, body, now, outcomes).0)
  {
    var s := Lookup(st, n);
    NewServiceInv(st, n);
    var r := Request(s.totalRequests, client, n, body, now);
    var queued := s.(requests := s.requests + [r], totalRequests := s.totalRequests + 1);
    assert ServiceInv(st.workers, n, queued);
    DispatchServiceInv(st.workers, n, queued, ExpiredWorkers(st.workers, now), outcomes);
    PutService(st, n, DispatchService(queued, ExpiredWorkers(st.workers, now), outcomes).0);
  }

  lemma {:induction false} SetOfImages(ids: set<Identity>, workers: map<Identity, Entry>)
    requires forall id :: id in ids ==> id in workers && workers[id].worker.identity == id
    ensures |set id | id in ids :: workers[id].worker| == |ids|
  {
    var image := set id | id in ids :: workers[id].worker;
    if ids != {} {
      var id :| id in ids;
      SetOfImages(ids - {id}, workers);
      assert image == (set i | i in ids - {id} :: workers[i].worker) + {workers[id].worker};
    }
  }

  lemma ExpiredImages(st: State, ids: set<Identity>, n: ServiceName, now: Time)
    requires WorkersInv(st)
    requires ids == set id | id in Serving(st.workers, n) && now > st.workers[id].expiry
    ensures (set id | id in ids :: st.workers[id].worker) == OfService(ExpiredWorkers(st.workers, now), n)
  {
    var image := set id | id in ids :: st.workers[id].worker;
    var dead := OfService(ExpiredWorkers(st.workers, now), n);
    forall w | w in dead ensures w in image {
      assert w.identity in ids;
    }
  }

  lemma ServingAfterSweep(st: State, n: ServiceName, now: Time)
    requires WorkersInv(st)
    ensures |Serving(CleanupStep(st, now).0.workers, n)|
         == |Serving(st.workers, n)| - |OfService(ExpiredWorkers(st.workers, now), n)|
  {
    var ids := set id | id in Serving(st.workers, n) && now > st.workers[id].expiry;
    SetOfImages(ids, st.workers);
    ExpiredImages(st, ids, n, now);
    assert Serving(CleanupStep(st, now).0.workers, n) == Serving(st.workers, n) - ids;
  }

  lemma CleanupInv(st: State, now: Time)
    requires Inv(st)
    ensures Inv(CleanupStep(st, now).0)
  {
    var end := CleanupStep(st, now).0;
    var dead := ExpiredWorkers(st.workers, now);
    assert WorkersInv(end);
    forall n | n in end.services ensures ServiceInv(end.workers, n, end.services[n]) {
      var s := st.services[n];
      ServingAfterSweep(st, n, now);
      FewerWorkers(st.workers, end.workers, n, s.available, s.busy, Drop(s.available, dead), Drop(s.busy, dead));
    }
  }

  lemma WorkerStepInv(st: State, e: Event)
    requires Inv(st) && (e.Ready? || e.Disconnect?)
    ensures Inv(Step(st, e).0)
  {
    if e.identity in st.workers {
      UnregisterInv(st, st.workers[e.identity].worker);
    } else if e.Ready? {
      RegisterInv(st, e.identity, e.service, e.now);
    }
  }

  lemma ReplyStepInv(st: State, e: Event)
    requires Inv(st) && e.Reply?
    ensures Inv(Step(st, e).0)
  {
    if e.identity in st.workers { ReplyInv(st, e.identity, e.client, e.body, e.now); }
  }

  lemma HeartbeatStepInv(st: State, e: Event)
    requires Inv(st) && e.Heartbeat?
    ensures Inv(Step(st, e).0)
  {
    HeartbeatInv(st, e.identity, e.now);
  }

  /** Every step keeps the registry invariant. */
  lemma StepInv(st: State, e: Event)
    requires Inv(st)
    ensures Inv(Step(st, e).0)
  {
    match e
    case Ready(_, _, _) => WorkerStepInv(st, e);
    case Disconnect(_) => WorkerStepInv(st, e);
    case Reply(_, _, _, _) => ReplyStepInv(st, e);
    case Heartbeat(_, _) => HeartbeatStepInv(st, e);
    case ClientRequest(client, n, body, now, outcomes) => ClientInv(st, client, n, body, now, outcomes);
    case Cleanup(now) => CleanupInv(st, now);
    case Configure(_, _) =>
  }

  /** The registry invariant holds after every run of the broker. */
  lemma {:induction false} ReachableInv(expiry: Time, timeout: Time, events: seq<Event>)
    ensures Inv(Run(Initial(expiry, timeout), events).0)
  {
    if events != [] {
      ReachableInv(expiry, timeout, events[..|events| - 1]);
      StepInv(Run(Initial(expiry, timeout), events[..|events| - 1]).0, events[|events| - 1]);
    }
  }
}

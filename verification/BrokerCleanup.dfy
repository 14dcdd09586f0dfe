/** Cleaning up worker by worker and service by service amounts to one sweep. */
module BrokerCleanup {
  import opened Sequences
  import opened BrokerModel
  import opened BrokerInvariant

  function ServiceWithout(s: Service, n: ServiceName, gone: set<Worker>): Service {
    s.(available := Drop(s.available, gone), busy := Drop(s.busy, gone),
       activeWorkers := s.activeWorkers - |OfService(gone, n)|)
  }

  /** `st` with the workers in `gone` unregistered. */
  function WithoutWorkers(st: State, gone: set<Worker>): State {
    st.(workers := map id | id in st.workers && st.workers[id].worker !in gone :: st.workers[id],
        services := map n | n in st.services :: ServiceWithout(st.services[n], n, gone))
  }

  lemma NobodyGone(st: State)
    ensures WithoutWorkers(st, {}) == st
  {
    forall n | n in st.services ensures ServiceWithout(st.services[n], n, {}) == st.services[n] {
      DropNothing(st.services[n].available, {});
      DropNothing(st.services[n].busy, {});
      assert OfService({}, n) == {};
    }
    assert WithoutWorkers(st, {}).services == st.services;
    assert WithoutWorkers(st, {}).workers == st.workers;
  }

  lemma HomeServiceNext(s: Service, n: ServiceName, gone: set<Worker>, w: Worker)
    requires NoDup(s.available + s.busy) && w !in gone && w.service == n
    ensures RemoveWorker(ServiceWithout(s, n, gone), w) == ServiceWithout(s, n, gone + {w})
  {
    NoDupParts(s.available, s.busy);
    DropOneMore(s.available, gone, w);
    DropOneMore(s.busy, gone, w);
    assert OfService(gone + {w}, n) == OfService(gone, n) + {w};
  }

  lemma OtherServiceNext(s: Service, n: ServiceName, gone: set<Worker>, w: Worker)
    requires w !in s.available && w !in s.busy && w.service != n
    ensures ServiceWithout(s, n, gone) == ServiceWithout(s, n, gone + {w})
  {
    DropIrrelevant(s.available, gone, w);
    DropIrrelevant(s.busy, gone, w);
    assert OfService(gone + {w}, n) == OfService(gone, n);
  }

  /** Taking `w` out as well sweeps one more worker from this service. */
  ghost predicate Next(s: Service, n: ServiceName, gone: set<Worker>, w: Worker) {
    ServiceWithout(s, n, gone + {w})
      == if n == w.service then RemoveWorker(ServiceWithout(s, n, gone), w) else ServiceWithout(s, n, gone)
  }

  lemma ServiceNext(st: State, gone: set<Worker>, w: Worker, n: ServiceName)
    requires Inv(st) && n in st.services && w !in gone
    ensures Next(st.services[n], n, gone, w)
  {
    var s := st.services[n];
    assert ServiceInv(st.workers, n, s);
    if n == w.service {
      HomeServiceNext(s, n, gone, w);
    } else {
      assert !Member(st.workers, n, w);
      OtherServiceNext(s, n, gone, w);
    }
  }

  lemma ServicesNext(a: map<ServiceName, Service>, b: map<ServiceName, Service>, w: Worker)
    requires a.Keys == b.Keys && w.service in a
    requires forall n :: n in a ==> b[n] == if n == w.service then RemoveWorker(a[n], w) else a[n]
    ensures a[w.service := RemoveWorker(a[w.service], w)] == b
  {
  }

  lemma WorkersNext(st: State, gone: set<Worker>, w: Worker)
    requires forall id :: id in st.workers ==> (st.workers[id].worker == w <==> id == w.identity)
    ensures Unregister(WithoutWorkers(st, gone), w).workers == WithoutWorkers(st, gone + {w}).workers
  {
    assert forall id :: id in st.workers ==>
      (st.workers[id].worker !in gone + {w} <==> st.workers[id].worker !in gone && id != w.identity);
  }

  /** Unregistering one more worker is sweeping one more worker. */
  lemma OneMoreGone(st: State, gone: set<Worker>, w: Worker)
    requires Inv(st) && Member(st.workers, w.service, w) && w !in gone
    ensures Unregister(WithoutWorkers(st, gone), w) == WithoutWorkers(st, gone + {w})
  {
    var a, b := WithoutWorkers(st, gone), WithoutWorkers(st, gone + {w});
    forall n | n in a.services
      ensures b.services[n] == if n == w.service then RemoveWorker(a.services[n], w) else a.services[n]
    {
      ServiceNext(st, gone, w, n);
    }
    ServicesNext(a.services, b.services, w);
    WorkersNext(st, gone, w);
  }

  function RequestsSwept(s: Service, now: Time, ttl: Time): Service {
    s.(requests := Drop(s.requests, ExpiredRequests(s.requests, now, ttl)))
  }

  /** `services` with the expired requests of the services in `done` removed. */
  function PartSwept(services: map<ServiceName, Service>, done: set<ServiceName>, now: Time, ttl: Time)
    : map<ServiceName, Service>
  {
    map n | n in services :: if n in done then RequestsSwept(services[n], now, ttl) else services[n]
  }

  function Expiries(services: map<ServiceName, Service>, done: set<ServiceName>, now: Time, ttl: Time)
    : map<ServiceName, seq<Request>>
  {
    map n | n in services && n in done ::
      Pick(services[n].requests, ExpiredRequests(services[n].requests, now, ttl))
  }

  lemma NothingSwept(services: map<ServiceName, Service>, now: Time, ttl: Time)
    ensures PartSwept(services, {}, now, ttl) == services
    ensures Expiries(services, {}, now, ttl) == map[]
  {
  }

  /** Sweeping one more queue. */
  lemma SweptNext(services: map<ServiceName, Service>, done: set<ServiceName>, n: ServiceName, now: Time, ttl: Time)
    requires n in services && n !in done
    ensures PartSwept(services, done, now, ttl)[n] == services[n]
    ensures PartSwept(services, done + {n}, now, ttl)
         == PartSwept(services, done, now, ttl)[n := RequestsSwept(services[n], now, ttl)]
    ensures Expiries(services, done + {n}, now, ttl)
         == Expiries(services, done, now, ttl)[
              n := Pick(services[n].requests, ExpiredRequests(services[n].requests, now, ttl))]
  {
  }

  lemma ExpiredByIdentity(st: State, now: Time, id: Identity)
    requires WorkersInv(st) && id in st.workers
    ensures st.workers[id].worker in ExpiredWorkers(st.workers, now) <==> now > st.workers[id].expiry
  {
  }

  lemma CleanupWorkers(st: State, now: Time)
    requires WorkersInv(st)
    ensures CleanupStep(st, now).0.workers == WithoutWorkers(st, ExpiredWorkers(st.workers, now)).workers
  {
    forall id | id in st.workers
      ensures st.workers[id].worker in ExpiredWorkers(st.workers, now) <==> now > st.workers[id].expiry
    {
      ExpiredByIdentity(st, now, id);
    }
  }

  lemma SweptInTwo(st: State, n: ServiceName, now: Time)
    requires n in st.services
    ensures var s := ServiceWithout(st.services[n], n, ExpiredWorkers(st.workers, now));
            Swept(st, n, now) == RequestsSwept(s, now, st.requestTimeout)
  {
  }

  lemma MapsEqual<K, V>(a: map<K, V>, b: map<K, V>)
    requires a.Keys == b.Keys && forall k :: k in a ==> a[k] == b[k]
    ensures a == b
  {
  }

  lemma CleanupServices(st: State, now: Time)
    ensures var mid := WithoutWorkers(st, ExpiredWorkers(st.workers, now)).services;
            CleanupStep(st, now).0.services == PartSwept(mid, mid.Keys, now, st.requestTimeout)
  {
    var mid := WithoutWorkers(st, ExpiredWorkers(st.workers, now)).services;
    var a, b := CleanupStep(st, now).0.services, PartSwept(mid, mid.Keys, now, st.requestTimeout);
    forall n | n in st.services ensures a[n] == b[n] { SweptInTwo(st, n, now); }
    MapsEqual(a, b);
  }

  lemma CleanupLog(st: State, now: Time)
    ensures var mid := WithoutWorkers(st, ExpiredWorkers(st.workers, now)).services;
            CleanupStep(st, now).1 == [Sweep(Expiries(mid, mid.Keys, now, st.requestTimeout))]
  {
    var mid := WithoutWorkers(st, ExpiredWorkers(st.workers, now)).services;
    var swept, listed := CleanupStep(st, now).1[0].expired, Expiries(mid, mid.Keys, now, st.requestTimeout);
    assert swept.Keys == st.services.Keys && listed.Keys == mid.Keys;
    forall n | n in swept ensures swept[n] == listed[n] {
      assert mid[n].requests == st.services[n].requests;
    }
    MapsEqual(swept, listed);
  }

  /** Sweeping the expired workers and then the requests of every service is the cleanup step. */
  lemma CleanupInTwo(st: State, now: Time)
    requires WorkersInv(st)
    ensures var mid := WithoutWorkers(st, ExpiredWorkers(st.workers, now));
            CleanupStep(st, now)
              == (mid.(services := PartSwept(mid.services, mid.services.Keys, now, st.requestTimeout)),
                  [Sweep(Expiries(mid.services, mid.services.Keys, now, st.requestTimeout))])
  {
    CleanupWorkers(st, now);
    CleanupServices(st, now);
    CleanupLog(st, now);
  }
}

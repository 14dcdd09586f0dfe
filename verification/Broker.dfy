/**
 The Majordomo broker as it is written: worker and service objects that are shared between
 the registry and the lists and updated in place. Each handler is proved against the step
 function of `BrokerModel`.
 */
module MajordomoBroker {
  import opened Bytes
  import opened Sequences
  import opened BrokerModel
  import opened BrokerDispatch
  import opened BrokerInvariant
  import opened BrokerCleanup

  class BrokerWorker {
    const identity: Identity
    const service: ServiceName
    const reg: nat
    var expiry: Time

    constructor (identity: Identity, service: ServiceName, reg: nat, expiry: Time)
      ensures this.identity == identity && this.service == service && this.reg == reg && this.expiry == expiry
    {
      this.identity, this.service, this.reg, this.expiry := identity, service, reg, expiry;
    }

    function View(): Worker {
      Worker(identity, reg, service)
    }
  }

  function Views(ws: seq<BrokerWorker>): (vs: seq<Worker>)
    ensures |vs| == |ws| && forall i :: 0 <= i < |ws| ==> vs[i] == ws[i].View()
  {
    seq(|ws|, i requires 0 <= i < |ws| => ws[i].View())
  }

  /** Within `ws`, and against `w`, equal views are equal objects. */
  ghost predicate Faithful(ws: seq<BrokerWorker>, w: BrokerWorker) {
    forall v :: v in ws && v.View() == w.View() ==> v == w
  }

  lemma {:induction false} ViewsWithout(ws: seq<BrokerWorker>, w: BrokerWorker)
    requires Faithful(ws, w)
    ensures Views(Without(ws, w)) == Without(Views(ws), w.View())
  {
    if ws != [] {
      assert Views(ws)[1..] == Views(ws[1..]);
      assert ws[0] in ws;
      ViewsWithout(ws[1..], w);
      if ws[0] != w {
        assert Views([ws[0]] + Without(ws[1..], w)) == [ws[0].View()] + Views(Without(ws[1..], w));
      }
    }
  }

  /** `w` is the object on file under its identity. */
  ghost predicate Filed(workers: map<Identity, BrokerWorker>, w: BrokerWorker) {
    w.identity in workers && workers[w.identity] == w
  }

  class Service {
    const name: ServiceName
    var requests: seq<Request>
    var available: seq<BrokerWorker>
    var busy: seq<BrokerWorker>
    var totalRequests: nat
    var activeWorkers: int

    constructor (name: ServiceName)
      ensures this.name == name && requests == [] && available == [] && busy == []
      ensures totalRequests == 0 && activeWorkers == 0
    {
      this.name := name;
      requests, available, busy, totalRequests, activeWorkers := [], [], [], 0, 0;
    }

    ghost function View(): BrokerModel.Service
      reads this
    {
      BrokerModel.Service(requests, Views(available), Views(busy), totalRequests, activeWorkers)
    }

    /** Filed under its own name, listing only registered objects. */
    ghost predicate Tidy(n: ServiceName, workers: map<Identity, BrokerWorker>)
      reads this
    {
      && name == n
      && (forall w :: w in available ==> Filed(workers, w))
      && (forall w :: w in busy ==> Filed(workers, w))
    }
  }

  /** Removes the first occurrence of `w`, as the list loops of the broker do. */
  method RemoveFirst(ws: seq<BrokerWorker>, w: BrokerWorker) returns (r: seq<BrokerWorker>)
    ensures r == Without(ws, w)
  {
    for i := 0 to |ws|
      invariant w !in ws[..i]
    {
      if ws[i] == w {
        WithoutAt(ws, w, i);
        return ws[..i] + ws[i + 1..];
      }
    }
    assert ws[..|ws|] == ws;
    return ws;
  }

  /** Moves a worker from the available to the busy list. */
  method MoveWorkerToBusy(worker: BrokerWorker, service: Service)
    modifies service`available, service`busy
    ensures service.available == Without(old(service.available), worker)
    ensures service.busy == old(service.busy) + [worker]
  {
    var available := RemoveFirst(service.available, worker);
    service.available := available;
    service.busy := service.busy + [worker];
  }

  /** Moves a worker from the busy to the available list, where it is listed at most once. */
  method MoveWorkerToAvailable(worker: BrokerWorker, service: Service)
    modifies service`available, service`busy
    ensures service.busy == Without(old(service.busy), worker)
    ensures service.available ==
              if worker in old(service.available) then old(service.available) else old(service.available) + [worker]
  {
    var busy := RemoveFirst(service.busy, worker);
    service.busy := busy;
    var listed := false;
    for i := 0 to |service.available|
      invariant listed <==> worker in service.available[..i]
    {
      if service.available[i] == worker { listed := true; }
    }
    assert service.available[..|service.available|] == service.available;
    if !listed { service.available := service.available + [worker]; }
  }

  lemma ViewsAppend(ws: seq<BrokerWorker>, w: BrokerWorker)
    ensures Views(ws + [w]) == Views(ws) + [w.View()]
  {
  }

  lemma ViewIn(ws: seq<BrokerWorker>, w: BrokerWorker)
    requires Faithful(ws, w)
    ensures w.View() in Views(ws) <==> w in ws
  {
  }

  lemma WithoutSubset(ws: seq<BrokerWorker>, w: BrokerWorker)
    ensures forall v :: v in Without(ws, w) ==> v in ws
  {
    WithoutMultiset(ws, w);
    forall v | v in Without(ws, w) ensures v in ws {
      assert v in multiset(Without(ws, w));
      assert v in multiset(ws);
    }
  }

  lemma RelistLists(available: seq<BrokerWorker>, busy: seq<BrokerWorker>, worker: BrokerWorker,
                    workers: map<Identity, BrokerWorker>)
    requires Filed(workers, worker) && Faithful(available, worker) && Faithful(busy, worker)
    requires (forall w :: w in available ==> Filed(workers, w)) && (forall w :: w in busy ==> Filed(workers, w))
    ensures forall w :: w in Without(busy, worker) ==> Filed(workers, w)
    ensures forall w :: w in available + [worker] ==> Filed(workers, w)
    ensures Views(Without(busy, worker)) == Without(Views(busy), worker.View())
    ensures Views(available + [worker]) == Views(available) + [worker.View()]
    ensures worker.View() in Views(available) <==> worker in available
  {
    ViewsWithout(busy, worker);
    ViewsAppend(available, worker);
    ViewIn(available, worker);
    WithoutSubset(busy, worker);
  }

  /** The same move, as the model sees it. */
  method RelistIn(worker: BrokerWorker, service: Service, ghost workers: map<Identity, BrokerWorker>)
    requires service.Tidy(worker.service, workers) && Filed(workers, worker)
    requires Faithful(service.available, worker) && Faithful(service.busy, worker)
    modifies service`available, service`busy
    ensures service.Tidy(worker.service, workers)
    ensures service.View() == MoveToAvailable(old(service.View()), worker.View())
  {
    ghost var available, busy := service.available, service.busy;
    RelistLists(available, busy, worker, workers);
    MoveWorkerToAvailable(worker, service);
    assert Views(service.busy) == Without(Views(busy), worker.View());
    assert Views(service.available) ==
             if worker.View() in Views(available) then Views(available) else Views(available) + [worker.View()];
  }

  ghost predicate Inside(ws: seq<BrokerWorker>, all: seq<BrokerWorker>) {
    forall w :: w in ws ==> w in all
  }

  /** One more worker looked at: it is kept exactly if it is not among the dead. */
  lemma LiveTurn(live: seq<BrokerWorker>, ws: seq<BrokerWorker>, i: nat, dead: set<Worker>)
    requires i < |ws| && Views(live) == Drop(Views(ws[..i]), dead) && Inside(live, ws)
    ensures ws[i].View() in dead ==> Views(live) == Drop(Views(ws[..i + 1]), dead)
    ensures ws[i].View() !in dead ==> Views(live + [ws[i]]) == Drop(Views(ws[..i + 1]), dead)
    ensures Inside(live + [ws[i]], ws)
  {
    var w := ws[i];
    assert ws[..i + 1] == ws[..i] + [w];
    ViewsAppend(ws[..i], w);
    ViewsAppend(live, w);
    DropAppend(Views(ws[..i]), w.View(), dead);
  }

  /** Keeps the workers that have not expired. */
  method LiveWorkers(ws: seq<BrokerWorker>, now: Time, ghost dead: set<Worker>) returns (live: seq<BrokerWorker>)
    requires forall i :: 0 <= i < |ws| ==> (now > ws[i].expiry <==> ws[i].View() in dead)
    ensures Views(live) == Drop(Views(ws), dead)
    ensures Inside(live, ws)
  {
    live := [];
    for i := 0 to |ws|
      invariant Views(live) == Drop(Views(ws[..i]), dead)
      invariant Inside(live, ws)
    {
      LiveTurn(live, ws, i, dead);
      if !(now > ws[i].expiry) { live := live + [ws[i]]; }
    }
    assert ws[..|ws|] == ws;
  }

  lemma RollbackRestores(busy: seq<BrokerWorker>, w: BrokerWorker)
    requires w !in busy
    ensures Without(busy + [w], w) == busy
  {
    assert (busy + [w])[..|busy|] == busy;
    WithoutAt(busy + [w], w, |busy|);
  }

  lemma FirstListedOnce(available: seq<BrokerWorker>, busy: seq<BrokerWorker>)
    requires available != [] && NoDup(Views(available) + Views(busy))
    ensures available[0] !in available[1..] && available[0] !in busy
  {
    var vs := Views(available) + Views(busy);
    assert forall i :: 0 <= i < |available| ==> vs[i] == available[i].View();
    assert forall i :: 0 <= i < |busy| ==> vs[|available| + i] == busy[i].View();
  }

  /** One turn of the dispatch loop: take a request and a worker, send, undo on failure. */
  method AssignOne(service: Service, ok: bool) returns (sent: Action)
    requires |service.requests| > 0 && |service.available| > 0
    requires NoDup(Views(service.available) + Views(service.busy))
    modifies service`requests, service`available, service`busy
    ensures sent == Send(old(service.available[0]).View(), old(service.requests[0]), ok)
    ensures service.requests == if ok then old(service.requests)[1..] else old(service.requests)
    ensures var w := old(service.available[0]);
            if ok then
              service.available == old(service.available)[1..] && service.busy == old(service.busy) + [w]
            else
              service.available == old(service.available)[1..] + [w] && service.busy == old(service.busy)
  {
    FirstListedOnce(service.available, service.busy);
    var request := service.requests[0];
    service.requests := service.requests[1..];
    var worker := service.available[0];
    MoveWorkerToBusy(worker, service);
    sent := Send(worker.View(), request, ok);
    if !ok {
      RollbackRestores(old(service.busy), worker);
      MoveWorkerToAvailable(worker, service);
      service.requests := [request] + service.requests;
    }
  }

  lemma ViewsAfterTurn(available: seq<BrokerWorker>, busy: seq<BrokerWorker>)
    requires available != [] && NoDup(Views(available) + Views(busy))
    ensures var w, vs := available[0], Views(available);
            && Views(available[1..]) == vs[1..]
            && Views(available[1..] + [w]) == vs[1..] + [vs[0]]
            && Views(busy + [w]) == Views(busy) + [vs[0]]
            && NoDup(Views(available[1..]) + Views(busy + [w]))
            && NoDup(Views(available[1..] + [w]) + Views(busy))
  {
    var w, vs, bs := available[0], Views(available), Views(busy);
    assert vs == [vs[0]] + vs[1..];
    assert multiset(vs[1..] + (bs + [vs[0]])) == multiset(vs + bs);
    assert multiset((vs[1..] + [vs[0]]) + bs) == multiset(vs + bs);
    NoDupSameMultiset(vs + bs, vs[1..] + (bs + [vs[0]]));
    NoDupSameMultiset(vs + bs, (vs[1..] + [vs[0]]) + bs);
    ViewsAppend(available[1..], w);
    ViewsAppend(busy, w);
  }

  /** What is dispatched in all is what has been sent so far and what the loop still sends. */
  ghost predicate Onward(d: Dispatched, e: Dispatched, before: seq<Worker>, busy: seq<Worker>, log: seq<Action>) {
    && d.requests == e.requests && d.available == e.available
    && before + d.taken == busy + e.taken && d.log == log + e.log
  }

  lemma OnwardTurn(d: Dispatched, requests: seq<Request>, available: seq<Worker>, left: seq<bool>,
                   before: seq<Worker>, busy: seq<Worker>, log: seq<Action>)
    requires requests != [] && available != []
    requires Onward(d, Dispatch(requests, available, left), before, busy, log)
    ensures var ok, later := left == [] || left[0], if left == [] then [] else left[1..];
            var log' := log + [Send(available[0], requests[0], ok)];
            if ok
            then Onward(d, Dispatch(requests[1..], available[1..], later), before, busy + [available[0]], log')
            else Onward(d, Dispatch(requests, available[1..] + [available[0]], later), before, busy, log')
  {
    var sent, reqs, ws, later := DispatchUnfold(requests, available, left);
    var e := Dispatch(reqs, ws, later);
    Assoc(log, [sent], e.log);
    if sent.ok { Assoc(busy, [available[0]], e.taken); }
  }

  /** Every worker of the first two lists is on one of the last two. */
  ghost predicate Among(a: seq<BrokerWorker>, b: seq<BrokerWorker>, c: seq<BrokerWorker>, d: seq<BrokerWorker>) {
    && (forall w :: w in a ==> w in c || w in d)
    && (forall w :: w in b ==> w in c || w in d)
  }

  lemma AmongTurn(a: seq<BrokerWorker>, b: seq<BrokerWorker>, c: seq<BrokerWorker>, d: seq<BrokerWorker>)
    requires a != [] && Among(a, b, c, d)
    ensures Among(a[1..], b + [a[0]], c, d) && Among(a[1..] + [a[0]], b, c, d)
  {
    assert a[0] in a;
  }

  /** Sends queued requests to available workers until either runs out. */
  method Assign(service: Service, outcomes: seq<bool>) returns (log: seq<Action>)
    requires NoDup(Views(service.available) + Views(service.busy))
    modifies service`requests, service`available, service`busy
    ensures var d := Dispatch(old(service.requests), old(Views(service.available)), outcomes);
            && service.requests == d.requests
            && Views(service.available) == d.available
            && Views(service.busy) == old(Views(service.busy)) + d.taken
            && log == d.log
    ensures Among(service.available, service.busy, old(service.available), old(service.busy))
  {
    ghost var d := Dispatch(service.requests, Views(service.available), outcomes);
    ghost var before := Views(service.busy);
    var left := outcomes;
    log := [];
    while |service.requests| > 0 && |service.available| > 0
      invariant NoDup(Views(service.available) + Views(service.busy))
      invariant Onward(d, Dispatch(service.requests, Views(service.available), left), before, Views(service.busy), log)
      invariant Among(service.available, service.busy, old(service.available), old(service.busy))
      decreases |left|, |service.requests|
    {
      OnwardTurn(d, service.requests, Views(service.available), left, before, Views(service.busy), log);
      ViewsAfterTurn(service.available, service.busy);
      AmongTurn(service.available, service.busy, old(service.available), old(service.busy));
      var sent := AssignOne(service, left == [] || left[0]);
      left := if left == [] then [] else left[1..];
      log := log + [sent];
    }
  }

  ghost function Entries(ws: map<Identity, BrokerWorker>): map<Identity, Entry>
    reads ws.Values
  {
    map id | id in ws :: Entry(ws[id].View(), ws[id].expiry)
  }

  ghost function ServiceViews(ss: map<ServiceName, Service>): map<ServiceName, BrokerModel.Service>
    reads ss.Values
  {
    map n | n in ss :: ss[n].View()
  }

  lemma EntriesWithout(ws: map<Identity, BrokerWorker>, id: Identity)
    ensures Entries(ws - {id}) == Entries(ws) - {id}
  {
  }

  lemma EntriesWith(ws: map<Identity, BrokerWorker>, w: BrokerWorker)
    ensures Entries(ws[w.identity := w]) == Entries(ws)[w.identity := Entry(w.View(), w.expiry)]
  {
  }

  lemma ServiceViewsWith(ss: map<ServiceName, Service>, n: ServiceName, s: Service)
    ensures ServiceViews(ss[n := s]) == ServiceViews(ss)[n := s.View()]
  {
  }

  /** Only the service filed under `n` has changed. */
  twostate lemma ServiceChanged(ss: map<ServiceName, Service>, new n: ServiceName)
    requires n in ss
    requires forall m :: m in ss && m != n ==> unchanged(ss[m])
    ensures ServiceViews(ss) == old(ServiceViews(ss))[n := ss[n].View()]
  {
  }

  ghost predicate AllTidy(ss: map<ServiceName, Service>, ws: map<Identity, BrokerWorker>)
    reads ss.Values
  {
    forall n :: n in ss ==> ss[n].Tidy(n, ws)
  }

  twostate lemma WorkersUntouched(ws: map<Identity, BrokerWorker>)
    requires forall i :: i in ws ==> unchanged(ws[i])
    ensures Entries(ws) == old(Entries(ws))
  {
  }

  /** Only the expiry of the worker filed under `id` has changed. */
  twostate lemma WorkerRefreshed(ws: map<Identity, BrokerWorker>, new id: Identity)
    requires id in ws
    requires forall i :: i in ws && i != id ==> unchanged(ws[i])
    ensures Entries(ws) == old(Entries(ws))[id := old(Entries(ws)[id]).(expiry := ws[id].expiry)]
  {
  }

  /** Splits a queue into what is still wanted and what has expired. */
  method LiveRequests(requests: seq<Request>, now: Time, ttl: Time)
    returns (live: seq<Request>, expired: seq<Request>)
    ensures live == Drop(requests, ExpiredRequests(requests, now, ttl))
    ensures expired == Pick(requests, ExpiredRequests(requests, now, ttl))
  {
    ghost var dead := ExpiredRequests(requests, now, ttl);
    live, expired := [], [];
    for i := 0 to |requests|
      invariant live == Drop(requests[..i], dead) && expired == Pick(requests[..i], dead)
    {
      assert requests[..i + 1] == requests[..i] + [requests[i]];
      DropAppend(requests[..i], requests[i], dead);
      PickAppend(requests[..i], requests[i], dead);
      if now - requests[i].created > ttl {
        expired := expired + [requests[i]];
      } else {
        live := live + [requests[i]];
      }
    }
    assert requests[..|requests|] == requests;
  }

  /** A worker that has not been swept has the registration it had. */
  lemma SurvivorEntry(st: State, gone: set<Worker>, id: Identity)
    requires Inv(st) && id in WithoutWorkers(st, gone).workers
    ensures id in st.workers && WithoutWorkers(st, gone).workers[id] == st.workers[id]
    ensures st.workers[id].worker !in gone
    ensures Member(st.workers, st.workers[id].worker.service, st.workers[id].worker)
    ensures st.workers[id].worker.identity == id
  {
  }

  ghost function ExpiredAmong(ws: map<Identity, Entry>, ids: set<Identity>, now: Time): set<Worker> {
    set id | id in ids && id in ws && now > ws[id].expiry :: ws[id].worker
  }

  lemma MoveOver<T>(done: set<T>, todo: set<T>, x: T)
    requires x in todo
    ensures (done + {x}) + (todo - {x}) == done + todo
    ensures |todo - {x}| < |todo|
  {
    assert |todo - {x}| + 1 == |todo|;
  }

  lemma ExpiredAmongAll(ws: map<Identity, Entry>, ids: set<Identity>, todo: set<Identity>, now: Time)
    requires todo == {} && ids + todo == ws.Keys
    ensures ExpiredAmong(ws, ids, now) == ExpiredWorkers(ws, now)
  {
  }

  lemma ExpiredOneMore(ws: map<Identity, Entry>, ids: set<Identity>, id: Identity, now: Time)
    requires id in ws
    ensures ExpiredAmong(ws, ids + {id}, now)
         == if now > ws[id].expiry then ExpiredAmong(ws, ids, now) + {ws[id].worker} else ExpiredAmong(ws, ids, now)
  {
  }

  lemma NoneExpired(ws: map<Identity, Entry>, now: Time)
    ensures ExpiredAmong(ws, {}, now) == {}
  {
  }

  /** Creating the service beforehand makes no difference to a registration. */
  lemma ReadyStepIs(st: State, w: Worker, now: Time, expiry: Time)
    requires w.identity !in st.workers && w.reg == st.totalWorkers && expiry == now + st.heartbeatExpiry
    ensures ReadyStep(st, w.identity, w.service, now).0
         == Enlisted(WithWorker(st.(services := st.services[w.service := Lookup(st, w.service)]), w, expiry), w)
  {
    var s' := ReadyStep(st, w.identity, w.service, now).0.services[w.service];
    assert st.services[w.service := Lookup(st, w.service)][w.service := s'] == st.services[w.service := s'];
  }

  lemma TidyGrows(ss: map<ServiceName, Service>, ws: map<Identity, BrokerWorker>, w: BrokerWorker)
    requires AllTidy(ss, ws) && w.identity !in ws
    ensures AllTidy(ss, ws[w.identity := w])
  {
    forall n | n in ss ensures ss[n].Tidy(n, ws[w.identity := w]) {
      assert ss[n].Tidy(n, ws);
    }
  }

  twostate lemma ServicesUntouched(ss: map<ServiceName, Service>)
    requires forall n :: n in ss ==> unchanged(ss[n])
    ensures ServiceViews(ss) == old(ServiceViews(ss))
  {
  }

  ghost predicate OnlyAtHome(ss: map<ServiceName, Service>, worker: BrokerWorker)
    reads ss.Values
  {
    forall n :: n in ss && n != worker.service ==> worker !in ss[n].available && worker !in ss[n].busy
  }

  lemma GoneFrom(ws: seq<BrokerWorker>, w: BrokerWorker)
    requires NoDup(Views(ws)) && Faithful(ws, w)
    ensures w !in Without(ws, w)
  {
    ViewsWithout(ws, w);
    WithoutNoDup(Views(ws), w.View());
  }

  method RemoveFromLists(service: Service, worker: BrokerWorker)
    requires Faithful(service.available, worker) && Faithful(service.busy, worker)
    modifies service
    ensures service.View() == RemoveWorker(old(service.View()), worker.View())
    ensures service.available == Without(old(service.available), worker)
    ensures service.busy == Without(old(service.busy), worker)
  {
    ViewsWithout(service.available, worker);
    ViewsWithout(service.busy, worker);
    var available := RemoveFirst(service.available, worker);
    service.available := available;
    var busy := RemoveFirst(service.busy, worker);
    service.busy := busy;
    service.activeWorkers := service.activeWorkers - 1;
  }

  lemma ReplyStepIs(st: State, w: Worker, client: Bytes, body: Bytes, now: Time, expiry: Time)
    requires Member(st.workers, w.service, w) && expiry == now + st.heartbeatExpiry
    ensures ReplyStep(st, w.identity, client, body, now)
         == (Relisted(Refreshed(st, w.identity, expiry), w), [Forward(w, client, body)])
  {
  }

  lemma QueueStepIs(st: State, r: Request, now: Time, outcomes: seq<bool>, s: BrokerModel.Service, sends: seq<Action>)
    requires var q := Lookup(st, r.service);
             (s, sends) == DispatchService(q.(requests := q.requests + [r], totalRequests := q.totalRequests + 1),
                                           ExpiredWorkers(st.workers, now), outcomes)
    ensures QueueStep(st, r, now, outcomes)
         == (st.(services := st.services[r.service := s]), [Arrive(r)] + sends)
  {
  }

  /** Creating the service beforehand makes no difference to a request. */
  lemma CreatedFirst(st: State, r: Request, now: Time, outcomes: seq<bool>)
    ensures QueueStep(st.(services := st.services[r.service := Lookup(st, r.service)]), r, now, outcomes)
         == QueueStep(st, r, now, outcomes)
  {
    var mid := st.(services := st.services[r.service := Lookup(st, r.service)]);
    var s := Lookup(st, r.service);
    var queued := s.(requests := s.requests + [r], totalRequests := s.totalRequests + 1);
    var (s', sends) := DispatchService(queued, ExpiredWorkers(st.workers, now), outcomes);
    QueueStepIs(st, r, now, outcomes, s', sends);
    QueueStepIs(mid, r, now, outcomes, s', sends);
    assert mid.services[r.service := s'] == st.services[r.service := s'];
  }

  lemma LiveNoDup(available: seq<BrokerWorker>, busy: seq<BrokerWorker>, live: seq<BrokerWorker>, dead: set<Worker>)
    requires NoDup(Views(available) + Views(busy)) && Views(live) == Drop(Views(available), dead)
    ensures NoDup(Views(live) + Views(busy))
  {
    NoDupSubMultiset(Views(available) + Views(busy), Views(live) + Views(busy));
  }

  /** Every worker on file in `after` was the one on file in `before`. */
  ghost predicate Remaining(after: map<Identity, BrokerWorker>, before: map<Identity, BrokerWorker>) {
    forall id :: id in after ==> id in before && after[id] == before[id]
  }

  class Broker {
    var services: map<ServiceName, Service>
    var workers: map<Identity, BrokerWorker>
    var totalWorkers: nat
    var heartbeatExpiry: Time
    var requestTimeout: Time

    /** Services and workers are filed under their own names, and only registered objects are listed. */
    ghost predicate Shape()
      reads this, services.Values, workers.Values
    {
      && (forall id :: id in workers ==> workers[id].identity == id)
      && AllTidy(services, workers)
    }

    /** The state of the model that this object graph stands for. */
    ghost function Abs(): State
      reads this, services.Values, workers.Values
    {
      State(Entries(workers), ServiceViews(services), totalWorkers, heartbeatExpiry, requestTimeout)
    }

    ghost predicate Valid()
      reads this, services.Values, workers.Values
    {
      Shape() && Inv(Abs())
    }

    constructor (heartbeatExpiry: Time, requestTimeout: Time)
      ensures Valid() && Abs() == Initial(heartbeatExpiry, requestTimeout)
    {
      services, workers, totalWorkers := map[], map[], 0;
      this.heartbeatExpiry, this.requestTimeout := heartbeatExpiry, requestTimeout;
    }

    method GetOrCreateService(n: ServiceName) returns (service: Service)
      requires Shape()
      modifies this`services
      ensures Shape() && n in services && service == services[n]
      ensures n in old(services) ==> services == old(services)
      ensures n !in old(services) ==> fresh(service) && services == old(services)[n := service]
      ensures fresh(services.Values - old(services.Values))
      ensures service.View() == old(Lookup(Abs(), n))
      ensures Abs() == old(Abs()).(services := old(Abs()).services[n := service.View()])
    {
      if n in services {
        service := services[n];
        assert Abs().services == Abs().services[n := service.View()];
      } else {
        service := new Service(n);
        services := services[n := service];
        ServiceViewsWith(old(services), n, service);
        ServicesUntouched(old(services));
      }
      WorkersUntouched(workers);
    }

    /** A listed worker has expired exactly when its registration has. */
    lemma ExpiredView(w: BrokerWorker, now: Time)
      requires Shape() && Filed(workers, w)
      ensures now > w.expiry <==> w.View() in ExpiredWorkers(Entries(workers), now)
    {
      assert Entries(workers)[w.identity] == Entry(w.View(), w.expiry);
    }

    /** Drops expired workers from the available list, then hands out requests. */
    method DispatchRequests(service: Service, now: Time, outcomes: seq<bool>) returns (log: seq<Action>)
      requires Shape() && service.name in services && services[service.name] == service
      requires NoDup(Views(service.available) + Views(service.busy))
      modifies service`requests, service`available, service`busy
      ensures (service.View(), log)
           == DispatchService(old(service.View()), old(ExpiredWorkers(Entries(workers), now)), outcomes)
      ensures forall w :: w in service.available || w in service.busy ==>
                w in old(service.available) || w in old(service.busy)
    {
      ghost var dead := ExpiredWorkers(Entries(workers), now);
      forall i | 0 <= i < |service.available|
        ensures now > service.available[i].expiry <==> service.available[i].View() in dead
      {
        assert Filed(workers, service.available[i]);
        ExpiredView(service.available[i], now);
      }
      var live := LiveWorkers(service.available, now, dead);
      LiveNoDup(service.available, service.busy, live, dead);
      service.available := live;
      log := Assign(service, outcomes);
    }

    twostate lemma TidyKept(new n: ServiceName)
      requires services == old(services) && workers == old(workers)
      requires old(AllTidy(services, workers)) && n in services && services[n].Tidy(n, workers)
      requires forall m :: m in services && m != n ==> old(allocated(services[m])) && unchanged(services[m])
      ensures AllTidy(services, workers)
    {
      forall m | m in services ensures services[m].Tidy(m, workers) {
        if m != n { assert old(services[m].Tidy(m, workers)); }
      }
    }

    method QueueAndDispatch(service: Service, request: Request, now: Time, outcomes: seq<bool>)
      returns (log: seq<Action>)
      requires Shape() && request.service in services && services[request.service] == service
      requires NoDup(Views(service.available) + Views(service.busy))
      modifies service
      ensures Shape()
      ensures (Abs(), log) == QueueStep(old(Abs()), request, now, outcomes)
    {
      ghost var st, n := Abs(), request.service;
      ghost var s := service.View();
      assert Lookup(st, n) == s;
      service.requests := service.requests + [request];
      service.totalRequests := service.totalRequests + 1;
      assert service.View() == s.(requests := s.requests + [request], totalRequests := s.totalRequests + 1);
      WorkersUntouched(workers);
      var sends := DispatchRequests(service, now, outcomes);
      QueueStepIs(st, request, now, outcomes, service.View(), sends);
      log := [Arrive(request)] + sends;
      WorkersUntouched(workers);
      ServiceChanged(services, n);
      TidyKept(n);
    }

    method ServeClient(client: Bytes, n: ServiceName, body: Bytes, now: Time, outcomes: seq<bool>)
      returns (log: seq<Action>)
      requires Shape() && NoDup(Lookup(Abs(), n).available + Lookup(Abs(), n).busy)
      modifies this`services, services.Values
      ensures Shape()
      ensures (Abs(), log) == ClientStep(old(Abs()), client, n, body, now, outcomes)
      ensures workers == old(workers) && fresh(services.Values - old(services.Values))
    {
      ghost var before := Abs();
      var service := GetOrCreateService(n);
      var request := Request(service.totalRequests, client, n, body, now);
      log := QueueAndDispatch(service, request, now, outcomes);
      CreatedFirst(before, request, now, outcomes);
    }

    /** A client request: queue it under its service and try to dispatch. */
    method ProcessClientRequest(client: Bytes, n: ServiceName, body: Bytes, now: Time, outcomes: seq<bool>)
      returns (log: seq<Action>)
      requires Valid()
      modifies this`services, services.Values
      ensures Valid()
      ensures (Abs(), log) == ClientStep(old(Abs()), client, n, body, now, outcomes)
      ensures workers == old(workers) && fresh(services.Values - old(services.Values))
    {
      NewServiceInv(Abs(), n);
      ClientInv(Abs(), client, n, body, now, outcomes);
      log := ServeClient(client, n, body, now, outcomes);
    }

    /** The lists name registered objects, so equal views are equal objects. */
    lemma ListsFaithful(n: ServiceName, worker: BrokerWorker)
      requires Shape() && n in services && Filed(workers, worker)
      ensures Faithful(services[n].available, worker) && Faithful(services[n].busy, worker)
    {
      forall v | v in services[n].available && v.View() == worker.View() ensures v == worker {
        assert Filed(workers, v);
      }
      forall v | v in services[n].busy && v.View() == worker.View() ensures v == worker {
        assert Filed(workers, v);
      }
    }

    /** Takes a worker out of the registry and off its service's lists. */
    method DisconnectWorker(worker: BrokerWorker)
      requires Shape() && Filed(workers, worker) && worker.service in services
      modifies this`workers, services[worker.service]
      ensures services == old(services)
      ensures workers == old(workers) - {worker.identity}
      ensures Abs() == Unregister(old(Abs()), worker.View())
      ensures services[worker.service].available == Without(old(services[worker.service].available), worker)
      ensures services[worker.service].busy == Without(old(services[worker.service].busy), worker)
    {
      var service := services[worker.service];
      ListsFaithful(worker.service, worker);
      workers := workers - {worker.identity};
      RemoveFromLists(service, worker);
      EntriesWithout(old(workers), worker.identity);
      WorkersUntouched(old(workers));
      ServiceChanged(services, worker.service);
    }

    /** A worker is listed only by the service it serves. */
    lemma ListedAtHome(n: ServiceName, w: BrokerWorker)
      requires Valid() && n in services && (w in services[n].available || w in services[n].busy)
      ensures w.service == n
    {
      var s := services[n];
      assert ServiceInv(Abs().workers, n, Abs().services[n]);
      if i :| 0 <= i < |s.available| && s.available[i] == w {
        assert Views(s.available)[i] == w.View();
        assert Member(Abs().workers, n, Views(s.available)[i]);
      } else {
        var j :| 0 <= j < |s.busy| && s.busy[j] == w;
        assert Views(s.busy)[j] == w.View();
        assert Member(Abs().workers, n, Views(s.busy)[j]);
      }
    }

    lemma HomeLists(worker: BrokerWorker)
      requires Valid() && Filed(workers, worker)
      ensures worker.service in services
      ensures var s := services[worker.service];
              && NoDup(Views(s.available) + Views(s.busy))
              && worker !in Without(s.available, worker) && worker !in Without(s.busy, worker)
    {
      assert Abs().workers[worker.identity].worker == worker.View();
      var s := services[worker.service];
      assert ServiceInv(Abs().workers, worker.service, Abs().services[worker.service]);
      NoDupParts(Views(s.available), Views(s.busy));
      ListsFaithful(worker.service, worker);
      GoneFrom(s.available, worker);
      GoneFrom(s.busy, worker);
    }

    lemma NotListedAbroad(worker: BrokerWorker)
      requires Valid()
      ensures OnlyAtHome(services, worker)
    {
      forall n | n in services && n != worker.service
        ensures worker !in services[n].available && worker !in services[n].busy
      {
        if worker in services[n].available || worker in services[n].busy { ListedAtHome(n, worker); }
      }
    }

    /** With the worker off its own lists, every list is tidy without it. */
    twostate lemma TidyWithout(worker: BrokerWorker)
      requires services == old(services) && workers == old(workers) - {worker.identity}
      requires old(AllTidy(services, workers)) && old(OnlyAtHome(services, worker)) && Filed(old(workers), worker)
      requires worker.service in services && old(allocated(services[worker.service]))
      requires forall m :: m in services && m != worker.service ==>
                 old(allocated(services[m])) && unchanged(services[m])
      requires var s := services[worker.service];
               forall w :: w in s.available || w in s.busy ==> w != worker && Filed(old(workers), w)
      ensures AllTidy(services, workers)
    {
      forall m | m in services ensures services[m].Tidy(m, workers) {
        assert old(services[m].Tidy(m, workers));
      }
    }

    /** Takes a worker out of the registry and off the lists of the one service that names it. */
    method Unlist(worker: BrokerWorker)
      requires Shape() && Filed(workers, worker) && worker.service in services && OnlyAtHome(services, worker)
      requires worker !in Without(services[worker.service].available, worker)
      requires worker !in Without(services[worker.service].busy, worker)
      modifies this`workers, services[worker.service]
      ensures Shape() && services == old(services)
      ensures workers == old(workers) - {worker.identity}
      ensures Abs() == Unregister(old(Abs()), worker.View())
    {
      ghost var s := services[worker.service];
      WithoutSubset(s.available, worker);
      WithoutSubset(s.busy, worker);
      assert s.Tidy(worker.service, workers);
      DisconnectWorker(worker);
      TidyWithout(worker);
    }

    /** Unregisters a worker, keeping everything else in order. */
    method DropWorker(worker: BrokerWorker)
      requires Valid() && Filed(workers, worker)
      modifies this`workers, services.Values
      ensures Valid() && services == old(services)
      ensures workers == old(workers) - {worker.identity}
      ensures Abs() == Unregister(old(Abs()), worker.View())
    {
      HomeLists(worker);
      NotListedAbroad(worker);
      UnregisterInv(Abs(), worker.View());
      Unlist(worker);
    }

    /** DISCONNECT from a worker. */
    method ProcessDisconnect(id: Identity) returns (log: seq<Action>)
      requires Valid()
      modifies this`workers, services.Values
      ensures Valid() && services == old(services) && Remaining(workers, old(workers))
      ensures (Abs(), log) == DisconnectStep(old(Abs()), id)
    {
      if id in workers { DropWorker(workers[id]); }
      log := [];
    }

    /** Moves the expiry of a registered worker. */
    method Refresh(worker: BrokerWorker, expiry: Time)
      requires Shape() && Filed(workers, worker)
      modifies worker
      ensures Shape()
      ensures Abs() == Refreshed(old(Abs()), worker.identity, expiry)
    {
      worker.expiry := expiry;
      WorkerRefreshed(workers, worker.identity);
      ServicesUntouched(services);
    }

    method AcceptHeartbeat(id: Identity, now: Time) returns (log: seq<Action>)
      requires Shape()
      modifies workers.Values
      ensures Shape()
      ensures (Abs(), log) == HeartbeatStep(old(Abs()), id, now)
    {
      if id in workers {
        Refresh(workers[id], now + heartbeatExpiry);
        log := [];
      } else {
        log := [SendDisconnect(id)];
      }
    }

    /** HEARTBEAT from a worker: a known one lives longer, an unknown one is sent away. */
    method ProcessHeartbeat(id: Identity, now: Time) returns (log: seq<Action>)
      requires Valid()
      modifies workers.Values
      ensures Valid()
      ensures (Abs(), log) == HeartbeatStep(old(Abs()), id, now)
    {
      HeartbeatInv(Abs(), id, now);
      log := AcceptHeartbeat(id, now);
    }

    method Relist(worker: BrokerWorker)
      requires Shape() && Filed(workers, worker) && worker.service in services
      requires Faithful(services[worker.service].available, worker)
      requires Faithful(services[worker.service].busy, worker)
      modifies services[worker.service]
      ensures Shape()
      ensures Abs() == Relisted(old(Abs()), worker.View())
    {
      RelistIn(worker, services[worker.service], workers);
      WorkersUntouched(workers);
      ServiceChanged(services, worker.service);
      TidyKept(worker.service);
    }

    method RefreshAndRelist(worker: BrokerWorker, expiry: Time)
      requires Shape() && Filed(workers, worker) && worker.service in services
      modifies worker, services[worker.service]
      ensures Shape()
      ensures Abs() == Relisted(Refreshed(old(Abs()), worker.identity, expiry), worker.View())
    {
      ListsFaithful(worker.service, worker);
      Refresh(worker, expiry);
      Relist(worker);
    }

    method AcceptReply(worker: BrokerWorker, client: Bytes, body: Bytes, now: Time) returns (log: seq<Action>)
      requires Shape() && Filed(workers, worker) && worker.service in services
      modifies worker, services[worker.service]
      ensures Shape()
      ensures (Abs(), log) == ReplyStep(old(Abs()), worker.identity, client, body, now)
    {
      var expiry := now + heartbeatExpiry;
      ReplyStepIs(Abs(), worker.View(), client, body, now, expiry);
      log := [Forward(worker.View(), client, body)];
      RefreshAndRelist(worker, expiry);
    }

    /** REPLY from a worker: forward it, and list the worker as available again. */
    method ProcessReply(id: Identity, client: Bytes, body: Bytes, now: Time) returns (log: seq<Action>)
      requires Valid()
      modifies workers.Values, services.Values
      ensures Valid()
      ensures (Abs(), log) == ReplyStep(old(Abs()), id, client, body, now)
    {
      if id in workers {
        HomeLists(workers[id]);
        ReplyInv(Abs(), id, client, body, now);
        log := AcceptReply(workers[id], client, body, now);
      } else {
        log := [SendDisconnect(id)];
      }
    }

    /** Files a worker object under its identity; nothing lists it yet. */
    method FileWorker(worker: BrokerWorker)
      requires Shape() && worker.identity !in workers
      modifies this`workers, this`totalWorkers
      ensures Shape()
      ensures workers == old(workers)[worker.identity := worker]
      ensures workers.Values <= old(workers.Values) + {worker}
      ensures Abs() == WithWorker(old(Abs()), worker.View(), worker.expiry)
    {
      TidyGrows(services, workers, worker);
      workers := workers[worker.identity := worker];
      totalWorkers := totalWorkers + 1;
      EntriesWith(old(workers), worker);
      WorkersUntouched(old(workers));
      ServicesUntouched(services);
    }

    /** Lists a filed worker of service `n` as available. */
    method Enlist(worker: BrokerWorker, service: Service)
      requires Shape() && Filed(workers, worker)
      requires worker.service in services && services[worker.service] == service
      modifies service
      ensures Shape()
      ensures Abs() == Enlisted(old(Abs()), worker.View())
    {
      ViewsAppend(service.available, worker);
      assert service.Tidy(worker.service, workers);
      service.available := service.available + [worker];
      service.activeWorkers := service.activeWorkers + 1;
      WorkersUntouched(workers);
      ServiceChanged(services, worker.service);
      TidyKept(worker.service);
    }

    method FileAndEnlist(worker: BrokerWorker, service: Service)
      requires Shape() && worker.identity !in workers
      requires worker.service in services && services[worker.service] == service
      modifies this`workers, this`totalWorkers, service
      ensures Shape()
      ensures workers.Values <= old(workers.Values) + {worker}
      ensures Abs() == Enlisted(WithWorker(old(Abs()), worker.View(), worker.expiry), worker.View())
    {
      FileWorker(worker);
      Enlist(worker, service);
    }

    method Enter(worker: BrokerWorker, now: Time)
      requires Shape() && worker.identity !in workers
      requires worker.reg == totalWorkers && worker.expiry == now + heartbeatExpiry
      modifies this`workers, this`totalWorkers, this`services, services.Values
      ensures Shape()
      ensures Abs() == ReadyStep(old(Abs()), worker.identity, worker.service, now).0
      ensures fresh(services.Values - old(services.Values))
      ensures workers.Values <= old(workers.Values) + {worker}
    {
      ReadyStepIs(Abs(), worker.View(), now, worker.expiry);
      var service := GetOrCreateService(worker.service);
      FileAndEnlist(worker, service);
    }

    method Register(id: Identity, n: ServiceName, now: Time)
      requires Shape() && id !in workers
      modifies this`workers, this`totalWorkers, this`services, services.Values
      ensures Shape()
      ensures Abs() == ReadyStep(old(Abs()), id, n, now).0
      ensures fresh(services.Values - old(services.Values))
      ensures fresh(workers.Values - old(workers.Values))
    {
      var worker := new BrokerWorker(id, n, totalWorkers, now + heartbeatExpiry);
      WorkersUntouched(workers);
      ServicesUntouched(services);
      Enter(worker, now);
    }

    method Admit(id: Identity, n: ServiceName, now: Time)
      requires Valid() && id !in workers
      modifies this, services.Values
      ensures Valid()
      ensures Abs() == ReadyStep(old(Abs()), id, n, now).0
      ensures fresh(services.Values - old(services.Values))
      ensures fresh(workers.Values - old(workers.Values))
    {
      RegisterInv(Abs(), id, n, now);
      Register(id, n, now);
    }

    /** READY from a worker: a new one is registered, a known one is disconnected. */
    method ProcessReady(id: Identity, n: ServiceName, now: Time) returns (log: seq<Action>)
      requires Valid()
      modifies this, services.Values
      ensures Valid()
      ensures (Abs(), log) == ReadyStep(old(Abs()), id, n, now)
      ensures fresh(services.Values - old(services.Values))
      ensures fresh(workers.Values - old(workers.Values))
    {
      if id in workers {
        DropWorker(workers[id]);
        log := [SendDisconnect(id)];
      } else {
        Admit(id, n, now);
        log := [];
      }
    }

    /** Unregisters one worker if it has expired, after the workers in `gone`. */
    method SweepWorker(id: Identity, now: Time, ghost st: State, ghost gone: set<Worker>)
      requires Valid() && id in workers && Inv(st)
      requires Abs() == WithoutWorkers(st, gone)
      modifies this`workers, services.Values
      ensures Valid() && services == old(services)
      ensures id in st.workers
      ensures var e := st.workers[id];
              && Abs() == WithoutWorkers(st, if now > e.expiry then gone + {e.worker} else gone)
              && workers == if now > e.expiry then old(workers) - {id} else old(workers)
    {
      SurvivorEntry(st, gone, id);
      assert Entries(workers)[id] == Entry(workers[id].View(), workers[id].expiry);
      if now > workers[id].expiry {
        OneMoreGone(st, gone, st.workers[id].worker);
        DropWorker(workers[id]);
      }
    }

    /** Between two turns of the sweep: the expired among the workers in `done` are gone from `st`. */
    ghost predicate Sweeping(todo: set<Identity>, now: Time, st: State, done: set<Identity>,
                             before: map<Identity, BrokerWorker>)
      reads this, services.Values, workers.Values
    {
      && Valid() && Remaining(workers, before)
      && todo <= workers.Keys && done + todo == st.workers.Keys
      && Abs() == WithoutWorkers(st, ExpiredAmong(st.workers, done, now))
    }

    /** Takes one worker off the list of those to look at. */
    method SweepNext(todo: set<Identity>, now: Time, ghost st: State, ghost done: set<Identity>,
                     ghost before: map<Identity, BrokerWorker>)
      returns (rest: set<Identity>, ghost more: set<Identity>)
      requires Sweeping(todo, now, st, done, before) && todo != {} && Inv(st)
      modifies this`workers, services.Values
      ensures services == old(services) && |rest| < |todo|
      ensures Sweeping(rest, now, st, more, before)
    {
      var id :| id in todo;
      rest, more := todo - {id}, done + {id};
      MoveOver(done, todo, id);
      ExpiredOneMore(st.workers, done, id, now);
      SweepWorker(id, now, st, ExpiredAmong(st.workers, done, now));
    }

    lemma SweepBegins(now: Time)
      requires Valid()
      ensures Sweeping(workers.Keys, now, Abs(), {}, workers)
    {
      NobodyGone(Abs());
      NoneExpired(Abs().workers, now);
    }

    /** Unregisters every expired worker, in whatever order the registry is walked. */
    method SweepWorkers(now: Time)
      requires Valid()
      modifies this`workers, services.Values
      ensures Valid() && services == old(services) && Remaining(workers, old(workers))
      ensures Abs() == WithoutWorkers(old(Abs()), ExpiredWorkers(old(Abs()).workers, now))
    {
      ghost var st, done := Abs(), {};
      var todo := workers.Keys;
      SweepBegins(now);
      while todo != {}
        invariant services == old(services) && Sweeping(todo, now, st, done, old(workers))
        decreases |todo|
      {
        todo, done := SweepNext(todo, now, st, done, old(workers));
      }
      ExpiredAmongAll(st.workers, done, todo, now);
    }

    /** Removes the expired requests of one service. */
    method SweepQueue(n: ServiceName, now: Time) returns (expired: seq<Request>)
      requires Shape() && n in services
      modifies services[n]
      ensures Shape()
      ensures expired == Pick(old(services[n].requests), ExpiredRequests(old(services[n].requests), now, requestTimeout))
      ensures Abs() == old(Abs()).(services := old(Abs()).services[
                n := RequestsSwept(old(Abs()).services[n], now, requestTimeout)])
    {
      var service := services[n];
      assert service.Tidy(n, workers);
      var live;
      live, expired := LiveRequests(service.requests, now, requestTimeout);
      service.requests := live;
      WorkersUntouched(workers);
      ServiceChanged(services, n);
      TidyKept(n);
    }

    /** Takes one service off the list of those to look at. */
    method SweepQueueNext(todo: set<ServiceName>, now: Time, expired: map<ServiceName, seq<Request>>,
                          ghost st: State, ghost done: set<ServiceName>)
      returns (rest: set<ServiceName>, expired': map<ServiceName, seq<Request>>, ghost more: set<ServiceName>)
      requires Shape() && todo != {} && done !! todo && done + todo == st.services.Keys
      requires services.Keys == st.services.Keys && st.requestTimeout == requestTimeout
      requires Abs() == st.(services := PartSwept(st.services, done, now, requestTimeout))
      requires expired == Expiries(st.services, done, now, requestTimeout)
      modifies services.Values
      ensures Shape() && more !! rest && more + rest == st.services.Keys && |rest| < |todo|
      ensures Abs() == st.(services := PartSwept(st.services, more, now, requestTimeout))
      ensures expired' == Expiries(st.services, more, now, requestTimeout)
    {
      var n :| n in todo;
      rest, more := todo - {n}, done + {n};
      MoveOver(done, todo, n);
      SweptNext(st.services, done, n, now, requestTimeout);
      assert services[n].View() == Abs().services[n] == st.services[n];
      var gone := SweepQueue(n, now);
      expired' := expired[n := gone];
    }

    /** Removes the expired requests of every service, in whatever order they are walked. */
    method SweepQueues(now: Time) returns (expired: map<ServiceName, seq<Request>>)
      requires Shape()
      modifies services.Values
      ensures Shape()
      ensures var ss, ttl := old(Abs()).services, requestTimeout;
              && Abs() == old(Abs()).(services := PartSwept(ss, ss.Keys, now, ttl))
              && expired == Expiries(ss, ss.Keys, now, ttl)
    {
      ghost var st, done := Abs(), {};
      var todo := services.Keys;
      expired := map[];
      NothingSwept(st.services, now, requestTimeout);
      while todo != {}
        invariant Shape() && done !! todo && done + todo == st.services.Keys
        invariant Abs() == st.(services := PartSwept(st.services, done, now, requestTimeout))
        invariant expired == Expiries(st.services, done, now, requestTimeout)
        decreases |todo|
      {
        todo, expired, done := SweepQueueNext(todo, now, expired, st, done);
      }
      assert done + todo == done;
    }

    /** The periodic cleanup: expired workers go, then expired requests. */
    method Cleanup(now: Time) returns (log: seq<Action>)
      requires Valid()
      modifies this`workers, services.Values
      ensures Valid() && services == old(services) && Remaining(workers, old(workers))
      ensures (Abs(), log) == CleanupStep(old(Abs()), now)
    {
      CleanupInTwo(Abs(), now);
      CleanupInv(Abs(), now);
      SweepWorkers(now);
      var expired := SweepQueues(now);
      log := [Sweep(expired)];
    }

    method Configured(expiry: Time, timeout: Time)
      requires Shape()
      modifies this`heartbeatExpiry, this`requestTimeout
      ensures Shape()
      ensures heartbeatExpiry == expiry && requestTimeout == timeout
      ensures Abs() == Step(old(Abs()), Configure(expiry, timeout)).0
    {
      heartbeatExpiry, requestTimeout := expiry, timeout;
      WorkersUntouched(workers);
      ServicesUntouched(services);
    }

    /** Changes how long a worker lives without a sign of life. */
    method SetHeartbeat(liveness: int, interval: Time)
      requires Valid()
      modifies this`heartbeatExpiry, this`requestTimeout
      ensures Valid() && requestTimeout == old(requestTimeout)
      ensures Abs() == Step(old(Abs()), Configure(interval * liveness, old(requestTimeout))).0
    {
      StepInv(Abs(), Configure(interval * liveness, requestTimeout));
      Configured(interval * liveness, requestTimeout);
    }

    /** Changes how long a request may wait. */
    method SetRequestTimeout(timeout: Time)
      requires Valid()
      modifies this`heartbeatExpiry, this`requestTimeout
      ensures Valid() && heartbeatExpiry == old(heartbeatExpiry)
      ensures Abs() == Step(old(Abs()), Configure(old(heartbeatExpiry), timeout)).0
    {
      StepInv(Abs(), Configure(heartbeatExpiry, timeout));
      Configured(heartbeatExpiry, timeout);
    }

    /** An event that leaves the services on file and files no new worker. */
    method HandleInPlace(e: Event) returns (log: seq<Action>)
      requires Valid() && !e.Ready? && !e.ClientRequest?
      modifies this, services.Values, workers.Values
      ensures Valid() && services == old(services) && Remaining(workers, old(workers))
      ensures (Abs(), log) == Step(old(Abs()), e)
    {
      match e
      case Reply(id, client, body, now) => log := ProcessReply(id, client, body, now);
      case Heartbeat(id, now) => log := ProcessHeartbeat(id, now);
      case Disconnect(id) => log := ProcessDisconnect(id);
      case Cleanup(now) => log := Cleanup(now);
      case Configure(expiry, timeout) =>
        SetHeartbeat(1, expiry);
        SetRequestTimeout(timeout);
        log := [];
    }

    /** Any event: the object makes exactly the model's step, and touches only its own and new objects. */
    method Handle(e: Event) returns (log: seq<Action>)
      requires Valid()
      modifies this, services.Values, workers.Values
      ensures Valid() && (Abs(), log) == Step(old(Abs()), e)
      ensures fresh(services.Values - old(services.Values)) && fresh(workers.Values - old(workers.Values))
    {
      match e
      case Ready(id, n, now) => log := ProcessReady(id, n, now);
      case ClientRequest(client, n, body, now, outcomes) =>
        log := ProcessClientRequest(client, n, body, now, outcomes);
      case _ => log := HandleInPlace(e);
    }

    /** A whole run: what the theorems over runs say of the model, they say of this object. */
    method HandleAll(events: seq<Event>) returns (log: seq<Action>)
      requires Valid()
      modifies this, services.Values, workers.Values
      ensures Valid() && (Abs(), log) == Run(old(Abs()), events)
    {
      log := [];
      for i := 0 to |events|
        invariant Valid() && (Abs(), log) == Run(old(Abs()), events[..i])
        invariant fresh(services.Values - old(services.Values)) && fresh(workers.Values - old(workers.Values))
      {
        assert events[..i + 1][..i] == events[..i];
        var more := Handle(events[i]);
        log := log + more;
      }
      assert events[..|events|] == events;
    }
  }
}

/**
 The Majordomo broker as a state machine on values.

 Every handler of the broker runs under one mutex, so a run of the broker is a sequence of
 events. `Step` is the effect of one event together with the log of what the broker did.
 A worker object is known by the immutable part of its record; `reg` numbers registrations,
 so a worker that leaves and comes back under the same identity is a different `Worker`.
 A pending request is known by its `ticket`, its arrival number within the service.
 */
module BrokerModel {
  import opened Bytes
  import opened Sequences

  type Identity = Bytes
  type ServiceName = Bytes
  type Time = int

  datatype Worker = Worker(identity: Identity, reg: nat, service: ServiceName)
  datatype Entry = Entry(worker: Worker, expiry: Time)
  datatype Request = Request(ticket: nat, client: Bytes, service: ServiceName, body: Bytes, created: Time)
  datatype Service = Service(
    requests: seq<Request>, available: seq<Worker>, busy: seq<Worker>, totalRequests: nat, activeWorkers: int)
  datatype State = State(
    workers: map<Identity, Entry>, services: map<ServiceName, Service>, totalWorkers: nat,
    heartbeatExpiry: Time, requestTimeout: Time)

  /**
   `outcomes` are the results of the successive sends to workers during a dispatch: the listed
   ones first, success ever after. So every pattern with finitely many failures is covered.
   */
  datatype Event =
    | Ready(identity: Identity, service: ServiceName, now: Time)
    | Reply(identity: Identity, client: Bytes, body: Bytes, now: Time)
    | Heartbeat(identity: Identity, now: Time)
    | Disconnect(identity: Identity)
    | ClientRequest(client: Bytes, service: ServiceName, body: Bytes, now: Time, outcomes: seq<bool>)
    | Cleanup(now: Time)
    | Configure(heartbeatExpiry: Time, requestTimeout: Time)

  /** What the broker does, as seen from outside. */
  datatype Action =
    | Arrive(request: Request)
    | Send(worker: Worker, request: Request, ok: bool)
    | Sweep(expired: map<ServiceName, seq<Request>>)
    | Forward(worker: Worker, client: Bytes, body: Bytes)
    | SendDisconnect(identity: Identity)

  const NEW_SERVICE := Service([], [], [], 0, 0)

  function Initial(heartbeatExpiry: Time, requestTimeout: Time): State {
    State(map[], map[], 0, heartbeatExpiry, requestTimeout)
  }

  function Lookup(st: State, n: ServiceName): Service {
    if n in st.services then st.services[n] else NEW_SERVICE
  }

  /** The workers whose registration has expired. */
  function ExpiredWorkers(workers: map<Identity, Entry>, now: Time): set<Worker> {
    set id | id in workers && now > workers[id].expiry :: workers[id].worker
  }

  function ExpiredRequests(requests: seq<Request>, now: Time, ttl: Time): set<Request> {
    set r | r in requests && now - r.created > ttl
  }

  function MoveToAvailable(s: Service, w: Worker): Service {
    s.(busy := Without(s.busy, w), available := if w in s.available then s.available else s.available + [w])
  }

  function RemoveWorker(s: Service, w: Worker): Service {
    s.(available := Without(s.available, w), busy := Without(s.busy, w), activeWorkers := s.activeWorkers - 1)
  }

  function Unregister(st: State, w: Worker): State {
    st.(workers := st.workers - {w.identity},
        services := if w.service in st.services
                    then st.services[w.service := RemoveWorker(st.services[w.service], w)]
                    else st.services)
  }

  datatype Dispatched = Dispatched(
    requests: seq<Request>, available: seq<Worker>, taken: seq<Worker>, log: seq<Action>)

  /**
   The dispatch loop: the first request goes to the first available worker. A successful send
   uses both up; a failed one puts the request back in front and the worker at the end.
   */
  function Dispatch(requests: seq<Request>, available: seq<Worker>, outcomes: seq<bool>): Dispatched
    decreases |outcomes|, |requests|
  {
    if requests == [] || available == [] then Dispatched(requests, available, [], []) else
    var ok := outcomes == [] || outcomes[0];
    var later := if outcomes == [] then [] else outcomes[1..];
    var sent := Send(available[0], requests[0], ok);
    if ok then
      var d := Dispatch(requests[1..], available[1..], later);
      Dispatched(d.requests, d.available, [available[0]] + d.taken, [sent] + d.log)
    else
      var d := Dispatch(requests, available[1..] + [available[0]], later);
      d.(log := [sent] + d.log)
  }

  function DispatchService(s: Service, dead: set<Worker>, outcomes: seq<bool>): (Service, seq<Action>) {
    var d := Dispatch(s.requests, Drop(s.available, dead), outcomes);
    (s.(requests := d.requests, available := d.available, busy := s.busy + d.taken), d.log)
  }

  /** Files a new worker in the registry. */
  function WithWorker(st: State, w: Worker, expiry: Time): State {
    st.(workers := st.workers[w.identity := Entry(w, expiry)], totalWorkers := st.totalWorkers + 1)
  }

  /** Lists a worker with its service as available. */
  function Enlisted(st: State, w: Worker): State {
    var s := Lookup(st, w.service);
    st.(services := st.services[w.service :=
      s.(available := s.available + [w], activeWorkers := s.activeWorkers + 1)])
  }

  function ReadyStep(st: State, id: Identity, n: ServiceName, now: Time): (State, seq<Action>) {
    if id in st.workers then (Unregister(st, st.workers[id].worker), [SendDisconnect(id)]) else
    var w := Worker(id, st.totalWorkers, n);
    (Enlisted(WithWorker(st, w, now + st.heartbeatExpiry), w), [])
  }

  function Refreshed(st: State, id: Identity, expiry: Time): State
    requires id in st.workers
  {
    st.(workers := st.workers[id := st.workers[id].(expiry := expiry)])
  }

  function Relisted(st: State, w: Worker): State {
    st.(services := st.services[w.service := MoveToAvailable(Lookup(st, w.service), w)])
  }

  function ReplyStep(st: State, id: Identity, client: Bytes, body: Bytes, now: Time): (State, seq<Action>) {
    if id !in st.workers then (st, [SendDisconnect(id)]) else
    var w := st.workers[id].worker;
    (Relisted(Refreshed(st, id, now + st.heartbeatExpiry), w), [Forward(w, client, body)])
  }

  function HeartbeatStep(st: State, id: Identity, now: Time): (State, seq<Action>) {
    if id !in st.workers then (st, [SendDisconnect(id)]) else (Refreshed(st, id, now + st.heartbeatExpiry), [])
  }

  function DisconnectStep(st: State, id: Identity): (State, seq<Action>) {
    if id in st.workers then (Unregister(st, st.workers[id].worker), []) else (st, [])
  }

  /** Queues `r` under its service and dispatches what it can. */
  function QueueStep(st: State, r: Request, now: Time, outcomes: seq<bool>): (State, seq<Action>) {
    var s := Lookup(st, r.service);
    var queued := s.(requests := s.requests + [r], totalRequests := s.totalRequests + 1);
    var (s', log) := DispatchService(queued, ExpiredWorkers(st.workers, now), outcomes);
    (st.(services := st.services[r.service := s']), [Arrive(r)] + log)
  }

  function ClientStep(st: State, client: Bytes, n: ServiceName, body: Bytes, now: Time, outcomes: seq<bool>)
    : (State, seq<Action>)
  {
    QueueStep(st, Request(Lookup(st, n).totalRequests, client, n, body, now), now, outcomes)
  }

  function OfService(ws: set<Worker>, n: ServiceName): set<Worker> {
    set w | w in ws && w.service == n
  }

  /** One service after cleanup: expired workers and expired requests are gone. */
  function Swept(st: State, n: ServiceName, now: Time): Service
    requires n in st.services
  {
    var s := st.services[n];
    var dead := ExpiredWorkers(st.workers, now);
    Service(Drop(s.requests, ExpiredRequests(s.requests, now, st.requestTimeout)),
            Drop(s.available, dead), Drop(s.busy, dead), s.totalRequests,
            s.activeWorkers - |OfService(dead, n)|)
  }

  function CleanupStep(st: State, now: Time): (State, seq<Action>) {
    (st.(workers := map id | id in st.workers && now <= st.workers[id].expiry :: st.workers[id],
         services := map n | n in st.services :: Swept(st, n, now)),
     [Sweep(map n | n in st.services ::
       Pick(st.services[n].requests, ExpiredRequests(st.services[n].requests, now, st.requestTimeout)))])
  }

  function Step(st: State, e: Event): (State, seq<Action>) {
    match e
    case Ready(id, n, now) => ReadyStep(st, id, n, now)
    case Reply(id, client, body, now) => ReplyStep(st, id, client, body, now)
    case Heartbeat(id, now) => HeartbeatStep(st, id, now)
    case Disconnect(id) => DisconnectStep(st, id)
    case ClientRequest(client, n, body, now, outcomes) => ClientStep(st, client, n, body, now, outcomes)
    case Cleanup(now) => CleanupStep(st, now)
    case Configure(expiry, timeout) => (st.(heartbeatExpiry := expiry, requestTimeout := timeout), [])
  }

  /** The state after a run from `st`, and everything the broker did on the way. */
  function Run(st: State, events: seq<Event>): (State, seq<Action>) {
    if events == [] then (st, []) else
    var (mid, log) := Run(st, events[..|events| - 1]);
    var (end, more) := Step(mid, events[|events| - 1]);
    (end, log + more)
  }

  // ---------------------------------------------------------------- the registry invariant

  /** The identities registered for service `n`. */
  function Serving(workers: map<Identity, Entry>, n: ServiceName): set<Identity> {
    set id | id in workers && workers[id].worker.service == n
  }

  /** A listed worker serves the service and is the object registered under its identity. */
  ghost predicate Member(workers: map<Identity, Entry>, n: ServiceName, w: Worker) {
    w.service == n && w.identity in workers && workers[w.identity].worker == w
  }

  ghost predicate ListsInv(
    workers: map<Identity, Entry>, n: ServiceName, available: seq<Worker>, busy: seq<Worker>)
  {
    && NoDup(available + busy)
    && (forall w :: w in available ==> Member(workers, n, w))
    && (forall w :: w in busy ==> Member(workers, n, w))
  }

  ghost predicate ServiceInv(workers: map<Identity, Entry>, n: ServiceName, s: Service) {
    && ListsInv(workers, n, s.available, s.busy)
    && s.activeWorkers == |Serving(workers, n)|
    && (forall r :: r in s.requests ==> r.service == n)
  }

  ghost predicate WorkersInv(st: State) {
    && (forall id :: id in st.workers ==>
          && st.workers[id].worker.identity == id
          && st.workers[id].worker.service in st.services
          && st.workers[id].worker.reg < st.totalWorkers)
    && (forall id, id' :: id in st.workers && id' in st.workers && id != id' ==>
          st.workers[id].worker.reg != st.workers[id'].worker.reg)
  }

  /**
   Each service's available and busy lists are duplicate-free and disjoint, list only workers
   of that service that are registered under their own identity, and the active count is the
   number of registered workers of the service.
   */
  ghost predicate Inv(st: State) {
    WorkersInv(st) && forall n :: n in st.services ==> ServiceInv(st.workers, n, st.services[n])
  }
}

/** What one dispatch does, for every queue, worker list and failure pattern. */
module BrokerDispatch {
  import opened Sequences
  import opened BrokerModel

  function SentRequest(a: Action): seq<Request> {
    if a.Send? && a.ok then [a.request] else []
  }

  function SentWorker(a: Action): seq<Worker> {
    if a.Send? && a.ok then [a.worker] else []
  }

  function Min(a: nat, b: nat): nat {
    if a <= b then a else b
  }

  lemma CollectOne<A, B>(a: A, rest: seq<A>, f: A -> seq<B>)
    ensures Collect([a] + rest, f) == f(a) + Collect(rest, f)
  {
    assert Collect([a], f) == Collect([a][..0], f) + f(a);
    CollectConcat([a], rest, f);
  }

  lemma {:induction false} DispatchCounts(requests: seq<Request>, available: seq<Worker>, outcomes: seq<bool>)
    ensures var d := Dispatch(requests, available, outcomes);
            var m := Min(|requests|, |available|);
            && d.requests == requests[m..]
            && |d.taken| == m
            && |d.available| == |available| - m
            && multiset(d.available) + multiset(d.taken) == multiset(available)
    decreases |outcomes|, |requests|
  {
    if requests != [] && available != [] {
      var later := if outcomes == [] then [] else outcomes[1..];
      var w := available[0];
      assert available == [w] + available[1..];
      if outcomes == [] || outcomes[0] {
        DispatchCounts(requests[1..], available[1..], later);
      } else {
        DispatchCounts(requests, available[1..] + [w], later);
      }
    }
  }

  /** One turn of the loop: the first send, and the dispatch of what is left. */
  lemma DispatchUnfold(requests: seq<Request>, available: seq<Worker>, outcomes: seq<bool>)
    returns (sent: Action, reqs: seq<Request>, ws: seq<Worker>, later: seq<bool>)
    requires requests != [] && available != []
    ensures sent == Send(available[0], requests[0], outcomes == [] || outcomes[0])
    ensures later == if outcomes == [] then [] else outcomes[1..]
    ensures sent.ok ==> reqs == requests[1..] && ws == available[1..]
    ensures !sent.ok ==> reqs == requests && ws == available[1..] + [available[0]]
    ensures var d, e := Dispatch(requests, available, outcomes), Dispatch(reqs, ws, later);
            && d.log == [sent] + e.log && d.taken == SentWorker(sent) + e.taken
            && d.requests == e.requests && d.available == e.available
  {
    sent := Send(available[0], requests[0], outcomes == [] || outcomes[0]);
    later := if outcomes == [] then [] else outcomes[1..];
    reqs := if sent.ok then requests[1..] else requests;
    ws := if sent.ok then available[1..] else available[1..] + [available[0]];
  }

  lemma {:induction false} DispatchSentRequests(requests: seq<Request>, available: seq<Worker>, outcomes: seq<bool>)
    ensures Collect(Dispatch(requests, available, outcomes).log, SentRequest)
         == requests[..Min(|requests|, |available|)]
    decreases |outcomes|, |requests|
  {
    if requests != [] && available != [] {
      var sent, reqs, ws, later := DispatchUnfold(requests, available, outcomes);
      DispatchSentRequests(reqs, ws, later);
      CollectOne(sent, Dispatch(reqs, ws, later).log, SentRequest);
      var m := Min(|requests|, |available|);
      assert [requests[0]] + requests[1..][..m - 1] == requests[..m];
    }
  }

  lemma {:induction false} DispatchSentWorkers(requests: seq<Request>, available: seq<Worker>, outcomes: seq<bool>)
    ensures var d := Dispatch(requests, available, outcomes); Collect(d.log, SentWorker) == d.taken
    decreases |outcomes|, |requests|
  {
    if requests != [] && available != [] {
      var sent, reqs, ws, later := DispatchUnfold(requests, available, outcomes);
      DispatchSentWorkers(reqs, ws, later);
      CollectOne(sent, Dispatch(reqs, ws, later).log, SentWorker);
    }
  }

  /**
   Whatever fails, exactly min(requests, workers) sends succeed, the i-th carries the i-th
   queued request, and no worker is lost or used twice.
   */
  lemma DispatchPairs(requests: seq<Request>, available: seq<Worker>, outcomes: seq<bool>)
    ensures var d := Dispatch(requests, available, outcomes);
            var m := Min(|requests|, |available|);
            && Collect(d.log, SentRequest) == requests[..m]
            && d.requests == requests[m..]
            && |Collect(d.log, SentWorker)| == m
            && multiset(d.available) + multiset(Collect(d.log, SentWorker)) == multiset(available)
  {
    DispatchCounts(requests, available, outcomes);
    DispatchSentRequests(requests, available, outcomes);
    DispatchSentWorkers(requests, available, outcomes);
  }

  function Failures(k: nat): seq<bool> {
    if k == 0 then [] else [false] + Failures(k - 1)
  }

  /** `s` turned left by `k` places. */
  function Rotate<T>(s: seq<T>, k: nat): (r: seq<T>)
    requires s != []
    ensures |r| == |s|
    decreases k
  {
    if k == 0 then s else Rotate(s[1..] + [s[0]], k - 1)
  }

  lemma {:induction false} RotateKeeps<T>(s: seq<T>, k: nat)
    requires s != []
    ensures multiset(Rotate(s, k)) == multiset(s)
    decreases k
  {
    if k > 0 {
      assert s == [s[0]] + s[1..];
      RotateKeeps(s[1..] + [s[0]], k - 1);
    }
  }

  /** `k` failed sends: each names the same request and the next worker in turn. */
  function FailedSends(request: Request, available: seq<Worker>, k: nat): seq<Action>
    requires available != []
    decreases k
  {
    if k == 0 then []
    else [Send(available[0], request, false)] + FailedSends(request, available[1..] + [available[0]], k - 1)
  }

  /**
   A run of `k` failed sends changes nothing but the order of the workers, which turns by one
   place for each failure. In particular the loop guard still holds, so the loop cannot end
   while sends keep failing.
   */
  lemma {:induction false} FailuresOnlyRotate(
    requests: seq<Request>, available: seq<Worker>, k: nat, outcomes: seq<bool>)
    requires requests != [] && available != []
    ensures var d := Dispatch(requests, Rotate(available, k), outcomes);
            Dispatch(requests, available, Failures(k) + outcomes)
              == d.(log := FailedSends(requests[0], available, k) + d.log)
    decreases k
  {
    if k == 0 {
      assert Failures(0) + outcomes == outcomes;
    } else {
      var turned := available[1..] + [available[0]];
      var all := Failures(k) + outcomes;
      assert all[0] == false && all[1..] == Failures(k - 1) + outcomes;
      var sent, reqs, ws, later := DispatchUnfold(requests, available, all);
      FailuresOnlyRotate(requests, turned, k - 1, outcomes);
      Assoc([sent], FailedSends(requests[0], turned, k - 1), Dispatch(requests, Rotate(available, k), outcomes).log);
    }
  }

  /** After as many failures as there are workers the list is back in its first order. */
  lemma {:induction false} RotateSplit<T>(s: seq<T>, t: seq<T>)
    requires s + t != []
    ensures Rotate(s + t, |s|) == t + s
    decreases |s|
  {
    if s == [] {
      assert s + t == t == t + s;
    } else {
      assert (s + t)[1..] + [(s + t)[0]] == s[1..] + (t + [s[0]]);
      RotateSplit(s[1..], t + [s[0]]);
      assert (t + [s[0]]) + s[1..] == t + s;
    }
  }
}

/** REQ, any number of ROUTER hops, REP, and back (RFC 28/REQREP). */
module ReqRep {
  import opened Bytes
  import opened Sequences
  import opened Envelopes

  // ---------------------------------------------------------------- REP: splitting the envelope

  datatype Split = Split(preamble: Option<Frames>, payload: Frames)

  /** What `splitReq` has found after looking at the first `i` frames. */
  function SplitUpTo(frames: Frames, i: nat): Split
    requires i <= |frames|
  {
    if i == 0 then Split(None, []) else
    var s := SplitUpTo(frames, i - 1);
    if frames[i - 1] != EMPTY then s
    else Split(Some(frames[..i]), if i < |frames| then frames[i..] else s.payload)
  }

  function SplitReq(frames: Frames): Split {
    SplitUpTo(frames, |frames|)
  }

  method SplitRequest(frames: Frames) returns (s: Split)
    ensures s == SplitReq(frames)
  {
    var preamble, payload: Frames := None, [];
    for i := 0 to |frames|
      invariant Split(preamble, payload) == SplitUpTo(frames, i)
    {
      if |frames[i]| != 0 { continue; }
      preamble := Some(frames[..i + 1]);
      if i + 1 < |frames| { payload := frames[i + 1..]; }
    }
    s := Split(preamble, payload);
  }

  ghost predicate NoEmptyFrame(frames: Frames) {
    forall i :: 0 <= i < |frames| ==> frames[i] != EMPTY
  }

  /** Non-empty frames leave the split as it is. */
  lemma {:induction false} SplitSkips(frames: Frames, i: nat, j: nat)
    requires i <= j <= |frames|
    requires forall k :: i <= k < j ==> frames[k] != EMPTY
    ensures SplitUpTo(frames, j) == SplitUpTo(frames, i)
    decreases j
  {
    if i < j { SplitSkips(frames, i, j - 1); }
  }

  /** An empty frame before the end leaves some payload behind. */
  lemma {:induction false} SplitHasPayload(frames: Frames, i: nat, k: nat)
    requires k < i < |frames| && frames[k] == EMPTY
    ensures SplitUpTo(frames, i).payload != []
    decreases i
  {
    if i > k + 1 { SplitHasPayload(frames, i - 1, k); }
  }

  /** The preamble reaches at least to any empty frame. */
  lemma {:induction false} SplitReaches(frames: Frames, i: nat, k: nat)
    requires k < i <= |frames| && frames[k] == EMPTY
    ensures SplitUpTo(frames, i).preamble.Some? && |SplitUpTo(frames, i).preamble.value| > k
    decreases i
  {
    if i > k + 1 { SplitReaches(frames, i - 1, k); }
  }

  /** Without an empty frame nothing is found. */
  lemma {:induction false} SplitNone(frames: Frames, i: nat)
    requires i <= |frames| && forall k :: 0 <= k < i ==> frames[k] != EMPTY
    ensures SplitUpTo(frames, i) == Split(None, [])
    decreases i
  {
    if i > 0 { SplitNone(frames, i - 1); }
  }

  /** A message is refused if and only if it has no empty frame at all. */
  lemma RefusedExactly(frames: Frames)
    ensures SplitReq(frames).preamble.None? <==> NoEmptyFrame(frames)
  {
    if NoEmptyFrame(frames) {
      SplitNone(frames, |frames|);
    } else {
      var k :| 0 <= k < |frames| && frames[k] == EMPTY;
      SplitReaches(frames, |frames|, k);
    }
  }

  /**
   For every message with an empty frame: the preamble ends with the last one, at `k`, and the
   payload is what follows it. When nothing follows, the payload is what follows the empty frame
   before, at `j`, and nothing if there is none.
   */
  lemma SplitAtLast(frames: Frames, k: nat, j: int)
    requires k < |frames| && frames[k] == EMPTY && NoEmptyFrame(frames[k + 1..])
    requires -1 <= j < k && (j >= 0 ==> frames[j] == EMPTY) && NoEmptyFrame(frames[j + 1..k])
    ensures SplitReq(frames).preamble == Some(frames[..k + 1])
    ensures SplitReq(frames).payload
         == if k + 1 < |frames| then frames[k + 1..] else if j >= 0 then frames[j + 1..] else []
  {
    forall i | k < i < |frames| ensures frames[i] != EMPTY { assert frames[i] == frames[k + 1..][i - k - 1]; }
    forall i | j < i < k ensures frames[i] != EMPTY { assert frames[i] == frames[j + 1..k][i - j - 1]; }
    SplitSkips(frames, k + 1, |frames|);
    SplitSkips(frames, j + 1, k);
    if j < 0 { SplitNone(frames, k); }
  }

  /**
   An envelope is `front`, the delimiter, and the request. REP takes it apart as it was put
   together exactly when no request frame is empty and, for a request without frames, no
   frame of `front` is empty either.
   */
  lemma SplitExact(front: Frames, request: Frames)
    ensures SplitReq(front + [EMPTY] + request) == Split(Some(front + [EMPTY]), request)
       <==> NoEmptyFrame(request) && (request != [] || NoEmptyFrame(front))
  {
    var all := front + [EMPTY] + request;
    var d := |front|;
    assert all[..d + 1] == front + [EMPTY] && all[d + 1..] == request && all[d] == EMPTY;
    if !NoEmptyFrame(request) {
      var k :| 0 <= k < |request| && request[k] == EMPTY;
      assert all[d + 1 + k] == EMPTY;
      SplitReaches(all, |all|, d + 1 + k);
    } else {
      forall k | d + 1 <= k < |all| ensures all[k] != EMPTY { assert all[k] == request[k - d - 1]; }
      SplitSkips(all, d + 1, |all|);
      if request == [] {
        if NoEmptyFrame(front) {
          SplitSkips(all, 0, d);
        } else {
          var k :| 0 <= k < |front| && front[k] == EMPTY;
          assert all[k] == EMPTY;
          SplitHasPayload(all, d, k);
        }
      }
    }
  }

  // ---------------------------------------------------------------- ROUTER: choosing connections

  /** The connections among the first `n` whose peer has identity `id`. */
  function Targets(ids: seq<Bytes>, n: nat, id: Bytes): seq<nat>
    requires n <= |ids|
  {
    if n == 0 then [] else Targets(ids, n - 1, id) + if ids[n - 1] == id then [n - 1] else []
  }

  /** ROUTER's write: everything after the identity goes to every connection with that identity. */
  method RouterWrite(ids: seq<Bytes>, frames: Frames) returns (targets: seq<nat>, message: Frames)
    requires frames != []
    ensures targets == Targets(ids, |ids|, frames[0]) && message == RouterSend(frames).1
  {
    targets, message := [], frames[1..];
    for i := 0 to |ids|
      invariant targets == Targets(ids, i, frames[0])
    {
      if ids[i] != frames[0] { continue; }
      targets := targets + [i];
    }
  }

  lemma {:induction false} TargetsAre(ids: seq<Bytes>, n: nat, id: Bytes)
    requires n <= |ids|
    ensures forall c: nat :: c in Targets(ids, n, id) <==> c < n && ids[c] == id
  {
    if n > 0 { TargetsAre(ids, n - 1, id); }
  }

  lemma {:induction false} TargetsOnly(ids: seq<Bytes>, n: nat, c: nat)
    requires n <= |ids| && c < |ids|
    requires forall j :: 0 <= j < |ids| && ids[j] == ids[c] ==> j == c
    ensures Targets(ids, n, ids[c]) == if c < n then [c] else []
  {
    if n > 0 { TargetsOnly(ids, n - 1, c); }
  }

  /** A message named after connection `c` reaches `c` and nothing else exactly when the name is unique. */
  lemma TargetsUnique(ids: seq<Bytes>, c: nat)
    requires c < |ids|
    ensures Targets(ids, |ids|, ids[c]) == [c] <==> forall j :: 0 <= j < |ids| && ids[j] == ids[c] ==> j == c
  {
    var ts := Targets(ids, |ids|, ids[c]);
    if forall j :: 0 <= j < |ids| && ids[j] == ids[c] ==> j == c {
      TargetsOnly(ids, |ids|, c);
    }
    if ts == [c] {
      TargetsAre(ids, |ids|, ids[c]);
      forall j | 0 <= j < |ids| && ids[j] == ids[c] ensures j == c { assert j in ts; }
    }
  }

  // ---------------------------------------------------------------- n hops

  /** A ROUTER on the way: the identities of its connections and the one the request came in by. */
  datatype Hop = Hop(ids: seq<Bytes>, conn: nat) {
    predicate Valid() {
      conn < |ids| && forall j :: 0 <= j < |ids| && ids[j] == ids[conn] ==> j == conn
    }
    function Identity(): Bytes requires Valid() { ids[conn] }
  }

  ghost predicate AllValid(hops: seq<Hop>) {
    forall h :: h in hops ==> h.Valid()
  }

  /** The identities the hops put in front, latest first. */
  function Trail(hops: seq<Hop>): Frames
    requires AllValid(hops)
  {
    if hops == [] then [] else [hops[|hops| - 1].Identity()] + Trail(hops[..|hops| - 1])
  }

  /** What comes out after every hop, in order, has received the message. */
  function Forward(hops: seq<Hop>, frames: Frames): Frames
    requires AllValid(hops)
  {
    if hops == [] then frames
    else RouterReceive(hops[|hops| - 1].Identity(), Forward(hops[..|hops| - 1], frames))
  }

  /** What comes out at the first hop's connection when the hops, last to first, send the message on. */
  function Backward(hops: seq<Hop>, frames: Frames): Option<Frames> {
    if hops == [] then Some(frames)
    else if frames == [] then None
    else
      var h := hops[|hops| - 1];
      if Targets(h.ids, |h.ids|, frames[0]) != [h.conn] then None
      else Backward(hops[..|hops| - 1], RouterSend(frames).1)
  }

  lemma {:induction false} ForwardAddsTrail(hops: seq<Hop>, frames: Frames)
    requires AllValid(hops)
    ensures Forward(hops, frames) == Trail(hops) + frames
  {
    if hops != [] {
      var h, before := hops[|hops| - 1], hops[..|hops| - 1];
      ForwardAddsTrail(before, frames);
      Assoc([h.Identity()], Trail(before), frames);
    }
  }

  lemma {:induction false} BackwardPopsTrail(hops: seq<Hop>, frames: Frames)
    requires AllValid(hops)
    ensures Backward(hops, Trail(hops) + frames) == Some(frames)
  {
    if hops == [] {
      assert Trail(hops) + frames == frames;
    } else {
      var h, before := hops[|hops| - 1], hops[..|hops| - 1];
      assert h in hops;
      TargetsUnique(h.ids, h.conn);
      var all := Trail(hops) + frames;
      Assoc([h.Identity()], Trail(before), frames);
      assert all == [h.Identity()] + (Trail(before) + frames);
      assert all[0] == h.Identity() && all[1..] == Trail(before) + frames;
      assert Backward(hops, all) == Backward(before, all[1..]);
      BackwardPopsTrail(before, frames);
    }
  }

  lemma RequestSplits(hops: seq<Hop>, request: Frames)
    requires AllValid(hops)
    ensures SplitReq(Forward(hops, ReqSend(request))) == Split(Some(Trail(hops) + [EMPTY]), request)
       <==> NoEmptyFrame(request) && (request != [] || NoEmptyFrame(Trail(hops)))
  {
    ForwardAddsTrail(hops, ReqSend(request));
    Assoc(Trail(hops), [EMPTY], request);
    SplitExact(Trail(hops), request);
  }

  /**
   Through any number of hops: REP sees the request frames, and the trail plus the delimiter as
   preamble, exactly when no request frame is empty and a request without frames is not sent
   past an empty identity. Whatever frames REP then answers with, the hops pop their identities
   one by one, each naming just the connection the request came in by; and REQ returns exactly
   the reply frames unless there are none.
   */
  lemma RequestReply(hops: seq<Hop>, request: Frames, reply: Frames)
    requires AllValid(hops)
    ensures SplitReq(Forward(hops, ReqSend(request))) == Split(Some(Trail(hops) + [EMPTY]), request)
       <==> NoEmptyFrame(request) && (request != [] || NoEmptyFrame(Trail(hops)))
    ensures Backward(hops, (Trail(hops) + [EMPTY]) + reply) == Some([EMPTY] + reply)
    ensures ReqReceive([EMPTY] + reply) == reply <==> reply != []
  {
    RequestSplits(hops, request);
    Assoc(Trail(hops), [EMPTY], reply);
    BackwardPopsTrail(hops, [EMPTY] + reply);
    assert ([EMPTY] + reply)[1..] == reply;
  }

  // ---------------------------------------------------------------- the REP socket

  /** A REP socket: its connections, and where the last good request came from. */
  class RepSocket {
    var conns: seq<nat>
    var conn: Option<nat>
    var preamble: Frames

    constructor ()
      ensures conns == [] && conn == None && preamble == []
    {
      conns, conn, preamble := [], None, [];
    }

    /** Takes a message off the queue; one without a delimiter is refused and changes nothing. */
    method Read(c: nat, frames: Frames) returns (payload: Option<Frames>)
      modifies this`conn, this`preamble
      ensures var s := SplitReq(frames);
              if s.preamble.None? then payload == None && conn == old(conn) && preamble == old(preamble)
              else payload == Some(s.payload) && conn == Some(c) && preamble == s.preamble.value
    {
      var s := SplitRequest(frames);
      if s.preamble.None? { return None; }
      conn, preamble := Some(c), s.preamble.value;
      payload := Some(s.payload);
    }

    /** Sends a reply to where the last request came from, if that connection is still there. */
    method Write(frames: Frames) returns (sent: Option<(nat, Frames)>)
      ensures sent == if conn.Some? && conn.value in conns then Some((conn.value, preamble + frames)) else None
    {
      for i := 0 to |conns|
        invariant conn.Some? ==> conn.value !in conns[..i]
      {
        if conn == Some(conns[i]) { return Some((conns[i], preamble + frames)); }
      }
      sent := None;
    }

    method AddConn(c: nat)
      modifies this`conns
      ensures conns == old(conns) + [c]
    {
      conns := conns + [c];
    }

    method RmConn(c: nat)
      modifies this`conns
      ensures conns == Without(old(conns), c)
    {
      for i := 0 to |conns|
        invariant c !in conns[..i]
        invariant conns == old(conns)
      {
        if conns[i] == c {
          WithoutAt(conns, c, i);
          conns := conns[..i] + conns[i + 1..];
          return;
        }
      }
      assert conns[..|conns|] == conns;
    }
  }
}

/** The HTTP client agent of include/libnode/detail/http/agent.h: at most `maxSockets` sockets for
    each host key, and a queue of requests that wait for one.

    A socket is known by the number `createSocket` gave it, a request by its identity. The
    requests and the socket events come from outside, in any order. */
module Agent {
  import Text
  import opened Wrappers

  type SocketId = nat
  type RequestId = nat

  /** A request handed to a socket (`req->onSocket(socket)`). */
  datatype Handover = Handover(req: RequestId, socket: SocketId)

  /** What the agent holds under one host key, with the requests handed over and arrived so far. */
  datatype Pool = Pool(sockets: seq<SocketId>, waiting: seq<RequestId>,
                       given: seq<Handover>, arrived: seq<RequestId>)

  /** An event under one key: a request, a socket's 'free', or its 'close' or 'agentRemove'. */
  datatype PoolEvent = Request(req: RequestId) | Free(socket: SocketId) | Gone(socket: SocketId)

  // ----- one host key -----

  /** `JsArray::remove(value)`: the first occurrence goes. */
  function Without(ss: seq<SocketId>, s: SocketId): seq<SocketId> {
    if ss == [] then [] else if ss[0] == s then ss[1..] else [ss[0]] + Without(ss[1..], s)
  }

  /** `out` is the list `ss` with the first `s` in it taken out, or `ss` itself if there is none. */
  ghost predicate FirstOut(ss: seq<SocketId>, s: SocketId, out: seq<SocketId>) {
    && (s !in ss ==> out == ss)
    && multiset(out) == multiset(ss) - multiset{s}
    && forall n: nat | n < |ss| && ss[n] == s && s !in ss[..n] :: out == ss[..n] + ss[n + 1..]
  }

  lemma WithoutIs(ss: seq<SocketId>, s: SocketId)
    ensures FirstOut(ss, s, Without(ss, s))
  {
    hide Without;
    if s !in ss {
      WithoutNone(ss, s);
    } else {
      var n := FirstAt(ss, s);
      WithoutAt(ss, s, n);
      Around(ss, n);
      forall i: nat | i < |ss| && ss[i] == s && s !in ss[..i] ensures i == n {
        Before(ss, s, i);
        Before(ss, s, n);
      }
    }
  }

  lemma Before(ss: seq<SocketId>, s: SocketId, i: nat)
    requires i < |ss| && s !in ss[..i]
    ensures forall j | 0 <= j < i :: ss[j] != s
  {
    forall j | 0 <= j < i ensures ss[j] != s { assert ss[j] in ss[..i]; }
  }

  lemma Around(ss: seq<SocketId>, n: nat)
    requires n < |ss|
    ensures ss == ss[..n] + [ss[n]] + ss[n + 1..]
    ensures multiset(ss[..n] + ss[n + 1..]) == multiset(ss) - multiset{ss[n]}
  {
    assert ss == ss[..n] + [ss[n]] + ss[n + 1..];
  }

  function FirstAt(ss: seq<SocketId>, s: SocketId): (n: nat)
    requires s in ss
    ensures n < |ss| && ss[n] == s && s !in ss[..n]
  {
    if ss[0] == s then 0
    else
      assert forall i: nat | i <= |ss| && i > 0 :: ss[..i] == [ss[0]] + ss[1..][..i - 1];
      1 + FirstAt(ss[1..], s)
  }

  lemma {:induction false} WithoutNone(ss: seq<SocketId>, s: SocketId)
    requires s !in ss
    ensures Without(ss, s) == ss
  {
    if ss != [] { WithoutNone(ss[1..], s); }
  }

  lemma {:induction false} WithoutAt(ss: seq<SocketId>, s: SocketId, n: nat)
    requires n < |ss| && ss[n] == s && s !in ss[..n]
    ensures Without(ss, s) == ss[..n] + ss[n + 1..]
  {
    if n > 0 {
      assert ss[..n][0] == ss[0] && ss[..n] == [ss[0]] + ss[1..][..n - 1];
      WithoutAt(ss[1..], s, n - 1);
      assert ss[1..][n..] == ss[n + 1..];
    }
  }

  function Requested(p: Pool, req: RequestId, maxSockets: nat, brandNew: SocketId): Pool {
    var q := p.(arrived := p.arrived + [req]);
    if |p.sockets| < maxSockets then
      q.(sockets := p.sockets + [brandNew], given := p.given + [Handover(req, brandNew)])
    else
      q.(waiting := p.waiting + [req])
  }

  /** The first waiting request gets the socket. */
  function Freed(p: Pool, socket: SocketId): Pool {
    if p.waiting == [] then p
    else p.(waiting := p.waiting[1..], given := p.given + [Handover(p.waiting[0], socket)])
  }

  /** A socket leaves; if requests wait, a fresh one replaces it and is freed at once. */
  function Lost(p: Pool, socket: SocketId, brandNew: SocketId): Pool {
    var q := p.(sockets := Without(p.sockets, socket));
    if p.waiting == [] then q else Freed(q.(sockets := q.sockets + [brandNew]), brandNew)
  }

  /** What `socket` leaving makes of `p`: it is taken out of the list once, the sockets beside it stay in
      their order, and a fresh one takes the request that has waited longest. */
  ghost predicate Leaves(p: Pool, socket: SocketId, brandNew: SocketId, q: Pool) {
    && q.arrived == p.arrived
    && if p.waiting == [] then
         FirstOut(p.sockets, socket, q.sockets) && q.given == p.given && q.waiting == []
       else
         && q.sockets != [] && q.sockets[|q.sockets| - 1] == brandNew
         && FirstOut(p.sockets, socket, q.sockets[..|q.sockets| - 1])
         && q.given == p.given + [Handover(p.waiting[0], brandNew)] && q.waiting == p.waiting[1..]
  }

  lemma LostLeaves(p: Pool, socket: SocketId, brandNew: SocketId)
    ensures Leaves(p, socket, brandNew, Lost(p, socket, brandNew))
  {
    hide FirstOut, Without;
    WithoutIs(p.sockets, socket);
    var out := Without(p.sockets, socket);
    assert (out + [brandNew])[..|out|] == out;
  }

  function Requests(given: seq<Handover>): seq<RequestId> {
    seq(|given|, i requires 0 <= i < |given| => given[i].req)
  }

  /** Requests wait only for sockets that are all there, and none is lost or overtaken: the requests
      handed over and then the waiting ones are the requests that arrived, in order. */
  ghost predicate InOrder(p: Pool, maxSockets: nat) {
    && (p.waiting != [] ==> |p.sockets| >= maxSockets)
    && Requests(p.given) + p.waiting == p.arrived
  }

  predicate Bounded(p: Pool, maxSockets: nat) { |p.sockets| <= maxSockets }

  lemma RequestedOk(p: Pool, req: RequestId, maxSockets: nat, brandNew: SocketId)
    requires InOrder(p, maxSockets)
    ensures InOrder(Requested(p, req, maxSockets, brandNew), maxSockets)
    ensures Bounded(p, maxSockets) ==> Bounded(Requested(p, req, maxSockets, brandNew), maxSockets)
  {
    var q := Requested(p, req, maxSockets, brandNew);
    if |p.sockets| < maxSockets {
      RequestsSnoc(p.given, Handover(req, brandNew));
      assert p.waiting == [] && Requests(p.given) + [] == Requests(p.given);
      assert Requests(q.given) + [] == Requests(q.given);
    } else {
      assert Requests(p.given) + (p.waiting + [req]) == p.arrived + [req];
    }
  }

  lemma FreedOk(p: Pool, socket: SocketId, maxSockets: nat)
    requires InOrder(p, maxSockets)
    ensures InOrder(Freed(p, socket), maxSockets) && Freed(p, socket).sockets == p.sockets
  {
    if p.waiting != [] {
      var h := Handover(p.waiting[0], socket);
      RequestsSnoc(p.given, h);
      assert Requests(p.given + [h]) + p.waiting[1..] == Requests(p.given) + p.waiting;
    }
  }

  /** `removeSocket` does not look whether the socket was there. The order is kept all the same; but a
      socket that leaves twice while requests wait is replaced twice, and then the bound is broken. */
  lemma LostOk(p: Pool, socket: SocketId, brandNew: SocketId, maxSockets: nat)
    requires InOrder(p, maxSockets)
    ensures InOrder(Lost(p, socket, brandNew), maxSockets)
    ensures Bounded(p, maxSockets) ==>
              (Bounded(Lost(p, socket, brandNew), maxSockets) <==> socket in p.sockets || p.waiting == [])
  {
    hide Without, Requests, Freed;
    if socket in p.sockets { OneLess(p.sockets, socket); } else { WithoutNone(p.sockets, socket); }
    var q := p.(sockets := Without(p.sockets, socket));
    if p.waiting != [] { FreedOk(q.(sockets := q.sockets + [brandNew]), brandNew, maxSockets); }
  }

  lemma RequestsSnoc(given: seq<Handover>, h: Handover)
    ensures Requests(given + [h]) == Requests(given) + [h.req]
  {
  }

  lemma OneLess(ss: seq<SocketId>, s: SocketId)
    requires s in ss
    ensures |Without(ss, s)| == |ss| - 1
  {
    WithoutIs(ss, s);
    assert |multiset(Without(ss, s))| == |multiset(ss)| - 1;
  }

  // ----- all runs of one key -----

  function Step(p: Pool, e: PoolEvent, maxSockets: nat, brandNew: SocketId): Pool {
    match e
    case Request(req) => Requested(p, req, maxSockets, brandNew)
    case Free(socket) => Freed(p, socket)
    case Gone(socket) => Lost(p, socket, brandNew)
  }

  /** Fresh socket numbers are any numbers the environment supplies. */
  function Run(p: Pool, events: seq<PoolEvent>, maxSockets: nat, brandNew: seq<SocketId>): Pool
    requires |brandNew| == |events|
    decreases |events|
  {
    if events == [] then p else Run(Step(p, events[0], maxSockets, brandNew[0]), events[1..], maxSockets, brandNew[1..])
  }

  /** While requests wait, only a socket that is there goes away. */
  predicate Orderly(p: Pool, e: PoolEvent) { e.Gone? ==> e.socket in p.sockets || p.waiting == [] }

  predicate OrderlyRun(p: Pool, events: seq<PoolEvent>, maxSockets: nat, brandNew: seq<SocketId>)
    requires |brandNew| == |events|
    decreases |events|
  {
    events == []
    || (Orderly(p, events[0])
        && OrderlyRun(Step(p, events[0], maxSockets, brandNew[0]), events[1..], maxSockets, brandNew[1..]))
  }

  lemma StepOk(p: Pool, e: PoolEvent, maxSockets: nat, brandNew: SocketId)
    requires InOrder(p, maxSockets)
    ensures InOrder(Step(p, e, maxSockets, brandNew), maxSockets)
    ensures Bounded(p, maxSockets) ==> (Bounded(Step(p, e, maxSockets, brandNew), maxSockets) <==> Orderly(p, e))
  {
    match e {
      case Request(req) => RequestedOk(p, req, maxSockets, brandNew);
      case Free(socket) => FreedOk(p, socket, maxSockets);
      case Gone(socket) => LostOk(p, socket, brandNew, maxSockets);
    }
  }

  /** Whatever happens, the order is kept. */
  lemma {:induction false} RunOk(p: Pool, events: seq<PoolEvent>, maxSockets: nat, brandNew: seq<SocketId>)
    requires InOrder(p, maxSockets) && |brandNew| == |events|
    ensures InOrder(Run(p, events, maxSockets, brandNew), maxSockets)
    decreases |events|
  {
    hide InOrder, Step;
    if events != [] {
      StepOk(p, events[0], maxSockets, brandNew[0]);
      RunOk(Step(p, events[0], maxSockets, brandNew[0]), events[1..], maxSockets, brandNew[1..]);
    }
  }

  /** There are never more than `maxSockets` sockets, from `p` to the end of the run. */
  predicate BoundedRun(p: Pool, events: seq<PoolEvent>, maxSockets: nat, brandNew: seq<SocketId>)
    requires |brandNew| == |events|
    decreases |events|
  {
    && Bounded(p, maxSockets)
    && (events == []
        || BoundedRun(Step(p, events[0], maxSockets, brandNew[0]), events[1..], maxSockets, brandNew[1..]))
  }

  /** The bound holds all the time if and only if no socket is removed twice while requests wait. */
  lemma {:induction false} BoundedIff(p: Pool, events: seq<PoolEvent>, maxSockets: nat, brandNew: seq<SocketId>)
    requires InOrder(p, maxSockets) && Bounded(p, maxSockets) && |brandNew| == |events|
    ensures BoundedRun(p, events, maxSockets, brandNew) <==> OrderlyRun(p, events, maxSockets, brandNew)
    decreases |events|
  {
    hide InOrder, Step, Orderly, Bounded;
    if events != [] {
      StepOk(p, events[0], maxSockets, brandNew[0]);
      if Orderly(p, events[0]) {
        BoundedIff(Step(p, events[0], maxSockets, brandNew[0]), events[1..], maxSockets, brandNew[1..]);
      } else {
        Unbounded(Step(p, events[0], maxSockets, brandNew[0]), events[1..], maxSockets, brandNew[1..]);
      }
    }
  }

  lemma Unbounded(p: Pool, events: seq<PoolEvent>, maxSockets: nat, brandNew: seq<SocketId>)
    requires !Bounded(p, maxSockets) && |brandNew| == |events|
    ensures !BoundedRun(p, events, maxSockets, brandNew)
  {
  }

  /** A free socket, or one that goes away, serves a request. */
  predicate Serves(e: PoolEvent) { e.Free? || e.Gone? }

  function Served(p: Pool, events: seq<PoolEvent>, maxSockets: nat, brandNew: seq<SocketId>): nat
    requires |brandNew| == |events|
    decreases |events|
  {
    if events == [] then 0
    else
      var rest := Served(Step(p, events[0], maxSockets, brandNew[0]), events[1..], maxSockets, brandNew[1..]);
      if Serves(events[0]) then rest + 1 else rest
  }

  /** Nothing handed over is taken back, and the first `n` requests that waited in `p` have been handed
      over in `q`, in their order. */
  ghost predicate HandedOn(p: Pool, q: Pool, n: nat) {
    && p.given <= q.given && p.arrived <= q.arrived
    && forall i | 0 <= i < |p.waiting| && i < n :: HandedAt(p, q, i)
  }

  predicate HandedAt(p: Pool, q: Pool, i: nat)
    requires i < |p.waiting|
  {
    |p.given| + i < |q.given| && q.given[|p.given| + i].req == p.waiting[i]
  }

  lemma StepServes(p: Pool, e: PoolEvent, maxSockets: nat, brandNew: SocketId)
    requires InOrder(p, maxSockets) && p.waiting != []
    ensures var p' := Step(p, e, maxSockets, brandNew);
            if Serves(e) then
              && |p'.given| == |p.given| + 1 && p'.given[..|p.given|] == p.given
              && p'.given[|p.given|] == Handover(p.waiting[0], if e.Free? then e.socket else brandNew)
              && p'.waiting == p.waiting[1..]
            else p'.given == p.given && p.waiting <= p'.waiting
  {
  }

  lemma StepGrows(p: Pool, e: PoolEvent, maxSockets: nat, brandNew: SocketId)
    ensures var p' := Step(p, e, maxSockets, brandNew);
            p.given <= p'.given && p.arrived <= p'.arrived
  {
  }

  lemma Longer<T>(a: seq<T>, b: seq<T>, c: seq<T>)
    requires a <= b <= c
    ensures a <= c
  {
    assert c[..|b|] == b && b[..|a|] == a && c[..|b|][..|a|] == c[..|a|];
  }

  lemma HandedStep(p: Pool, e: PoolEvent, maxSockets: nat, brandNew: SocketId, q: Pool, n: nat)
    requires InOrder(p, maxSockets) && HandedOn(Step(p, e, maxSockets, brandNew), q, n)
    ensures HandedOn(p, q, if Serves(e) then n + 1 else n)
  {
    var p' := Step(p, e, maxSockets, brandNew);
    StepGrows(p, e, maxSockets, brandNew);
    Longer(p.given, p'.given, q.given);
    Longer(p.arrived, p'.arrived, q.arrived);
    var m := if Serves(e) then n + 1 else n;
    forall i | 0 <= i < |p.waiting| && i < m ensures HandedAt(p, q, i) {
      StepServes(p, e, maxSockets, brandNew);
      if !Serves(e) {
        assert HandedAt(p', q, i) && p'.waiting[i] == p.waiting[i];
      } else if i == 0 {
        assert q.given[|p.given|] == p'.given[|p.given|];
      } else {
        assert HandedAt(p', q, i - 1) && p'.waiting[i - 1] == p.waiting[i];
      }
    }
  }

  /** From any reachable state, every run, second removals included: requests that arrived are handed over
      in arrival order, nothing handed over is taken back, and each socket that becomes free or goes away serves
      the request that has waited longest: after as many such events as there are requests up to
      it in the queue, a waiting request has its socket. */
  lemma {:induction false} WaitingIsServed(p: Pool, events: seq<PoolEvent>, maxSockets: nat, brandNew: seq<SocketId>)
    requires InOrder(p, maxSockets) && |brandNew| == |events|
    ensures var q := Run(p, events, maxSockets, brandNew);
            && HandedOn(p, q, Served(p, events, maxSockets, brandNew))
            && Requests(q.given) <= q.arrived
    decreases |events|
  {
    hide HandedOn, Requests, Step, InOrder;
    RunOk(p, events, maxSockets, brandNew);
    InArrivalOrder(Run(p, events, maxSockets, brandNew), maxSockets);
    if events == [] {
      Stays(p);
    } else {
      StepOk(p, events[0], maxSockets, brandNew[0]);
      var p' := Step(p, events[0], maxSockets, brandNew[0]);
      WaitingIsServed(p', events[1..], maxSockets, brandNew[1..]);
      HandedStep(p, events[0], maxSockets, brandNew[0], Run(p, events, maxSockets, brandNew),
                 Served(p', events[1..], maxSockets, brandNew[1..]));
    }
  }

  lemma Stays(p: Pool)
    ensures HandedOn(p, p, 0)
  {
  }

  lemma InArrivalOrder(p: Pool, maxSockets: nat)
    requires InOrder(p, maxSockets)
    ensures Requests(p.given) <= p.arrived
  {
    assert p.arrived[..|p.given|] == Requests(p.given);
  }

  /** Each request stands in one place only: handed to one socket, or waiting. */
  lemma GivenOnce(p: Pool, maxSockets: nat)
    requires InOrder(p, maxSockets)
    requires forall i, j | 0 <= i < j < |p.arrived| :: p.arrived[i] != p.arrived[j]
    ensures forall i, j | 0 <= i < j < |p.given| :: p.given[i].req != p.given[j].req
    ensures forall i, j | 0 <= i < |p.given| && 0 <= j < |p.waiting| :: p.given[i].req != p.waiting[j]
    ensures forall req | req in p.arrived :: req in Requests(p.given) || req in p.waiting
  {
    assert forall i | 0 <= i < |p.given| :: p.arrived[i] == p.given[i].req;
    assert forall j | 0 <= j < |p.waiting| :: p.arrived[|p.given| + j] == p.waiting[j];
  }

  // ----- the sockets that are listed -----

  /** The event has a fresh socket created: a request below the bound, or a socket lost while requests wait. */
  predicate Creates(p: Pool, e: PoolEvent, maxSockets: nat) {
    match e
    case Request(_) => |p.sockets| < maxSockets
    case Free(_) => false
    case Gone(_) => p.waiting != []
  }

  /** Socket `s` was created by event `k` of the run and has not left since. */
  predicate CreatedAndStays(p: Pool, events: seq<PoolEvent>, maxSockets: nat, brandNew: seq<SocketId>, s: SocketId,
                            k: nat)
    requires |brandNew| == |events| && k < |events|
  {
    && s == brandNew[k] && Creates(Run(p, events[..k], maxSockets, brandNew[..k]), events[k], maxSockets)
    && Gone(s) !in events[k + 1..]
  }

  predicate Distinct<T(==)>(ss: seq<T>) { forall i, j | 0 <= i < j < |ss| :: ss[i] != ss[j] }

  /** All numbers are different, those of the listed sockets and those still to be given. */
  predicate Numbered(p: Pool, brandNew: seq<SocketId>) { Distinct(p.sockets + brandNew) }

  lemma OnceOut(ss: seq<SocketId>, s: SocketId, out: seq<SocketId>)
    requires Distinct(ss) && FirstOut(ss, s, out)
    ensures Distinct(out) && forall x :: x in out <==> x in ss && x != s
  {
    hide Distinct;
    if s in ss {
      var n := FirstAt(ss, s);
      var a, b := ss[..n], ss[n + 1..];
      Around(ss, n);
      DistinctParts(a + [s], b);
      DistinctParts(a, [s]);
      DistinctParts(a, b);
    }
  }

  lemma DistinctParts<T>(a: seq<T>, b: seq<T>)
    ensures Distinct(a + b) <==> Distinct(a) && Distinct(b) && forall x | x in a :: x !in b
  {
    var c := a + b;
    if Distinct(c) {
      forall i, j | 0 <= i < j < |b| ensures b[i] != b[j] {
        assert c[|a| + i] != c[|a| + j];
      }
      forall i, j | 0 <= i < |a| && 0 <= j < |b| ensures a[i] != b[j] {
        assert c[i] != c[|a| + j];
      }
      forall i, j | 0 <= i < j < |a| ensures a[i] != a[j] {
        assert c[i] != c[j];
      }
    } else if Distinct(a) && Distinct(b) {
      var i, j :| 0 <= i < j < |c| && c[i] == c[j];
      assert i < |a| <= j && c[i] in a && c[j] in b;
    }
  }

  lemma StepListed(p: Pool, e: PoolEvent, maxSockets: nat, brandNew: SocketId)
    requires Distinct(p.sockets) && brandNew !in p.sockets
    ensures var p' := Step(p, e, maxSockets, brandNew);
            && Distinct(p'.sockets)
            && forall s :: s in p'.sockets <==>
                             (s in p.sockets && e != Gone(s)) || (s == brandNew && Creates(p, e, maxSockets))
  {
    if e.Gone? {
      var q := Step(p, e, maxSockets, brandNew);
      LostLeaves(p, e.socket, brandNew);
      var out := if p.waiting == [] then q.sockets else q.sockets[..|q.sockets| - 1];
      OnceOut(p.sockets, e.socket, out);
      if p.waiting != [] { assert q.sockets == out + [brandNew]; }
    }
  }

  lemma RunAfter(p: Pool, events: seq<PoolEvent>, maxSockets: nat, brandNew: seq<SocketId>, k: nat)
    requires |brandNew| == |events| && 0 < k <= |events|
    ensures Run(p, events[..k], maxSockets, brandNew[..k])
            == Run(Step(p, events[0], maxSockets, brandNew[0]), events[1..][..k - 1], maxSockets,
                   brandNew[1..][..k - 1])
  {
    hide Step;
    assert events[..k][1..] == events[1..][..k - 1] && brandNew[..k][1..] == brandNew[1..][..k - 1];
  }

  /** At the end of any run a socket is listed if and only if it was listed or created and has not left
      since. */
  lemma {:induction false} ListedIff(p: Pool, events: seq<PoolEvent>, maxSockets: nat, brandNew: seq<SocketId>,
                                     s: SocketId)
    requires |brandNew| == |events| && Numbered(p, brandNew)
    ensures s in Run(p, events, maxSockets, brandNew).sockets <==>
              || (s in p.sockets && Gone(s) !in events)
              || exists k: nat | k < |events| :: CreatedAndStays(p, events, maxSockets, brandNew, s, k)
    decreases |events|
  {
    if events != [] {
      var p', rest, numbers := Step(p, events[0], maxSockets, brandNew[0]), events[1..], brandNew[1..];
      assert events == [events[0]] + rest && brandNew == [brandNew[0]] + numbers;
      DistinctParts(p.sockets, brandNew);
      DistinctParts([brandNew[0]], numbers);
      StepListed(p, events[0], maxSockets, brandNew[0]);
      DistinctParts(p'.sockets, numbers);
      ListedIff(p', rest, maxSockets, numbers, s);
      forall k: nat | 0 < k < |events|
        ensures CreatedAndStays(p, events, maxSockets, brandNew, s, k) <==>
                  CreatedAndStays(p', rest, maxSockets, numbers, s, k - 1)
      {
        RunAfter(p, events, maxSockets, brandNew, k);
        assert events[k + 1..] == rest[k..];
      }
      forall k: nat | k < |rest| && CreatedAndStays(p', rest, maxSockets, numbers, s, k)
        ensures CreatedAndStays(p, events, maxSockets, brandNew, s, k + 1)
      {
        assert CreatedAndStays(p', rest, maxSockets, numbers, s, (k + 1) - 1);
      }
      hide Step;
      assert events[..0] == [] && brandNew[..0] == [];
      assert CreatedAndStays(p, events, maxSockets, brandNew, s, 0) <==>
        s == brandNew[0] && Creates(p, events[0], maxSockets) && Gone(s) !in rest;
    }
  }

  // ----- the agent -----

  /** `host:port` or `host:port:localAddress`. */
  function Name(host: string, port: string, local: Option<string>): string {
    host + ":" + port + match local { case None => "" case Some(l) => ":" + l }
  }

  /** The key tells destinations apart, if their hosts and ports hold no colon. */
  lemma NameIs(host: string, port: string, local: Option<string>)
    ensures local == None ==> Name(host, port, local) == host + ":" + port
    ensures local != None ==> Name(host, port, local) == host + ":" + port + ":" + local.value
    ensures forall host', port', local' |
              ':' !in host && ':' !in port && ':' !in host' && ':' !in port'
              && Name(host, port, local) == Name(host', port', local') ::
              host == host' && port == port' && local == local'
  {
    forall host', port', local' |
      ':' !in host && ':' !in port && ':' !in host' && ':' !in port'
      && Name(host, port, local) == Name(host', port', local')
      ensures host == host' && port == port' && local == local'
    {
      var tail := port + if local == None then "" else ":" + local.value;
      var tail' := port' + if local' == None then "" else ":" + local'.value;
      assert Name(host, port, local) == host + ([':'] + tail);
      assert Name(host', port', local') == host' + ([':'] + tail');
      SameHead(host, [':'] + tail, host', [':'] + tail');
      assert ([':'] + tail)[1..] == tail && ([':'] + tail')[1..] == tail';
      if local == None { assert port + "" == port; }
      if local' == None { assert port' + "" == port'; }
      SameHead(port, if local == None then "" else ":" + local.value,
               port', if local' == None then "" else ":" + local'.value);
      if local != None { assert (":" + local.value)[1..] == local.value; }
      if local' != None { assert (":" + local'.value)[1..] == local'.value; }
    }
  }

  lemma SameHead(a: string, r: string, a': string, r': string)
    requires ':' !in a && ':' !in a' && a + r == a' + r'
    requires (r == "" || r[0] == ':') && (r' == "" || r'[0] == ':')
    ensures a == a' && r == r'
  {
    Text.IndexOfIs(a + r, ':', 0, |a|);
    Text.IndexOfIs(a' + r', ':', 0, |a'|);
    assert a == (a + r)[..|a|] && a' == (a' + r')[..|a'|];
    assert r == (a + r)[|a|..] && r' == (a' + r')[|a'|..];
  }

  function Get<T>(m: map<string, seq<T>>, name: string): seq<T> { if name in m then m[name] else [] }

  class Agent {
    const maxSockets: nat
    var sockets: map<string, seq<SocketId>>
    var requests: map<string, seq<RequestId>>
    var nextSocket: SocketId

    /** Sockets destroyed because no request waited for them. */
    var destroyed: seq<SocketId>

    ghost var given: map<string, seq<Handover>>
    ghost var arrived: map<string, seq<RequestId>>

    ghost function PoolOf(name: string): Pool
      reads this
    {
      Pool(Get(sockets, name), Get(requests, name), Get(given, name), Get(arrived, name))
    }

    ghost predicate Valid()
      reads this
    {
      forall k :: InOrder(PoolOf(k), maxSockets)
    }

    constructor (maxSockets: nat)
      ensures Valid() && this.maxSockets == maxSockets && nextSocket == 0
      ensures forall k :: PoolOf(k) == Pool([], [], [], [])
    {
      this.maxSockets := maxSockets;
      sockets, requests, nextSocket, destroyed := map[], map[], 0, [];
      given, arrived := map[], map[];
    }

    method CreateSocket(name: string) returns (socket: SocketId)
      modifies `sockets, `nextSocket
      ensures socket == old(nextSocket) && nextSocket == socket + 1
      ensures sockets == old(sockets)[name := Get(old(sockets), name) + [socket]]
    {
      socket := nextSocket;
      nextSocket := nextSocket + 1;
      if name !in sockets { sockets := sockets[name := []]; }
      sockets := sockets[name := sockets[name] + [socket]];
    }

    method AddRequest(req: RequestId, host: string, port: string, local: Option<string>)
      requires Valid()
      modifies this
      ensures Valid() && destroyed == old(destroyed)
      ensures var name := Name(host, port, local);
              && (old(Bounded(PoolOf(name), maxSockets)) ==> Bounded(PoolOf(name), maxSockets))
              && PoolOf(name) == Requested(old(PoolOf(name)), req, maxSockets, old(nextSocket))
              && forall k | k != name :: PoolOf(k) == old(PoolOf(k))
    {
      hide InOrder, Requested, Bounded, Name, PoolOf;
      var name := Name(host, port, local);
      RequestedOk(PoolOf(name), req, maxSockets, nextSocket);
      Add(req, name);
    }

    /** A fresh socket for the request, or a place in the queue. */
    method Add(req: RequestId, name: string)
      modifies this
      ensures destroyed == old(destroyed)
      ensures PoolOf(name) == Requested(old(PoolOf(name)), req, maxSockets, old(nextSocket))
      ensures forall k | k != name :: PoolOf(k) == old(PoolOf(k))
    {
      Arrive(req, name);
      hide PoolOf, Get;
      if |sockets[name]| < maxSockets { Connect(req, name); } else { Queue(req, name); }
    }

    method Arrive(req: RequestId, name: string)
      modifies `arrived, `sockets
      ensures name in sockets && sockets[name] == PoolOf(name).sockets
      ensures var p := old(PoolOf(name)); PoolOf(name) == p.(arrived := p.arrived + [req])
      ensures forall k | k != name :: PoolOf(k) == old(PoolOf(k))
    {
      arrived := arrived[name := Get(arrived, name) + [req]];
      if name !in sockets { sockets := sockets[name := []]; }
    }

    method Connect(req: RequestId, name: string)
      modifies `sockets, `nextSocket, `given
      ensures var p := old(PoolOf(name));
              PoolOf(name) == p.(sockets := p.sockets + [old(nextSocket)],
                                 given := p.given + [Handover(req, old(nextSocket))])
      ensures forall k | k != name :: PoolOf(k) == old(PoolOf(k))
    {
      var socket := CreateSocket(name);
      given := given[name := Get(given, name) + [Handover(req, socket)]];
    }

    method Queue(req: RequestId, name: string)
      modifies `requests
      ensures var p := old(PoolOf(name)); PoolOf(name) == p.(waiting := p.waiting + [req])
      ensures forall k | k != name :: PoolOf(k) == old(PoolOf(k))
    {
      if name !in requests { requests := requests[name := []]; }
      requests := requests[name := requests[name] + [req]];
    }

    /** The agent's own 'free' listener. */
    method OnFree(socket: SocketId, host: string, port: string, local: Option<string>)
      requires Valid()
      modifies this
      ensures Valid() && nextSocket == old(nextSocket)
      ensures var name := Name(host, port, local);
              && PoolOf(name) == Freed(old(PoolOf(name)), socket)
              && (forall k | k != name :: PoolOf(k) == old(PoolOf(k)))
              && destroyed == if old(PoolOf(name)).waiting == [] then old(destroyed) + [socket] else old(destroyed)
    {
      var name := Name(host, port, local);
      FreedOk(PoolOf(name), socket, maxSockets);
      Shift(socket, name);
    }

    method Shift(socket: SocketId, name: string)
      modifies `requests, `given, `destroyed
      ensures PoolOf(name) == Freed(old(PoolOf(name)), socket)
      ensures forall k | k != name :: PoolOf(k) == old(PoolOf(k))
      ensures destroyed == if old(PoolOf(name)).waiting == [] then old(destroyed) + [socket] else old(destroyed)
    {
      if name in requests && |requests[name]| > 0 {
        var req := requests[name][0];
        requests := requests[name := requests[name][1..]];
        given := given[name := Get(given, name) + [Handover(req, socket)]];
        if requests[name] == [] { requests := requests - {name}; }
      } else {
        destroyed := destroyed + [socket];
      }
    }

    /** The socket's 'close' and 'agentRemove' listeners. */
    method RemoveSocket(socket: SocketId, host: string, port: string, local: Option<string>)
      requires Valid()
      modifies this
      ensures Valid() && destroyed == old(destroyed)
      ensures var name := Name(host, port, local);
              && (old(Bounded(PoolOf(name), maxSockets)) ==>
                    (Bounded(PoolOf(name), maxSockets) <==> old(Orderly(PoolOf(name), Gone(socket)))))
              && PoolOf(name) == Lost(old(PoolOf(name)), socket, old(nextSocket))
              && Leaves(old(PoolOf(name)), socket, old(nextSocket), PoolOf(name))
              && forall k | k != name :: PoolOf(k) == old(PoolOf(k))
    {
      hide InOrder, Freed, Bounded, Name, PoolOf, Without, FirstOut;
      var name := Name(host, port, local);
      LostOk(PoolOf(name), socket, nextSocket, maxSockets);
      LostLeaves(PoolOf(name), socket, nextSocket);
      Unlist(socket, name);
      Replace(name);
    }

    method Unlist(socket: SocketId, name: string)
      modifies `sockets
      ensures var p := old(PoolOf(name)); PoolOf(name) == p.(sockets := Without(p.sockets, socket))
      ensures FirstOut(old(PoolOf(name)).sockets, socket, PoolOf(name).sockets)
      ensures forall k | k != name :: PoolOf(k) == old(PoolOf(k))
    {
      hide FirstOut, Without;
      WithoutNone([], socket);
      WithoutIs(Get(sockets, name), socket);
      if name in sockets {
        sockets := sockets[name := Without(sockets[name], socket)];
        if sockets[name] == [] { sockets := sockets - {name}; }
      }
    }

    /** If requests wait, a fresh socket takes the first one. */
    method Replace(name: string)
      modifies this
      ensures destroyed == old(destroyed)
      ensures var p := old(PoolOf(name));
              PoolOf(name) == if p.waiting == [] then p
                              else Freed(p.(sockets := p.sockets + [old(nextSocket)]), old(nextSocket))
      ensures forall k | k != name :: PoolOf(k) == old(PoolOf(k))
    {
      hide Freed;
      if name in requests && |requests[name]| > 0 {
        var brandNew := CreateSocket(name);
        Shift(brandNew, name);
      }
    }
  }
}

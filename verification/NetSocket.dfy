/** The life of a socket, include/libnode/detail/net/socket.h: its flags, the queue of writes made before
    the connection is open, the count of outstanding writes, and the deferred destruction. */
module NetSocket {
  import opened Wrappers

  type Bytes = string

  /** The bits of the flag word; `MustDestroy` is DESTROY_SOON. */
  datatype Flag =
    | Readable | Writable | Connecting | Paused | GotEof | Destroyed | MustDestroy
    | Shutdown | ShutdownQueued | ErrorEmitted | AllowHalfOpen

  /** A queued write; `again` says that its callback, called with an error, destroys the socket again. */
  datatype Entry = Entry(buf: Bytes, again: bool)

  /** What a listener or a callback may call. */
  datatype Call =
    | CallWrite(buf: Bytes, again: bool)
    | CallEnd(data: Option<Bytes>)
    | CallDestroySoon
    | CallDestroy

  function Bufs(queue: Option<seq<Entry>>): seq<Bytes> {
    match queue
    case None => []
    case Some(q) => seq(|q|, i requires 0 <= i < |q| => q[i].buf)
  }

  function Total(bufs: seq<Bytes>): nat {
    if bufs == [] then 0 else Total(bufs[..|bufs| - 1]) + |bufs[|bufs| - 1]|
  }

  lemma TotalSnoc(bufs: seq<Bytes>, b: Bytes)
    ensures Total(bufs + [b]) == Total(bufs) + |b|
  {
    assert (bufs + [b])[..|bufs|] == bufs;
  }

  lemma {:induction false} TotalZero(bufs: seq<Bytes>)
    ensures Total(bufs) == 0 <==> forall i | 0 <= i < |bufs| :: bufs[i] == ""
  {
    if bufs != [] { TotalZero(bufs[..|bufs| - 1]); }
  }

  lemma EmptyTotal()
    ensures Bufs(None) == [] && Total([]) == 0
  {
  }

  lemma BufsSnoc(q: seq<Entry>, e: Entry)
    ensures Bufs(Some(q + [e])) == Bufs(Some(q)) + [e.buf]
  {
  }

  function Ended(bufs: seq<Bytes>, data: Option<Bytes>): seq<Bytes> {
    match data
    case None => bufs
    case Some(d) => bufs + [d]
  }

  // ----- what the user's calls ask for -----

  /** The buffers passed to `write`, and these with the data passed to `end`. */
  function WrittenBy(calls: seq<Call>): seq<Bytes> {
    if calls == [] then []
    else
      var n := |calls| - 1;
      WrittenBy(calls[..n]) + if calls[n].CallWrite? then [calls[n].buf] else []
  }

  function PassedBy(calls: seq<Call>): seq<Bytes> {
    if calls == [] then []
    else
      var n := |calls| - 1;
      PassedBy(calls[..n]) + match calls[n] {
        case CallWrite(buf, _) => [buf]
        case CallEnd(data) => Ended([], data)
        case _ => []
      }
  }

  lemma CallsSnoc(calls: seq<Call>, call: Call)
    ensures WrittenBy(calls + [call]) == WrittenBy(calls) + WrittenBy([call])
    ensures PassedBy(calls + [call]) == PassedBy(calls) + PassedBy([call])
    ensures WrittenBy([call]) == if call.CallWrite? then [call.buf] else []
    ensures PassedBy([call]) == match call {
              case CallWrite(buf, _) => [buf]
              case CallEnd(data) => Ended([], data)
              case _ => []
            }
  {
    assert (calls + [call])[..|calls|] == calls && [call][..0] == [];
    assert WrittenBy([]) == [] && PassedBy([]) == [];
  }

  lemma CallsNone()
    ensures WrittenBy([]) == [] && PassedBy([]) == []
  {
  }

  /** `a` is `b` with some of its elements left out. */
  predicate Within(a: seq<Bytes>, b: seq<Bytes>)
    decreases |b|
  {
    || a == []
    || (b != []
        && (Within(a, b[..|b| - 1]) || (a[|a| - 1] == b[|b| - 1] && Within(a[..|a| - 1], b[..|b| - 1]))))
  }

  /** From `was` to `now`, everything in `least` was asked for, and nothing that is not in `most`, in order. */
  predicate Asks(was: seq<Bytes>, now: seq<Bytes>, least: seq<Bytes>, most: seq<Bytes>) {
    was <= now && Within(least, now[|was|..]) && Within(now[|was|..], most)
  }

  lemma {:induction false} WithinBoth(a: seq<Bytes>, b: seq<Bytes>, c: seq<Bytes>, d: seq<Bytes>)
    requires Within(a, b) && Within(c, d)
    ensures Within(a + c, b + d)
    decreases |b| + |d|
  {
    if d != [] {
      assert (b + d)[..|b + d| - 1] == b + d[..|d| - 1];
      if Within(c, d[..|d| - 1]) {
        WithinBoth(a, b, c, d[..|d| - 1]);
      } else {
        WithinBoth(a, b, c[..|c| - 1], d[..|d| - 1]);
        assert (a + c)[..|a + c| - 1] == a + c[..|c| - 1];
      }
    } else {
      assert a + c == a && b + d == b;
    }
  }

  lemma WithinItself(a: seq<Bytes>)
    ensures Within(a, a) && Within([], a)
  {
  }

  lemma AsksTwice(a: seq<Bytes>, b: seq<Bytes>, c: seq<Bytes>, least: seq<Bytes>, most: seq<Bytes>,
                  least': seq<Bytes>, most': seq<Bytes>)
    requires Asks(a, b, least, most) && Asks(b, c, least', most')
    ensures Asks(a, c, least + least', most + most')
  {
    hide Within;
    var d, e := b[|a|..], c[|b|..];
    assert b == a + d && c == b + e;
    assert c == a + (d + e) && c[|a|..] == d + e;
    WithinBoth(least, d, least', e);
    WithinBoth(d, most, e, most');
  }

  lemma AsksOne(a: seq<Bytes>, b: seq<Bytes>)
    ensures Asks(a, a + b, b, b) && Asks(a, a + b, [], b)
  {
    assert (a + b)[|a|..] == b;
    WithinItself(b);
  }

  lemma AsksLess(a: seq<Bytes>, b: seq<Bytes>, least: seq<Bytes>, most: seq<Bytes>)
    requires Asks(a, b, least, most)
    ensures Asks(a, b, [], most)
  {
  }

  lemma AsksFirst(b: seq<Bytes>, least: seq<Bytes>, most: seq<Bytes>)
    requires Asks([], b, least, most)
    ensures Within(least, b) && Within(b, most)
  {
    assert b[0..] == b;
  }

  lemma AsksNothing(a: seq<Bytes>, most: seq<Bytes>)
    ensures Asks(a, a, [], most)
  {
    assert a[|a|..] == [];
  }

  // ----- the invariant, part by part -----

  /** While it lives, the socket counts the write completions that are owed to it. */
  ghost predicate Counted(flags: set<Flag>, pending: nat, owed: nat) { Destroyed !in flags ==> pending == owed }

  /** A destroyed socket has nothing left, and closes once, or twice if an error callback destroyed it
      again. */
  ghost predicate Dead(flags: set<Flag>, handle: bool, queue: Option<seq<Entry>>, closes: nat, reentered: bool) {
    if Destroyed in flags then
      && !handle && Readable !in flags && Writable !in flags && Connecting !in flags && queue == None
      && closes == if reentered then 2 else 1
    else
      closes == 0 && !reentered && (Writable in flags || Connecting in flags ==> handle)
  }

  /** The connect queue: its size is the bytes in it, and while it is in use, what was asked for is what
      the handle took and then what is queued. */
  ghost predicate Conserved(flags: set<Flag>, queue: Option<seq<Entry>>, size: nat, taken: seq<Bytes>,
                            asked: seq<Bytes>, dispatched: nat)
  {
    && size == Total(Bufs(queue)) && dispatched == Total(taken)
    && (Connecting !in flags ==> size == 0)
    && (Destroyed !in flags && (Connecting in flags || queue == None) ==> taken + Bufs(queue) == asked)
    && (Connecting in flags ==> taken == [])
  }

  /** Shutdown is issued at most once, and the socket is not writable after it. */
  ghost predicate ShutOnce(flags: set<Flag>, shutdowns: nat) {
    && (Connecting in flags && ShutdownQueued in flags ==> Writable !in flags)
    && shutdowns <= 1 && (shutdowns == 1 ==> Shutdown in flags && Writable !in flags && Connecting !in flags)
  }

  /** What no call of the socket's user does: give Readable or Writable back, or take another flag away. */
  predicate Onward(g0: set<Flag>, g: set<Flag>) {
    && g <= g0 + {Destroyed, ErrorEmitted, Shutdown, ShutdownQueued, MustDestroy}
    && g0 - {Connecting, Readable, Writable} <= g
  }

  /** MustDestroy waits for a write. */
  ghost predicate Soon(flags: set<Flag>, pending: nat) {
    MustDestroy in flags && Destroyed !in flags ==> pending > 0
  }

  /** The flags of a socket that is destroyed. */
  function Killed(g: set<Flag>, err: bool): set<Flag> {
    g - {Connecting, Readable, Writable} + {Destroyed} + if err then {ErrorEmitted} else {}
  }

  /** What `end` does to a writable socket whose data is taken. A readable one is shut down and goes on reading,
      or is destroyed if the handle refuses the shutdown; any other is destroyed, at once if it is `idle`,
      which means that no write is outstanding, and otherwise with the last write. */
  ghost predicate EndedAs(g0: set<Flag>, g: set<Flag>, idle: bool, fails: bool, before: nat, shutdowns: nat) {
    if Readable in g0 then
      if fails then g == Killed(g0 + {Shutdown}, true) && shutdowns == before
      else g == g0 - {Writable} + {Shutdown} && shutdowns == before + 1
    else
      shutdowns == before && g == if idle then Killed(g0 + {MustDestroy}, false) else g0 - {Writable} + {MustDestroy}
  }

  /** A socket that is open and no longer writable has been shut down, or is or will be destroyed. */
  ghost predicate Concluded(flags: set<Flag>, shutdowns: nat) {
    Writable !in flags && Connecting !in flags ==> Destroyed in flags || MustDestroy in flags || shutdowns == 1
  }

  /** Nothing undoes that. */
  ghost predicate Concludes(g0: set<Flag>, before: nat, g: set<Flag>, shutdowns: nat) {
    before <= shutdowns && (Concluded(g0, before) ==> Concluded(g, shutdowns))
  }

  /** The user has ended the socket: it is not writable, or will not be when it is connected. */
  predicate Over(flags: set<Flag>) { Writable !in flags && (Connecting in flags ==> ShutdownQueued in flags) }

  lemma SameQueue(g: set<Flag>, g': set<Flag>, queue: Option<seq<Entry>>, size: nat, taken: seq<Bytes>,
                  asked: seq<Bytes>, dispatched: nat)
    requires Conserved(g, queue, size, taken, asked, dispatched)
    requires (Connecting in g <==> Connecting in g') && (Destroyed in g <==> Destroyed in g')
    ensures Conserved(g', queue, size, taken, asked, dispatched)
  {
  }

  /** Destruction empties the queue. */
  lemma GoneQueue(g: set<Flag>, queue: Option<seq<Entry>>, size: nat, taken: seq<Bytes>, asked: seq<Bytes>,
                  dispatched: nat)
    requires Conserved(g, queue, size, taken, asked, dispatched)
    ensures forall g' | Destroyed in g' && Connecting !in g' :: Conserved(g', None, 0, taken, asked, dispatched)
  {
  }

  /** One more write, into the queue... */
  lemma QueuedOne(g: set<Flag>, queue: Option<seq<Entry>>, size: nat, taken: seq<Bytes>, asked: seq<Bytes>,
                  dispatched: nat, e: Entry)
    requires Conserved(g, queue, size, taken, asked, dispatched) && Connecting in g
    ensures var q := (if queue.None? then [] else queue.value) + [e];
            && Bufs(Some(q)) == Bufs(queue) + [e.buf]
            && Conserved(g, Some(q), size + |e.buf|, taken, asked + [e.buf], dispatched)
  {
    hide Total;
    var q := if queue.None? then [] else queue.value;
    assert Bufs(Some(q)) == Bufs(queue);
    BufsSnoc(q, e);
    TotalSnoc(Bufs(queue), e.buf);
    assert taken + (Bufs(queue) + [e.buf]) == taken + Bufs(queue) + [e.buf];
  }

  /** ... to the handle, or refused by it. */
  lemma TakenOne(g: set<Flag>, queue: Option<seq<Entry>>, size: nat, taken: seq<Bytes>, asked: seq<Bytes>,
                 dispatched: nat, buf: Bytes)
    requires Conserved(g, queue, size, taken, asked, dispatched) && Connecting !in g
    ensures Destroyed !in g ==> Conserved(g, queue, size, taken + [buf], asked + [buf], dispatched + |buf|)
    ensures forall g' | Destroyed in g' && Connecting !in g' ::
              && Conserved(g', None, 0, taken, asked + [buf], dispatched)
              && Conserved(g', queue, size, taken, asked + [buf], dispatched)
  {
    hide Total;
    EmptyTotal();
    TotalSnoc(taken, buf);
    assert taken + [] == taken && taken + [buf] + [] == taken + [buf];
  }

  /** The handle takes everything in the queue. */
  predicate Lasting(failsAfter: Option<nat>, queue: Option<seq<Entry>>) {
    failsAfter.Some? && queue.Some? ==> failsAfter.value >= |queue.value|
  }

  class Socket {
    var flags: set<Flag>
    var handle: bool
    var pendingWriteReqs: nat
    var connectQueueSize: nat
    var connectQueue: Option<seq<Entry>>
    var bytesDispatched: nat
    var bytesRead: nat
    var owed: nat                       // the handle's own count: write completions still to come

    /** The environment: after how many writes the handle refuses one, and whether shutdown fails; and the
        build variant that removes listeners. */
    var failsAfter: Option<nat>
    const shutdownFails: bool
    const removeListener: bool

    ghost var asked: seq<Bytes>         // every buffer passed to `write`
    ghost var taken: seq<Bytes>         // every buffer the handle took
    ghost var shutdowns: nat            // shutdowns issued
    ghost var closes: nat               // 'close' events scheduled
    ghost var errors: nat               // 'error' events scheduled
    ghost var reentered: bool           // an error callback destroyed the socket again

    ghost predicate Core()
      reads this
    {
      && Counted(flags, pendingWriteReqs, owed)
      && Dead(flags, handle, connectQueue, closes, reentered)
      && Conserved(flags, connectQueue, connectQueueSize, taken, asked, bytesDispatched)
      && ShutOnce(flags, shutdowns)
      && errors == if ErrorEmitted in flags then 1 else 0
    }

    ghost predicate Valid()
      reads this
    {
      Core() && Soon(flags, pendingWriteReqs)
    }

    /** `initSocketHandle` zeroes the flags, AllowHalfOpen with them. */
    constructor (handle: bool, allowHalfOpen: bool, failsAfter: Option<nat>, shutdownFails: bool, removeListener: bool)
      ensures Valid() && flags == {} && this.handle == handle && connectQueue == None
      ensures asked == [] && taken == [] && owed == 0 && shutdowns == 0 && bytesRead == 0
      ensures this.failsAfter == failsAfter && this.shutdownFails == shutdownFails
      ensures this.removeListener == removeListener
    {
      this.handle, this.failsAfter, this.shutdownFails := handle, failsAfter, shutdownFails;
      this.removeListener := removeListener;
      flags := if allowHalfOpen then {AllowHalfOpen} else {};
      flags := {};
      pendingWriteReqs, connectQueueSize, connectQueue, bytesDispatched, bytesRead := 0, 0, None, 0, 0;
      asked, taken, owed, shutdowns, closes, errors, reentered := [], [], 0, 0, 0, 0, false;
    }

    /** What the server does with an accepted socket. */
    method Open()
      requires Valid() && handle && flags == {}
      modifies `flags
      ensures Valid() && flags == {Readable, Writable}
    {
      flags := flags + {Readable, Writable};
    }

    method ConnectQueueCleanUp()
      modifies `flags, `connectQueueSize, `connectQueue
      ensures flags == old(flags) - {Connecting} && connectQueueSize == 0 && connectQueue == None
    {
      flags := flags - {Connecting};
      connectQueueSize := 0;
      connectQueue := None;
    }

    method FireErrorCallbacks(err: bool)
      modifies `flags, `errors
      ensures flags == old(flags) + (if err then {ErrorEmitted} else {})
      ensures errors == old(errors) + if err && ErrorEmitted !in old(flags) then 1 else 0
    {
      if err && ErrorEmitted !in flags {
        errors := errors + 1;
        flags := flags + {ErrorEmitted};
      }
    }

    /** `destroy(err, cb)`; `again` says that there is a callback and that it calls `destroy` itself. The
        flag Destroyed is set only after the callback has been called. */
    method Destroy(err: bool, again: bool) returns (r: bool)
      modifies `flags, `handle, `connectQueueSize, `connectQueue, `closes, `errors, `reentered
      ensures r == (Destroyed !in old(flags)) && Destroyed in flags
      ensures r ==>
                && flags == old(flags) - {Connecting, Readable, Writable} + {Destroyed}
                            + (if err then {ErrorEmitted} else {})
                && !handle && connectQueue == None && connectQueueSize == 0
                && closes == old(closes) + (if again then 2 else 1) && reentered == (old(reentered) || again)
                && errors == old(errors) + if err && ErrorEmitted !in old(flags) then 1 else 0
      ensures !r ==>
                && handle == old(handle) && connectQueue == old(connectQueue)
                && connectQueueSize == old(connectQueueSize)
                && closes == old(closes) && reentered == old(reentered)
                && flags == old(flags) + (if err && !removeListener then {ErrorEmitted} else {})
                && errors == old(errors) + if err && !removeListener && ErrorEmitted !in old(flags) then 1 else 0
      decreases if again then 1 else 0
    {
      if Destroyed in flags {
        if !removeListener { FireErrorCallbacks(err); }
        return false;
      }
      ConnectQueueCleanUp();
      flags := flags - {Readable};
      flags := flags - {Writable};
      if handle { handle := false; }
      if again {
        var _ := Destroy(false, false);
        reentered := true;
      }
      FireErrorCallbacks(err);
      closes := closes + 1;
      flags := flags + {Destroyed};
      return true;
    }

    // ----- writing and ending -----

    /** `writeBuffer`. */
    method WriteBuffer(buf: Bytes, again: bool) returns (ok: bool)
      modifies this
      ensures bytesRead == old(bytesRead) && asked == old(asked)
      ensures shutdowns == old(shutdowns)
      ensures ok == (old(handle) && old(failsAfter) != Some(0))
      ensures ok ==>
                && flags == old(flags) && handle && connectQueue == old(connectQueue)
                && connectQueueSize == old(connectQueueSize) && closes == old(closes) && errors == old(errors)
                && reentered == old(reentered) && pendingWriteReqs == old(pendingWriteReqs) + 1 && owed == old(owed) + 1
                && taken == old(taken) + [buf] && bytesDispatched == old(bytesDispatched) + |buf|
                && failsAfter == if old(failsAfter).None? then None else Some(old(failsAfter).value - 1)
      ensures !ok ==>
                && Destroyed in flags && pendingWriteReqs == old(pendingWriteReqs) && owed == old(owed)
                && taken == old(taken) && bytesDispatched == old(bytesDispatched)
                && (Destroyed !in old(flags) ==>
                      && flags == old(flags) - {Connecting, Readable, Writable} + {Destroyed, ErrorEmitted}
                      && !handle && connectQueue == None && connectQueueSize == 0
                      && closes == old(closes) + (if again then 2 else 1) && reentered == (old(reentered) || again)
                      && errors == old(errors) + if ErrorEmitted in old(flags) then 0 else 1)
                && (Destroyed in old(flags) ==>
                      && flags == old(flags) + (if removeListener then {} else {ErrorEmitted})
                      && handle == old(handle) && connectQueue == old(connectQueue)
                      && connectQueueSize == old(connectQueueSize)
                      && closes == old(closes) && reentered == old(reentered)
                      && errors == old(errors) + if !removeListener && ErrorEmitted !in old(flags) then 1 else 0)
    {
      if !handle {
        var _ := Destroy(true, again);
        return false;
      }
      if failsAfter == Some(0) {
        var _ := Destroy(true, again);
        return false;
      }
      if failsAfter.Some? { failsAfter := Some(failsAfter.value - 1); }
      taken, owed := taken + [buf], owed + 1;
      pendingWriteReqs := pendingWriteReqs + 1;
      bytesDispatched := bytesDispatched + |buf|;
      ok := true;
    }

    /** `write`: into the connect queue while the connection is not open, to the handle afterwards. */
    method Write(buf: Bytes, again: bool) returns (ok: bool)
      requires Core()
      modifies this
      ensures Core() && (old(Soon(flags, pendingWriteReqs)) ==> Soon(flags, pendingWriteReqs))
      ensures asked == old(asked) + [buf]
      ensures Connecting in old(flags) ==>
                && !ok && flags == old(flags) && taken == old(taken) && owed == old(owed)
                && Bufs(connectQueue) == Bufs(old(connectQueue)) + [buf]
                && connectQueue == Some((if old(connectQueue).None? then [] else old(connectQueue).value)
                                        + [Entry(buf, again)])
      ensures Connecting !in old(flags) ==>
                && ok == (old(handle) && old(failsAfter) != Some(0))
                && taken == (if ok then old(taken) + [buf] else old(taken))
                && (ok ==> flags == old(flags) && owed == old(owed) + 1 && connectQueue == old(connectQueue))
                && (ok ==> handle && failsAfter == if old(failsAfter).None? then None
                                                   else Some(old(failsAfter).value - 1))
                && (!ok ==> Destroyed in flags)
                && (!ok && Destroyed !in old(flags) ==> flags == Killed(old(flags), true))
      ensures reentered == (old(reentered) || (Destroyed in flags && Destroyed !in old(flags) && again))
      ensures Onward(old(flags), flags) && shutdowns == old(shutdowns)
      ensures pendingWriteReqs == old(pendingWriteReqs) + if ok then 1 else 0
      ensures Concludes(old(flags), old(shutdowns), flags, shutdowns)
    {
      hide Total, Conserved;
      if Connecting in flags {
        Enqueue(buf, again);
        return false;
      }
      TakenOne(flags, connectQueue, connectQueueSize, taken, asked, bytesDispatched, buf);
      asked := asked + [buf];
      ok := WriteBuffer(buf, again);
    }

    /** `write` while connecting. */
    method Enqueue(buf: Bytes, again: bool)
      requires Core() && Connecting in flags
      modifies `connectQueueSize, `connectQueue, `asked
      ensures Core() && asked == old(asked) + [buf]
      ensures Bufs(connectQueue) == Bufs(old(connectQueue)) + [buf]
      ensures connectQueue == Some((if old(connectQueue).None? then [] else old(connectQueue).value)
                                   + [Entry(buf, again)])
    {
      hide Total, Conserved, Counted, ShutOnce;
      var queue := if connectQueue.None? then [] else connectQueue.value;
      QueuedOne(flags, connectQueue, connectQueueSize, taken, asked, bytesDispatched, Entry(buf, again));
      asked := asked + [buf];
      connectQueueSize := connectQueueSize + |buf|;
      connectQueue := Some(queue + [Entry(buf, again)]);
    }

    /** `destroySoon`: at once if no write is outstanding, otherwise with the last one. */
    method DestroySoon() returns (r: bool)
      requires Core()
      modifies this
      ensures Core() && (old(Soon(flags, pendingWriteReqs)) ==> Soon(flags, pendingWriteReqs))
      ensures r == (Destroyed !in old(flags)) && Writable !in flags && asked == old(asked) && taken == old(taken)
      ensures Destroyed in flags <==> Destroyed in old(flags) || old(pendingWriteReqs) == 0
      ensures r && Destroyed !in flags ==> flags == old(flags) - {Writable} + {MustDestroy} && handle == old(handle)
      ensures !r ==> flags == old(flags) && handle == old(handle)
      ensures r && Destroyed in flags ==> flags == Killed(old(flags) + {MustDestroy}, false)
      ensures reentered == old(reentered)
      ensures shutdowns == old(shutdowns) && owed == old(owed) && (handle ==> old(handle))
      ensures Onward(old(flags), flags)
      ensures Concludes(old(flags), old(shutdowns), flags, shutdowns)
    {
      hide Total;
      EmptyTotal();
      if Destroyed in flags { return false; }
      flags := flags - {Writable};
      flags := flags + {MustDestroy};
      if pendingWriteReqs > 0 {
        return true;
      } else {
        r := Destroy(false, false);
      }
    }

    /** `end`. While the connection is not open, the shutdown is queued behind the writes. */
    method End(data: Option<Bytes>) returns (r: bool)
      requires Core()
      modifies this
      ensures Core() && (old(Soon(flags, pendingWriteReqs)) ==> Soon(flags, pendingWriteReqs))
      ensures Writable !in flags && Onward(old(flags), flags)
      ensures data == None ==> asked == old(asked) && taken == old(taken)
      ensures asked == old(asked) || asked == Ended(old(asked), data)
      ensures Over(old(flags)) ==>
                && !r && flags == old(flags) && asked == old(asked) && taken == old(taken)
                && shutdowns == old(shutdowns)
      ensures Connecting in old(flags) && ShutdownQueued !in old(flags) ==>
                && !r && flags == old(flags) - {Writable} + {ShutdownQueued} && shutdowns == old(shutdowns)
                && asked == Ended(old(asked), data)
      ensures shutdowns > old(shutdowns) ==> r && Connecting !in old(flags) && taken == Ended(old(taken), data)
      ensures Writable in old(flags) && Connecting !in old(flags) && (data == None || old(failsAfter) != Some(0)) ==>
                && EndedAs(old(flags), flags, old(pendingWriteReqs) == 0 && data == None, shutdownFails,
                           old(shutdowns), shutdowns)
                && r == !(Readable in old(flags) && shutdownFails)
                && asked == Ended(old(asked), data) && taken == Ended(old(taken), data)
      ensures Writable in old(flags) && Connecting !in old(flags) && data != None && old(failsAfter) == Some(0) ==>
                && !r && flags == Killed(old(flags), true) && shutdowns == old(shutdowns)
                && asked == Ended(old(asked), data)
      ensures Over(flags) && reentered == old(reentered)
      ensures Connecting in old(flags) && ShutdownQueued !in old(flags) && data != None ==>
                connectQueue == Some((if old(connectQueue).None? then [] else old(connectQueue).value)
                                     + [Entry(data.value, false)])
      ensures Concludes(old(flags), old(shutdowns), flags, shutdowns)
    {
      hide Total, Conserved;
      if Connecting in flags && ShutdownQueued !in flags {
        if data.Some? { var _ := Write(data.value, false); }
        flags := flags - {Writable};
        flags := flags + {ShutdownQueued};
        SameQueue(old(flags), flags, connectQueue, connectQueueSize, taken, asked, bytesDispatched);
      }
      if Writable !in flags {
        return false;
      }
      r := EndOpen(data);
    }

    /** `end` of a writable socket: the data, and then destruction or shutdown. */
    method EndOpen(data: Option<Bytes>) returns (r: bool)
      requires Core() && Writable in flags && Connecting !in flags
      modifies this
      ensures Core() && (old(Soon(flags, pendingWriteReqs)) ==> Soon(flags, pendingWriteReqs))
      ensures Writable !in flags && Onward(old(flags), flags)
      ensures data == None ==> asked == old(asked) && taken == old(taken)
      ensures asked == Ended(old(asked), data)
      ensures shutdowns > old(shutdowns) ==> r && taken == Ended(old(taken), data)
      ensures data == None || old(failsAfter) != Some(0) ==>
                && EndedAs(old(flags), flags, old(pendingWriteReqs) == 0 && data == None, shutdownFails,
                           old(shutdowns), shutdowns)
                && r == !(Readable in old(flags) && shutdownFails) && taken == Ended(old(taken), data)
      ensures data != None && old(failsAfter) == Some(0) ==>
                !r && flags == Killed(old(flags), true) && shutdowns == old(shutdowns)
      ensures reentered == old(reentered)
    {
      hide Total, Conserved;
      flags := flags - {Writable};
      SameQueue(old(flags), flags, connectQueue, connectQueueSize, taken, asked, bytesDispatched);
      if data.Some? {
        var ok := Write(data.value, false);
        assert !ok ==> Readable !in flags;
      }
      r := EndHandle();
    }

    method EndHandle() returns (r: bool)
      requires Core() && Writable !in flags && Connecting !in flags && shutdowns == 0
      modifies this
      ensures Core() && (old(Soon(flags, pendingWriteReqs)) ==> Soon(flags, pendingWriteReqs))
      ensures Writable !in flags && Onward(old(flags), flags) && taken == old(taken) && asked == old(asked)
      ensures shutdowns > 0 ==> r && Destroyed !in flags
      ensures Destroyed !in old(flags) ==>
                && EndedAs(old(flags), flags, old(pendingWriteReqs) == 0, shutdownFails, old(shutdowns), shutdowns)
                && r == !(Readable in old(flags) && shutdownFails)
                && (Destroyed !in flags ==> handle == old(handle))
      ensures Destroyed in old(flags) ==> !r && flags == old(flags) && shutdowns == old(shutdowns)
      ensures reentered == old(reentered)
    {
      hide Total, Conserved;
      if Readable !in flags {
        r := DestroySoon();
      } else {
        flags := flags + {Shutdown};
        SameQueue(old(flags), flags, connectQueue, connectQueueSize, taken, asked, bytesDispatched);
        if shutdownFails {
          GoneQueue(flags, connectQueue, connectQueueSize, taken, asked, bytesDispatched);
          var _ := Destroy(true, false);
          return false;
        }
        shutdowns := shutdowns + 1;
        return true;
      }
    }

    // ----- listeners, callbacks and the events of the handle -----

    /** The calls that a listener or callback makes. */
    method React(calls: seq<Call>)
      requires Core()
      modifies this
      ensures Core() && (old(Soon(flags, pendingWriteReqs)) ==> Soon(flags, pendingWriteReqs))
      ensures Onward(old(flags), flags)
      ensures Concludes(old(flags), old(shutdowns), flags, shutdowns)
      ensures calls == [] ==>
                && flags == old(flags) && pendingWriteReqs == old(pendingWriteReqs) && owed == old(owed)
                && taken == old(taken) && asked == old(asked) && bytesDispatched == old(bytesDispatched)
                && connectQueue == old(connectQueue) && shutdowns == old(shutdowns) && closes == old(closes)
                && handle == old(handle) && failsAfter == old(failsAfter) && reentered == old(reentered)
      ensures Asks(old(asked), asked, WrittenBy(calls), PassedBy(calls))
    {
      hide Total, Counted, Dead, Conserved, ShutOnce, Asks;
      AsksNothing(asked, []);
      assert WrittenBy([]) == [] && PassedBy([]) == [];
      hide WrittenBy, PassedBy;
      for i := 0 to |calls|
        invariant Core() && (old(Soon(flags, pendingWriteReqs)) ==> Soon(flags, pendingWriteReqs))
        invariant Onward(old(flags), flags)
        invariant Concludes(old(flags), old(shutdowns), flags, shutdowns)
        invariant i == 0 ==>
                    && flags == old(flags) && pendingWriteReqs == old(pendingWriteReqs) && owed == old(owed)
                    && taken == old(taken) && asked == old(asked) && bytesDispatched == old(bytesDispatched)
                    && connectQueue == old(connectQueue) && shutdowns == old(shutdowns) && closes == old(closes)
                    && handle == old(handle) && failsAfter == old(failsAfter) && reentered == old(reentered)
        invariant Asks(old(asked), asked, WrittenBy(calls[..i]), PassedBy(calls[..i]))
      {
        ghost var was := asked;
        Do(calls[i]);
        assert calls[..i + 1] == calls[..i] + [calls[i]];
        CallsSnoc(calls[..i], calls[i]);
        AsksTwice(old(asked), was, asked, WrittenBy(calls[..i]), PassedBy(calls[..i]),
                  WrittenBy([calls[i]]), PassedBy([calls[i]]));
      }
      assert calls[..|calls|] == calls;
    }

    /** One call. */
    method Do(call: Call)
      requires Core()
      modifies this
      ensures Core() && (old(Soon(flags, pendingWriteReqs)) ==> Soon(flags, pendingWriteReqs))
      ensures Onward(old(flags), flags)
      ensures Concludes(old(flags), old(shutdowns), flags, shutdowns)
      ensures call.CallEnd? ==> Over(flags)
      ensures call.CallDestroy? && Destroyed !in old(flags) ==> flags == Killed(old(flags), false)
      ensures call.CallDestroySoon? && Destroyed !in old(flags) ==>
                flags == if old(pendingWriteReqs) == 0 then Killed(old(flags) + {MustDestroy}, false)
                         else old(flags) - {Writable} + {MustDestroy}
      ensures !call.CallWrite? ==> reentered == old(reentered)
      ensures Asks(old(asked), asked, WrittenBy([call]), PassedBy([call]))
    {
      hide Total, Counted, Dead, Conserved, ShutOnce, Asks, WrittenBy, PassedBy;
      CallsSnoc([], call);
      AsksNothing(asked, PassedBy([call]));
      match call {
        case CallWrite(buf, again) =>
          AsksOne(asked, [buf]);
          var _ := Write(buf, again);
        case CallEnd(data) =>
          AsksOne(asked, Ended([], data));
          assert Ended(asked, data) == asked + Ended([], data);
          var _ := End(data);
        case CallDestroySoon => var _ := DestroySoon();
        case CallDestroy => var _ := Kill(false, false);
      }
    }

    /** `destroy` as the other parts of the socket call it. */
    method Kill(err: bool, again: bool) returns (r: bool)
      requires Dead(flags, handle, connectQueue, closes, reentered) && ShutOnce(flags, shutdowns)
      requires Conserved(flags, connectQueue, connectQueueSize, taken, asked, bytesDispatched)
      requires errors == (if ErrorEmitted in flags then 1 else 0) && (Destroyed in flags ==> Core())
      modifies `flags, `handle, `connectQueueSize, `connectQueue, `closes, `errors, `reentered
      ensures Core() && Soon(flags, pendingWriteReqs) && Destroyed in flags && r == (Destroyed !in old(flags))
      ensures Onward(old(flags), flags) && (r ==> closes == if again then 2 else 1)
      ensures shutdowns == old(shutdowns) && Concluded(flags, shutdowns)
      ensures reentered == (old(reentered) || (r && again)) && (r ==> flags == Killed(old(flags), err))
    {
      EmptyTotal();
      r := Destroy(err, again);
    }

    /** AfterWrite. `drain` and `cb` are what the 'drain' listeners and the write's callback do; `again` is
        what its callback does when it is called with an error. With the last completion the socket that is
        to be destroyed soon is destroyed. */
    method AfterWrite(ok: bool, drain: seq<Call>, cb: seq<Call>, again: bool)
      requires Valid() && owed > 0
      modifies this
      ensures Valid() && Onward(old(flags), flags)
      ensures Concludes(old(flags), old(shutdowns), flags, shutdowns)
      ensures !ok ==> Destroyed in flags && owed == old(owed) - 1
      ensures !ok && Destroyed !in old(flags) ==>
                flags == Killed(old(flags), true) && reentered == (old(reentered) || again) && asked == old(asked)
      ensures Destroyed in old(flags) ==> owed == old(owed) - 1 && flags == old(flags) && asked == old(asked)
      ensures ok && drain == [] && cb == [] && Destroyed !in old(flags) ==>
                && owed == old(owed) - 1 && reentered == old(reentered)
                && flags == if owed == 0 && MustDestroy in old(flags) then Killed(old(flags), false) else old(flags)
      ensures ok && Destroyed !in old(flags) ==>
                Asks(old(asked), asked, (if old(owed) == 1 then WrittenBy(drain) else []) + WrittenBy(cb),
                     (if old(owed) == 1 then PassedBy(drain) else []) + PassedBy(cb))
      ensures Asks(old(asked), asked, [], PassedBy(drain) + PassedBy(cb))
    {
      hide Total, Dead, Conserved, ShutOnce, Asks, WrittenBy, PassedBy, Concluded;
      AsksNothing(asked, PassedBy(drain) + PassedBy(cb));
      AsksNothing(asked, PassedBy(drain));
      owed := owed - 1;
      if Destroyed in flags { return; }
      if !ok {
        var _ := Kill(true, again);
        return;
      }
      pendingWriteReqs := pendingWriteReqs - 1;
      ghost var none: seq<Call> := [];
      CallsNone();
      ghost var run := if pendingWriteReqs == 0 then drain else none;
      if pendingWriteReqs == 0 { React(drain); } else { AsksNothing(asked, []); }
      ghost var was := asked;
      React(cb);
      AsksTwice(old(asked), was, asked, WrittenBy(run), PassedBy(run), WrittenBy(cb), PassedBy(cb));
      AsksLess(old(asked), was, if was == old(asked) then [] else WrittenBy(drain), PassedBy(drain));
      AsksLess(was, asked, WrittenBy(cb), PassedBy(cb));
      AsksTwice(old(asked), was, asked, [], PassedBy(drain), [], PassedBy(cb));
      AsksLess(old(asked), asked, [] + [], PassedBy(drain) + PassedBy(cb));
      if pendingWriteReqs == 0 && MustDestroy in flags { var _ := Kill(false, false); }
    }

    /** AfterShutdown. */
    method AfterShutdown()
      requires Valid() && Shutdown in flags
      modifies this
      ensures Valid() && Onward(old(flags), flags)
      ensures Concludes(old(flags), old(shutdowns), flags, shutdowns)
      ensures flags == if Destroyed !in old(flags) && (GotEof in old(flags) || Readable !in old(flags))
                       then Killed(old(flags), false) else old(flags)
      ensures asked == old(asked) && reentered == old(reentered)
    {
      hide Total, Dead, Conserved, ShutOnce;
      if Destroyed in flags {
        return;
      } else if GotEof in flags || Readable !in flags {
        var _ := Kill(false, false);
      }
    }

    /** OnRead at the end of the stream; `onEnd` is what the 'end' listeners do. */
    method OnEof(onEnd: seq<Call>)
      requires Valid() && handle && Destroyed !in flags && GotEof !in flags
      modifies this
      ensures Valid() && (onEnd == [] ==> GotEof in flags && Readable !in flags)
      ensures onEnd == [] && Writable !in old(flags) ==> Destroyed in flags
      ensures Over(old(flags)) ==> Over(flags)
      ensures Concludes(old(flags), old(shutdowns), flags, shutdowns)
      ensures AllowHalfOpen in flags ==> AllowHalfOpen in old(flags)
      ensures onEnd == [] && AllowHalfOpen !in old(flags) && Connecting !in old(flags) ==> Writable !in flags
      ensures Asks(old(asked), asked, [], PassedBy(onEnd))
    {
      hide Total, Conserved, Counted, Dead, ShutOnce, Soon, Asks, WrittenBy, PassedBy;
      GotEnd();
      React(onEnd);
      AsksLess(old(asked), asked, WrittenBy(onEnd), PassedBy(onEnd));
    }

    /** The same up to the 'end' event. */
    method GotEnd()
      requires Valid() && handle && Destroyed !in flags && GotEof !in flags
      modifies this
      ensures Valid() && GotEof in flags && Readable !in flags && asked == old(asked)
      ensures Writable !in old(flags) ==> Destroyed in flags
      ensures Writable !in old(flags) && Connecting !in old(flags) ==> flags == Killed(old(flags) + {GotEof}, false)
      ensures reentered == old(reentered)
      ensures Over(old(flags)) ==> Over(flags)
      ensures Concludes(old(flags), old(shutdowns), flags, shutdowns)
      ensures AllowHalfOpen in flags ==> AllowHalfOpen in old(flags)
      ensures AllowHalfOpen !in old(flags) && Connecting !in old(flags) ==> Writable !in flags
    {
      hide Total, Conserved;
      flags := flags - {Readable};
      flags := flags + {GotEof};
      SameQueue(old(flags), flags, connectQueue, connectQueueSize, taken, asked, bytesDispatched);
      hide Counted, Dead, ShutOnce;
      if Writable !in flags { var _ := Kill(false, false); }
      if AllowHalfOpen !in flags { var _ := End(None); }
    }

    method OnReadError()
      requires Valid() && handle
      modifies this
      ensures Valid() && Destroyed in flags && asked == old(asked) && Onward(old(flags), flags)
      ensures Destroyed !in old(flags) ==> flags == Killed(old(flags), true) && reentered == old(reentered)
      ensures AllowHalfOpen in flags ==> AllowHalfOpen in old(flags)
    {
      var _ := Kill(true, false);
    }

    method OnData(n: nat)
      requires Valid() && handle
      modifies `bytesRead
      ensures Valid() && bytesRead == old(bytesRead) + n
    {
      bytesRead := bytesRead + n;
    }

    /** `bytesWritten`, with no queue taken as an empty one. */
    method BytesWritten() returns (bytes: nat)
      requires Core()
      ensures bytes == bytesDispatched + Total(Bufs(connectQueue))
    {
      bytes := bytesDispatched;
      if connectQueue.Some? {
        var q := connectQueue.value;
        ghost var bufs := Bufs(connectQueue);
        assert bufs[..0] == [];
        for i := 0 to |q|
          invariant bytes == bytesDispatched + Total(bufs[..i])
        {
          assert bufs[..i + 1] == bufs[..i] + [q[i].buf];
          TotalSnoc(bufs[..i], q[i].buf);
          bytes := bytes + |q[i].buf|;
        }
        assert bufs[..|q|] == bufs;
      }
    }

    // ----- connecting -----

    /** `connect` of a socket that has not been used; `ok` says that the handle starts to connect. */
    method Connect(ok: bool)
      requires Valid() && flags == {} && connectQueue == None && asked == [] && owed == 0 && shutdowns == 0
      modifies this
      ensures Valid() && asked == []
      ensures if ok then flags == {Connecting, Writable} && handle && connectQueue == None
              else flags == {Destroyed, ErrorEmitted} && reentered == old(reentered)
      ensures bytesRead == if old(handle) then old(bytesRead) else 0
    {
      EmptyTotal();
      if !handle {
        handle := true;
        flags := {};
        pendingWriteReqs, connectQueueSize, bytesRead, bytesDispatched := 0, 0, 0, 0;
      }
      flags := flags + {Connecting};
      flags := flags + {Writable};
      if !ok { var _ := Kill(true, false); }
    }

    /** In the flush of the queue `q`: the first `i` buffers have reached the handle, or the socket is
        destroyed. */
    ghost predicate Flushing(q: seq<Entry>, i: nat, g: set<Flag>)
      reads this
    {
      && i <= |q|
      && Counted(flags, pendingWriteReqs, owed) && Dead(flags, handle, connectQueue, closes, reentered)
      && errors == (if ErrorEmitted in flags then 1 else 0) && shutdowns == 0
      && bytesDispatched == Total(taken) && Connecting !in flags
      && (Destroyed !in flags ==> flags == g && handle && taken == Bufs(Some(q[..i])))
    }

    /** One turn of the flush. */
    method FlushOne(q: seq<Entry>, i: nat, ghost g: set<Flag>)
      requires Flushing(q, i, g) && i < |q| && Onward(g, flags)
      requires Destroyed !in flags ==> connectQueue == Some(q)
      modifies this
      ensures Flushing(q, i + 1, g) && Onward(g, flags) && asked == old(asked)
      ensures ShutdownQueued in flags <==> ShutdownQueued in old(flags)
      ensures Destroyed in old(flags) ==> Destroyed in flags
      ensures Destroyed !in flags ==>
                && connectQueue == Some(q) && owed == old(owed) + 1 && old(failsAfter) != Some(0)
                && failsAfter == if old(failsAfter).None? then None else Some(old(failsAfter).value - 1)
      ensures Destroyed in flags && Destroyed !in old(flags) ==> old(failsAfter) == Some(0)
    {
      hide Total;
      TotalSnoc(taken, q[i].buf);
      assert q[..i + 1] == q[..i] + [q[i]];
      BufsSnoc(q[..i], q[i]);
      var _ := WriteBuffer(q[i].buf, q[i].again);
    }

    /** The flush of the connect queue, with the clean-up behind it. */
    method FlushQueue(q: seq<Entry>)
      requires Flushing(q, 0, flags) && Destroyed !in flags && connectQueue == Some(q) && asked == Bufs(Some(q))
      modifies this
      ensures Core() && asked == old(asked) && connectQueue == None && shutdowns == 0
      ensures Onward(old(flags), flags) && (ShutdownQueued in flags <==> ShutdownQueued in old(flags))
      ensures Destroyed !in flags ==> flags == old(flags) && handle && taken == asked && owed == old(owed) + |q|
      ensures Destroyed !in flags && old(failsAfter).Some? ==> old(failsAfter).value >= |q|
      ensures Destroyed in flags ==> old(failsAfter).Some? && old(failsAfter).value < |q|
    {
      hide Total;
      ghost var g := flags;
      for i := 0 to |q|
        invariant Flushing(q, i, g) && asked == Bufs(Some(q)) && Onward(g, flags)
        invariant ShutdownQueued in flags <==> ShutdownQueued in g
        invariant Destroyed !in flags ==>
                    && connectQueue == Some(q) && owed == old(owed) + i
                    && failsAfter == (if old(failsAfter).None? then None else Some(old(failsAfter).value - i))
                    && (old(failsAfter).Some? ==> old(failsAfter).value >= i)
        invariant Destroyed in flags ==> old(failsAfter).Some? && old(failsAfter).value < i
      {
        hide Flushing, Onward;
        FlushOne(q, i, g);
      }
      assert q[..|q|] == q;
      EmptyTotal();
      ConnectQueueCleanUp();
    }

    /** AfterConnect up to the 'connect' event: the flags and the flush. */
    method Connected(readable: bool, writable: bool)
      requires Valid() && Connecting in flags
      modifies this
      ensures Core() && Connecting !in flags && asked == old(asked) && shutdowns == 0
      ensures ShutdownQueued in flags <==> ShutdownQueued in old(flags)
      ensures AllowHalfOpen in flags ==> AllowHalfOpen in old(flags)
      ensures writable ==> Concluded(flags, shutdowns)
      ensures Destroyed !in flags ==>
                handle && (Readable in flags <==> readable) && (Writable in flags <==> writable)
      ensures Destroyed in flags <==> old(connectQueueSize) > 0 && !Lasting(old(failsAfter), old(connectQueue))
      ensures MustDestroy in flags && Destroyed !in flags ==> pendingWriteReqs > 0
      ensures Destroyed !in flags && old(connectQueueSize) > 0 ==> connectQueue == None && taken == asked
      ensures Destroyed !in flags ==>
                bytesDispatched + Total(Bufs(connectQueue)) == old(bytesDispatched + Total(Bufs(connectQueue)))
      ensures Destroyed !in flags && old(connectQueueSize) == 0 ==>
                taken == [] && bytesDispatched == old(bytesDispatched) && connectQueue == old(connectQueue)
    {
      hide Total;
      assert [] + Bufs(connectQueue) == Bufs(connectQueue);
      flags := flags - {Connecting};
      flags := if readable then flags + {Readable} else flags - {Readable};
      flags := if writable then flags + {Writable} else flags - {Writable};
      EmptyTotal();
      if connectQueueSize > 0 { FlushQueue(connectQueue.value); }
    }

    /** AfterConnect with an error. */
    method Abandon()
      requires Valid() && Connecting in flags
      modifies this
      ensures Valid() && Destroyed in flags && Connecting !in flags
      ensures AllowHalfOpen in flags ==> AllowHalfOpen in old(flags)
      ensures asked == old(asked) && taken == old(taken) && shutdowns == old(shutdowns)
      ensures flags == Killed(old(flags), true) && reentered == old(reentered)
    {
      hide Total;
      EmptyTotal();
      flags := flags - {Connecting};
      ConnectQueueCleanUp();
      var _ := Destroy(true, false);
    }

    lemma InQueue()
      requires Core() && Connecting !in flags && Destroyed !in flags && connectQueue == None
      ensures taken == asked
    {
      assert taken + [] == taken;
    }

    /** The queued shutdown. */
    method EndQueued()
      requires Core() && ShutdownQueued in flags
      modifies this
      ensures Core() && (old(Soon(flags, pendingWriteReqs)) ==> Soon(flags, pendingWriteReqs))
      ensures Onward(old(flags) - {ShutdownQueued}, flags) && asked == old(asked) && taken == old(taken)
      ensures shutdowns > old(shutdowns) ==> Connecting !in old(flags)
      ensures Writable in old(flags) && Connecting !in old(flags) ==>
                EndedAs(old(flags) - {ShutdownQueued}, flags, old(pendingWriteReqs) == 0, shutdownFails,
                        old(shutdowns), shutdowns)
      ensures Writable !in flags
      ensures Concludes(old(flags), old(shutdowns), flags, shutdowns)
    {
      hide Total, Conserved;
      flags := flags - {ShutdownQueued};
      SameQueue(old(flags), flags, connectQueue, connectQueueSize, taken, asked, bytesDispatched);
      hide Counted, Dead, ShutOnce;
      var _ := End(None);
    }

    /** AfterConnect. `connected` is what the 'connect' listeners do. The queue is flushed exactly if it
        holds a byte; then everything asked for so far has reached the handle, in the order of the calls,
        before the listeners run, and a queued shutdown comes after all of it. */
    method AfterConnect(ok: bool, readable: bool, writable: bool, connected: seq<Call>)
      requires Valid() && (Connecting in flags || Destroyed in flags)
      modifies this
      ensures Valid() && Connecting !in flags
      ensures AllowHalfOpen in flags ==> AllowHalfOpen in old(flags)
      ensures Destroyed in old(flags) ==> Destroyed in flags && asked == old(asked) && taken == old(taken)
      ensures !ok ==> Destroyed in flags && asked == old(asked) && taken == old(taken)
      ensures ok && Destroyed !in old(flags) && connected == [] && Lasting(old(failsAfter), old(connectQueue)) ==>
                && asked == old(asked)
                && (old(connectQueueSize) > 0 ==> taken == asked)
                && (old(connectQueueSize) == 0 ==> taken == [])
      ensures shutdowns > old(shutdowns) && Destroyed !in flags && connectQueue == None ==> taken == asked
      ensures ok && Destroyed !in old(flags) && connected == [] && Lasting(old(failsAfter), old(connectQueue))
              && ShutdownQueued in old(flags) && writable ==>
                if readable && !shutdownFails then
                  shutdowns == 1 && Shutdown in flags && Readable in flags && Destroyed !in flags
                else shutdowns == 0 && (Destroyed in flags || (!readable && MustDestroy in flags))
      ensures ShutdownQueued in old(flags) ==> Writable !in flags
      ensures (ok ==> writable) ==> Concluded(flags, shutdowns)
      ensures Asks(old(asked), asked, [], PassedBy(connected))
    {
      hide Total, Conserved, Asks, WrittenBy, PassedBy;
      AsksNothing(asked, PassedBy(connected));
      if Destroyed in flags { return; }
      if !ok {
        Abandon();
        return;
      }
      Connected(readable, writable);
      React(connected);
      AsksLess(old(asked), asked, WrittenBy(connected), PassedBy(connected));
      if ShutdownQueued in flags { EndQueued(); }
      if Destroyed !in flags && connectQueue == None { InQueue(); }
    }

    /** One happening; what cannot happen is left out. */
    method Happen(h: Happening)
      requires Valid() && AllowHalfOpen !in flags
      modifies this
      ensures Valid() && AllowHalfOpen !in flags && Asks(old(asked), asked, LeastOf(h), MostOf(h))
      ensures old(Concluded(flags, shutdowns)) && (h.Opened? && h.ok ==> h.writable) ==> Concluded(flags, shutdowns)
      ensures old(Over(flags)) || (h.Called? && h.call.CallEnd?) ==> Over(flags)
      ensures h == Called(CallDestroy) ==> Destroyed in flags
      ensures h == Called(CallDestroySoon) ==> Destroyed in flags || MustDestroy in flags
      ensures old(owed) > 0 && h.Wrote? && (!h.ok || (h.drain == [] && h.cb == [])) ==> owed == old(owed) - 1
      ensures old(Connecting in flags) && h.Opened? ==> Connecting !in flags && (!h.ok ==> Destroyed in flags)
      ensures old(Shutdown in flags && (GotEof in flags || Readable !in flags)) && h == ShutDown ==> Destroyed in flags
      ensures old(handle && Destroyed !in flags && GotEof !in flags) && h == Eof([]) ==> GotEof in flags
      ensures old(handle) && h.ReadError? ==> Destroyed in flags
      ensures old(handle) && h.Data? ==> bytesRead == old(bytesRead) + h.n
    {
      hide Total, Conserved, ShutOnce, Counted, Dead, Soon, Asks, WrittenBy, PassedBy;
      AsksNothing(asked, MostOf(h));
      match h {
        case Called(call) => Do(call);
        case Opened(ok, readable, writable, connected) =>
          if Connecting in flags { AfterConnect(ok, readable, writable, connected); }
        case Wrote(ok, drain, cb, again) =>
          if owed > 0 { AfterWrite(ok, drain, cb, again); }
        case ShutDown =>
          if Shutdown in flags { AfterShutdown(); }
        case Eof(onEnd) =>
          if handle && Destroyed !in flags && GotEof !in flags { OnEof(onEnd); }
        case ReadError =>
          if handle { OnReadError(); }
        case Data(n) =>
          if handle { OnData(n); }
      }
    }

    /** The queue is left where it is exactly if every buffer in it is empty. */
    lemma Unflushed()
      requires Core()
      ensures connectQueueSize == 0 <==> forall i | 0 <= i < |Bufs(connectQueue)| :: Bufs(connectQueue)[i] == ""
    {
      TotalZero(Bufs(connectQueue));
    }
  }

  // ----- whole lives -----

  /** What happens to a socket: a call by its user, or an event of the handle. */
  datatype Happening =
    | Called(call: Call)
    | Opened(ok: bool, readable: bool, writable: bool, connected: seq<Call>)
    | Wrote(ok: bool, drain: seq<Call>, cb: seq<Call>, again: bool)
    | ShutDown
    | Eof(onEnd: seq<Call>)
    | ReadError
    | Data(n: nat)

  /** What the happenings ask for at least: every buffer that the user passes to `write`; and at most: that
      and the data of `end`, with all that listeners and callbacks pass. */
  function Least(happenings: seq<Happening>): seq<Bytes> {
    if happenings == [] then []
    else
      var n := |happenings| - 1;
      Least(happenings[..n]) + LeastOf(happenings[n])
  }

  function Most(happenings: seq<Happening>): seq<Bytes> {
    if happenings == [] then [] else Most(happenings[..|happenings| - 1]) + MostOf(happenings[|happenings| - 1])
  }

  function MostOf(h: Happening): seq<Bytes> {
    match h
    case Called(call) => PassedBy([call])
    case Opened(_, _, _, connected) => PassedBy(connected)
    case Wrote(_, drain, cb, _) => PassedBy(drain) + PassedBy(cb)
    case Eof(onEnd) => PassedBy(onEnd)
    case _ => []
  }

  function LeastOf(h: Happening): seq<Bytes> {
    match h
    case Called(call) => WrittenBy([call])
    case _ => []
  }

  /** The user ends the socket; and every connection comes up writable. */
  predicate UserEnds(happenings: seq<Happening>) {
    exists i :: 0 <= i < |happenings| && happenings[i].Called? && happenings[i].call.CallEnd?
  }

  predicate OpensWritable(happenings: seq<Happening>) {
    forall i | 0 <= i < |happenings| :: happenings[i].Opened? && happenings[i].ok ==> happenings[i].writable
  }

  lemma HappeningsSnoc(happenings: seq<Happening>, i: nat)
    requires i < |happenings|
    ensures var h, was, now := happenings[i], happenings[..i], happenings[..i + 1];
            && (UserEnds(now) <==> UserEnds(was) || (h.Called? && h.call.CallEnd?))
            && (OpensWritable(now) <==> OpensWritable(was) && (h.Opened? && h.ok ==> h.writable))
            && Least(now) == Least(was) + LeastOf(h) && Most(now) == Most(was) + MostOf(h)
  {
    hide LeastOf, MostOf;
    var was, now := happenings[..i], happenings[..i + 1];
    assert now[..i] == was && now == was + [happenings[i]];
    if UserEnds(was) {
      var k :| 0 <= k < |was| && was[k].Called? && was[k].call.CallEnd?;
      assert now[k] == was[k];
    }
  }

  /** A socket, accepted or connecting, under any sequence of happenings; what cannot happen is left
      out. Every write of the user is asked for, in order, and nothing that nobody passed; while the
      socket lives without a queue, the handle has taken exactly what was asked for; and a socket that the
      user has ended is shut down once it is connected, or is destroyed or will be with the last write,
      unless the connection comes up for reading only. */
  method Live(accepted: bool, allowHalfOpen: bool, failsAfter: Option<nat>, shutdownFails: bool,
              removeListener: bool, happenings: seq<Happening>)
    returns (s: Socket)
    ensures fresh(s) && s.Valid() && s.shutdownFails == shutdownFails && s.removeListener == removeListener
    ensures Within(Least(happenings), s.asked) && Within(s.asked, Most(happenings))
    ensures Destroyed !in s.flags && s.connectQueue == None && Connecting !in s.flags ==> s.taken == s.asked
    ensures Destroyed in s.flags <==> s.closes > 0
    ensures Destroyed in s.flags && !s.reentered ==> s.closes == 1
    ensures AllowHalfOpen !in s.flags
    ensures UserEnds(happenings) ==>
              Writable !in s.flags && (Connecting in s.flags ==> ShutdownQueued in s.flags && s.shutdowns == 0)
    ensures UserEnds(happenings) && OpensWritable(happenings) && Connecting !in s.flags ==>
              || (s.shutdowns == 1 && Shutdown in s.flags)
              || Destroyed in s.flags
              || (MustDestroy in s.flags && s.pendingWriteReqs > 0)
  {
    hide Total, Conserved, Counted, Asks, WrittenBy, PassedBy, Within, Least, Most, UserEnds, OpensWritable;
    s := new Socket(accepted, allowHalfOpen, failsAfter, shutdownFails, removeListener);
    if accepted {
      s.Open();
    } else {
      s.Connect(true);
    }
    AsksNothing([], []);
    NothingHappened();
    for i := 0 to |happenings|
      invariant fresh(s) && s.Valid() && AllowHalfOpen !in s.flags
      invariant s.shutdownFails == shutdownFails && s.removeListener == removeListener
      invariant Asks([], s.asked, Least(happenings[..i]), Most(happenings[..i]))
      invariant UserEnds(happenings[..i]) ==> Over(s.flags)
      invariant OpensWritable(happenings[..i]) ==> Concluded(s.flags, s.shutdowns)
    {
      ghost var was := s.asked;
      HappeningsSnoc(happenings, i);
      hide Concluded, Over, ShutOnce;
      s.Happen(happenings[i]);
      AsksTwice([], was, s.asked, Least(happenings[..i]), Most(happenings[..i]),
                LeastOf(happenings[i]), MostOf(happenings[i]));
    }
    assert happenings[..|happenings|] == happenings;
    AsksFirst(s.asked, Least(happenings), Most(happenings));
    if Destroyed !in s.flags && s.connectQueue == None && Connecting !in s.flags { s.InQueue(); }
  }

  lemma NothingHappened()
    ensures Least([]) == [] && Most([]) == [] && !UserEnds([])
  {
  }
}

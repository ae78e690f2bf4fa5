/** Inbound flow control of an HTTP message: `pause`, `resume` and the deferred draining of
    include/libnode/detail/http/incoming_message.h, fed by the parser callbacks `onBody` and
    `onMessageComplete` of include/libnode/detail/http/parser.h.

    The message is neither aborted nor upgraded. The parser delivers body chunks and then one
    completion; listeners may pause and resume the message from inside an event. */
module IncomingMessage {

  /** An entry of the pending queue: a body chunk, or the null that stands for the end. */
  datatype Item = Chunk(data: string) | Eof

  datatype Emission = Data(data: string) | End

  /** What a listener does while it handles an event. */
  datatype Act = Pause | Resume

  /** The acts of the listeners at the k-th emission of the message. */
  type Listeners = seq<seq<Act>>

  function Acts(listeners: Listeners, k: nat): seq<Act> { if k < |listeners| then listeners[k] else [] }

  /** Whether a message is paused once its listeners have acted: the last act decides. */
  function PausedAfter(paused: bool, acts: seq<Act>): bool {
    if acts == [] then paused else acts[|acts| - 1].Pause?
  }

  function Resumes(acts: seq<Act>): nat {
    if acts == [] then 0 else Resumes(acts[..|acts| - 1]) + if acts[|acts| - 1].Resume? then 1 else 0
  }

  /** How many pending entries one tick delivers to a message that is not paused: it goes on to the first
      whose listeners leave the message paused. */
  function Delivered(listeners: Listeners, at: nat, pendings: seq<Item>): (n: nat)
    ensures n <= |pendings|
    decreases |pendings|
  {
    if pendings == [] then 0
    else 1 + if PausedAfter(false, Acts(listeners, at)) then 0 else Delivered(listeners, at + 1, pendings[1..])
  }

  /** The ticks that listeners schedule while the first `n` of so many pending entries are delivered. */
  function Scheduling(listeners: Listeners, at: nat, pending: nat, n: nat): nat {
    if n == 0 then 0
    else Scheduling(listeners, at, pending, n - 1) + if pending > n then Resumes(Acts(listeners, at + n - 1)) else 0
  }

  function Emissions(items: seq<Item>): seq<Emission> {
    seq(|items|, i requires 0 <= i < |items| => if items[i].Chunk? then Data(items[i].data) else End)
  }

  /** An event of the outside world. */
  datatype Event = Body(data: string) | Complete | Paused | Resumed | Tick

  /** The body chunks among the events: those before the end of the message. */
  function Bodies(events: seq<Event>, complete: bool): seq<string> {
    if events == [] then []
    else
      var before, e := events[..|events| - 1], events[|events| - 1];
      Bodies(before, complete) + if e.Body? && !complete && Complete !in before then [e.data] else []
  }

  function DataOf(log: seq<Emission>): seq<string> {
    if log == [] then [] else if log[0].Data? then [log[0].data] + DataOf(log[1..]) else DataOf(log[1..])
  }

  function ChunksOf(pendings: seq<Item>): seq<string> {
    if pendings == [] then []
    else if pendings[0].Chunk? then [pendings[0].data] + ChunksOf(pendings[1..])
    else ChunksOf(pendings[1..])
  }

  lemma {:induction false} DataSnoc(log: seq<Emission>, e: Emission)
    ensures DataOf(log + [e]) == DataOf(log) + if e.Data? then [e.data] else []
  {
    if log == [] {
      assert log + [e] == [e] && [e][1..] == [];
    } else {
      assert (log + [e])[1..] == log[1..] + [e];
      DataSnoc(log[1..], e);
      var d := if e.Data? then [e.data] else [];
      assert log[0].Data? ==> [log[0].data] + (DataOf(log[1..]) + d) == [log[0].data] + DataOf(log[1..]) + d;
    }
  }

  lemma {:induction false} ChunksSnoc(pendings: seq<Item>, i: Item)
    ensures ChunksOf(pendings + [i]) == ChunksOf(pendings) + if i.Chunk? then [i.data] else []
  {
    if pendings == [] {
      assert pendings + [i] == [i] && [i][1..] == [];
    } else {
      assert (pendings + [i])[1..] == pendings[1..] + [i];
      ChunksSnoc(pendings[1..], i);
      var d, rest := if i.Chunk? then [i.data] else [], ChunksOf(pendings[1..]);
      assert pendings[0].Chunk? ==> [pendings[0].data] + (rest + d) == [pendings[0].data] + rest + d;
    }
  }

  /** In a tick that found `items` pending and `at` events in the log: the first `k` entries have been
      delivered, and so many ticks scheduled. */
  ghost predicate Draining(listeners: Listeners, was: bool, items: seq<Item>, log0: seq<Emission>, k: nat,
                           paused: bool, pendings: seq<Item>, log: seq<Emission>, scheduled: int)
  {
    && k <= |items| && pendings == items[k..] && log == log0 + Emissions(items[..k])
    && scheduled == Scheduling(listeners, |log0|, |items|, k)
    && (if was then 0 else Delivered(listeners, |log0|, items))
       == k + if paused then 0 else Delivered(listeners, |log|, pendings)
  }

  lemma DrainStarts(listeners: Listeners, paused: bool, items: seq<Item>, log: seq<Emission>)
    ensures Draining(listeners, paused, items, log, 0, paused, items, log, 0)
  {
    assert Emissions(items[..0]) == [] && log + [] == log;
  }

  lemma DrainStep(listeners: Listeners, was: bool, items: seq<Item>, log0: seq<Emission>, k: nat,
                  pendings: seq<Item>, log: seq<Emission>, scheduled: int)
    requires Draining(listeners, was, items, log0, k, false, pendings, log, scheduled) && pendings != []
    ensures var acts := Acts(listeners, |log|);
            Draining(listeners, was, items, log0, k + 1, PausedAfter(false, acts), pendings[1..],
                     log + Emissions([pendings[0]]), scheduled + if |pendings| > 1 then Resumes(acts) else 0)
  {
    hide PausedAfter, Acts, Resumes;
    NextEmission(items, k);
    assert log + Emissions([pendings[0]]) == log0 + (Emissions(items[..k]) + Emissions([items[k]]));
  }

  lemma DrainEnds(listeners: Listeners, was: bool, items: seq<Item>, log0: seq<Emission>, k: nat,
                  paused: bool, pendings: seq<Item>, log: seq<Emission>, scheduled: int)
    requires Draining(listeners, was, items, log0, k, paused, pendings, log, scheduled) && (paused || pendings == [])
    ensures k == if was then 0 else Delivered(listeners, |log0|, items)
    ensures k <= |items| && pendings == items[k..] && log == log0 + Emissions(items[..k])
    ensures scheduled == Scheduling(listeners, |log0|, |items|, k)
  {
  }

  lemma NextEmission(items: seq<Item>, k: nat)
    requires k < |items|
    ensures items[k..][0] == items[k] && items[k..][1..] == items[k + 1..]
    ensures Emissions(items[..k]) + Emissions([items[k]]) == Emissions(items[..k + 1])
  {
  }

  /** What has been received is what has been delivered followed by what is pending; the end comes
      once, after everything else. */
  ghost predicate Ordered(complete: bool, readable: bool, endEmitted: bool, pendings: seq<Item>,
                          received: seq<string>, log: seq<Emission>)
  {
    && DataOf(log) + ChunksOf(pendings) == received
    && (forall i | 0 <= i < |pendings| && pendings[i].Eof? :: i == |pendings| - 1)
    && (forall i | 0 <= i < |log| && log[i].End? :: i == |log| - 1)
    && (endEmitted <==> log != [] && log[|log| - 1].End?)
    && (endEmitted ==> pendings == [])
    && (readable <==> !endEmitted)
    && (complete <==> endEmitted || (pendings != [] && pendings[|pendings| - 1].Eof?))
  }

  /** Pending data of a message that is not paused has a tick coming (or a drain is running). */
  ghost predicate Scheduled(paused: bool, pendings: seq<Item>, ticks: nat, draining: bool) {
    pendings != [] && !paused ==> ticks > 0 || draining
  }

  lemma NotComplete(readable: bool, endEmitted: bool, pendings: seq<Item>, received: seq<string>, log: seq<Emission>)
    requires Ordered(false, readable, endEmitted, pendings, received, log)
    ensures readable && !endEmitted
  {
  }

  lemma Pushed(complete: bool, pendings: seq<Item>, received: seq<string>, log: seq<Emission>, item: Item)
    requires Ordered(false, true, false, pendings, received, log) && (complete <==> item.Eof?)
    ensures Ordered(complete, true, false, pendings + [item],
                    if item.Chunk? then received + [item.data] else received, log)
  {
    ChunksSnoc(pendings, item);
    assert DataOf(log) + ChunksOf(pendings + [item])
        == received + if item.Chunk? then [item.data] else [];
  }

  lemma Ended(received: seq<string>, log: seq<Emission>)
    requires Ordered(false, true, false, [], received, log)
    ensures Ordered(true, false, true, [], received, log + [End])
  {
    DataSnoc(log, End);
  }

  lemma Emitted(complete: bool, pendings: seq<Item>, received: seq<string>, log: seq<Emission>)
    requires pendings != [] && Ordered(complete, true, false, pendings, received, log)
    ensures pendings[0].Chunk? ==>
              Ordered(complete, true, false, pendings[1..], received, log + [Data(pendings[0].data)])
    ensures pendings[0].Eof? ==>
              pendings[1..] == [] && Ordered(complete, false, true, [], received, log + [End])
  {
    DataSnoc(log, if pendings[0].Chunk? then Data(pendings[0].data) else End);
  }

  class IncomingMessage {
    var complete: bool
    var readable: bool
    var paused: bool
    var endEmitted: bool
    var pendings: seq<Item>

    /** `EmitPending` functions handed to `process::nextTick` and not yet run. */
    var ticks: nat

    /** How the listeners of the message behave, and the events emitted so far. */
    const listeners: Listeners
    var log: seq<Emission>
    ghost var received: seq<string>

    ghost predicate Valid()
      reads this
    {
      && Ordered(complete, readable, endEmitted, pendings, received, log)
      && Scheduled(paused, pendings, ticks, false)
    }

    constructor (listeners: Listeners)
      ensures Valid() && received == [] && log == [] && this.listeners == listeners
      ensures !complete && !paused && ticks == 0
    {
      this.listeners := listeners;
      complete, readable, paused, endEmitted := false, true, false, false;
      pendings, ticks, log, received := [], 0, [], [];
    }

    method DoPause()
      modifies `paused
      ensures paused
    {
      paused := true;
    }

    method DoResume()
      modifies `paused, `ticks
      ensures !paused && ticks == if pendings == [] then old(ticks) else old(ticks) + 1
    {
      paused := false;
      EmitPending();
    }

    method EmitPending()
      modifies `ticks
      ensures ticks == if pendings == [] then old(ticks) else old(ticks) + 1
    {
      if |pendings| != 0 { ticks := ticks + 1; }
    }

    /** `emit`: the listeners run, and may pause and resume the message. */
    method Emit(e: Emission, ghost draining: bool)
      requires Scheduled(paused, pendings, ticks, draining)
      modifies `log, `paused, `ticks
      ensures log == old(log) + [e] && Scheduled(paused, pendings, ticks, draining)
      ensures paused == PausedAfter(old(paused), Acts(listeners, |old(log)|))
      ensures ticks == old(ticks) + if pendings == [] then 0 else Resumes(Acts(listeners, |old(log)|))
    {
      var acts := Acts(listeners, |log|);
      log := log + [e];
      for k := 0 to |acts|
        invariant log == old(log) + [e] && Scheduled(paused, pendings, ticks, draining)
        invariant paused == PausedAfter(old(paused), acts[..k])
        invariant ticks == old(ticks) + if pendings == [] then 0 else Resumes(acts[..k])
      {
        assert acts[..k + 1][..k] == acts[..k];
        match acts[k] {
          case Pause => DoPause();
          case Resume => DoResume();
        }
      }
      assert acts[..|acts|] == acts;
    }

    method EmitEnd(ghost draining: bool)
      requires Scheduled(paused, pendings, ticks, draining)
      modifies `log, `paused, `ticks, `endEmitted
      ensures endEmitted && Scheduled(paused, pendings, ticks, draining)
      ensures log == if old(endEmitted) then old(log) else old(log) + [End]
      ensures paused == if old(endEmitted) then old(paused)
                        else PausedAfter(old(paused), Acts(listeners, |old(log)|))
      ensures ticks == old(ticks) + if old(endEmitted) || pendings == [] then 0
                                    else Resumes(Acts(listeners, |old(log)|))
    {
      if !endEmitted {
        Emit(End, draining);
        endEmitted := true;
      }
    }

    /** The parser read a piece of the body. */
    method OnBody(data: string)
      requires Valid() && !complete
      modifies this
      ensures Valid() && !complete && received == old(received) + [data]
      ensures log == if old(paused) || old(pendings) != [] then old(log) else old(log) + [Data(data)]
      ensures pendings == if old(paused) || old(pendings) != [] then old(pendings) + [Chunk(data)] else []
      ensures ticks == old(ticks)
      ensures paused == if old(paused) || old(pendings) != [] then old(paused)
                        else PausedAfter(false, Acts(listeners, |old(log)|))
    {
      received := received + [data];
      if paused || |pendings| != 0 {
        Pushed(false, pendings, old(received), log, Chunk(data));
        pendings := pendings + [Chunk(data)];
      } else {
        DataSnoc(log, Data(data));
        Emit(Data(data), false);
      }
    }

    /** The parser read the end of the message. */
    method OnMessageComplete()
      requires Valid() && !complete
      modifies this
      ensures Valid() && complete && received == old(received)
      ensures log == if old(paused) || old(pendings) != [] then old(log) else old(log) + [End]
      ensures pendings == if old(paused) || old(pendings) != [] then old(pendings) + [Eof] else []
      ensures ticks == old(ticks)
      ensures paused == if old(paused) || old(pendings) != [] then old(paused)
                        else PausedAfter(false, Acts(listeners, |old(log)|))
    {
      ghost var before := log;
      NotComplete(readable, endEmitted, pendings, received, log);
      hide Ordered;
      complete := true;
      if paused || |pendings| != 0 {
        Pushed(true, pendings, received, log, Eof);
        pendings := pendings + [Eof];
      } else {
        Ended(received, before);
        readable := false;
        EmitEnd(false);
      }
    }

    /** One scheduled `EmitPending` runs. It delivers what is pending, oldest first, up to and including the
        first entry whose listeners leave the message paused, and nothing if it is paused already. */
    method RunTick()
      requires Valid() && ticks > 0
      modifies this
      ensures Valid() && received == old(received) && complete == old(complete)
      ensures paused || pendings == []
      ensures var n := if old(paused) then 0 else Delivered(listeners, |old(log)|, old(pendings));
              && pendings == old(pendings)[n..] && log == old(log) + Emissions(old(pendings)[..n])
              && ticks == old(ticks) - 1 + Scheduling(listeners, |old(log)|, |old(pendings)|, n)
    {
      hide Ordered, Draining, Delivered, Scheduling, Emissions, PausedAfter, Acts, Resumes;
      DrainStarts(listeners, paused, pendings, log);
      ticks := ticks - 1;
      ghost var k := 0;
      while !paused && |pendings| != 0
        invariant Ordered(complete, readable, endEmitted, pendings, received, log)
        invariant Scheduled(paused, pendings, ticks, true)
        invariant received == old(received) && complete == old(complete)
        invariant Draining(listeners, old(paused), old(pendings), old(log), k, paused, pendings, log,
                           ticks - (old(ticks) - 1))
        decreases |pendings|
      {
        DrainStep(listeners, old(paused), old(pendings), old(log), k, pendings, log, ticks - (old(ticks) - 1));
        k := TakeNext(k);
      }
      DrainEnds(listeners, old(paused), old(pendings), old(log), k, paused, pendings, log, ticks - (old(ticks) - 1));
    }

    /** One turn of the loop. */
    method TakeNext(ghost k: nat) returns (ghost k': nat)
      requires Ordered(complete, readable, endEmitted, pendings, received, log)
      requires Scheduled(paused, pendings, ticks, true) && !paused && pendings != []
      modifies this
      ensures Ordered(complete, readable, endEmitted, pendings, received, log)
      ensures Scheduled(paused, pendings, ticks, true) && received == old(received) && complete == old(complete)
      ensures k' == k + 1 && pendings == old(pendings)[1..]
      ensures log == old(log) + Emissions([old(pendings)[0]])
      ensures paused == PausedAfter(false, Acts(listeners, |old(log)|))
      ensures ticks == old(ticks) + if |old(pendings)| > 1 then Resumes(Acts(listeners, |old(log)|)) else 0
    {
      k' := k + 1;
      Emitted(complete, pendings, received, log);
      var chunk := pendings[0];
      pendings := pendings[1..];
      assert Emissions([chunk]) == [if chunk.Chunk? then Data(chunk.data) else End];
      if chunk.Chunk? {
        Emit(Data(chunk.data), true);
      } else {
        assert pendings == [];
        readable := false;
        EmitEnd(true);
      }
    }

    /** One outside event. Events that cannot happen (body after the end, a tick that is not scheduled) are
        skipped. */
    method Happen(e: Event)
      requires Valid()
      modifies this
      ensures Valid() && old(log) <= log && (complete <==> old(complete) || e.Complete?)
      ensures received == old(received) + if e.Body? && !old(complete) then [e.data] else []
      ensures (e.Body? || e.Complete?) && !old(complete) ==>
                ticks == old(ticks) && |log| + |pendings| == |old(log)| + |old(pendings)| + 1
      ensures ((e.Body? || e.Complete?) && old(complete)) || (e.Tick? && old(ticks) == 0) ==>
                log == old(log) && pendings == old(pendings) && ticks == old(ticks) && paused == old(paused)
      ensures e.Tick? && old(ticks) > 0 ==>
                && (paused || pendings == []) && |log| + |pendings| == |old(log)| + |old(pendings)|
                && (old(paused) ==> ticks == old(ticks) - 1 && log == old(log))
      ensures e.Paused? ==> paused && log == old(log) && pendings == old(pendings) && ticks == old(ticks)
      ensures e.Resumed? ==>
                && !paused && log == old(log) && pendings == old(pendings)
                && ticks == if pendings == [] then old(ticks) else old(ticks) + 1
    {
      hide Ordered;
      match e {
        case Body(data) => if !complete { OnBody(data); }
        case Complete => if !complete { OnMessageComplete(); }
        case Paused => DoPause();
        case Resumed => DoResume();
        case Tick => if ticks > 0 { RunTick(); }
      }
    }

    /** Any interleaving of the outside events. */
    method Run(events: seq<Event>)
      requires Valid()
      modifies this
      ensures Valid() && old(log) <= log && received == old(received) + Bodies(events, old(complete))
      ensures complete <==> old(complete) || Complete in events
    {
      hide Valid;
      for k := 0 to |events|
        invariant Valid() && old(log) <= log && received == old(received) + Bodies(events[..k], old(complete))
        invariant complete <==> old(complete) || Complete in events[..k]
      {
        assert events[..k + 1][..k] == events[..k];
        Happen(events[k]);
      }
      assert events[..|events|] == events;
    }
  }

  /** Nothing is lost, reordered or delivered twice, the end comes at most once and last; and a
      message that is not paused and has no tick coming has delivered all it has received. */
  lemma NeverStalls(m: IncomingMessage)
    requires m.Valid()
    ensures DataOf(m.log) <= m.received
    ensures forall i | 0 <= i < |m.log| && m.log[i].End? ::
              i == |m.log| - 1 && m.complete && DataOf(m.log) == m.received
    ensures !m.paused && m.ticks == 0 ==>
              DataOf(m.log) == m.received && (m.complete <==> m.log != [] && m.log[|m.log| - 1].End?)
  {
    assert ChunksOf([]) == [] && DataOf(m.log) + [] == DataOf(m.log);
  }
}

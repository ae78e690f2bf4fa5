/** The cross-thread queue of include/libnode/detail/message_queue.h as a state machine: posting
    threads, a concurrent queue, a coalescing wake-up signal, and the drain on the main loop. Every
    step below is atomic; the steps of all threads interleave freely. */
module MessageQueue {

  /** Where a thread stands inside `postMessage`: it has seen `open_`, or it has offered the message
      and not yet sent the signal. */
  datatype Poster<M> = Idle | Checked(msg: M) | Offered(msg: M)

  datatype State<M> = State(
    open: bool,
    queue: seq<M>,
    signal: bool,               // an async send that the loop has not yet delivered
    drains: nat,                // calls of `emitMessage` under way; a message handler may call close
    posters: seq<Poster<M>>,    // one entry for each thread
    offered: seq<M>,            // everything that entered the queue, in order
    emitted: seq<M>)            // everything that was emitted, in order

  datatype Step<M> =
    | Open
    | Close
    | Check(t: nat, msg: M)     // postMessage reads open_
    | Offer(t: nat)             // queue_->offer(v)
    | Send(t: nat)              // uv_async_send
    | Wake                      // the loop delivers the signal and calls receive
    | Poll                      // one turn of emitMessage
    | Rest                      // emitMessage finds the queue empty

  predicate Enabled<M>(s: State<M>, step: Step<M>) {
    match step
    case Open => !s.open && s.queue == []
    case Close => s.open
    case Check(t, _) => t < |s.posters| && s.posters[t].Idle? && s.open
    case Offer(t) => t < |s.posters| && s.posters[t].Checked?
    case Send(t) => t < |s.posters| && s.posters[t].Offered?
    case Wake => s.open && s.signal && s.drains == 0
    case Poll => s.drains > 0 && s.queue != []
    case Rest => s.drains > 0 && s.queue == []
  }

  /** `close` drains the queue itself, also when it is called from a message handler; a send on a
      closed handle has no effect. */
  function Next<M>(s: State<M>, step: Step<M>): State<M>
    requires Enabled(s, step)
  {
    match step
    case Open => s.(open := true, signal := false)
    case Close => s.(open := false, signal := false, drains := s.drains + 1)
    case Check(t, msg) => s.(posters := s.posters[t := Checked(msg)])
    case Offer(t) =>
      var msg := s.posters[t].msg;
      s.(queue := s.queue + [msg], offered := s.offered + [msg], posters := s.posters[t := Offered(msg)])
    case Send(t) => s.(signal := s.open, posters := s.posters[t := Idle])
    case Wake => s.(signal := false, drains := 1)
    case Poll => s.(queue := s.queue[1..], emitted := s.emitted + [s.queue[0]])
    case Rest => s.(drains := s.drains - 1)
  }

  /** `emitMessage` undisturbed: the polling loop empties the queue, oldest message first. */
  method EmitMessage<M>(s: State<M>) returns (s': State<M>)
    requires s.drains > 0
    ensures s' == s.(queue := [], emitted := s.emitted + s.queue, drains := s.drains - 1)
  {
    s' := s;
    assert s.emitted + s.queue == s'.emitted + s'.queue;
    while s'.queue != []
      invariant s' == s.(queue := s'.queue, emitted := s'.emitted)
      invariant s'.emitted + s'.queue == s.emitted + s.queue
      decreases |s'.queue|
    {
      assert s'.emitted + [s'.queue[0]] + s'.queue[1..] == s'.emitted + s'.queue;
      s' := Next(s', Poll);
    }
    s' := Next(s', Rest);
    assert s'.emitted + [] == s'.emitted;
  }

  ghost predicate Sending<M>(s: State<M>) { exists t :: 0 <= t < |s.posters| && s.posters[t].Offered? }

  /** No lost wake-up, and the messages leave in the order they entered. */
  ghost predicate Inv<M>(s: State<M>) {
    && (s.open && s.queue != [] ==> s.signal || s.drains > 0 || Sending(s))
    && s.emitted + s.queue == s.offered
  }

  function Init<M>(threads: nat): State<M> {
    State(false, [], false, 0, seq(threads, _ => Idle), [], [])
  }

  lemma InvInit<M>(threads: nat)
    ensures Inv(Init<M>(threads))
  {
  }

  lemma InvKept<M>(s: State<M>, step: Step<M>)
    requires Inv(s) && Enabled(s, step)
    ensures Inv(Next(s, step))
    ensures s.emitted <= Next(s, step).emitted && s.offered <= Next(s, step).offered
  {
    var s' := Next(s, step);
    match step {
      case Offer(t) =>
        assert s'.posters[t].Offered?;
        assert s.emitted + (s.queue + [s.posters[t].msg]) == s.offered + [s.posters[t].msg];
      case Poll =>
        assert s.emitted + [s.queue[0]] + s.queue[1..] == s.emitted + s.queue;
        if Sending(s) {
          assert s'.posters == s.posters;
        }
      case Check(t, msg) =>
        if Sending(s) {
          var u :| 0 <= u < |s.posters| && s.posters[u].Offered?;
          assert s'.posters[u].Offered?;
        }
      case _ =>
    }
  }

  /** A run: each step is enabled where it is taken. */
  predicate IsRun<M>(s: State<M>, steps: seq<Step<M>>)
    decreases |steps|
  {
    steps == [] || (Enabled(s, steps[0]) && IsRun(Next(s, steps[0]), steps[1..]))
  }

  function After<M>(s: State<M>, steps: seq<Step<M>>): State<M>
    requires IsRun(s, steps)
    decreases |steps|
  {
    if steps == [] then s else After(Next(s, steps[0]), steps[1..])
  }

  /** For every interleaving: no wake-up is lost, and every message is emitted at most once, in the
      order of the queue. */
  lemma {:induction false} NoLostWakeUp<M>(s: State<M>, steps: seq<Step<M>>)
    requires Inv(s) && IsRun(s, steps)
    ensures Inv(After(s, steps))
    ensures s.emitted <= After(s, steps).emitted <= After(s, steps).offered
    ensures s.offered <= After(s, steps).offered
    decreases |steps|
  {
    if steps == [] {
      assert s.offered[..|s.emitted|] == s.emitted;
    } else {
      InvKept(s, steps[0]);
      NoLostWakeUp(Next(s, steps[0]), steps[1..]);
    }
  }

  /** How many steps of a run are of one kind. */
  function Steps<M(==)>(steps: seq<Step<M>>, kind: Kind): nat
    decreases |steps|
  {
    if steps == [] then 0 else Steps(steps[1..], kind) + if KindOf(steps[0]) == kind then 1 else 0
  }

  datatype Kind = Opens | Closes | Checks | Offers | Sends | Wakes | Polls | Rests

  function KindOf<M>(step: Step<M>): Kind {
    match step
    case Open => Opens
    case Close => Closes
    case Check(_, _) => Checks
    case Offer(_) => Offers
    case Send(_) => Sends
    case Wake => Wakes
    case Poll => Polls
    case Rest => Rests
  }

  /** Nothing comes from nowhere: over any run each drain that is under way was begun by a wake-up or by `close`
      and is left once, a wake-up takes a signal that a thread has sent, each offer puts one message into the queue, and
      each poll takes one out. */
  lemma {:induction false} RunAdds<M>(s: State<M>, steps: seq<Step<M>>)
    requires IsRun(s, steps)
    ensures var e := After(s, steps);
            && e.drains + Steps(steps, Rests) == s.drains + Steps(steps, Wakes) + Steps(steps, Closes)
            && Steps(steps, Wakes) + (if e.signal then 1 else 0)
               <= Steps(steps, Sends) + (if s.signal then 1 else 0)
            && |e.offered| == |s.offered| + Steps(steps, Offers)
            && |e.emitted| == |s.emitted| + Steps(steps, Polls)
            && |e.queue| + Steps(steps, Polls) == |s.queue| + Steps(steps, Offers)
    decreases |steps|
  {
    hide Next, Enabled, KindOf;
    if steps != [] {
      StepAdds(s, steps[0]);
      RunAdds(Next(s, steps[0]), steps[1..]);
    }
  }

  lemma StepAdds<M>(s: State<M>, step: Step<M>)
    requires Enabled(s, step)
    ensures var e, kind := Next(s, step), KindOf(step);
            && e.drains + (if kind == Rests then 1 else 0)
               == s.drains + (if kind == Wakes || kind == Closes then 1 else 0)
            && (if kind == Wakes then 1 else 0) + (if e.signal then 1 else 0)
               <= (if kind == Sends then 1 else 0) + (if s.signal then 1 else 0)
            && |e.offered| == |s.offered| + (if kind == Offers then 1 else 0)
            && |e.emitted| == |s.emitted| + (if kind == Polls then 1 else 0)
            && |e.queue| + (if kind == Polls then 1 else 0) == |s.queue| + (if kind == Offers then 1 else 0)
  {
  }

  /** At the beginning there is no signal and no drain. */
  lemma WakesAreSent<M>(threads: nat, steps: seq<Step<M>>)
    requires IsRun(Init(threads), steps)
    ensures var e := After(Init(threads), steps);
            && Steps(steps, Wakes) <= Steps(steps, Sends)
            && e.drains + Steps(steps, Rests) == Steps(steps, Wakes) + Steps(steps, Closes)
            && |e.offered| == Steps(steps, Offers) && |e.emitted| == Steps(steps, Polls)
  {
    RunAdds(Init(threads), steps);
  }

  // ----- the queue comes to rest with everything delivered -----

  /** The steps that need no new call of open, close or postMessage. */
  predicate Internal<M>(step: Step<M>) { !step.Open? && !step.Close? && !step.Check? }

  function Load<M>(posters: seq<Poster<M>>): nat {
    if posters == [] then 0
    else (match posters[0] case Idle => 0 case Checked(_) => 5 case Offered(_) => 3) + Load(posters[1..])
  }

  /** The internal steps still to come are at most this many. */
  function Work<M>(s: State<M>): nat {
    Load(s.posters) + (if s.signal then 2 else 0) + s.drains + |s.queue|
  }

  lemma {:induction false} LoadUpdate<M>(posters: seq<Poster<M>>, t: nat, p: Poster<M>)
    requires t < |posters|
    ensures Load(posters[t := p]) + Load([posters[t]]) == Load(posters) + Load([p])
  {
    if t == 0 {
      assert posters[0 := p][1..] == posters[1..];
    } else {
      LoadUpdate(posters[1..], t - 1, p);
      assert posters[t := p][1..] == posters[1..][t - 1 := p];
    }
  }

  lemma WorkShrinks<M>(s: State<M>, step: Step<M>)
    requires Enabled(s, step) && Internal(step)
    ensures Work(Next(s, step)) < Work(s)
  {
    match step {
      case Offer(t) => LoadUpdate(s.posters, t, Offered(s.posters[t].msg));
      case Send(t) => LoadUpdate(s.posters, t, Idle);
      case _ =>
    }
  }

  /** Without new calls the machine stops within a bounded number of steps... */
  lemma {:induction false} SettlesDown<M>(s: State<M>, steps: seq<Step<M>>)
    requires IsRun(s, steps) && forall i | 0 <= i < |steps| :: Internal(steps[i])
    ensures |steps| <= Work(s) && After(s, steps).open == s.open
    decreases |steps|
  {
    if steps != [] {
      WorkShrinks(s, steps[0]);
      SettlesDown(Next(s, steps[0]), steps[1..]);
    }
  }

  /** ... and where it stops with the queue still open, every message that was offered has been
      emitted. */
  lemma RestsDelivered<M(!new)>(s: State<M>)
    requires Inv(s) && s.open && AtRest(s)
    ensures s.queue == [] && s.emitted == s.offered
  {
    assert !Enabled(s, Wake) && !Enabled(s, Poll) && !Enabled(s, Rest);
    if Sending(s) {
      var t :| 0 <= t < |s.posters| && s.posters[t].Offered?;
      assert !Enabled(s, Send(t));
    }
    assert s.emitted + [] == s.emitted;
  }

  // ----- after close -----

  /** A closed queue takes no message: as long as it is not opened again, only the threads that saw it open
      offer theirs, each at most one. */
  lemma {:induction false} ClosedTakesNone<M>(s: State<M>, steps: seq<Step<M>>)
    requires !s.open && IsRun(s, steps) && forall i | 0 <= i < |steps| :: !steps[i].Open?
    ensures var e := After(s, steps);
            && !e.open && s.offered <= e.offered
            && |e.offered| + Between(e.posters) == |s.offered| + Between(s.posters)
            && ((forall t | 0 <= t < |s.posters| :: !s.posters[t].Checked?) ==> e.offered == s.offered)
    decreases |steps|
  {
    if steps != [] {
      var next := Next(s, steps[0]);
      match steps[0] {
        case Offer(t) => BetweenUpdate(s.posters, t, Offered(s.posters[t].msg));
        case Send(t) => BetweenUpdate(s.posters, t, Idle);
        case _ =>
      }
      ClosedTakesNone(next, steps[1..]);
      var e := After(s, steps);
      assert e.offered[..|next.offered|] == next.offered && next.offered[..|s.offered|] == s.offered;
    }
    BetweenNone(s.posters);
    BetweenNone(After(s, steps).posters);
  }

  predicate AllInternal<M>(steps: seq<Step<M>>) { forall i | 0 <= i < |steps| :: Internal(steps[i]) }

  ghost predicate AtRest<M(!new)>(s: State<M>) { forall step | Internal(step) :: !Enabled(s, step) }

  /** The posters that have seen the queue open and not yet offered their message. */
  function Between<M>(posters: seq<Poster<M>>): nat {
    if posters == [] then 0 else (if posters[0].Checked? then 1 else 0) + Between(posters[1..])
  }

  lemma {:induction false} BetweenUpdate<M>(posters: seq<Poster<M>>, t: nat, p: Poster<M>)
    requires t < |posters|
    ensures Between(posters[t := p]) + (if posters[t].Checked? then 1 else 0)
            == Between(posters) + if p.Checked? then 1 else 0
  {
    if t == 0 {
      assert posters[0 := p][1..] == posters[1..];
    } else {
      BetweenUpdate(posters[1..], t - 1, p);
      assert posters[t := p][1..] == posters[1..][t - 1 := p];
    }
  }

  lemma {:induction false} BetweenNone<M>(posters: seq<Poster<M>>)
    ensures Between(posters) == 0 <==> forall t | 0 <= t < |posters| :: !posters[t].Checked?
  {
    if posters != [] {
      BetweenNone(posters[1..]);
      assert forall t | 0 <= t < |posters| - 1 :: posters[t + 1] == posters[1..][t];
      assert forall t | 0 < t < |posters| :: posters[t] == posters[1..][t - 1];
    }
  }

  /** Once the drain of `close` is over nothing is emitted any more, and every message that is still offered
      adds to what is left... */
  lemma {:induction false} LeftOver<M>(s: State<M>, steps: seq<Step<M>>)
    requires !s.open && s.drains == 0 && IsRun(s, steps) && AllInternal(steps)
    ensures var e := After(s, steps);
            && !e.open && e.drains == 0 && e.emitted == s.emitted
            && |e.queue| + Between(e.posters) == |s.queue| + Between(s.posters)
    decreases |steps|
  {
    if steps != [] {
      match steps[0] {
        case Offer(t) => BetweenUpdate(s.posters, t, Offered(s.posters[t].msg));
        case Send(t) => BetweenUpdate(s.posters, t, Idle);
        case _ =>
      }
      LeftOver(Next(s, steps[0]), steps[1..]);
    }
  }

  /** ... so that at rest exactly the messages are stranded that were in the queue or between the check and
      the offer when the drain was over: none if and only if there were none. */
  lemma Stranded<M(!new)>(s: State<M>, steps: seq<Step<M>>)
    requires !s.open && s.drains == 0 && Settles(s, steps)
    ensures |After(s, steps).queue| == |s.queue| + Between(s.posters)
    ensures After(s, steps).queue == [] <==>
              s.queue == [] && forall t | 0 <= t < |s.posters| :: !s.posters[t].Checked?
  {
    var e := After(s, steps);
    LeftOver(s, steps);
    forall t | 0 <= t < |e.posters| ensures !e.posters[t].Checked? { assert !Enabled(e, Offer(t)); }
    BetweenNone(e.posters);
    BetweenNone(s.posters);
  }

  /** Every state comes to rest. */
  lemma ToRest<M(!new)>(s: State<M>) returns (steps: seq<Step<M>>)
    ensures Settles(s, steps)
    decreases Work(s)
  {
    if AtRest(s) {
      steps := [];
    } else {
      var step :| Internal(step) && Enabled(s, step);
      WorkShrinks(s, step);
      var rest := ToRest(Next(s, step));
      RunCons(s, step, rest);
      steps := [step] + rest;
    }
  }

  /** The main thread empties the queue and leaves `emitMessage`, with no other thread in between. */
  lemma DrainAll<M>(s: State<M>) returns (steps: seq<Step<M>>)
    requires s.drains > 0
    ensures IsRun(s, steps) && AllInternal(steps)
    ensures After(s, steps) == s.(queue := [], emitted := s.emitted + s.queue, drains := 0)
    decreases |s.queue| + s.drains
  {
    var step := if s.queue != [] then Poll else Rest;
    var next := Next(s, step);
    var rest := [];
    if next.drains > 0 { rest := DrainAll(next); }
    RunCons(s, step, rest);
    steps := [step] + rest;
    assert s.queue != [] ==> s.emitted + [s.queue[0]] + s.queue[1..] == s.emitted + s.queue;
    assert s.emitted + [] == s.emitted;
  }

  /** A way from `s` to rest. */
  ghost predicate Settles<M(!new)>(s: State<M>, steps: seq<Step<M>>) {
    IsRun(s, steps) && AllInternal(steps) && AtRest(After(s, steps))
  }

  /** From `close` on everything is emitted, whatever the interleaving, if and only if no thread stands
      between the check and the offer at that moment. */
  lemma CloseDelivers<M(!new)>(s: State<M>)
    requires Inv(s) && s.open
    ensures var c := Next(s, Close);
            (forall steps | Settles(c, steps) :: After(c, steps).emitted == After(c, steps).offered) <==>
            forall t | 0 <= t < |s.posters| :: !s.posters[t].Checked?
  {
    var c := Next(s, Close);
    InvKept(s, Close);
    if forall t | 0 <= t < |s.posters| :: !s.posters[t].Checked? {
      forall steps | Settles(c, steps)
        ensures After(c, steps).emitted == After(c, steps).offered
      {
        RestsEmitted(c, steps);
      }
    } else {
      var steps := StrandingRun(c);
      NoLostWakeUp(c, steps);
      var e := After(c, steps);
      assert |e.emitted| + |e.queue| == |e.offered|;
    }
  }

  lemma RestsEmitted<M(!new)>(c: State<M>, steps: seq<Step<M>>)
    requires Inv(c) && Settles(c, steps)
    requires !c.open && (c.queue != [] ==> c.drains > 0)
    requires forall t | 0 <= t < |c.posters| :: !c.posters[t].Checked?
    ensures After(c, steps).emitted == After(c, steps).offered
    decreases |steps|
  {
    if steps == [] {
      assert !Enabled(c, Poll) && c.queue == [];
      assert c.emitted + [] == c.emitted;
    } else {
      InvKept(c, steps[0]);
      RestsEmitted(Next(c, steps[0]), steps[1..]);
    }
  }

  /** A thread that stands there can offer its message after the drain. */
  lemma StrandingRun<M(!new)>(c: State<M>) returns (steps: seq<Step<M>>)
    requires !c.open && c.drains > 0 && exists t :: 0 <= t < |c.posters| && c.posters[t].Checked?
    ensures Settles(c, steps) && After(c, steps).queue != []
  {
    var drain := DrainAll(c);
    var d := After(c, drain);
    var rest := ToRest(d);
    Stranded(d, rest);
    RunConcat(c, drain, rest);
    steps := drain + rest;
  }

  lemma {:induction false} RunConcat<M>(s: State<M>, a: seq<Step<M>>, b: seq<Step<M>>)
    requires IsRun(s, a) && IsRun(After(s, a), b)
    ensures IsRun(s, a + b) && After(s, a + b) == After(After(s, a), b)
    decreases |a|
  {
    if a == [] {
      assert a + b == b;
    } else {
      assert (a + b)[1..] == a[1..] + b;
      RunConcat(Next(s, a[0]), a[1..], b);
    }
  }

  /** The least such run: a thread sees the queue open, `close` drains it, and only then the thread offers its
      message, which stays in the closed queue. */
  lemma StrandedAfterClose<M(!new)>(msg: M)
    ensures var steps := [Open, Check(0, msg), Close, Rest, Offer(0), Send(0)];
            IsRun(Init(1), steps) && !After(Init(1), steps).open && After(Init(1), steps).queue == [msg]
            && AtRest(After(Init(1), steps))
  {
    var s0 := Init<M>(1);
    var s1 := Next(s0, Open);
    var s2 := Next(s1, Check(0, msg));
    var s3 := Next(s2, Close);
    var s4 := Next(s3, Rest);
    var s5 := Next(s4, Offer(0));
    var s6 := Next(s5, Send(0));
    assert s6.queue == [msg] && !s6.open && AtRest(s6);
    RunNil(s6);
    hide IsRun, After, Init, Inv, AtRest;
    RunCons(s5, Send(0), []);
    RunCons(s4, Offer(0), [Send(0)]);
    RunCons(s3, Rest, [Offer(0), Send(0)]);
    RunCons(s2, Close, [Rest, Offer(0), Send(0)]);
    RunCons(s1, Check(0, msg), [Close, Rest, Offer(0), Send(0)]);
    RunCons(s0, Open, [Check(0, msg), Close, Rest, Offer(0), Send(0)]);
    StepsJoined(msg);
  }

  lemma StepsJoined<M>(msg: M)
    ensures [Send(0)] + [] == [Step<M>.Send(0)] && [Offer(0)] + [Send(0)] == [Step<M>.Offer(0), Send(0)]
    ensures [Rest] + [Offer(0), Send(0)] == [Step<M>.Rest, Offer(0), Send(0)]
    ensures [Close] + [Rest, Offer(0), Send(0)] == [Step<M>.Close, Rest, Offer(0), Send(0)]
    ensures [Check(0, msg)] + [Close, Rest, Offer(0), Send(0)] == [Check(0, msg), Close, Rest, Offer(0), Send(0)]
    ensures [Open] + [Check(0, msg), Close, Rest, Offer(0), Send(0)]
            == [Open, Check(0, msg), Close, Rest, Offer(0), Send(0)]
  {
  }

  lemma RunNil<M>(s: State<M>)
    ensures IsRun(s, []) && After(s, []) == s
  {
  }

  lemma RunCons<M>(s: State<M>, step: Step<M>, rest: seq<Step<M>>)
    requires Enabled(s, step) && IsRun(Next(s, step), rest)
    ensures IsRun(s, [step] + rest) && After(s, [step] + rest) == After(Next(s, step), rest)
  {
    assert ([step] + rest)[1..] == rest;
  }
}

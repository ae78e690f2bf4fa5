/** The thread-pool bridge of include/libnode/detail/async.h as a state machine over the message
    queue: `exec` registers a callback under a new id, a pool thread runs it and posts its
    result, and the main loop takes the callback out of the table and calls it. */
module Async {
  import MQ = MessageQueue
  import opened Wrappers

  type Id = nat
  type Callback = int
  type Result = int

  /** The message a task posts: `[id, res]`. */
  datatype Message = Message(id: Id, res: Result)

  datatype Fired = Fired(id: Id, callback: Callback, res: Result)

  /** Where a task that has left the executor's line is: with a thread, between the open check and
      the offer, in the message queue (as its `pos`-th message ever), or refused by a closed queue. */
  datatype Stage = Running(thread: nat) | Posting(thread: nat) | Entered(pos: nat) | Refused

  datatype State = State(
    accepting: bool,                    // exec_ is not null
    nextId: nat,
    callbacks: map<Id, Callback>,
    tasks: seq<Id>,                     // handed to the executor, not yet started
    threads: seq<Option<Id>>,           // what each pool thread is running
    mq: MQ.State<Message>,
    fired: seq<Fired>,                  // callbacks called, in order
    stages: map<Id, Stage>,             // bookkeeping of the model: every task that was started,
    registered: map<Id, Callback>,      // every callback ever registered,
    results: map<Id, Result>)           // and the result of every finished task

  datatype Step =
    | Exec(callback: Option<Callback>)
    | Start(t: nat)
    | Finish(t: nat, res: Result)       // it returns and postMessage reads open_
    | Offer(t: nat)
    | Send(t: nat)
    | Wake
    | Poll                              // emitMessage polls and OnMessage runs
    | Rest
    | Close

  predicate Enabled(s: State, step: Step) {
    match step
    case Exec(_) => s.accepting
    case Start(t) =>
      t < |s.threads| && s.threads[t].None? && t < |s.mq.posters| && s.mq.posters[t].Idle? && s.tasks != []
    case Finish(t, _) => t < |s.threads| && s.threads[t].Some? && t < |s.mq.posters| && s.mq.posters[t].Idle?
    case Offer(t) => MQ.Enabled(s.mq, MQ.Offer(t))
    case Send(t) => MQ.Enabled(s.mq, MQ.Send(t))
    case Wake => MQ.Enabled(s.mq, MQ.Wake)
    case Poll => MQ.Enabled(s.mq, MQ.Poll)
    case Rest => MQ.Enabled(s.mq, MQ.Rest)
    case Close => s.accepting && s.mq.open
  }

  function Execed(s: State, callback: Option<Callback>): State {
    var id := s.nextId + 1;
    var s' := s.(nextId := id, tasks := s.tasks + [id]);
    match callback
    case None => s'
    case Some(cb) => s'.(callbacks := s.callbacks[id := cb], registered := s.registered[id := cb])
  }

  function Started(s: State, t: nat): State
    requires Enabled(s, Start(t))
  {
    s.(tasks := s.tasks[1..], threads := s.threads[t := Some(s.tasks[0])],
       stages := s.stages[s.tasks[0] := Running(t)])
  }

  function Finished(s: State, t: nat, res: Result): State
    requires Enabled(s, Finish(t, res))
  {
    var id := s.threads[t].value;
    var s' := s.(threads := s.threads[t := None], results := s.results[id := res]);
    if s.mq.open then
      s'.(mq := MQ.Next(s.mq, MQ.Check(t, Message(id, res))), stages := s.stages[id := Posting(t)])
    else
      s'.(stages := s.stages[id := Refused])
  }

  function Offered(s: State, t: nat): State
    requires Enabled(s, Offer(t))
  {
    s.(mq := MQ.Next(s.mq, MQ.Offer(t)), stages := s.stages[s.mq.posters[t].msg.id := Entered(|s.mq.offered|)])
  }

  function Polled(s: State): State
    requires Enabled(s, Poll)
  {
    var msg := s.mq.queue[0];
    var s' := s.(mq := MQ.Next(s.mq, MQ.Poll));
    if msg.id in s.callbacks then
      s'.(callbacks := s.callbacks - {msg.id},
          fired := s.fired + [Fired(msg.id, s.callbacks[msg.id], msg.res)])
    else s'
  }

  function Next(s: State, step: Step): State
    requires Enabled(s, step)
  {
    match step
    case Exec(callback) => Execed(s, callback)
    case Start(t) => Started(s, t)
    case Finish(t, res) => Finished(s, t, res)
    case Offer(t) => Offered(s, t)
    case Poll => Polled(s)
    case Send(t) => s.(mq := MQ.Next(s.mq, MQ.Send(t)))
    case Wake => s.(mq := MQ.Next(s.mq, MQ.Wake))
    case Rest => s.(mq := MQ.Next(s.mq, MQ.Rest))
    case Close => s.(accepting := false, mq := MQ.Next(s.mq, MQ.Close))
  }

  /** The constructor has opened the queue. */
  function Init(threads: nat): State {
    State(true, 0, map[], [], seq(threads, _ => None), MQ.Next(MQ.Init(threads), MQ.Open), [], map[], map[], map[])
  }

  // ----- the invariant -----

  /** Ids are started in the order they were given out. */
  ghost predicate Lined(nextId: nat, tasks: seq<Id>, stages: map<Id, Stage>) {
    && |tasks| <= nextId
    && (forall i | 0 <= i < |tasks| :: tasks[i] == nextId - |tasks| + 1 + i)
    && (forall id :: id in stages <==> 1 <= id <= nextId - |tasks|)
  }

  predicate StageIs(stages: map<Id, Stage>, id: Id, stage: Stage) { id in stages && stages[id] == stage }

  predicate ResultIs(results: map<Id, Result>, msg: Message) { msg.id in results && results[msg.id] == msg.res }

  /** A thread runs a task exactly when its stage says so... */
  ghost predicate RunningOk(threads: seq<Option<Id>>, stages: map<Id, Stage>) {
    && (forall t | 0 <= t < |threads| && threads[t].Some? :: StageIs(stages, threads[t].value, Running(t)))
    && (forall id | id in stages && stages[id].Running? ::
          stages[id].thread < |threads| && threads[stages[id].thread] == Some(id))
  }

  /** ... and the same for the messages that are being posted... */
  ghost predicate PostingOk(posters: seq<MQ.Poster<Message>>, stages: map<Id, Stage>, results: map<Id, Result>) {
    && (forall t | 0 <= t < |posters| && posters[t].Checked? ::
          StageIs(stages, posters[t].msg.id, Posting(t)) && ResultIs(results, posters[t].msg))
    && (forall id | id in stages && stages[id].Posting? ::
          && stages[id].thread < |posters|
          && posters[stages[id].thread].Checked?
          && posters[stages[id].thread].msg.id == id)
  }

  /** ... and for the messages that entered the queue. */
  ghost predicate Listed(offered: seq<Message>, stages: map<Id, Stage>, results: map<Id, Result>) {
    && (forall i | 0 <= i < |offered| ::
          StageIs(stages, offered[i].id, Entered(i)) && ResultIs(results, offered[i]))
    && (forall id | id in stages && stages[id].Entered? ::
          stages[id].pos < |offered| && offered[stages[id].pos].id == id)
  }

  ghost predicate NoneRefused(stages: map<Id, Stage>) { forall id | id in stages :: !stages[id].Refused? }

  /** The first `n` messages have been handled. */
  predicate Handled(stages: map<Id, Stage>, n: nat, id: Id) {
    id in stages && stages[id].Entered? && stages[id].pos < n
  }

  /** The callback table holds what is registered and not yet handled. */
  ghost predicate Booked(s: State) {
    && (forall id | id in s.registered :: 1 <= id <= s.nextId)
    && (forall id :: id in s.callbacks <==> id in s.registered && !Handled(s.stages, |s.mq.emitted|, id))
    && (forall id | id in s.callbacks :: s.callbacks[id] == s.registered[id])
  }

  /** The calls that the emitted messages ask for. */
  function Firings(emitted: seq<Message>, registered: map<Id, Callback>): seq<Fired> {
    if emitted == [] then []
    else
      var msg := emitted[|emitted| - 1];
      var before := Firings(emitted[..|emitted| - 1], registered);
      if msg.id in registered then before + [Fired(msg.id, registered[msg.id], msg.res)] else before
  }

  ghost predicate Inv(s: State) {
    && MQ.Inv(s.mq) && s.accepting == s.mq.open
    && |s.threads| == |s.mq.posters|
    && Lined(s.nextId, s.tasks, s.stages)
    && RunningOk(s.threads, s.stages)
    && PostingOk(s.mq.posters, s.stages, s.results)
    && Listed(s.mq.offered, s.stages, s.results)
    && (s.accepting ==> NoneRefused(s.stages))
    && Booked(s)
    && s.fired == Firings(s.mq.emitted, s.registered)
  }

  lemma InvInit(threads: nat)
    ensures Inv(Init(threads))
  {
  }

  lemma {:induction false} FiringsStable(emitted: seq<Message>, registered: map<Id, Callback>, id: Id, cb: Callback)
    requires forall i | 0 <= i < |emitted| :: emitted[i].id != id
    ensures Firings(emitted, registered[id := cb]) == Firings(emitted, registered)
  {
    if emitted != [] { FiringsStable(emitted[..|emitted| - 1], registered, id, cb); }
  }

  lemma EmittedKnown(s: State, i: nat)
    requires Inv(s) && i < |s.mq.emitted|
    ensures i < |s.mq.offered| && s.mq.offered[i] == s.mq.emitted[i]
    ensures StageIs(s.stages, s.mq.emitted[i].id, Entered(i))
  {
    assert s.mq.offered[i] == s.mq.emitted[i];
  }

  lemma ExecedOk(s: State, callback: Option<Callback>)
    requires Inv(s) && s.accepting
    ensures Inv(Execed(s, callback))
  {
    hide MQ.Inv, RunningOk, PostingOk, Listed, NoneRefused;
    var id := s.nextId + 1;
    if callback.Some? {
      forall i | 0 <= i < |s.mq.emitted| ensures s.mq.emitted[i].id != id { EmittedKnown(s, i); }
      FiringsStable(s.mq.emitted, s.registered, id, callback.value);
    }
  }

  lemma StartedOk(s: State, t: nat)
    requires Inv(s) && Enabled(s, Start(t))
    ensures Inv(Started(s, t))
  {
    hide Firings, MQ.Inv;
  }

  lemma FinishedListed(s: State, id: Id, stage: Stage, res: Result)
    requires Listed(s.mq.offered, s.stages, s.results) && id in s.stages && s.stages[id].Running? && !stage.Entered?
    ensures Listed(s.mq.offered, s.stages[id := stage], s.results[id := res])
  {
  }

  lemma FinishedThreads(s: State, t: nat, stage: Stage)
    requires RunningOk(s.threads, s.stages) && t < |s.threads| && s.threads[t].Some? && !stage.Running?
    ensures RunningOk(s.threads[t := None], s.stages[s.threads[t].value := stage])
  {
  }

  lemma FinishedPosting(s: State, t: nat, id: Id, res: Result)
    requires PostingOk(s.mq.posters, s.stages, s.results) && t < |s.mq.posters| && s.mq.posters[t].Idle?
    requires StageIs(s.stages, id, Running(t))
    ensures PostingOk(s.mq.posters[t := MQ.Checked(Message(id, res))], s.stages[id := Posting(t)], s.results[id := res])
    ensures PostingOk(s.mq.posters, s.stages[id := Refused], s.results[id := res])
  {
  }

  lemma FinishedOk(s: State, t: nat, res: Result)
    requires Inv(s) && Enabled(s, Finish(t, res))
    ensures Inv(Finished(s, t, res))
  {
    hide Firings, MQ.Inv, Listed, PostingOk;
    var id, stage := s.threads[t].value, if s.mq.open then Posting(t) else Refused;
    assert StageIs(s.stages, id, Running(t));
    FinishedListed(s, id, stage, res);
    FinishedThreads(s, t, stage);
    FinishedPosting(s, t, id, res);
    hide RunningOk;
    if s.mq.open { MQ.InvKept(s.mq, MQ.Check(t, Message(id, res))); }
  }

  /** The message of a poster enters the queue as its last one ever. */
  lemma OfferedListed(offered: seq<Message>, stages: map<Id, Stage>, results: map<Id, Result>, t: nat, msg: Message)
    requires Listed(offered, stages, results) && StageIs(stages, msg.id, Posting(t)) && ResultIs(results, msg)
    ensures Listed(offered + [msg], stages[msg.id := Entered(|offered|)], results)
  {
  }

  lemma OfferedThreads(threads: seq<Option<Id>>, stages: map<Id, Stage>, t: nat, id: Id, n: nat)
    requires RunningOk(threads, stages) && StageIs(stages, id, Posting(t))
    ensures RunningOk(threads, stages[id := Entered(n)])
  {
  }

  lemma OfferedPosting(posters: seq<MQ.Poster<Message>>, stages: map<Id, Stage>, results: map<Id, Result>, t: nat,
                       n: nat)
    requires PostingOk(posters, stages, results) && t < |posters| && posters[t].Checked?
    ensures StageIs(stages, posters[t].msg.id, Posting(t)) && ResultIs(results, posters[t].msg)
    ensures PostingOk(posters[t := MQ.Offered(posters[t].msg)], stages[posters[t].msg.id := Entered(n)], results)
  {
  }

  lemma OfferedOk(s: State, t: nat)
    requires Inv(s) && Enabled(s, Offer(t))
    ensures Inv(Offered(s, t))
  {
    hide Firings, MQ.Inv, Listed, PostingOk, RunningOk;
    var msg := s.mq.posters[t].msg;
    OfferedPosting(s.mq.posters, s.stages, s.results, t, |s.mq.offered|);
    OfferedThreads(s.threads, s.stages, t, msg.id, |s.mq.offered|);
    OfferedListed(s.mq.offered, s.stages, s.results, t, msg);
    MQ.InvKept(s.mq, MQ.Offer(t));
    QueueOffered(s.mq);
  }

  lemma QueueOffered<M>(mq: MQ.State<M>)
    requires MQ.Inv(mq)
    ensures |mq.emitted| + |mq.queue| == |mq.offered|
    ensures mq.queue != [] ==> mq.offered[|mq.emitted|] == mq.queue[0]
  {
    assert mq.queue != [] ==> (mq.emitted + mq.queue)[|mq.emitted|] == mq.queue[0];
  }

  lemma FiringsSnoc(emitted: seq<Message>, msg: Message, registered: map<Id, Callback>)
    ensures Firings(emitted + [msg], registered) ==
              Firings(emitted, registered)
              + if msg.id in registered then [Fired(msg.id, registered[msg.id], msg.res)] else []
  {
    assert (emitted + [msg])[..|emitted|] == emitted;
  }

  /** With the next message of the queue exactly its own id is handled. */
  lemma HandledNext(offered: seq<Message>, stages: map<Id, Stage>, results: map<Id, Result>, n: nat, id: Id)
    requires Listed(offered, stages, results) && n < |offered|
    ensures Handled(stages, n + 1, id) <==> Handled(stages, n, id) || id == offered[n].id
    ensures !Handled(stages, n, offered[n].id)
  {
    assert StageIs(stages, offered[n].id, Entered(n));
  }

  lemma PolledBooked(s: State, s': State, msg: Message)
    requires Booked(s) && Listed(s.mq.offered, s.stages, s.results)
    requires |s.mq.emitted| < |s.mq.offered| && msg == s.mq.offered[|s.mq.emitted|]
    requires s' == s.(mq := s'.mq, fired := s'.fired, callbacks := s.callbacks - {msg.id})
    requires |s'.mq.emitted| == |s.mq.emitted| + 1
    ensures Booked(s') && (msg.id in s.callbacks <==> msg.id in s.registered)
  {
    var n := |s.mq.emitted|;
    forall id ensures Handled(s.stages, n + 1, id) <==> Handled(s.stages, n, id) || id == msg.id {
      HandledNext(s.mq.offered, s.stages, s.results, |s.mq.emitted|, id);
    }
    HandledNext(s.mq.offered, s.stages, s.results, |s.mq.emitted|, msg.id);
    hide Handled, Listed;
  }

  lemma PolledOk(s: State)
    requires Inv(s) && Enabled(s, Poll)
    ensures Inv(Polled(s))
  {
    hide MQ.Inv, Lined, RunningOk, PostingOk, NoneRefused, Listed, Firings;
    var s', msg := Polled(s), s.mq.queue[0];
    MQ.InvKept(s.mq, MQ.Poll);
    QueueOffered(s.mq);
    FiringsSnoc(s.mq.emitted, msg, s.registered);
    assert s.callbacks - {msg.id} == s'.callbacks;
    PolledBooked(s, s', msg);
    hide Booked;
    assert msg.id in s.callbacks ==> s.callbacks[msg.id] == s.registered[msg.id];
  }

  lemma SentOk(s: State, t: nat)
    requires Inv(s) && Enabled(s, Send(t))
    ensures Inv(Next(s, Send(t)))
  {
    hide Firings, MQ.Inv, RunningOk, Lined, Listed, NoneRefused;
    MQ.InvKept(s.mq, MQ.Send(t));
  }

  lemma InvKept(s: State, step: Step)
    requires Inv(s) && Enabled(s, step)
    ensures Inv(Next(s, step))
  {
    hide Firings, MQ.Inv, RunningOk, PostingOk, Lined, Listed, NoneRefused;
    hide Execed, Started, Finished, Offered, Polled;
    match step {
      case Exec(callback) => ExecedOk(s, callback);
      case Start(t) => StartedOk(s, t);
      case Finish(t, res) => FinishedOk(s, t, res);
      case Offer(t) => OfferedOk(s, t);
      case Poll => PolledOk(s);
      case Send(t) => SentOk(s, t);
      case Wake => MQ.InvKept(s.mq, MQ.Wake);
      case Rest => MQ.InvKept(s.mq, MQ.Rest);
      case Close => MQ.InvKept(s.mq, MQ.Close);
    }
  }

  // ----- all runs -----

  predicate IsRun(s: State, steps: seq<Step>)
    decreases |steps|
  {
    steps == [] || (Enabled(s, steps[0]) && IsRun(Next(s, steps[0]), steps[1..]))
  }

  function After(s: State, steps: seq<Step>): State
    requires IsRun(s, steps)
    decreases |steps|
  {
    if steps == [] then s else After(Next(s, steps[0]), steps[1..])
  }

  lemma {:induction false} RunKeeps(s: State, steps: seq<Step>)
    requires Inv(s) && IsRun(s, steps)
    ensures Inv(After(s, steps))
    decreases |steps|
  {
    hide Inv;
    if steps != [] {
      InvKept(s, steps[0]);
      RunKeeps(Next(s, steps[0]), steps[1..]);
    }
  }

  /** A task or its message is still under way. */
  ghost predicate Outstanding(s: State, id: Id) {
    || id in s.tasks
    || (exists t :: 0 <= t < |s.threads| && s.threads[t] == Some(id))
    || (exists t :: 0 <= t < |s.mq.posters| && s.mq.posters[t].Checked? && s.mq.posters[t].msg.id == id)
    || (exists i :: 0 <= i < |s.mq.queue| && s.mq.queue[i].id == id)
  }

  /** For every interleaving of `exec`, the pool threads, the main loop and `close`: the callbacks
      that fired are those of the emitted messages, in queue order, each at most once, with the
      callback registered under the id and the result of that id's own task. */
  lemma FiredOnce(threads: nat, steps: seq<Step>)
    requires IsRun(Init(threads), steps)
    ensures var s := After(Init(threads), steps);
            && s.fired == Firings(s.mq.emitted, s.registered)
            && (forall i, j | 0 <= i < j < |s.fired| :: s.fired[i].id != s.fired[j].id)
            && (forall f | f in s.fired :: f.id in s.registered && s.registered[f.id] == f.callback
                                           && ResultIs(s.results, Message(f.id, f.res)))
  {
    InvInit(threads);
    RunKeeps(Init(threads), steps);
    var s := After(Init(threads), steps);
    forall i | 0 <= i < |s.mq.emitted|
      ensures StageIs(s.stages, s.mq.emitted[i].id, Entered(i)) && ResultIs(s.results, s.mq.emitted[i])
    {
      EmittedKnown(s, i);
    }
    FiringsOf(s.mq.emitted, s.registered, s.stages, s.results);
  }

  /** A call of the callback registered under the id, with that id's result, for a handled message. */
  predicate CalledRight(f: Fired, registered: map<Id, Callback>, stages: map<Id, Stage>, results: map<Id, Result>,
                        n: nat)
  {
    && f.id in registered && registered[f.id] == f.callback
    && Handled(stages, n, f.id) && ResultIs(results, Message(f.id, f.res))
  }

  lemma {:induction false} FiringsOf(emitted: seq<Message>, registered: map<Id, Callback>,
                                     stages: map<Id, Stage>, results: map<Id, Result>)
    requires forall i | 0 <= i < |emitted| ::
               StageIs(stages, emitted[i].id, Entered(i)) && ResultIs(results, emitted[i])
    ensures forall f | f in Firings(emitted, registered) :: CalledRight(f, registered, stages, results, |emitted|)
    ensures forall i, j | 0 <= i < j < |Firings(emitted, registered)| ::
              Firings(emitted, registered)[i].id != Firings(emitted, registered)[j].id
    ensures forall i | 0 <= i < |emitted| && emitted[i].id in registered ::
              Fired(emitted[i].id, registered[emitted[i].id], emitted[i].res) in Firings(emitted, registered)
  {
    if emitted != [] {
      var n := |emitted| - 1;
      var before, fired := Firings(emitted[..n], registered), Firings(emitted, registered);
      FiringsOf(emitted[..n], registered, stages, results);
      assert StageIs(stages, emitted[n].id, Entered(n));
      forall f | f in fired ensures CalledRight(f, registered, stages, results, |emitted|) {
        assert f in before ==> CalledRight(f, registered, stages, results, n);
      }
      forall i, j | 0 <= i < j < |fired| ensures fired[i].id != fired[j].id {
        assert fired[i] in before && CalledRight(fired[i], registered, stages, results, n);
      }
      forall i | 0 <= i < |emitted| && emitted[i].id in registered
        ensures Fired(emitted[i].id, registered[emitted[i].id], emitted[i].res) in fired
      {
        assert i < n ==> emitted[..n][i] == emitted[i];
      }
    }
  }

  /** Before `close`, the callback table holds an id exactly while its task or message is under
      way; so when nothing is under way every callback ever registered has fired. */
  lemma RegisteredWhileOutstanding(threads: nat, steps: seq<Step>)
    requires IsRun(Init(threads), steps) && After(Init(threads), steps).accepting
    ensures var s := After(Init(threads), steps);
            && (forall id :: id in s.callbacks <==> id in s.registered && Outstanding(s, id))
            && (forall id | id in s.registered && !Outstanding(s, id) :: exists f :: f in s.fired && f.id == id)
  {
    InvInit(threads);
    RunKeeps(Init(threads), steps);
    var s := After(Init(threads), steps);
    forall id | id in s.registered ensures Outstanding(s, id) <==> !Handled(s.stages, |s.mq.emitted|, id) {
      OutstandingIsUnhandled(s, id);
    }
    forall i | 0 <= i < |s.mq.emitted|
      ensures StageIs(s.stages, s.mq.emitted[i].id, Entered(i)) && ResultIs(s.results, s.mq.emitted[i])
    {
      EmittedKnown(s, i);
    }
    FiringsOf(s.mq.emitted, s.registered, s.stages, s.results);
    forall id | id in s.registered && !Outstanding(s, id) ensures exists f :: f in s.fired && f.id == id {
      EmittedKnown(s, s.stages[id].pos);
    }
  }

  lemma OutstandingIsUnhandled(s: State, id: Id)
    requires Inv(s) && s.accepting && 1 <= id <= s.nextId
    ensures Outstanding(s, id) <==> !Handled(s.stages, |s.mq.emitted|, id)
  {
    hide Firings, Booked, RunningOk, PostingOk, Listed, Lined, MQ.Inv;
    if id !in s.stages {
      InLine(s, id);
    } else {
      StageOk(s, id);
      QueueOffered(s.mq);
      forall i | 0 <= i < |s.mq.queue| ensures StageIs(s.stages, s.mq.queue[i].id, Entered(|s.mq.emitted| + i)) {
        QueueEntered(s, i);
      }
      if s.stages[id].Entered? && s.stages[id].pos >= |s.mq.emitted| {
        QueueEntered(s, s.stages[id].pos - |s.mq.emitted|);
      }
    }
  }

  lemma InLine(s: State, id: Id)
    requires Inv(s) && 1 <= id <= s.nextId && id !in s.stages
    ensures id in s.tasks
  {
    hide Firings, Booked, RunningOk, PostingOk, Listed, MQ.Inv;
    assert s.tasks[id - 1 - (s.nextId - |s.tasks|)] == id;
  }

  lemma StageOk(s: State, id: Id)
    requires Inv(s) && id in s.stages
    ensures id !in s.tasks
    ensures match s.stages[id]
            case Running(t) => t < |s.threads| && s.threads[t] == Some(id)
            case Posting(t) => t < |s.mq.posters| && s.mq.posters[t].Checked? && s.mq.posters[t].msg.id == id
            case Entered(pos) => pos < |s.mq.offered| && s.mq.offered[pos].id == id
            case Refused => !s.accepting
    ensures forall t | 0 <= t < |s.threads| && s.threads[t] == Some(id) :: s.stages[id] == Running(t)
    ensures forall t | 0 <= t < |s.mq.posters| && s.mq.posters[t].Checked? && s.mq.posters[t].msg.id == id ::
              s.stages[id] == Posting(t)
  {
    hide Firings, Booked, MQ.Inv;
  }

  lemma QueueEntered(s: State, i: nat)
    requires Inv(s) && |s.mq.emitted| + i < |s.mq.offered|
    ensures i < |s.mq.queue| && s.mq.offered[|s.mq.emitted| + i] == s.mq.queue[i]
    ensures StageIs(s.stages, s.mq.queue[i].id, Entered(|s.mq.emitted| + i))
  {
    hide Firings, Booked, RunningOk, PostingOk, Lined;
    assert (s.mq.emitted + s.mq.queue)[|s.mq.emitted| + i] == s.mq.queue[i];
  }

  // ----- what the calls of `exec` and the tasks come to -----

  function Execs(steps: seq<Step>): nat {
    if steps == [] then 0 else Execs(steps[..|steps| - 1]) + if steps[|steps| - 1].Exec? then 1 else 0
  }

  /** The callbacks passed to `exec`, each under the number of its call. */
  function Passed(steps: seq<Step>): map<Id, Callback> {
    if steps == [] then map[]
    else
      var before := Passed(steps[..|steps| - 1]);
      match steps[|steps| - 1]
      case Exec(Some(callback)) => before[Execs(steps) := callback]
      case _ => before
  }

  lemma {:induction false} AfterSnoc(s: State, steps: seq<Step>)
    requires steps != [] && IsRun(s, steps)
    ensures var n := |steps| - 1;
            && IsRun(s, steps[..n]) && Enabled(After(s, steps[..n]), steps[n])
            && After(s, steps) == Next(After(s, steps[..n]), steps[n])
    decreases |steps|
  {
    hide Enabled, Next;
    var n := |steps| - 1;
    if n > 0 {
      AfterSnoc(Next(s, steps[0]), steps[1..]);
      assert steps[..n][1..] == steps[1..][..n - 1] && steps[1..][n - 1] == steps[n];
    }
  }

  /** Whatever the interleaving, exactly the callbacks passed to `exec` are registered, each under the number of
      its call; the bridge accepts calls until `close`. */
  lemma {:induction false} RegisteredIs(threads: nat, steps: seq<Step>)
    requires IsRun(Init(threads), steps)
    ensures var s := After(Init(threads), steps);
            && s.nextId == Execs(steps) && s.registered == Passed(steps)
            && |s.threads| == threads && (s.accepting <==> Close !in steps)
    decreases |steps|
  {
    if steps != [] {
      var n := |steps| - 1;
      AfterSnoc(Init(threads), steps);
      RegisteredIs(threads, steps[..n]);
      StepIs(After(Init(threads), steps[..n]), steps[n]);
      hide IsRun, After, Init, Next, Enabled;
      assert steps == steps[..n] + [steps[n]];
    }
  }

  /** Only `exec` gives numbers and registers callbacks, and only `close` ends that. */
  lemma StepIs(s: State, step: Step)
    requires Enabled(s, step)
    ensures var s' := Next(s, step); |s'.threads| == |s.threads| && (s'.accepting <==> s.accepting && step != Close)
    ensures !step.Exec? ==> Next(s, step).nextId == s.nextId && Next(s, step).registered == s.registered
    ensures step.Exec? ==>
              && Next(s, step).nextId == s.nextId + 1 && Next(s, step).tasks == s.tasks + [s.nextId + 1]
              && Next(s, step).registered
                 == if step.callback.Some? then s.registered[s.nextId + 1 := step.callback.value] else s.registered
  {
    hide Execed, Started, Finished, Offered, Polled, MQ.Next, MQ.Enabled;
    match step {
      case Exec(callback) => ExecedIs(s, callback);
      case Start(t) => StartedIs(s, t);
      case Finish(t, res) => FinishedIs(s, t, res);
      case Offer(t) => OfferedIs(s, t);
      case Poll => PolledIs(s);
      case _ =>
    }
  }

  lemma ExecedIs(s: State, callback: Option<Callback>)
    ensures var s' := Execed(s, callback);
            && s'.threads == s.threads && s'.accepting == s.accepting && s'.nextId == s.nextId + 1
            && s'.tasks == s.tasks + [s.nextId + 1]
            && s'.registered == if callback.Some? then s.registered[s.nextId + 1 := callback.value] else s.registered
  {
  }

  lemma StartedIs(s: State, t: nat)
    requires Enabled(s, Start(t))
    ensures var s' := Started(s, t);
            && s' == s.(tasks := s'.tasks, threads := s'.threads, stages := s'.stages)
            && |s'.threads| == |s.threads| && [s'.threads[t].value] + s'.tasks == s.tasks
  {
  }

  /** The task's result is kept, and posted if the queue is open. */
  lemma FinishedIs(s: State, t: nat, res: Result)
    requires Enabled(s, Finish(t, res))
    ensures var s' := Finished(s, t, res);
            && s' == s.(threads := s'.threads, results := s.results[s.threads[t].value := res], mq := s'.mq,
                        stages := s'.stages)
            && |s'.threads| == |s.threads|
            && (if s.mq.open then s'.mq.posters[t] == MQ.Checked(Message(s.threads[t].value, res)) else s'.mq == s.mq)
  {
  }

  lemma OfferedIs(s: State, t: nat)
    requires Enabled(s, Offer(t))
    ensures var s' := Offered(s, t); s' == s.(mq := s'.mq, stages := s'.stages)
  {
    hide MQ.Next;
  }

  lemma PolledIs(s: State)
    requires Enabled(s, Poll)
    ensures var s' := Polled(s); s' == s.(mq := s'.mq, callbacks := s'.callbacks, fired := s'.fired)
  {
    hide MQ.Next;
  }

  // ----- the bridge comes to rest with every callback called -----

  /** The steps that need no new call of `exec` or `close`. */
  predicate Internal(step: Step) { !step.Exec? && !step.Close? }

  function Busy(threads: seq<Option<Id>>): nat {
    if threads == [] then 0 else (if threads[0].Some? then 1 else 0) + Busy(threads[1..])
  }

  lemma {:induction false} BusyUpdate(threads: seq<Option<Id>>, t: nat, id: Option<Id>)
    requires t < |threads|
    ensures Busy(threads[t := id]) + (if threads[t].Some? then 1 else 0)
            == Busy(threads) + if id.Some? then 1 else 0
  {
    if t == 0 {
      assert threads[0 := id][1..] == threads[1..];
    } else {
      BusyUpdate(threads[1..], t - 1, id);
      assert threads[t := id][1..] == threads[1..][t - 1 := id];
    }
  }

  /** The internal steps still to come are at most this many. */
  function Work(s: State): nat { 10 * |s.tasks| + 8 * Busy(s.threads) + MQ.Work(s.mq) }

  lemma WorkShrinks(s: State, step: Step)
    requires Enabled(s, step) && Internal(step)
    ensures Work(Next(s, step)) < Work(s)
  {
    hide Busy, MQ.Work;
    match step {
      case Start(t) => BusyUpdate(s.threads, t, Some(s.tasks[0]));
      case Finish(t, res) =>
        BusyUpdate(s.threads, t, None);
        if s.mq.open { CheckWork(s.mq, t, Message(s.threads[t].value, res)); }
      case Offer(t) => MQ.WorkShrinks(s.mq, MQ.Offer(t));
      case Send(t) => MQ.WorkShrinks(s.mq, MQ.Send(t));
      case Wake => MQ.WorkShrinks(s.mq, MQ.Wake);
      case Poll => MQ.WorkShrinks(s.mq, MQ.Poll);
      case Rest => MQ.WorkShrinks(s.mq, MQ.Rest);
      case _ =>
    }
  }

  lemma CheckWork<M>(mq: MQ.State<M>, t: nat, msg: M)
    requires MQ.Enabled(mq, MQ.Check(t, msg))
    ensures MQ.Work(MQ.Next(mq, MQ.Check(t, msg))) == MQ.Work(mq) + 5
  {
    MQ.LoadUpdate(mq.posters, t, MQ.Checked(msg));
  }

  /** Without new calls the bridge stops within a bounded number of steps... */
  lemma {:induction false} SettlesDown(s: State, steps: seq<Step>)
    requires IsRun(s, steps) && forall i | 0 <= i < |steps| :: Internal(steps[i])
    ensures |steps| <= Work(s) && After(s, steps).accepting == s.accepting
    decreases |steps|
  {
    hide Next, Work, Enabled;
    if steps != [] {
      WorkShrinks(s, steps[0]);
      StepIs(s, steps[0]);
      SettlesDown(Next(s, steps[0]), steps[1..]);
    }
  }

  ghost predicate AtRest(s: State) { forall step | Internal(step) :: !Enabled(s, step) }

  /** ... and where it stops before `close`, with at least one thread, every callback ever passed to `exec` has
      been called, and the table is empty. */
  lemma RestsCalled(threads: nat, steps: seq<Step>)
    requires IsRun(Init(threads), steps) && After(Init(threads), steps).accepting && threads > 0
    requires AtRest(After(Init(threads), steps))
    ensures var s := After(Init(threads), steps);
            && s.callbacks == map[]
            && forall id | id in Passed(steps) ::
                 exists f :: f in s.fired && f.id == id && f.callback == Passed(steps)[id]
  {
    InvInit(threads);
    RunKeeps(Init(threads), steps);
    RegisteredIs(threads, steps);
    RegisteredWhileOutstanding(threads, steps);
    FiredOnce(threads, steps);
    var s := After(Init(threads), steps);
    hide IsRun, After, Init, Firings, Passed;
    NothingLeft(s);
    forall id | id in Passed(steps)
      ensures exists f :: f in s.fired && f.id == id && f.callback == Passed(steps)[id]
    {
      var f :| f in s.fired && f.id == id;
    }
  }

  lemma NothingLeft(s: State)
    requires Inv(s) && s.accepting && AtRest(s) && s.threads != []
    ensures forall id :: !Outstanding(s, id)
  {
    hide Firings, Booked, RunningOk, PostingOk, Listed, Lined, MQ.Inv;
    forall t | 0 <= t < |s.threads| ensures s.threads[t].None? && s.mq.posters[t].Idle? {
      assert !Enabled(s, Offer(t)) && !Enabled(s, Send(t)) && !Enabled(s, Finish(t, 0));
    }
    assert !Enabled(s, Start(0)) && !Enabled(s, Wake) && !Enabled(s, Poll) && !Enabled(s, Rest);
    QueueEmpty(s.mq);
  }

  lemma QueueEmpty<M>(mq: MQ.State<M>)
    requires MQ.Inv(mq) && mq.open && !MQ.Enabled(mq, MQ.Wake) && !MQ.Enabled(mq, MQ.Poll)
    requires !MQ.Enabled(mq, MQ.Rest) && forall t | 0 <= t < |mq.posters| :: mq.posters[t].Idle?
    ensures mq.queue == []
  {
  }
}

/** One server connection, include/libnode/detail/http/server.h: the queues of requests and responses, and
    the hand-over of the socket from each finished response to the next. */
module HttpConnection {
  import opened HttpFields
  import opened HttpFraming
  import opened HttpOutgoing
  import opened HttpReplay
  import opened Wrappers

  /** A finished response: what it was, what of it went to the wire, whether it was kept (no queue entry
      merged and nothing written after its end), and whether the socket refused a write of it. */
  datatype Done = Done(msg: Message, sent: Bytes, kept: bool, lost: bool)

  function Sent(dones: seq<Done>): Bytes {
    if dones == [] then "" else Sent(dones[..|dones| - 1]) + dones[|dones| - 1].sent
  }

  /** A response that was not lost is on the wire as it should be if and only if it was kept; one that was
      kept and lost is there with its beginning. */
  ghost predicate DonesOk(dones: seq<Done>) {
    forall i | 0 <= i < |dones| ::
      && (!dones[i].lost ==> (dones[i].kept <==> dones[i].sent == Frame(dones[i].msg)))
      && (dones[i].kept ==> dones[i].sent <= Frame(dones[i].msg))
  }

  /** Once a write was refused there is no handle, and nothing more goes out: neither what came behind, nor
      `sent`, which is what the next response has sent. */
  ghost predicate LossesOk(dones: seq<Done>, handle: bool, sent: Bytes, lost: bool) {
    && (lost ==> !handle)
    && forall i | 0 <= i < |dones| && dones[i].lost ::
         !handle && sent == "" && forall j | i < j < |dones| :: dones[j].sent == ""
  }

  /** One more response has finished. */
  lemma DonesMore(dones: seq<Done>, x: Done, handle: bool)
    requires DonesOk(dones) && (!x.lost ==> (x.kept <==> x.sent == Frame(x.msg))) && (x.kept ==> x.sent <= Frame(x.msg))
    ensures DonesOk(dones + [x]) && Sent(dones + [x]) == Sent(dones) + x.sent
    ensures LossesOk(dones, handle, x.sent, x.lost) ==> LossesOk(dones + [x], handle, "", false)
  {
    hide Frame;
    SentSnoc(dones, x);
  }

  lemma SentSnoc(dones: seq<Done>, x: Done)
    ensures Sent(dones + [x]) == Sent(dones) + x.sent
  {
    assert (dones + [x])[..|dones|] == dones;
  }

  ghost predicate Apart(rs: seq<OutgoingMessage>) {
    forall i, j | 0 <= i < j < |rs| :: rs[i] != rs[j]
  }

  /** What an operation does to the message: the body grows until the end by what is given and taken, the end
      ends it, and nothing changes a message that has ended. */
  twostate predicate Does(res: OutgoingMessage, op: Op)
    reads res
  {
    var open := Finished !in old(res.flags);
    && res.chunks == (if open && res.Takes(Given(op)) then old(res.chunks) + [Given(op).value.bytes]
                      else old(res.chunks))
    && (Finished in res.flags <==> !open || op.EndOp?)
    && res.trailers == (if open && op.TrailersOp? then op.fields else old(res.trailers))
    && (op.HeadOp? ==> res.statusCode == op.code && res.top.reason == op.reason)
    && (!open ==> res.AsMessage() == old(res.AsMessage()))
  }

  /** `writeHead` once, and no buffer with an encoding. */
  predicate MayDo(res: OutgoingMessage, op: Op)
    reads res
  {
    && (op.HeadOp? ==> res.header.None?)
    && (Given(op).Some? ==> ItemOk(Given(op).value))
  }

  /** The entries that the operation queues while the response does not own the socket. */
  ghost function Queues(res: OutgoingMessage, op: Op): seq<Form>
    reads res
  {
    match op
    case HeadOp(_, _, extra) => res.HeadForms(extra)
    case WriteOp(chunk) => res.WriteForms(chunk)
    case EndOp(data) => res.FinishForms(data)
    case _ => []
  }

  /** `d` goes out, from the owner of a writable socket only. */
  twostate predicate Sends(res: OutgoingMessage, d: Bytes)
    reads res, res.socket
  {
    && res.socket == old(res.socket) && res.log.sent == old(res.log.sent) + d
    && (res.Owning() ==> old(res.Owning()))
    && (res.socket != null && res.socket.handle ==> res.Owning() == old(res.Owning()))
    && (res.socket != null ==>
          && res.socket.wire == old(res.socket.wire) + d
          && (res.socket.handle ==> old(res.socket.handle) && res.log.lost == old(res.log.lost))
          && (old(res.socket.Sure()) ==> res.socket.Sure()))
    && (!old(res.Owning()) ==> d == "" && res.log.lost == old(res.log.lost) && res.log.tried == old(res.log.tried))
  }

  /** The operation keeps the response: it does not write after the end, and on a response that does not own
      the socket it queues nothing that is joined to what waits already. */
  ghost predicate FitsNow(res: OutgoingMessage, op: Op)
    reads res, res.socket
  {
    && !(Finished in res.flags && op.WriteOp? && res.Takes(op.chunk))
    && (res.Owning() || res.log.lost || Flows(Forms(res.output), Queues(res, op)))
  }

  /** A response that has sent nothing yet may end at any time, if it is not sent in chunks or its end is
      all of it; if it is sent in chunks and its end carries data, it must own the socket. */
  lemma EndFits(res: OutgoingMessage, data: Option<Item>)
    requires res.Valid() && Finished !in res.flags && HeaderSent !in res.flags && res.HeadForms([]) == []
    requires res.log.clean && !res.log.lost && (data.Some? ==> ItemOk(data.value))
    ensures FitsNow(res, EndOp(data)) <==> res.Owning() || !res.WillChunk() || res.WriteForms(data) == []
  {
    hide Flows, Joins, Kept, HeadOk, Shape, FieldLines, OutgoingMessage.WillChunk, OutgoingMessage.WillHaveBody;
    if !res.Owning() {
      if res.WillChunk() {
        res.EndedWhileWaiting(data);
      } else {
        res.PlainEnd(data);
        var body := res.WriteForms(data);
        assert Forms(res.output) == [] && body == TakenForms(res.WillHaveBody(), false, false, data);
        FlowsNothing([]);
        if body != [] { FlowsFirst(body, data.value); }
      }
    }
  }

  lemma FlowsFirst(body: seq<Form>, item: Item)
    requires body == SendForms(false, item)
    ensures Flows([], body)
  {
    if item.kind.Buf? {
      assert body[1..] == [FormOf(item)] && [] + [body[0]] == [body[0]];
      FlowsOne([body[0]], FormOf(item));
    } else {
      FlowsOne([], FormOf(item));
    }
  }

  /** A response as the replay sees it. */
  datatype Face = Face(
    head: bool, phrase: string, date: string,
    flags: Flags, header: bool, code: nat, top: Top, preset: seq<Field>,
    chunks: seq<Bytes>, trailers: seq<Field>, forms: seq<Form>, fine: bool)

  ghost function FaceOf(m: OutgoingMessage): Face
    reads m`flags, m`header, m`statusCode, m`top, m`preset, m`chunks, m`trailers, m`output, m`log, m`overrun
  {
    Face(m.head, m.phrase, m.date, m.flags, m.header.Some?, m.statusCode, m.top, m.preset,
         m.chunks, m.trailers, Forms(m.output), m.log.clean && !m.overrun)
  }

  ghost function FacePlan(f: Face, code: nat, user: seq<Field>): Plan {
    PlanFor(user, if SendDate in f.flags then Some(f.date) else None, !NoBodyFor(f.head, code),
            ShouldKeepAlive in f.flags, UseChunkedByDefault in f.flags)
  }

  /** The head of `g` has been made, from what `f` was. */
  ghost predicate MadeBy(f: Face, g: Face, code: nat, reason: string, extra: seq<Field>) {
    var user := Merged(f.preset, extra);
    && g.header && g.code == code && g.top.reason == reason && g.top.user == user
    && g.top.plan == FacePlan(f, code, user) && (HasBody in g.flags) == !NoBodyFor(f.head, code)
  }

  /** The head of `g` is that of `f`. */
  ghost predicate HeadStayed(f: Face, g: Face) {
    && g.header == f.header && g.code == f.code && g.top == f.top && (HasBody in g.flags <==> HasBody in f.flags)
    && (!f.header ==> g.flags == f.flags)
  }

  ghost predicate HeadBy(f: Face, g: Face, op: Op) {
    if f.header then HeadStayed(f, g)
    else
      match op
      case HeadOp(code, reason, extra) => MadeBy(f, g, code, reason, extra)
      case HeaderOp(_, _) => HeadStayed(f, g)
      case TrailersOp(_) => HeadStayed(f, g)
      case _ => MadeBy(f, g, f.code, f.phrase, [])
  }

  /** What an operation that queues `queued` makes of a response. */
  ghost predicate PutsBy(f: Face, g: Face, op: Op, queued: seq<Form>) {
    && g.head == f.head && g.phrase == f.phrase && g.date == f.date && HeadBy(f, g, op)
    && g.preset == (if op.HeaderOp? && !f.header then PutByKey(f.preset, Field(op.name, op.value)) else f.preset)
    && (HeaderSent in g.flags <==> HeaderSent in f.flags || queued != [])
    && (Finished in g.flags <==> Finished in f.flags || op.EndOp?)
    && g.chunks == (if Finished !in f.flags && HasBody in g.flags && Given(op).Some? && Given(op).value.bytes != ""
                    then f.chunks + [Given(op).value.bytes] else f.chunks)
    && g.trailers == (if Finished !in f.flags && op.TrailersOp? then op.fields else f.trailers)
  }

  twostate predicate Puts(res: OutgoingMessage, op: Op)
    reads res, res.socket
  {
    && PutsBy(old(FaceOf(res)), FaceOf(res), op, old(Queues(res, op)))
    && (!old(res.Owning()) ==> Forms(res.output) == old(Forms(res.output)) + old(Queues(res, op)))
  }

  lemma TextMoves(f: Face, g: Face, op: Op, queued: seq<Form>, t: Draft)
    requires PutsBy(f, g, op, queued) && TextedBy(f, t) && queued == Adds(t, op)
    ensures TextedBy(g, Next(t, op))
  {
    hide Adds, PlanFor, Overlay, PutByKey;
    assert op.WriteOp? || op.EndOp? || op.HeadOp? || t.made.Some? || Making(t, op) == None;
  }

  /** The response has this text. */
  ghost predicate TextedBy(f: Face, t: Draft) {
    && f.head == t.head && f.phrase == t.phrase && f.date == t.date && f.preset == t.preset
    && f.chunks == t.chunks && f.trailers == t.trailers
    && (HeaderSent in f.flags) == t.sent && (Finished in f.flags) == t.finished
    && match t.made
       case None =>
         && !f.header && f.code == 200 && SendDate in f.flags
         && (UseChunkedByDefault in f.flags) == t.useChunked && (ShouldKeepAlive in f.flags) == t.keepAlive
       case Some(h) =>
         && f.header && f.code == h.code && f.top.reason == h.reason && f.top.user == h.user && f.top.plan == h.plan
         && (HasBody in f.flags) == h.hasBody
  }

  ghost predicate Texted(m: OutgoingMessage, t: Draft)
    reads m
  {
    TextedBy(FaceOf(m), t)
  }

  // ----- what a connection, seen so, has in common with the replay of the calls -----

  /** The responses have the texts that the calls come to. */
  ghost predicate TellsBy(fs: seq<Face>, r: Replay) {
    |r.rs| == |fs| && forall i | 0 <= i < |fs| :: TextedBy(fs[i], r.rs[i].text)
  }

  /** The finished responses were kept, and the others are fine, as the replay says. */
  ghost predicate MarkedBy(fs: seq<Face>, dones: seq<Done>, r: Replay) {
    && |dones| <= |fs| == |r.rs|
    && (forall i | 0 <= i < |dones| :: dones[i].kept == r.rs[i].fit)
    && (forall i | |dones| <= i < |fs| :: fs[i].fine == r.rs[i].fit)
  }

  /** The socket has been handed on as far as in the replay, or, when it failed, less far. */
  ghost predicate BehindBy(fs: seq<Face>, dones: seq<Done>, ended: bool, r: Replay) {
    && MarkedBy(fs, dones, r) && |dones| <= r.done <= |r.rs|
    && (ended ==> r.ended && |dones| == r.done) && (|dones| == r.done ==> ended == r.ended)
  }

  /** While there is a handle, the connection is where the replay is. */
  ghost predicate FollowsBy(fs: seq<Face>, dones: seq<Done>, ended: bool, writable: bool, r: Replay) {
    && MarkedBy(fs, dones, r) && |dones| == r.done && ended == r.ended && (ended || writable)
    && forall i | |dones| <= i < |fs| :: fs[i].forms == r.rs[i].forms
  }

  /** Only the queue of the `n`-th response may have changed. */
  ghost predicate Eased(fs: seq<Face>, gs: seq<Face>, n: nat) {
    |gs| == |fs| && forall i | 0 <= i < |fs| :: gs[i] == if i == n then fs[i].(forms := gs[i].forms) else fs[i]
  }

  /** One response has let go of the socket. */
  lemma YieldBy(fs: seq<Face>, gs: seq<Face>, dones: seq<Done>, x: Done, ended: bool, writable: bool, w: bool,
                r: Replay)
    requires Eased(fs, gs, |dones| + 1) && |dones| == r.done < |fs| && !r.ended && TellsBy(fs, r)
    requires x.kept == fs[|dones|].fine && ended == IsLast(r.rs[r.done].text)
    ensures var q := LetGo(r);
            && TellsBy(gs, r) && TellsBy(gs, q) && q.done == |dones| + 1 && q.ended == ended
            && (MarkedBy(fs, dones, r) ==> MarkedBy(gs, dones + [x], q))
            && (FollowsBy(fs, dones, false, w, r) && (ended || writable) && (ended ==> gs == fs)
                && (!ended && |dones| + 1 < |gs| ==> gs[|dones| + 1].forms == []) ==>
                  FollowsBy(gs, dones + [x], ended, writable, q))
  {
    hide IsLast;
    TellsEased(fs, gs, |dones| + 1, r);
    TellsEased(gs, gs, 0, r);
  }

  lemma TellsEased(fs: seq<Face>, gs: seq<Face>, n: nat, r: Replay)
    requires Eased(fs, gs, n) && TellsBy(fs, r)
    ensures TellsBy(gs, r) && (r.done < |r.rs| ==> TellsBy(gs, LetGo(r)))
  {
    hide IsLast;
    forall i | 0 <= i < |fs| ensures TextedBy(gs[i], r.rs[i].text) {
      assert TextedBy(fs[i], r.rs[i].text);
      if i == n { TextOfForms(fs[i], gs[i].forms, r.rs[i].text); }
    }
    hide TextedBy;
  }

  lemma FormsNone()
    ensures Forms([]) == []
  {
  }

  lemma TextOfForms(f: Face, forms: seq<Form>, t: Draft)
    requires TextedBy(f, t)
    ensures TextedBy(f.(forms := forms), t)
  {
  }

  /** Where the hand-over has come to, the replay is or has gone on. */
  lemma RestBy(fs: seq<Face>, dones: seq<Done>, ended: bool, r: Replay)
    requires OwnerFinished(r) && |dones| == LetGo(r).done && ended == LetGo(r).ended
    ensures MarkedBy(fs, dones, LetGo(r)) ==> BehindBy(fs, dones, ended, HandOn(r))
  {
    HandOnFar(r);
    hide LetGo, HandOn, IsLast;
  }

  lemma TellsSame(fs: seq<Face>, q: Replay, h: Replay)
    requires TellsBy(fs, q) && SameTexts(q, h)
    ensures TellsBy(fs, h)
  {
    hide TextedBy;
  }

  /** The replay may have handed on the socket further. */
  lemma MarkedBehind(fs: seq<Face>, dones: seq<Done>, ended: bool, q: Replay, h: Replay)
    requires MarkedBy(fs, dones, q) && |dones| == q.done && ended == q.ended && SameTexts(q, h)
    requires h == q || (!q.ended && q.done < h.done <= |h.rs|)
    ensures BehindBy(fs, dones, ended, h)
  {
  }

  /** With the hand-over that an operation starts in the replay. */
  lemma ActedBy(fs: seq<Face>, dones: seq<Done>, ended: bool, r: Replay, i: nat, op: Op)
    requires i < |r.rs|
    ensures TellsBy(fs, WorkedOn(r, i, op)) ==> TellsBy(fs, Acted(r, i, op))
    ensures MarkedBy(fs, dones, WorkedOn(r, i, op)) && |dones| == r.done && ended == r.ended ==>
              BehindBy(fs, dones, ended, Acted(r, i, op))
  {
    hide MarkedBy, BehindBy, TellsBy, HandOn, LetGo, WorkedOn;
    var q, h := WorkedOn(r, i, op), Acted(r, i, op);
    ActedFar(r, i, op);
    hide Acted, SameTexts;
    if TellsBy(fs, q) { TellsSame(fs, q, h); }
    if MarkedBy(fs, dones, q) && |dones| == r.done && ended == r.ended { MarkedBehind(fs, dones, ended, q, h); }
  }

  /** An operation on one response, as the replay has it. */
  lemma WorkedBy(fs: seq<Face>, f: Face, i: nat, op: Op, dones: seq<Done>, ended: bool, writable: bool, r: Replay)
    requires TellsBy(fs, r) && i < |fs| && TextedBy(f, Next(r.rs[i].text, op))
    ensures var q := WorkedOn(r, i, op);
            && TellsBy(fs[i := f], q)
            && (FollowsBy(fs, dones, ended, true, r)
                && (i >= |dones| ==> f.fine == (fs[i].fine && Fits(r.rs[i], i == r.done && !r.ended, op))) ==>
                  && MarkedBy(fs[i := f], dones, q)
                  && ((ended || writable)
                      && (i >= |dones| ==>
                            f.forms == if i == r.done && !r.ended then [] else fs[i].forms + Adds(r.rs[i].text, op)) ==>
                        FollowsBy(fs[i := f], dones, ended, writable, q)))
  {
    hide Next, Adds, Fits, TextedBy;
  }

  /** What the text tells before an operation. */
  lemma Told(m: OutgoingMessage, t: Draft, op: Op)
    requires m.Valid() && Texted(m, t)
    ensures Queues(m, op) == Adds(t, op) && (MayDo(m, op) <==> Legal(t, op))
    ensures Finished in m.flags && op.WriteOp? ==> (m.Takes(op.chunk) <==> Takes(t, op))
    ensures m.header.None? ==>
              && m.ImplicitPlan() == Make(t, 200, t.phrase, []).plan && m.UserFields([]) == Merged(t.preset, [])
    ensures m.header.None? && op.HeadOp? ==>
              && m.PlanOf(op.code, m.UserFields(op.extra)) == Make(t, op.code, op.reason, op.extra).plan
              && m.UserFields(op.extra) == Merged(t.preset, op.extra)
  {
    hide OutgoingMessage.Sound, PlanFor, Values, TakenForms, EndedForms, EndForms;
    m.Holds();
    if m.header.Some? { m.HeadPlanned(); }
  }

  /** One more response. */
  lemma JoinedBy(fs: seq<Face>, f: Face, dones: seq<Done>, ended: bool, writable: bool, r: Replay, t: Draft)
    requires TellsBy(fs, r) && TextedBy(f, t) && f.forms == [] && f.fine && !t.finished
    ensures var q := r.(rs := r.rs + [Sketch(t, [], true)]);
            && TellsBy(fs + [f], q) && (BehindBy(fs, dones, ended, r) ==> BehindBy(fs + [f], dones, ended, q))
            && (FollowsBy(fs, dones, ended, writable, r) ==>
                  FollowsBy(fs + [f], dones, ended, writable, q) && BehindBy(fs + [f], dones, ended, q))
            && (r.done <= |r.rs| && OwnerFinished(q) ==> OwnerFinished(r))
  {
    hide TextedBy;
  }

  lemma Seen(m: OutgoingMessage)
    ensures FaceOf(m).fine == Fine(m) && FaceOf(m).forms == Forms(m.output)
  {
    hide Forms;
  }

  lemma Shows(m: OutgoingMessage, t: Draft)
    requires Texted(m, t)
    ensures TextedBy(FaceOf(m), t) && (Finished in m.flags <==> t.finished)
  {
  }

  lemma IsFinished(m: OutgoingMessage, t: Draft)
    requires Texted(m, t)
    ensures Finished in m.flags <==> t.finished
  {
  }

  lemma IsLastFlag(m: OutgoingMessage, t: Draft)
    requires m.Valid() && Texted(m, t) && Finished in m.flags
    ensures Last in m.flags <==> IsLast(t)
  {
    hide OutgoingMessage.Sound;
    m.Holds();
    m.HeadPlanned();
  }

  /** The message that the text tells of. */
  lemma IsMessage(m: OutgoingMessage, t: Draft)
    requires m.Valid() && Texted(m, t) && t.made.Some?
    ensures m.AsMessage() == MessageOf(t) && (Last in m.flags <==> IsLast(t))
  {
    hide OutgoingMessage.Sound, PlanFor;
    m.HeadPlanned();
  }

  /** The message is what it was. */
  twostate predicate Same(m: OutgoingMessage)
    reads m
  {
    m.flags == old(m.flags) && m.AsMessage() == old(m.AsMessage()) && Fine(m) == old(Fine(m))
  }

  /** Nothing was merged, and nothing written after the end. */
  ghost predicate Fine(m: OutgoingMessage)
    reads m`log, m`overrun
  {
    m.log.clean && !m.overrun
  }

  class Connection {
    const socket: Socket
    var incomings: seq<nat>             // the requests, by number, that are not answered yet
    var outgoings: seq<OutgoingMessage>
    var arrived: nat                    // the number of requests so far
    ghost var responses: seq<OutgoingMessage>   // all responses, in the order of the requests
    ghost var dones: seq<Done>          // those that have finished
    ghost var ended: bool               // a response with LAST has finished

    ghost predicate Waiting(m: OutgoingMessage)
      reads m
    {
      m.socket == null && !m.log.tried && !m.log.lost && m.log.sent == "" && m.Valid()
    }

    ghost predicate Gone(m: OutgoingMessage)
      reads m
    {
      m.socket == null && Finished in m.flags && m.Valid()
    }

    /** After LAST: a response that never reached the socket, though it may be its owner. */
    ghost predicate Silent(m: OutgoingMessage)
      reads m, socket
    {
      && (m.socket == null || (m.socket == socket && socket.httpMessage == m)) && !m.log.tried
      && m.Valid()
    }

    /** The owner is the first response that has not finished; the others wait in order. */
    ghost predicate InOrder()
      reads this, socket, responses
      requires |dones| <= |responses|
    {
      && (forall i | |dones| < i < |responses| :: Waiting(responses[i]))
      && |incomings| == |responses| - |dones|
      && (forall j | 0 <= j < |incomings| :: incomings[j] == |dones| + j)
      && (if |dones| == |responses| then
            socket.httpMessage == null && outgoings == [] && socket.wire == Sent(dones)
          else
            var owner := responses[|dones|];
            && socket.httpMessage == owner && outgoings == responses[|dones| + 1..]
            && owner.socket == socket && owner.Valid() && socket.wire == Sent(dones) + owner.log.sent)
    }

    /** After a response with LAST: the wire is closed for writing and stays as it is. */
    ghost predicate AllSilent()
      reads this, socket, responses
      requires |dones| <= |responses|
    {
      && !socket.writable && socket.wire == Sent(dones)
      && (forall i | |dones| <= i < |responses| :: Silent(responses[i]))
      && |incomings| == |outgoings| + if socket.httpMessage == null then 0 else 1
    }

    ghost predicate Valid()
      reads this, socket, responses
    {
      && Apart(responses) && arrived == |responses| && |dones| <= |responses| && socket.Valid() && DonesOk(dones)
      && (forall i | 0 <= i < |dones| :: Gone(responses[i]))
      && (if ended then AllSilent() else InOrder())
    }

    constructor (socket: Socket)
      requires socket.Valid() && socket.httpMessage == null && socket.wire == ""
      ensures Valid() && this.socket == socket && responses == [] && dones == [] && !ended
      ensures Recorded() && Losses()
    {
      this.socket := socket;
      incomings, outgoings, arrived, responses, dones, ended := [], [], 0, [], [], false;
    }

    /** What every operation does to the connection: responses finish in order, the wire only grows, and
        after LAST, or without a handle, it stays as it is. A handle that refuses no write stays. */
    twostate predicate Goes()
      reads this, socket
    {
      && old(dones) <= dones && (old(ended) ==> ended && dones == old(dones))
      && old(socket.wire) <= socket.wire && (old(ended) ==> socket.wire == old(socket.wire))
      && (!old(socket.handle) ==> !socket.handle && socket.wire == old(socket.wire))
      && (old(socket.Sure()) ==> socket.Sure())
    }

    /** What is remembered of a finished response is still what it is. */
    ghost predicate Recorded()
      reads this, responses
      requires |dones| <= |responses|
    {
      forall i | 0 <= i < |dones| :: dones[i].msg == responses[i].AsMessage()
    }

    /** A refused write is the last one. */
    ghost predicate Losses()
      reads this, socket, responses
      requires |dones| <= |responses|
    {
      if |dones| == |responses| then LossesOk(dones, socket.handle, "", false)
      else LossesOk(dones, socket.handle, responses[|dones|].log.sent, responses[|dones|].log.lost)
    }

    /** The responses, all but `res`, keep their messages. */
    twostate predicate SameMessages(res: OutgoingMessage?)
      reads this, responses
    {
      forall r | r in old(responses) && r in responses && r != res :: Same(r)
    }

    /** A response that has just finished was kept if it was fine. */
    twostate predicate NewDones()
      reads this, responses
    {
      forall i | |old(dones)| <= i < |dones| && i < |responses| :: dones[i].kept == Fine(responses[i])
    }

    ghost function Faces(): (fs: seq<Face>)
      reads this, responses
      ensures |fs| == |responses|
    {
      seq(|responses|, i requires 0 <= i < |responses| reads this, responses => FaceOf(responses[i]))
    }

    ghost predicate Tells(r: Replay)
      reads this, responses
    {
      TellsBy(Faces(), r)
    }

    ghost predicate Behind(r: Replay)
      reads this, responses
    {
      BehindBy(Faces(), dones, ended, r)
    }

    ghost predicate Follows(r: Replay)
      reads this, socket, responses
    {
      FollowsBy(Faces(), dones, ended, socket.writable, r)
    }

    /** ParserOnIncoming. */
    method OnRequest(head: bool, useChunked: bool, keepAlive: bool, phrase: string, date: string)
      returns (out: OutgoingMessage)
      requires Valid()
      modifies this, socket
      ensures Valid() && Goes() && fresh(out) && (socket.handle ==> old(socket.handle))
      ensures responses == old(responses) + [out] && dones == old(dones) && ended == old(ended)
      ensures socket.wire == old(socket.wire) && socket.writable == old(socket.writable) && out.Valid()
      ensures TextedBy(FaceOf(out), NewDraft(head, useChunked, keepAlive, phrase, date))
      ensures Faces() == old(Faces()) + [FaceOf(out)] && FaceOf(out).forms == [] && FaceOf(out).fine
      ensures (old(Recorded()) ==> Recorded()) && (old(Losses()) ==> Losses())
    {
      hide OutgoingMessage.Sound, HeadOk, BodyOk, Kept, Sent, DonesOk, Frame, InOrder, AllSilent, Gone;
      out := new OutgoingMessage(head, useChunked, keepAlive, phrase, date);
      out.Holds();
      assert TextedBy(FaceOf(out), NewDraft(head, useChunked, keepAlive, phrase, date));
      FormsNone();
      hide TextedBy, Forms;
      if socket.httpMessage != null {
        Enqueue(out);
      } else {
        GiveSocket(out);
      }
    }

    ghost predicate IsNew(out: OutgoingMessage)
      reads out
    {
      && out.socket == null && out.output == [] && Fine(out) && !out.log.lost && out.log.sent == ""
      && Finished !in out.flags && out.header.None?
    }

    method Enqueue(out: OutgoingMessage)
      requires Valid() && out !in responses && IsNew(out) && Waiting(out) && socket.httpMessage != null
      modifies this
      ensures Valid() && responses == old(responses) + [out] && dones == old(dones) && ended == old(ended)
      ensures (old(Recorded()) ==> Recorded()) && (old(Losses()) ==> Losses())
      ensures Faces() == old(Faces()) + [FaceOf(out)]
    {
      hide Valid, Losses, FaceOf, Waiting, OutgoingMessage.AsMessage;
      Stand(out);
    }

    method Stand(out: OutgoingMessage)
      requires Valid() && out !in responses && IsNew(out) && Waiting(out) && socket.httpMessage != null
      modifies this
      ensures Valid() && responses == old(responses) + [out] && dones == old(dones) && ended == old(ended)
      ensures |dones| <= |old(responses)| && (old(Losses()) ==> Losses())
    {
      hide OutgoingMessage.Sound, OutgoingMessage.AsMessage, HeadOk, BodyOk, Kept, Sent, DonesOk, Frame;
      incomings := incomings + [arrived];
      arrived := arrived + 1;
      outgoings := outgoings + [out];
      responses := responses + [out];
    }

    method GiveSocket(out: OutgoingMessage)
      requires Valid() && out !in responses && IsNew(out) && Waiting(out) && socket.httpMessage == null
      modifies this, out, socket
      ensures Valid() && responses == old(responses) + [out] && dones == old(dones) && ended == old(ended)
      ensures (old(Recorded()) ==> Recorded()) && (old(Losses()) ==> Losses())
      ensures socket.wire == old(socket.wire) && socket.writable == old(socket.writable) && out.Valid()
      ensures FaceOf(out) == old(FaceOf(out)) && Faces() == old(Faces()) + [FaceOf(out)]
      ensures (socket.handle ==> old(socket.handle)) && (old(socket.Sure()) ==> socket.Sure())
    {
      hide Valid, Losses, FaceOf, Waiting, OutgoingMessage.AsMessage, OutgoingMessage.Valid;
      Own(out);
    }

    method Own(out: OutgoingMessage)
      requires Valid() && out !in responses && IsNew(out) && Waiting(out) && socket.httpMessage == null
      modifies this, out, socket
      ensures Valid() && responses == old(responses) + [out] && dones == old(dones) && ended == old(ended)
      ensures |dones| <= |old(responses)| && (old(Losses()) ==> Losses())
      ensures socket.wire == old(socket.wire) && socket.writable == old(socket.writable) && out.Valid()
      ensures FaceOf(out) == old(FaceOf(out))
      ensures (socket.handle ==> old(socket.handle)) && (old(socket.Sure()) ==> socket.Sure())
    {
      hide OutgoingMessage.Sound, OutgoingMessage.AsMessage, OutgoingMessage.Owning, HeadOk, BodyOk, Kept;
      hide Sent, DonesOk, Frame;
      incomings := incomings + [arrived];
      arrived := arrived + 1;
      ghost var event, d;
      event, d := out.AssignSocket(socket);
      assert FaceOf(out) == old(FaceOf(out));
      hide FaceOf, Forms;
      responses := responses + [out];
      assert Sent(dones) + "" == Sent(dones);
    }

    // ----- finishing -----

    /** The socket has no owner, and every response that has not finished waits. */
    ghost predicate HandOver()
      reads this, socket, responses
    {
      && Apart(responses) && arrived == |responses| && |dones| <= |responses| && socket.Valid() && DonesOk(dones)
      && (forall i | 0 <= i < |dones| :: Gone(responses[i]))
      && (forall i | |dones| <= i < |responses| :: Waiting(responses[i]))
      && |incomings| == |responses| - |dones|
      && (forall j | 0 <= j < |incomings| :: incomings[j] == |dones| + j)
      && socket.httpMessage == null && outgoings == responses[|dones|..] && socket.wire == Sent(dones)
    }

    /** The first half of OutgoingOnFinish: the request leaves the queue and the response lets go. */
    method Release(res: OutgoingMessage)
      requires Valid() && !ended && |dones| < |responses| && res == responses[|dones|]
      requires Finished in res.flags && res.output == []
      modifies `incomings, `dones, res`socket, socket`httpMessage
      ensures HandOver() && |dones| == |old(dones)| + 1 && old(dones) < dones
      ensures dones[|dones| - 1].msg == res.AsMessage() && dones[|dones| - 1].sent == res.log.sent
      ensures dones[|dones| - 1].kept == Fine(res) == FaceOf(res).fine
      ensures (old(Recorded()) ==> Recorded()) && (old(Losses()) ==> Losses())
      ensures SameMessages(null) && Faces() == old(Faces())
    {
      hide Valid, HandOver, Losses, DonesOk, OutgoingMessage.AsMessage;
      Seen(res);
      hide FaceOf;
      LetGoOf(res);
    }

    method LetGoOf(res: OutgoingMessage)
      requires Valid() && !ended && |dones| < |responses| && res == responses[|dones|]
      requires Finished in res.flags && res.output == []
      modifies `incomings, `dones, res`socket, socket`httpMessage
      ensures HandOver() && (old(Losses()) ==> Losses())
      ensures dones == old(dones) + [Done(res.AsMessage(), res.log.sent, Fine(res), res.log.lost)]
    {
      hide OutgoingMessage.Sound, OutgoingMessage.AsMessage, HeadOk, BodyOk, Kept, Sent, Frame, DonesOk, LossesOk;
      incomings := incomings[1..];
      res.AllSent();
      ghost var x := Done(res.AsMessage(), res.log.sent, Fine(res), res.log.lost);
      DonesMore(dones, x, socket.handle);
      res.DetachSocket(socket);
      dones := dones + [x];
    }

    method Close()
      requires HandOver() && !ended
      modifies `ended, socket`writable
      ensures Valid() && ended && dones == old(dones)
      ensures (old(Recorded()) ==> Recorded()) && (old(Losses()) ==> Losses()) && SameMessages(null)
      ensures Faces() == old(Faces())
    {
      hide OutgoingMessage.Sound, HeadOk, BodyOk, Kept, Sent, Frame, DonesOk;
      socket.DestroySoon();
      ended := true;
    }

    /** The next response gets the socket and its output goes out; it may have finished with that. */
    method Assign(out: OutgoingMessage) returns (finishes: bool)
      requires HandOver() && !ended && |outgoings| > 0 && out == outgoings[0]
      modifies `outgoings, socket, out
      ensures Valid() && outgoings == old(outgoings)[1..] && |dones| < |responses| && out == responses[|dones|]
      ensures old(socket.wire) <= socket.wire
      ensures out.flags == old(out.flags) && out.AsMessage() == old(out.AsMessage())
      ensures FaceOf(out) == old(FaceOf(out)).(forms := Forms(out.output))
      ensures socket.handle ==> socket.writable == old(socket.writable)
      ensures Fine(out) == old(Fine(out)) && (socket.handle ==> old(socket.handle)) && (out.log.lost ==> !socket.handle)
      ensures old(socket.Sure()) ==> socket.Sure()
      ensures !old(socket.handle) ==> out.log.sent == old(out.log.sent) && socket.wire == old(socket.wire)
      ensures finishes <==> Finished in out.flags && out.output == []
    {
      hide OutgoingMessage.Sound, HeadOk, BodyOk, Kept, Sent, Frame, DonesOk;
      outgoings := outgoings[1..];
      ghost var d;
      var event;
      event, d := out.AssignSocket(socket);
      finishes := event == Finish;
    }

    /** `next` is a response that has got the socket and finished with that. */
    method PassOn() returns (next: OutgoingMessage?)
      requires HandOver() && !ended
      modifies `outgoings, socket, responses
      ensures Valid() && (next == null ==> |outgoings| <= |old(outgoings)|)
      ensures old(socket.wire) <= socket.wire
      ensures socket.handle ==> old(socket.handle) && socket.writable == old(socket.writable)
      ensures old(socket.Sure()) ==> socket.Sure()
      ensures (old(Recorded()) ==> Recorded()) && (old(Losses()) ==> Losses()) && SameMessages(null)
      ensures Eased(old(Faces()), Faces(), |dones|) && (!old(socket.handle) ==> socket.wire == old(socket.wire))
      ensures |dones| < |responses| && socket.handle && socket.writable ==>
                && (next != null <==> Finished in responses[|dones|].flags) && responses[|dones|].output == []
      ensures next != null ==>
                && |dones| < |responses| && next == responses[|dones|] && Finished in next.flags && next.output == []
                && |outgoings| < |old(outgoings)|
    {
      hide OutgoingMessage.Sound, OutgoingMessage.AsMessage, OutgoingMessage.Valid, FaceOf, Forms;
      hide HeadOk, BodyOk, Kept, Sent, Frame, DonesOk, Fine, AllSilent, Gone;
      next := null;
      if |outgoings| > 0 {
        var out := outgoings[0];
        assert out == responses[|dones|];
        var finishes := Assign(out);
        if finishes { next := out; }
        if socket.writable { OwnerEmpty(); }
      }
    }

    /** One hand-over: after LAST the socket is destroyed soon; otherwise it goes to the next response. */
    method Yield(res: OutgoingMessage) returns (next: OutgoingMessage?)
      requires Valid() && !ended && |dones| < |responses| && res == responses[|dones|]
      requires Finished in res.flags && res.output == []
      modifies this, socket, responses
      ensures Valid() && Goes() && responses == old(responses) && |dones| == |old(dones)| + 1
      ensures socket.handle ==> old(socket.handle) && (ended || socket.writable == old(socket.writable))
      ensures (old(Recorded()) ==> Recorded()) && (old(Losses()) ==> Losses()) && SameMessages(null) && NewDones()
      ensures next != null ==>
                && !ended && |dones| < |responses| && next == responses[|dones|] && Finished in next.flags
                && next.output == [] && |outgoings| < |old(outgoings)|
      ensures Eased(old(Faces()), Faces(), |dones|) && ended == (Last in old(res.flags))
      ensures old(dones) == dones[..|dones| - 1] && dones[|dones| - 1].kept == old(FaceOf(res)).fine
      ensures ended ==> Faces() == old(Faces())
      ensures !ended && |dones| < |responses| && socket.handle && socket.writable ==>
                (next != null <==> Finished in responses[|dones|].flags) && responses[|dones|].output == []
    {
      hide OutgoingMessage.Sound, OutgoingMessage.AsMessage, HeadOk, BodyOk, Kept, Sent, Frame, DonesOk;
      hide Valid, HandOver, Recorded, Losses, Fine, FaceOf;
      next := null;
      Release(res);
      assert res in responses;
      if Last in res.flags {
        Close();
      } else {
        next := PassOn();
      }
    }

    /** The same, as the replay has it. */
    method YieldOn(res: OutgoingMessage, ghost r: Replay) returns (next: OutgoingMessage?)
      requires Valid() && !ended && |dones| < |responses| && res == responses[|dones|]
      requires Finished in res.flags && res.output == [] && Tells(r) && |dones| == r.done && !r.ended
      modifies this, socket, responses
      ensures Valid() && Goes() && responses == old(responses) && |dones| == |old(dones)| + 1
      ensures socket.handle ==> old(socket.handle)
      ensures (old(Recorded()) ==> Recorded()) && (old(Losses()) ==> Losses()) && SameMessages(null) && NewDones()
      ensures next != null ==>
                && !ended && |dones| < |responses| && next == responses[|dones|] && Finished in next.flags
                && next.output == [] && |outgoings| < |old(outgoings)|
      ensures |dones| == LetGo(r).done && ended == LetGo(r).ended && Tells(LetGo(r)) && Tells(r)
      ensures old(MarkedBy(Faces(), dones, r)) ==> MarkedBy(Faces(), dones, LetGo(r))
      ensures old(Follows(r)) && socket.handle ==> Follows(LetGo(r)) && (next != null <==> OwnerFinished(LetGo(r)))
    {
      hide OutgoingMessage.Sound, OutgoingMessage.AsMessage, HeadOk, BodyOk, Kept, Sent, Frame, DonesOk;
      hide Valid, HandOver, Recorded, Losses, Fine, Forms, LetGo, MarkedBy, IsLast;
      Owner(res);
      IsLastFlag(res, r.rs[r.done].text);
      assert Faces()[|dones|] == FaceOf(res);
      next := Yield(res);
      assert dones == old(dones) + [dones[|dones| - 1]];
      FormsNone();
      assert |dones| < |responses| ==> Faces()[|dones|] == FaceOf(responses[|dones|]);
      YieldBy(old(Faces()), Faces(), old(dones), dones[|dones| - 1], ended, socket.writable, old(socket.writable), r);
    }

    /** OutgoingOnFinish, and again for a next response that has finished already. */
    method OutgoingOnFinish(res: OutgoingMessage, ghost r: Replay)
      requires Valid() && !ended && |dones| < |responses| && res == responses[|dones|]
      requires Finished in res.flags && res.output == [] && Tells(r) && |dones| == r.done && !r.ended
      modifies this, socket, responses
      ensures Valid() && Goes() && responses == old(responses) && |dones| > |old(dones)|
      ensures socket.handle ==> old(socket.handle)
      ensures (old(Recorded()) ==> Recorded()) && (old(Losses()) ==> Losses()) && SameMessages(null) && NewDones()
      ensures OwnerFinished(r) && Tells(r) && (old(MarkedBy(Faces(), dones, r)) ==> Behind(HandOn(r)))
      ensures old(Follows(r)) && socket.handle ==> Follows(HandOn(r))
      decreases |outgoings|
    {
      hide OutgoingMessage.Sound, OutgoingMessage.AsMessage, HeadOk, BodyOk, Kept, Sent, Frame, DonesOk;
      hide Valid, Recorded, Losses, Fine, LetGo, HandOn, TextedBy, MarkedBy, BehindBy, FollowsBy;
      assert Faces()[|dones|] == FaceOf(res);
      IsFinished(res, r.rs[r.done].text);
      HandOnFar(r);
      var next := YieldOn(res, r);
      assert res in responses;
      RestBy(Faces(), dones, ended, r);
      if next != null { OutgoingOnFinish(next, LetGo(r)); }
    }

    // ----- what the user does with a response -----

    /** A response has the socket exactly if it is its owner. */
    lemma Owner(res: OutgoingMessage)
      requires Valid() && res in responses
      ensures res.socket == null || res.socket == socket
      ensures res.socket == socket ==> socket.httpMessage == res
      ensures res.socket == socket && !ended ==> |dones| < |responses| && res == responses[|dones|]
      ensures res.socket == socket && ended ==> !socket.writable && !res.log.tried
      ensures res.Valid()
    {
      hide OutgoingMessage.Sound, HeadOk, BodyOk, Kept, Sent, Frame, DonesOk, Apart;
      var i :| 0 <= i < |responses| && responses[i] == res;
      if i < |dones| {
        assert Gone(responses[i]);
      } else if ended {
        assert Silent(responses[i]);
      } else if i > |dones| {
        assert Waiting(responses[i]);
      }
    }

    /** What every operation on a response does. */
    twostate predicate Applied(res: OutgoingMessage, op: Op, finishes: bool, d: Bytes)
      reads res, res.socket
    {
      && res.Valid() && Sends(res, d) && Puts(res, op)
      && (res.socket != null ==> res.socket.Valid() && res.socket.httpMessage == res)
      && (finishes ==> Finished in res.flags && res.output == [] && res.socket != null && res.log.tried)
      && (op.EndOp? && Finished !in old(res.flags) && res.Owning() ==> finishes)
      && (Finished in old(res.flags) ==> Finished in res.flags)
      && (Fine(res) <==> old(Fine(res)) && old(FitsNow(res, op)))
    }

    /** The fields of the head and of the trailer send nothing. */
    method PutHeader(res: OutgoingMessage, op: Op) returns (ghost d: Bytes)
      requires res.Valid() && op.HeaderOp?
      modifies res, res.socket
      ensures res.Valid() && Sends(res, d)
      ensures PutsBy(old(FaceOf(res)), FaceOf(res), op, old(Queues(res, op)))
      ensures !old(res.Owning()) ==> Forms(res.output) == old(Forms(res.output)) + old(Queues(res, op))
      ensures res.socket != null ==> res.socket.Valid() && res.socket.httpMessage == res
      ensures Fine(res) <==> old(Fine(res)) && old(FitsNow(res, op))
    {
      hide OutgoingMessage.Sound, HeadOk, BodyOk, Kept, Gained, Flows, Forms, PutUnder, PutByKey;
      d := "";
      res.Holds();
      ghost var before := res.Now();
      GainedNothing(before);
      FlowsNothing(Forms(res.output));
      var ok := res.SetHeader(op.name, op.value);
      res.Holds();
      GainedFacts(before, res.Now(), d, []);
    }

    method PutTrailers(res: OutgoingMessage, op: Op) returns (ghost d: Bytes)
      requires res.Valid() && op.TrailersOp?
      modifies res, res.socket
      ensures res.Valid() && Sends(res, d)
      ensures PutsBy(old(FaceOf(res)), FaceOf(res), op, old(Queues(res, op)))
      ensures !old(res.Owning()) ==> Forms(res.output) == old(Forms(res.output)) + old(Queues(res, op))
      ensures res.socket != null ==> res.socket.Valid() && res.socket.httpMessage == res
      ensures Fine(res) <==> old(Fine(res)) && old(FitsNow(res, op))
    {
      hide OutgoingMessage.Sound, HeadOk, BodyOk, Kept, Gained, Flows, Forms;
      d := "";
      res.Holds();
      ghost var before := res.Now();
      GainedNothing(before);
      FlowsNothing(Forms(res.output));
      res.AddTrailers(op.fields);
      res.Holds();
      GainedFacts(before, res.Now(), d, []);
    }

    method PutHead(res: OutgoingMessage, op: Op) returns (ghost d: Bytes)
      requires res.Valid() && op.HeadOp? && MayDo(res, op)
      modifies res, res.socket
      ensures res.Valid() && Sends(res, d)
      ensures PutsBy(old(FaceOf(res)), FaceOf(res), op, old(Queues(res, op)))
      ensures !old(res.Owning()) ==> Forms(res.output) == old(Forms(res.output)) + old(Queues(res, op))
      ensures res.socket != null ==> res.socket.Valid() && res.socket.httpMessage == res
      ensures Fine(res) <==> old(Fine(res)) && old(FitsNow(res, op))
    {
      hide OutgoingMessage.Sound, HeadOk, BodyOk, Kept, Gained, Flows, Forms, PlanFor, Values;
      res.Holds();
      ghost var before, added := res.Now(), Queues(res, op);
      d := res.WriteHead(op.code, op.reason, op.extra);
      res.Holds();
      GainedFacts(before, res.Now(), d, added);
    }

    /** `write`: what goes out and what is queued. */
    method SendWrite(res: OutgoingMessage, op: Op) returns (ghost d: Bytes)
      requires res.Valid() && op.WriteOp? && MayDo(res, op)
      modifies res, res.socket
      ensures res.Valid() && Sends(res, d)
      ensures !old(res.Owning()) ==> Forms(res.output) == old(Forms(res.output)) + old(Queues(res, op))
      ensures Fine(res) <==> old(Fine(res)) && old(FitsNow(res, op))
      ensures res.HeadKept() && res.Headed() && (Finished in res.flags <==> Finished in old(res.flags))
      ensures HeaderSent in res.flags <==> HeaderSent in old(res.flags) || old(res.WriteForms(op.chunk)) != []
      ensures res.chunks == if res.Takes(op.chunk) && Finished !in res.flags
                            then old(res.chunks) + [op.chunk.value.bytes] else old(res.chunks)
    {
      hide OutgoingMessage.Sound, HeadOk, BodyOk, Kept, Gained, Flows, Forms, PlanFor, Values;
      hide OutgoingMessage.WriteForms, OutgoingMessage.HeadForms, OutgoingMessage.Headed;
      res.Holds();
      ghost var before, added := res.Now(), Queues(res, op);
      var ret;
      ret, d := res.Write(op.chunk);
      GainedFacts(before, res.Now(), d, added);
    }

    method PutBody(res: OutgoingMessage, op: Op) returns (ghost d: Bytes)
      requires res.Valid() && op.WriteOp? && MayDo(res, op)
      modifies res, res.socket
      ensures res.Valid() && Sends(res, d)
      ensures PutsBy(old(FaceOf(res)), FaceOf(res), op, old(Queues(res, op)))
      ensures !old(res.Owning()) ==> Forms(res.output) == old(Forms(res.output)) + old(Queues(res, op))
      ensures res.socket != null ==> res.socket.Valid() && res.socket.httpMessage == res
      ensures Fine(res) <==> old(Fine(res)) && old(FitsNow(res, op))
    {
      hide OutgoingMessage.Sound, Forms, PlanFor, Values, Sends, Fine, FitsNow, OutgoingMessage.WriteForms;
      res.Holds();
      d := SendWrite(res, op);
      res.Holds();
    }

    /** `end`: what goes out and what is queued. */
    method SendEnd(res: OutgoingMessage, op: Op) returns (finishes: bool, ghost d: Bytes)
      requires res.Valid() && op.EndOp? && MayDo(res, op)
      modifies res, res.socket
      ensures res.Valid() && Sends(res, d)
      ensures !old(res.Owning()) ==> Forms(res.output) == old(Forms(res.output)) + old(Queues(res, op))
      ensures Fine(res) <==> old(Fine(res)) && old(FitsNow(res, op))
      ensures finishes ==> Finished in res.flags && res.output == [] && res.socket != null && res.log.tried
      ensures Finished in old(res.flags) ==> unchanged(res)
      ensures Finished !in old(res.flags) ==>
                && res.HeadKept() && res.Headed() && Finished in res.flags && HeaderSent in res.flags
                && res.chunks == (if res.Takes(op.data) then old(res.chunks) + [op.data.value.bytes]
                                  else old(res.chunks))
                && (res.Owning() ==> finishes)
    {
      hide OutgoingMessage.Sound, HeadOk, BodyOk, Kept, Gained, Flows, Forms, PlanFor, Values, EndsTwice, EndingTwice;
      hide OutgoingMessage.FinishForms, OutgoingMessage.WriteForms, OutgoingMessage.HeadForms;
      hide OutgoingMessage.HeadKept, OutgoingMessage.Headed, OutgoingMessage.Takes, OutgoingMessage.AsMessage;
      res.Holds();
      ghost var before, added := res.Now(), Queues(res, op);
      var ret;
      ret, finishes, d := res.End(op.data);
      GainedFacts(before, res.Now(), d, added);
    }

    method PutEnd(res: OutgoingMessage, op: Op) returns (finishes: bool, ghost d: Bytes)
      requires res.Valid() && op.EndOp? && MayDo(res, op)
      modifies res, res.socket
      ensures res.Valid() && Sends(res, d)
      ensures PutsBy(old(FaceOf(res)), FaceOf(res), op, old(Queues(res, op)))
      ensures !old(res.Owning()) ==> Forms(res.output) == old(Forms(res.output)) + old(Queues(res, op))
      ensures res.socket != null ==> res.socket.Valid() && res.socket.httpMessage == res
      ensures Fine(res) <==> old(Fine(res)) && old(FitsNow(res, op))
      ensures finishes ==> Finished in res.flags && res.output == [] && res.socket != null && res.log.tried
      ensures Finished !in old(res.flags) && res.Owning() ==> finishes
    {
      hide OutgoingMessage.Sound, Forms, PlanFor, Values, Sends, Fine, FitsNow, OutgoingMessage.FinishForms;
      res.Holds();
      res.EndSends(op.data);
      finishes, d := SendEnd(res, op);
      res.Holds();
    }

    /** One operation on a response itself. */
    method Apply(res: OutgoingMessage, op: Op) returns (finishes: bool, ghost d: Bytes)
      requires res.Valid() && MayDo(res, op)
      modifies res, res.socket
      ensures Applied(res, op, finishes, d)
    {
      hide OutgoingMessage.Valid, OutgoingMessage.Owning, Sends, HeadBy, FitsNow, Queues, Fine, Forms;
      finishes := false;
      match op {
        case HeadOp(_, _, _) => d := PutHead(res, op);
        case WriteOp(_) => d := PutBody(res, op);
        case EndOp(_) => finishes, d := PutEnd(res, op);
        case HeaderOp(_, _) => d := PutHeader(res, op);
        case TrailersOp(_) => d := PutTrailers(res, op);
      }
    }

    /** The same, and that a finished message stays. */
    method Carry(res: OutgoingMessage, op: Op) returns (finishes: bool, ghost d: Bytes)
      requires res.Valid() && MayDo(res, op)
      modifies res, res.socket
      ensures Applied(res, op, finishes, d) && Does(res, op)
    {
      hide OutgoingMessage.Sound, Sends, Fine, FitsNow, Queues, PlanFor, Merged, PutByKey, Forms;
      res.Holds();
      if res.header.Some? { res.HeadPlanned(); }
      finishes, d := Apply(res, op);
      if res.header.Some? { res.HeadPlanned(); }
    }

    /** What becomes of the message and its text: it is kept if and only if it was and the operation fits. */
    twostate predicate Outcome(res: OutgoingMessage, op: Op, t: Draft)
      reads res, res.socket
    {
      && Does(res, op)
      && (Fine(res) <==> old(Fine(res)) && old(FitsNow(res, op)))
      && (old(Texted(res, t)) ==> Texted(res, Next(t, op)))
      && (!old(res.Owning()) ==> Forms(res.output) == old(Forms(res.output)) + old(Queues(res, op)))
    }

    /** The same, with the response's text. */
    method Tell(res: OutgoingMessage, op: Op, ghost t: Draft) returns (finishes: bool, ghost d: Bytes)
      requires res.Valid() && MayDo(res, op)
      modifies res, res.socket
      ensures res.Valid() && Sends(res, d) && Outcome(res, op, t)
      ensures res.socket != null ==> res.socket.Valid() && res.socket.httpMessage == res
      ensures finishes ==> Finished in res.flags && res.output == [] && res.socket != null && res.log.tried
      ensures op.EndOp? && Finished !in old(res.flags) && res.Owning() ==> finishes
      ensures Finished in old(res.flags) ==> Finished in res.flags
    {
      hide OutgoingMessage.Sound, OutgoingMessage.AsMessage, OutgoingMessage.Valid, OutgoingMessage.Owning;
      hide Fine, FitsNow, Adds, Forms, Queues, MayDo, Sends, Does, FaceOf, PutsBy, TextedBy, Next;
      ghost var f, queued, told := FaceOf(res), Queues(res, op), Texted(res, t);
      if told { Told(res, t, op); }
      finishes, d := Carry(res, op);
      if told { TextMoves(f, FaceOf(res), op, queued, t); }
    }

    /** Whatever the order in which responses are written and ended, only the owner of the socket reaches
        the wire. */
    method Work(res: OutgoingMessage, op: Op, ghost t: Draft) returns (finishes: bool)
      requires Valid() && res in responses && MayDo(res, op)
      modifies res, socket
      ensures Valid() && Goes() && Outcome(res, op, t)
      ensures finishes ==> !ended && |dones| < |responses| && res == responses[|dones|]
                           && Finished in res.flags && res.output == []
      ensures old(res.socket) == null ==> socket.wire == old(socket.wire) && !finishes
      ensures (socket.handle ==> old(socket.handle)) && (res.log.lost && !old(res.log.lost) ==> !socket.handle)
      ensures !old(socket.handle) ==> res.log.sent == old(res.log.sent)
      ensures op.EndOp? && Finished !in old(res.flags) && res.Owning() ==> finishes
      ensures socket.handle ==> socket.writable == old(socket.writable) && res.Owning() == old(res.Owning())
    {
      hide OutgoingMessage.Sound, HeadOk, BodyOk, Kept, Sent, Frame, DonesOk, Apart, Outcome, MayDo;
      Owner(res);
      ghost var d;
      finishes, d := Tell(res, op, t);
      forall i | 0 <= i < |dones| ensures Gone(responses[i]) {
        assert old(Gone(responses[i]));
      }
      if ended {
        forall i | |dones| <= i < |responses| ensures Silent(responses[i]) {
          assert old(Silent(responses[i]));
        }
        assert AllSilent();
      } else {
        forall i | |dones| < i < |responses| ensures Waiting(responses[i]) {
          assert old(Waiting(responses[i]));
        }
        assert InOrder();
      }
      if finishes { Owner(res); }
    }

    /** The same, and what becomes of all responses: the operation is done on one, the others stay, and so
        does what has finished. The one is kept if and only if it was and the operation fits. */
    method Perform(ghost i: nat, res: OutgoingMessage, op: Op, ghost t: Draft) returns (finishes: bool)
      requires Valid() && i < |responses| && res == responses[i] && MayDo(res, op)
      modifies res, socket
      ensures Valid() && Goes()
      ensures Outcome(res, op, t) && SameMessages(res)
      ensures (old(Recorded()) ==> Recorded()) && (old(Losses()) ==> Losses())
      ensures finishes ==> !ended && |dones| < |responses| && res == responses[|dones|]
                           && Finished in res.flags && res.output == []
      ensures old(res.socket) == null ==> socket.wire == old(socket.wire) && !finishes
      ensures socket.handle ==>
                old(socket.handle) && socket.writable == old(socket.writable) && res.Owning() == old(res.Owning())
      ensures Faces() == old(Faces())[i := FaceOf(res)]
      ensures op.EndOp? && Finished !in old(res.flags) && res.Owning() ==> finishes
    {
      hide OutgoingMessage.Sound, OutgoingMessage.AsMessage, OutgoingMessage.Takes, OutgoingMessage.Owning;
      hide Texted, Next, Forms, FaceOf;
      hide HeadOk, BodyOk, Kept, Sent, Frame, DonesOk, InOrder, AllSilent, Goes, Fine, FitsNow, Queues;
      finishes := Work(res, op, t);
    }

    /** Where the connection follows the replay, that knows of each response that has not finished whether it
        owns the socket, what an operation queues, and whether it fits. */
    lemma Known(i: nat, res: OutgoingMessage, op: Op, r: Replay)
      requires Valid() && Losses() && socket.handle && Tells(r) && Follows(r)
      requires |dones| <= i < |responses| && res == responses[i]
      ensures res.Owning() == (i == r.done && !r.ended) && Queues(res, op) == Adds(r.rs[i].text, op)
      ensures FitsNow(res, op) <==> Fits(r.rs[i], i == r.done && !r.ended, op)
      ensures |dones| == r.done && ended == r.ended && (ended || socket.writable)
    {
      hide OutgoingMessage.Sound, HeadOk, BodyOk, Kept, Sent, Frame, DonesOk, Apart, Adds, Queues, Flows, Forms;
      hide Takes, TextedBy;
      assert Faces()[i] == FaceOf(res);
      assert Texted(res, r.rs[i].text);
      Seen(res);
      hide Texted, FaceOf;
      if ended {
        assert Silent(res);
        SilentKeeps(res);
      } else if i > |dones| {
        assert Waiting(res);
      }
      Told(res, r.rs[i].text, op);
      IsFinished(res, r.rs[i].text);
    }

    lemma SilentKeeps(m: OutgoingMessage)
      requires m.Valid() && !m.log.tried
      ensures !m.log.lost
    {
      hide HeadOk, BodyOk;
    }

    lemma Distinct(i: nat, j: nat)
      requires Valid() && i < |responses|
      ensures j < |responses| && responses[i] == responses[j] ==> i == j
    {
    }

    /** The owner of a writable socket has nothing that waits. */
    lemma OwnerEmpty()
      requires Valid() && !ended && socket.writable && |dones| < |responses|
      ensures responses[|dones|].output == []
    {
      hide OutgoingMessage.Sound, Sent, DonesOk, Apart;
    }

    /** What is known of a response before an operation. */
    lemma Foreseen(i: nat, res: OutgoingMessage, op: Op, r: Replay)
      requires Valid() && Losses() && Tells(r) && i < |responses| && res == responses[i]
      ensures i < |r.rs| && |Faces()| == |responses| && Faces()[i] == FaceOf(res) && Texted(res, r.rs[i].text)
      ensures (Finished in res.flags <==> r.rs[i].text.finished)
      ensures FaceOf(res).fine == Fine(res) && FaceOf(res).forms == Forms(res.output)
      ensures |dones| < |responses| && res == responses[|dones|] ==> i == |dones|
      ensures Follows(r) && socket.handle && |dones| <= i ==>
                && res.Owning() == (i == r.done && !r.ended) && Queues(res, op) == Adds(r.rs[i].text, op)
                && (FitsNow(res, op) <==> Fits(r.rs[i], i == r.done && !r.ended, op))
                && |dones| == r.done && ended == r.ended && (ended || socket.writable)
    {
      hide OutgoingMessage.Sound, HeadOk, BodyOk, Kept, Sent, Frame, DonesOk, InOrder, AllSilent, FitsNow, Queues;
      hide Losses, Adds, Fits, Flows, Forms, TextedBy, FollowsBy, Valid, FaceOf, Fine;
      assert Faces()[i] == FaceOf(res);
      IsFinished(res, r.rs[i].text);
      Seen(res);
      Distinct(i, |dones|);
      if Follows(r) && socket.handle && |dones| <= i { Known(i, res, op, r); }
    }

    /** An operation on the `i`-th response: its new text, verdict and queue are those of the replay. */
    method Draw(ghost i: nat, res: OutgoingMessage, op: Op, ghost r: Replay) returns (finishes: bool)
      requires Valid() && Losses() && Tells(r) && i < |responses| && res == responses[i] && MayDo(res, op)
      modifies res, socket
      ensures Valid() && Goes() && Outcome(res, op, r.rs[i].text) && SameMessages(res)
      ensures (old(Recorded()) ==> Recorded()) && Losses()
      ensures finishes ==> !ended && |dones| < |responses| && res == responses[|dones|]
                           && Finished in res.flags && res.output == []
      ensures old(res.socket) == null ==> socket.wire == old(socket.wire) && !finishes
      ensures socket.handle ==> old(socket.handle) && socket.writable == old(socket.writable)
      ensures Faces() == old(Faces())[i := FaceOf(res)] && TextedBy(FaceOf(res), Next(r.rs[i].text, op))
      ensures old(Follows(r)) && old(socket.handle) && |dones| <= i ==>
                FaceOf(res).fine == (old(FaceOf(res)).fine && Fits(r.rs[i], i == r.done && !r.ended, op))
      ensures old(Follows(r)) && socket.handle && |dones| <= i ==>
                FaceOf(res).forms == if i == r.done && !r.ended then []
                                     else old(FaceOf(res)).forms + Adds(r.rs[i].text, op)
      ensures old(Follows(r)) && socket.handle && i == |dones| && !ended && !r.rs[i].text.finished && op.EndOp? ==>
                finishes
      ensures finishes ==> i == |dones| && (r.rs[i].text.finished || op.EndOp?)
    {
      hide OutgoingMessage.Sound, OutgoingMessage.AsMessage, OutgoingMessage.Takes, OutgoingMessage.Owning;
      hide HeadOk, BodyOk, Kept, Sent, Frame, DonesOk, InOrder, AllSilent, Goes, Does, FitsNow, Queues;
      hide Losses, Recorded, Next, Adds, Fits, Flows, Forms, TextedBy, FollowsBy, Valid, SameMessages, MayDo;
      hide FaceOf, Fine, Texted, TellsBy, Faces;
      FormsNone();
      Foreseen(i, res, op, r);
      ghost var t := r.rs[i].text;
      finishes := Perform(i, res, op, t);
      Seen(res);
      Shows(res, Next(t, op));
      NextFinished(t, op);
      if !ended && socket.writable && |dones| < |responses| { OwnerEmpty(); }
    }

    /** The same, on the connection. */
    method Trace(ghost i: nat, res: OutgoingMessage, op: Op, ghost r: Replay) returns (finishes: bool)
      requires Valid() && Losses() && Tells(r) && i < |responses| && res == responses[i] && MayDo(res, op)
      modifies res, socket
      ensures Valid() && Goes() && Outcome(res, op, r.rs[i].text) && SameMessages(res)
      ensures (old(Recorded()) ==> Recorded()) && Losses()
      ensures finishes ==> !ended && |dones| < |responses| && res == responses[|dones|]
                           && Finished in res.flags && res.output == []
      ensures old(res.socket) == null ==> socket.wire == old(socket.wire) && !finishes
      ensures socket.handle ==> old(socket.handle)
      ensures Tells(WorkedOn(r, i, op))
      ensures old(Follows(r)) && old(socket.handle) && !OwnerFinished(r) ==>
                MarkedBy(Faces(), dones, WorkedOn(r, i, op)) && (finishes ==> OwnerFinished(WorkedOn(r, i, op)))
      ensures old(Follows(r)) && socket.handle && !OwnerFinished(r) ==>
                Follows(WorkedOn(r, i, op)) && (finishes <==> OwnerFinished(WorkedOn(r, i, op)))
    {
      hide OutgoingMessage.Sound, OutgoingMessage.AsMessage, Valid, Goes, Outcome, SameMessages, Losses, Recorded;
      hide Next, Adds, Fits, TextedBy, MarkedBy, WorkedOn, Forms, FaceOf, MayDo;
      ghost var fs := Faces();
      assert fs[i] == FaceOf(res);
      if !OwnerFinished(r) { OwnerWorked(r, i, op); }
      NextFinished(r.rs[i].text, op);
      finishes := Draw(i, res, op, r);
      WorkedBy(fs, FaceOf(res), i, op, dones, ended, socket.writable, r);
    }

    /** An operation on the `i`-th response, and the hand-over if it finishes the response. */
    method Operate(ghost i: nat, res: OutgoingMessage, op: Op, ghost r: Replay)
      requires Valid() && Losses() && Tells(r) && i < |responses| && res == responses[i] && MayDo(res, op)
      modifies this, socket, responses
      ensures Valid() && Goes() && responses == old(responses)
      ensures Does(res, op) && SameMessages(res) && NewDones()
      ensures Fine(res) <==> old(Fine(res)) && old(FitsNow(res, op))
      ensures (old(Recorded()) ==> Recorded()) && Losses()
      ensures old(res.socket) == null ==> socket.wire == old(socket.wire) && dones == old(dones)
      ensures socket.handle ==> old(socket.handle)
      ensures Tells(Acted(r, i, op))
      ensures old(Follows(r)) && old(socket.handle) && !OwnerFinished(r) ==> Behind(Acted(r, i, op))
      ensures old(Follows(r)) && socket.handle && !OwnerFinished(r) ==>
                Follows(Acted(r, i, op)) && !OwnerFinished(Acted(r, i, op))
    {
      hide Valid, Losses, Recorded, Goes, Does, SameMessages, NewDones, Fine, FitsNow, MayDo, Faces;
      hide TellsBy, FollowsBy, BehindBy, MarkedBy, WorkedOn, Acted, HandOn, OwnerFinished;
      FollowsFar(r);
      if !OwnerFinished(r) { OwnerWorked(r, i, op); }
      ActedIs(r, i, op);
      ghost var finishes := Treat(i, res, op, r);
      ActedBy(Faces(), dones, ended, r, i, op);
    }

    lemma FollowsFar(r: Replay)
      ensures (Follows(r) ==> |dones| == r.done && ended == r.ended) && (Tells(r) ==> |r.rs| == |responses|)
    {
      hide MarkedBy;
    }

    /** The same, with what the replay makes of the response and with its hand-over apart. */
    method Treat(ghost i: nat, res: OutgoingMessage, op: Op, ghost r: Replay) returns (ghost finishes: bool)
      requires Valid() && Losses() && Tells(r) && i < |responses| && res == responses[i] && MayDo(res, op)
      modifies this, socket, responses
      ensures Valid() && Goes() && responses == old(responses)
      ensures Does(res, op) && SameMessages(res) && NewDones()
      ensures Fine(res) <==> old(Fine(res)) && old(FitsNow(res, op))
      ensures (old(Recorded()) ==> Recorded()) && Losses()
      ensures old(res.socket) == null ==> socket.wire == old(socket.wire) && dones == old(dones)
      ensures socket.handle ==> old(socket.handle)
      ensures Tells(WorkedOn(r, i, op))
      ensures old(Follows(r)) && old(socket.handle) && !OwnerFinished(r) ==>
                if finishes then OwnerFinished(WorkedOn(r, i, op)) && Behind(HandOn(WorkedOn(r, i, op)))
                else MarkedBy(Faces(), dones, WorkedOn(r, i, op)) && dones == old(dones) && ended == old(ended)
      ensures old(Follows(r)) && socket.handle && !OwnerFinished(r) ==>
                && (finishes <==> OwnerFinished(WorkedOn(r, i, op)))
                && Follows(if finishes then HandOn(WorkedOn(r, i, op)) else WorkedOn(r, i, op))
    {
      hide OutgoingMessage.Sound, HeadOk, BodyOk, Kept, Sent, Frame, DonesOk, Apart, InOrder, AllSilent, Valid;
      hide Fine, FitsNow, Queues, Losses, Recorded, WorkedOn, Acted, HandOn, BehindBy, MarkedBy, TextedBy, Faces, Next;
      hide FollowsBy, OwnerFinished, OutgoingMessage.Owning, MayDo;
      FollowsFar(r);
      if !OwnerFinished(r) { OwnerWorked(r, i, op); }
      var ends := Trace(i, res, op, r);
      finishes := ends;
      assert res in responses;
      if ends {
        ghost var q := WorkedOn(r, i, op).(done := |dones|, ended := ended);
        OutgoingOnFinish(res, q);
      }
    }

    // ----- in step with the replay -----

    /** The responses are where the replay of the calls is, as long as there is a handle. */
    ghost predicate InStep(r: Replay)
      reads this, socket, responses
    {
      Tells(r) && ReplayOk(r) && (socket.handle ==> Follows(r) && !OwnerFinished(r))
    }

    /** A request, for which nothing has been done yet. */
    method Accept(head: bool, useChunked: bool, keepAlive: bool, phrase: string, date: string, ghost r: Replay)
      returns (out: OutgoingMessage)
      requires Valid() && Recorded() && Losses() && InStep(r)
      modifies this, socket
      ensures Valid() && Goes() && Recorded() && Losses() && fresh(out) && responses == old(responses) + [out]
      ensures var q := Step(r, Request(head, useChunked, keepAlive), phrase, date);
              InStep(q) && (old(socket.handle) ==> Behind(q))
    {
      hide Valid, Goes, Recorded, Losses, ReplayOk, TellsBy, TextedBy, FaceOf, FollowsBy, BehindBy, OwnerFinished;
      StepLater(r, Request(head, useChunked, keepAlive), phrase, date);
      out := OnRequest(head, useChunked, keepAlive, phrase, date);
      JoinedBy(old(Faces()), FaceOf(out), dones, ended, socket.writable, r,
               NewDraft(head, useChunked, keepAlive, phrase, date));
    }

    /** An operation on the `i`-th response. */
    method Act(ghost i: nat, res: OutgoingMessage, op: Op, ghost r: Replay)
      requires Valid() && Recorded() && Losses() && InStep(r)
      requires i < |responses| && res == responses[i] && MayDo(res, op)
      modifies this, socket, responses
      ensures Valid() && Goes() && Recorded() && Losses() && responses == old(responses)
      ensures InStep(Acted(r, i, op)) && (old(socket.handle) ==> Behind(Acted(r, i, op)))
    {
      hide Valid, Goes, Recorded, Losses, ReplayOk, TextedBy, FaceOf, MayDo;
      hide Does, SameMessages, NewDones, Fine, FitsNow, Acted, OwnerFinished, FollowsBy, BehindBy;
      ActedLater(r, i, op);
      Operate(i, res, op, r);
    }

    /** The socket fails or is destroyed. */
    method SocketLost()
      requires Valid()
      modifies socket`writable, socket`handle
      ensures Valid() && dones == old(dones) && socket.wire == old(socket.wire) && !socket.handle
      ensures (old(Recorded()) ==> Recorded()) && (old(Losses()) ==> Losses())
    {
      hide HeadOk, BodyOk, Kept, Sent, Frame, DonesOk;
      socket.Destroy();
    }

    /** What the owner has sent so far. */
    ghost function Partial(): Bytes
      requires Valid()
      reads this, socket, responses
    {
      if ended || |dones| == |responses| then "" else responses[|dones|].log.sent
    }

    /** What the owner has to send so far. */
    ghost function Due(): Bytes
      requires Valid()
      reads this, socket, responses
    {
      if ended || |dones| == |responses| then ""
      else
        var owner := responses[|dones|];
        Shape(owner.AsMessage(), HeaderSent in owner.flags, Finished in owner.flags)
    }

    /** While the socket has a handle, a finished response is on the wire as it should be if and only if it
        was kept, and the wire is what the responses sent, in the order of the requests. */
    lemma WireIs()
      requires Valid() && Losses() && socket.handle
      ensures socket.wire == Sent(dones) + Partial()
      ensures forall i | 0 <= i < |dones| :: dones[i].kept <==> dones[i].sent == Frame(dones[i].msg)
    {
      hide Sent, Frame, Apart, Kept, HeadOk, BodyOk;
      assert Sent(dones) + "" == Sent(dones);
    }

    /** Whatever happens to the socket: if all were kept, the wire is a beginning of the complete responses in
        the order of the requests, followed by what the owner has to send. */
    lemma WirePrefix()
      requires Valid() && Losses() && forall i | 0 <= i < |dones| :: dones[i].kept
      requires !ended && |dones| < |responses| ==> Fine(responses[|dones|])
      ensures socket.wire <= Frames(Messages(dones)) + Due()
    {
      hide Frame, Apart, Kept, HeadOk, BodyOk, Shape;
      var sent := Partial();
      if ended || |dones| == |responses| {
        assert Sent(dones) + "" == Sent(dones);
      } else {
        responses[|dones|].SentSoFar();
      }
      SentPrefix(dones, socket.handle, sent, Due());
    }

    /** The wire is the finished responses, in the order of the requests, and a beginning of the next one.
        If they were kept and delimited, a reader recovers every response that has finished, and what it has
        not read yet is what the owner has sent so far. */
    lemma WireReads()
      requires Valid() && Losses() && socket.handle
      requires forall i | 0 <= i < |dones| :: dones[i].kept && TextsOk(dones[i].msg) && Delimited(dones[i].msg)
      ensures var ms := Messages(dones);
              ReadAll(Heads(ms), socket.wire) == Some((Meanings(ms), Partial()))
    {
      hide Sent, Frame, TextsOk, Delimited, ReadAll, Apart;
      SentFrames(dones);
      WireIs();
      ReadAllBack(Messages(dones), Partial());
    }

    /** What the replay of the calls promises, as far as the connection has come. */
    lemma PromisedIs(r: Replay)
      requires Valid() && Recorded() && Tells(r) && ReplayOk(r) && |dones| <= r.done
      ensures Messages(dones) == Finals(r.(done := |dones|))
      ensures Frames(Messages(dones)) + Due() == Promised(r.(done := |dones|, ended := ended))
    {
      hide OutgoingMessage.Sound, OutgoingMessage.AsMessage, MessageOf, Sent, Apart, Frames, Shape, DraftOk, DonesOk;
      forall i | 0 <= i < |dones| ensures dones[i].msg == MessageOf(r.rs[i].text) {
        assert Gone(responses[i]) && Faces()[i] == FaceOf(responses[i]);
        TextFinished(r.rs[i].text);
        IsMessage(responses[i], r.rs[i].text);
      }
      if !ended && |dones| < |responses| {
        assert Faces()[|dones|] == FaceOf(responses[|dones|]);
        BegunIs(responses[|dones|], r.rs[|dones|].text);
      }
    }

    /** If all that was done fitted, the wire is a beginning of what the calls promise, and all of it while
        there is a handle. */
    lemma OnTheWire(r: Replay)
      requires Valid() && Losses() && Recorded() && Tells(r) && ReplayOk(r) && Behind(r) && AllFit(r)
      ensures socket.wire <= Promised(r)
      ensures socket.handle && Follows(r) ==> socket.wire == Promised(r)
    {
      hide DraftOk, Sent, Frame, Frames, DonesOk, Promised;
      assert |dones| < |responses| ==> Faces()[|dones|] == FaceOf(responses[|dones|]);
      WirePrefix();
      PromisedIs(r);
      if |dones| < r.done {
        LessPromised(r, |dones|);
        Longer(socket.wire, Promised(r.(done := |dones|, ended := false)), Promised(r));
      }
      if socket.handle && Follows(r) {
        WireIs();
        SentFrames(dones);
        if !ended && |dones| < |responses| { responses[|dones|].AllSentSoFar(); }
      }
    }

    /** The connection and the replay of the calls, after the same happenings. */
    ghost predicate Plays(r: Replay)
      reads this, socket, responses
    {
      && Valid() && Recorded() && Losses() && InStep(r)
      && (AllFit(r) ==> r.done <= |r.rs| && socket.wire <= Promised(r))
    }

    /** One happening; what is not possible is left out. */
    method Happen(h: Happening, phrase: string, date: string, all: seq<OutgoingMessage>, ghost r: Replay)
      returns (now: seq<OutgoingMessage>)
      requires Plays(r) && all == responses
      modifies this, socket, responses
      ensures Plays(Step(r, h, phrase, date)) && now == responses
      ensures old(socket.Sure()) && !h.Lost? ==> socket.Sure()
      ensures h.Lost? || !old(socket.handle) ==> !socket.handle
      ensures all <= now && forall n | |all| <= n < |now| :: fresh(now[n])
    {
      hide Valid, Recorded, Losses, ReplayOk, Promised, AllFit, TellsBy, FollowsBy, BehindBy, Acted, OwnerFinished;
      hide MayDo, Legal, FaceOf;
      ghost var q, handle, wire := Step(r, h, phrase, date), socket.handle, socket.wire;
      StepLater(r, h, phrase, date);
      now := all;
      if handle { FollowsBehind(r); }
      match h {
        case Request(head, useChunked, keepAlive) =>
          var out := Accept(head, useChunked, keepAlive, phrase, date, r);
          now := all + [out];
        case Do(i, op) =>
          AsLegal(i, op, r);
          if i < |all| && MayDo(all[i], op) { Act(i, all[i], op, r); }
        case Lost =>
          SocketLost();
      }
      if AllFit(q) {
        if handle { OnTheWire(q); } else { Longer(wire, Promised(r), Promised(q)); }
      }
    }

    lemma FollowsBehind(r: Replay)
      requires Follows(r) && r.done <= |r.rs|
      ensures Behind(r)
    {
    }

    /** The user may do what the replay says is legal. */
    lemma AsLegal(i: nat, op: Op, r: Replay)
      requires Valid() && Tells(r)
      ensures |responses| == |r.rs| && (i < |responses| ==> (MayDo(responses[i], op) <==> Legal(r.rs[i].text, op)))
    {
      hide OutgoingMessage.Sound, HeadOk, BodyOk, Kept, Sent, DonesOk, Frame, Apart, MayDo, Legal;
      if i < |responses| {
        Owner(responses[i]);
        assert Faces()[i] == FaceOf(responses[i]);
        Told(responses[i], r.rs[i].text, op);
      }
    }

    /** The same as `WireReads`, with what the callers see: each response that has finished was kept, with its
        length fields right. */
    lemma KeptAliveReads(r: Replay)
      requires Valid() && Losses() && Recorded() && socket.handle && Tells(r) && ReplayOk(r) && Follows(r)
      requires Kindly(r)
      ensures ReadAll(Heads(Finals(r)), socket.wire) == Some((Meanings(Finals(r)), Partial()))
    {
      hide Sent, Frame, TextsOk, Delimited, ReadAll, Apart, Kept, HeadOk, BodyOk, DonesOk, LossesOk, DraftOk;
      hide OutgoingMessage.Sound, OutgoingMessage.AsMessage, InOrder, AllSilent, LengthRight, MessageOf;
      PromisedIs(r);
      forall i | 0 <= i < |dones| ensures dones[i].msg == MessageOf(r.rs[i].text) && Delimited(dones[i].msg) {
        assert Gone(responses[i]) && Faces()[i] == FaceOf(responses[i]);
        assert dones[i].msg == Messages(dones)[i] == Finals(r)[i];
        Delimits(responses[i], r.rs[i].text);
      }
      WireReads();
    }

    lemma PlaysFirst(r: Replay)
      requires Valid() && Recorded() && Losses() && responses == [] && dones == [] && !ended && socket.wire == ""
      requires socket.writable && r == Replay([], 0, false)
      ensures Plays(r)
    {
      hide Valid, Recorded, Losses;
    }

    /** What the connection has come to, read off the replay. */
    lemma Played(r: Replay)
      requires Plays(r)
      ensures Valid() && Recorded() && Losses() && Tells(r) && |responses| == |r.rs| && r.done <= |r.rs|
      ensures AllFit(r) ==> socket.wire <= Promised(r)
      ensures socket.handle ==>
                && |dones| == r.done && ended == r.ended && Messages(dones) == Finals(r)
                && socket.wire == Sent(dones) + Partial()
                && (forall i | 0 <= i < r.done :: r.rs[i].fit <==> dones[i].sent == Frame(dones[i].msg))
                && (AllFit(r) ==> socket.wire == Promised(r))
      ensures socket.handle && Kindly(r) ==>
                ReadAll(Heads(Finals(r)), socket.wire) == Some((Meanings(Finals(r)), Partial()))
    {
      hide Valid, Recorded, Losses, Promised, AllFit, TextedBy, OwnerFinished, Sent, Frame, ReadAll, FaceOf;
      hide TextsOk, LengthRight, Finals, Messages, DraftOk, MessageOf;
      assert r.(done := r.done) == r;
      if socket.handle {
        WireIs();
        PromisedIs(r);
        if AllFit(r) { OnTheWire(r); }
        if Kindly(r) { KeptAliveReads(r); }
      }
    }
  }

  /** Right length fields are those that delimit the response. */
  lemma DelimitsIff(m: OutgoingMessage, t: Draft)
    requires m.Valid() && Texted(m, t) && t.made.Some?
    requires t.made.value.plan.last || LengthFieldsOk(t.made.value.user)
    ensures LengthRight(t) <==> Delimited(MessageOf(t))
  {
    hide OutgoingMessage.Sound, OutgoingMessage.AsMessage, MessageOf, Delimited, Values, LengthFieldsOk;
    IsMessage(m, t);
    m.HeadPlanned();
    if !t.made.value.plan.last { m.KeptAliveIsDelimited(); }
  }

  lemma Delimits(m: OutgoingMessage, t: Draft)
    requires m.Valid() && Texted(m, t) && LengthRight(t)
    ensures Delimited(MessageOf(t))
  {
    hide OutgoingMessage.Sound, OutgoingMessage.AsMessage, MessageOf, Delimited, Values, LengthFieldsOk;
    DelimitsIff(m, t);
  }

  /** What a response with this text has to send so far. */
  lemma BegunIs(m: OutgoingMessage, t: Draft)
    requires m.Valid() && Texted(m, t)
    ensures Shape(m.AsMessage(), HeaderSent in m.flags, Finished in m.flags) == Begun(t)
  {
    hide OutgoingMessage.Sound, OutgoingMessage.AsMessage, MessageOf;
    m.Holds();
    if t.made.Some? { IsMessage(m, t); }
  }

  /** A connection under any sequence of happenings; what is not possible is left out. `Replayed` says what the
      happenings come to, from the calls alone: the text of each response, whether all operations on it fitted,
      and how many have finished. The responses have these texts. While there is a handle, as many have
      finished; each of these is on the wire as it should be if and only if all operations on it fitted; and if
      they are delimited, a reader recovers them. If all fitted, the wire is what the calls promise, in the
      order of the requests, and a beginning of it even when the socket fails. */
  method Serve(failsAfter: Option<nat>, phrase: string, date: string, happenings: seq<Happening>)
    returns (c: Connection)
    ensures fresh(c) && c.Valid() && c.Recorded() && c.Losses()
    ensures var r := Replayed(happenings, phrase, date);
            && |c.responses| == |r.rs| == Requests(happenings) && r.done <= |r.rs| && c.Tells(r)
            && (AllFit(r) ==> c.socket.wire <= Promised(r))
    ensures (failsAfter.None? && Lost !in happenings ==> c.socket.handle) && (Lost in happenings ==> !c.socket.handle)
    ensures var r := Replayed(happenings, phrase, date);
            c.socket.handle ==>
              && |c.dones| == r.done && c.ended == r.ended && Messages(c.dones) == Finals(r)
              && c.socket.wire == Sent(c.dones) + c.Partial()
              && (forall i | 0 <= i < r.done :: r.rs[i].fit <==> c.dones[i].sent == Frame(c.dones[i].msg))
              && (AllFit(r) ==> c.socket.wire == Promised(r))
    ensures var r := Replayed(happenings, phrase, date);
            c.socket.handle && Kindly(r) ==>
              ReadAll(Heads(Finals(r)), c.socket.wire) == Some((Meanings(Finals(r)), c.Partial()))
  {
    hide *;
    var socket := new Socket(failsAfter);
    c := new Connection(socket);
    var all: seq<OutgoingMessage> := [];
    ghost var r := Replayed([], phrase, date);
    ReplayedFirst(phrase, date);
    c.PlaysFirst(r);
    assert happenings[..0] == [];
    for k := 0 to |happenings|
      invariant fresh(c) && fresh(c.socket) && c.Plays(r) && all == c.responses
      invariant r == Replayed(happenings[..k], phrase, date)
      invariant failsAfter.None? && Lost !in happenings[..k] ==> c.socket.Sure()
      invariant Lost in happenings[..k] ==> !c.socket.handle
      invariant forall n | 0 <= n < |all| :: fresh(all[n])
    {
      ReplayedNext(happenings, k, phrase, date);
      all := c.Happen(happenings[k], phrase, date, all, r);
      r := Step(r, happenings[k], phrase, date);
    }
    assert happenings[..|happenings|] == happenings;
    ReplayedOk(happenings, phrase, date);
    c.Played(r);
    c.socket.SureHandle();
  }

  function Messages(dones: seq<Done>): seq<Message> {
    seq(|dones|, i requires 0 <= i < |dones| => dones[i].msg)
  }

  /** Whole responses are their frames, one after the other. */
  lemma {:induction false} SentFrames(dones: seq<Done>)
    requires DonesOk(dones) && forall i | 0 <= i < |dones| :: dones[i].kept && !dones[i].lost
    ensures Sent(dones) == Frames(Messages(dones))
  {
    hide Frame;
    if dones != [] {
      var n := |dones| - 1;
      SentFrames(dones[..n]);
      FramesSnoc(Messages(dones[..n]), dones[n].msg);
      assert Messages(dones) == Messages(dones[..n]) + [dones[n].msg];
    }
  }

  /** Responses that were kept are on the wire up to the first refused write, and nothing is behind that. */
  lemma {:induction false} SentPrefix(dones: seq<Done>, handle: bool, sent: Bytes, due: Bytes)
    requires DonesOk(dones) && LossesOk(dones, handle, sent, false) && sent <= due
    requires forall i | 0 <= i < |dones| :: dones[i].kept
    ensures Sent(dones) + sent <= Frames(Messages(dones)) + due
  {
    hide Frame;
    if dones == [] {
      assert "" + sent == sent && "" + due == due && Messages(dones) == [];
    } else {
      var n := |dones| - 1;
      var front, x := dones[..n], dones[n];
      SentPrefix(front, handle, x.sent, Frame(x.msg));
      FramesSnoc(Messages(front), x.msg);
      assert Messages(dones) == Messages(front) + [x.msg];
      if forall i | 0 <= i < |dones| :: !dones[i].lost {
        SentFrames(dones);
        assert Sent(dones) <= Frames(Messages(dones));
      } else {
        assert Sent(dones) + "" == Sent(dones);
      }
    }
  }
}

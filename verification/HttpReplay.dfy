/** What the calls of a server's user come to, computed from the calls alone: the text of each response, the
    entries that wait in its queue, whether it will be on the wire as it should be, and how far the socket has
    been handed on. Nothing here looks at a message or a socket; HttpConnection shows that they follow. */
module HttpReplay {
  import opened HttpFields
  import opened HttpFraming
  import opened HttpOutgoing
  import opened Wrappers

  /** What the server's user does with a response. */
  datatype Op =
    | HeaderOp(name: string, value: string)
    | HeadOp(code: nat, reason: string, extra: seq<Field>)
    | WriteOp(chunk: Option<Item>)
    | TrailersOp(fields: seq<Field>)
    | EndOp(data: Option<Item>)

  /** What happens on a connection: a request comes in, the user works on the `i`-th response, or the socket
      is lost. */
  datatype Happening =
    | Request(head: bool, useChunked: bool, keepAlive: bool)
    | Do(i: nat, op: Op)
    | Lost

  // ----- the text of one response -----

  /** A head, once made. */
  datatype Made = Made(code: nat, reason: string, user: seq<Field>, plan: Plan, hasBody: bool)

  datatype Draft = Draft(
    head: bool, useChunked: bool, keepAlive: bool,      // what the request asked for
    phrase: string, date: string,
    preset: seq<Field>,                                 // the fields set before the head
    made: Option<Made>,
    chunks: seq<Bytes>, trailers: seq<Field>,
    sent: bool,                                         // HEADER_SENT
    finished: bool)

  function NewDraft(head: bool, useChunked: bool, keepAlive: bool, phrase: string, date: string): Draft {
    Draft(head, useChunked, keepAlive, phrase, date, [], None, [], [], false, false)
  }

  function Make(t: Draft, code: nat, reason: string, extra: seq<Field>): Made {
    var hasBody, user := !NoBodyFor(t.head, code), Merged(t.preset, extra);
    Made(code, reason, user, PlanFor(user, Some(t.date), hasBody, t.keepAlive, t.useChunked), hasBody)
  }

  /** The head behind an operation: write and end make one with the default status if there is none. */
  function Making(t: Draft, op: Op): Option<Made> {
    if t.made.Some? then t.made
    else
      match op
      case HeadOp(code, reason, extra) => Some(Make(t, code, reason, extra))
      case WriteOp(_) => Some(Make(t, 200, t.phrase, []))
      case EndOp(_) => Some(Make(t, 200, t.phrase, []))
      case _ => None
  }

  /** A head that is made under an Expect field goes out at once. */
  function First(t: Draft, op: Op): seq<Form> {
    var made := Making(t, op);
    if t.made.None? && made.Some? && Values(made.value.user, ExpectKey) != [] then [Form(Str, NoEnc)] else []
  }

  /** What an operation adds to the body. */
  function Given(op: Op): Option<Item> {
    match op
    case WriteOp(chunk) => chunk
    case EndOp(data) => data
    case _ => None
  }

  predicate Takes(t: Draft, op: Op) {
    Making(t, op).Some? && Making(t, op).value.hasBody && Given(op).Some? && Given(op).value.bytes != ""
  }

  /** `writeHead` once, and no buffer with an encoding. */
  predicate Legal(t: Draft, op: Op) {
    && (op.HeadOp? ==> t.made.None?)
    && (Given(op).Some? ==> ItemOk(Given(op).value))
  }

  /** The entries that the operation queues while the response does not own the socket. */
  function Adds(t: Draft, op: Op): seq<Form> {
    var first := First(t, op);
    match op
    case WriteOp(chunk) =>
      var m := Making(t, op).value;
      first + TakenForms(m.hasBody, t.sent || first != [], m.plan.chunked, chunk)
    case EndOp(data) =>
      var m := Making(t, op).value;
      if t.finished then [] else first + EndedForms(m.hasBody, t.sent || first != [], m.plan.chunked, data)
    case _ => first
  }

  function Next(t: Draft, op: Op): Draft {
    t.(
      preset := if op.HeaderOp? && t.made.None? then PutByKey(t.preset, Field(op.name, op.value)) else t.preset,
      made := Making(t, op),
      chunks := if !t.finished && Takes(t, op) then t.chunks + [Given(op).value.bytes] else t.chunks,
      trailers := if !t.finished && op.TrailersOp? then op.fields else t.trailers,
      sent := t.sent || Adds(t, op) != [],
      finished := t.finished || op.EndOp?)
  }

  function MessageOf(t: Draft): Message {
    match t.made
    case None => Message(t.head, 200, "", [], false, t.chunks, t.trailers)
    case Some(m) => Message(t.head, m.code, m.reason, m.plan.fields, m.plan.chunked, t.chunks, t.trailers)
  }

  /** The caller has set the length fields of the response right. */
  predicate LengthRight(t: Draft) {
    && t.made.Some?
    && var m := t.made.value;
       var cl := Values(m.user, ContentLengthKey);
       if m.plan.last then Delimited(MessageOf(t))
       else
         && LengthFieldsOk(m.user)
         && if !m.hasBody then !m.plan.chunked
            else m.plan.chunked || (cl != [] && Number(cl[0], 10) == Some(|Flat(t.chunks)|))
  }

  // ----- one response on its connection -----

  /** A response: its text, the entries that wait in its queue, and whether all that was done fitted. */
  datatype Sketch = Sketch(text: Draft, forms: seq<Form>, fit: bool)

  /** The operation keeps the response: it does not write after the end, and on a response that does not own
      the socket it queues nothing that is joined to what waits already. */
  predicate Fits(s: Sketch, owning: bool, op: Op) {
    && !(s.text.finished && op.WriteOp? && Takes(s.text, op))
    && (owning || Flows(s.forms, Adds(s.text, op)))
  }

  function Worked(s: Sketch, owning: bool, op: Op): Sketch {
    Sketch(Next(s.text, op), if owning then [] else s.forms + Adds(s.text, op), s.fit && Fits(s, owning, op))
  }

  // ----- the connection -----

  /** The responses in the order of the requests, how many of them have finished and let go of the socket, and
      whether one of these was the last. */
  datatype Replay = Replay(rs: seq<Sketch>, done: nat, ended: bool)

  predicate IsLast(t: Draft) { t.made.Some? && t.made.value.plan.last }

  /** The owner has finished and lets go of the socket: after LAST there is no other, and otherwise the next
      one gets it and sends what waits. */
  function LetGo(r: Replay): Replay
    requires r.done < |r.rs|
  {
    var n := r.done + 1;
    if IsLast(r.rs[r.done].text) then r.(done := n, ended := true)
    else if n == |r.rs| then r.(done := n)
    else r.(rs := r.rs[n := r.rs[n].(forms := [])], done := n)
  }

  predicate OwnerFinished(r: Replay) { !r.ended && r.done < |r.rs| && r.rs[r.done].text.finished }

  /** The socket is handed on through the responses that have finished already. */
  function HandOn(r: Replay): Replay
    requires OwnerFinished(r)
    decreases |r.rs| - r.done
  {
    var q := LetGo(r);
    if OwnerFinished(q) then HandOn(q) else q
  }

  /** ... until it comes to one that has not finished. */
  function Settled(r: Replay): Replay { if OwnerFinished(r) then HandOn(r) else r }

  /** An operation on the `i`-th response. One that has let go keeps its queue and its verdict. */
  function WorkedOn(r: Replay, i: nat, op: Op): Replay
    requires i < |r.rs|
  {
    var s := r.rs[i];
    r.(rs := r.rs[i := if i < r.done then s.(text := Next(s.text, op)) else Worked(s, i == r.done && !r.ended, op)])
  }

  /** The same, with the hand-over that it may start. */
  function Acted(r: Replay, i: nat, op: Op): Replay
    requires i < |r.rs|
  {
    if i < r.done then WorkedOn(r, i, op) else Settled(WorkedOn(r, i, op))
  }

  function Step(r: Replay, h: Happening, phrase: string, date: string): Replay {
    match h
    case Request(head, useChunked, keepAlive) =>
      r.(rs := r.rs + [Sketch(NewDraft(head, useChunked, keepAlive, phrase, date), [], true)])
    case Do(i, op) => if i < |r.rs| && Legal(r.rs[i].text, op) then Acted(r, i, op) else r
    case Lost => r
  }

  function Replayed(happenings: seq<Happening>, phrase: string, date: string): Replay {
    if happenings == [] then Replay([], 0, false)
    else
      var n := |happenings| - 1;
      Step(Replayed(happenings[..n], phrase, date), happenings[n], phrase, date)
  }

  lemma ReplayedFirst(phrase: string, date: string)
    ensures Replayed([], phrase, date) == Replay([], 0, false)
  {
  }

  lemma ReplayedNext(happenings: seq<Happening>, k: nat, phrase: string, date: string)
    requires k < |happenings|
    ensures Replayed(happenings[..k + 1], phrase, date)
            == Step(Replayed(happenings[..k], phrase, date), happenings[k], phrase, date)
    ensures Lost !in happenings[..k + 1] <==> Lost !in happenings[..k] && happenings[k] != Lost
  {
    hide Step;
    assert happenings[..k + 1][..k] == happenings[..k];
    assert happenings[..k + 1] == happenings[..k] + [happenings[k]];
  }

  /** Everything fitted, on the responses that have finished and on the owner. */
  predicate AllFit(r: Replay) { forall i | 0 <= i <= r.done && i < |r.rs| :: r.rs[i].fit }

  /** Each response that has finished was kept, with its length fields right. */
  predicate Kindly(r: Replay) {
    forall i | 0 <= i < r.done && i < |r.rs| ::
      r.rs[i].fit && TextsOk(MessageOf(r.rs[i].text)) && LengthRight(r.rs[i].text)
  }

  function Finals(r: Replay): seq<Message>
    requires r.done <= |r.rs|
  {
    seq(r.done, i requires 0 <= i < r.done => MessageOf(r.rs[i].text))
  }

  /** All that is to be on the wire: the responses that have finished, in the order of the requests, and what
      the owner has to send so far. */
  function Promised(r: Replay): Bytes
    requires r.done <= |r.rs|
  {
    Frames(Finals(r)) + if r.ended || r.done == |r.rs| then "" else Begun(r.rs[r.done].text)
  }

  function Begun(t: Draft): Bytes { Shape(MessageOf(t), t.sent, t.finished) }

  // ----- what every run keeps -----

  predicate DraftOk(t: Draft) {
    && (t.made.None? ==> !t.sent && t.chunks == [])
    && (t.finished ==> t.made.Some? && t.sent)
    && OneForEachKey(t.preset)
  }

  predicate ReplayOk(r: Replay) {
    && r.done <= |r.rs|
    && (forall i | 0 <= i < |r.rs| :: DraftOk(r.rs[i].text))
    && (forall i | 0 <= i < r.done :: r.rs[i].text.finished)
  }

  lemma NextOk(t: Draft, op: Op)
    requires DraftOk(t)
    ensures DraftOk(Next(t, op)) && (t.finished ==> Next(t, op) == t)
  {
    hide Make, BodyForms, OneForEachKey, PutByKey;
    PresetNext(t, op);
    if op.EndOp? && !t.finished {
      var m := Making(t, op).value;
      assert t.sent || Adds(t, op) != [];
    }
  }

  /** What an operation makes of the fields that were set: a field is put under its key as long as there is no
      head. */
  lemma PresetNext(t: Draft, op: Op)
    ensures var preset := Next(t, op).preset;
            if op.HeaderOp? && t.made.None? then PutUnder(t.preset, Field(op.name, op.value), preset)
            else preset == t.preset
    ensures OneForEachKey(t.preset) ==> OneForEachKey(Next(t, op).preset)
  {
    hide Making, Takes, Adds, OneForEachKey, PutUnder, PutByKey;
    if op.HeaderOp? && t.made.None? {
      var f := Field(op.name, op.value);
      PutByKeyIs(t.preset, f);
      if OneForEachKey(t.preset) { PutKeepsKeys(t.preset, f, PutByKey(t.preset, f)); }
    }
  }

  /** The head that an operation makes: the fields set before it, overlaid with those given to `writeHead`. */
  lemma HeadMade(t: Draft, op: Op)
    ensures t.made.Some? ==> Making(t, op) == t.made
    ensures t.made.None? ==> (Making(t, op).Some? <==> op.HeadOp? || op.WriteOp? || op.EndOp?)
    ensures t.made.None? && Making(t, op).Some? ==>
              var m := Making(t, op).value;
              if op.HeadOp? then m.code == op.code && m.reason == op.reason && HeadFields(t.preset, op.extra, m.user)
              else m.code == 200 && m.reason == t.phrase && m.user == t.preset
  {
    hide PlanFor, HeadFields, Merged;
    MergedIs(t.preset, if op.HeadOp? then op.extra else []);
  }

  lemma NextFinished(t: Draft, op: Op)
    ensures Next(t, op).finished <==> t.finished || op.EndOp?
  {
  }

  /** What is begun of a response is only added to. */
  lemma BegunGrows(t: Draft, op: Op)
    requires DraftOk(t)
    ensures Begun(t) <= Begun(Next(t, op))
  {
    hide Adds, Shape, Make;
    NextOk(t, op);
    var t' := Next(t, op);
    if !t.sent {
      NotSent(MessageOf(t), t.finished);
    } else if !t.finished {
      ShapeOn(MessageOf(t), MessageOf(t'), if Takes(t, op) then [Given(op).value.bytes] else [], t'.finished);
    }
  }

  lemma NotSent(m: Message, finished: bool)
    ensures Shape(m, false, finished) == ""
  {
  }

  lemma ShapeOn(m: Message, n: Message, more: seq<Bytes>, finished: bool)
    requires |more| <= 1 && n == m.(chunks := m.chunks + more, trailers := n.trailers)
    ensures Shape(m, true, false) <= Shape(n, true, finished)
  {
    var p := m.(chunks := n.chunks);
    if more == [] {
      assert n.chunks == m.chunks;
    } else {
      ShapeGrows(m, more[0]);
      assert more == [more[0]];
    }
    TrailersLater(p, n);
    ShapeEnds(n);
    hide Shape, Ending;
    assert Shape(m, true, false) <= Shape(n, true, false) <= Shape(n, true, false) + Ending(n.chunked, n.trailers);
  }

  lemma TrailersLater(p: Message, n: Message)
    requires n == p.(trailers := n.trailers)
    ensures Shape(p, true, false) == Shape(n, true, false)
  {
  }

  /** From one state to a later one the texts stay, and nothing promised is taken back. */
  ghost predicate Later(r: Replay, q: Replay) {
    && ReplayOk(q) && r.done <= |r.rs| <= |q.rs| && q.done <= |q.rs| && r.done <= q.done && Promised(r) <= Promised(q)
    && (AllFit(q) ==> AllFit(r))
  }

  lemma LaterTwice(p: Replay, q: Replay, r: Replay)
    requires Later(p, q) && Later(q, r)
    ensures Later(p, r)
  {
    hide Promised, AllFit, ReplayOk;
    Longer(Promised(p), Promised(q), Promised(r));
  }

  lemma Longer(a: Bytes, b: Bytes, c: Bytes)
    requires a <= b <= c
    ensures a <= c
  {
    assert c[..|b|] == b && b[..|a|] == a;
  }

  /** The responses behind a state have let go of nothing they promised. */
  lemma FinalsSnoc(r: Replay, n: nat)
    requires r.done + 1 == n <= |r.rs|
    ensures Finals(r.(done := n)) == Finals(r) + [MessageOf(r.rs[r.done].text)]
  {
    hide MessageOf;
  }

  /** The socket goes on from one finished response. */
  lemma GoneOn(r: Replay)
    requires OwnerFinished(r) && r.rs[r.done].text.sent
    ensures Promised(r) == Frames(Finals(r.(done := r.done + 1)))
  {
    hide MessageOf, Frame, Shape, Frames, Finals;
    FinalsSnoc(r, r.done + 1);
    var m := MessageOf(r.rs[r.done].text);
    FramesSnoc(Finals(r), m);
    FrameIs(m);
  }

  lemma {:induction false} FramesSnoc(ms: seq<Message>, m: Message)
    ensures Frames(ms + [m]) == Frames(ms) + Frame(m)
  {
    hide Frame;
    if ms == [] {
      assert ms + [m] == [m] && [m][1..] == [];
      assert Frame(m) + "" == Frame(m) && "" + Frame(m) == Frame(m);
    } else {
      assert (ms + [m])[0] == ms[0] && (ms + [m])[1..] == ms[1..] + [m];
      FramesSnoc(ms[1..], m);
      Regrouped(Frame(ms[0]), Frames(ms[1..]), Frame(m));
    }
  }

  /** States with the same texts and the same responses done promise the same. */
  lemma SamePromise(r: Replay, q: Replay)
    requires r.done == q.done <= |r.rs| == |q.rs| && r.ended == q.ended
    requires forall i | 0 <= i < |r.rs| && i <= r.done :: q.rs[i].text == r.rs[i].text
    ensures Promised(q) == Promised(r)
  {
    hide MessageOf, Frames, Begun;
    assert Finals(q) == Finals(r);
  }

  /** The texts and the verdicts stay. */
  ghost predicate SameTexts(r: Replay, q: Replay) {
    |q.rs| == |r.rs| && forall i | 0 <= i < |r.rs| :: q.rs[i].text == r.rs[i].text && q.rs[i].fit == r.rs[i].fit
  }

  lemma TextFinished(t: Draft)
    requires DraftOk(t) && t.finished
    ensures t.sent && t.made.Some?
  {
  }

  lemma LetGoLater(r: Replay)
    requires ReplayOk(r) && OwnerFinished(r)
    ensures Later(r, LetGo(r)) && SameTexts(r, LetGo(r)) && LetGo(r).done == r.done + 1
  {
    hide DraftOk, IsLast, Promised, Finals, Frames;
    var n := r.done + 1;
    var bare := r.(done := n);
    assert r.rs[r.done].text.sent by { TextFinished(r.rs[r.done].text); }
    GoneOn(r);
    PromiseMore(bare);
    PromiseMore(bare.(ended := true));
    EndedPromise(bare);
    if !IsLast(r.rs[r.done].text) && n < |r.rs| { SamePromise(bare, LetGo(r)); }
  }

  lemma {:induction false} HandOnLater(r: Replay)
    requires ReplayOk(r) && OwnerFinished(r)
    ensures Later(r, HandOn(r)) && SameTexts(r, HandOn(r))
    decreases |r.rs| - r.done
  {
    hide ReplayOk, Promised, AllFit, LetGo;
    var q := LetGo(r);
    LetGoLater(r);
    if OwnerFinished(q) {
      HandOnLater(q);
      LaterTwice(r, q, HandOn(q));
    }
  }

  /** It goes on behind the next response exactly if that has finished. */
  lemma {:induction false} HandOnFar(r: Replay)
    requires OwnerFinished(r)
    ensures var q, h := LetGo(r), HandOn(r);
            && SameTexts(r, h) && q.done <= h.done <= |r.rs| && SameTexts(r, q) && q.done == r.done + 1
            && (if OwnerFinished(q) then h == HandOn(q) && q.done < h.done else h == q)
    decreases |r.rs| - r.done
  {
    hide IsLast;
    if OwnerFinished(LetGo(r)) { HandOnFar(LetGo(r)); }
  }

  /** The hand-over comes to rest. */
  lemma {:induction false} HandOnRests(r: Replay)
    requires OwnerFinished(r)
    ensures !OwnerFinished(HandOn(r))
    decreases |r.rs| - r.done
  {
    if OwnerFinished(LetGo(r)) { HandOnRests(LetGo(r)); }
  }

  /** An operation makes the owner finish only if it is done on the owner. */
  lemma OwnerWorked(r: Replay, i: nat, op: Op)
    requires i < |r.rs| && !OwnerFinished(r)
    ensures var q := WorkedOn(r, i, op);
            && (OwnerFinished(q) <==> i == r.done && !r.ended && Next(r.rs[i].text, op).finished)
            && q.done == r.done && q.ended == r.ended && |q.rs| == |r.rs|
  {
    hide Next, Fits, Adds;
  }

  lemma ActedIs(r: Replay, i: nat, op: Op)
    requires i < |r.rs|
    ensures var q := WorkedOn(r, i, op);
            && (!OwnerFinished(q) ==> Acted(r, i, op) == q)
            && (OwnerFinished(q) && r.done <= i ==> Acted(r, i, op) == HandOn(q))
            && |Acted(r, i, op).rs| == |r.rs| && (!OwnerFinished(r) ==> !OwnerFinished(Acted(r, i, op)))
  {
    var q := WorkedOn(r, i, op);
    if !OwnerFinished(r) { OwnerWorked(r, i, op); }
    if OwnerFinished(q) { HandOnRests(q); HandOnFar(q); }
    hide HandOn, Next, Fits, Adds;
  }

  /** The hand-over keeps the texts and goes on from the owner. */
  lemma ActedFar(r: Replay, i: nat, op: Op)
    requires i < |r.rs|
    ensures var q, h := WorkedOn(r, i, op), Acted(r, i, op);
            && q.done == r.done && q.ended == r.ended && SameTexts(q, h)
            && (h == q || (!q.ended && q.done < h.done <= |h.rs|))
  {
    var q := WorkedOn(r, i, op);
    assert SameTexts(q, q);
    hide Worked, Next, LetGo, HandOn;
    if OwnerFinished(q) { HandOnFar(q); }
  }

  lemma PromiseMore(r: Replay)
    requires r.done <= |r.rs|
    ensures Frames(Finals(r)) <= Promised(r)
  {
    hide Frames, Finals, Begun;
  }

  lemma EndedPromise(r: Replay)
    requires r.done <= |r.rs|
    ensures Finals(r.(ended := true)) == Finals(r)
  {
    hide MessageOf;
  }

  lemma ActedLater(r: Replay, i: nat, op: Op)
    requires ReplayOk(r) && i < |r.rs|
    ensures Later(r, Acted(r, i, op)) && |Acted(r, i, op).rs| == |r.rs|
  {
    hide WorkedOn, DraftOk, Promised, HandOn, Flows;
    var q := WorkedOn(r, i, op);
    WorkedLater(r, i, op);
    if i >= r.done && OwnerFinished(q) {
      HandOnLater(q);
      LaterTwice(r, q, HandOn(q));
    }
  }

  lemma WorkedLater(r: Replay, i: nat, op: Op)
    requires ReplayOk(r) && i < |r.rs|
    ensures Later(r, WorkedOn(r, i, op)) && |WorkedOn(r, i, op).rs| == |r.rs|
  {
    hide Next, DraftOk, Flows, Frames, Begun;
    var q := WorkedOn(r, i, op);
    NextOk(r.rs[i].text, op);
    if i < r.done {
      assert q == r;
    } else {
      assert Finals(q) == Finals(r) by { hide MessageOf; }
      assert forall j | 0 <= j < |r.rs| :: q.rs[j].fit ==> r.rs[j].fit;
      if i == r.done && !r.ended {
        BegunGrows(r.rs[i].text, op);
        PrefixOn(Frames(Finals(r)), Begun(r.rs[i].text), Begun(q.rs[i].text));
      }
    }
  }

  /** A connection that has been handed on less far has less to send. */
  lemma LessPromised(r: Replay, n: nat)
    requires ReplayOk(r) && n < r.done
    ensures Promised(r.(done := n, ended := false)) <= Promised(r)
  {
    var q := r.(done := n, ended := false);
    hide MessageOf, Frame, Shape, Frames, DraftOk;
    TextFinished(r.rs[n].text);
    GoneOn(q);
    var all := Finals(r);
    assert Finals(q.(done := n + 1)) == all[..n + 1];
    FramesPrefix(all, n + 1);
    PromiseMore(r);
    Longer(Promised(q), Frames(all), Promised(r));
  }

  lemma {:induction false} FramesPrefix(ms: seq<Message>, n: nat)
    requires n <= |ms|
    ensures Frames(ms[..n]) <= Frames(ms)
  {
    hide Frame, Frames;
    if n < |ms| {
      var k := |ms| - 1;
      FramesPrefix(ms[..k], n);
      assert ms[..k][..n] == ms[..n] && ms[..k] + [ms[k]] == ms;
      FramesSnoc(ms[..k], ms[k]);
      Longer(Frames(ms[..n]), Frames(ms[..k]), Frames(ms[..k]) + Frame(ms[k]));
    } else {
      assert ms[..n] == ms;
    }
  }

  lemma PrefixOn(a: Bytes, b: Bytes, c: Bytes)
    requires b <= c
    ensures a + b <= a + c
  {
    assert c == b + c[|b|..];
    assert a + c == (a + b) + c[|b|..];
  }

  lemma StepLater(r: Replay, h: Happening, phrase: string, date: string)
    requires ReplayOk(r)
    ensures Later(r, Step(r, h, phrase, date))
    ensures |Step(r, h, phrase, date).rs| == |r.rs| + if h.Request? then 1 else 0
  {
    hide Acted, Legal, MessageOf, Begun, Frames;
    match h {
      case Do(i, op) => if i < |r.rs| { ActedLater(r, i, op); }
      case Request(_, _, _) =>
        var q := Step(r, h, phrase, date);
        assert Finals(q) == Finals(r);
        assert forall j | 0 <= j < |r.rs| :: q.rs[j] == r.rs[j];
        if r.done == |r.rs| {
          PromiseMore(q);
          assert Frames(Finals(r)) + "" == Frames(Finals(r));
        }
      case Lost =>
    }
  }

  /** Over every run the replay is in order, and each request has its response. */
  lemma {:induction false} ReplayedOk(happenings: seq<Happening>, phrase: string, date: string)
    ensures ReplayOk(Replayed(happenings, phrase, date))
    ensures |Replayed(happenings, phrase, date).rs| == Requests(happenings)
  {
    hide Step;
    if happenings != [] {
      var n := |happenings| - 1;
      ReplayedOk(happenings[..n], phrase, date);
      StepLater(Replayed(happenings[..n], phrase, date), happenings[n], phrase, date);
    }
  }

  function Requests(happenings: seq<Happening>): nat {
    if happenings == [] then 0
    else
      var n := |happenings| - 1;
      Requests(happenings[..n]) + if happenings[n].Request? then 1 else 0
  }
}

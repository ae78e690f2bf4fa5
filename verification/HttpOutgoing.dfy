/** A server response, include/libnode/detail/http/outgoing_message.h: the head and its flags, the
    framing of writes, the queue of output that waits for the socket, and the socket as far as the
    message uses it. */
module HttpOutgoing {
  import opened HttpFields
  import opened HttpFraming
  import opened Wrappers

  // ----- the output queue -----

  datatype Kind = Str | Buf

  datatype Enc = NoEnc | Utf8

  /** A string or a buffer with the encoding it was written with; a string stands as its UTF-8 bytes. */
  datatype Item = Item(kind: Kind, bytes: Bytes, enc: Enc)

  function Pending(output: seq<Item>): Bytes {
    if output == [] then "" else output[0].bytes + Pending(output[1..])
  }

  /** What `buffer` looks at. */
  datatype Form = Form(kind: Kind, enc: Enc)

  function FormOf(item: Item): Form { Form(item.kind, item.enc) }

  function Forms(output: seq<Item>): seq<Form> {
    seq(|output|, i requires 0 <= i < |output| => FormOf(output[i]))
  }

  /** The test of `buffer`: a string of the form `f` is joined to an entry of the form `last`. */
  predicate Joins(last: Form, f: Form) {
    f.kind.Str? && if f.enc != NoEnc then last.enc == f.enc else last.kind.Str?
  }

  /** Behind entries of the forms `before`, entries of the forms `more` can be queued and none is joined to
      the one before it. */
  predicate Flows(before: seq<Form>, more: seq<Form>)
    decreases |more|
  {
    more == []
    || ((before == [] || !Joins(before[|before| - 1], more[0])) && Flows(before + [more[0]], more[1..]))
  }

  lemma {:induction false} FlowsConcat(before: seq<Form>, a: seq<Form>, b: seq<Form>)
    ensures Flows(before, a + b) <==> Flows(before, a) && Flows(before + a, b)
    decreases |a|
  {
    if a == [] {
      assert a + b == b && before + a == before;
    } else {
      assert (a + b)[1..] == a[1..] + b && before + [a[0]] + a[1..] == before + a;
      FlowsConcat(before + [a[0]], a[1..], b);
    }
  }

  lemma FlowsOne(before: seq<Form>, f: Form)
    ensures Flows(before, [f]) <==> before == [] || !Joins(before[|before| - 1], f)
  {
    assert [f][1..] == [];
  }

  /** `buffer` joins the string to the last entry of the queue... */
  predicate Merges(output: seq<Item>, item: Item) {
    output != [] && Joins(FormOf(output[|output| - 1]), FormOf(item))
  }

  /** ... and puts it into the queue as well. */
  function Buffered(output: seq<Item>, item: Item): seq<Item> {
    if Merges(output, item) then
      var last := output[|output| - 1];
      output[|output| - 1 := last.(bytes := last.bytes + item.bytes)] + [item]
    else output + [item]
  }

  lemma {:induction false} PendingConcat(a: seq<Item>, b: seq<Item>)
    ensures Pending(a + b) == Pending(a) + Pending(b)
  {
    if a == [] {
      assert a + b == b;
    } else {
      assert (a + b)[1..] == a[1..] + b;
      PendingConcat(a[1..], b);
    }
  }

  lemma PendingOne(item: Item)
    ensures Pending([item]) == item.bytes
  {
    assert Pending([item]) == item.bytes + "";
  }

  lemma PendingSnoc(output: seq<Item>, item: Item)
    ensures Pending(output + [item]) == Pending(output) + item.bytes
  {
    PendingConcat(output, [item]);
    PendingOne(item);
  }

  /** What a buffered string adds to the bytes that will go out: itself, once if it is not merged and
      twice if it is. So the queue is faithful if and only if nothing is merged. */
  lemma BufferedAdds(output: seq<Item>, item: Item)
    requires item.bytes != ""
    ensures Pending(Buffered(output, item))
            == Pending(output) + item.bytes + if Merges(output, item) then item.bytes else ""
    ensures Pending(Buffered(output, item)) == Pending(output) + item.bytes <==> !Merges(output, item)
  {
    if Merges(output, item) {
      var n := |output| - 1;
      var front, last := output[..n], output[n];
      var longer := last.(bytes := last.bytes + item.bytes);
      assert output == front + [last] && output[n := longer] == front + [longer];
      PendingSnoc(front, last);
      PendingSnoc(front, longer);
      PendingSnoc(front + [longer], item);
    } else {
      PendingSnoc(output, item);
    }
  }

  /** Joined or not, an entry of the item's form is queued. */
  lemma BufferedForms(output: seq<Item>, item: Item)
    ensures Forms(Buffered(output, item)) == Forms(output) + [FormOf(item)]
    ensures Flows(Forms(output), [FormOf(item)]) <==> !Merges(output, item)
  {
    FlowsOne(Forms(output), FormOf(item));
  }

  /** The entries that one `send` queues: the header goes with the first string, or before the first buffer. */
  function SendForms(headerSent: bool, item: Item): seq<Form> {
    if headerSent then if item.bytes == "" then [] else [FormOf(item)]
    else if item.kind.Str? then [FormOf(item)] else [Form(Str, Utf8), FormOf(item)]
  }

  /** The entries that one write of the body queues: in chunks, a string in one piece and a buffer in three. */
  function BodyForms(headerSent: bool, chunked: bool, item: Item): (fs: seq<Form>)
    ensures item.bytes != "" ==> fs != []
  {
    if !chunked then SendForms(headerSent, item)
    else if item.kind.Str? then [FormOf(item)]
    else [Form(Str, NoEnc), FormOf(item), Form(Str, NoEnc)]
  }

  /** The entries that the ending queues: the last chunk, or a header that has not gone out. */
  function EndForms(headerSent: bool, chunked: bool): seq<Form> {
    if chunked || !headerSent then [Form(Str, NoEnc)] else []
  }

  /** The entries that a write queues behind the head. */
  function TakenForms(hasBody: bool, headerSent: bool, chunked: bool, chunk: Option<Item>): seq<Form> {
    if hasBody && chunk.Some? && chunk.value.bytes != "" then BodyForms(headerSent, chunked, chunk.value) else []
  }

  /** The entries that an end queues behind the head. */
  function EndedForms(hasBody: bool, headerSent: bool, chunked: bool, data: Option<Item>): seq<Form> {
    var body := TakenForms(hasBody, headerSent, chunked, data);
    body + EndForms(headerSent || body != [], chunked)
  }

  lemma NoBodyNoForms(hasBody: bool, headerSent: bool, chunked: bool, data: Option<Item>)
    ensures var given := if hasBody then data else None;
            && EndedForms(hasBody, headerSent, chunked, given) == EndedForms(hasBody, headerSent, chunked, data)
            && TakenForms(hasBody, headerSent, chunked, given) == TakenForms(hasBody, headerSent, chunked, data)
  {
  }

  // ----- the fields of the head -----

  predicate NoBodyFor(head: bool, code: nat) { head || code == 204 || code == 304 || 100 <= code < 200 }

  /** What `storeHeader` makes of the caller's fields. */
  datatype Plan = Plan(fields: seq<Field>, chunked: bool, last: bool)

  function PlanFor(user: seq<Field>, date: Option<string>, hasBody: bool, keepAlive: bool, useChunked: bool): Plan {
    var conn, te, cl := Values(user, ConnectionKey), Values(user, TransferEncodingKey), Values(user, ContentLengthKey);
    var free := te == [] && cl == [];
    var announce := keepAlive && (cl != [] || useChunked);
    Plan(
      user
      + (if date.Some? && Values(user, DateKey) == [] then [Field("Date", date.value)] else [])
      + (if conn == [] then [Field("Connection", if announce then "keep-alive" else "close")] else [])
      + (if free && hasBody && useChunked then [Field("Transfer-Encoding", "chunked")] else []),
      if free then hasBody && useChunked else "chunked" in te,
      "close" in conn || (conn == [] && !announce) || (free && hasBody && !useChunked))
  }

  lemma {:induction false} ValuesConcat(a: seq<Field>, b: seq<Field>, key: Key)
    ensures Values(a + b, key) == Values(a, key) + Values(b, key)
  {
    if a == [] {
      assert a + b == b;
    } else {
      assert (a + b)[1..] == a[1..] + b;
      ValuesConcat(a[1..], b, key);
    }
  }

  lemma {:induction false} FieldLinesConcat(a: seq<Field>, b: seq<Field>)
    ensures FieldLines(a + b) == FieldLines(a) + FieldLines(b)
  {
    if a == [] {
      assert a + b == b;
    } else {
      assert (a + b)[1..] == a[1..] + b;
      FieldLinesConcat(a[1..], b);
    }
  }

  lemma ValuesOne(f: Field, key: Key)
    ensures Values([f], key) == if KeyOf(f.name) == key then [f.value] else []
  {
    assert [f][1..] == [];
  }

  /** The fields that are added do not change how the reader finds the length, except by the field that
      announces chunks. */
  lemma PlanValues(user: seq<Field>, date: Option<string>, hasBody: bool, keepAlive: bool, useChunked: bool)
    ensures var p := PlanFor(user, date, hasBody, keepAlive, useChunked);
            var te, cl := Values(user, TransferEncodingKey), Values(user, ContentLengthKey);
            && Values(p.fields, ContentLengthKey) == cl
            && Values(p.fields, TransferEncodingKey)
               == if te == [] && cl == [] && hasBody && useChunked then ["chunked"] else te
  {
    var p := PlanFor(user, date, hasBody, keepAlive, useChunked);
    KeyNames("Date");
    var te, cl := Values(user, TransferEncodingKey), Values(user, ContentLengthKey);
    var d := if date.Some? && Values(user, DateKey) == [] then [Field("Date", date.value)] else [];
    var rest := p.fields[|user| + |d|..];
    var t := if te == [] && cl == [] && hasBody && useChunked then [Field("Transfer-Encoding", "chunked")] else [];
    var c := p.fields[|user| + |d|..|p.fields| - |t|];
    assert p.fields == user + d + c + t;
    assert |d| <= 1 && |c| <= 1;
    hide Values, KeyOf;
    AddedValues(user, d, c, t, ContentLengthKey);
    AddedValues(user, d, c, t, TransferEncodingKey);
    if t != [] { ValuesOne(t[0], ContentLengthKey); ValuesOne(t[0], TransferEncodingKey); }
    ValuesNone();
  }

  lemma ValuesNone()
    ensures forall key :: Values([], key) == []
  {
  }

  /** Fields of other names do not matter. */
  lemma AddedValues(user: seq<Field>, d: seq<Field>, c: seq<Field>, t: seq<Field>, key: Key)
    requires |d| <= 1 && |c| <= 1
    requires (d != [] ==> KeyOf(d[0].name) != key) && (c != [] ==> KeyOf(c[0].name) != key)
    ensures Values(user + d + c + t, key) == Values(user, key) + Values(t, key)
  {
    hide Values, KeyOf;
    ValuesConcat(user + d + c, t, key);
    ValuesConcat(user + d, c, key);
    ValuesConcat(user, d, key);
    ValuesNone();
    if d != [] { ValuesOne(d[0], key); assert d == [d[0]]; }
    if c != [] { ValuesOne(c[0], key); assert c == [c[0]]; }
  }

  /** A Transfer-Encoding or Content-Length that the caller sets is one the reader understands. */
  predicate LengthFieldsOk(user: seq<Field>) {
    var te, cl := Values(user, TransferEncodingKey), Values(user, ContentLengthKey);
    && (forall i | 0 <= i < |te| :: te[i] == "chunked")
    && (cl != [] ==> |cl| == 1 && Number(cl[0], 10).Some?)
  }

  /** The reader finds chunks exactly when the message is sent in chunks; and a connection that is kept
      alive carries only bodies whose length the reader finds. */
  lemma PlanIsDelimited(user: seq<Field>, date: Option<string>, head: bool, code: nat, keepAlive: bool,
                        useChunked: bool)
    requires LengthFieldsOk(user)
    ensures var hasBody := !NoBodyFor(head, code);
            var p := PlanFor(user, date, hasBody, keepAlive, useChunked);
            var length := BodyLength(head, code, p.fields);
            && (length == NoBody <==> !hasBody)
            && (hasBody ==> (length == InChunks <==> p.chunked))
            && (!p.last ==> length != UntilClose)
            && (length.Exactly? ==> Values(user, ContentLengthKey) != []
                                    && Number(Values(user, ContentLengthKey)[0], 10) == Some(length.n))
  {
    PlanValues(user, date, !NoBodyFor(head, code), keepAlive, useChunked);
    var te := Values(user, TransferEncodingKey);
    assert Lower("chunked") == "chunked";
    assert te != [] ==> te[|te| - 1] == "chunked" && te[0] == "chunked" && "chunked" in te;
  }

  // ----- the flag word -----

  datatype Flag =
    | Last | ShouldKeepAlive | ChunkedEncoding | UseChunkedByDefault | SendDate | HasBody | Finished | HeaderSent
    | SentConnection | SentContentLength | SentTransferEncoding | SentDate | SentExpect

  type Flags = set<Flag>

  const SENT_FLAGS: Flags := {SentConnection, SentContentLength, SentTransferEncoding, SentDate, SentExpect}

  /** The flags that `storeHeader` only reads. */
  predicate OthersSame(g0: Flags, g: Flags) {
    && (UseChunkedByDefault in g <==> UseChunkedByDefault in g0) && (SendDate in g <==> SendDate in g0)
    && (HasBody in g <==> HasBody in g0) && (Finished in g <==> Finished in g0)
  }

  /** The flags that a field sets. */
  function FlagsOf(f: Field): Flags {
    match KeyOf(f.name)
    case ConnectionKey => {SentConnection, if f.value == "close" then Last else ShouldKeepAlive}
    case TransferEncodingKey =>
      if f.value == "chunked" then {SentTransferEncoding, ChunkedEncoding} else {SentTransferEncoding}
    case ContentLengthKey => {SentContentLength}
    case DateKey => {SentDate}
    case ExpectKey => {SentExpect}
    case OtherKey => {}
  }

  /** What the flags say after the fields `fs` have been stored, with `g0` before. */
  ghost predicate Noted(fs: seq<Field>, g0: Flags, g: Flags) {
    && (SentConnection in g <==> Values(fs, ConnectionKey) != [])
    && (Last in g <==> "close" in Values(fs, ConnectionKey))
    && (SentConnection !in g ==> (ShouldKeepAlive in g <==> ShouldKeepAlive in g0))
    && (SentTransferEncoding in g <==> Values(fs, TransferEncodingKey) != [])
    && (ChunkedEncoding in g <==> "chunked" in Values(fs, TransferEncodingKey))
    && (SentContentLength in g <==> Values(fs, ContentLengthKey) != [])
    && (SentDate in g <==> Values(fs, DateKey) != [])
    && (SentExpect in g <==> Values(fs, ExpectKey) != [])
    && OthersSame(g0, g)
  }

  lemma NotedNothing(g: Flags)
    requires Last !in g && ChunkedEncoding !in g
    ensures Noted([], g, g - SENT_FLAGS)
  {
  }

  lemma FlagsOfField(f: Field, g: Flags)
    ensures var k, g' := KeyOf(f.name), g + FlagsOf(f);
            && (SentConnection in g' <==> SentConnection in g || k == ConnectionKey)
            && (Last in g' <==> Last in g || (k == ConnectionKey && f.value == "close"))
            && (k != ConnectionKey ==> (ShouldKeepAlive in g' <==> ShouldKeepAlive in g))
            && (SentTransferEncoding in g' <==> SentTransferEncoding in g || k == TransferEncodingKey)
            && (ChunkedEncoding in g' <==> ChunkedEncoding in g || (k == TransferEncodingKey && f.value == "chunked"))
            && (SentContentLength in g' <==> SentContentLength in g || k == ContentLengthKey)
            && (SentDate in g' <==> SentDate in g || k == DateKey)
            && (SentExpect in g' <==> SentExpect in g || k == ExpectKey)
            && OthersSame(g, g')
  {
    hide KeyOf;
  }

  lemma NotedSnoc(fs: seq<Field>, f: Field, g0: Flags, g: Flags)
    requires Noted(fs, g0, g)
    ensures Noted(fs + [f], g0, g + FlagsOf(f))
  {
    hide Values, KeyOf, FlagsOf;
    FlagsOfField(f, g);
    ValuesSnoc(fs, f, ConnectionKey);
    ValuesSnoc(fs, f, TransferEncodingKey);
    ValuesSnoc(fs, f, ContentLengthKey);
    ValuesSnoc(fs, f, DateKey);
    ValuesSnoc(fs, f, ExpectKey);
  }

  lemma ValuesSnoc(fs: seq<Field>, f: Field, key: Key)
    ensures Values(fs + [f], key) == if KeyOf(f.name) == key then Values(fs, key) + [f.value] else Values(fs, key)
  {
    ValuesConcat(fs, [f], key);
    ValuesOne(f, key);
  }

  // ----- the socket, as far as it is used here -----

  class Socket {
    var writable: bool
    var handle: bool                    // there is a handle
    var failsAfter: Option<nat>         // after so many writes the handle refuses one
    var httpMessage: OutgoingMessage?
    ghost var wire: Bytes               // everything the handle took

    ghost predicate Valid()
      reads this
    {
      writable ==> handle
    }

    /** The handle refuses no write. */
    ghost predicate Sure()
      reads `handle, `failsAfter
    {
      handle && failsAfter.None?
    }

    lemma SureHandle()
      ensures Sure() ==> handle
    {
    }

    constructor (failsAfter: Option<nat>)
      ensures Valid() && writable && httpMessage == null && wire == "" && this.failsAfter == failsAfter
      ensures failsAfter.None? ==> Sure()
    {
      writable, handle, this.failsAfter, httpMessage, wire := true, true, failsAfter, null, "";
    }

    method Write(data: Bytes) returns (ok: bool)
      requires Valid()
      modifies `writable, `handle, `failsAfter, `wire
      ensures Valid() && ok == (old(handle) && old(failsAfter) != Some(0))
      ensures wire == old(wire) + if ok then data else ""
      ensures writable == (old(writable) && ok) && handle == ok
      ensures ok ==> failsAfter == if old(failsAfter).None? then None else Some(old(failsAfter).value - 1)
    {
      if !handle || failsAfter == Some(0) {
        Destroy();
        return false;
      }
      wire := wire + data;
      if failsAfter.Some? { failsAfter := Some(failsAfter.value - 1); }
      ok := true;
    }

    method Destroy()
      modifies `writable, `handle
      ensures !writable && !handle
    {
      writable, handle := false, false;
    }

    /** The writes already made go out; nothing else does. */
    method DestroySoon()
      modifies `writable
      ensures !writable
    {
      writable := false;
    }
  }

  // ----- the message -----

  /** Bookkeeping of the model: what was sent through `send`, what the socket took of it, and whether a
      queue entry was merged, a write was refused, or the socket was written to at all. */
  datatype Log = Log(made: Bytes, sent: Bytes, clean: bool, lost: bool, tried: bool)

  /** A message and its socket, seen from outside. */
  datatype View = View(owning: bool, handle: bool, sure: bool, wire: Bytes, log: Log, forms: seq<Form>)

  /** From one view to the next the socket took `d`. Only the owner of a writable socket sends, and it loses
      nothing unless the socket fails; any other message queues entries of the forms `added`, and is kept if
      and only if none of them joins the one before it. */
  ghost predicate Gained(a: View, b: View, d: Bytes, added: seq<Form>) {
    && b.log.sent == a.log.sent + d && b.wire == a.wire + d
    && (b.owning ==> a.owning && b.log.lost == a.log.lost)
    && (a.owning && !b.owning ==> b.log.lost)
    && (a.owning ==> b.log.clean == a.log.clean)
    && (!a.owning ==>
          && d == "" && b.log.lost == a.log.lost && b.log.tried == a.log.tried && b.forms == a.forms + added
          && (b.log.clean <==> a.log.clean && (a.log.lost || Flows(a.forms, added))))
    && (b.handle ==> a.handle && b.log.lost == a.log.lost && b.owning == a.owning)
    && (a.sure ==> b.sure)
  }

  /** What the owner of a writable socket has sent. */
  lemma OwnerGained(a: View, b: View, d: Bytes, added: seq<Form>)
    requires a.owning && b.log.sent == a.log.sent + d && b.wire == a.wire + d && b.log.clean == a.log.clean
    requires (b.owning ==> b.log.lost == a.log.lost) && (!b.owning ==> b.log.lost) && (a.sure ==> b.sure)
    requires b.handle ==> a.handle && b.log.lost == a.log.lost && b.owning == a.owning
    ensures Gained(a, b, d, added)
  {
  }

  lemma GainedNothing(a: View)
    ensures Gained(a, a, "", [])
  {
    assert a.log.sent + "" == a.log.sent && a.wire + "" == a.wire && a.forms + [] == a.forms;
  }

  lemma GainedFacts(a: View, b: View, d: Bytes, added: seq<Form>)
    requires Gained(a, b, d, added)
    ensures b.log.sent == a.log.sent + d && b.wire == a.wire + d && (b.owning ==> a.owning)
    ensures b.log.clean <==> a.log.clean && (a.owning || a.log.lost || Flows(a.forms, added))
    ensures !a.owning ==> d == "" && b.log.lost == a.log.lost && b.log.tried == a.log.tried
    ensures !a.owning ==> b.forms == a.forms + added
    ensures b.handle ==> a.handle && b.log.lost == a.log.lost && b.owning == a.owning
    ensures a.sure ==> b.sure
  {
  }

  lemma GainedTwice(a: View, b: View, c: View, d: Bytes, e: Bytes, x: seq<Form>, y: seq<Form>)
    requires Gained(a, b, d, x) && Gained(b, c, e, y)
    ensures Gained(a, c, d + e, x + y)
  {
    assert a.log.sent + (d + e) == a.log.sent + d + e && a.wire + (d + e) == a.wire + d + e;
    assert a.forms + (x + y) == a.forms + x + y;
    FlowsConcat(a.forms, x, y);
  }

  /** What the head was made of. */
  datatype Top = Top(user: seq<Field>, plan: Plan, keptAlive: bool, reason: string)

  /** Without a refused write, the bytes on the wire and the bytes in the queue are the bytes that were sent
      if nothing was merged, and more if something was. A refused write is the last: what was sent before it
      is the beginning. Before the socket comes, nothing was merged exactly if no entry of the queue joins
      the one before it. */
  ghost predicate Kept(log: Log, output: seq<Item>) {
    && ItemsOk(output)
    && (log.clean && !log.lost ==> log.sent + Pending(output) == log.made)
    && (log.clean ==> log.sent <= log.made)
    && (!log.clean && !log.lost ==> |log.sent| + |Pending(output)| > |log.made|)
    && (log.lost ==> log.tried)
    && (!log.tried ==> log.sent == "" && (log.clean <==> Flows([], Forms(output))))
  }

  predicate EndsInString(output: seq<Item>) { output == [] || output[|output| - 1].kind.Str? }

  predicate ItemOk(item: Item) { item.kind.Buf? ==> item.enc.NoEnc? }

  predicate ItemsOk(output: seq<Item>) { forall i | 0 <= i < |output| :: ItemOk(output[i]) && output[i].bytes != "" }

  /** The log after the socket took the bytes, or refused them. */
  function Wrote(log: Log, bytes: Bytes, ok: bool): Log {
    if ok then log.(sent := log.sent + bytes, tried := true) else log.(lost := true, tried := true)
  }

  lemma DrainStarts(output: seq<Item>, sent: Bytes, wire: Bytes)
    ensures sent + "" == sent && wire + "" == wire && "" + Pending(output) == Pending(output) && Pending([]) == ""
  {
  }

  /** A buffer that is sent behind a header put at the front of the empty queue. */
  lemma GainedBehind(a: View, b: View, c: View, d: Bytes, f: Form)
    requires a.forms == [] && b.forms == [Form(Str, Utf8)] && f.kind.Buf? && Gained(b, c, d, [f])
    requires b == a.(forms := b.forms, log := a.log.(made := b.log.made))
    ensures Gained(a, c, d, [Form(Str, Utf8), f])
  {
    FlowsConcat([], b.forms, [f]);
    FlowsOne([], Form(Str, Utf8));
    FlowsOne(b.forms, f);
    assert [] + b.forms == b.forms && b.forms + [f] == [Form(Str, Utf8), f] == [] + [Form(Str, Utf8), f];
  }

  /** The first entry of the queue goes to the wire, or is lost. */
  lemma Shifted(output: seq<Item>, log: Log, ok: bool, d: Bytes)
    requires output != [] && Kept(log, output) && !log.lost
    ensures Kept(Wrote(log, output[0].bytes, ok), output[1..])
    ensures d + output[0].bytes + Pending(output[1..]) == d + Pending(output)
  {
    assert Pending(output) == output[0].bytes + Pending(output[1..]);
    hide Pending, Forms;
    Regrouped(log.sent, output[0].bytes, Pending(output[1..]));
    Regrouped(d, output[0].bytes, Pending(output[1..]));
  }

  lemma Regrouped(a: Bytes, b: Bytes, c: Bytes)
    ensures a + b + c == a + (b + c)
  {
  }

  /** With an empty queue, new bytes go to the wire at once, or are lost. */
  lemma Written(log: Log, bytes: Bytes, ok: bool)
    requires Kept(log, []) && (ok ==> !log.lost)
    ensures Kept(Wrote(log, bytes, ok).(made := log.made + bytes), [])
  {
    assert log.sent + "" == log.sent;
    assert log.clean ==> log.sent <= log.made + bytes;
  }

  lemma Unshifted(log: Log, header: Bytes)
    requires Kept(log, []) && header != ""
    ensures Kept(log.(made := log.made + header), [Item(Str, header, Utf8)])
  {
    PendingOne(Item(Str, header, Utf8));
    FlowsOne([], Form(Str, Utf8));
    assert Forms([Item(Str, header, Utf8)]) == [Form(Str, Utf8)] && Forms([]) == [];
    assert log.sent + "" == log.sent;
  }

  /** The log after an item is queued. What is merged behind a refused write does not matter any more. */
  function Queued(log: Log, output: seq<Item>, item: Item): Log {
    log.(made := log.made + item.bytes, clean := log.clean && (log.lost || !Merges(output, item)))
  }

  lemma BufferedItems(output: seq<Item>, item: Item)
    requires ItemsOk(output) && ItemOk(item) && item.bytes != ""
    ensures ItemsOk(Buffered(output, item))
  {
  }

  lemma BufferedKept(log: Log, output: seq<Item>, item: Item)
    requires Kept(log, output) && ItemOk(item) && item.bytes != ""
    ensures Kept(Queued(log, output, item), Buffered(output, item))
  {
    BufferedAdds(output, item);
    BufferedForms(output, item);
    FlowsConcat([], Forms(output), [FormOf(item)]);
    BufferedItems(output, item);
    hide Buffered, Merges, Flows, Forms, ItemsOk, Pending;
    assert [] + Forms(output) == Forms(output);
    assert log.sent + (Pending(output) + item.bytes) == log.sent + Pending(output) + item.bytes;
  }

  predicate NonEmpty(chunks: seq<Bytes>) { forall i | 0 <= i < |chunks| :: chunks[i] != "" }

  /** What the message has sent so far. */
  function Shape(m: Message, headerSent: bool, finished: bool): Bytes {
    if !headerSent then ""
    else if finished then Frame(m)
    else Head(m.code, m.reason, m.fields) + Body(m.chunked, m.chunks)
  }

  lemma Joined(b: Bytes, f: Field)
    ensures b + f.name + ": " + f.value + CRLF == b + FieldLine(f)
  {
  }

  lemma FieldLinesSnoc(fs: seq<Field>, f: Field)
    ensures FieldLines(fs + [f]) == FieldLines(fs) + FieldLine(f)
  {
    FieldLinesConcat(fs, [f]);
    assert [f][1..] == [] && FieldLine(f) + "" == FieldLine(f);
  }

  lemma AddLine(first: Bytes, fs: seq<Field>, f: Field)
    ensures first + FieldLines(fs + [f]) == first + FieldLines(fs) + f.name + ": " + f.value + CRLF
  {
    FieldLinesSnoc(fs, f);
    Joined(first + FieldLines(fs), f);
    assert first + (FieldLines(fs) + FieldLine(f)) == first + FieldLines(fs) + FieldLine(f);
  }

  lemma AddLineOr(first: Bytes, fs: seq<Field>, more: seq<Field>)
    requires |more| == 1
    ensures first + FieldLines(fs + more) == first + FieldLines(fs) + more[0].name + ": " + more[0].value + CRLF
    ensures more[0].name == "Date" ==>
              first + FieldLines(fs + more) == first + FieldLines(fs) + "Date: " + more[0].value + CRLF
  {
    assert more == [more[0]];
    AddLine(first, fs, more[0]);
    assert first + FieldLines(fs) + "Date" + ": " == first + FieldLines(fs) + "Date: ";
  }

  lemma ChunkedLine(first: Bytes, fs: seq<Field>)
    ensures first + FieldLines(fs + [Field("Transfer-Encoding", "chunked")])
            == first + FieldLines(fs) + "Transfer-Encoding" + ": chunked" + CRLF
  {
    AddLine(first, fs, Field("Transfer-Encoding", "chunked"));
    var b := first + FieldLines(fs) + "Transfer-Encoding";
    assert b + ": " + "chunked" == b + ": chunked";
  }

  lemma NothingAdded(fs: seq<Field>, more: seq<Field>)
    ensures more == [] ==> fs + more == fs
  {
  }

  lemma HeadIs(code: nat, reason: string, fields: seq<Field>)
    ensures StatusLine(code, reason) + CRLF + FieldLines(fields) + CRLF == Head(code, reason, fields)
    ensures Head(code, reason, fields) != ""
  {
  }

  lemma NothingGained(sent: Bytes, wire: Bytes)
    ensures sent + "" == sent && wire + "" == wire
  {
  }

  /** The head has been completed as planned. */
  ghost predicate HeadOk(g: Flags, header: Option<Bytes>, resBuf: Bytes, code: nat, top: Top, date: string,
                         head: bool)
  {
    if header.None? then
      && HeaderSent !in g && Last !in g && ChunkedEncoding !in g && resBuf == ""
      && (HasBody in g) == !head
    else
      && header.value == Head(code, top.reason, top.plan.fields) && header.value != ""
      && (HeaderSent !in g ==> resBuf == header.value)
      && top.plan == PlanFor(top.user, if SendDate in g then Some(date) else None, HasBody in g, top.keptAlive,
                             UseChunkedByDefault in g)
      && (ChunkedEncoding in g) == top.plan.chunked && (Last in g) == top.plan.last
      && (HasBody in g) == !NoBodyFor(head, code)
  }

  /** The bytes sent are the head, the framed writes, and at the end the ending. */
  ghost predicate BodyOk(g: Flags, m: Message, log: Log, output: seq<Item>, trailer: Bytes, overrun: bool) {
    && (!overrun ==> log.made == Shape(m, HeaderSent in g, Finished in g))
    && NonEmpty(m.chunks) && (HasBody !in g ==> m.chunks == [])
    && (HeaderSent !in g ==> output == [] && log.made == "" && m.chunks == [] && Finished !in g)
    && (Finished !in g ==> trailer == FieldLines(m.trailers))
    && (HeaderSent in g && !log.tried ==> output != [])
    && (overrun ==> Finished in g && |log.made| > |Frame(m)|)
  }

  /** What one write of the body adds. */
  function Framed(chunked: bool, data: Bytes): Bytes { if chunked then Chunk(data) else data }

  lemma BodySnoc(chunked: bool, ds: seq<Bytes>, d: Bytes)
    ensures Body(chunked, ds + [d]) == Body(chunked, ds) + Framed(chunked, d)
  {
    var all := ds + [d];
    assert all[..|all| - 1] == ds && all[|all| - 1] == d;
  }

  /** With the header, as far as it is not sent yet, the bytes sent have the shape of the message. */
  lemma WithHead(g: Flags, header: Option<Bytes>, resBuf: Bytes, code: nat, top: Top, date: string, head: bool,
                 m: Message, log: Log, output: seq<Item>, trailer: Bytes, overrun: bool)
    requires HeadOk(g, header, resBuf, code, top, date, head) && header.Some?
    requires BodyOk(g, m, log, output, trailer, overrun) && !overrun
    requires m.code == code && m.reason == top.reason && m.fields == top.plan.fields
    ensures (if HeaderSent in g then log.made else header.value) == Shape(m, true, Finished in g)
  {
    if HeaderSent !in g {
      assert Body(m.chunked, []) == "";
      assert header.value + "" == header.value;
    }
  }

  lemma ShapeGrows(m: Message, data: Bytes)
    ensures Shape(m.(chunks := m.chunks + [data]), true, false) == Shape(m, true, false) + Framed(m.chunked, data)
  {
    hide Head, Body, Framed, Frame;
    BodySnoc(m.chunked, m.chunks, data);
    Regrouped(Head(m.code, m.reason, m.fields), Body(m.chunked, m.chunks), Framed(m.chunked, data));
  }

  /** Nothing has been sent. */
  ghost predicate Fresh(chunks: seq<Bytes>, trailers: seq<Field>, log: Log, output: seq<Item>, trailer: Bytes,
                        overrun: bool)
  {
    chunks == [] && log.made == "" && output == [] && trailer == FieldLines(trailers) && !overrun
  }

  lemma BeforeHead(g: Flags, header: Option<Bytes>, resBuf: Bytes, code: nat, top: Top, date: string, head: bool,
                   m: Message, log: Log, output: seq<Item>, trailer: Bytes, overrun: bool)
    requires HeadOk(g, header, resBuf, code, top, date, head) && header.None?
    requires BodyOk(g, m, log, output, trailer, overrun)
    ensures HeaderSent !in g && Finished !in g && Last !in g && ChunkedEncoding !in g && (HasBody in g) == !head
    ensures Fresh(m.chunks, m.trailers, log, output, trailer, overrun)
  {
  }

  lemma FreshBody(g: Flags, m: Message, log: Log, output: seq<Item>, trailer: Bytes, overrun: bool)
    requires Fresh(m.chunks, m.trailers, log, output, trailer, overrun) && HeaderSent !in g && Finished !in g
    ensures BodyOk(g, m, log, output, trailer, overrun)
  {
  }

  lemma FrameIs(m: Message)
    ensures Shape(m, true, true) == Frame(m)
  {
  }

  lemma NewMessage(g: Flags, m: Message)
    requires m.chunks == [] && m.trailers == [] && HeaderSent !in g && Finished !in g
    ensures Kept(Log("", "", true, false, false), [])
    ensures BodyOk(g, m, Log("", "", true, false, false), [], "", false)
  {
  }

  lemma ShapeEnds(m: Message)
    ensures Shape(m, true, true) == Shape(m, true, false) + Ending(m.chunked, m.trailers)
  {
  }

  lemma Pieces(base: Bytes, a: Bytes, b: Bytes, c: Bytes)
    ensures base + a + b + c == base + (a + b + c)
    ensures a == "" && b == "" && c == "" ==> a + b + c == ""
  {
  }

  lemma NothingSent(g: Flags, m: Message, log: Log, output: seq<Item>, trailer: Bytes, overrun: bool)
    requires BodyOk(g, m, log, output, trailer, overrun)
    ensures HeaderSent !in g ==> output == [] && log.made == ""
    ensures overrun ==> Finished in g
  {
  }

  /** One write of the body: what is to be sent for it. */
  lemma BodyTaken(g: Flags, header: Option<Bytes>, resBuf: Bytes, code: nat, top: Top, date: string, head: bool,
                  m: Message, log: Log, output: seq<Item>, trailer: Bytes, overrun: bool, data: Bytes)
    requires HeadOk(g, header, resBuf, code, top, date, head) && header.Some?
    requires BodyOk(g, m, log, output, trailer, overrun) && HasBody in g && data != ""
    requires m.code == code && m.reason == top.reason && m.fields == top.plan.fields
    requires m.chunked == (ChunkedEncoding in g)
    ensures forall log': Log, output': seq<Item> |
              && log'.made == (if HeaderSent in g then log.made else header.value) + Framed(m.chunked, data)
              && (output' != [] || log'.tried) ::
              if Finished in g then BodyOk(g + {HeaderSent}, m, log', output', trailer, true)
              else BodyOk(g + {HeaderSent}, m.(chunks := m.chunks + [data]), log', output', trailer, overrun)
  {
    hide Shape, HeadOk, FieldLines, Head;
    FrameIs(m);
    if !overrun {
      WithHead(g, header, resBuf, code, top, date, head, m, log, output, trailer, overrun);
      ShapeGrows(m, data);
    }
  }

  lemma HeaderThere(g: Flags, header: Option<Bytes>, resBuf: Bytes, code: nat, top: Top, date: string, head: bool)
    requires HeadOk(g, header, resBuf, code, top, date, head) && header.Some?
    ensures header.value != "" && (HeaderSent !in g ==> resBuf == header.value)
    ensures header.value == Head(code, top.reason, top.plan.fields)
  {
  }

  lemma HeadStays(g: Flags, header: Option<Bytes>, resBuf: Bytes, code: nat, top: Top, date: string, head: bool)
    requires HeadOk(g, header, resBuf, code, top, date, head) && header.Some?
    ensures forall resBuf' :: HeadOk(g + {HeaderSent}, header, resBuf', code, top, date, head)
    ensures forall resBuf' :: HeadOk(g + {HeaderSent} + {Finished}, header, resBuf', code, top, date, head)
  {
  }

  /** What the fast path has put together. */
  lemma HotBytes(header: Bytes, chunked: bool, data: Bytes, trailers: seq<Field>)
    ensures header + Framed(chunked, data) + Ending(chunked, trailers)
            == if chunked then header + Digits(|data|, 16) + CRLF + data + "\r\n0\r\n" + FieldLines(trailers) + CRLF
               else header + data
  {
    hide Digits, FieldLines;
    if chunked {
      Assoc(header, Digits(|data|, 16), CRLF, data, "0", FieldLines(trailers));
      assert "\r\n0\r\n" == CRLF + "0" + CRLF;
    }
  }

  lemma Assoc(h: Bytes, n: Bytes, c: Bytes, d: Bytes, z: Bytes, t: Bytes)
    ensures h + (n + c + d + c) + (z + c + t + c) == h + n + c + d + (c + z + c) + t + c
  {
    var b := h + n + c + d;
    assert h + (n + c + d + c) == b + c by { Pieces(h, n + c, d, c); Pieces(h, n, c, ""); }
    Pieces(b + c, z + c, t, c);
    assert b + c + (z + c) == b + (c + z + c);
  }

  lemma EndingIs(trailers: seq<Field>)
    ensures "0\r\n" + FieldLines(trailers) + CRLF == Ending(true, trailers)
  {
  }

  /** A last chunk behind a string that waits: it is merged, and pushed as well. */
  lemma MergedEnding(log: Log, output: seq<Item>, last: Item)
    requires Kept(log, output) && last.kind.Str? && last.enc.NoEnc? && last.bytes != ""
    ensures output != [] && EndsInString(output) && log.clean && !log.lost ==>
              && Merges(output, last)
              && log.sent + Pending(Buffered(output, last)) == log.made + last.bytes + last.bytes
  {
    if output != [] && EndsInString(output) && log.clean && !log.lost {
      BufferedAdds(output, last);
      hide Pending;
      Pieces(log.sent, Pending(output), last.bytes, last.bytes);
    }
  }

  /** What `flush` emits. */
  datatype Event = Nothing | Finish | Drained

  /** A message seen so, with entries of the forms `body` before its last chunk, will go out with its ending
      twice: the last chunk is the only string that is merged. */
  ghost predicate EndsTwice(v: View, chunked: bool, body: seq<Form>) {
    chunked && !v.owning && v.log.clean && !v.log.lost && v.forms + body != [] && Flows(v.forms, body)
  }

  lemma EndsTwiceLater(a: View, b: View, d: Bytes, chunked: bool, x: seq<Form>, y: seq<Form>)
    requires Gained(a, b, d, x)
    ensures EndsTwice(a, chunked, x + y) ==> EndsTwice(b, chunked, y)
  {
    FlowsConcat(a.forms, x, y);
    assert a.forms + x + y == a.forms + (x + y);
  }

  /** In chunks, what is queued ends in a string, to which the last chunk is joined. */
  lemma LastIsString(before: seq<Form>, first: seq<Form>, hasBody: bool, headerSent: bool, data: Option<Item>)
    requires before == [] || before[|before| - 1].kind.Str?
    requires first == [] || first == [Form(Str, NoEnc)]
    ensures var body := first + TakenForms(hasBody, headerSent, true, data);
            Flows(before, first + EndedForms(hasBody, headerSent, true, data)) <==> before == [] && body == []
  {
    hide Flows;
    var taken := TakenForms(hasBody, headerSent, true, data);
    var body, last := first + taken, Form(Str, NoEnc);
    assert first + EndedForms(hasBody, headerSent, true, data) == body + [last];
    FlowsConcat(before, body, [last]);
    FlowsOne(before + body, last);
    if before == [] && body == [] {
      assert [] + [last] == [last] && before + body == [];
    } else {
      var all := before + body;
      assert body != [] ==> all[|all| - 1] == body[|body| - 1];
      assert taken != [] ==> all[|all| - 1] == taken[|taken| - 1];
    }
  }

  /** Not in chunks, an end adds at most a header that is alone. */
  lemma HeaderFlows(before: seq<Form>, first: seq<Form>, hasBody: bool, headerSent: bool, data: Option<Item>)
    requires headerSent || before == []
    ensures var sent := headerSent || first != [];
            Flows(before, first + EndedForms(hasBody, sent, false, data)) <==>
              Flows(before, first + TakenForms(hasBody, sent, false, data))
  {
    hide Flows, BodyForms;
    var sent := headerSent || first != [];
    var taken := TakenForms(hasBody, sent, false, data);
    assert taken + [] == taken && [] + [Form(Str, NoEnc)] == [Form(Str, NoEnc)];
    FlowsOne([], Form(Str, NoEnc));
    FlowsNothing([]);
  }

  lemma FlowsNothing(before: seq<Form>)
    ensures Flows(before, [])
  {
  }

  /** The ending is there twice... */
  ghost predicate EndingTwice(m: Message, log: Log, output: seq<Item>) {
    log.sent + Pending(output) == Frame(m) + LastChunk(m.trailers)
  }

  /** ... and no reader can go on behind it. */
  lemma NothingReadAfterwards(head: bool, trailers: seq<Field>, rest: Bytes)
    ensures Read(head, LastChunk(trailers) + rest) == None
  {
    var tail := FieldLines(trailers) + CRLF + rest;
    assert LastChunk(trailers) + rest == "0" + CRLF + tail;
    NextLineIs("0", tail, 0);
  }

  class OutgoingMessage {
    var flags: Flags
    var socket: Socket?
    var statusCode: nat
    var preset: seq<Field>              // the fields set before the head
    var header: Option<Bytes>
    var trailer: Bytes
    var resBuf: Bytes
    var output: seq<Item>

    const phrase: string                // the status table's phrase for the default status
    const date: string                  // the current date
    ghost const head: bool              // the request was a HEAD request
    ghost var top: Top
    ghost var log: Log
    ghost var chunks: seq<Bytes>        // the writes of the body
    ghost var trailers: seq<Field>      // the trailer at the end
    ghost var overrun: bool             // written to after the end

    /** The message owns a socket that can be written to. */
    predicate Owning()
      reads this`socket, socket
    {
      socket != null && socket.httpMessage == this && socket.writable
    }

    ghost predicate Attached()
      reads this, socket
    {
      socket != null ==> socket.Valid() && socket.httpMessage == this
    }

    ghost function AsMessage(): Message
      reads `statusCode, `top, `flags, `chunks, `trailers
    {
      Message(head, statusCode, top.reason, top.plan.fields, ChunkedEncoding in flags, chunks, trailers)
    }

    /** What holds of the message, with or without the socket. */
    ghost predicate Sound()
      reads this, socket
    {
      && Attached() && Kept(log, output)
      && HeadOk(flags, header, resBuf, statusCode, top, date, head)
      && BodyOk(flags, AsMessage(), log, output, trailer, overrun)
      && (log.tried && Finished !in flags ==> socket != null)
      && (ChunkedEncoding in flags ==> EndsInString(output))
    }

    /** The owner of a writable socket keeps nothing back. */
    ghost predicate Valid()
      reads this, socket
    {
      Sound() && (Owning() ==> output == [] && !log.lost)
    }

    /** `createInServer`, and the server's setting of SHOULD_KEEP_ALIVE. */
    constructor (head: bool, useChunked: bool, shouldKeepAlive: bool, phrase: string, date: string)
      ensures Valid() && socket == null && header == None && Finished !in flags && preset == []
      ensures (UseChunkedByDefault in flags) == useChunked && (ShouldKeepAlive in flags) == shouldKeepAlive
      ensures SendDate in flags
      ensures this.head == head && log == Log("", "", true, false, false) && chunks == [] && !overrun && output == []
      ensures trailers == [] && statusCode == 200 && this.phrase == phrase && this.date == date
    {
      flags := {SendDate} + (if head then {} else {HasBody}) + (if useChunked then {UseChunkedByDefault} else {})
               + (if shouldKeepAlive then {ShouldKeepAlive} else {});
      socket, statusCode, preset, header, trailer, resBuf, output := null, 200, [], None, "", "", [];
      this.phrase, this.date, this.head := phrase, date, head;
      top, log := Top([], Plan([], false, false), false, ""), Log("", "", true, false, false);
      chunks, trailers, overrun := [], [], false;
      new;
      hide BodyOk, Kept, Shape, FieldLines;
      NewMessage(flags, AsMessage());
    }

    method SetHeader(name: string, value: string) returns (ok: bool)
      requires Valid()
      modifies `preset
      ensures Valid() && ok == header.None?
      ensures preset == if ok then PutByKey(old(preset), Field(name, value)) else old(preset)
      ensures ok ==> PutUnder(old(preset), Field(name, value), preset)
    {
      hide HeadOk, BodyOk, Kept, PutByKey, PutUnder;
      PutByKeyIs(preset, Field(name, value));
      if header.Some? { return false; }
      preset := PutByKey(preset, Field(name, value));
      ok := true;
    }

    method AddTrailers(fields: seq<Field>)
      requires Valid()
      modifies `trailer, `trailers
      ensures Valid() && trailer == FieldLines(fields)
      ensures trailers == if Finished in flags then old(trailers) else fields
    {
      hide HeadOk, Kept, FieldLine;
      trailer := "";
      assert fields[..0] == [];
      for i := 0 to |fields|
        invariant trailer == FieldLines(fields[..i]) && trailers == old(trailers)
      {
        hide *;
        assert fields[..i + 1] == fields[..i] + [fields[i]];
        FieldLinesSnoc(fields[..i], fields[i]);
        Joined(trailer, fields[i]);
        trailer := trailer + fields[i].name + ": " + fields[i].value + CRLF;
      }
      assert fields[..|fields|] == fields;
      if Finished !in flags { trailers := fields; }
    }

    // ----- the head -----

    /** `store`: one field of the head, and the flags it sets. */
    method Store(messageHeader: Bytes, f: Field) returns (r: Bytes)
      modifies `flags
      ensures r == messageHeader + FieldLine(f) && flags == old(flags) + FlagsOf(f)
    {
      hide KeyOf, FieldLine;
      r := messageHeader + f.name;
      r := r + ": ";
      r := r + f.value;
      r := r + CRLF;
      Joined(messageHeader, f);
      match KeyOf(f.name) {
        case ConnectionKey =>
          flags := flags + {SentConnection};
          if f.value == "close" {
            flags := flags + {Last};
          } else {
            flags := flags + {ShouldKeepAlive};
          }
        case TransferEncodingKey =>
          flags := flags + {SentTransferEncoding};
          if f.value == "chunked" { flags := flags + {ChunkedEncoding}; }
        case ContentLengthKey => flags := flags + {SentContentLength};
        case DateKey => flags := flags + {SentDate};
        case ExpectKey => flags := flags + {SentExpect};
        case OtherKey =>
      }
    }

    /** The loop of `storeHeader` over the caller's fields. */
    method StoreAll(firstLine: Bytes, headers: seq<Field>) returns (messageHeader: Bytes)
      requires Last !in flags && ChunkedEncoding !in flags
      modifies `flags
      ensures messageHeader == firstLine + FieldLines(headers) && Noted(headers, old(flags), flags)
    {
      hide Values, KeyOf, FlagsOf, FieldLine;
      messageHeader := firstLine;
      NotedNothing(flags);
      flags := flags - SENT_FLAGS;
      assert headers[..0] == [] && firstLine + "" == firstLine;
      for i := 0 to |headers|
        invariant messageHeader == firstLine + FieldLines(headers[..i])
        invariant Noted(headers[..i], old(flags), flags)
      {
        hide Noted, FieldLines;
        assert headers[..i + 1] == headers[..i] + [headers[i]];
        NotedSnoc(headers[..i], headers[i], old(flags), flags);
        AddLine(firstLine, headers[..i], headers[i]);
        Joined(messageHeader, headers[i]);
        messageHeader := Store(messageHeader, headers[i]);
      }
      assert headers[..|headers|] == headers;
    }

    /** The Date field of `storeHeader`. */
    method StoreDate(b: Bytes, ghost first: Bytes, ghost fs: seq<Field>) returns (r: Bytes, ghost more: seq<Field>)
      requires b == first + FieldLines(fs)
      ensures more == (if SendDate in flags && SentDate !in flags then [Field("Date", date)] else [])
      ensures r == first + FieldLines(fs + more)
    {
      hide FieldLines;
      r, more := b, [];
      if SendDate in flags && SentDate !in flags {
        more := [Field("Date", date)];
        r := r + "Date: " + date + CRLF;
        AddLineOr(first, fs, more);
      }
      NothingAdded(fs, more);
    }

    /** The Connection field. */
    method StoreConnection(b: Bytes, ghost first: Bytes, ghost fs: seq<Field>)
      returns (r: Bytes, ghost more: seq<Field>)
      requires b == first + FieldLines(fs)
      modifies `flags
      ensures var g := old(flags);
              var announce := ShouldKeepAlive in g && (SentContentLength in g || UseChunkedByDefault in g);
              && more == (if SentConnection in g then []
                          else [Field("Connection", if announce then "keep-alive" else "close")])
              && flags == g + (if SentConnection !in g && !announce then {Last} else {})
      ensures r == first + FieldLines(fs + more)
    {
      hide FieldLines;
      r, more := b, [];
      if SentConnection !in flags {
        var shouldSendKeepAlive :=
          ShouldKeepAlive in flags && (SentContentLength in flags || UseChunkedByDefault in flags);
        r := r + "Connection" + ": ";
        if shouldSendKeepAlive {
          r := r + "keep-alive";
        } else {
          flags := flags + {Last};
          r := r + "close";
        }
        r := r + CRLF;
        more := [Field("Connection", if shouldSendKeepAlive then "keep-alive" else "close")];
        AddLineOr(first, fs, more);
      }
      NothingAdded(fs, more);
    }

    /** The Transfer-Encoding field. */
    method StoreCoding(b: Bytes, ghost first: Bytes, ghost fs: seq<Field>) returns (r: Bytes, ghost more: seq<Field>)
      requires b == first + FieldLines(fs)
      modifies `flags
      ensures var g := old(flags);
              var free := SentContentLength !in g && SentTransferEncoding !in g;
              && more == (if free && HasBody in g && UseChunkedByDefault in g
                          then [Field("Transfer-Encoding", "chunked")] else [])
              && flags == if !free then g
                          else if HasBody !in g then g - {ChunkedEncoding}
                          else if UseChunkedByDefault in g then g + {ChunkedEncoding} else g + {Last}
      ensures r == first + FieldLines(fs + more)
    {
      hide FieldLines;
      r, more := b, [];
      if SentContentLength !in flags && SentTransferEncoding !in flags {
        if HasBody in flags {
          if UseChunkedByDefault in flags {
            r := r + "Transfer-Encoding" + ": chunked" + CRLF;
            more := [Field("Transfer-Encoding", "chunked")];
            ChunkedLine(first, fs);
            flags := flags + {ChunkedEncoding};
          } else {
            flags := flags + {Last};
          }
        } else {
          flags := flags - {ChunkedEncoding};
        }
      }
      NothingAdded(fs, more);
    }

    /** `storeHeader` up to the point where the header is complete. */
    method StoreFields(firstLine: Bytes, headers: seq<Field>) returns (messageHeader: Bytes)
      requires Last !in flags && ChunkedEncoding !in flags
      modifies `flags
      ensures var g := old(flags);
              var p := PlanFor(headers, if SendDate in g then Some(date) else None, HasBody in g, ShouldKeepAlive in g,
                               (UseChunkedByDefault in g));
              && messageHeader == firstLine + FieldLines(p.fields) + CRLF
              && (ChunkedEncoding in flags) == p.chunked && (Last in flags) == p.last
      ensures OthersSame(old(flags), flags)
      ensures SentExpect in flags <==> Values(headers, ExpectKey) != []
    {
      hide Values, KeyOf, FieldLines, FieldLine;
      ghost var d, c, t;
      messageHeader := StoreAll(firstLine, headers);
      messageHeader, d := StoreDate(messageHeader, firstLine, headers);
      messageHeader, c := StoreConnection(messageHeader, firstLine, headers + d);
      messageHeader, t := StoreCoding(messageHeader, firstLine, headers + d + c);
      messageHeader := messageHeader + CRLF;
    }

    /** `storeHeader` up to the completed header; HAS_BODY is already decided. */
    method CompleteHeader(firstLine: Bytes, headers: seq<Field>, reason: string)
      requires Last !in flags && ChunkedEncoding !in flags && header.None?
      requires firstLine == StatusLine(statusCode, reason) + CRLF && (HasBody in flags) == !NoBodyFor(head, statusCode)
      modifies `flags, `header, `resBuf, `top
      ensures HeadOk(flags, header, resBuf, statusCode, top, date, head) && header.Some? && HeaderSent !in flags
      ensures top.reason == reason && top.keptAlive == (ShouldKeepAlive in old(flags)) && top.user == headers
      ensures Finished in flags <==> Finished in old(flags)
      ensures SentExpect in flags <==> Values(headers, ExpectKey) != []
      ensures SendDate in flags <==> SendDate in old(flags)
      ensures UseChunkedByDefault in flags <==> UseChunkedByDefault in old(flags)
    {
      hide Values, PlanFor, Head, FieldLines, StatusLine;
      ghost var g := flags;
      ghost var plan := PlanFor(headers, if SendDate in g then Some(date) else None, HasBody in g, ShouldKeepAlive in g,
                          UseChunkedByDefault in g);
      top := Top(headers, plan, ShouldKeepAlive in g, reason);
      var messageHeader := StoreFields(firstLine, headers);
      HeadIs(statusCode, reason, top.plan.fields);
      resBuf := messageHeader;
      header := Some(messageHeader);
      flags := flags - {HeaderSent};
    }

    // ----- the queue and the socket -----

    method Buffer(item: Item)
      requires Kept(log, output) && ItemOk(item) && item.bytes != ""
      modifies `output, `log
      ensures Kept(log, output) && output == Buffered(old(output), item)
      ensures log == Queued(old(log), old(output), item)
      ensures var n := |old(output)|;
              && |output| == n + 1 && output[n] == item && (forall i | 0 <= i < n - 1 :: output[i] == old(output)[i])
              && (n > 0 ==>
                    var last := old(output)[n - 1];
                    var joined := item.kind.Str? && if item.enc == Utf8 then last.enc == Utf8 else last.kind.Str?;
                    output[n - 1] == if joined then last.(bytes := last.bytes + item.bytes) else last)
    {
      hide Kept;
      BufferedKept(log, output, item);
      log := Queued(log, output, item);
      var length := |output|;
      if length == 0 || !item.kind.Str? {
        output := output + [item];
        return;
      }
      var lastItem := output[length - 1];
      if (item.enc != NoEnc && lastItem.enc == item.enc) || (item.enc == NoEnc && lastItem.kind == item.kind) {
        output := output[length - 1 := lastItem.(bytes := lastItem.bytes + item.bytes)];
      }
      output := output + [item];
    }

    ghost function Now(): View
      reads this`socket, this`log, this`output, socket
    {
      View(Owning(), socket != null && socket.handle, socket != null && socket.Sure(),
           if socket == null then "" else socket.wire, log, Forms(output))
    }

    twostate predicate Gains(d: Bytes, added: seq<Form>)
      reads this, socket
    {
      socket == old(socket) && Gained(old(Now()), Now(), d, added)
    }

    /** The loop of `writeRaw` and `flush`: the queue goes to the socket while that can be written to.
        `done` says that the loop came to the end of the queue, `ret` what the last write returned. */
    method Drain() returns (done: bool, ret: bool, ghost d: Bytes)
      requires socket != null && Attached() && Kept(log, output) && (Owning() ==> !log.lost)
      modifies `output, `log, socket
      ensures Attached() && Kept(log, output) && Gains(d, []) && log.made == old(log).made
      ensures log.clean == old(log).clean
      ensures done == (output == []) && (!done ==> !Owning())
      ensures Owning() ==> d == Pending(old(output))
      ensures !old(Owning()) ==> output == old(output) && log == old(log)
      ensures old(output) == [] ==> d == "" && log == old(log) && Owning() == old(Owning())
      ensures ret == (Owning() && old(output) != [])
      ensures old(output) != [] && old(Owning()) ==> log.tried
      ensures EndsInString(old(output)) ==> EndsInString(output)
    {
      hide Pending, Kept, Forms;
      ret, d := false, "";
      DrainStarts(output, log.sent, socket.wire);
      GainedNothing(Now());
      while |output| > 0
        invariant Attached() && Kept(log, output) && log.made == old(log).made && log.clean == old(log).clean
        invariant log.sent == old(log).sent + d && socket.wire == old(socket.wire) + d
        invariant Owning() ==> old(Owning()) && d + Pending(output) == Pending(old(output)) && !log.lost
        invariant old(Owning()) && !Owning() ==> log.lost
        invariant socket.handle ==> old(socket.handle) && log.lost == old(log).lost && Owning() == old(Owning())
        invariant (old(socket.Sure()) ==> socket.Sure()) && |output| <= |old(output)|
        invariant output == old(output) ==> !ret && d == "" && log == old(log) && Owning() == old(Owning())
        invariant output != old(output) ==> log.tried && ret == Owning() && old(Owning())
        invariant EndsInString(old(output)) ==> EndsInString(output)
        decreases |output|
      {
        if !socket.writable {
          return false, ret, d;
        }
        var c := output[0];
        ghost var queue := output;
        output := output[1..];
        ret := socket.Write(c.bytes);
        Shifted(queue, log, ret, d);
        log := Wrote(log, c.bytes, ret);
        if ret { d := d + c.bytes; }
      }
      done := true;
      assert d + "" == d;
    }

    /** `writeRaw`. */
    method WriteRaw(item: Item) returns (ret: bool, ghost d: Bytes)
      requires Attached() && Kept(log, output) && ItemOk(item) && (Owning() ==> !log.lost)
      modifies `output, `log, socket
      ensures Attached() && Kept(log, output) && log.made == old(log).made + item.bytes
      ensures Gains(d, if item.bytes == "" then [] else [FormOf(item)])
      ensures item.bytes == "" ==> ret && d == "" && output == old(output) && log == old(log)
      ensures item.bytes != "" && !old(Owning()) ==>
                && !ret && output == Buffered(old(output), item) && log == Queued(old(log), old(output), item)
      ensures item.bytes != "" && Owning() ==> ret && output == [] && d == Pending(old(output)) + item.bytes
      ensures item.bytes != "" && ret ==> Owning()
      ensures item.bytes != "" && old(Owning()) ==> log.tried
      ensures item.bytes != "" && item.kind.Str? ==> EndsInString(output)
      ensures (Owning() ==> old(Owning()) && (item.bytes != "" ==> !log.lost)) && (old(log).tried ==> log.tried)
      ensures log.tried ==> socket != null || old(log).tried
    {
      hide Pending, Kept, Joins, Flows, Wrote, Forms;
      d := "";
      if item.bytes == "" {
        GainedNothing(Now());
        assert log.made + "" == log.made;
        return true, d;
      }
      if Owning() {
        ret, d := WriteOwning(item);
      } else {
        GainedNothing(Now());
        BufferedForms(output, item);
        Buffer(item);
        ret := false;
      }
    }

    /** `writeRaw` of the owner of a writable socket. */
    method WriteOwning(item: Item) returns (ret: bool, ghost d: Bytes)
      requires Owning() && Attached() && Kept(log, output) && ItemOk(item) && item.bytes != "" && !log.lost
      modifies `output, `log, socket
      ensures Attached() && Kept(log, output) && log.made == old(log).made + item.bytes && log.tried
      ensures Gains(d, [FormOf(item)])
      ensures Owning() ==> ret && output == [] && d == Pending(old(output)) + item.bytes
      ensures ret ==> Owning()
      ensures item.kind.Str? ==> EndsInString(output)
    {
      hide Pending, Kept, Joins, Flows, Forms;
      var done;
      done, ret, d := Drain();
      if !done {
        Buffer(item);
        return false, d;
      }
      Regrouped(old(log).sent, d, item.bytes);
      Regrouped(old(socket.wire), d, item.bytes);
      ret := socket.Write(item.bytes);
      Written(log, item.bytes, ret);
      log := Wrote(log, item.bytes, ret).(made := log.made + item.bytes);
      if ret { d := d + item.bytes; }
    }

    /** `send`: the header goes out with the first bytes. */
    method Send(item: Item) returns (ret: bool, ghost d: Bytes)
      requires Attached() && Kept(log, output) && ItemOk(item) && (item.kind.Buf? ==> item.bytes != "")
      requires header.Some? && header.value != "" && (Owning() ==> output == [] && !log.lost)
      requires HeaderSent !in flags ==> output == [] && log.made == ""
      modifies `flags, `output, `log, socket
      ensures Attached() && Kept(log, output) && flags == old(flags) + {HeaderSent}
      ensures Gains(d, SendForms(HeaderSent in old(flags), item))
      ensures log.made == (if HeaderSent in old(flags) then old(log).made else header.value) + item.bytes
      ensures Owning() ==> output == [] && ret && !log.lost
      ensures HeaderSent in old(flags) && item.bytes == "" ==> output == old(output) && log == old(log)
      ensures HeaderSent in old(flags) && item.bytes != "" && !old(Owning()) ==> output == Buffered(old(output), item)
      ensures !(HeaderSent in old(flags) && item.bytes == "") && !old(Owning()) ==> output != [] && !ret
      ensures !(HeaderSent in old(flags) && item.bytes == "") && old(Owning()) ==> log.tried
      ensures (Owning() ==> old(Owning())) && (old(log).tried ==> log.tried)
      ensures log.tried ==> socket != null || old(log).tried
      ensures !(HeaderSent in old(flags) && item.bytes == "") && item.kind.Str? ==> EndsInString(output)
    {
      hide Pending, Kept, Joins, Flows, Forms;
      if HeaderSent in flags {
        ret, d := WriteRaw(item);
      } else {
        flags := flags + {HeaderSent};
        if item.kind.Str? {
          ret, d := WriteRaw(Item(Str, header.value + item.bytes, item.enc));
          assert "" + (header.value + item.bytes) == header.value + item.bytes;
        } else {
          ret, d := SendBehindHeader(item);
        }
      }
    }

    /** `send` of a buffer, with the header put before it. */
    method SendBehindHeader(item: Item) returns (ret: bool, ghost d: Bytes)
      requires Attached() && Kept(log, output) && item.kind.Buf? && ItemOk(item) && item.bytes != ""
      requires header.Some? && header.value != "" && output == [] && log.made == "" && (Owning() ==> !log.lost)
      modifies `output, `log, socket
      ensures Attached() && Kept(log, output) && Gains(d, [Form(Str, Utf8), FormOf(item)])
      ensures log.made == header.value + item.bytes
      ensures Owning() ==> output == [] && ret && !log.lost
      ensures !old(Owning()) ==> output != [] && !ret
      ensures old(Owning()) ==> log.tried
    {
      hide Pending, Kept, Joins, Flows, Gained;
      var top := Item(Str, header.value, Utf8);
      Unshifted(log, header.value);
      assert [top] + output == [top] && Forms([top]) == [Form(Str, Utf8)] && Forms(output) == [];
      ghost var v0 := Now();
      output := [top] + output;
      log := log.(made := log.made + header.value);
      ghost var v1 := Now();
      assert "" + header.value == header.value;
      ret, d := WriteRaw(item);
      GainedBehind(v0, v1, Now(), d, FormOf(item));
    }

    // ----- the operations -----

    /** The plan of a head. */
    ghost function PlanOf(code: nat, user: seq<Field>): Plan
      reads this
    {
      PlanFor(user, if SendDate in flags then Some(date) else None, !NoBodyFor(head, code),
              ShouldKeepAlive in flags, UseChunkedByDefault in flags)
    }

    /** The plan of an implicit head. */
    ghost function ImplicitPlan(): Plan
      reads this
    {
      PlanOf(statusCode, preset)
    }

    /** Whether the body is or will be sent in chunks, and whether there is one. */
    ghost predicate WillChunk()
      reads this
    {
      if header.Some? then ChunkedEncoding in flags else ImplicitPlan().chunked
    }

    ghost predicate WillHaveBody()
      reads this
    {
      if header.Some? then HasBody in flags else !NoBodyFor(head, statusCode)
    }

    /** The fields of a head that is given `extra`. */
    function UserFields(extra: seq<Field>): seq<Field>
      reads this
    {
      Merged(preset, extra)
    }

    /** The entries that making the head queues: the header alone under an Expect field. */
    function HeadForms(extra: seq<Field>): seq<Form>
      reads this
    {
      if header.None? && Values(UserFields(extra), ExpectKey) != [] then [Form(Str, NoEnc)] else []
    }

    /** The entries that `write` queues while the message does not own the socket. */
    ghost function WriteForms(chunk: Option<Item>): seq<Form>
      reads this
    {
      var first := HeadForms([]);
      first + TakenForms(WillHaveBody(), HeaderSent in flags || first != [], WillChunk(), chunk)
    }

    /** The entries that `end` queues while the message does not own the socket. */
    ghost function FinishForms(data: Option<Item>): seq<Form>
      reads this
    {
      var first := HeadForms([]);
      if Finished in flags then []
      else first + EndedForms(WillHaveBody(), HeaderSent in flags || first != [], WillChunk(), data)
    }

    /** A head, once made, stays. */
    twostate predicate HeadKept()
      reads this
    {
      && preset == old(preset) && trailer == old(trailer) && trailers == old(trailers)
      && (old(header).Some? ==>
            && header == old(header) && statusCode == old(statusCode) && top == old(top)
            && (HasBody in flags <==> HasBody in old(flags))
            && (ChunkedEncoding in flags <==> ChunkedEncoding in old(flags)))
    }

    /** The part of `writeHead` that puts the fields it is given over those set before. */
    method MergeFields(extra: seq<Field>) returns (headers: seq<Field>)
      ensures headers == UserFields(extra) && HeadFields(preset, extra, headers)
    {
      hide Overlaid, Overlay;
      headers := extra;
      if preset != [] { headers := PutAll(preset, extra); }
    }

    /** `writeHead` up to the completed header. */
    method PrepareHead(code: nat, reason: string, extra: seq<Field>)
      requires Valid() && header.None?
      modifies `flags, `statusCode, `header, `resBuf, `top
      ensures Valid() && header.Some? && HeaderSent !in flags
      ensures statusCode == code && top.reason == reason && top.keptAlive == (ShouldKeepAlive in old(flags))
      ensures top.user == UserFields(extra) && HeadFields(preset, extra, top.user)
      ensures SentExpect in flags <==> Values(top.user, ExpectKey) != []
      ensures SendDate in flags <==> SendDate in old(flags)
      ensures UseChunkedByDefault in flags <==> UseChunkedByDefault in old(flags)
    {
      hide HeadOk, BodyOk, Fresh, Values, PlanFor, Head, Pending, Kept, StatusLine, Shape, FieldLines, HeadFields,
           Merged;
      BeforeHead(flags, header, resBuf, statusCode, top, date, head, AsMessage(), log, output, trailer, overrun);
      statusCode := code;
      var headers := MergeFields(extra);
      if code == 204 || code == 304 || 100 <= code < 200 { flags := flags - {HasBody}; }
      CompleteHeader(StatusLine(code, reason) + CRLF, headers, reason);
      FreshBody(flags, AsMessage(), log, output, trailer, overrun);
    }

    /** What the flags say of a head that has been made. */
    lemma HeadPlanned()
      requires Valid() && header.Some?
      ensures top.plan == PlanFor(top.user, if SendDate in flags then Some(date) else None, HasBody in flags,
                                  top.keptAlive, UseChunkedByDefault in flags)
      ensures (ChunkedEncoding in flags) == top.plan.chunked && (Last in flags) == top.plan.last
      ensures (HasBody in flags) == !NoBodyFor(head, statusCode)
    {
      hide BodyOk, Kept, PlanFor, Head;
    }

    /** `writeHead`. It must not have been called before. */
    method WriteHead(code: nat, reason: string, extra: seq<Field>) returns (ghost d: Bytes)
      requires Valid() && header.None?
      modifies this, socket
      ensures Valid() && Gains(d, old(HeadForms(extra))) && HeadKept()
      ensures header.Some? && statusCode == code && top.reason == reason
      ensures top.keptAlive == (ShouldKeepAlive in old(flags))
      ensures HeadFields(old(preset), extra, top.user)
      ensures top.user == old(UserFields(extra)) && top.plan == old(PlanOf(code, UserFields(extra)))
      ensures (HasBody in flags) == !NoBodyFor(head, code)
      ensures HeaderSent in flags <==> Values(top.user, ExpectKey) != []
      ensures SendDate in flags <==> SendDate in old(flags)
      ensures UseChunkedByDefault in flags <==> UseChunkedByDefault in old(flags)
      ensures chunks == old(chunks) && overrun == old(overrun) && Finished !in flags
    {
      hide HeadOk, Values, PlanFor, Head, Pending, Kept, Shape, FieldLines, Flows, HeadFields, Merged;
      PrepareHead(code, reason, extra);
      d := "";
      GainedNothing(Now());
      if SentExpect in flags { d := SendHeader(); }
      HeadPlanned();
    }

    /** `send` of the header alone. */
    method SendHeader() returns (ghost d: Bytes)
      requires Valid() && header.Some? && HeaderSent !in flags
      modifies `flags, `output, `log, socket
      ensures Valid() && Gains(d, [Form(Str, NoEnc)]) && flags == old(flags) + {HeaderSent}
    {
      hide Values, PlanFor, Head, Pending, Kept, Shape, FieldLines, NonEmpty;
      WithHead(flags, header, resBuf, statusCode, top, date, head, AsMessage(), log, output, trailer, overrun);
      NothingGained(header.value, "");
      var ret;
      ret, d := Send(Item(Str, "", NoEnc));
    }

    /** `write` where the bytes go out, framed. */
    method SendBody(item: Item) returns (ret: bool, ghost d: Bytes)
      requires Attached() && Kept(log, output) && ItemOk(item) && item.bytes != ""
      requires header.Some? && header.value != "" && (Owning() ==> output == [] && !log.lost)
      requires HeaderSent !in flags ==> output == [] && log.made == ""
      modifies `flags, `output, `log, socket
      ensures Attached() && Kept(log, output) && flags == old(flags) + {HeaderSent}
      ensures Gains(d, BodyForms(HeaderSent in old(flags), ChunkedEncoding in flags, item))
      ensures log.made == (if HeaderSent in old(flags) then old(log).made else header.value)
                          + Framed(ChunkedEncoding in flags, item.bytes)
      ensures Owning() ==> output == [] && ret && !log.lost
      ensures !old(Owning()) ==> output != [] && !ret
      ensures old(Owning()) ==> log.tried
      ensures log.tried ==> socket != null || old(log).tried
      ensures ChunkedEncoding in flags ==> EndsInString(output)
    {
      hide Pending, Kept, Joins, Flows, Gained;
      if ChunkedEncoding in flags {
        if item.kind.Str? {
          var sb := Digits(|item.bytes|, 16) + CRLF + item.bytes + CRLF;
          ret, d := Send(Item(Str, sb, item.enc));
        } else {
          ret, d := SendInThree(item);
        }
      } else {
        ret, d := Send(item);
      }
    }

    /** A chunk that is a buffer goes out in three pieces. */
    method SendInThree(item: Item) returns (ret: bool, ghost d: Bytes)
      requires Attached() && Kept(log, output) && item.kind.Buf? && ItemOk(item) && item.bytes != ""
      requires header.Some? && header.value != "" && (Owning() ==> output == [] && !log.lost)
      requires HeaderSent !in flags ==> output == [] && log.made == ""
      modifies `flags, `output, `log, socket
      ensures Attached() && Kept(log, output) && flags == old(flags) + {HeaderSent}
      ensures Gains(d, BodyForms(HeaderSent in old(flags), true, item))
      ensures log.made == (if HeaderSent in old(flags) then old(log).made else header.value) + Framed(true, item.bytes)
      ensures Owning() ==> output == [] && ret && !log.lost
      ensures !old(Owning()) ==> output != [] && !ret
      ensures old(Owning()) ==> log.tried
      ensures log.tried ==> socket != null || old(log).tried
      ensures EndsInString(output)
    {
      hide Pending, Kept, Joins, Flows, Digits, Gained, Buffered, Queued, Forms, OutgoingMessage.Now;
      var len := Digits(|item.bytes|, 16);
      ghost var base := if HeaderSent in flags then log.made else header.value;
      ghost var d1, d2, d3;
      ghost var v0 := Now();
      ret, d1 := Send(Item(Str, len + CRLF, NoEnc));
      ghost var v1 := Now();
      ret, d2 := Send(item);
      ghost var v2 := Now();
      GainedTwice(v0, v1, v2, d1, d2, [Form(Str, NoEnc)], [FormOf(item)]);
      ret, d3 := Send(Item(Str, CRLF, NoEnc));
      GainedTwice(v0, v2, Now(), d1 + d2, d3, [Form(Str, NoEnc)] + [FormOf(item)], [Form(Str, NoEnc)]);
      d := d1 + d2 + d3;
      assert [Form(Str, NoEnc)] + [FormOf(item)] + [Form(Str, NoEnc)] == BodyForms(false, true, item);
      Pieces(base, len + CRLF, item.bytes, CRLF);
    }

    /** There is a head; one that was not there is made from the default status and the fields set before. */
    twostate predicate Headed()
      reads this
    {
      && header.Some?
      && (old(header).None? ==>
            && statusCode == old(statusCode) && top.reason == phrase && top.user == old(UserFields([]))
            && top.plan == old(ImplicitPlan()) && (HasBody in flags) == !NoBodyFor(head, statusCode))
    }

    /** `implicitHeader`. */
    method ImplicitHeader() returns (ghost d: Bytes)
      requires Valid()
      modifies this, socket
      ensures Valid() && Gains(d, old(HeadForms([]))) && HeadKept() && Headed()
      ensures chunks == old(chunks) && overrun == old(overrun) && (Finished in flags <==> Finished in old(flags))
      ensures old(header).Some? ==> log == old(log) && output == old(output) && flags == old(flags) && d == ""
      ensures (ChunkedEncoding in flags) == old(WillChunk()) && (HasBody in flags) == old(WillHaveBody())
      ensures HeaderSent in flags <==> HeaderSent in old(flags) || old(HeadForms([])) != []
      ensures Owning() ==> old(Owning())
      ensures old(header).None? ==> top.user == old(preset) && statusCode == old(statusCode) && top.reason == phrase
    {
      hide BodyOk, Kept, PlanFor, Values, Head, Flows, HeadFields, Merged;
      MergedIs(preset, []);
      d := "";
      GainedNothing(Now());
      if header.None? {
        BeforeHead(flags, header, resBuf, statusCode, top, date, head, AsMessage(), log, output, trailer, overrun);
        d := WriteHead(statusCode, phrase, []);
      }
    }

    /** The writes that are taken into the body. */
    predicate Takes(chunk: Option<Item>)
      reads this
    {
      HasBody in flags && chunk.Some? && chunk.value.bytes != ""
    }

    /** `write`; `None` stands for a value that is neither a string nor a buffer. */
    method Write(chunk: Option<Item>) returns (ret: bool, ghost d: Bytes)
      requires Valid() && (chunk.Some? ==> ItemOk(chunk.value))
      modifies this, socket
      ensures Valid() && Gains(d, old(WriteForms(chunk))) && HeadKept() && Headed()
      ensures Finished in flags <==> Finished in old(flags)
      ensures chunks == if Takes(chunk) && Finished !in flags then old(chunks) + [chunk.value.bytes] else old(chunks)
      ensures overrun == (old(overrun) || (Takes(chunk) && Finished in flags))
      ensures HasBody !in flags ==> ret
      ensures HasBody in flags && !Takes(chunk) ==> !ret
      ensures Takes(chunk) && Owning() ==> ret
      ensures HeaderSent in flags <==> HeaderSent in old(flags) || old(WriteForms(chunk)) != []
      ensures Takes(chunk) && !old(Owning()) ==> !ret
      ensures (ChunkedEncoding in flags) == old(WillChunk()) && (HasBody in flags) == old(WillHaveBody())
    {
      hide HeadOk, BodyOk, Kept, Pending, Gained, TakenForms;
      hide OutgoingMessage.Sound, OutgoingMessage.Now, OutgoingMessage.WillChunk, OutgoingMessage.WillHaveBody;
      hide OutgoingMessage.HeadForms;
      ghost var first, v0 := HeadForms([]), Now();
      d := ImplicitHeader();
      ghost var d', v1 := "", Now();
      ghost var rest := TakenForms(HasBody in flags, HeaderSent in flags, ChunkedEncoding in flags, chunk);
      ret, d' := WriteOn(chunk);
      GainedTwice(v0, v1, Now(), d, d', first, rest);
      d := d + d';
    }

    /** `write` behind the head. */
    method WriteOn(chunk: Option<Item>) returns (ret: bool, ghost d: Bytes)
      requires Valid() && header.Some? && (chunk.Some? ==> ItemOk(chunk.value))
      modifies this, socket
      ensures Valid() && HeadKept() && header.Some?
      ensures Gains(d, old(TakenNow(chunk)))
      ensures flags == old(flags) + if old(TakenNow(chunk)) != [] then {HeaderSent} else {}
      ensures chunks == if Takes(chunk) && Finished !in flags then old(chunks) + [chunk.value.bytes] else old(chunks)
      ensures overrun == (old(overrun) || (Takes(chunk) && Finished in flags))
      ensures HasBody !in flags ==> ret
      ensures HasBody in flags && !Takes(chunk) ==> !ret
      ensures Takes(chunk) && Owning() ==> ret
      ensures Takes(chunk) && !old(Owning()) ==> !ret
    {
      hide HeadOk, BodyOk, Kept, Pending, Gained, BodyForms;
      d := "";
      GainedNothing(Now());
      if HasBody !in flags {
        return true, d;
      }
      if chunk.None? || chunk.value.bytes == "" {
        return false, d;
      }
      ret, d := TakeBody(chunk.value);
    }

    /** What sending some bytes of the body will make of the message. */
    lemma BeforeTaking(data: Bytes)
      requires Valid() && header.Some? && HasBody in flags && data != ""
      ensures header.value != "" && (HeaderSent !in flags ==> output == [] && log.made == "")
      ensures forall resBuf' :: HeadOk(flags + {HeaderSent}, header, resBuf', statusCode, top, date, head)
      ensures forall log': Log, output': seq<Item> |
                && log'.made == (if HeaderSent in flags then log.made else header.value)
                                + Framed(ChunkedEncoding in flags, data)
                && (output' != [] || log'.tried) ::
                if Finished in flags then BodyOk(flags + {HeaderSent}, AsMessage(), log', output', trailer, true)
                else
                  BodyOk(flags + {HeaderSent}, AsMessage().(chunks := chunks + [data]), log', output', trailer, overrun)
    {
      hide HeadOk, BodyOk, Kept, Pending;
      HeaderThere(flags, header, resBuf, statusCode, top, date, head);
      NothingSent(flags, AsMessage(), log, output, trailer, overrun);
      HeadStays(flags, header, resBuf, statusCode, top, date, head);
      BodyTaken(flags, header, resBuf, statusCode, top, date, head, AsMessage(), log, output, trailer, overrun, data);
    }

    /** `write` where the bytes are sent. */
    method TakeBody(item: Item) returns (ret: bool, ghost d: Bytes)
      requires Valid() && header.Some? && HasBody in flags && ItemOk(item) && item.bytes != ""
      modifies `flags, `output, `log, `chunks, `overrun, socket
      ensures Valid() && flags == old(flags) + {HeaderSent}
      ensures Gains(d, BodyForms(HeaderSent in old(flags), ChunkedEncoding in flags, item))
      ensures Finished !in flags ==> chunks == old(chunks) + [item.bytes] && overrun == old(overrun)
      ensures Finished in flags ==> chunks == old(chunks) && overrun
      ensures Owning() ==> ret
      ensures !old(Owning()) ==> !ret
    {
      hide HeadOk, BodyOk, Kept, Pending, Framed, BodyForms, Gained, OutgoingMessage.Now;
      BeforeTaking(item.bytes);
      ret, d := SendBody(item);
      if Finished in flags {
        overrun := true;
      } else {
        chunks := chunks + [item.bytes];
      }
    }

    /** What sending the ending, with or without a last write before it, will make of the message. */
    lemma BeforeEnding(data: Bytes)
      requires Valid() && header.Some? && Finished !in flags
      ensures header.value != "" && (HeaderSent !in flags ==> output == [] && log.made == "" && resBuf == header.value)
      ensures forall resBuf' :: HeadOk(flags + {HeaderSent} + {Finished}, header, resBuf', statusCode, top, date, head)
      ensures forall log': Log, output': seq<Item> |
                && log'.made == (if HeaderSent in flags then log.made else header.value)
                                + Ending(ChunkedEncoding in flags, trailers)
                && (output' != [] || log'.tried) ::
                BodyOk(flags + {HeaderSent} + {Finished}, AsMessage(), log', output', trailer, overrun)
      ensures HasBody in flags && data != "" ==> forall log': Log, output': seq<Item> |
                && log'.made == (if HeaderSent in flags then log.made else header.value)
                                + Framed(ChunkedEncoding in flags, data) + Ending(ChunkedEncoding in flags, trailers)
                && (output' != [] || log'.tried) ::
                BodyOk(flags + {HeaderSent} + {Finished}, AsMessage().(chunks := chunks + [data]), log', output',
                       trailer, overrun)
      ensures trailer == FieldLines(trailers) && (HeaderSent in flags && !log.tried ==> output != [])
      ensures (if HeaderSent in flags then log.made else header.value) + Ending(ChunkedEncoding in flags, trailers)
              == Frame(AsMessage())
    {
      hide HeadOk, Kept, Pending, Ending, Framed, Shape, FieldLines;
      HeaderThere(flags, header, resBuf, statusCode, top, date, head);
      HeadStays(flags, header, resBuf, statusCode, top, date, head);
      WithHead(flags, header, resBuf, statusCode, top, date, head, AsMessage(), log, output, trailer, overrun);
      ShapeGrows(AsMessage(), data);
      ShapeEnds(AsMessage());
      FrameIs(AsMessage());
      ShapeEnds(AsMessage().(chunks := chunks + [data]));
    }

    /** The fast path of `end`: head, body and ending in one write. */
    method EndHot(item: Item, ghost added: seq<Form>) returns (ret: bool, ghost d: Bytes)
      requires Valid() && Owning() && header.Some? && HeaderSent !in flags && Finished !in flags
      requires HasBody in flags && item.bytes != ""
      modifies `flags, `resBuf, `log, `chunks, socket
      ensures Attached() && Kept(log, output) && Gains(d, added) && flags == old(flags) + {HeaderSent}
      ensures output == [] && log.tried && (Owning() ==> !log.lost)
      ensures chunks == old(chunks) + [item.bytes]
      ensures HeadOk(flags + {Finished}, header, resBuf, statusCode, top, date, head)
      ensures BodyOk(flags + {Finished}, AsMessage(), log, output, trailer, overrun)
      ensures ret == Owning() && ret == old(socket.handle && socket.failsAfter != Some(0))
      ensures ret && old(socket.failsAfter).Some? ==> socket.failsAfter == Some(old(socket.failsAfter).value - 1)
    {
      hide HeadOk, BodyOk, Kept, Pending, FieldLines, Framed, Ending, Gained;
      BeforeEnding(item.bytes);
      AppendAll(item.bytes);
      ret, d := WriteHot(added);
      chunks := chunks + [item.bytes];
      flags := flags + {HeaderSent};
    }

    /** The one write of the fast path. */
    method WriteHot(ghost added: seq<Form>) returns (ret: bool, ghost d: Bytes)
      requires Attached() && Kept(log, output) && Owning() && output == [] && !log.lost && log.made == ""
      modifies `log, socket
      ensures Attached() && Kept(log, output) && Gains(d, added)
      ensures log.made == resBuf && log.tried && (Owning() ==> !log.lost)
      ensures ret == Owning() && ret == old(socket.handle && socket.failsAfter != Some(0))
      ensures ret && old(socket.failsAfter).Some? ==> socket.failsAfter == Some(old(socket.failsAfter).value - 1)
    {
      hide Kept, Pending, Gained;
      ghost var before := Now();
      ret := socket.Write(resBuf);
      Written(log, resBuf, ret);
      assert log.made + resBuf == resBuf;
      d := if ret then resBuf else "";
      log := Wrote(log, resBuf, ret).(made := log.made + resBuf);
      NothingGained(old(log).sent, old(socket.wire));
      OwnerGained(before, Now(), d, added);
    }

    /** `resBuf` holds the head already. */
    method AppendAll(data: Bytes)
      requires header.Some? && resBuf == header.value && trailer == FieldLines(trailers)
      modifies `resBuf
      ensures resBuf == header.value + Framed(ChunkedEncoding in flags, data)
                        + Ending(ChunkedEncoding in flags, trailers)
    {
      hide FieldLines, Digits, Framed, Ending;
      HotBytes(header.value, ChunkedEncoding in flags, data, trailers);
      if ChunkedEncoding in flags {
        resBuf := resBuf + Digits(|data|, 16);
        resBuf := resBuf + CRLF;
        resBuf := resBuf + data;
        resBuf := resBuf + "\r\n0\r\n";
        resBuf := resBuf + trailer;
        resBuf := resBuf + CRLF;
      } else {
        resBuf := resBuf + data;
      }
    }

    /** Behind anything else that waits, the last chunk is merged, and queued twice. */
    method SendLastChunk() returns (ret: bool, ghost d: Bytes)
      requires Attached() && Kept(log, output) && EndsInString(output)
      requires header.Some? && header.value != "" && (Owning() ==> output == [] && !log.lost)
      requires HeaderSent !in flags ==> output == [] && log.made == ""
      modifies `flags, `output, `log, socket
      ensures Attached() && Kept(log, output) && flags == old(flags) + {HeaderSent}
      ensures Gains(d, [Form(Str, NoEnc)])
      ensures log.made == (if HeaderSent in old(flags) then old(log).made else header.value)
                          + ("0\r\n" + trailer + CRLF)
      ensures Owning() ==> output == [] && ret && !log.lost
      ensures !old(Owning()) ==> output != []
      ensures old(Owning()) ==> log.tried
      ensures EndsInString(output)
      ensures !old(Owning()) && old(output) != [] && old(log).clean && !log.lost ==>
                log.sent + Pending(output) == log.made + ("0\r\n" + trailer + CRLF)
    {
      hide Kept, Pending, Flows, Joins, Forms;
      var last := Item(Str, "0\r\n" + trailer + CRLF, NoEnc);
      MergedEnding(log, output, last);
      ret, d := Send(last);
    }

    /** The slow path's ending: the last chunk, or nothing. Behind anything else that waits, a last chunk is
        merged, and goes out twice. */
    method SendEnding() returns (ret: bool, ghost d: Bytes)
      requires Valid() && header.Some? && Finished !in flags
      modifies `flags, `output, `log, socket
      ensures Attached() && Kept(log, output) && flags == old(flags) + {HeaderSent}
      ensures Gains(d, EndForms(HeaderSent in old(flags), ChunkedEncoding in flags))
      ensures Owning() ==> output == [] && ret && !log.lost
      ensures HeadOk(flags + {Finished}, header, resBuf, statusCode, top, date, head)
      ensures BodyOk(flags + {Finished}, AsMessage(), log, output, trailer, overrun)
      ensures log.tried ==> socket != null
      ensures output == [] ==> log.tried
      ensures ChunkedEncoding in flags ==> EndsInString(output)
      ensures old(EndsTwice(Now(), ChunkedEncoding in flags, [])) ==> EndingTwice(AsMessage(), log, output)
    {
      hide HeadOk, BodyOk, Kept, Pending, FieldLines, Flows;
      BeforeEnding("");
      EndingIs(trailers);
      NothingGained(if HeaderSent in flags then log.made else header.value, "");
      if ChunkedEncoding in flags {
        ret, d := SendLastChunk();
      } else {
        ret, d := Send(Item(Str, "", NoEnc));
      }
    }

    /** Behind the head: the entries that a write or `end` queues, and when it ends twice. */
    ghost function TakenNow(chunk: Option<Item>): seq<Form>
      reads `flags
    {
      TakenForms(HasBody in flags, HeaderSent in flags, ChunkedEncoding in flags, chunk)
    }

    ghost function EndedNow(data: Option<Item>): seq<Form>
      reads `flags
    {
      EndedForms(HasBody in flags, HeaderSent in flags, ChunkedEncoding in flags, data)
    }

    ghost predicate TwiceNow(data: Option<Item>)
      reads this`flags, this`socket, this`log, this`output, socket
    {
      EndsTwice(Now(), ChunkedEncoding in flags, TakenNow(data))
    }

    /** The same before the head is made. */
    ghost predicate WillTwice(data: Option<Item>)
      reads this, socket
    {
      EndsTwice(Now(), WillChunk(), WriteForms(data))
    }

    /** The slow path of `end`. */
    method EndSlow(given: Option<Item>) returns (ret: bool, ghost d: Bytes)
      requires Valid() && header.Some? && Finished !in flags
      requires given.Some? ==> ItemOk(given.value) && HasBody in flags
      modifies this, socket
      ensures Valid() && HeadKept() && header.Some? && Finished in flags && HeaderSent in flags && !overrun
      ensures Gains(d, old(EndedNow(given)))
      ensures chunks == if Takes(given) then old(chunks) + [given.value.bytes] else old(chunks)
      ensures Owning() ==> ret
      ensures output == [] ==> socket != null && log.tried
      ensures old(TwiceNow(given)) ==> EndingTwice(AsMessage(), log, output)
    {
      hide OutgoingMessage.Sound, Gained, EndForms, BodyForms, EndsTwice, EndingTwice, OutgoingMessage.Now;
      d := "";
      GainedNothing(Now());
      ghost var v0, g := Now(), flags;
      ghost var body := TakenNow(given);
      if given.Some? { ret, d := WriteOn(given); }
      ghost var d', v1 := "", Now();
      EndsTwiceLater(v0, v1, d, ChunkedEncoding in g, body, []);
      assert body + [] == body;
      ret, d' := Conclude();
      GainedTwice(v0, v1, Now(), d, d', body, EndForms(HeaderSent in g || body != [], ChunkedEncoding in g));
      d := d + d';
    }

    /** The ending, and the mark that there is nothing to come. */
    method Conclude() returns (ret: bool, ghost d: Bytes)
      requires Valid() && header.Some? && Finished !in flags
      modifies `flags, `output, `log, socket
      ensures Valid() && HeadKept() && Finished in flags && HeaderSent in flags && !overrun
      ensures Gains(d, EndForms(HeaderSent in old(flags), ChunkedEncoding in old(flags)))
      ensures Owning() ==> ret
      ensures output == [] ==> socket != null && log.tried
      ensures old(EndsTwice(Now(), ChunkedEncoding in flags, [])) ==> EndingTwice(AsMessage(), log, output)
    {
      hide HeadOk, BodyOk, Kept, Pending, Gained, EndForms, EndsTwice, EndingTwice;
      NothingSent(flags, AsMessage(), log, output, trailer, overrun);
      ret, d := SendEnding();
      flags := flags + {Finished};
    }

    /** The first string of a message that owns a writable socket and has sent nothing. */
    predicate Hot(given: Option<Item>)
      reads this, socket
    {
      && HeaderSent !in flags && output == [] && Owning()
      && given.Some? && given.value.kind.Str? && given.value.bytes != ""
    }

    /** The fast path, when it is open, or the slow one. The fast one makes a single write. */
    method EndBody(given: Option<Item>) returns (ret: bool, ghost d: Bytes)
      requires Valid() && header.Some? && Finished !in flags
      requires given.Some? ==> ItemOk(given.value) && HasBody in flags
      modifies this, socket
      ensures Valid() && HeadKept() && header.Some? && Finished in flags && HeaderSent in flags && !overrun
      ensures Gains(d, old(EndedNow(given)))
      ensures chunks == if Takes(given) then old(chunks) + [given.value.bytes] else old(chunks)
      ensures Owning() ==> ret
      ensures output == [] ==> socket != null && log.tried
      ensures old(TwiceNow(given)) ==> EndingTwice(AsMessage(), log, output)
      ensures old(Hot(given)) ==>
                && socket == old(socket) && ret == old(socket.handle && socket.failsAfter != Some(0))
                && (ret && old(socket.failsAfter).Some? ==>
                      socket.failsAfter == Some(old(socket.failsAfter).value - 1))
    {
      hide HeadOk, BodyOk, Kept, Pending, Gained, EndedForms, EndingTwice;
      ghost var forms := EndedForms(HasBody in flags, HeaderSent in flags, ChunkedEncoding in flags, given);
      var hot :=
        && HeaderSent !in flags
        && given.Some? && given.value.kind.Str? && given.value.bytes != ""
        && output == []
        && socket != null && socket.writable && socket.httpMessage == this;
      if hot {
        NothingSent(flags, AsMessage(), log, output, trailer, overrun);
        ret, d := EndHot(given.value, forms);
        flags := flags + {Finished};
      } else {
        ret, d := EndSlow(given);
      }
    }

    /** `end` behind the head. A message without a body drops the data. */
    method EndBehind(data: Option<Item>) returns (ret: bool, ghost d: Bytes)
      requires Valid() && header.Some? && Finished !in flags && (data.Some? ==> ItemOk(data.value))
      modifies this, socket
      ensures Valid() && HeadKept() && header.Some? && Finished in flags && HeaderSent in flags && !overrun
      ensures Gains(d, old(EndedNow(data)))
      ensures chunks == if Takes(data) then old(chunks) + [data.value.bytes] else old(chunks)
      ensures Owning() ==> ret
      ensures output == [] ==> socket != null && log.tried
      ensures old(TwiceNow(data)) ==> EndingTwice(AsMessage(), log, output)
    {
      hide Gained, TakenForms, EndedForms, EndsTwice, EndingTwice, OutgoingMessage.Sound, OutgoingMessage.Now;
      NoBodyNoForms(HasBody in flags, HeaderSent in flags, ChunkedEncoding in flags, data);
      ret, d := EndBody(if HasBody in flags then data else None);
    }

    /** `end` of a message that has not ended, behind its head or with a head of its own. */
    method EndFirst(data: Option<Item>) returns (ret: bool, ghost d: Bytes)
      requires Valid() && (data.Some? ==> ItemOk(data.value)) && Finished !in flags
      modifies this, socket
      ensures Valid() && Gains(d, old(FinishForms(data)))
      ensures HeadKept() && Headed() && Finished in flags && HeaderSent in flags && !overrun
      ensures chunks == if Takes(data) then old(chunks) + [data.value.bytes] else old(chunks)
      ensures output == [] ==> socket != null && log.tried
      ensures (ChunkedEncoding in flags) == old(WillChunk()) && (HasBody in flags) == old(WillHaveBody())
      ensures Owning() ==> ret
      ensures old(WillTwice(data)) ==> EndingTwice(AsMessage(), log, output)
    {
      hide HeadOk, BodyOk, Kept, Pending, Gained, TakenForms, EndsTwice, EndingTwice;
      hide OutgoingMessage.Sound, OutgoingMessage.Now, OutgoingMessage.WillChunk, OutgoingMessage.WillHaveBody;
      hide OutgoingMessage.HeadForms;
      hide EndedForms;
      ghost var v0, first := Now(), HeadForms([]);
      d := ImplicitHeader();
      ghost var d', v1, rest := "", Now(), EndedNow(data);
      EndsTwiceLater(v0, v1, d, ChunkedEncoding in flags, first, TakenNow(data));
      ret, d' := EndBehind(data);
      GainedTwice(v0, v1, Now(), d, d', first, rest);
      d := d + d';
    }

    /** `end`; `data` is `None` for `undefined`. `finishes` says that 'finish' is emitted. Fast path or slow
        path, the message is the head, the writes with `data` as the last one, and the ending; while the
        socket can be written to, all of it has been sent. */
    method End(data: Option<Item>) returns (ret: bool, finishes: bool, ghost d: Bytes)
      requires Valid() && (data.Some? ==> ItemOk(data.value))
      modifies this, socket
      ensures Valid() && Gains(d, old(FinishForms(data)))
      ensures Finished in old(flags) ==> !ret && !finishes && d == "" && unchanged(this)
      ensures Finished !in old(flags) ==>
                && HeadKept() && Headed() && Finished in flags && HeaderSent in flags && !overrun
                && chunks == (if Takes(data) then old(chunks) + [data.value.bytes] else old(chunks))
                && finishes == (output == []) && (finishes ==> socket != null && log.tried)
                && (ChunkedEncoding in flags) == old(WillChunk()) && (HasBody in flags) == old(WillHaveBody())
      ensures Finished !in old(flags) && Owning() ==> finishes && ret
      ensures Finished !in old(flags) && old(WillTwice(data)) ==>
                EndingTwice(AsMessage(), log, output)
    {
      hide Gained, EndingTwice, EndedForms, OutgoingMessage.Sound, OutgoingMessage.Now, OutgoingMessage.WillTwice;
      hide OutgoingMessage.WillChunk, OutgoingMessage.WillHaveBody, OutgoingMessage.HeadForms;
      hide OutgoingMessage.AsMessage, OutgoingMessage.Takes, OutgoingMessage.HeadKept, OutgoingMessage.Headed;
      hide OutgoingMessage.WriteForms;
      finishes, d := false, "";
      if Finished in flags {
        GainedNothing(Now());
        return false, finishes, d;
      }
      ret, d := EndFirst(data);
      Holds();
      finishes := output == [] && socket.httpMessage == this;
    }

    /** A finished message whose output has all gone out: unless the socket refused a write, it is on the wire
        exactly as it should be if and only if nothing was merged and nothing written after its end. If the
        socket did refuse a write, a beginning of it is on the wire. */
    lemma AllSent()
      requires Valid() && Finished in flags && output == []
      ensures !log.lost ==> (log.clean && !overrun <==> log.sent == Frame(AsMessage()))
      ensures log.clean && !overrun ==> log.sent <= Frame(AsMessage())
    {
      hide HeadOk, Frame;
      FrameIs(AsMessage());
      assert log.sent + "" == log.sent && |Pending(output)| == 0;
    }

    /** What has been sent of a message is a beginning of what it is so far. */
    lemma SentSoFar()
      requires Valid() && log.clean && !overrun
      ensures log.sent <= Shape(AsMessage(), HeaderSent in flags, Finished in flags)
    {
      hide HeadOk, Shape;
    }

    /** All that the owner of a writable socket has to send so far has been sent. */
    lemma AllSentSoFar()
      requires Valid() && Owning() && log.clean && !overrun
      ensures log.sent == Shape(AsMessage(), HeaderSent in flags, Finished in flags)
    {
      hide HeadOk, Shape;
      assert log.sent + "" == log.sent && Pending([]) == "";
    }

    /** A message that has never had the socket is kept if and only if no entry of its queue joins the one
        before it; once it has ended, that is, if and only if its queue holds exactly its frame. */
    lemma WaitingIsKept()
      requires Valid() && !log.tried
      ensures log.clean <==> Flows([], Forms(output))
      ensures Finished in flags && !overrun ==> (log.clean <==> Pending(output) == Frame(AsMessage()))
    {
      hide HeadOk, Frame, Pending;
      FrameIs(AsMessage());
      assert "" + Pending(output) == Pending(output);
    }

    // ----- when a message that waits is kept -----

    /** A response in chunks that ends while it waits is kept if and only if its end is all of it. Otherwise
        the last chunk is merged; if nothing else is, it ends twice (`End`). */
    lemma EndedWhileWaiting(data: Option<Item>)
      requires Valid() && !Owning() && log.clean && !log.lost && Finished !in flags && WillChunk()
      ensures Flows(Forms(output), FinishForms(data)) <==> output == [] && WriteForms(data) == []
      ensures !Flows(Forms(output), FinishForms(data)) ==>
                (EndsTwice(Now(), true, WriteForms(data)) <==> Flows(Forms(output), WriteForms(data)))
    {
      hide Kept, Flows, Joins, BodyForms, PlanFor, Values, Shape, Head, NonEmpty, FieldLines;
      hide OutgoingMessage.WillHaveBody;
      var first := HeadForms([]);
      LastIsString(Forms(output), first, WillHaveBody(), HeaderSent in flags || first != [], data);
    }

    /** A response that is not sent in chunks is kept by its end if and only if it is kept by the last
        write. */
    lemma PlainEnd(data: Option<Item>)
      requires Valid() && Finished !in flags && !WillChunk()
      ensures Flows(Forms(output), FinishForms(data)) <==> Flows(Forms(output), WriteForms(data))
    {
      hide HeadOk, BodyOk, Kept, Flows, BodyForms, OutgoingMessage.WillChunk, OutgoingMessage.WillHaveBody;
      NothingSent(flags, AsMessage(), log, output, trailer, overrun);
      HeaderFlows(Forms(output), HeadForms([]), WillHaveBody(), HeaderSent in flags, data);
    }

    /** A write to a response that is not sent in chunks, behind what waits already. */
    lemma PlainWrite(item: Item)
      requires Valid() && HeaderSent in flags && ChunkedEncoding !in flags && HasBody in flags && item.bytes != ""
      ensures Flows(Forms(output), WriteForms(Some(item))) <==>
                output == [] || !Joins(FormOf(output[|output| - 1]), FormOf(item))
    {
      hide BodyOk, Kept, Flows, Joins;
      FlowsOne(Forms(output), FormOf(item));
      assert [] + [FormOf(item)] == [FormOf(item)];
    }

    /** The first end sends the header, if that has not gone out; a second end sends nothing. */
    lemma EndSends(data: Option<Item>)
      requires Valid()
      ensures if Finished in flags then FinishForms(data) == [] else HeaderSent in flags || FinishForms(data) != []
    {
      hide HeadOk, BodyOk, Kept, BodyForms, OutgoingMessage.WillChunk, OutgoingMessage.WillHaveBody;
    }

    lemma Holds()
      requires Valid()
      ensures Attached() && (header.None? ==> Finished !in flags && HeaderSent !in flags)
      ensures overrun ==> Finished in flags
    {
    }

    /** A response on a connection that is kept alive: it is delimited if and only if a body that is not sent
        in chunks has the announced length, and a response without a body is not sent in chunks. */
    lemma KeptAliveIsDelimited()
      requires Valid() && header.Some? && Last !in flags && LengthFieldsOk(top.user)
      ensures var cl := Values(top.user, ContentLengthKey);
              Delimited(AsMessage()) <==>
                if HasBody !in flags then ChunkedEncoding !in flags
                else ChunkedEncoding in flags || (cl != [] && Number(cl[0], 10) == Some(|Flat(chunks)|))
    {
      hide Kept, Values, Number, Shape, PlanFor, FieldLines;
      PlanIsDelimited(top.user, if SendDate in flags then Some(date) else None, head, statusCode, top.keptAlive,
                      UseChunkedByDefault in flags);
    }

    /** `flush`, for a message that has just got the socket. */
    method Flush() returns (event: Event, ghost d: Bytes)
      requires Sound() && socket != null && !log.lost
      modifies `output, `log, socket
      ensures Valid() && Gains(d, []) && log.made == old(log).made && log.clean == old(log).clean
      ensures event == Finish <==> output == [] && Finished in flags
      ensures event == Drained <==> Owning() && Finished !in flags && old(output) != []
      ensures Owning() ==> output == [] && d == Pending(old(output))
      ensures !old(Owning()) ==> log == old(log) && output == old(output)
      ensures old(output) == [] ==> d == "" && log == old(log) && Owning() == old(Owning())
    {
      hide HeadOk, Kept, Pending, Shape, FieldLines;
      var done, ret;
      event := Nothing;
      done, ret, d := Drain();
      if done {
        if Finished in flags {
          event := Finish;
        } else if ret {
          event := Drained;
        }
      }
    }

    /** `assignSocket`: the message becomes the socket's owner and flushes. */
    method AssignSocket(s: Socket) returns (event: Event, ghost d: Bytes)
      requires Valid() && s.Valid() && s.httpMessage == null && socket == null && !log.lost
      modifies this, s
      ensures Valid() && socket == s && s.Valid() && s.httpMessage == this
      ensures log.sent == old(log).sent + d && s.wire == old(s.wire) + d && log.made == old(log).made
      ensures event == Finish <==> output == [] && Finished in flags
      ensures s.writable ==> old(s.writable) && output == [] && d == Pending(old(output))
      ensures !old(s.writable) ==> d == "" && log == old(log) && output == old(output)
      ensures flags == old(flags) && header == old(header) && chunks == old(chunks) && overrun == old(overrun)
      ensures top == old(top) && statusCode == old(statusCode) && preset == old(preset) && trailers == old(trailers)
      ensures AsMessage() == old(AsMessage()) && log.clean == old(log).clean
      ensures old(s.writable) && !s.writable ==> log.lost
      ensures old(output) == [] ==> d == "" && log == old(log) && s.writable == old(s.writable)
      ensures (s.handle ==> old(s.handle) && log.lost == old(log).lost) && (old(s.Sure()) ==> s.Sure())
    {
      hide HeadOk, BodyOk, Kept, Pending;
      s.httpMessage := this;
      socket := s;
      event, d := Flush();
    }

    /** `detachSocket`, after 'finish'. */
    method DetachSocket(s: Socket)
      requires Valid() && socket == s && Finished in flags
      modifies `socket, s`httpMessage
      ensures Valid() && socket == null && s.httpMessage == null && s.Valid() && AsMessage() == old(AsMessage())
    {
      hide HeadOk, BodyOk, Kept, Pending;
      s.httpMessage := null;
      socket := null;
    }
  }

  /** Whatever string a response in chunks is ended with while it waits, its ending waits twice. */
  method EndedTwice(data: Bytes, enc: Enc, keepAlive: bool, phrase: string, date: string)
    returns (m: OutgoingMessage)
    requires data != ""
    ensures fresh(m) && m.Valid() && m.chunks == [data] && m.log.sent == "" && m.phrase == phrase && m.date == date
    ensures Pending(m.output) == Frame(m.AsMessage()) + LastChunk([])
  {
    hide HeadOk, BodyOk, Kept, Pending, Frame, LastChunk;
    m := new OutgoingMessage(false, true, keepAlive, phrase, date);
    m.EndedWhileWaiting(Some(Item(Str, data, enc)));
    FlowsOne([], Form(Str, enc));
    assert m.WriteForms(Some(Item(Str, data, enc))) == [Form(Str, enc)];
    ghost var d;
    var ret, finishes;
    ret, finishes, d := m.End(Some(Item(Str, data, enc)));
    assert "" + Pending(m.output) == Pending(m.output);
  }
}

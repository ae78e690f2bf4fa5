/** The bytes of an HTTP/1.1 response as include/libnode/detail/http/outgoing_message.h writes them, and
    a reader that follows sections 3 and 4.1 of RFC 7230. A string holds one character for each byte. */
module HttpFraming {
  import opened Text
  import opened Wrappers

  type Bytes = string

  const CRLF := "\r\n"

  datatype Field = Field(name: string, value: string)

  datatype Response = Response(code: nat, reason: string, fields: seq<Field>, body: Bytes, trailers: seq<Field>)

  // ----- writing -----

  function Digit(d: nat): char
    requires d < 16
  {
    "0123456789abcdef"[d]
  }

  /** `n` in base 10 or 16, without leading zeros. */
  function Digits(n: nat, base: nat): string
    requires base == 10 || base == 16
  {
    if n < base then [Digit(n)] else Digits(n / base, base) + [Digit(n % base)]
  }

  function FieldLine(f: Field): Bytes { f.name + ": " + f.value + CRLF }

  function FieldLines(fs: seq<Field>): Bytes {
    if fs == [] then "" else FieldLine(fs[0]) + FieldLines(fs[1..])
  }

  function StatusLine(code: nat, reason: string): Bytes { "HTTP/1.1 " + Digits(code, 10) + " " + reason }

  function Head(code: nat, reason: string, fields: seq<Field>): Bytes {
    StatusLine(code, reason) + CRLF + FieldLines(fields) + CRLF
  }

  function Chunk(data: Bytes): Bytes { Digits(|data|, 16) + CRLF + data + CRLF }

  function Chunks(ds: seq<Bytes>): Bytes { if ds == [] then "" else Chunks(ds[..|ds| - 1]) + Chunk(ds[|ds| - 1]) }

  function Flat(ds: seq<Bytes>): Bytes { if ds == [] then "" else Flat(ds[..|ds| - 1]) + ds[|ds| - 1] }

  /** The body as it goes out: in chunks, or as it is. */
  function Body(chunked: bool, ds: seq<Bytes>): Bytes { if chunked then Chunks(ds) else Flat(ds) }

  function LastChunk(trailers: seq<Field>): Bytes { "0" + CRLF + FieldLines(trailers) + CRLF }

  /** What ends the message. */
  function Ending(chunked: bool, trailers: seq<Field>): Bytes { if chunked then LastChunk(trailers) else "" }

  // ----- reading -----

  function Lower(s: string): string { seq(|s|, i requires 0 <= i < |s| => LowerChar(s[i])) }

  function LowerChar(c: char): char { if 'A' <= c <= 'Z' then c - 'A' + 'a' else c }

  /** The capital letters become small ones, one by one, and nothing else changes. */
  lemma LowerCharIs(c: char)
    ensures forall i | 0 <= i < 26 ::
              LowerChar("ABCDEFGHIJKLMNOPQRSTUVWXYZ"[i]) == "abcdefghijklmnopqrstuvwxyz"[i]
    ensures c !in "ABCDEFGHIJKLMNOPQRSTUVWXYZ" ==> LowerChar(c) == c
  {
  }

  function DigitValue(c: char): Option<nat> {
    if '0' <= c <= '9' then Some((c - '0') as nat)
    else if 'a' <= c <= 'f' then Some((c - 'a') as nat + 10)
    else if 'A' <= c <= 'F' then Some((c - 'A') as nat + 10)
    else None
  }

  function Number(s: string, base: nat): Option<nat> {
    if s == "" then None
    else
      var d := DigitValue(s[|s| - 1]);
      if d.None? || d.value >= base then None
      else if |s| == 1 then d
      else
        var high := Number(s[..|s| - 1], base);
        if high.None? then None else Some(high.value * base + d.value)
  }

  /** The first line of `w` and what follows its CRLF. */
  function NextLine(w: Bytes, from: nat): Option<(string, Bytes)>
    requires from <= |w|
    decreases |w| - from
  {
    if from + 2 > |w| then None
    else if w[from..from + 2] == CRLF then Some((w[..from], w[from + 2..]))
    else NextLine(w, from + 1)
  }

  predicate Blank(c: char) { c == ' ' || c == '\t' }

  function TrimLeft(s: string): string { if s != "" && Blank(s[0]) then TrimLeft(s[1..]) else s }

  function TrimRight(s: string): string { if s != "" && Blank(s[|s| - 1]) then TrimRight(s[..|s| - 1]) else s }

  /** `field-name ":" OWS field-value OWS` */
  function ReadField(line: string): Option<Field> {
    var i := IndexOf(line, ':', 0);
    if i <= 0 then None else Some(Field(line[..i], TrimRight(TrimLeft(line[i + 1..]))))
  }

  /** Field lines up to the empty line. */
  function ReadFields(w: Bytes): Option<(seq<Field>, Bytes)>
    decreases |w|
  {
    match NextLine(w, 0)
    case None => None
    case Some((line, rest)) =>
      NextLineShorter(w, 0);
      if line == "" then Some(([], rest))
      else
        match ReadField(line)
        case None => None
        case Some(f) =>
          match ReadFields(rest)
          case None => None
          case Some((fs, rest')) => Some(([f] + fs, rest'))
  }

  lemma {:induction false} NextLineShorter(w: Bytes, from: nat)
    requires from <= |w|
    ensures NextLine(w, from).Some? ==> |NextLine(w, from).value.1| < |w|
    decreases |w| - from
  {
    if from + 2 <= |w| && w[from..from + 2] != CRLF { NextLineShorter(w, from + 1); }
  }

  function ReadStatus(line: string): Option<(nat, string)> {
    if |line| < 9 || line[..9] != "HTTP/1.1 " then None
    else
      var i := IndexOf(line, ' ', 9);
      if i == -1 then None
      else
        match Number(line[9..i], 10)
        case None => None
        case Some(code) => Some((code, line[i + 1..]))
  }

  /** Chunks up to the last one, then the trailer. */
  function ReadChunks(w: Bytes): Option<(Bytes, seq<Field>, Bytes)>
    decreases |w|
  {
    match NextLine(w, 0)
    case None => None
    case Some((line, rest)) =>
      NextLineShorter(w, 0);
      match Number(line, 16)
      case None => None
      case Some(n) =>
        if n == 0 then
          match ReadFields(rest)
          case None => None
          case Some((fs, rest')) => Some(("", fs, rest'))
        else if n + 2 > |rest| || rest[n..n + 2] != CRLF then None
        else
          match ReadChunks(rest[n + 2..])
          case None => None
          case Some((body, fs, rest')) => Some((rest[..n] + body, fs, rest'))
  }

  /** The field names that matter here; names are compared without case. */
  datatype Key = ConnectionKey | TransferEncodingKey | ContentLengthKey | DateKey | ExpectKey | OtherKey

  function KeyOf(name: string): Key {
    var n := Lower(name);
    if n == "connection" then ConnectionKey
    else if n == "transfer-encoding" then TransferEncodingKey
    else if n == "content-length" then ContentLengthKey
    else if n == "date" then DateKey
    else if n == "expect" then ExpectKey
    else OtherKey
  }

  /** The names as the program spells them; a name that is spelled otherwise, but for its case, is none of
      them. */
  lemma KeyNames(name: string)
    ensures KeyOf("Connection") == ConnectionKey && KeyOf("Transfer-Encoding") == TransferEncodingKey
    ensures KeyOf("Content-Length") == ContentLengthKey && KeyOf("Date") == DateKey && KeyOf("Expect") == ExpectKey
    ensures KeyOf(name) == OtherKey <==>
              Lower(name) !in {"connection", "transfer-encoding", "content-length", "date", "expect"}
    ensures forall other | Lower(other) == Lower(name) :: KeyOf(other) == KeyOf(name)
  {
    assert Lower("Connection") == "connection" && Lower("Transfer-Encoding") == "transfer-encoding";
    assert Lower("Content-Length") == "content-length" && Lower("Date") == "date" && Lower("Expect") == "expect";
  }

  function Values(fields: seq<Field>, key: Key): seq<string> {
    if fields == [] then []
    else if KeyOf(fields[0].name) == key then [fields[0].value] + Values(fields[1..], key)
    else Values(fields[1..], key)
  }

  /** How the length of the body is found (section 3.3.3). */
  datatype Length = NoBody | InChunks | Exactly(n: nat) | UntilClose

  function BodyLength(head: bool, code: nat, fields: seq<Field>): Length {
    var te, cl := Values(fields, TransferEncodingKey), Values(fields, ContentLengthKey);
    if head || 100 <= code < 200 || code == 204 || code == 304 then NoBody
    else if te != [] then (if Lower(te[|te| - 1]) == "chunked" then InChunks else UntilClose)
    else if |cl| == 1 && Number(cl[0], 10).Some? then Exactly(Number(cl[0], 10).value)
    else UntilClose
  }

  /** One response and the bytes after it; `None` for bytes that do not hold a complete response whose
      end is known. `head` says that the request was a HEAD request. */
  function Read(head: bool, w: Bytes): Option<(Response, Bytes)> {
    match NextLine(w, 0)
    case None => None
    case Some((line, rest)) =>
      match ReadStatus(line)
      case None => None
      case Some((code, reason)) =>
        match ReadFields(rest)
        case None => None
        case Some((fields, rest')) => ReadBody(code, reason, fields, BodyLength(head, code, fields), rest')
  }

  function ReadBody(code: nat, reason: string, fields: seq<Field>, length: Length, w: Bytes)
    : Option<(Response, Bytes)>
  {
    match length
    case NoBody => Some((Response(code, reason, fields, "", []), w))
    case InChunks =>
      (match ReadChunks(w)
       case None => None
       case Some((body, trailers, rest)) => Some((Response(code, reason, fields, body, trailers), rest)))
    case Exactly(n) => if n <= |w| then Some((Response(code, reason, fields, w[..n], []), w[n..])) else None
    case UntilClose => None
  }

  // ----- what the reader needs of the texts -----

  predicate OneLine(s: string) { '\r' !in s && '\n' !in s }

  predicate Trimmed(s: string) { s == "" || (!Blank(s[0]) && !Blank(s[|s| - 1])) }

  predicate FieldOk(f: Field) {
    && f.name != "" && ':' !in f.name && OneLine(f.name)
    && OneLine(f.value) && Trimmed(f.value)
  }

  predicate FieldsOk(fs: seq<Field>) { forall i | 0 <= i < |fs| :: FieldOk(fs[i]) }

  // ----- reading back what was written -----

  lemma DigitsSplit(n: nat, base: nat)
    requires base == 10 || base == 16
    ensures n / base * base + n % base == n && (n >= base ==> 0 < n / base < n) && n % base < base
  {
    if base == 10 {
      assert n / 10 * 10 + n % 10 == n;
    } else {
      assert n / 16 * 16 + n % 16 == n;
    }
  }

  lemma DigitReads(d: nat)
    requires d < 16
    ensures DigitValue(Digit(d)) == Some(d) && Digit(d) != '\r' && Digit(d) != ' '
  {
  }

  lemma NumberSnoc(s: string, c: char, base: nat)
    requires s != "" && DigitValue(c).Some? && DigitValue(c).value < base && Number(s, base).Some?
    ensures Number(s + [c], base) == Some(Number(s, base).value * base + DigitValue(c).value)
  {
    assert (s + [c])[..|s|] == s;
  }

  lemma {:induction false} NumberDigits(n: nat, base: nat)
    requires base == 10 || base == 16
    ensures Number(Digits(n, base), base) == Some(n)
    ensures '\r' !in Digits(n, base) && ' ' !in Digits(n, base) && Digits(n, base) != ""
  {
    hide DigitValue, Digit;
    DigitsSplit(n, base);
    if n >= base {
      var high, d := n / base, n % base;
      DigitReads(d);
      NumberDigits(high, base);
      NumberSnoc(Digits(high, base), Digit(d), base);
    } else {
      DigitReads(n);
    }
  }

  /** Only small hexadecimal digits are printed, decimal ones in base 10, and no zero in front. */
  lemma {:induction false} DigitsPlain(n: nat, base: nat)
    requires base == 10 || base == 16
    ensures forall k | 0 <= k < |Digits(n, base)| ::
              Digits(n, base)[k] in (if base == 10 then "0123456789" else "0123456789abcdef")
    ensures Digits(n, base) == "0" || (Digits(n, base) != "" && Digits(n, base)[0] != '0')
  {
    DigitsSplit(n, base);
    DigitIs(n % base);
    if n >= base {
      DigitsPlain(n / base, base);
      assert n / base < base ==> n / base > 0;
      if n / base < base { DigitIs(n / base); }
      hide Digit;
    } else {
      DigitIs(n);
    }
  }

  lemma DigitIs(d: nat)
    requires d < 16
    ensures Digit(d) in "0123456789abcdef" && (d < 10 ==> Digit(d) in "0123456789") && (Digit(d) == '0' <==> d == 0)
  {
    assert d < 10 ==> Digit(d) == "0123456789"[d];
  }

  lemma {:induction false} NextLineIs(line: string, rest: Bytes, from: nat)
    requires '\r' !in line && from <= |line|
    ensures NextLine(line + CRLF + rest, from) == Some((line, rest))
    decreases |line| - from
  {
    var w := line + CRLF + rest;
    if from < |line| {
      assert w[from] == line[from];
      assert w[from..from + 2][0] != CRLF[0];
      NextLineIs(line, rest, from + 1);
    } else {
      assert w[from..from + 2] == CRLF;
      assert w[..from] == line && w[from + 2..] == rest;
    }
  }

  // ----- what the reader takes for a digit, a number and a field -----

  /** Both cases of a hexadecimal digit have its value... */
  lemma DigitValueIs(d: nat)
    requires d < 16
    ensures DigitValue("0123456789abcdef"[d]) == Some(d) == DigitValue("0123456789ABCDEF"[d])
  {
    DigitPrinted(d);
  }

  lemma DigitPrinted(d: nat)
    requires d < 16
    ensures "0123456789abcdef"[d] == (if d < 10 then '0' + d as char else 'a' + (d - 10) as char)
    ensures "0123456789ABCDEF"[d] == (if d < 10 then '0' + d as char else 'A' + (d - 10) as char)
  {
  }

  /** ... and nothing else has one. */
  lemma NoDigitValue(c: char)
    requires c !in {'0', '1', '2', '3', '4', '5', '6', '7', '8', '9'}
    requires c !in {'a', 'b', 'c', 'd', 'e', 'f', 'A', 'B', 'C', 'D', 'E', 'F'}
    ensures DigitValue(c) == None
  {
  }

  /** A number is a non-empty row of digits of the base. */
  lemma {:induction false} NumberIs(s: string, base: nat)
    ensures Number(s, base).Some? <==>
              s != "" && forall k | 0 <= k < |s| :: DigitValue(s[k]).Some? && DigitValue(s[k]).value < base
  {
    hide DigitValue;
    if |s| > 1 { NumberIs(s[..|s| - 1], base); }
  }

  predicate AllBlank(s: string) { forall k | 0 <= k < |s| :: s[k] == ' ' || s[k] == '\t' }

  lemma {:induction false} TrimsLeft(a: string, s: string)
    requires AllBlank(a) && (s == "" || !Blank(s[0]))
    ensures TrimLeft(a + s) == s
  {
    if a == "" {
      assert a + s == s;
    } else {
      assert (a + s)[1..] == a[1..] + s && (a + s)[0] == a[0];
      TrimsLeft(a[1..], s);
    }
  }

  lemma {:induction false} TrimsRight(s: string, b: string)
    requires AllBlank(b) && (s == "" || !Blank(s[|s| - 1]))
    ensures TrimRight(s + b) == s
  {
    if b == "" {
      assert s + b == s;
    } else {
      var front := b[..|b| - 1];
      assert (s + b)[..|s + b| - 1] == s + front && (s + b)[|s + b| - 1] == b[|b| - 1];
      TrimsRight(s, front);
    }
  }

  /** Blanks are allowed around a value, as spaces and as tabs, and are no part of it; a line is no field without
      a colon or without a name. */
  lemma FieldSyntax(f: Field, a: string, b: string, line: string)
    requires f.name != "" && ':' !in f.name && Trimmed(f.value) && AllBlank(a) && AllBlank(b)
    ensures ReadField(f.name + ":" + a + f.value + b) == Some(f)
    ensures ReadField(line).None? <==> ':' !in line || line[0] == ':'
  {
    hide TrimLeft, TrimRight;
    var whole := f.name + ":" + a + f.value + b;
    IndexOfIs(whole, ':', 0, |f.name|);
    assert whole[..|f.name|] == f.name && whole[|f.name| + 1..] == a + f.value + b;
    Regrouped(a, f.value, b);
    if f.value == "" {
      assert AllBlank(a + b) && a + (f.value + b) == (a + b) + "" && "" + "" == "";
      TrimsLeft(a + b, "");
      TrimsRight("", "");
    } else {
      TrimsLeft(a, f.value + b);
      TrimsRight(f.value, b);
    }
    IndexOfFirst(line, ':', 0);
  }

  /** The reader compares the transfer coding without case. */
  lemma CodingSpelling(code: nat)
    requires !(100 <= code < 200) && code != 204 && code != 304
    ensures BodyLength(false, code, [Field("Transfer-Encoding", "Chunked")]) == InChunks
    ensures BodyLength(false, code, [Field("transfer-encoding", "gzip")]) == UntilClose
  {
    KeyNames("transfer-encoding");
    assert Lower("transfer-encoding") == "transfer-encoding" && Lower("Transfer-Encoding") == "transfer-encoding";
    assert Lower("Chunked") == "chunked" && Lower("gzip") == "gzip";
    var c, g := [Field("Transfer-Encoding", "Chunked")], [Field("transfer-encoding", "gzip")];
    assert c[1..] == [] && g[1..] == [];
    assert Values(c, TransferEncodingKey) == ["Chunked"] && Values(g, TransferEncodingKey) == ["gzip"];
  }

  lemma ReadFieldLine(f: Field)
    requires FieldOk(f)
    ensures ReadField(f.name + ": " + f.value) == Some(f) && '\r' !in f.name + ": " + f.value
    ensures f.name + ": " + f.value != ""
  {
    var line := f.name + ": " + f.value;
    IndexOfIs(line, ':', 0, |f.name|);
    assert line[..|f.name|] == f.name;
    assert line[|f.name| + 1..] == " " + f.value;
    assert (" " + f.value)[1..] == f.value;
    assert TrimLeft(" " + f.value) == TrimLeft(f.value) == f.value;
  }

  lemma FirstLine(fs: seq<Field>, rest: Bytes)
    requires fs != []
    ensures FieldLines(fs) + CRLF + rest
            == (fs[0].name + ": " + fs[0].value) + CRLF + (FieldLines(fs[1..]) + CRLF + rest)
  {
    var more := FieldLines(fs[1..]);
    assert FieldLines(fs) == FieldLine(fs[0]) + more;
    hide FieldLines;
  }

  lemma {:induction false} ReadFieldsBack(fs: seq<Field>, rest: Bytes)
    requires FieldsOk(fs)
    ensures ReadFields(FieldLines(fs) + CRLF + rest) == Some((fs, rest))
  {
    if fs == [] {
      assert FieldLines(fs) + CRLF + rest == "" + CRLF + rest;
      NextLineIs("", rest, 0);
    } else {
      var f := fs[0];
      var line, tail := f.name + ": " + f.value, FieldLines(fs[1..]) + CRLF + rest;
      ReadFieldLine(f);
      FirstLine(fs, rest);
      NextLineIs(line, tail, 0);
      ReadFieldsBack(fs[1..], rest);
      hide FieldLines, NextLine, ReadField;
      assert fs == [f] + fs[1..];
    }
  }

  lemma ReadStatusBack(code: nat, reason: string)
    ensures ReadStatus(StatusLine(code, reason)) == Some((code, reason))
  {
    hide Digits, Number;
    var line, digits := StatusLine(code, reason), Digits(code, 10);
    NumberDigits(code, 10);
    assert line == "HTTP/1.1 " + digits + " " + reason;
    assert forall k | 9 <= k < 9 + |digits| :: line[k] == digits[k - 9];
    IndexOfIs(line, ' ', 9, 9 + |digits|);
    assert line[9..9 + |digits|] == digits && line[9 + |digits| + 1..] == reason;
  }

  /** The head is read back whole, each field once, and reading stops behind it. */
  lemma ReadHead(head: bool, code: nat, reason: string, fields: seq<Field>, w: Bytes)
    requires FieldsOk(fields) && OneLine(reason)
    ensures Read(head, Head(code, reason, fields) + w)
            == ReadBody(code, reason, fields, BodyLength(head, code, fields), w)
  {
    var line, tail := StatusLine(code, reason), FieldLines(fields) + CRLF + w;
    assert Head(code, reason, fields) + w == line + CRLF + tail;
    NumberDigits(code, 10);
    NextLineIs(line, tail, 0);
    ReadStatusBack(code, reason);
    ReadFieldsBack(fields, w);
  }

  // ----- chunks -----

  lemma ChunksSnoc(ds: seq<Bytes>, d: Bytes)
    ensures Chunks(ds + [d]) == Chunks(ds) + Chunk(d) && Flat(ds + [d]) == Flat(ds) + d
    ensures Chunks([]) == "" == Flat([])
  {
    hide Chunk;
    assert (ds + [d])[..|ds|] == ds;
  }

  lemma {:induction false} ChunksCons(d: Bytes, ds: seq<Bytes>)
    ensures Chunks([d] + ds) == Chunk(d) + Chunks(ds) && Flat([d] + ds) == d + Flat(ds)
  {
    hide Chunk, Chunks, Flat;
    if ds == [] {
      ChunksSnoc([], d);
      assert [d] + ds == [] + [d];
      assert "" + Chunk(d) == Chunk(d) + "" && "" + d == d + "";
    } else {
      var front, last := ds[..|ds| - 1], ds[|ds| - 1];
      ChunksCons(d, front);
      ChunksSnoc(front, last);
      ChunksSnoc([d] + front, last);
      assert ds == front + [last];
      Text.Regrouped([d], front, [last]);
      Text.Regrouped(Chunk(d), Chunks(front), Chunk(last));
      Text.Regrouped(d, Flat(front), last);
    }
  }

  lemma ReadOneChunk(d: Bytes, w: Bytes)
    requires d != ""
    ensures ReadChunks(Chunk(d) + w)
            == match ReadChunks(w) case None => None case Some((body, fs, rest)) => Some((d + body, fs, rest))
  {
    var size := Digits(|d|, 16);
    var tail := d + CRLF + w;
    assert Chunk(d) + w == size + CRLF + tail;
    NumberDigits(|d|, 16);
    NextLineIs(size, tail, 0);
    assert tail[|d|..|d| + 2] == CRLF && tail[|d| + 2..] == w && tail[..|d|] == d;
  }

  lemma ReadLastChunk(trailers: seq<Field>, rest: Bytes)
    requires FieldsOk(trailers)
    ensures ReadChunks(LastChunk(trailers) + rest) == Some(("", trailers, rest))
  {
    hide FieldLines, FieldsOk, ReadFields, NextLine, Number;
    var tail := FieldLines(trailers) + CRLF + rest;
    assert LastChunk(trailers) + rest == "0" + CRLF + tail;
    NextLineIs("0", tail, 0);
    ReadFieldsBack(trailers, rest);
    ZeroReads();
  }

  lemma ZeroReads()
    ensures Number("0", 16) == Some(0)
  {
  }

  lemma {:induction false} ReadChunksBack(ds: seq<Bytes>, trailers: seq<Field>, rest: Bytes)
    requires FieldsOk(trailers) && forall i | 0 <= i < |ds| :: ds[i] != ""
    ensures ReadChunks(Chunks(ds) + LastChunk(trailers) + rest) == Some((Flat(ds), trailers, rest))
  {
    hide ReadChunks, LastChunk, Chunk;
    if ds == [] {
      ReadLastChunk(trailers, rest);
      assert Chunks(ds) + LastChunk(trailers) == LastChunk(trailers);
    } else {
      var d, more := ds[0], ds[1..];
      assert ds == [d] + more;
      ChunksCons(d, more);
      ReadChunksBack(more, trailers, rest);
      ReadOneChunk(d, Chunks(more) + LastChunk(trailers) + rest);
      Regroup(Chunk(d), Chunks(more), LastChunk(trailers), rest);
    }
  }

  lemma Regroup(a: Bytes, b: Bytes, c: Bytes, d: Bytes)
    ensures a + b + c + d == a + (b + c + d)
  {
  }

  // ----- whole messages -----

  /** A finished message: the fields of its head, how the sender framed it, and what was written. */
  datatype Message = Message(head: bool, code: nat, reason: string, fields: seq<Field>,
                             chunked: bool, chunks: seq<Bytes>, trailers: seq<Field>)

  function Frame(m: Message): Bytes {
    Head(m.code, m.reason, m.fields) + Body(m.chunked, m.chunks) + Ending(m.chunked, m.trailers)
  }

  function Meaning(m: Message): Response {
    Response(m.code, m.reason, m.fields, Flat(m.chunks), if m.chunked then m.trailers else [])
  }

  predicate TextsOk(m: Message) {
    && OneLine(m.reason) && FieldsOk(m.fields) && FieldsOk(m.trailers)
    && forall i | 0 <= i < |m.chunks| :: m.chunks[i] != ""
  }

  /** The reader finds the length that the sender framed by: nothing after the head of a response
      without a body, chunks, or an exact Content-Length. */
  predicate Delimited(m: Message) {
    match BodyLength(m.head, m.code, m.fields)
    case NoBody => !m.chunked && m.chunks == []
    case InChunks => m.chunked
    case Exactly(n) => !m.chunked && n == |Flat(m.chunks)|
    case UntilClose => false
  }

  /** A delimited message is read back whole, and reading stops exactly at its end. */
  lemma ReadBack(m: Message, rest: Bytes)
    requires TextsOk(m) && Delimited(m)
    ensures Read(m.head, Frame(m) + rest) == Some((Meaning(m), rest))
  {
    var after := Body(m.chunked, m.chunks) + Ending(m.chunked, m.trailers) + rest;
    assert Frame(m) + rest == Head(m.code, m.reason, m.fields) + after;
    ReadHead(m.head, m.code, m.reason, m.fields, after);
    match BodyLength(m.head, m.code, m.fields) {
      case NoBody => assert after == rest;
      case InChunks => ReadChunksBack(m.chunks, m.trailers, rest);
      case Exactly(n) =>
        assert after == Flat(m.chunks) + rest;
        assert after[..n] == Flat(m.chunks) && after[n..] == rest;
    }
  }

  function Frames(ms: seq<Message>): Bytes {
    if ms == [] then "" else Frame(ms[0]) + Frames(ms[1..])
  }

  /** The reader run over a connection, told for each response whether it answers a HEAD request. */
  function ReadAll(heads: seq<bool>, w: Bytes): Option<(seq<Response>, Bytes)>
    decreases |heads|
  {
    if heads == [] then Some(([], w))
    else
      match Read(heads[0], w)
      case None => None
      case Some((r, rest)) =>
        match ReadAll(heads[1..], rest)
        case None => None
        case Some((rs, rest')) => Some(([r] + rs, rest'))
  }

  function Heads(ms: seq<Message>): seq<bool> { seq(|ms|, i requires 0 <= i < |ms| => ms[i].head) }

  function Meanings(ms: seq<Message>): seq<Response> {
    seq(|ms|, i requires 0 <= i < |ms| => Meaning(ms[i]))
  }

  /** A whole connection: every response is recovered, in order, and nothing is left over. */
  lemma {:induction false} ReadAllBack(ms: seq<Message>, rest: Bytes)
    requires forall i | 0 <= i < |ms| :: TextsOk(ms[i]) && Delimited(ms[i])
    ensures ReadAll(Heads(ms), Frames(ms) + rest) == Some((Meanings(ms), rest))
  {
    hide Read, Frame, Meaning, TextsOk, Delimited;
    if ms == [] {
      assert Frames(ms) + rest == rest;
    } else {
      var tail := Frames(ms[1..]) + rest;
      assert Frames(ms) + rest == Frame(ms[0]) + tail;
      assert Heads(ms)[0] == ms[0].head;
      ReadBack(ms[0], tail);
      ReadAllBack(ms[1..], rest);
      assert Heads(ms)[1..] == Heads(ms[1..]);
      assert Meanings(ms) == [Meaning(ms[0])] + Meanings(ms[1..]);
    }
  }

  /** Reading fields or chunks takes bytes off, and chunks take more than they hold. */
  lemma {:induction false} ReadFieldsShorter(w: Bytes)
    ensures ReadFields(w).Some? ==> |ReadFields(w).value.1| < |w|
    decreases |w|
  {
    NextLineShorter(w, 0);
    match NextLine(w, 0) {
      case None =>
      case Some((line, rest)) => if line != "" { ReadFieldsShorter(rest); }
    }
  }

  lemma {:induction false} ReadChunksShorter(w: Bytes)
    ensures ReadChunks(w).Some? ==> |ReadChunks(w).value.0| + |ReadChunks(w).value.2| < |w|
    decreases |w|
  {
    NextLineShorter(w, 0);
    match NextLine(w, 0) {
      case None =>
      case Some((line, rest)) =>
        match Number(line, 16) {
          case None =>
          case Some(n) =>
            ReadFieldsShorter(rest);
            if 0 < n && n + 2 <= |rest| { ReadChunksShorter(rest[n + 2..]); }
        }
    }
  }

  lemma {:induction false} FlatShorter(ds: seq<Bytes>)
    ensures |Flat(ds)| <= |Chunks(ds)|
    ensures (forall i | 0 <= i < |ds| :: ds[i] != "") && ds != [] ==> Flat(ds) != ""
  {
    if ds != [] { FlatShorter(ds[..|ds| - 1]); }
  }

  /** The response is read back, with reading stopped at its end, if and only if it is delimited. */
  lemma ReadBackIff(m: Message, rest: Bytes)
    requires TextsOk(m)
    ensures Read(m.head, Frame(m) + rest) == Some((Meaning(m), rest)) <==> Delimited(m)
  {
    if Delimited(m) {
      ReadBack(m, rest);
    } else {
      var after := Body(m.chunked, m.chunks) + Ending(m.chunked, m.trailers) + rest;
      assert Frame(m) + rest == Head(m.code, m.reason, m.fields) + after;
      ReadHead(m.head, m.code, m.reason, m.fields, after);
      FlatShorter(m.chunks);
      NotDelimited(m, rest, after);
    }
  }

  /** What the reader finds behind the head of a response that is not delimited is not what was sent. */
  lemma NotDelimited(m: Message, rest: Bytes, after: Bytes)
    requires after == Body(m.chunked, m.chunks) + Ending(m.chunked, m.trailers) + rest && !Delimited(m)
    requires |Flat(m.chunks)| <= |Chunks(m.chunks)| && (m.chunks != [] ==> Flat(m.chunks) != "")
    ensures ReadBody(m.code, m.reason, m.fields, BodyLength(m.head, m.code, m.fields), after)
            != Some((Meaning(m), rest))
  {
    hide BodyLength, Flat, Chunks, FieldLines, ReadChunks;
    match BodyLength(m.head, m.code, m.fields) {
      case NoBody => assert |after| > |rest|;
      case InChunks => ReadChunksShorter(after);
      case Exactly(n) => assert n <= |after| ==> |after[..n]| == n && |after[n..]| == |after| - n;
      case UntilClose =>
    }
  }
}

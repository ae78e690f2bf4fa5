/** `parse` and `stringify` of src/querystring.cpp, for any codec given as two functions. */
module QueryString {
  import PercentCodec
  import opened Text
  import opened Wrappers

  type Codec = string -> string

  /** What an object of the query may hold: a scalar with its text, an array, or anything
      `stringify` prints as the empty string (null, undefined, a nested object). */
  datatype Value = Scalar(text: string) | Array(items: seq<Value>) | Blank

  datatype Entry = Entry(key: string, val: Value)

  /** A parsed value: a string, or an array of strings once a key occurs twice. */
  datatype Parsed = One(text: string) | Many(texts: seq<string>)

  datatype Pair = Pair(key: string, val: string)

  // ----- parse: reference meaning -----

  /** A query is split at the separator, unless it equals the equality sign. */
  function Pieces(query: string, sep: char, eq: char): seq<string> {
    if sep == eq then [query] else Split(query, sep)
  }

  /** A piece is split at its last equality sign. */
  function PairOf(piece: string, eq: char): Pair {
    var i := LastIndexOf(piece, eq);
    if i == -1 then Pair(piece, "") else Pair(piece[..i], piece[i + 1..])
  }

  function PairsOf(pieces: seq<string>, eq: char, dec: Codec): seq<Pair> {
    seq(|pieces|, i requires 0 <= i < |pieces| =>
      var p := PairOf(pieces[i], eq); Pair(dec(p.key), dec(p.val)))
  }

  /** The values given to a key, in order. */
  function ValuesOf(pairs: seq<Pair>, key: string): seq<string> {
    if pairs == [] then []
    else if pairs[0].key == key then [pairs[0].val] + ValuesOf(pairs[1..], key)
    else ValuesOf(pairs[1..], key)
  }

  function Packed(vals: seq<string>): Parsed
    requires vals != []
  {
    if |vals| == 1 then One(vals[0]) else Many(vals)
  }

  function Lookup(obj: map<string, Parsed>, key: string): Option<Parsed> {
    if key in obj then Some(obj[key]) else None
  }

  function ValueOf(pairs: seq<Pair>, key: string): Option<Parsed> {
    var vals := ValuesOf(pairs, key);
    if vals == [] then None else Some(Packed(vals))
  }

  /** The object a list of pairs denotes: every key with its values in order. */
  ghost predicate Denotes(obj: map<string, Parsed>, pairs: seq<Pair>) {
    forall k :: Lookup(obj, k) == ValueOf(pairs, k)
  }

  function ParsePairs(query: string, sep: char, eq: char, dec: Codec): seq<Pair> {
    if query == "" then [] else PairsOf(Pieces(query, sep, eq), eq, dec)
  }

  /** How a piece is read: without an equality sign it is all key, with an empty value; otherwise its last
      equality sign divides key and value. */
  ghost predicate IsRead(piece: string, p: Pair, eq: char, dec: Codec) {
    && (eq !in piece ==> p == Pair(dec(piece), dec("")))
    && forall i | 0 <= i < |piece| && piece[i] == eq && eq !in piece[i + 1..] ::
         p == Pair(dec(piece[..i]), dec(piece[i + 1..]))
  }

  ghost predicate AreRead(pieces: seq<string>, pairs: seq<Pair>, eq: char, dec: Codec) {
    |pairs| == |pieces| && forall i | 0 <= i < |pieces| :: IsRead(pieces[i], pairs[i], eq, dec)
  }

  /** The query consists of these pieces; a separator that is the equality sign separates nothing. */
  ghost predicate Consists(query: string, pieces: seq<string>, sep: char, eq: char) {
    if sep == eq then pieces == [query]
    else
      pieces != [] && query == Join(pieces, sep) && forall i | 0 <= i < |pieces| :: sep !in pieces[i]
  }

  /** A piece can be read in one way only, and `PairOf` tells which. */
  lemma ReadOnce(piece: string, p: Pair, eq: char, dec: Codec)
    ensures IsRead(piece, p, eq, dec) <==> p == Decoded(PairOf(piece, eq), dec)
  {
    var i := LastIndexOf(piece, eq);
    LastIndexOfLast(piece, eq);
    if i == -1 {
      assert eq !in piece;
    } else {
      assert eq !in piece[i + 1..];
      forall j | 0 <= j < |piece| && piece[j] == eq && eq !in piece[j + 1..] ensures j == i {
        LastIndexOfIs(piece, eq, j);
      }
    }
  }

  lemma PairsRead(pieces: seq<string>, pairs: seq<Pair>, eq: char, dec: Codec)
    ensures AreRead(pieces, pairs, eq, dec) <==> pairs == PairsOf(pieces, eq, dec)
  {
    hide PairOf, IsRead;
    forall i | 0 <= i < |pieces| && i < |pairs|
      ensures IsRead(pieces[i], pairs[i], eq, dec) <==> pairs[i] == Decoded(PairOf(pieces[i], eq), dec)
    {
      ReadOnce(pieces[i], pairs[i], eq, dec);
    }
  }

  /** The pairs of a query are those of the pieces it consists of. */
  lemma ReadInPieces(query: string, pieces: seq<string>, pairs: seq<Pair>, sep: char, eq: char, dec: Codec)
    requires query != "" && Consists(query, pieces, sep, eq)
    ensures AreRead(pieces, pairs, eq, dec) <==> pairs == ParsePairs(query, sep, eq, dec)
  {
    hide Split, Join, PairsOf, AreRead;
    PairsRead(pieces, pairs, eq, dec);
    if sep != eq { SplitJoin(pieces, sep); }
  }

  /** "k=v" is the key "k" with the value "v", for any "v" without an equality sign, and "flag" is a key. */
  lemma KeyAndValue(k: string, v: string, p: Pair, eq: char, dec: Codec)
    requires eq !in v
    ensures IsRead(k + [eq] + v, p, eq, dec) <==> p == Pair(dec(k), dec(v))
    ensures IsRead(v, p, eq, dec) <==> p == Pair(dec(v), dec(""))
  {
    var piece := k + [eq] + v;
    assert piece[..|k|] == k && piece[|k| + 1..] == v && piece[|k|] == eq;
    LastIndexOfIs(piece, eq, |k|);
    ReadOnce(piece, p, eq, dec);
  }

  // ----- parse -----

  method AddPair(obj: map<string, Parsed>, key: string, val: string, ghost pairs: seq<Pair>)
    returns (obj': map<string, Parsed>)
    requires Denotes(obj, pairs)
    ensures Denotes(obj', pairs + [Pair(key, val)])
  {
    if key in obj {
      match obj[key] {
        case One(first) => obj' := obj[key := Many([first, val])];
        case Many(ary) => obj' := obj[key := Many(ary + [val])];
      }
    } else {
      obj' := obj[key := One(val)];
    }
    forall k ensures Lookup(obj', k) == ValueOf(pairs + [Pair(key, val)], k) {
      assert Lookup(obj, k) == ValueOf(pairs, k);
      ValuesSnoc(pairs, Pair(key, val), k);
      PackedSnoc(ValuesOf(pairs, k), val);
    }
  }

  lemma PackedSnoc(vals: seq<string>, val: string)
    ensures Packed(vals + [val])
            == if vals == [] then One(val)
               else if |vals| == 1 then Many([vals[0], val]) else Many(vals + [val])
  {
    assert |vals| == 1 ==> vals + [val] == [vals[0], val];
    assert vals == [] ==> vals + [val] == [val];
  }

  lemma {:induction false} ValuesSnoc(pairs: seq<Pair>, p: Pair, key: string)
    ensures ValuesOf(pairs + [p], key)
            == if p.key == key then ValuesOf(pairs, key) + [p.val] else ValuesOf(pairs, key)
  {
    if pairs == [] {
      assert pairs + [p] == [p] && [p][1..] == [];
    } else {
      assert (pairs + [p])[1..] == pairs[1..] + [p];
      ValuesSnoc(pairs[1..], p, key);
    }
  }

  /** Where the scan stands: the last equality sign of the piece that begins at `keyStart` is before
      `valStart`, and what stands before it is the key. */
  datatype Scan = Scan(keyStart: nat, valStart: nat, key: Option<string>, i: nat)

  predicate Within(query: string, at: Scan) {
    at.keyStart <= at.i <= |query| && (at.key.Some? ==> at.keyStart < at.valStart <= at.i)
  }

  /** The piece read so far: the key and what is behind it, or all of it as a key. */
  function ReadTo(query: string, at: Scan): Pair
    requires Within(query, at)
  {
    if at.key.Some? then Pair(at.key.value, query[at.valStart..at.i]) else Pair(query[at.keyStart..at.i], "")
  }

  function Decoded(p: Pair, dec: Codec): Pair { Pair(dec(p.key), dec(p.val)) }

  /** No piece ends in what has been read of this one, and `key` is what stands before its last equality
      sign. */
  ghost predicate Seen(query: string, at: Scan, sep: char, eq: char) {
    && Within(query, at)
    && (sep != eq ==> forall k | at.keyStart <= k < at.i :: query[k] != sep)
    && match at.key
       case None => forall k | at.keyStart <= k < at.i :: query[k] != eq
       case Some(key) =>
         && query[at.valStart - 1] == eq && key == query[at.keyStart..at.valStart - 1]
         && forall k | at.valStart <= k < at.i :: query[k] != eq
  }

  /** `pairs` are those of the pieces behind the scan. */
  ghost predicate Scanned(query: string, at: Scan, pairs: seq<Pair>, sep: char, eq: char, dec: Codec) {
    && Seen(query, at, sep, eq)
    && pairs + PairsOf(Pieces(query[at.keyStart..], sep, eq), eq, dec) == ParsePairs(query, sep, eq, dec)
  }

  method AddPiece(obj: map<string, Parsed>, query: string, at: Scan, dec: Codec, ghost pairs: seq<Pair>)
    returns (obj': map<string, Parsed>)
    requires Denotes(obj, pairs) && Within(query, at)
    ensures Denotes(obj', pairs + [Decoded(ReadTo(query, at), dec)])
  {
    hide Denotes;
    var p := ReadTo(query, at);
    obj' := AddPair(obj, dec(p.key), dec(p.val), pairs);
  }

  /** The scanning loop with `keyStart`, `valStart` and the key seen so far. */
  method Parse(query: string, sep: char, eq: char, dec: Codec) returns (obj: map<string, Parsed>)
    ensures Denotes(obj, ParsePairs(query, sep, eq, dec))
    ensures query == "" ==> obj == map[]
    ensures forall pieces, pairs |
              query != "" && Consists(query, pieces, sep, eq) && AreRead(pieces, pairs, eq, dec) ::
              Denotes(obj, pairs)
  {
    hide *;
    forall pieces, pairs | query != "" && Consists(query, pieces, sep, eq) && AreRead(pieces, pairs, eq, dec)
      ensures pairs == ParsePairs(query, sep, eq, dec)
    {
      ReadInPieces(query, pieces, pairs, sep, eq, dec);
    }
    obj := map[];
    NothingParsed(query, sep, eq, dec);
    if |query| == 0 { return; }
    var keyStart, valStart := 0, 0;
    var key: Option<string> := None;
    var len := |query|;
    ghost var pairs: seq<Pair> := [];
    for i := 0 to len
      invariant Denotes(obj, pairs) && Scanned(query, Scan(keyStart, valStart, key, i), pairs, sep, eq, dec)
    {
      var at := Scan(keyStart, valStart, key, i);
      ScannedWithin(query, at, pairs, sep, eq, dec);
      if query[i] == eq {
        KeyFound(query, at, pairs, sep, eq, dec);
        key := Some(query[keyStart..i]);
        valStart := i + 1;
      } else if query[i] == sep {
        PieceEnds(query, at, pairs, sep, eq, dec);
        obj := AddPiece(obj, query, at, dec, pairs);
        pairs := pairs + [Decoded(ReadTo(query, at), dec)];
        keyStart := i + 1;
        key := None;
      } else {
        KeyGoesOn(query, at, pairs, sep, eq, dec);
      }
    }
    var at := Scan(keyStart, valStart, key, len);
    QueryEnds(query, at, pairs, sep, eq, dec);
    obj := AddPiece(obj, query, at, dec, pairs);
  }

  lemma NothingParsed(query: string, sep: char, eq: char, dec: Codec)
    ensures Denotes(map[], [])
    ensures query == "" ==> ParsePairs(query, sep, eq, dec) == []
    ensures query != "" ==> Scanned(query, Scan(0, 0, None, 0), [], sep, eq, dec)
  {
    assert query[0..] == query;
  }

  lemma ScannedWithin(query: string, at: Scan, pairs: seq<Pair>, sep: char, eq: char, dec: Codec)
    requires Scanned(query, at, pairs, sep, eq, dec)
    ensures Within(query, at) && at.keyStart <= at.i <= |query| && Seen(query, at, sep, eq)
    ensures pairs + PairsOf(Pieces(query[at.keyStart..], sep, eq), eq, dec) == ParsePairs(query, sep, eq, dec)
  {
    hide PairsOf, Pieces, ParsePairs;
  }

  lemma KeyFound(query: string, at: Scan, pairs: seq<Pair>, sep: char, eq: char, dec: Codec)
    requires Scanned(query, at, pairs, sep, eq, dec) && at.i < |query| && query[at.i] == eq
    ensures Scanned(query, Scan(at.keyStart, at.i + 1, Some(query[at.keyStart..at.i]), at.i + 1), pairs, sep, eq, dec)
  {
    hide PairsOf, Pieces, ParsePairs;
  }

  lemma KeyGoesOn(query: string, at: Scan, pairs: seq<Pair>, sep: char, eq: char, dec: Codec)
    requires Scanned(query, at, pairs, sep, eq, dec) && at.i < |query| && query[at.i] != eq && query[at.i] != sep
    ensures Scanned(query, at.(i := at.i + 1), pairs, sep, eq, dec)
  {
    hide PairsOf, Pieces, ParsePairs;
  }

  lemma PieceRead(query: string, at: Scan, sep: char, eq: char)
    requires Seen(query, at, sep, eq)
    ensures PairOf(query[at.keyStart..at.i], eq) == ReadTo(query, at)
  {
    var piece := query[at.keyStart..at.i];
    if at.key.None? {
      LastIndexOfIs(piece, eq, -1);
    } else {
      var last := at.valStart - 1 - at.keyStart;
      assert piece[last] == query[at.valStart - 1];
      assert forall k | last < k < |piece| :: piece[k] == query[at.keyStart + k];
      LastIndexOfIs(piece, eq, last);
      assert piece[..last] == query[at.keyStart..at.valStart - 1];
      assert piece[last + 1..] == query[at.valStart..at.i];
    }
  }

  lemma PieceEnds(query: string, at: Scan, pairs: seq<Pair>, sep: char, eq: char, dec: Codec)
    requires Scanned(query, at, pairs, sep, eq, dec) && at.i < |query| && query[at.i] == sep != eq
    ensures Within(query, at)
    ensures Scanned(query, Scan(at.i + 1, at.valStart, None, at.i + 1), pairs + [Decoded(ReadTo(query, at), dec)],
                    sep, eq, dec)
  {
    hide *;
    ScannedWithin(query, at, pairs, sep, eq, dec);
    PieceRead(query, at, sep, eq);
    FirstPieces(query, at, sep, eq);
    PairsCons(query[at.keyStart..at.i], Pieces(query[at.i + 1..], sep, eq), eq, dec);
    Regrouped(pairs, [Decoded(ReadTo(query, at), dec)], PairsOf(Pieces(query[at.i + 1..], sep, eq), eq, dec));
    ScannedFrom(query, Scan(at.i + 1, at.valStart, None, at.i + 1), pairs + [Decoded(ReadTo(query, at), dec)],
                sep, eq, dec);
  }

  lemma FirstPieces(query: string, at: Scan, sep: char, eq: char)
    requires Seen(query, at, sep, eq) && at.i < |query| && query[at.i] == sep != eq
    ensures Pieces(query[at.keyStart..], sep, eq) == [query[at.keyStart..at.i]] + Pieces(query[at.i + 1..], sep, eq)
  {
    FirstPiece(query, at.keyStart, at.i, sep);
    hide Split;
  }

  /** A piece of which nothing has been read. */
  lemma ScannedFrom(query: string, at: Scan, pairs: seq<Pair>, sep: char, eq: char, dec: Codec)
    requires at.key.None? && at.keyStart == at.i <= |query|
    requires pairs + PairsOf(Pieces(query[at.i..], sep, eq), eq, dec) == ParsePairs(query, sep, eq, dec)
    ensures Scanned(query, at, pairs, sep, eq, dec)
  {
    hide PairsOf, Pieces, ParsePairs;
  }

  lemma FirstPiece(query: string, keyStart: nat, i: nat, sep: char)
    requires keyStart <= i < |query| && query[i] == sep && forall k | keyStart <= k < i :: query[k] != sep
    ensures Split(query[keyStart..], sep) == [query[keyStart..i]] + Split(query[i + 1..], sep)
  {
    IndexOfIs(query[keyStart..], sep, 0, i - keyStart);
    Slices(query, keyStart, i);
  }

  lemma PairsConcat(a: seq<string>, b: seq<string>, eq: char, dec: Codec)
    ensures PairsOf(a + b, eq, dec) == PairsOf(a, eq, dec) + PairsOf(b, eq, dec)
  {
  }

  lemma PairsCons(piece: string, pieces: seq<string>, eq: char, dec: Codec)
    ensures PairsOf([piece] + pieces, eq, dec) == [Decoded(PairOf(piece, eq), dec)] + PairsOf(pieces, eq, dec)
  {
  }

  lemma QueryEnds(query: string, at: Scan, pairs: seq<Pair>, sep: char, eq: char, dec: Codec)
    requires Scanned(query, at, pairs, sep, eq, dec) && at.i == |query|
    ensures Within(query, at) && pairs + [Decoded(ReadTo(query, at), dec)] == ParsePairs(query, sep, eq, dec)
  {
    hide *;
    ScannedWithin(query, at, pairs, sep, eq, dec);
    PieceRead(query, at, sep, eq);
    LastPiece(query, at, sep, eq);
    PairsOne(query[at.keyStart..at.i], eq, dec);
  }

  lemma LastPiece(query: string, at: Scan, sep: char, eq: char)
    requires Seen(query, at, sep, eq) && at.i == |query|
    ensures Pieces(query[at.keyStart..], sep, eq) == [query[at.keyStart..at.i]]
  {
    assert query[at.keyStart..|query|] == query[at.keyStart..];
    if sep != eq { SplitOne(query[at.keyStart..], sep); }
    hide Split;
  }

  lemma PairsOne(piece: string, eq: char, dec: Codec)
    ensures PairsOf([piece], eq, dec) == [Decoded(PairOf(piece, eq), dec)]
  {
    hide PairOf;
  }

  // ----- stringify -----

  function Printed(val: Value, enc: Codec): string {
    if val.Scalar? then enc(val.text) else ""
  }

  function Texts(entry: Entry, eq: char, enc: Codec): seq<string> {
    var vals := if entry.val.Array? then entry.val.items else [entry.val];
    seq(|vals|, i requires 0 <= i < |vals| => enc(entry.key) + [eq] + Printed(vals[i], enc))
  }

  /** Every entry is printed as its `key=value` texts; entries and texts are joined alike. */
  function Printout(entries: seq<Entry>, sep: char, eq: char, enc: Codec): string {
    Join(Parts(entries, sep, eq, enc), sep)
  }

  function Parts(entries: seq<Entry>, sep: char, eq: char, enc: Codec): seq<string> {
    seq(|entries|, i requires 0 <= i < |entries| => Join(Texts(entries[i], eq, enc), sep))
  }

  /** `entries` lists the object in the order its iterator yields it. */
  method Stringify(entries: seq<Entry>, sep: char, eq: char, enc: Codec) returns (res: string)
    ensures res == Printout(entries, sep, eq, enc)
  {
    res := "";
    ghost var parts := Parts(entries, sep, eq, enc);
    var first := true;
    for k := 0 to |entries|
      invariant first <==> k == 0
      invariant res == Join(parts[..k], sep)
    {
      JoinSnoc(parts[..k], sep, parts[k]);
      PrefixSnoc(parts, k);
      if first { first := false; } else { res := res + [sep]; }
      res := AppendEntry(res, entries[k], sep, eq, enc);
    }
    assert parts[..|entries|] == parts;
  }

  /** The part of the loop that appends one entry to the builder. */
  method AppendEntry(head: string, entry: Entry, sep: char, eq: char, enc: Codec) returns (res: string)
    ensures res == head + Join(Texts(entry, eq, enc), sep)
  {
    res := head;
    ghost var texts := Texts(entry, eq, enc);
    if entry.val.Array? {
      var ary := entry.val.items;
      for i := 0 to |ary|
        invariant res == head + Join(texts[..i], sep)
      {
        ghost var before := Join(texts[..i], sep);
        JoinSnoc(texts[..i], sep, texts[i]);
        PrefixSnoc(texts, i);
        Grow(head, before, [sep], enc(entry.key), [eq], Printed(ary[i], enc));
        if i > 0 { res := res + [sep]; }
        res := res + enc(entry.key);
        res := res + [eq];
        res := res + Printed(ary[i], enc);
      }
      assert texts[..|ary|] == texts;
    } else {
      res := res + enc(entry.key);
      res := res + [eq];
      res := res + Printed(entry.val, enc);
      assert texts == [enc(entry.key) + [eq] + Printed(entry.val, enc)];
      Grow(head, "", [], enc(entry.key), [eq], Printed(entry.val, enc));
    }
  }

  lemma Grow(head: string, before: string, sep: string, k: string, e: string, v: string)
    ensures head + before + sep + k + e + v == head + (before + sep + (k + e + v))
    ensures head + k + e + v == head + (k + e + v)
    ensures head + "" == head
  {
  }

  // ----- round trip -----

  /** What `parse` should give back for a value: its text, or the texts of its items. */
  function Plain(val: Value): string { if val.Scalar? then val.text else "" }

  function PlainTexts(val: Value): seq<string> {
    if val.Array? then seq(|val.items|, i requires 0 <= i < |val.items| => Plain(val.items[i])) else [Plain(val)]
  }

  /** The codec keeps both separators out of its output and decodes what it encodes. */
  ghost predicate Lossless(text: string, sep: char, eq: char, enc: Codec, dec: Codec) {
    sep !in enc(text) && eq !in enc(text) && dec(enc(text)) == text
  }

  ghost predicate Encodable(entry: Entry, sep: char, eq: char, enc: Codec, dec: Codec) {
    && Lossless(entry.key, sep, eq, enc, dec)
    && PlainTexts(entry.val) != []
    && (entry.val.Scalar? ==> Lossless(entry.val.text, sep, eq, enc, dec))
    && (entry.val.Array? ==> forall i | 0 <= i < |entry.val.items| && entry.val.items[i].Scalar? ::
          Lossless(entry.val.items[i].text, sep, eq, enc, dec))
  }

  /** The pairs an object denotes, key by key. */
  function EntryPairs(entries: seq<Entry>): seq<Pair> {
    if entries == [] then []
    else
      OwnPairs(entries[0].key, PlainTexts(entries[0].val)) + EntryPairs(entries[1..])
  }

  function OwnPairs(key: string, texts: seq<string>): seq<Pair> {
    if texts == [] then [] else [Pair(key, texts[0])] + OwnPairs(key, texts[1..])
  }

  /** All `key=value` texts of an object in order. */
  function AllTexts(entries: seq<Entry>, eq: char, enc: Codec): seq<string> {
    if entries == [] then [] else Texts(entries[0], eq, enc) + AllTexts(entries[1..], eq, enc)
  }

  lemma AllTextsCons(entries: seq<Entry>, eq: char, enc: Codec)
    ensures entries == [] ==> AllTexts(entries, eq, enc) == []
    ensures entries != [] ==> AllTexts(entries, eq, enc) == Texts(entries[0], eq, enc) + AllTexts(entries[1..], eq, enc)
  {
    hide Texts;
  }

  lemma PrintoutCons(entries: seq<Entry>, sep: char, eq: char, enc: Codec)
    requires entries != []
    ensures Printout([], sep, eq, enc) == ""
    ensures Printout(entries, sep, eq, enc)
            == Join(Texts(entries[0], eq, enc), sep)
               + if |entries| == 1 then "" else [sep] + Printout(entries[1..], sep, eq, enc)
  {
    hide Texts;
    var text, tail := Join(Texts(entries[0], eq, enc), sep), Parts(entries[1..], sep, eq, enc);
    assert Parts(entries, sep, eq, enc) == [text] + tail && Parts([], sep, eq, enc) == [];
    hide Parts;
    if |entries| == 1 {
      assert [text] + tail == [text];
    } else {
      JoinConcat([text], tail, sep);
    }
  }

  lemma TextsMany(entry: Entry, sep: char, eq: char, enc: Codec, dec: Codec)
    requires Encodable(entry, sep, eq, enc, dec)
    ensures Texts(entry, eq, enc) != []
  {
    assert |PlainTexts(entry.val)| == |Texts(entry, eq, enc)|;
  }

  lemma {:induction false} PrintoutFlat(entries: seq<Entry>, sep: char, eq: char, enc: Codec, dec: Codec)
    requires forall i | 0 <= i < |entries| :: Encodable(entries[i], sep, eq, enc, dec)
    ensures Printout(entries, sep, eq, enc) == Join(AllTexts(entries, eq, enc), sep)
    ensures entries != [] ==> AllTexts(entries, eq, enc) != []
  {
    hide *;
    AllTextsCons(entries, eq, enc);
    JoinNone(sep);
    if entries == [] {
      PrintoutCons([Entry("", Blank)], sep, eq, enc);
    } else {
      var texts, rest := Texts(entries[0], eq, enc), entries[1..];
      TextsMany(entries[0], sep, eq, enc, dec);
      PrintoutCons(entries, sep, eq, enc);
      PrintoutFlat(rest, sep, eq, enc, dec);
      if rest == [] {
        AllTextsCons(rest, eq, enc);
        assert texts + [] == texts && Join(texts, sep) + "" == Join(texts, sep);
      } else {
        JoinConcat(texts, AllTexts(rest, eq, enc), sep);
        Regrouped(Join(texts, sep), [sep], Printout(rest, sep, eq, enc));
      }
    }
  }

  lemma TextPair(key: string, val: Value, sep: char, eq: char, enc: Codec, dec: Codec)
    requires Lossless(key, sep, eq, enc, dec) && (val.Scalar? ==> Lossless(val.text, sep, eq, enc, dec))
    requires sep != eq && dec("") == ""
    ensures var text := enc(key) + [eq] + Printed(val, enc);
            && sep !in text
            && PairOf(text, eq) == Pair(enc(key), Printed(val, enc))
            && dec(Printed(val, enc)) == Plain(val)
  {
    var text := enc(key) + [eq] + Printed(val, enc);
    LastIndexOfIs(text, eq, |enc(key)|);
    assert text[..|enc(key)|] == enc(key);
    assert text[|enc(key)| + 1..] == Printed(val, enc);
  }

  lemma EntryTexts(e: Entry, sep: char, eq: char, enc: Codec, dec: Codec)
    requires Encodable(e, sep, eq, enc, dec) && sep != eq && dec("") == ""
    ensures forall k | 0 <= k < |Texts(e, eq, enc)| :: sep !in Texts(e, eq, enc)[k]
    ensures PairsOf(Texts(e, eq, enc), eq, dec) == OwnPairs(e.key, PlainTexts(e.val))
  {
    hide PairOf, OwnPairs;
    var texts, plain := Texts(e, eq, enc), PlainTexts(e.val);
    forall k | 0 <= k < |texts|
      ensures sep !in texts[k]
      ensures var p := PairOf(texts[k], eq); dec(p.key) == e.key && dec(p.val) == plain[k]
    {
      TextPair(e.key, if e.val.Array? then e.val.items[k] else e.val, sep, eq, enc, dec);
    }
    OwnPairsAt(e.key, plain);
  }

  lemma {:induction false} AllTextsPairs(entries: seq<Entry>, sep: char, eq: char, enc: Codec, dec: Codec)
    requires forall i | 0 <= i < |entries| :: Encodable(entries[i], sep, eq, enc, dec)
    requires sep != eq && dec("") == ""
    ensures forall k | 0 <= k < |AllTexts(entries, eq, enc)| :: sep !in AllTexts(entries, eq, enc)[k]
    ensures PairsOf(AllTexts(entries, eq, enc), eq, dec) == EntryPairs(entries)
  {
    hide Texts, PairOf, PlainTexts, OwnPairs, Encodable;
    if entries != [] {
      AllTextsPairs(entries[1..], sep, eq, enc, dec);
      EntryTexts(entries[0], sep, eq, enc, dec);
      PairsConcat(Texts(entries[0], eq, enc), AllTexts(entries[1..], eq, enc), eq, dec);
    }
  }

  lemma {:induction false} EntryValues(entries: seq<Entry>, k: nat)
    requires forall i, j | 0 <= i < j < |entries| :: entries[i].key != entries[j].key
    requires k < |entries|
    ensures ValuesOf(EntryPairs(entries), entries[k].key) == PlainTexts(entries[k].val)
  {
    hide ValuesOf, EntryPairs, OwnPairs, PlainTexts;
    var rest, key := entries[1..], entries[k].key;
    EntryFirst(entries, key);
    if k == 0 {
      NoEntry(rest, key);
      assert PlainTexts(entries[0].val) + [] == PlainTexts(entries[0].val);
    } else {
      EntryValues(rest, k - 1);
      assert [] + PlainTexts(entries[k].val) == PlainTexts(entries[k].val);
    }
  }

  lemma {:induction false} NoEntry(entries: seq<Entry>, key: string)
    requires forall i | 0 <= i < |entries| :: entries[i].key != key
    ensures ValuesOf(EntryPairs(entries), key) == []
  {
    if entries != [] {
      hide ValuesOf, EntryPairs, OwnPairs, PlainTexts;
      EntryFirst(entries, key);
      NoEntry(entries[1..], key);
    }
  }

  lemma EntryFirst(entries: seq<Entry>, key: string)
    requires entries != []
    ensures ValuesOf(EntryPairs(entries), key)
            == (if entries[0].key == key then PlainTexts(entries[0].val) else [])
               + ValuesOf(EntryPairs(entries[1..]), key)
  {
    hide PlainTexts, ValuesOf, OwnPairs;
    var e := entries[0];
    ValuesConcat(OwnPairs(e.key, PlainTexts(e.val)), EntryPairs(entries[1..]), key);
    OwnValues(e.key, PlainTexts(e.val), key);
  }

  lemma {:induction false} ValuesConcat(a: seq<Pair>, b: seq<Pair>, key: string)
    ensures ValuesOf(a + b, key) == ValuesOf(a, key) + ValuesOf(b, key)
  {
    if a == [] {
      assert a + b == b;
    } else {
      assert (a + b)[1..] == a[1..] + b;
      ValuesConcat(a[1..], b, key);
    }
  }

  lemma {:induction false} OwnValues(own: string, texts: seq<string>, key: string)
    ensures ValuesOf(OwnPairs(own, texts), key) == if own == key then texts else []
  {
    if texts != [] {
      OwnValues(own, texts[1..], key);
      assert OwnPairs(own, texts)[1..] == OwnPairs(own, texts[1..]);
    }
  }

  lemma {:induction false} OwnPairsAt(own: string, texts: seq<string>)
    ensures |OwnPairs(own, texts)| == |texts|
    ensures forall i | 0 <= i < |texts| :: OwnPairs(own, texts)[i] == Pair(own, texts[i])
  {
    if texts != [] { OwnPairsAt(own, texts[1..]); }
  }

  /** parse(stringify(m)) gives every key of m back with its values in order, a single value as a
      string and several as an array, whatever the order of the entries. */
  lemma RoundTrip(entries: seq<Entry>, obj: map<string, Parsed>, sep: char, eq: char, enc: Codec, dec: Codec)
    requires forall i, j | 0 <= i < j < |entries| :: entries[i].key != entries[j].key
    requires forall i | 0 <= i < |entries| :: Encodable(entries[i], sep, eq, enc, dec)
    requires sep != eq && dec("") == ""
    requires Denotes(obj, ParsePairs(Printout(entries, sep, eq, enc), sep, eq, dec))
    ensures forall k | k in obj :: exists i | 0 <= i < |entries| :: entries[i].key == k
    ensures forall i | 0 <= i < |entries| ::
              PlainTexts(entries[i].val) != []
              && Lookup(obj, entries[i].key) == Some(Packed(PlainTexts(entries[i].val)))
  {
    var query := Printout(entries, sep, eq, enc);
    var texts := AllTexts(entries, eq, enc);
    PrintoutFlat(entries, sep, eq, enc, dec);
    AllTextsPairs(entries, sep, eq, enc, dec);
    assert ParsePairs(query, sep, eq, dec) == EntryPairs(entries) by {
      if entries != [] {
        assert Encodable(entries[0], sep, eq, enc, dec);
        QueryNotEmpty(entries, sep, eq, enc);
        SplitJoin(texts, sep);
      }
    }
    var pairs := EntryPairs(entries);
    forall k | k in obj ensures exists i | 0 <= i < |entries| :: entries[i].key == k {
      assert Lookup(obj, k) == ValueOf(pairs, k);
      if forall i | 0 <= i < |entries| :: entries[i].key != k { NoEntry(entries, k); }
    }
    forall i | 0 <= i < |entries|
      ensures PlainTexts(entries[i].val) != []
      ensures Lookup(obj, entries[i].key) == Some(Packed(PlainTexts(entries[i].val)))
    {
      assert Encodable(entries[i], sep, eq, enc, dec);
      EntryValues(entries, i);
      assert Lookup(obj, entries[i].key) == ValueOf(pairs, entries[i].key);
    }
  }

  lemma QueryNotEmpty(entries: seq<Entry>, sep: char, eq: char, enc: Codec)
    requires entries != [] && AllTexts(entries, eq, enc) != []
    requires Texts(entries[0], eq, enc) != []
    ensures Join(AllTexts(entries, eq, enc), sep) != ""
  {
    var texts := AllTexts(entries, eq, enc);
    assert texts[0] == Texts(entries[0], eq, enc)[0];
    assert eq in texts[0];
  }

  // ----- the codec the program uses -----

  function PercentEnc(text: string): string {
    if PercentCodec.Bytes(text) then PercentCodec.Encoded(text) else ""
  }

  /** The percent codec meets the round-trip hypothesis on every text it encodes completely, for any
      separators that are no unreserved characters. */
  lemma PercentLossless(text: string, sep: char, eq: char)
    requires PercentCodec.Bytes(text) && PercentCodec.Complete(text)
    requires !PercentCodec.Plain(sep) && !PercentCodec.Plain(eq) && sep != '%' && eq != '%'
    ensures Lossless(text, sep, eq, PercentEnc, PercentCodec.Decoded)
  {
    PercentCodec.RoundTrip(text);
    PercentCodec.EncodedEncodes(text);
    hide PercentCodec.Encoded, PercentCodec.Complete, PercentCodec.Plain;
  }

  /** They are in particular the two that are used if none are given. */
  lemma DefaultLossless(text: string)
    requires PercentCodec.Bytes(text) && PercentCodec.Complete(text)
    ensures Lossless(text, '&', '=', PercentEnc, PercentCodec.Decoded)
  {
    PercentLossless(text, '&', '=');
  }
}

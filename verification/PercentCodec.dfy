/** The percent codec of src/util.cpp: `percentEncode` and `percentDecode` with their output
    buffers and the unsigned budget that counts the room left.

    A string is a sequence of bytes, one `char` below 256 each. The encoder charges an escape
    five units of the budget for the three bytes it writes, and its subtractions wrap around. */
module PercentCodec {
  import Text

  /** `Size` is an unsigned 64-bit word. */
  const SIZE_MODULUS: int := 0x1_0000_0000_0000_0000

  function Wrap(n: int): (r: nat)
    ensures r < SIZE_MODULUS
    ensures 0 <= n < SIZE_MODULUS ==> r == n
    ensures -SIZE_MODULUS <= n < 0 ==> r == n + SIZE_MODULUS
  {
    n % SIZE_MODULUS
  }

  predicate Bytes(s: string) { forall i | 0 <= i < |s| :: s[i] < 256 as char }

  predicate Unreserved(c: char) {
    'A' <= c <= 'Z' || 'a' <= c <= 'z' || '0' <= c <= '9' || c == '-' || c == '.' || c == '_' || c == '~'
  }

  /** The unreserved characters of section 2.3 of RFC 3986, letter by letter. */
  predicate Plain(c: char) {
    c in {'A', 'B', 'C', 'D', 'E', 'F', 'G', 'H', 'I', 'J', 'K', 'L', 'M',
          'N', 'O', 'P', 'Q', 'R', 'S', 'T', 'U', 'V', 'W', 'X', 'Y', 'Z',
          'a', 'b', 'c', 'd', 'e', 'f', 'g', 'h', 'i', 'j', 'k', 'l', 'm',
          'n', 'o', 'p', 'q', 'r', 's', 't', 'u', 'v', 'w', 'x', 'y', 'z',
          '0', '1', '2', '3', '4', '5', '6', '7', '8', '9', '-', '.', '_', '~'}
  }

  lemma UnreservedIsPlain(c: char)
    ensures Unreserved(c) <==> Plain(c)
  {
  }

  function HexValue(hex: char): (v: nat)
    ensures v < 16
  {
    if '0' <= hex <= '9' then (hex - '0') as nat
    else if 'A' <= hex <= 'F' then (hex - 'A') as nat + 10
    else if 'a' <= hex <= 'f' then (hex - 'a') as nat + 10
    else 0
  }

  function HexChar(value: nat): (c: char)
    ensures c != '\0' && c != '%'
    ensures value < 16 ==> HexValue(c) == value
    ensures value >= 16 ==> c == '0'
  {
    if value >= 16 then '0'
    else if value < 10 then '0' + value as char
    else 'A' + (value - 10) as char
  }

  lemma HexCharIs(value: nat)
    requires value < 16
    ensures HexChar(value) == "0123456789ABCDEF"[value] && Plain(HexChar(value))
  {
    UnreservedIsPlain(HexChar(value));
    hide Plain;
  }

  /** A hex digit of either case is printed again for its value, in upper case. */
  lemma HexDigitBack(hex: char)
    ensures '0' <= hex <= '9' || 'A' <= hex <= 'F' ==> HexChar(HexValue(hex)) == hex
    ensures 'a' <= hex <= 'f' ==> HexChar(HexValue(hex)) == hex - 'a' + 'A'
    ensures HexValue(hex) > 0 ==> '1' <= hex <= '9' || 'A' <= hex <= 'F' || 'a' <= hex <= 'f'
  {
  }

  // ----- what the encoding should be, and what the budget allows -----

  function Escape(c: char): string
    requires c < 256 as char
  {
    if Unreserved(c) then [c] else ['%', HexChar(c as nat / 16), HexChar(c as nat % 16)]
  }

  /** Section 2.1 of RFC 3986: every byte that is not unreserved becomes an escape triple. */
  function Ideal(s: string): (r: string)
    requires Bytes(s)
    ensures |s| <= |r| <= 3 * |s|
  {
    if s == "" then "" else Escape(s[0]) + Ideal(s[1..])
  }

  /** The same spelled out: a byte that is not one of the 66 characters becomes '%' and its two digits in
      upper case (section 2.1). */
  ghost function Spelled(s: string): string
    requires Bytes(s)
  {
    if s == "" then "" else Spell(s[0]) + Spelled(s[1..])
  }

  ghost function Spell(c: char): string
    requires c < 256 as char
  {
    var b := c as nat;
    if Plain(c) then [c] else ['%', "0123456789ABCDEF"[b / 16], "0123456789ABCDEF"[b % 16]]
  }

  lemma EscapeIs(c: char)
    requires c < 256 as char
    ensures Escape(c) == Spell(c)
    ensures forall k | 0 <= k < |Escape(c)| :: Escape(c)[k] == '%' || Plain(Escape(c)[k])
    ensures Plain(c) ==> Escape(c) == [c]
  {
    hide Plain, Unreserved, HexChar;
    UnreservedIsPlain(c);
    HexCharIs(c as nat / 16);
    HexCharIs(c as nat % 16);
  }

  /** The encoding is the one spelled out. All its characters are '%' or plain, and a string of plain
      characters is its own. */
  lemma {:induction false} IdealIsSpelled(s: string)
    requires Bytes(s)
    ensures Ideal(s) == Spelled(s)
    ensures forall k | 0 <= k < |Ideal(s)| :: Ideal(s)[k] == '%' || Plain(Ideal(s)[k])
    ensures (forall k | 0 <= k < |s| :: Plain(s[k])) ==> Ideal(s) == s && Escapes(s) == 0
  {
    hide Plain, Unreserved, Escape, Spell;
    if s != "" {
      IdealIsSpelled(s[1..]);
      EscapeIs(s[0]);
      UnreservedIsPlain(s[0]);
      assert s == [s[0]] + s[1..];
    }
  }

  function Escapes(s: string): nat {
    if s == "" then 0 else (if Unreserved(s[0]) then 0 else 1) + Escapes(s[1..])
  }

  /** The budget spent on `s`: one unit for a plain byte, five for an escape. */
  function Cost(s: string): nat { |s| + 4 * Escapes(s) }

  /** The encoder starts escape `i` with three or four units left, so that the budget wraps
      around to a huge value. */
  predicate WrapsAt(s: string, i: nat)
    requires i < |s|
  {
    !Unreserved(s[i]) && 3 <= 3 * |s| - Cost(s[..i]) <= 4
  }

  /** The budget never runs out: escapes do not outnumber plain bytes, or it wraps around. */
  predicate Complete(s: string) {
    2 * Escapes(s) <= |s| || exists i | 0 <= i < |s| :: WrapsAt(s, i)
  }

  /** Where the budget runs out: the first byte at or after `i` that cannot be paid in full. */
  function Cut(s: string, i: nat): (k: nat)
    requires i < |s| && Cost(s[..i]) <= 3 * |s| < Cost(s)
    ensures i <= k < |s| && Cost(s[..k]) <= 3 * |s| < Cost(s[..k + 1])
    decreases |s| - i
  {
    if 3 * |s| < Cost(s[..i + 1]) then i
    else
      assert s[..|s|] == s;
      Cut(s, i + 1)
  }

  /** The string the encoder returns. */
  function Encoded(s: string): string
    requires Bytes(s)
  {
    if Complete(s) then Ideal(s)
    else
      NotCompleteCosts(s);
      var k := Cut(s, 0);
      var left := 3 * |s| - Cost(s[..k]);
      Ideal(s[..k]) + (if left <= 2 && !Unreserved(s[k]) then Escape(s[k])[..left] else "")
  }

  lemma NotCompleteCosts(s: string)
    requires !Complete(s)
    ensures |s| > 0 && Cost(s[..0]) <= 3 * |s| < Cost(s)
  {
  }

  /** The bytes that are charged five units are those that are not plain. */
  lemma {:induction false} EscapesCount(s: string)
    ensures Escapes(s) == |set i | 0 <= i < |s| && !Plain(s[i])|
  {
    hide Plain, Unreserved;
    if s != "" {
      var n := |s| - 1;
      var t := s[..n];
      EscapesCount(t);
      EscapesConcat(t, [s[n]]);
      UnreservedIsPlain(s[n]);
      assert s == t + [s[n]] && [s[n]][1..] == "";
      assert (set i | 0 <= i < |s| && !Plain(s[i]))
          == (if Plain(s[n]) then {} else {n}) + set i | 0 <= i < n && !Plain(t[i]);
    }
  }

  /** What the encoder returns, without a word about how. */
  ghost predicate Encodes(s: string, r: string)
    requires Bytes(s)
  {
    && (forall k | 0 <= k < |r| :: r[k] == '%' || Plain(r[k]))
    && ((forall k | 0 <= k < |s| :: Plain(s[k])) ==> r == s)
    && r <= Spelled(s)
    && (r == Spelled(s) <==> Complete(s))
  }

  lemma EncodedEncodes(s: string)
    requires Bytes(s)
    ensures Encodes(s, Encoded(s))
  {
    hide Plain, Encoded, Spelled, Ideal;
    IdealIsSpelled(s);
    EncodedPrefix(s);
    assert forall k | 0 <= k < |Encoded(s)| :: Encoded(s)[k] == Ideal(s)[k];
  }

  // ----- prefixes -----

  lemma ByteAt(s: string, i: nat)
    requires Bytes(s) && i < |s|
    ensures s[i] < 256 as char
  {
  }

  lemma BytesParts(s: string, k: nat)
    requires Bytes(s) && k <= |s|
    ensures Bytes(s[..k]) && Bytes(s[k..])
  {
  }

  lemma {:induction false} IdealConcat(a: string, b: string)
    requires Bytes(a) && Bytes(b)
    ensures Bytes(a + b) && Ideal(a + b) == Ideal(a) + Ideal(b)
  {
    hide Escape, Unreserved;
    if a == "" {
      assert a + b == b;
      assert "" + Ideal(b) == Ideal(b);
    } else {
      assert (a + b)[0] == a[0] && (a + b)[1..] == a[1..] + b;
      IdealConcat(a[1..], b);
      Text.Regrouped(Escape(a[0]), Ideal(a[1..]), Ideal(b));
    }
  }

  lemma {:induction false} EscapesConcat(a: string, b: string)
    ensures Escapes(a + b) == Escapes(a) + Escapes(b)
  {
    if a == "" {
      assert a + b == b;
    } else {
      assert (a + b)[1..] == a[1..] + b;
      EscapesConcat(a[1..], b);
    }
  }

  lemma OneMore(s: string, i: nat)
    requires Bytes(s) && i < |s|
    ensures Ideal(s[..i + 1]) == Ideal(s[..i]) + Escape(s[i])
    ensures Cost(s[..i + 1]) == Cost(s[..i]) + if Unreserved(s[i]) then 1 else 5
  {
    assert s[..i + 1] == s[..i] + [s[i]];
    assert Ideal([s[i]]) == Escape(s[i]) + "" by { assert [s[i]][1..] == ""; }
    assert Escapes([s[i]]) == if Unreserved(s[i]) then 0 else 1;
    IdealConcat(s[..i], [s[i]]);
    EscapesConcat(s[..i], [s[i]]);
  }

  lemma CostMonotone(s: string, i: nat, j: nat)
    requires i <= j <= |s|
    ensures Cost(s[..i]) <= Cost(s[..j])
  {
    assert s[..j] == s[..i] + s[i..j];
    EscapesConcat(s[..i], s[i..j]);
  }

  lemma {:induction false} CutIs(s: string, k: nat, i: nat)
    requires k <= i < |s| && Cost(s[..i]) <= 3 * |s| < Cost(s[..i + 1])
    ensures Cost(s[..k]) <= 3 * |s| < Cost(s) && Cut(s, k) == i
    decreases i - k
  {
    assert s[..|s|] == s;
    CostMonotone(s, k, i);
    CostMonotone(s, i + 1, |s|);
    if k < i {
      CostMonotone(s, k + 1, i);
      CutIs(s, k + 1, i);
    }
  }

  lemma NoWrapBesides(s: string, i: nat, j: nat)
    requires Bytes(s) && i < |s| && j < |s| && WrapsAt(s, j)
    requires Cost(s[..i]) <= 3 * |s| < Cost(s[..i + 1])
    ensures i == j
  {
    OneMore(s, j);
    if j < i { CostMonotone(s, j + 1, i); }
    if i < j { CostMonotone(s, i + 1, j); }
  }

  /** The budget meets a byte it cannot pay for, with at most two units left. */
  lemma CannotPay(s: string, i: nat)
    requires Bytes(s) && i < |s|
    requires 0 <= 3 * |s| - Cost(s[..i]) <= if Unreserved(s[i]) then 0 else 2
    ensures !Complete(s) && Cost(s[..0]) <= 3 * |s| < Cost(s) && Cut(s, 0) == i
  {
    OneMore(s, i);
    CutIs(s, 0, i);
    forall j | 0 <= j < |s| ensures !WrapsAt(s, j) {
      if WrapsAt(s, j) { NoWrapBesides(s, i, j); }
    }
  }

  // ----- the encoder -----

  /** The budget left when `i` bytes are written: the true remainder, or a wrapped one after an
      escape `w` that started with three or four units. */
  ghost predicate Budget(s: string, i: nat, left: nat, w: nat)
    requires i <= |s|
  {
    && Cost(s[..i]) <= 5 * i
    && left == (if Cost(s[..i]) <= 3 * |s| then 3 * |s| - Cost(s[..i]) else 3 * |s| - Cost(s[..i]) + SIZE_MODULUS)
    && (Cost(s[..i]) > 3 * |s| ==> w < i && WrapsAt(s, w))
  }

  lemma BudgetStarts(s: string)
    requires Bytes(s)
    ensures Budget(s, 0, 3 * |s|, 0) && Ideal(s[..0]) == ""
  {
  }

  lemma BudgetStep(s: string, i: nat, left: nat, w: nat) returns (w': nat)
    requires Bytes(s) && i < |s| && Budget(s, i, left, w) && 3 * |s| + 1 < SIZE_MODULUS
    requires left > if Unreserved(s[i]) then 0 else 2
    ensures Budget(s, i + 1, Wrap(left - if Unreserved(s[i]) then 1 else 5), w')
  {
    OneMore(s, i);
    w' := if Cost(s[..i]) <= 3 * |s| then i else w;
    assert Cost(s[..i + 1]) > 3 * |s| && Cost(s[..i]) <= 3 * |s| ==> WrapsAt(s, i);
  }

  lemma RunsOut(s: string, i: nat, left: nat, w: nat)
    requires Bytes(s) && i < |s| && Budget(s, i, left, w) && 3 * |s| + 1 < SIZE_MODULUS
    requires left <= if Unreserved(s[i]) then 0 else 2
    ensures Encoded(s) == Ideal(s[..i]) + if Unreserved(s[i]) then "" else Escape(s[i])[..left]
  {
    CannotPay(s, i);
  }

  lemma BudgetEnds(s: string, left: nat, w: nat)
    requires Bytes(s) && Budget(s, |s|, left, w)
    ensures Encoded(s) == Ideal(s[..|s|])
  {
    assert s[..|s|] == s;
  }

  /** An escape written byte by byte. */
  lemma Digits(done: string, c: char)
    requires c < 256 as char && !Unreserved(c)
    ensures done + ['%'] == done + Escape(c)[..1]
    ensures done + ['%'] + [HexChar(c as nat / 16)] == done + Escape(c)[..2]
    ensures done + ['%'] + [HexChar(c as nat / 16)] + [HexChar(c as nat % 16)] == done + Escape(c)
  {
  }

  /** `*(p++) = c`, for a pointer that stands `at` bytes into its buffer. */
  method Put(buffer: array<char>, at: nat, c: char) returns (next: nat)
    requires at < buffer.Length
    modifies buffer
    ensures next == at + 1 && buffer[..next] == old(buffer[..at]) + [c]
  {
    buffer[at] := c;
    next := at + 1;
  }

  /** `encoded` has room for `3 * |source| + 1` bytes, as the wrapper allocates it. */
  method EncodeInto(encoded: array<char>, source: string) returns (written: nat)
    requires Bytes(source) && encoded.Length == 3 * |source| + 1 && encoded.Length < SIZE_MODULUS
    modifies encoded
    ensures written < encoded.Length && encoded[written] == '\0'
    ensures encoded[..written] == Encoded(source) && Encodes(source, encoded[..written])
  {
    hide Plain, Encodes, Ideal, Cost, Escapes, Budget, Encoded, Complete, Bytes, HexChar, Wrap;
    var encodedLength: nat := encoded.Length;
    encodedLength := Wrap(encodedLength - 1);
    var i, n := 0, |source|;
    written := 0;
    ghost var cut, w := false, 0;
    EncodedEncodes(source);
    BudgetStarts(source);
    BytesParts(source, 0);
    BytesParts(source, |source|);
    while i < n && encodedLength != 0
      invariant i <= n && Bytes(source[..i]) && written == |Ideal(source[..i])|
      invariant encoded[..written] == Ideal(source[..i])
      invariant !cut && encodedLength < SIZE_MODULUS && Budget(source, i, encodedLength, w)
    {
      var temp := source[i];
      ghost var left := encodedLength;
      BytesParts(source, i + 1);
      ByteAt(source, i);
      OneMore(source, i);
      if Unreserved(temp) {
        written := Put(encoded, written, temp);
      } else {
        Digits(Ideal(source[..i]), temp);
        written := Put(encoded, written, '%');
        encodedLength := Wrap(encodedLength - 1);
        if encodedLength == 0 {
          RunsOut(source, i, left, w);
          cut := true;
          break;
        }
        written := Put(encoded, written, HexChar(temp as nat / 16));
        encodedLength := Wrap(encodedLength - 1);
        if encodedLength == 0 {
          RunsOut(source, i, left, w);
          cut := true;
          break;
        }
        written := Put(encoded, written, HexChar(temp as nat % 16));
        encodedLength := Wrap(encodedLength - 2);
      }
      w := BudgetStep(source, i, left, w);
      i := i + 1;
      encodedLength := Wrap(encodedLength - 1);
    }
    if !cut {
      if i < n { RunsOut(source, i, 0, w); } else { BudgetEnds(source, encodedLength, w); }
    }
    encoded[written] := '\0';
  }

  /** The bytes of a C string: everything before the first NUL. */
  function CString(s: string): string {
    if s == "" || s[0] == '\0' then "" else [s[0]] + CString(s[1..])
  }

  method PercentEncode(str: string) returns (res: string)
    requires Bytes(str) && 3 * |str| + 1 < SIZE_MODULUS
    ensures res == Encoded(str) && Encodes(str, res)
  {
    hide Encodes;
    EncodedEncodes(str);
    if |str| == 0 {
      assert Encoded(str) == "";
      return "";
    }
    var encodedLen := |str| * 3 + 1;
    var encoded := new char[encodedLen];
    var n := EncodeInto(encoded, str);
    EncodedHasNoNul(str);
    CStringEnds(encoded[..], n);
    res := CString(encoded[..]);
  }

  lemma {:induction false} CStringEnds(s: string, n: nat)
    requires n < |s| && s[n] == '\0' && forall k | 0 <= k < n :: s[k] != '\0'
    ensures CString(s) == s[..n]
  {
    if n > 0 {
      CStringEnds(s[1..], n - 1);
      assert s[..n] == [s[0]] + s[1..][..n - 1];
    }
  }

  lemma {:induction false} IdealHasNoNul(s: string)
    requires Bytes(s)
    ensures forall k | 0 <= k < |Ideal(s)| :: Ideal(s)[k] != '\0'
  {
    if s != "" {
      IdealHasNoNul(s[1..]);
    }
  }

  lemma EncodedHasNoNul(s: string)
    requires Bytes(s)
    ensures forall k | 0 <= k < |Encoded(s)| :: Encoded(s)[k] != '\0'
  {
    EncodedPrefix(s);
    IdealHasNoNul(s);
  }

  /** The encoder never writes more than three bytes for one, and what it writes is always the
      beginning of the ideal encoding; it is all of it exactly when the budget suffices. */
  lemma EncodedPrefix(s: string)
    requires Bytes(s)
    ensures Encoded(s) <= Ideal(s) && |Encoded(s)| <= 3 * |s|
    ensures Encoded(s) == Ideal(s) <==> Complete(s)
  {
    if !Complete(s) {
      NotCompleteCosts(s);
      var k := Cut(s, 0);
      NoWrapAtCut(s, k);
      IdealAround(s, k);
      var left := 3 * |s| - Cost(s[..k]);
      PrefixOf(Ideal(s[..k]), Escape(s[k]), Ideal(s[k + 1..]), if Unreserved(s[k]) then 0 else left);
      assert Unreserved(s[k]) ==> Ideal(s[..k]) + Escape(s[k])[..0] == Ideal(s[..k]) + "";
    }
  }

  lemma IdealAround(s: string, k: nat)
    requires Bytes(s) && k < |s|
    ensures Ideal(s) == Ideal(s[..k]) + Escape(s[k]) + Ideal(s[k + 1..])
  {
    BytesParts(s, k);
    BytesParts(s, k + 1);
    hide Ideal, Escape, Bytes;
    OneMore(s, k);
    Text.TakeDrop(s, k + 1);
    IdealConcat(s[..k + 1], s[k + 1..]);
  }

  lemma PrefixOf(a: string, b: string, c: string, n: nat)
    requires n < |b|
    ensures a + b[..n] <= a + b + c && a + b[..n] != a + b + c
  {
    assert b == b[..n] + b[n..];
  }

  lemma NoWrapAtCut(s: string, k: nat)
    requires Bytes(s) && !Complete(s) && k < |s| && Cost(s[..k]) <= 3 * |s| < Cost(s[..k + 1])
    ensures 3 * |s| - Cost(s[..k]) <= if Unreserved(s[k]) then 0 else 2
  {
    OneMore(s, k);
    assert !WrapsAt(s, k);
  }

  // ----- the decoder -----

  /** What the scan over a C string yields; it stops at a NUL or at a lone '%' at the end. */
  function Decoded(s: string): string
    decreases |s|
  {
    if s == "" || s[0] == '\0' then ""
    else if s[0] == '%' then
      if |s| == 1 || s[1] == '\0' then ""
      else if |s| == 2 then [Byte(s[1], '\0')]
      else [Byte(s[1], s[2])] + Decoded(s[3..])
    else [if s[0] == '+' then ' ' else s[0]] + Decoded(s[1..])
  }

  function Byte(high: char, low: char): char { (16 * HexValue(high) + HexValue(low)) as char }

  /** The scan never steps over the terminating NUL: no "%x" at the very end. */
  predicate InBounds(s: string)
    decreases |s|
  {
    if s == "" || s[0] == '\0' then true
    else if s[0] == '%' then
      |s| == 1 || s[1] == '\0' || (|s| > 2 && InBounds(s[3..]))
    else InBounds(s[1..])
  }

  lemma DecodeStep(s: string, i: nat)
    requires i < |s| && s[i] != '\0' && InBounds(s[i..])
    ensures s[i] == '%' && (i + 1 == |s| || s[i + 1] == '\0') ==> Decoded(s[i..]) == ""
    ensures s[i] == '%' && !(i + 1 == |s| || s[i + 1] == '\0') ==>
              i + 2 < |s| && InBounds(s[i + 3..])
              && Decoded(s[i..]) == [Byte(s[i + 1], s[i + 2])] + Decoded(s[i + 3..])
    ensures s[i] != '%' ==>
              InBounds(s[i + 1..]) && Decoded(s[i..]) == [if s[i] == '+' then ' ' else s[i]] + Decoded(s[i + 1..])
  {
    var t := s[i..];
    assert t[1..] == s[i + 1..];
    assert |t| > 1 ==> t[1] == s[i + 1];
    assert |t| > 2 ==> t[2] == s[i + 2] && t[3..] == s[i + 3..];
  }

  lemma DecodeEnds(s: string, i: nat)
    requires i <= |s| && (i < |s| ==> s[i] == '\0')
    ensures Decoded(s[i..]) == ""
  {
  }

  method DecodeInto(decoded: array<char>, source: string) returns (written: nat)
    requires InBounds(source) && decoded.Length == |source| + 1 && decoded.Length < SIZE_MODULUS
    modifies decoded
    ensures written < decoded.Length && decoded[written] == '\0'
    ensures decoded[..written] == Decoded(source)
  {
    hide *;
    var decodedLength: nat := decoded.Length;
    decodedLength := Wrap(decodedLength - 1);
    var i := 0;
    written := 0;
    assert source[0..] == source;
    while i < |source| && source[i] != '\0' && decodedLength != 0
      invariant i <= |source| && written <= i && decodedLength == |source| - written
      invariant InBounds(source[i..])
      invariant decoded[..written] + Decoded(source[i..]) == Decoded(source)
    {
      DecodeStep(source, i);
      var c: char;
      if source[i] == '%' {
        if i + 1 == |source| || source[i + 1] == '\0' {
          decoded[written] := '\0';
          return;
        }
        c := Byte(source[i + 1], source[i + 2]);
        i := i + 3;
      } else if source[i] == '+' {
        c := ' ';
        i := i + 1;
      } else {
        c := source[i];
        i := i + 1;
      }
      written := Put(decoded, written, c);
      decodedLength := Wrap(decodedLength - 1);
    }
    DecodeEnds(source, i);
    decoded[written] := '\0';
  }

  method PercentDecode(str: string) returns (res: string)
    requires InBounds(str) && |str| + 1 < SIZE_MODULUS
    ensures res == Decoded(str)
  {
    if |str| == 0 { return ""; }
    var decoded := new char[|str| + 1];
    var size := DecodeInto(decoded, str);
    res := decoded[..size];
  }

  // ----- round trip -----

  lemma DecodedStep(c: char, rest: string)
    requires c < 256 as char
    ensures Decoded(Escape(c) + rest) == [c] + Decoded(rest)
    ensures InBounds(Escape(c) + rest) == InBounds(rest)
  {
    var e := Escape(c);
    var all := e + rest;
    assert all[|e|..] == rest;
    if !Unreserved(c) {
      assert all[0] == '%' && all[1] == e[1] && all[2] == e[2];
      var v := c as nat;
      assert 16 * (v / 16) + v % 16 == v;
    }
  }

  lemma {:induction false} DecodedAfterIdeal(s: string, t: string)
    requires Bytes(s)
    ensures Decoded(Ideal(s) + t) == s + Decoded(t)
    ensures InBounds(Ideal(s) + t) == InBounds(t)
  {
    if s == "" {
      assert Ideal(s) + t == t;
    } else {
      DecodedAfterIdeal(s[1..], t);
      DecodedStep(s[0], Ideal(s[1..]) + t);
      Regroup(s, Escape(s[0]), Ideal(s[1..]), t, Decoded(t));
    }
  }

  lemma Regroup(s: string, e: string, r: string, t: string, d: string)
    requires s != ""
    ensures e + r + t == e + (r + t) && s + d == [s[0]] + (s[1..] + d)
  {
  }

  /** Decoding inverts the ideal encoding of every byte string. */
  lemma DecodedIdeal(s: string)
    requires Bytes(s)
    ensures InBounds(Ideal(s)) && Decoded(Ideal(s)) == s
  {
    DecodedAfterIdeal(s, "");
    assert Ideal(s) + "" == Ideal(s) && s + "" == s;
  }

  /** Decoding inverts the encoder exactly on the strings whose encoding is complete. */
  lemma RoundTrip(s: string)
    requires Bytes(s)
    ensures InBounds(Encoded(s)) && Decoded(Encoded(s)) == s <==> Complete(s)
  {
    if Complete(s) {
      DecodedIdeal(s);
    } else {
      NotCompleteCosts(s);
      var k := Cut(s, 0);
      var tail := Encoded(s)[|Ideal(s[..k])|..];
      NoWrapAtCut(s, k);
      DecodedAfterIdeal(s[..k], tail);
      assert Encoded(s) == Ideal(s[..k]) + tail;
      assert tail == "" || tail == "%" || (|tail| == 2 && tail[0] == '%' && tail[1] != '\0');
      assert s[..k] + "" == s[..k];
    }
  }

  /** Nothing is lost when escaped bytes do not outnumber the plain ones. */
  lemma BalancedRoundTrip(s: string)
    requires Bytes(s) && 2 * Escapes(s) <= |s|
    ensures InBounds(Encoded(s)) && Decoded(Encoded(s)) == s && Encoded(s) == Ideal(s)
  {
    RoundTrip(s);
  }

  /** Two characters that need an escape are already one too many. */
  lemma TruncatedExample()
    ensures Encoded("  ") == "%20%" && Decoded(Encoded("  ")) == " "
  {
    var s := "  ";
    assert s[..1] == " " && s[1..] == " " && s[..0] == "" && " "[1..] == "";
    assert Escapes(" ") == 1 && Escapes(s) == 2;
    assert Ideal(" ") == "%20" + "" == "%20";
    assert Escape(' ') == "%20";
    CannotPay(s, 1);
    assert Encoded(s) == "%20" + "%20"[..1] == "%20%";
    DecodedAfterIdeal(" ", "%");
  }
}

/** Searching, splitting and joining strings at a separator character. */
module Text {

  /** First index of `c` at or after `from`, or -1. */
  function IndexOf(s: string, c: char, from: nat): (i: int)
    requires from <= |s|
    ensures -1 <= i < |s|
    ensures i != -1 ==> from <= i && s[i] == c
    decreases |s| - from
  {
    if from == |s| then -1
    else if s[from] == c then from
    else IndexOf(s, c, from + 1)
  }

  lemma {:induction false} IndexOfFirst(s: string, c: char, from: nat)
    requires from <= |s|
    ensures var i := IndexOf(s, c, from);
            forall k | from <= k < (if i == -1 then |s| else i) :: s[k] != c
    decreases |s| - from
  {
    if from < |s| && s[from] != c { IndexOfFirst(s, c, from + 1); }
  }

  lemma {:induction false} IndexOfIs(s: string, c: char, from: nat, i: nat)
    requires from <= i <= |s|
    requires forall k | from <= k < i :: s[k] != c
    requires i < |s| ==> s[i] == c
    ensures IndexOf(s, c, from) == if i == |s| then -1 else i
    decreases |s| - from
  {
    if from < i { IndexOfIs(s, c, from + 1, i); }
  }

  lemma IndexShift(s: string, c: char, i: nat)
    requires i <= |s|
    ensures IndexOf(s[i..], c, 0) == if IndexOf(s, c, i) == -1 then -1 else IndexOf(s, c, i) - i
  {
    var b := IndexOf(s, c, i);
    IndexOfFirst(s, c, i);
    IndexOfIs(s[i..], c, 0, if b == -1 then |s| - i else b - i);
  }

  /** Last index of `c`, or -1. */
  function LastIndexOf(s: string, c: char): (i: int)
    ensures -1 <= i < |s|
    ensures i != -1 ==> s[i] == c
  {
    if s == "" then -1
    else if s[|s| - 1] == c then |s| - 1
    else LastIndexOf(s[..|s| - 1], c)
  }

  lemma {:induction false} LastIndexOfLast(s: string, c: char)
    ensures forall k | LastIndexOf(s, c) < k < |s| :: s[k] != c
  {
    if s != "" && s[|s| - 1] != c { LastIndexOfLast(s[..|s| - 1], c); }
  }

  lemma {:induction false} LastIndexOfIs(s: string, c: char, i: int)
    requires -1 <= i < |s| && (i >= 0 ==> s[i] == c)
    requires forall k | i < k < |s| :: s[k] != c
    ensures LastIndexOf(s, c) == i
  {
    if i < |s| - 1 { LastIndexOfIs(s[..|s| - 1], c, i); }
  }

  /** The pieces between separators: n separators give n + 1 pieces. */
  function Split(s: string, c: char): (parts: seq<string>)
    decreases |s|
  {
    var i := IndexOf(s, c, 0);
    if i == -1 then [s] else [s[..i]] + Split(s[i + 1..], c)
  }

  /** The pieces with one separator between each two. */
  function Join(parts: seq<string>, c: char): string {
    if parts == [] then "" else if |parts| == 1 then parts[0] else parts[0] + [c] + Join(parts[1..], c)
  }

  lemma SplitAt(s: string, c: char)
    ensures var i := IndexOf(s, c, 0); Split(s, c) == if i == -1 then [s] else [s[..i]] + Split(s[i + 1..], c)
  {
    hide IndexOf;
  }

  lemma IndexInConcat(a: string, c: char, b: string)
    ensures IndexOf(a + [c] + b, c, 0) == if IndexOf(a, c, 0) == -1 then |a| else IndexOf(a, c, 0)
  {
    var i := IndexOf(a, c, 0);
    IndexOfFirst(a, c, 0);
    IndexOfIs(a + [c] + b, c, 0, if i == -1 then |a| else i);
  }

  lemma SlicesOfConcat(a: string, c: char, b: string, i: nat)
    requires i <= |a|
    ensures var s := a + [c] + b; s[..i] == a[..i] && s[i + 1..] == if i == |a| then b else a[i + 1..] + [c] + b
    ensures a[..|a|] == a
  {
  }

  lemma Regrouped<T>(a: seq<T>, b: seq<T>, c: seq<T>)
    ensures a + (b + c) == a + b + c
  {
  }

  lemma JoinNone(c: char)
    ensures Join([], c) == ""
  {
  }

  lemma SplitOne(s: string, c: char)
    requires c !in s
    ensures Split(s, c) == [s]
  {
    IndexOfIs(s, c, 0, |s|);
  }

  lemma {:induction false} SplitConcat(a: string, c: char, b: string)
    ensures Split(a + [c] + b, c) == Split(a, c) + Split(b, c)
    decreases |a|
  {
    hide Split, IndexOf;
    var i := IndexOf(a, c, 0);
    IndexInConcat(a, c, b);
    SplitAt(a + [c] + b, c);
    SplitAt(a, c);
    if i == -1 {
      SlicesOfConcat(a, c, b, |a|);
    } else {
      SlicesOfConcat(a, c, b, i);
      SplitConcat(a[i + 1..], c, b);
      Regrouped([a[..i]], Split(a[i + 1..], c), Split(b, c));
    }
  }

  /** Splitting undoes joining, for pieces without the separator. */
  lemma {:induction false} SplitJoin(parts: seq<string>, c: char)
    requires parts != [] && forall i | 0 <= i < |parts| :: c !in parts[i]
    ensures Split(Join(parts, c), c) == parts
  {
    SplitOne(parts[0], c);
    if |parts| > 1 {
      SplitJoin(parts[1..], c);
      SplitConcat(parts[0], c, Join(parts[1..], c));
      assert parts == [parts[0]] + parts[1..];
    }
  }

  lemma {:induction false} JoinSnoc(parts: seq<string>, c: char, last: string)
    ensures Join(parts + [last], c) == if parts == [] then last else Join(parts, c) + [c] + last
  {
    if parts == [] {
      assert parts + [last] == [last];
    } else {
      JoinSnoc(parts[1..], c, last);
      assert (parts + [last])[1..] == parts[1..] + [last];
      assert |parts| == 1 ==> parts[1..] == [];
    }
  }

  lemma {:induction false} JoinConcat(a: seq<string>, b: seq<string>, c: char)
    requires a != [] && b != []
    ensures Join(a + b, c) == Join(a, c) + [c] + Join(b, c)
  {
    if |a| == 1 {
      assert (a + b)[1..] == b;
    } else {
      assert (a + b)[1..] == a[1..] + b;
      JoinConcat(a[1..], b, c);
    }
  }

  lemma PrefixSnoc<T>(s: seq<T>, k: nat)
    requires k < |s|
    ensures s[..k + 1] == s[..k] + [s[k]]
  {
  }

  lemma TakeDrop<T>(s: seq<T>, k: nat)
    requires k <= |s|
    ensures s[..k] + s[k..] == s
  {
  }

  lemma Slices(s: string, i: nat, j: nat)
    requires i <= j < |s|
    ensures s[i..][..j - i] == s[i..j] && s[i..][j - i + 1..] == s[j + 1..]
  {
  }
}

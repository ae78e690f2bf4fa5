/** A static file system and what a path means in it: the reference against which the realpath walk
    of include/libnode/detail/fs.h is proved. */
module FileSystem {
  import opened Path
  import opened Wrappers
  import Text

  /** A place in the directory tree: the names from the root, none of them a symbolic link. */
  type Loc = seq<string>

  /** `id` is "dev:ino". */
  datatype Node = Entry | Link(target: string, id: string)

  type FS = map<Loc, Node>

  function Lookup(fs: FS, at: Loc): Option<Node> {
    if at == [] then Some(Entry) else if at in fs then Some(fs[at]) else None
  }

  function Parent(at: Loc): Loc { if at == [] then [] else at[..|at| - 1] }

  function Begin(at: Loc, target: string): Loc { if Absolute(target) then [] else at }

  /** Following `cs` from `at` ends after exactly `n` link expansions, at `out`, or with a missing
      entry when `out` is `None`. A chain of links that never ends has no such `n`. */
  ghost predicate Ends(fs: FS, at: Loc, cs: seq<string>, n: nat, out: Option<Loc>)
    decreases n, |cs|
  {
    if cs == [] then n == 0 && out == Some(at)
    else if cs[0] == ".." then Ends(fs, Parent(at), cs[1..], n, out)
    else
      match Lookup(fs, at + [cs[0]])
      case None => n == 0 && out == None
      case Some(Entry) => Ends(fs, at + [cs[0]], cs[1..], n, out)
      case Some(Link(t, _)) => n > 0 && Ends(fs, Begin(at, t), Components(t) + cs[1..], n - 1, out)
  }

  /** No link on the way. */
  ghost predicate Hard(fs: FS, cs: seq<string>, at: Loc) { Ends(fs, [], cs, 0, Some(at)) }

  /** What the kernel answers for the path `/cs`: `lstat` follows every component but the last,
      `stat` all of them. */
  ghost predicate Names(fs: FS, cs: seq<string>, node: Node) {
    if cs == [] then node == Entry
    else
      var up := cs[..|cs| - 1];
      exists m, at :: Ends(fs, [], up, m, Some(at)) && NodeAt(fs, at, cs[|cs| - 1]) == Some(node)
  }

  function NodeAt(fs: FS, at: Loc, c: string): Option<Node> {
    if c == ".." then Some(Entry) else Lookup(fs, at + [c])
  }

  ghost predicate Exists(fs: FS, cs: seq<string>) { exists m, at :: Ends(fs, [], cs, m, Some(at)) }

  // ----- the meaning is a function, and splits along the path -----

  lemma {:induction false} EndsOnce(fs: FS, at: Loc, cs: seq<string>, n: nat, out: Option<Loc>,
                                    n': nat, out': Option<Loc>)
    requires Ends(fs, at, cs, n, out) && Ends(fs, at, cs, n', out')
    ensures n == n' && out == out'
    decreases n, |cs|
  {
    if cs != [] {
      if cs[0] == ".." {
        EndsOnce(fs, Parent(at), cs[1..], n, out, n', out');
      } else {
        match Lookup(fs, at + [cs[0]]) {
          case None =>
          case Some(Entry) => EndsOnce(fs, at + [cs[0]], cs[1..], n, out, n', out');
          case Some(Link(t, _)) => EndsOnce(fs, Begin(at, t), Components(t) + cs[1..], n - 1, out, n' - 1, out');
        }
      }
    }
  }

  lemma Regroup<T>(a: seq<T>, b: seq<T>, c: seq<T>)
    ensures a + b + c == a + (b + c)
  {
  }

  lemma {:induction false} Compose(fs: FS, at: Loc, a: seq<string>, n: nat, mid: Option<Loc>,
                                   b: seq<string>, m: nat, out: Option<Loc>)
    requires Ends(fs, at, a, n, mid)
    requires if mid.None? then m == 0 && out == None else Ends(fs, mid.value, b, m, out)
    ensures Ends(fs, at, a + b, n + m, out)
    decreases n, |a|
  {
    hide Components;
    if a == [] {
      assert a + b == b;
    } else {
      assert (a + b)[1..] == a[1..] + b;
      if a[0] == ".." {
        Compose(fs, Parent(at), a[1..], n, mid, b, m, out);
      } else {
        match Lookup(fs, at + [a[0]]) {
          case None =>
          case Some(Entry) => Compose(fs, at + [a[0]], a[1..], n, mid, b, m, out);
          case Some(Link(t, _)) =>
            Compose(fs, Begin(at, t), Components(t) + a[1..], n - 1, mid, b, m, out);
            Regroup(Components(t), a[1..], b);
        }
      }
    }
  }

  lemma {:induction false} Decompose(fs: FS, at: Loc, a: seq<string>, b: seq<string>, n: nat, out: Option<Loc>)
    returns (k: nat, mid: Option<Loc>)
    requires Ends(fs, at, a + b, n, out)
    ensures k <= n && Ends(fs, at, a, k, mid)
    ensures if mid.None? then k == n && out == None else Ends(fs, mid.value, b, n - k, out)
    decreases n, |a|
  {
    hide Components;
    if a == [] {
      assert a + b == b;
      k, mid := 0, Some(at);
    } else {
      assert (a + b)[1..] == a[1..] + b;
      if a[0] == ".." {
        k, mid := Decompose(fs, Parent(at), a[1..], b, n, out);
      } else {
        match Lookup(fs, at + [a[0]]) {
          case None => k, mid := 0, None;
          case Some(Entry) => k, mid := Decompose(fs, at + [a[0]], a[1..], b, n, out);
          case Some(Link(t, _)) =>
            Regroup(Components(t), a[1..], b);
            k, mid := Decompose(fs, Begin(at, t), Components(t) + a[1..], b, n - 1, out);
            k := k + 1;
        }
      }
    }
  }

  // ----- a link target, reduced on the stack before it, means the same -----

  /** A prefix of a path without links has no links. */
  lemma HardPrefix(fs: FS, a: seq<string>, b: seq<string>, at: Loc) returns (mid: Loc)
    requires Hard(fs, a + b, at)
    ensures Hard(fs, a, mid) && Ends(fs, mid, b, 0, Some(at))
  {
    var k, m := Decompose(fs, [], a, b, 0, Some(at));
    mid := m.value;
  }

  lemma HardSnoc(fs: FS, a: seq<string>, c: string, at: Loc)
    requires Hard(fs, a, at) && NodeAt(fs, at, c) == Some(Entry)
    ensures Hard(fs, a + [c], if c == ".." then Parent(at) else at + [c])
  {
    Compose(fs, [], a, 0, Some(at), [c], 0, Some(if c == ".." then Parent(at) else at + [c]));
  }

  /** One push on the stack is one step in the tree. */
  lemma PushHard(fs: FS, a: seq<string>, at: Loc)
    requires Hard(fs, a, at)
    ensures Hard(fs, Push(a, ".."), Parent(at))
  {
    if a != [] && a[|a| - 1] != ".." {
      var up, last := a[..|a| - 1], a[|a| - 1];
      assert a == up + [last];
      var mid := HardPrefix(fs, up, [last], at);
      assert [last][1..] == [];
      assert at == mid + [last];
    } else {
      HardSnoc(fs, a, "..", at);
    }
  }

  lemma {:induction false} ReducedMeansSame(fs: FS, a: seq<string>, at: Loc, cs: seq<string>, rest: seq<string>,
                                            n: nat, out: Option<Loc>)
    requires Hard(fs, a, at) && Canonical(cs) && ".." !in rest
    requires Ends(fs, at, cs + rest, n, out)
    ensures Ends(fs, [], Reduce(a, cs) + rest, n, out)
    decreases |cs|
  {
    if cs != [] && cs[0] == ".." {
      UpFirst(fs, a, at, cs, rest, n, out);
      hide Ends, Reduce, Push, Canonical;
      ReducedMeansSame(fs, Push(a, ".."), Parent(at), cs[1..], rest, n, out);
      assert [".."] + cs[1..] == cs;
      ReduceCons(a, "..", cs[1..]);
    } else {
      assert ".." !in cs;
      hide Ends, Reduce;
      ReduceNames(a, cs);
      Compose(fs, [], a, 0, Some(at), cs + rest, n, out);
      Regroup(a, cs, rest);
    }
  }

  lemma UpFirst(fs: FS, a: seq<string>, at: Loc, cs: seq<string>, rest: seq<string>, n: nat, out: Option<Loc>)
    requires Hard(fs, a, at) && Canonical(cs) && cs != [] && cs[0] == ".." && Ends(fs, at, cs + rest, n, out)
    ensures Hard(fs, Push(a, ".."), Parent(at)) && Canonical(cs[1..]) && Ends(fs, Parent(at), cs[1..] + rest, n, out)
  {
    PushHard(fs, a, at);
    hide Push;
    assert (cs + rest)[1..] == cs[1..] + rest;
    assert forall i | 0 <= i < |cs[1..]| :: cs[1..][i] == cs[i + 1];
  }

  /** What the walk needs of the file system: equal dev:ino means equal target, and targets have ".."
      only at the front. */
  ghost predicate Sound(fs: FS) {
    && (forall at | at in fs && fs[at].Link? :: Canonical(Components(fs[at].target)) && OneLine(fs[at].target))
    && (forall x, y | x in fs && y in fs && fs[x].Link? && fs[y].Link? && fs[x].id == fs[y].id ::
          fs[x].target == fs[y].target)
  }

  /** `.` of a regular expression matches no line terminator. */
  predicate LineEnd(c: char) { c == '\n' || c == '\r' || c == '\U{2028}' || c == '\U{2029}' }

  predicate OneLine(s: string) { forall i | 0 <= i < |s| :: !LineEnd(s[i]) }

  lemma LineEnds(s: string)
    ensures OneLine(s) <==> '\n' !in s && '\r' !in s && '\U{2028}' !in s && '\U{2029}' !in s
  {
  }

  /** The central step: replacing a link by its target, read from the link's directory, leaves the
      meaning of the whole path, with one link less to follow. */
  lemma LinkExpands(fs: FS, a: seq<string>, at: Loc, c: string, target: string, id: string, rest: seq<string>,
                    n: nat, out: Option<Loc>)
    requires Sound(fs) && Hard(fs, a, at) && c != ".." && Lookup(fs, at + [c]) == Some(Link(target, id))
    requires ".." !in rest && Ends(fs, at, [c] + rest, n, out)
    ensures n > 0 && Ends(fs, [], Locate(a, Some(target)) + rest, n - 1, out)
  {
    assert ([c] + rest)[1..] == rest;
    assert at + [c] in fs;
    if Absolute(target) {
      ReducedMeansSame(fs, [], [], Components(target), rest, n - 1, out);
    } else {
      ReducedMeansSame(fs, a, at, Components(target), rest, n - 1, out);
    }
  }

  predicate Lines(cs: seq<string>) { forall i | 0 <= i < |cs| :: OneLine(cs[i]) }

  lemma {:induction false} SplitLines(s: string)
    requires OneLine(s)
    ensures Lines(Text.Split(s, SEP))
    decreases |s|
  {
    var i := Text.IndexOf(s, SEP, 0);
    if i != -1 { SplitLines(s[i + 1..]); }
  }

  lemma {:induction false} KeepLines(cs: seq<string>)
    requires Lines(cs)
    ensures Lines(Keep(cs))
  {
    if cs != [] {
      assert forall i | 0 <= i < |cs[1..]| :: cs[1..][i] == cs[i + 1];
      KeepLines(cs[1..]);
    }
  }

  lemma ComponentLines(s: string)
    requires OneLine(s)
    ensures Lines(Components(s))
  {
    SplitLines(s);
    KeepLines(Text.Split(s, SEP));
  }

  lemma {:induction false} ReduceLines(st: seq<string>, cs: seq<string>)
    requires Lines(st) && Lines(cs)
    ensures Lines(Reduce(st, cs))
    decreases |cs|
  {
    if cs != [] {
      assert forall i | 0 <= i < |cs[1..]| :: cs[1..][i] == cs[i + 1];
      assert OneLine(cs[0]);
      assert Lines(Push(st, cs[0]));
      ReduceLines(Push(st, cs[0]), cs[1..]);
    }
  }

  lemma LocateLines(a: seq<string>, target: string)
    requires Lines(a) && OneLine(target)
    ensures Lines(Locate(a, Some(target)))
  {
    ComponentLines(target);
    ReduceLines(a, Components(target));
    ReduceLines([], Components(target));
  }
}

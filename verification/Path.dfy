/** Path algebra of src/path.cpp (POSIX branch): `normalize`, `join`, `resolve`, `trimSeps`,
    `dirname` and `basename`.

    A path is a string. Its reference meaning is a list of components, reduced on a stack;
    the methods below are the string-scanning loops of the program and are proved against
    that meaning. */
module Path {
  import opened Text
  import opened Wrappers

  const SEP: char := '/'

  // ----- components: what a path string means -----

  /** The pieces that name something: neither empty nor ".". */
  function Keep(parts: seq<string>): seq<string> {
    if parts == [] then []
    else if Skipped(parts[0]) then Keep(parts[1..])
    else [parts[0]] + Keep(parts[1..])
  }

  predicate Skipped(part: string) { part == "" || part == "." }

  function Components(s: string): seq<string> { Keep(Split(s, SEP)) }

  function Push(stack: seq<string>, c: string): seq<string> {
    if c == ".." && stack != [] && stack[|stack| - 1] != ".." then stack[..|stack| - 1]
    else stack + [c]
  }

  /** Stack reduction: ".." removes the name before it and piles up at the front. */
  function Reduce(stack: seq<string>, cs: seq<string>): seq<string>
    decreases |cs|
  {
    if cs == [] then stack else Reduce(Push(stack, cs[0]), cs[1..])
  }

  /** A component as it may stand in a normalized path. */
  predicate Proper(c: string) { !Skipped(c) && SEP !in c }

  predicate AllProper(cs: seq<string>) { forall i | 0 <= i < |cs| :: Proper(cs[i]) }

  /** Normal form of a component list: proper, and ".." only as a leading run. */
  predicate Canonical(cs: seq<string>) {
    && AllProper(cs)
    && forall i, j | 0 <= i < j < |cs| :: cs[j] == ".." ==> cs[i] == ".."
  }

  predicate Absolute(s: string) { s != "" && s[0] == SEP }

  predicate EndsWithSep(s: string) { s != "" && s[|s| - 1] == SEP }

  function Slashed(cs: seq<string>): string { Join(cs, SEP) }

  /** The path string printed for a reduced component list. */
  function Print(absolute: bool, cs: seq<string>, trailing: bool): string {
    var body := (if absolute then "/" else "") + Slashed(cs) + (if cs != [] && trailing then "/" else "");
    if body == "" then "." else body
  }

  function Normal(s: string): string {
    Print(Absolute(s), Reduce([], Components(s)), EndsWithSep(s))
  }

  // ----- normalize -----

  /** The loop over `indexOfSep` with its directory stack. */
  method Normalize(path: string) returns (normal: string)
    ensures normal == Normal(path)
  {
    hide *;
    var absolute, endsWithSep := false, false;
    var dirs: seq<string> := [];
    var len := |path|;
    var i := 0;
    ScanStarts(path);
    while i < len
      invariant 0 <= i <= len && Scanned(path, i, dirs, absolute, endsWithSep)
    {
      var idx := IndexOf(path, SEP, i);
      ScanKeeps(path, i, dirs, absolute, endsWithSep);
      if idx == 0 {
        absolute := true;
      } else if idx != i {
        dirs := AddDir(dirs, if idx == -1 then path[i..] else path[i..idx]);
      }
      if idx == -1 {
        endsWithSep := false;
        i := len;
      } else {
        endsWithSep := true;
        i := idx + 1;
      }
    }
    ScanEnds(path, dirs, absolute, endsWithSep);
    normal := PrintDirs(absolute, dirs, endsWithSep);
  }

  /** What the scan has established when it stands at `i`. */
  ghost predicate Scanned(path: string, i: nat, dirs: seq<string>, absolute: bool, endsWithSep: bool)
    requires i <= |path|
  {
    && Reduce(dirs, Components(path[i..])) == Reduce([], Components(path))
    && (absolute <==> i > 0 && path[0] == SEP)
    && (endsWithSep <==> i > 0 && path[i - 1] == SEP)
  }

  lemma ScanStarts(path: string)
    ensures Scanned(path, 0, [], false, false)
  {
    assert path[0..] == path;
  }

  lemma ScanKeeps(path: string, i: nat, dirs: seq<string>, absolute: bool, endsWithSep: bool)
    requires i < |path| && Scanned(path, i, dirs, absolute, endsWithSep)
    ensures var idx := IndexOf(path, SEP, i);
            var piece := if idx == -1 then path[i..] else path[i..idx];
            var dirs' := if idx == i || piece == "." then dirs else Push(dirs, piece);
            Scanned(path, if idx == -1 then |path| else idx + 1, dirs', absolute || idx == 0, idx != -1)
            && (idx == 0 ==> idx == i)
  {
    hide Components, Reduce;
    ScanStep(path, i, dirs);
    NothingLeft(path);
  }

  lemma ScanEnds(path: string, dirs: seq<string>, absolute: bool, endsWithSep: bool)
    requires Scanned(path, |path|, dirs, absolute, endsWithSep)
    ensures Print(absolute, dirs, endsWithSep) == Normal(path)
  {
    NothingLeft(path);
    OnePiece("");
  }

  lemma NothingLeft(s: string)
    ensures s[|s|..] == ""
  {
  }

  /** The body of the scan for one piece: ".." pops a name, "." is dropped. */
  method AddDir(dirs: seq<string>, dir: string) returns (r: seq<string>)
    ensures r == if dir == "." then dirs else Push(dirs, dir)
  {
    r := dirs;
    if dir == ".." {
      var numDirs := |dirs|;
      if numDirs > 0 && dirs[numDirs - 1] != ".." {
        r := dirs[..numDirs - 1];
      } else {
        r := dirs + [dir];
      }
    } else if dir != "." {
      r := dirs + [dir];
    }
  }

  /** The second half of `normalize`: the builder loop over the directory stack. */
  method PrintDirs(absolute: bool, dirs: seq<string>, endsWithSep: bool) returns (normal: string)
    ensures normal == Print(absolute, dirs, endsWithSep)
  {
    hide Join;
    normal := if absolute then [SEP] else [];
    var numDirs := |dirs|;
    assert dirs[..0] == [];
    JoinNone(SEP);
    for k := 0 to numDirs
      invariant normal == (if absolute then "/" else "") + Slashed(dirs[..k])
    {
      PrefixSnoc(dirs, k);
      JoinSnoc(dirs[..k], SEP, dirs[k]);
      Regrouped(if absolute then "/" else "", Slashed(dirs[..k]) + [SEP], dirs[k]);
      Regrouped(if absolute then "/" else "", Slashed(dirs[..k]), [SEP]);
      if k > 0 { normal := normal + [SEP]; }
      normal := normal + dirs[k];
    }
    assert dirs[..numDirs] == dirs;
    if numDirs > 0 && endsWithSep { normal := normal + [SEP]; }
    if |normal| == 0 { normal := "."; }
  }

  /** One step of the scan: the piece at `i` is the first piece of the rest of the path. */
  lemma ScanNext(s: string, i: nat, idx: nat)
    requires i < |s| && IndexOf(s, SEP, i) == idx
    ensures Components(s[i..])
            == if Skipped(s[i..idx]) then Components(s[idx + 1..]) else [s[i..idx]] + Components(s[idx + 1..])
  {
    hide Components, Skipped, IndexOf;
    IndexShift(s, SEP, i);
    Slices(s, i, idx);
    ComponentsUnfold(s[i..], idx - i);
  }

  lemma ScanLast(s: string, i: nat)
    requires i < |s| && IndexOf(s, SEP, i) == -1
    ensures Components(s[i..]) == if Skipped(s[i..]) then [] else [s[i..]]
    ensures s[|s| - 1] != SEP
  {
    IndexOfFirst(s, SEP, i);
    OnePiece(s[i..]);
  }

  lemma ScanStep(s: string, i: nat, dirs: seq<string>)
    requires i < |s|
    ensures var idx := IndexOf(s, SEP, i);
            var piece := if idx == -1 then s[i..] else s[i..idx];
            Reduce(dirs, Components(s[i..]))
            == Reduce(if Skipped(piece) then dirs else Push(dirs, piece),
                      Components(if idx == -1 then "" else s[idx + 1..]))
    ensures IndexOf(s, SEP, i) == -1 ==> s[|s| - 1] != SEP
  {
    hide Components, Reduce, IndexOf;
    var idx := IndexOf(s, SEP, i);
    if idx == -1 {
      ScanLast(s, i);
      OnePiece("");
      ReduceCons(dirs, s[i..], []);
      assert [s[i..]] + [] == [s[i..]];
    } else {
      ScanNext(s, i, idx);
      ReduceCons(dirs, s[i..idx], Components(s[idx + 1..]));
    }
  }

  lemma ComponentsUnfold(t: string, j: nat)
    requires IndexOf(t, SEP, 0) == j
    ensures Components(t) == if Skipped(t[..j]) then Components(t[j + 1..]) else [t[..j]] + Components(t[j + 1..])
  {
    KeepCons(t[..j], Split(t[j + 1..], SEP));
  }

  lemma ReduceCons(st: seq<string>, c: string, cs: seq<string>)
    ensures Reduce(st, [c] + cs) == Reduce(Push(st, c), cs)
    ensures Reduce(st, [c]) == Push(st, c)
  {
    assert ([c] + cs)[1..] == cs && [c][1..] == [];
  }

  // ----- facts about components -----

  /** A string without separators is one piece. */
  lemma OnePiece(s: string)
    requires SEP !in s
    ensures Split(s, SEP) == [s]
    ensures Components(s) == if Skipped(s) then [] else [s]
  {
    SplitOne(s, SEP);
    KeepCons(s, []);
    assert [s] + [] == [s];
  }

  /** Joining two paths with a separator appends their component lists. */
  lemma ComponentsJoin(a: string, b: string)
    ensures Components(a + "/" + b) == Components(a) + Components(b)
  {
    SplitConcat(a, SEP, b);
    KeepConcat(Split(a, SEP), Split(b, SEP));
  }

  lemma KeepCons(part: string, rest: seq<string>)
    ensures Keep([part] + rest) == if Skipped(part) then Keep(rest) else [part] + Keep(rest)
  {
    assert ([part] + rest)[1..] == rest;
  }

  lemma {:induction false} KeepConcat(p: seq<string>, q: seq<string>)
    ensures Keep(p + q) == Keep(p) + Keep(q)
  {
    if p == [] {
      assert p + q == q;
    } else {
      assert (p + q)[1..] == p[1..] + q;
      KeepConcat(p[1..], q);
    }
  }

  lemma {:induction false} ComponentsProper(s: string)
    ensures AllProper(Components(s))
    decreases |s|
  {
    var i := IndexOf(s, SEP, 0);
    IndexOfFirst(s, SEP, 0);
    if i == -1 {
      OnePiece(s);
    } else {
      ComponentsProper(s[i + 1..]);
      KeepCons(s[..i], Split(s[i + 1..], SEP));
    }
  }

  lemma ComponentsEdges(s: string)
    ensures Components("/" + s) == Components(s)
    ensures Components(s + "/") == Components(s)
    ensures Components("") == [] && Components(".") == [] && Components("/") == []
  {
    OnePiece("");
    OnePiece(".");
    ComponentsJoin("", s);
    ComponentsJoin(s, "");
    ComponentsJoin("", "");
    assert "" + "/" + s == "/" + s;
    assert s + "/" + "" == s + "/";
    assert "" + "/" + "" == "/";
  }

  /** Printing proper components and scanning them back loses nothing. */
  lemma SplitSlashed(cs: seq<string>)
    requires AllProper(cs) && cs != []
    ensures Split(Slashed(cs), SEP) == cs
  {
    SplitJoin(cs, SEP);
  }

  lemma {:induction false} KeepProper(cs: seq<string>)
    requires AllProper(cs)
    ensures Keep(cs) == cs
  {
    if cs != [] {
      assert Proper(cs[0]);
      KeepProper(cs[1..]);
    }
  }

  lemma ComponentsSlashed(cs: seq<string>)
    requires AllProper(cs)
    ensures Components(Slashed(cs)) == cs
  {
    OnePiece("");
    KeepProper(cs);
    if cs != [] { SplitSlashed(cs); }
  }

  // ----- facts about the stack reduction -----

  lemma {:induction false} ReduceConcat(st: seq<string>, a: seq<string>, b: seq<string>)
    ensures Reduce(st, a + b) == Reduce(Reduce(st, a), b)
    decreases |a|
  {
    if a == [] {
      assert a + b == b;
    } else {
      assert (a + b)[1..] == a[1..] + b;
      ReduceConcat(Push(st, a[0]), a[1..], b);
    }
  }

  lemma {:induction false} ReduceCanonical(st: seq<string>, cs: seq<string>)
    requires Canonical(st) && AllProper(cs)
    ensures Canonical(Reduce(st, cs))
    decreases |cs|
  {
    if cs != [] {
      var p := Push(st, cs[0]);
      assert cs[0] in cs;
      forall i, j | 0 <= i < j < |p| && p[j] == ".." ensures p[i] == ".." {
        if j == |st| && st != [] {
          assert st[|st| - 1] == "..";
          assert i == |st| - 1 || st[i] == "..";
        }
      }
      ReduceCanonical(p, cs[1..]);
    }
  }

  /** A list of names without ".." is simply appended. */
  lemma {:induction false} ReduceNames(st: seq<string>, cs: seq<string>)
    requires ".." !in cs
    ensures Reduce(st, cs) == st + cs
    decreases |cs|
  {
    if cs != [] {
      assert cs[0] in cs;
      ReduceNames(Push(st, cs[0]), cs[1..]);
      assert st + cs == st + [cs[0]] + cs[1..];
    }
  }

  /** Canonical lists are fixed points of the reduction. */
  lemma {:induction false} ReduceFixed(cs: seq<string>, k: nat)
    requires Canonical(cs) && k <= |cs|
    ensures Reduce(cs[..k], cs[k..]) == cs
    decreases |cs| - k
  {
    if k == |cs| {
      assert cs[..k] == cs;
    } else {
      assert cs[k..][0] == cs[k] && cs[k..][1..] == cs[k + 1..];
      assert k > 0 && cs[k] == ".." ==> cs[k - 1] == "..";
      assert Push(cs[..k], cs[k]) == cs[..k + 1];
      ReduceFixed(cs, k + 1);
    }
  }

  lemma ReduceIdempotent(cs: seq<string>)
    requires Canonical(cs)
    ensures Reduce([], cs) == cs
  {
    ReduceFixed(cs, 0);
    assert cs[..0] == [] && cs[0..] == cs;
  }

  lemma ReducedCanonical(s: string)
    ensures Canonical(Reduce([], Components(s)))
  {
    ComponentsProper(s);
    ReduceCanonical([], Components(s));
  }

  // ----- normalize: canonical form, read-back, idempotence -----

  /** A proper component does not start or end with a separator. */
  lemma {:induction false} SlashedEdges(cs: seq<string>)
    requires AllProper(cs) && cs != []
    ensures Slashed(cs) != "" && !Absolute(Slashed(cs)) && !EndsWithSep(Slashed(cs))
  {
    assert cs[0] in cs && cs[0][0] in cs[0];
    if |cs| == 1 {
      assert cs[0][|cs[0]| - 1] in cs[0];
    } else {
      SlashedEdges(cs[1..]);
    }
  }

  /** Exact pieces of a printed path: a root piece, the components, a trailing piece. */
  lemma PrintPieces(absolute: bool, cs: seq<string>, trailing: bool)
    requires AllProper(cs) && cs != []
    ensures Split(Print(absolute, cs, trailing), SEP)
            == (if absolute then [""] else []) + cs + (if trailing then [""] else [])
  {
    hide Split, Slashed, Print, AllProper, Components;
    SplitSlashed(cs);
    PrintShape(absolute, cs, trailing);
    OnePiece("");
    var x := Slashed(cs);
    var y := if trailing then x + "/" else x;
    if trailing { SplitBehind(x); }
    if absolute {
      SplitBefore(y);
      if trailing { Regrouped([""], cs, [""]); }
    }
    NothingAround(cs);
  }

  lemma SplitBehind(x: string)
    ensures Split(x + "/", SEP) == Split(x, SEP) + [""]
  {
    hide Split;
    OnePiece("");
    SplitConcat(x, SEP, "");
    assert x + [SEP] + "" == x + "/";
  }

  lemma SplitBefore(y: string)
    ensures Split("/" + y, SEP) == [""] + Split(y, SEP)
  {
    hide Split;
    OnePiece("");
    SplitConcat("", SEP, y);
    assert "" + [SEP] + y == "/" + y;
  }

  lemma NothingAround(cs: seq<string>)
    ensures [] + cs == cs && cs + [] == cs && [""] + cs + [] == [""] + cs
  {
  }

  lemma PrintShape(absolute: bool, cs: seq<string>, trailing: bool)
    requires AllProper(cs) && cs != []
    ensures var y := if trailing then Slashed(cs) + "/" else Slashed(cs);
            Print(absolute, cs, trailing) == if absolute then "/" + y else y
  {
    SlashedEdges(cs);
  }

  /** What is printed for a reduced list reads back as that list, with the same root and end. */
  lemma PrintReadsBack(absolute: bool, cs: seq<string>, trailing: bool)
    requires AllProper(cs)
    ensures Components(Print(absolute, cs, trailing)) == cs
    ensures Absolute(Print(absolute, cs, trailing)) == absolute
    ensures cs != [] ==> EndsWithSep(Print(absolute, cs, trailing)) == trailing
  {
    ComponentsEdges("");
    if cs != [] {
      PrintPieces(absolute, cs, trailing);
      PrintEdges(absolute, cs, trailing);
      PiecesKept(if absolute then [""] else [], cs, if trailing then [""] else []);
    }
  }

  lemma PiecesKept(front: seq<string>, cs: seq<string>, back: seq<string>)
    requires AllProper(cs) && front in [[], [""]] && back in [[], [""]]
    ensures Keep(front + cs + back) == cs
  {
    KeepProper(cs);
    KeepCons("", []);
    assert [""] + [] == [""];
    KeepConcat(front, cs);
    KeepConcat(front + cs, back);
  }

  lemma PrintEdges(absolute: bool, cs: seq<string>, trailing: bool)
    requires AllProper(cs) && cs != []
    ensures Absolute(Print(absolute, cs, trailing)) == absolute
    ensures EndsWithSep(Print(absolute, cs, trailing)) == trailing
  {
    PrintShape(absolute, cs, trailing);
    SlashedEdges(cs);
  }

  /** The components of a normalized path are the stack reduction of the input's components:
      proper, with ".." only as a leading run, and the root of the path is kept. */
  lemma NormalizeCanonical(s: string)
    ensures Components(Normal(s)) == Reduce([], Components(s))
    ensures Canonical(Components(Normal(s)))
    ensures Absolute(Normal(s)) == Absolute(s)
  {
    ReducedCanonical(s);
    PrintReadsBack(Absolute(s), Reduce([], Components(s)), EndsWithSep(s));
  }

  /** No piece of a normalized path is empty or ".", except the root, a trailing separator and
      the lone "." that stands for the empty relative path. */
  lemma NormalizePieces(s: string)
    ensures var cs := Components(Normal(s));
            Split(Normal(s), SEP) == if cs != [] then
              (if Absolute(s) then [""] else []) + cs + (if EndsWithSep(s) then [""] else [])
            else if Absolute(s) then ["", ""] else ["."]
  {
    hide Reduce, Keep, Components;
    NormalizeCanonical(s);
    var cs := Components(Normal(s));
    if cs != [] {
      PrintPieces(Absolute(s), cs, EndsWithSep(s));
    } else {
      OnePiece("");
      OnePiece(".");
      SplitConcat("", SEP, "");
      assert "" + "/" + "" == "/";
    }
  }

  lemma NormalizeIdempotent(s: string)
    ensures Normal(Normal(s)) == Normal(s)
  {
    var cs := Reduce([], Components(s));
    ReducedCanonical(s);
    PrintReadsBack(Absolute(s), cs, EndsWithSep(s));
    ReduceIdempotent(cs);
  }

  // ----- trimSeps -----

  /** Trailing separators removed, except that a path of separators only keeps its first. */
  function Trim(s: string): string {
    if |s| <= 1 || s[|s| - 1] != SEP then s else Trim(s[..|s| - 1])
  }

  method TrimSeps(str: string) returns (r: string)
    ensures r == Trim(str)
  {
    var len := |str|;
    if len == 0 { return str; }
    var i := len - 1;
    assert str[..i + 1] == str;
    while true
      invariant 0 <= i < len
      invariant Trim(str[..i + 1]) == Trim(str)
      decreases i
    {
      if str[i] != SEP { return str[..i + 1]; }
      if i > 0 {
        assert str[..i + 1][..i] == str[..i];
        i := i - 1;
      } else {
        break;
      }
    }
    return str[..1];
  }

  /** Only separators are removed, and none that matters is left. */
  lemma {:induction false} TrimMeaning(s: string)
    ensures Trim(s) <= s
    ensures forall k | |Trim(s)| <= k < |s| :: s[k] == SEP
    ensures EndsWithSep(Trim(s)) ==> |Trim(s)| == 1
    ensures Components(Trim(s)) == Components(s)
    ensures Absolute(Trim(s)) == Absolute(s)
  {
    if |s| > 1 && s[|s| - 1] == SEP {
      var t := s[..|s| - 1];
      assert t + "/" == s;
      TrimMeaning(t);
      ComponentsEdges(t);
    }
  }

  // ----- resolve -----

  /** The string that `resolve` builds: an absolute path discards what came before it. */
  function Append(acc: string, p: Option<string>): string {
    match p
    case None => acc
    case Some(s) => if Absolute(s) then s else if s != "" then acc + "/" + s else acc
  }

  function Appended(acc: string, ps: seq<Option<string>>): string
    decreases |ps|
  {
    if ps == [] then acc else Appended(Append(acc, ps[0]), ps[1..])
  }

  function Resolved(cwd: string, ps: seq<Option<string>>): string {
    Trim(Normal(Appended(cwd, ps)))
  }

  /** `None` stands for an array element that is not a string. */
  method Resolve(cwd: string, paths: seq<Option<string>>) returns (r: string)
    ensures r == Resolved(cwd, paths)
  {
    var resolved := cwd;
    for i := 0 to |paths|
      invariant Appended(resolved, paths[i..]) == Appended(cwd, paths)
    {
      ghost var before := resolved;
      match paths[i] {
        case None =>
        case Some(path) =>
          if path != "" && path[0] == SEP {
            resolved := "";
          } else if path != "" {
            resolved := resolved + "/";
          }
          resolved := resolved + path;
      }
      assert resolved == Append(before, paths[i]);
      assert paths[i..][0] == paths[i] && paths[i..][1..] == paths[i + 1..];
    }
    var n := Normalize(resolved);
    r := TrimSeps(n);
  }

  /** The absolute path string of a component list. */
  function Root(cs: seq<string>): string { "/" + Slashed(cs) }

  /** Where a path leads, seen from a reduced location. */
  function Locate(loc: seq<string>, p: Option<string>): seq<string> {
    match p
    case None => loc
    case Some(s) => if Absolute(s) then Reduce([], Components(s)) else Reduce(loc, Components(s))
  }

  function LocateAll(loc: seq<string>, ps: seq<Option<string>>): seq<string>
    decreases |ps|
  {
    if ps == [] then loc else LocateAll(Locate(loc, ps[0]), ps[1..])
  }

  lemma RootReadsBack(cs: seq<string>)
    requires AllProper(cs)
    ensures Absolute(Root(cs)) && Components(Root(cs)) == cs
  {
    ComponentsSlashed(cs);
    ComponentsEdges(Slashed(cs));
  }

  lemma TrimNormalAbsolute(s: string)
    requires Absolute(s)
    ensures Trim(Normal(s)) == Root(Reduce([], Components(s)))
  {
    var cs := Reduce([], Components(s));
    ReducedCanonical(s);
    if cs != [] {
      PrintShape(true, cs, EndsWithSep(s));
      SlashedEdges(cs);
      TrimOne(Root(cs));
    }
  }

  lemma TrimOne(body: string)
    requires |body| > 1 && !EndsWithSep(body)
    ensures Trim(body) == body && Trim(body + "/") == body
  {
    assert (body + "/")[..|body|] == body;
  }

  lemma {:induction false} AppendedLocation(acc: string, ps: seq<Option<string>>)
    requires Absolute(acc)
    ensures Absolute(Appended(acc, ps))
    ensures Reduce([], Components(Appended(acc, ps))) == LocateAll(Reduce([], Components(acc)), ps)
    decreases |ps|
  {
    if ps != [] {
      var acc' := Append(acc, ps[0]);
      match ps[0] {
        case None =>
        case Some(s) =>
          if !Absolute(s) {
            ComponentsEdges(s);
            ComponentsJoin(acc, s);
            ReduceConcat([], Components(acc), Components(s));
            assert s == "" ==> Reduce(Reduce([], Components(acc)), Components(s)) == Reduce([], Components(acc));
          }
      }
      AppendedLocation(acc', ps[1..]);
    }
  }

  /** `resolve` computes on locations: it is the fold of `Locate` from the working directory. */
  lemma ResolveIsFold(cwd: string, ps: seq<Option<string>>)
    requires Absolute(cwd)
    ensures Resolved(cwd, ps) == Root(LocateAll(Reduce([], Components(cwd)), ps))
    ensures Canonical(LocateAll(Reduce([], Components(cwd)), ps))
  {
    AppendedLocation(cwd, ps);
    TrimNormalAbsolute(Appended(cwd, ps));
    ReducedCanonical(Appended(cwd, ps));
  }

  lemma {:induction false} LocateAllConcat(loc: seq<string>, a: seq<Option<string>>, b: seq<Option<string>>)
    ensures LocateAll(loc, a + b) == LocateAll(LocateAll(loc, a), b)
    decreases |a|
  {
    if a == [] {
      assert a + b == b;
    } else {
      assert (a + b)[1..] == a[1..] + b;
      LocateAllConcat(Locate(loc, a[0]), a[1..], b);
    }
  }

  /** resolve(xs + [y]) == resolve([resolve(xs), y]). */
  lemma ResolveLeftFold(cwd: string, xs: seq<Option<string>>, y: Option<string>)
    requires Absolute(cwd)
    ensures Resolved(cwd, xs + [y]) == Resolved(cwd, [Some(Resolved(cwd, xs)), y])
  {
    var here := Reduce([], Components(cwd));
    var loc := LocateAll(here, xs);
    ResolveIsFold(cwd, xs);
    ResolveIsFold(cwd, xs + [y]);
    ResolveIsFold(cwd, [Some(Resolved(cwd, xs)), y]);
    LocateAllConcat(here, xs, [y]);
    RootReadsBack(loc);
    ReduceIdempotent(loc);
    assert [Some(Root(loc)), y][1..] == [y];
    assert Locate(here, Some(Root(loc))) == loc;
  }

  /** Only the suffix from the last absolute path matters. */
  lemma ResolveFromLastAbsolute(cwd: string, cwd': string, xs: seq<Option<string>>, a: string, ys: seq<Option<string>>)
    requires Absolute(cwd) && Absolute(cwd') && Absolute(a)
    ensures Resolved(cwd, xs + [Some(a)] + ys) == Resolved(cwd', [Some(a)] + ys)
  {
    var here, there := Reduce([], Components(cwd)), Reduce([], Components(cwd'));
    ResolveIsFold(cwd, xs + [Some(a)] + ys);
    ResolveIsFold(cwd', [Some(a)] + ys);
    LocateAllConcat(here, xs + [Some(a)], ys);
    LocateAllConcat(here, xs, [Some(a)]);
    LocateAllConcat(there, [Some(a)], ys);
  }

  // ----- join -----

  function Strings(ps: seq<Option<string>>): seq<string> {
    if ps == [] then []
    else if ps[0].Some? then [ps[0].value] + Strings(ps[1..])
    else Strings(ps[1..])
  }

  function Joined(ps: seq<Option<string>>): string { Normal(Slashed(Strings(ps))) }

  method JoinPaths(paths: seq<Option<string>>) returns (r: string)
    ensures r == Joined(paths)
  {
    var joined, first := "", true;
    for i := 0 to |paths|
      invariant joined == Slashed(Strings(paths[..i]))
      invariant first <==> Strings(paths[..i]) == []
    {
      StringsSnoc(paths[..i], paths[i]);
      PrefixSnoc(paths, i);
      if paths[i].Some? {
        JoinSnoc(Strings(paths[..i]), SEP, paths[i].value);
        if first { first := false; } else { joined := joined + "/"; }
        joined := joined + paths[i].value;
      } else {
        assert Strings(paths[..i + 1]) == Strings(paths[..i]);
      }
    }
    assert paths[..|paths|] == paths;
    r := Normalize(joined);
  }

  lemma {:induction false} StringsSnoc(ps: seq<Option<string>>, p: Option<string>)
    ensures Strings(ps + [p]) == Strings(ps) + (if p.Some? then [p.value] else [])
  {
    if ps == [] {
      assert ps + [p] == [p] && [p][1..] == [];
    } else {
      assert (ps + [p])[1..] == ps[1..] + [p];
      StringsSnoc(ps[1..], p);
    }
  }

  /** join(xs + [y]) == join([join(xs), y]) except in two cases, where the root differs: a lone
      empty string before `y`, and no string at all before an absolute `y`. */
  lemma JoinLeftFold(xs: seq<Option<string>>, y: string)
    ensures Joined(xs + [Some(y)]) == Joined([Some(Joined(xs)), Some(y)])
            <==> !(Strings(xs) == [""] || (Strings(xs) == [] && Absolute(y)))
  {
    var ss := Strings(xs);
    var x := Slashed(ss);
    StringsSnoc(xs, Some(y));
    JoinSnoc(ss, SEP, y);
    var left := if ss == [] then y else x + "/" + y;
    assert Joined(xs + [Some(y)]) == Normal(left);
    JoinTwo(Normal(x), y);
    var right := Normal(x) + "/" + y;
    JoinComponents(ss, y);
    JoinRoots(ss, y);
    NormalizeCanonical(left);
    NormalizeCanonical(right);
    JoinEnds(ss, y);
  }

  lemma JoinTwo(x: string, y: string)
    ensures Joined([Some(x), Some(y)]) == Normal(x + "/" + y)
  {
    assert [Some(y)][1..] == [];
    assert [Some(x), Some(y)][1..] == [Some(y)];
    assert Strings([Some(y)]) == [y];
    assert Strings([Some(x), Some(y)]) == [x, y];
    assert [x, y][1..] == [y];
    assert Slashed([y]) == y;
  }

  /** The two strings that `join` normalizes reduce to the same components. */
  lemma JoinComponents(ss: seq<string>, y: string)
    ensures var x := Slashed(ss);
            Reduce([], Components(if ss == [] then y else x + "/" + y))
            == Reduce([], Components(Normal(x) + "/" + y))
  {
    var x := Slashed(ss);
    ComponentsEdges("");
    ComponentsJoin(x, y);
    ComponentsJoin(Normal(x), y);
    NormalizeCanonical(x);
    var cx, cy := Components(x), Components(y);
    ReduceConcat([], Components(Normal(x)), cy);
    ReduceConcat([], cx, cy);
    ReduceIdempotent(Reduce([], cx));
    assert Reduce([], Components(Normal(x) + "/" + y)) == Reduce(Reduce([], cx), cy);
    if ss == [] { assert cx == []; }
  }

  lemma JoinRoots(ss: seq<string>, y: string)
    ensures var x := Slashed(ss);
            Absolute(if ss == [] then y else x + "/" + y) == Absolute(Normal(x) + "/" + y)
            <==> !(ss == [""] || (ss == [] && Absolute(y)))
  {
    var x := Slashed(ss);
    NormalizeCanonical(x);
    NonEmpty(x);
    assert Absolute(Normal(x) + "/" + y) == Absolute(x);
    if |ss| > 1 {
      assert |x| > 0;
      assert Absolute(x + "/" + y) == Absolute(x);
    }
  }

  lemma NonEmpty(x: string)
    ensures |Normal(x)| > 0
  {
  }

  /** The two strings also end alike, unless nothing is printed after the root. */
  lemma JoinEnds(ss: seq<string>, y: string)
    ensures var x := Slashed(ss);
            var left := if ss == [] then y else x + "/" + y;
            Components(left) != [] ==> EndsWithSep(left) == EndsWithSep(Normal(x) + "/" + y)
  {
    ComponentsEdges("");
  }

  // ----- dirname and basename -----

  function Basename(path: string): string {
    var p := Trim(path);
    var i := LastIndexOf(p, SEP);
    if i == -1 then p else p[i + 1..]
  }

  function Dirname(path: string): string {
    var p := Trim(path);
    var base := Basename(p);
    if |base| >= |p| then "."
    else
      var sepPos := |p| - |base| - 1;
      if sepPos > 0 then p[..sepPos] else p[..1]
  }

  predicate AllSeps(s: string) { forall i | 0 <= i < |s| :: s[i] == SEP }

  lemma {:induction false} TrimTail(p: string, tail: string)
    requires p != "" && AllSeps(tail) && (EndsWithSep(p) ==> |p| == 1)
    ensures Trim(p + tail) == p
  {
    if tail == "" {
      assert p + tail == p;
    } else {
      var t := tail[..|tail| - 1];
      assert (p + tail)[..|p + tail| - 1] == p + t && (p + tail)[|p + tail| - 1] == SEP;
      TrimTail(p, t);
    }
  }

  // Every path falls under one of these cases, with any number of separators at its end: a directory and a
  // name, a name alone, the root, or nothing.

  lemma InDirectory(dir: string, name: string, tail: string)
    requires AllSeps(tail) && SEP !in name && name != ""
    ensures Basename(dir + "/" + name + tail) == name
    ensures Dirname(dir + "/" + name + tail) == if dir == "" then "/" else dir
  {
    hide Trim, LastIndexOf;
    var p := dir + "/" + name;
    assert p[|dir|] == SEP && p[|p| - 1] == name[|name| - 1] && name[|name| - 1] in name;
    TrimTail(p, tail);
    TrimTail(p, "");
    assert p + "" == p;
    LastIndexOfIs(p, SEP, |dir|);
    assert p[|dir| + 1..] == name && p[..|dir|] == dir && (dir == "" ==> p[..1] == "/");
  }

  lemma NameAlone(name: string, tail: string)
    requires AllSeps(tail) && SEP !in name && name != ""
    ensures Basename(name + tail) == name && Dirname(name + tail) == "."
  {
    hide Trim, LastIndexOf;
    assert name[|name| - 1] in name;
    TrimTail(name, tail);
    TrimTail(name, "");
    assert name + "" == name;
    LastIndexOfIs(name, SEP, -1);
  }

  lemma RootAlone(tail: string)
    requires AllSeps(tail) && tail != ""
    ensures Basename(tail) == "" && Dirname(tail) == "/"
  {
    hide Trim, LastIndexOf;
    assert tail == "/" + tail[1..];
    TrimTail("/", tail[1..]);
    TrimTail("/", "");
    assert "/" + "" == "/" && "/"[1..] == "" && "/"[..1] == "/";
    LastIndexOfIs("/", SEP, 0);
  }

  lemma EmptyPath()
    ensures Basename("") == "" && Dirname("") == "."
  {
  }

  /** On a resolved path the two functions split off the last component, and `resolve`
      puts the path together again. */
  lemma DirnameBasename(cwd: string, cs: seq<string>)
    requires Canonical(cs) && cs != [] && Absolute(cwd)
    ensures Dirname(Root(cs)) == Root(cs[..|cs| - 1]) && Basename(Root(cs)) == cs[|cs| - 1]
    ensures Resolved(cwd, [Some(Dirname(Root(cs))), Some(Basename(Root(cs)))]) == Root(cs)
  {
    var n := |cs| - 1;
    var up, last := cs[..n], cs[n];
    var p := Root(cs);
    RootSnoc(up, last);
    assert cs == up + [last];
    SlashedEdges(cs);
    var head := if up == [] then "/" else Root(up) + "/";
    LastIndexOfIs(p, SEP, |head| - 1);
    SplitLast(p, head, last);
    if up != [] { DropLast(Root(up), "/"); }
    CanonicalPrefix(cs, n);
    ResolveTwo(cwd, up, last);
  }

  lemma DropLast(a: string, b: string)
    requires |b| == 1
    ensures (a + b)[..|a + b| - 1] == a
  {
  }

  lemma CanonicalPrefix(cs: seq<string>, n: nat)
    requires Canonical(cs) && n <= |cs|
    ensures Canonical(cs[..n])
  {
    var up := cs[..n];
    assert forall i | 0 <= i < n :: up[i] == cs[i];
  }

  lemma SplitLast(p: string, head: string, last: string)
    requires p == head + last && head != "" && last != "" && !EndsWithSep(p)
    requires LastIndexOf(p, SEP) == |head| - 1
    ensures Basename(p) == last
    ensures Dirname(p) == if |head| > 1 then head[..|head| - 1] else head
  {
    assert p[|head|..] == last;
    assert Trim(p) == p;
    assert p[..|head| - 1] == head[..|head| - 1];
  }

  lemma RootSnoc(up: seq<string>, last: string)
    ensures Root(up + [last]) == (if up == [] then "/" else Root(up) + "/") + last
  {
    JoinSnoc(up, SEP, last);
  }

  lemma ResolveTwo(cwd: string, up: seq<string>, last: string)
    requires Canonical(up + [last]) && Canonical(up) && Absolute(cwd)
    ensures Resolved(cwd, [Some(Root(up)), Some(last)]) == Root(up + [last])
  {
    var ps := [Some(Root(up)), Some(last)];
    var cs := up + [last];
    ResolveIsFold(cwd, ps);
    RootReadsBack(up);
    ReduceIdempotent(up);
    assert Proper(cs[|up|]);
    OnePiece(last);
    ReduceFixed(cs, |up|);
    assert cs[..|up|] == up && cs[|up|..] == [last];
    assert ps[1..] == [Some(last)] && [Some(last)][1..] == [];
    assert LocateAll(Reduce([], Components(cwd)), ps) == LocateAll(up, [Some(last)]);
  }
}

/** The `realpath` walk of include/libnode/detail/fs.h as a machine of callbacks, against the meaning
    of paths in a static file system. */
module Realpath {
  import opened Text
  import opened Path
  import opened FileSystem
  import opened Wrappers

  // ----- the path string while it is walked -----

  /** A path that the walk may stand on: resolved, and on one line. */
  predicate Walkable(cs: seq<string>) { Canonical(cs) && Lines(cs) }

  /** The path up to component `k`, with the separator after it. */
  function Upto(cs: seq<string>, k: nat): string
    requires k <= |cs|
  {
    if k == 0 then "/" else if k == |cs| then Root(cs) else Root(cs[..k]) + "/"
  }

  lemma UptoRest(cs: seq<string>, k: nat)
    requires k <= |cs|
    ensures Root(cs) == Upto(cs, k) + Slashed(cs[k..])
  {
    if k == 0 {
      assert cs[0..] == cs;
    } else if k < |cs| {
      assert cs == cs[..k] + cs[k..];
      JoinConcat(cs[..k], cs[k..], SEP);
    }
  }

  lemma UptoNext(cs: seq<string>, k: nat)
    requires k < |cs|
    ensures Root(cs[..k + 1]) == Upto(cs, k) + cs[k]
    ensures Upto(cs, k + 1) == Upto(cs, k) + cs[k] + if k + 1 < |cs| then "/" else ""
  {
    assert cs[..k + 1] == cs[..k] + [cs[k]];
    RootSnoc(cs[..k], cs[k]);
    assert k + 1 == |cs| ==> cs[..k + 1] == cs;
  }

  /** The leading run of separators, `^[\/]*`. */
  function LeadingSeps(p: string): (n: nat)
    ensures n <= |p|
  {
    SkipSeps(p, 0)
  }

  function SkipSeps(p: string, i: nat): (j: nat)
    requires i <= |p|
    ensures i <= j <= |p|
    decreases |p| - i
  {
    if i < |p| && p[i] == SEP then SkipSeps(p, i + 1) else i
  }

  function PartEnd(p: string, pos: nat): (e: nat)
    requires pos <= |p|
    ensures pos <= e <= |p|
  {
    var i := IndexOf(p, SEP, pos);
    if i == -1 then |p| else i
  }

  /** Where a match of `(.*?)(?:[\/]+|$)` begins when it is searched from `pos`: at `pos`, unless a
      line terminator stands before the next separator. */
  function PartStart(p: string, pos: nat, stop: nat): (s: nat)
    requires pos <= stop <= |p|
    ensures pos <= s <= stop
    decreases stop - pos
  {
    if OneLine(p[pos..stop]) then pos else PartStart(p, pos + 1, stop)
  }

  lemma {:induction false} SepsSkipped(p: string, i: nat)
    requires i <= |p|
    ensures var j := SkipSeps(p, i);
            (forall k | i <= k < j :: p[k] == SEP) && (j < |p| ==> p[j] != SEP)
    decreases |p| - i
  {
    if i < |p| && p[i] == SEP { SepsSkipped(p, i + 1); }
  }

  lemma {:induction false} StartIsFirst(p: string, pos: nat, stop: nat)
    requires pos <= stop <= |p|
    ensures var s := PartStart(p, pos, stop);
            OneLine(p[s..stop]) && forall k | pos <= k < s :: !OneLine(p[k..stop])
    decreases stop - pos
  {
    if !OneLine(p[pos..stop]) { StartIsFirst(p, pos + 1, stop); }
  }

  /** The match on any string: the part runs from the first place behind which no line terminator stands before
      the next separator, up to that separator or the end; and the match takes in all the separators there. */
  lemma MatchIs(p: string, pos: nat)
    requires pos <= |p|
    ensures var stop := PartEnd(p, pos);
            var start, next := PartStart(p, pos, stop), SkipSeps(p, stop);
            && pos <= start <= stop <= next <= |p|
            && SEP !in p[pos..stop] && (stop == |p| || p[stop] == SEP)
            && OneLine(p[start..stop]) && (forall k | pos <= k < start :: !OneLine(p[k..stop]))
            && (forall k | stop <= k < next :: p[k] == SEP) && (next < |p| ==> p[next] != SEP)
  {
    IndexOfFirst(p, SEP, pos);
    SepsSkipped(p, PartEnd(p, pos));
    StartIsFirst(p, pos, PartEnd(p, pos));
  }

  /** On a resolved path the match is the next component with its separator. */
  lemma NextPart(cs: seq<string>, k: nat)
    requires k < |cs| && Walkable(cs)
    ensures var p, pos := Root(cs), |Upto(cs, k)|;
            && pos < |p|
            && var stop := PartEnd(p, pos);
            && PartStart(p, pos, stop) == pos && p[pos..stop] == cs[k]
            && SkipSeps(p, stop) == |Upto(cs, k + 1)|
            && p[pos..SkipSeps(p, stop)] == cs[k] + if k + 1 < |cs| then "/" else ""
  {
    var p, u, c := Root(cs), Upto(cs, k), cs[k];
    var tail := Slashed(cs[k + 1..]);
    UptoRest(cs, k);
    UptoRest(cs, k + 1);
    UptoNext(cs, k);
    assert Proper(c);
    if k + 1 < |cs| {
      AllProperRest(cs, k + 1);
      SlashedEdges(cs[k + 1..]);
      Pieces(u, c, "/", tail);
    } else {
      Pieces(u, c, "", tail);
    }
  }

  lemma AllProperRest(cs: seq<string>, k: nat)
    requires AllProper(cs) && k <= |cs|
    ensures AllProper(cs[k..])
  {
    assert forall i | 0 <= i < |cs[k..]| :: cs[k..][i] == cs[k + i];
  }

  lemma Pieces(u: string, c: string, sep: string, tail: string)
    requires Proper(c) && OneLine(c)
    requires if sep == "/" then tail != "" && tail[0] != SEP else sep == "" && tail == ""
    ensures var p, pos := u + c + sep + tail, |u|;
            && pos < |p|
            && var stop := PartEnd(p, pos);
            && PartStart(p, pos, stop) == pos && p[pos..stop] == c
            && SkipSeps(p, stop) == |u + c + sep|
            && p[pos..SkipSeps(p, stop)] == c + sep
  {
    var p := u + c + sep + tail;
    IndexOfIs(p, SEP, |u|, |u + c|);
    assert p[|u|..|u + c|] == c;
    assert p[|u|..|u + c + sep|] == c + sep;
    if sep == "/" {
      assert p[|u + c|] == SEP && p[|u + c| + 1] == tail[0];
    }
  }

  // ----- what holds while the walk goes on -----

  /** The first `k` components lead to `at` without a link; what follows ends as `out`, over `n` links. */
  ghost predicate Standing(fs: FS, cs: seq<string>, k: nat, at: Loc, n: nat, out: Option<Loc>) {
    && Walkable(cs) && k <= |cs|
    && Hard(fs, cs[..k], at) && Ends(fs, at, cs[k..], n, out)
  }

  lemma WholePath(fs: FS, cs: seq<string>, k: nat, at: Loc, n: nat, out: Option<Loc>)
    requires Standing(fs, cs, k, at, n, out)
    ensures Ends(fs, [], cs, n, out)
  {
    hide Ends;
    Compose(fs, [], cs[..k], 0, Some(at), cs[k..], n, out);
    TakeDrop(cs, k);
  }

  /** The next component is no link. */
  lemma StepHard(fs: FS, cs: seq<string>, k: nat, at: Loc, n: nat, out: Option<Loc>) returns (next: Loc)
    requires Standing(fs, cs, k, at, n, out) && k < |cs| && NodeAt(fs, at, cs[k]) == Some(Entry)
    ensures Standing(fs, cs, k + 1, next, n, out)
  {
    next := if cs[k] == ".." then Parent(at) else at + [cs[k]];
    HardSnoc(fs, cs[..k], cs[k], at);
    assert cs[..k + 1] == cs[..k] + [cs[k]];
    assert cs[k..][1..] == cs[k + 1..];
  }

  /** What is known to be hard up to the next component. */
  lemma HardNext(fs: FS, cs: seq<string>, k: nat, at: Loc, there: Loc)
    requires k < |cs| && Hard(fs, cs[..k], at) && Hard(fs, cs[..k + 1], there)
    ensures NodeAt(fs, at, cs[k]) == Some(Entry)
  {
    assert cs[..k + 1] == cs[..k] + [cs[k]];
    var mid := HardPrefix(fs, cs[..k], [cs[k]], there);
    EndsOnce(fs, [], cs[..k], 0, Some(at), 0, Some(mid));
  }

  /** What `lstat` says about the next component. */
  lemma LstatNext(fs: FS, cs: seq<string>, k: nat, at: Loc, node: Node)
    requires k < |cs| && Hard(fs, cs[..k], at)
    ensures Names(fs, cs[..k + 1], node) <==> NodeAt(fs, at, cs[k]) == Some(node)
  {
    var here := cs[..k + 1];
    assert here[..k] == cs[..k];
    if Names(fs, here, node) {
      var m, there :| Ends(fs, [], cs[..k], m, Some(there)) && NodeAt(fs, there, cs[k]) == Some(node);
      EndsOnce(fs, [], cs[..k], 0, Some(at), m, Some(there));
    }
    if NodeAt(fs, at, cs[k]) == Some(node) {
      assert Ends(fs, [], here[..|here| - 1], 0, Some(at)) && here[|here| - 1] == cs[k];
    }
  }

  lemma StepMissing(fs: FS, cs: seq<string>, k: nat, at: Loc, n: nat, out: Option<Loc>)
    requires Standing(fs, cs, k, at, n, out) && k < |cs| && NodeAt(fs, at, cs[k]) == None
    ensures out == None
  {
  }

  lemma StepDangling(fs: FS, cs: seq<string>, k: nat, at: Loc, n: nat, out: Option<Loc>)
    requires Standing(fs, cs, k, at, n, out) && k < |cs| && !Exists(fs, cs[..k + 1])
    ensures out == None
  {
    WholePath(fs, cs, k, at, n, out);
    assert cs[..k + 1] + cs[k + 1..] == cs;
    var m, mid := Decompose(fs, [], cs[..k + 1], cs[k + 1..], n, out);
  }

  lemma NamesAfter(cs: seq<string>, k: nat)
    requires Canonical(cs) && k < |cs| && cs[k] != ".."
    ensures ".." !in cs[k + 1..]
  {
  }

  lemma WalkableAppend(a: seq<string>, cs: seq<string>, k: nat)
    requires Walkable(a) && Walkable(cs) && k < |cs| && cs[k] != ".."
    ensures Walkable(a + cs[k + 1..])
  {
    NamesAfter(cs, k);
  }

  /** The next component is a link: the path made of its target and the rest means the same, with one
      link less; and so it is for the part up to the link alone. */
  lemma StepLink(fs: FS, cs: seq<string>, k: nat, at: Loc, n: nat, out: Option<Loc>, target: string, id: string)
    requires Sound(fs) && Standing(fs, cs, k, at, n, out) && k < |cs|
    requires NodeAt(fs, at, cs[k]) == Some(Link(target, id))
    ensures OneLine(target) && Canonical(Components(target)) && cs[k] != ".."
    ensures var r := Locate(cs[..k], Some(target));
            && n > 0 && Walkable(r) && Standing(fs, r + cs[k + 1..], 0, [], n - 1, out)
            && NewEntry(fs, Root(cs[..k + 1]), Root(r))
  {
    var r, c, rest := Locate(cs[..k], Some(target)), cs[k], cs[k + 1..];
    var full := r + rest;
    assert at + [c] in fs && fs[at + [c]] == Link(target, id);
    NamesAfter(cs, k);
    assert cs[k..] == [c] + rest;
    LinkExpands(fs, cs[..k], at, c, target, id, rest, n, out);
    PrefixWalkable(cs, k);
    TargetWalkable(cs[..k], target);
    WalkableAppend(r, cs, k);
    assert full[..0] == [] && full[0..] == full;
    WholePath(fs, cs, k, at, n, out);
    assert cs[..k + 1] + rest == cs;
    var m, mid := Decompose(fs, [], cs[..k + 1], rest, n, out);
    LinkEntry(fs, cs, k, at, m, mid, target, id);
  }

  lemma PrefixWalkable(cs: seq<string>, k: nat)
    requires Walkable(cs) && k <= |cs|
    ensures Walkable(cs[..k])
  {
    CanonicalPrefix(cs, k);
    assert forall i | 0 <= i < k :: cs[..k][i] == cs[i];
  }

  lemma TargetWalkable(a: seq<string>, target: string)
    requires Walkable(a) && OneLine(target)
    ensures Walkable(Locate(a, Some(target)))
  {
    ComponentsProper(target);
    ReduceCanonical(a, Components(target));
    ReduceCanonical([], Components(target));
    LocateLines(a, target);
  }

  // ----- the cache -----

  /** A cache entry for an absolute path leads to the same file as its key. An entry that is its own key is
      taken as a path without links, so it must be one; and no other entry is for a path that goes up from the
      root. An entry is light if it leads there over fewer links: only then the walk is sure to end. */
  ghost predicate EntryOk(fs: FS, key: string, v: string, light: bool) {
    var cs := Components(v);
    && Walkable(cs) && v == Root(cs)
    && if v == key then exists at :: Hard(fs, cs, at)
       else
         && (light || NotAbove(Components(key)))
         && forall n, out :: Ends(fs, [], Components(key), n, out) ==> LeadsTo(fs, cs, n, out, light)
  }

  predicate NotAbove(cs: seq<string>) { cs == [] || cs[|cs| - 1] != ".." }

  lemma NameNotAbove(cs: seq<string>, k: nat)
    requires Canonical(cs) && k < |cs| && cs[k] != ".."
    ensures NotAbove(cs)
  {
    NamesAfter(cs, k);
    assert k < |cs| - 1 ==> cs[k + 1..][|cs| - k - 2] == cs[|cs| - 1];
  }

  ghost predicate LeadsTo(fs: FS, cs: seq<string>, n: nat, out: Option<Loc>, light: bool) {
    exists m: nat :: (light ==> m < n) && Ends(fs, [], cs, m, out)
  }

  /** What a step of the walk puts into the cache is right for any cache. */
  ghost predicate NewEntry(fs: FS, key: string, v: string) {
    EntryOk(fs, key, v, true) && (v != key ==> NotAbove(Components(key)))
  }

  lemma AnyEntry(fs: FS, key: string, v: string, light: bool)
    requires NewEntry(fs, key, v)
    ensures EntryOk(fs, key, v, light)
  {
    hide Ends, Components;
    var cs := Components(v);
    if v != key && !light {
      forall n, out | Ends(fs, [], Components(key), n, out) ensures LeadsTo(fs, cs, n, out, false) {
        assert LeadsTo(fs, cs, n, out, true);
      }
    }
  }

  ghost predicate CacheOk(fs: FS, cache: map<string, string>, light: bool) {
    forall key | key in cache && Absolute(key) :: EntryOk(fs, key, cache[key], light)
  }

  lemma CachePut(fs: FS, cache: map<string, string>, key: string, v: string, light: bool)
    requires CacheOk(fs, cache, light) && (Absolute(key) ==> EntryOk(fs, key, v, light))
    ensures CacheOk(fs, cache[key := v], light)
  {
    hide EntryOk;
  }

  /** A link's path may be cached under what its target resolves to. */
  lemma LinkEntry(fs: FS, cs: seq<string>, k: nat, at: Loc, m: nat, mid: Option<Loc>, target: string, id: string)
    requires Sound(fs) && Walkable(cs) && k < |cs| && Hard(fs, cs[..k], at)
    requires NodeAt(fs, at, cs[k]) == Some(Link(target, id)) && cs[k] != ".."
    requires Ends(fs, [], cs[..k + 1], m, mid)
    ensures NewEntry(fs, Root(cs[..k + 1]), Root(Locate(cs[..k], Some(target))))
  {
    hide Components, Locate, Lines;
    var key, r := cs[..k + 1], Locate(cs[..k], Some(target));
    assert key == cs[..k] + [cs[k]];
    assert at + [cs[k]] in fs;
    PrefixWalkable(cs, k);
    PrefixWalkable(cs, k + 1);
    TargetWalkable(cs[..k], target);
    RootReadsBack(r);
    RootReadsBack(key);
    var m', at' := Decompose(fs, [], cs[..k], [cs[k]], m, mid);
    EndsOnce(fs, [], cs[..k], 0, Some(at), m', at');
    assert [cs[k]] + [] == [cs[k]];
    LinkExpands(fs, cs[..k], at, cs[k], target, id, [], m, mid);
    assert r + [] == r;
    if r == key { EndsOnce(fs, [], key, m, mid, m - 1, mid); }
    forall n, out | Ends(fs, [], key, n, out) ensures LeadsTo(fs, r, n, out, true) {
      EndsOnce(fs, [], key, m, mid, n, out);
    }
  }

  /** A cached value stands in for the path up to the next component. */
  lemma StepCached(fs: FS, cs: seq<string>, k: nat, at: Loc, n: nat, out: Option<Loc>, v: string, light: bool)
    returns (n': nat)
    requires Standing(fs, cs, k, at, n, out) && k < |cs|
    requires EntryOk(fs, Root(cs[..k + 1]), v, light) && v != Root(cs[..k + 1])
    ensures (light ==> n' < n) && cs[k] != ".." && Standing(fs, Components(v) + cs[k + 1..], 0, [], n', out)
  {
    hide Ends, Components, Lines;
    var key, rest, vs := cs[..k + 1], cs[k + 1..], Components(v);
    var full := vs + rest;
    PrefixWalkable(cs, k + 1);
    RootReadsBack(key);
    WholePath(fs, cs, k, at, n, out);
    assert key + rest == cs;
    var i, mid := Decompose(fs, [], key, rest, n, out);
    assert LeadsTo(fs, vs, i, mid, light);
    var j: nat :| (light ==> j < i) && Ends(fs, [], vs, j, mid);
    Compose(fs, [], vs, j, mid, rest, n - i, out);
    n' := j + (n - i);
    if cs[k] == ".." {
      HardSnoc(fs, cs[..k], "..", at);
      assert key == cs[..k] + [".."];
      EndsOnce(fs, [], key, i, mid, 0, Some(Parent(at)));
    }
    WalkableAppend(vs, cs, k);
    AtRoot(fs, full, n', out);
  }

  lemma AtRoot(fs: FS, cs: seq<string>, n: nat, out: Option<Loc>)
    requires Walkable(cs) && Ends(fs, [], cs, n, out)
    ensures Standing(fs, cs, 0, [], n, out)
  {
    assert cs[..0] == [] && cs[0..] == cs;
  }

  // ----- the two calls of path.resolve -----

  lemma ComponentsUpto(cs: seq<string>, k: nat)
    requires Canonical(cs) && k <= |cs|
    ensures Absolute(Upto(cs, k)) && Reduce([], Components(Upto(cs, k))) == cs[..k]
  {
    CanonicalPrefix(cs, k);
    RootReadsBack(cs[..k]);
    ReduceIdempotent(cs[..k]);
    ComponentsEdges(Root(cs[..k]));
    assert k == |cs| ==> cs[..k] == cs;
    if k == 0 { assert Root([]) == "/"; }
  }

  lemma ResolveTarget(cwd: string, cs: seq<string>, k: nat, target: string)
    requires Absolute(cwd) && Canonical(cs) && k <= |cs|
    ensures Resolved(cwd, [Some(Upto(cs, k)), Some(target)]) == Root(Locate(cs[..k], Some(target)))
  {
    var ps := [Some(Upto(cs, k)), Some(target)];
    ComponentsUpto(cs, k);
    ResolveIsFold(cwd, ps);
    assert ps[1..] == [Some(target)] && [Some(target)][1..] == [];
    assert LocateAll(cs[..k], [Some(target)]) == Locate(cs[..k], Some(target));
  }

  lemma ResolveRest(cwd: string, r: seq<string>, rest: seq<string>)
    requires Absolute(cwd) && Canonical(r) && AllProper(rest) && ".." !in rest
    ensures Resolved(cwd, [Some(Root(r)), Some(Slashed(rest))]) == Root(r + rest)
  {
    var ps := [Some(Root(r)), Some(Slashed(rest))];
    ResolveIsFold(cwd, ps);
    RootReadsBack(r);
    ReduceIdempotent(r);
    ComponentsSlashed(rest);
    if rest != [] { SlashedEdges(rest); }
    ReduceNames(r, rest);
    assert ps[1..] == [ps[1]] && [ps[1]][1..] == [];
    assert LocateAll(r, [ps[1]]) == Locate(r, ps[1]);
  }

  // ----- the context of one call and its callbacks -----

  /** The answers of the file system calls, by path string. */
  datatype Kernel = Kernel(lstat: string -> Option<Node>, stat: string -> bool, readlink: string -> Option<string>)

  ghost predicate Answers(fs: FS, kernel: Kernel) {
    && (forall p, node :: kernel.lstat(p) == Some(node) <==> Names(fs, Components(p), node))
    && (forall p :: kernel.stat(p) <==> Exists(fs, Components(p)))
    && (forall p, t, id :: kernel.lstat(p) == Some(Link(t, id)) ==> kernel.readlink(p) == Some(t))
  }

  /** What the context waits for. */
  datatype Status = Ticking | AwaitLstat | AwaitStat | AwaitReadlink | Done(result: string) | Failed

  function Stage(s: Status): nat {
    match s
    case Ticking => 4
    case AwaitLstat => 3
    case AwaitStat => 2
    case AwaitReadlink => 1
    case _ => 0
  }

  /** The key under which a property named by a null string is stored. */
  const NULL_KEY := "null"

  function Put(cache: Option<map<string, string>>, key: string, v: string): Option<map<string, string>> {
    match cache
    case None => None
    case Some(m) => Some(m[key := v])
  }

  ghost predicate CachedOk(fs: FS, cache: Option<map<string, string>>, light: bool) {
    cache.Some? ==> CacheOk(fs, cache.value, light)
  }

  function Cached(cache: Option<map<string, string>>, key: string): Option<string> {
    if cache.Some? && key in cache.value then Some(cache.value[key]) else None
  }

  ghost predicate HardString(fs: FS, p: string) { exists at :: Hard(fs, Components(p), at) }

  ghost predicate KnownOk(fs: FS, knownHard: set<string>) { forall p | p in knownHard :: HardString(fs, p) }

  ghost predicate SeenOk(fs: FS, seenLinks: map<string, string>) {
    forall id | id in seenLinks :: exists l :: l in fs && fs[l] == Link(seenLinks[id], id)
  }

  /** Between two components. */
  ghost predicate Between(cs: seq<string>, k: nat, path: string, pos: nat, current: string) {
    k <= |cs| && path == Root(cs) && current == Upto(cs, k) && pos == |current|
  }

  /** Component `k` has been cut off and is being looked at. */
  ghost predicate LookingAt(cs: seq<string>, k: nat, path: string, pos: nat, current: string,
                            previous: string, base: string)
  {
    && k < |cs| && path == Root(cs) && current == Upto(cs, k + 1) && pos == |current|
    && previous == Upto(cs, k) && base == Root(cs[..k + 1])
  }

  /** The target stands for a link with this id. */
  ghost predicate IsLinkAt(fs: FS, at: Loc, c: string, id: string) {
    exists t :: NodeAt(fs, at, c) == Some(Link(t, id))
  }

  /** The original's meaning, and that the path still has it: the same, or, with a light cache, over fewer
      links. */
  ghost predicate Origin(fs: FS, original: string, path: string, n: nat, total: nat, out: Option<Loc>, light: bool) {
    && Walkable(Components(original)) && original == Root(Components(original))
    && Ends(fs, [], Components(original), total, out)
    && (if path == original then n == total else (light ==> n < total) && NotAbove(Components(original)))
  }

  lemma StartsOver(cs: seq<string>)
    requires Walkable(cs)
    ensures LeadingSeps(Root(cs)) == 1 && Root(cs)[..1] == Upto(cs, 0)
  {
    var p := Root(cs);
    if cs != [] {
      SlashedEdges(cs);
      assert p[1] == Slashed(cs)[0];
    }
    assert SkipSeps(p, 1) == 1;
  }

  /** The walk has reached the end of the path. */
  lemma Arrived(fs: FS, cs: seq<string>, k: nat, at: Loc, n: nat, out: Option<Loc>)
    requires Standing(fs, cs, k, at, n, out) && |Upto(cs, k)| >= |Root(cs)|
    ensures k == |cs| && n == 0 && out == Some(at) && Hard(fs, cs, at)
  {
    if k < |cs| { NextPart(cs, k); }
    assert cs[..k] == cs;
  }

  lemma OriginalEntry(fs: FS, original: string, cs: seq<string>, at: Loc, total: nat, light: bool)
    requires Walkable(cs) && Hard(fs, cs, at)
    requires Origin(fs, original, Root(cs), 0, total, Some(at), light)
    ensures EntryOk(fs, original, Root(cs), light)
  {
    RootReadsBack(cs);
    if Root(cs) != original {
      forall m, there | Ends(fs, [], Components(original), m, there) ensures LeadsTo(fs, cs, m, there, light) {
        EndsOnce(fs, [], Components(original), total, Some(at), m, there);
      }
    }
  }

  lemma HardEntry(fs: FS, cs: seq<string>, k: nat, next: Loc)
    requires Walkable(cs) && k < |cs| && Hard(fs, cs[..k + 1], next)
    ensures NewEntry(fs, Root(cs[..k + 1]), Root(cs[..k + 1])) && HardString(fs, Root(cs[..k + 1]))
  {
    PrefixWalkable(cs, k + 1);
    RootReadsBack(cs[..k + 1]);
  }

  lemma RestIsProper(cs: seq<string>, k: nat)
    requires Walkable(cs) && k < |cs|
    ensures AllProper(cs[k + 1..])
    ensures |Upto(cs, k + 1)| <= |Root(cs)| && Root(cs)[|Upto(cs, k + 1)|..] == Slashed(cs[k + 1..])
  {
    AllProperRest(cs, k + 1);
    UptoRest(cs, k + 1);
  }

  /** What the match of the next component makes of the strings. */
  lemma Cut(cs: seq<string>, k: nat, path: string, pos: nat, current: string)
    requires Walkable(cs) && Between(cs, k, path, pos, current) && pos < |path|
    ensures var stop := PartEnd(path, pos);
            var start, next := PartStart(path, pos, stop), SkipSeps(path, stop);
            LookingAt(cs, k, path, next, current + path[start..next], current, current + path[start..stop])
  {
    NextPart(cs, k);
    UptoNext(cs, k);
  }

  lemma BaseReadsBack(cs: seq<string>, k: nat)
    requires Walkable(cs) && k < |cs|
    ensures Absolute(Root(cs[..k + 1])) && Components(Root(cs[..k + 1])) == cs[..k + 1]
  {
    PrefixWalkable(cs, k + 1);
    RootReadsBack(cs[..k + 1]);
  }

  /** `lstat` tells what stands at the next component. */
  lemma Lstatted(fs: FS, kernel: Kernel, cs: seq<string>, k: nat, at: Loc, n: nat, out: Option<Loc>)
    requires Answers(fs, kernel) && Standing(fs, cs, k, at, n, out) && k < |cs|
    ensures kernel.lstat(Root(cs[..k + 1])) == NodeAt(fs, at, cs[k])
    ensures kernel.lstat(Root(cs[..k + 1])).None? ==> out == None
  {
    BaseReadsBack(cs, k);
    var answer := kernel.lstat(Root(cs[..k + 1]));
    var node := NodeAt(fs, at, cs[k]);
    if answer.Some? { LstatNext(fs, cs, k, at, answer.value); }
    if node.Some? { LstatNext(fs, cs, k, at, node.value); }
    if node.None? { StepMissing(fs, cs, k, at, n, out); }
  }

  lemma StatFailed(fs: FS, kernel: Kernel, cs: seq<string>, k: nat, at: Loc, n: nat, out: Option<Loc>)
    requires Answers(fs, kernel) && Standing(fs, cs, k, at, n, out) && k < |cs| && !kernel.stat(Root(cs[..k + 1]))
    ensures out == None
  {
    BaseReadsBack(cs, k);
    StepDangling(fs, cs, k, at, n, out);
  }

  lemma TargetRead(fs: FS, kernel: Kernel, cs: seq<string>, k: nat, at: Loc, n: nat, out: Option<Loc>,
                   id: string, target: string, seenLinks: map<string, string>)
    requires Answers(fs, kernel) && Standing(fs, cs, k, at, n, out) && k < |cs|
    requires IsLinkAt(fs, at, cs[k], id) && kernel.readlink(Root(cs[..k + 1])) == Some(target) && SeenOk(fs, seenLinks)
    ensures NodeAt(fs, at, cs[k]) == Some(Link(target, id)) && SeenOk(fs, seenLinks[id := target])
  {
    Lstatted(fs, kernel, cs, k, at, n, out);
    var t :| NodeAt(fs, at, cs[k]) == Some(Link(t, id));
    assert at + [cs[k]] in fs;
  }

  lemma SeenTarget(fs: FS, seenLinks: map<string, string>, at: Loc, c: string, id: string, t: string)
    requires Sound(fs) && SeenOk(fs, seenLinks) && id in seenLinks && NodeAt(fs, at, c) == Some(Link(t, id))
    ensures seenLinks[id] == t
  {
    assert at + [c] in fs;
  }

  lemma KnownPut(fs: FS, knownHard: set<string>, p: string)
    requires KnownOk(fs, knownHard) && HardString(fs, p)
    ensures KnownOk(fs, knownHard + {p})
  {
  }

  lemma LinkRead(fs: FS, kernel: Kernel, p: string, t: string, id: string)
    requires Answers(fs, kernel) && kernel.lstat(p) == Some(Link(t, id))
    ensures kernel.readlink(p) == Some(t)
  {
    hide Names, Exists, Components;
  }

  /** A component known to be hard, from this walk or from the cache. */
  lemma SkipHard(fs: FS, cs: seq<string>, k: nat, at: Loc, n: nat, out: Option<Loc>,
                 knownHard: set<string>, cache: Option<map<string, string>>, light: bool) returns (there: Loc)
    requires Standing(fs, cs, k, at, n, out) && k < |cs| && KnownOk(fs, knownHard) && CachedOk(fs, cache, light)
    requires var base := Root(cs[..k + 1]);
             base in knownHard || (cache.Some? && base in cache.value && cache.value[base] == base)
    ensures Standing(fs, cs, k + 1, there, n, out)
  {
    var base := Root(cs[..k + 1]);
    BaseReadsBack(cs, k);
    assert HardString(fs, base);
    var l :| Hard(fs, Components(base), l);
    HardNext(fs, cs, k, at, l);
    there := StepHard(fs, cs, k, at, n, out);
  }

  /** A component with a cached value. */
  lemma SkipCached(fs: FS, cs: seq<string>, k: nat, at: Loc, n: nat, out: Option<Loc>, cache: map<string, string>,
                   light: bool)
    returns (n': nat)
    requires Standing(fs, cs, k, at, n, out) && k < |cs| && CacheOk(fs, cache, light)
    requires var base := Root(cs[..k + 1]); base in cache && cache[base] != base
    ensures var v := cache[Root(cs[..k + 1])];
            && (light ==> n' < n) && cs[k] != ".." && v == Root(Components(v)) && Walkable(Components(v))
            && Standing(fs, Components(v) + cs[k + 1..], 0, [], n', out)
  {
    BaseReadsBack(cs, k);
    n' := StepCached(fs, cs, k, at, n, out, cache[Root(cs[..k + 1])], light);
  }

  // ----- how long the walk is -----

  /** Where a walk stands: `k` components of `cs` are behind it and lead to `at`, and it has read the links in
      `seen`. */
  datatype Place = Place(at: Loc, cs: seq<string>, k: nat, seen: set<string>)

  function Beyond(at: Loc, c: string): Loc { if c == ".." then Parent(at) else at + [c] }

  /** Another path stands in for the one up to component `k`. */
  function Replaced(p: Place, r: seq<string>, seen: set<string>): Place
    requires p.k < |p.cs|
  {
    Place([], r + p.cs[p.k + 1..], 0, seen)
  }

  predicate Stands(cache: map<string, string>, key: string) { key in cache && cache[key] != key }

  /** A walk with the caller's cache comes to an end after exactly `n` replacements: it takes the caller's value
      for a path where there is one, and follows a link otherwise, if that leads anywhere or has been read. */
  ghost predicate Walks(fs: FS, cache: map<string, string>, p: Place, n: nat)
    decreases n, |p.cs| - p.k
  {
    if p.k >= |p.cs| then n == 0
    else
      var key := Root(p.cs[..p.k + 1]);
      if Stands(cache, key) then n > 0 && Walks(fs, cache, Replaced(p, Components(cache[key]), p.seen), n - 1)
      else
        match NodeAt(fs, p.at, p.cs[p.k])
        case None => n == 0
        case Some(Entry) => Walks(fs, cache, p.(at := Beyond(p.at, p.cs[p.k]), k := p.k + 1), n)
        case Some(Link(t, id)) =>
          if id !in p.seen && !Exists(fs, p.cs[..p.k + 1]) then n == 0
          else n > 0 && Walks(fs, cache, Replaced(p, Locate(p.cs[..p.k], Some(t)), p.seen + {id}), n - 1)
  }

  /** From one place to the next, after `d` replacements. */
  ghost predicate Onward(fs: FS, cache: map<string, string>, p: Place, q: Place, d: nat) {
    && p.k <= |p.cs| && q.k <= |q.cs|
    && (forall n: nat :: Walks(fs, cache, q, n) <==> Walks(fs, cache, p, n + d))
    && (d > 0 ==> !Walks(fs, cache, p, 0))
  }

  lemma OnwardHard(fs: FS, cache: map<string, string>, p: Place)
    requires p.k < |p.cs| && !Stands(cache, Root(p.cs[..p.k + 1])) && NodeAt(fs, p.at, p.cs[p.k]) == Some(Entry)
    ensures Onward(fs, cache, p, p.(at := Beyond(p.at, p.cs[p.k]), k := p.k + 1), 0)
  {
    hide Stands, NodeAt, Root, Locate;
  }

  lemma OnwardCached(fs: FS, cache: map<string, string>, p: Place)
    requires p.k < |p.cs| && Stands(cache, Root(p.cs[..p.k + 1]))
    ensures Onward(fs, cache, p, Replaced(p, Components(cache[Root(p.cs[..p.k + 1])]), p.seen), 1)
  {
    hide NodeAt, Root, Locate, Components;
  }

  lemma OnwardLink(fs: FS, cache: map<string, string>, p: Place, t: string, id: string)
    requires p.k < |p.cs| && !Stands(cache, Root(p.cs[..p.k + 1]))
    requires NodeAt(fs, p.at, p.cs[p.k]) == Some(Link(t, id)) && (id in p.seen || Exists(fs, p.cs[..p.k + 1]))
    ensures Onward(fs, cache, p, Replaced(p, Locate(p.cs[..p.k], Some(t)), p.seen + {id}), 1)
  {
    hide Stands, NodeAt, Root, Locate, Components, Exists;
  }

  lemma WalksOver(fs: FS, cache: map<string, string>, p: Place)
    requires p.k <= |p.cs|
    requires p.k < |p.cs| ==>
               && !Stands(cache, Root(p.cs[..p.k + 1]))
               && match NodeAt(fs, p.at, p.cs[p.k])
                  case None => true
                  case Some(Entry) => false
                  case Some(Link(t, id)) => id !in p.seen && !Exists(fs, p.cs[..p.k + 1])
    ensures Walks(fs, cache, p, 0)
  {
    hide Stands, NodeAt, Root, Locate, Components, Exists;
  }

  lemma OnwardTwice(fs: FS, cache: map<string, string>, p: Place, q: Place, r: Place, d: nat, e: nat)
    requires Onward(fs, cache, p, q, d) && Onward(fs, cache, q, r, e)
    ensures Onward(fs, cache, p, r, d + e)
  {
    hide Walks;
    forall n: nat ensures Walks(fs, cache, r, n) <==> Walks(fs, cache, p, n + (d + e)) {
      assert Walks(fs, cache, q, n + e) <==> Walks(fs, cache, p, n + e + d);
    }
  }

  lemma OnwardLast(fs: FS, cache: map<string, string>, p: Place, q: Place, d: nat)
    requires Onward(fs, cache, p, q, d)
    ensures Walks(fs, cache, q, 0) ==> Walks(fs, cache, p, d)
  {
    hide Walks;
    assert Walks(fs, cache, q, 0) <==> Walks(fs, cache, p, 0 + d);
  }

  /** What is left of a walk when it has gone on. */
  lemma LessLeft(fs: FS, cache: map<string, string>, p: Place, q: Place, left: nat, d: nat)
    requires Onward(fs, cache, p, q, d) && d <= 1
    ensures Walks(fs, cache, p, left) ==> d <= left && Walks(fs, cache, q, left - d)
  {
    hide Walks;
    if Walks(fs, cache, p, left) && d <= left { assert left - d + d == left; }
  }

  /** The cached value `v` is where the link that ends `cs` leads. */
  ghost predicate FollowedAt(fs: FS, key: string, v: string, cs: seq<string>, at: Loc, t: string, id: string) {
    && cs != [] && Walkable(cs) && key == Root(cs) && OneLine(t)
    && var k := |cs| - 1;
       && Hard(fs, cs[..k], at) && NodeAt(fs, at, cs[k]) == Some(Link(t, id)) && v == Root(Locate(cs[..k], Some(t)))
  }

  ghost predicate Followed(fs: FS, key: string, v: string, seen: set<string>) {
    exists cs, at, t, id :: FollowedAt(fs, key, v, cs, at, t, id) && id in seen
  }

  /** What the walk has added to the cache changes nothing: where the caller had a value it stands, and every
      other value is where a link leads that has been read. */
  ghost predicate Stocked(fs: FS, cache: map<string, string>, now: map<string, string>, seen: set<string>) {
    forall key | Absolute(key) ::
      && (Stands(cache, key) ==> key in now && now[key] == cache[key])
      && (Stands(now, key) ==> (key in cache && cache[key] == now[key]) || Followed(fs, key, now[key], seen))
  }

  lemma StockedFirst(fs: FS, cache: map<string, string>)
    ensures Stocked(fs, cache, cache, {})
  {
  }

  lemma NotStanding(fs: FS, cache: map<string, string>, now: map<string, string>, seen: set<string>, key: string)
    requires Stocked(fs, cache, now, seen) && Absolute(key) && key !in now
    ensures !Stands(cache, key)
  {
  }

  lemma StockedHard(fs: FS, cache: map<string, string>, now: map<string, string>, seen: set<string>, key: string)
    requires Stocked(fs, cache, now, seen) && Absolute(key) && key !in now
    ensures Stocked(fs, cache, now[key := key], seen)
  {
    hide Followed;
  }

  lemma StockedLink(fs: FS, cache: map<string, string>, now: map<string, string>, seen: set<string>, key: string,
                    v: string)
    requires Stocked(fs, cache, now, seen) && (Absolute(key) ==> key !in now && Followed(fs, key, v, seen))
    ensures Stocked(fs, cache, now[key := v], seen)
  {
    hide Followed;
  }

  lemma StockedSeen(fs: FS, cache: map<string, string>, now: map<string, string>, seen: set<string>, id: string)
    requires Stocked(fs, cache, now, seen)
    ensures Stocked(fs, cache, now, seen + {id})
  {
    hide Stands;
    forall key | Absolute(key) && Followed(fs, key, if key in now then now[key] else "", seen)
      ensures Followed(fs, key, if key in now then now[key] else "", seen + {id})
    {
      var v := if key in now then now[key] else "";
      var cs, at, t, i :| FollowedAt(fs, key, v, cs, at, t, i) && i in seen;
      assert FollowedAt(fs, key, v, cs, at, t, i) && i in seen + {id};
    }
  }

  /** A link that has been read, at the component `k`. */
  lemma FollowedHere(fs: FS, p: Place, t: string, id: string, seen: set<string>)
    requires Sound(fs) && Walkable(p.cs) && p.k < |p.cs| && Hard(fs, p.cs[..p.k], p.at)
    requires NodeAt(fs, p.at, p.cs[p.k]) == Some(Link(t, id)) && id in seen
    ensures Followed(fs, Root(p.cs[..p.k + 1]), Root(Locate(p.cs[..p.k], Some(t))), seen)
  {
    var cs := p.cs[..p.k + 1];
    PrefixWalkable(p.cs, p.k + 1);
    assert cs[..p.k] == p.cs[..p.k] && p.at + [p.cs[p.k]] in fs;
    hide Walkable, Hard, Root, Locate, NodeAt;
    assert FollowedAt(fs, Root(cs), Root(Locate(p.cs[..p.k], Some(t))), cs, p.at, t, id);
  }

  lemma FollowedIs(fs: FS, p: Place, v: string, cs: seq<string>, at: Loc, t: string, id: string)
    requires Walkable(p.cs) && p.k < |p.cs| && Hard(fs, p.cs[..p.k], p.at)
    requires FollowedAt(fs, Root(p.cs[..p.k + 1]), v, cs, at, t, id)
    ensures NodeAt(fs, p.at, p.cs[p.k]) == Some(Link(t, id)) && Components(v) == Locate(p.cs[..p.k], Some(t))
  {
    hide Walkable, Components, Root, Locate, NodeAt, Ends;
    BaseReadsBack(p.cs, p.k);
    assert Walkable(cs);
    WalkableReadsBack(cs);
    assert cs == p.cs[..p.k + 1] && cs[..p.k] == p.cs[..p.k];
    EndsOnce(fs, [], p.cs[..p.k], 0, Some(at), 0, Some(p.at));
    PrefixWalkable(p.cs, p.k);
    TargetWalkable(p.cs[..p.k], t);
    WalkableReadsBack(Locate(p.cs[..p.k], Some(t)));
  }

  lemma WalkableReadsBack(cs: seq<string>)
    requires Walkable(cs)
    ensures Components(Root(cs)) == cs
  {
    RootReadsBack(cs);
  }

  /** A value that stands in the cache is taken by the walk as the caller's cache and the links have it. */
  lemma OnwardStanding(fs: FS, cache: map<string, string>, now: map<string, string>, p: Place)
    requires Stocked(fs, cache, now, p.seen) && Walkable(p.cs) && p.k < |p.cs| && Hard(fs, p.cs[..p.k], p.at)
    requires Stands(now, Root(p.cs[..p.k + 1]))
    ensures Onward(fs, cache, p, Replaced(p, Components(now[Root(p.cs[..p.k + 1])]), p.seen), 1)
  {
    hide Onward, Walks, Walkable, Root, Locate, NodeAt, Hard, Components, Replaced;
    var key := p.cs[..p.k + 1];
    BaseReadsBack(p.cs, p.k);
    var v := now[Root(key)];
    if Stands(cache, Root(key)) {
      OnwardCached(fs, cache, p);
    } else {
      assert Followed(fs, Root(key), v, p.seen);
      var cs, at, t, id :| FollowedAt(fs, Root(key), v, cs, at, t, id) && id in p.seen;
      FollowedIs(fs, p, v, cs, at, t, id);
      OnwardLink(fs, cache, p, t, id);
      assert p.seen + {id} == p.seen;
    }
  }

  class RealpathContext {
    ghost const fs: FS
    const kernel: Kernel
    const cwd: string
    const original: string
    var path: string
    var cache: Option<map<string, string>>
    var seenLinks: map<string, string>
    var knownHard: set<string>
    var pos: nat
    var current: string
    var base: string
    var previous: string
    var id: string
    var status: Status

    ghost var cs: seq<string>           // the components of `path`,
    ghost var k: nat                    // how many of them are known to be no links,
    ghost var at: Loc                   // where these lead,
    ghost var n: nat                    // and how many links are left to follow
    ghost const light: bool             // the caller's cache is light
    ghost const total: nat
    ghost const out: Option<Loc>        // where the original path ends

    /** The meaning of the path is kept. */
    ghost predicate Kept()
      reads this
    {
      && Sound(fs) && Answers(fs, kernel) && Absolute(cwd)
      && KnownOk(fs, knownHard) && SeenOk(fs, seenLinks) && CachedOk(fs, cache, light)
      && Standing(fs, cs, k, at, n, out) && Origin(fs, original, path, n, total, out, light)
    }

    ghost predicate Valid()
      reads this
    {
      && Kept()
      && match status
         case Ticking => Between(cs, k, path, pos, current)
         case Done(r) => r == path && path == Root(cs) && k == |cs| && n == 0 && out == Some(at)
         case Failed => out == None
         case AwaitLstat => LookingAt(cs, k, path, pos, current, previous, base)
         case _ => LookingAt(cs, k, path, pos, current, previous, base) && IsLinkAt(fs, at, cs[k], id)
    }

    constructor (ghost fs: FS, kernel: Kernel, cwd: string, original: string, cache: Option<map<string, string>>,
                 ghost light: bool, ghost total: nat, ghost out: Option<Loc>)
      requires Sound(fs) && Answers(fs, kernel) && Absolute(cwd) && CachedOk(fs, cache, light)
      requires Origin(fs, original, original, total, total, out, light)
      ensures Valid() && status == Ticking && this.cache == cache && this.original == original
      ensures this.fs == fs && this.kernel == kernel && this.light == light && this.total == total && this.out == out
      ensures cs == Components(original) && k == 0 && at == [] && knownHard == {} && seenLinks == map[]
    {
      this.fs, this.kernel, this.cwd, this.original, this.cache := fs, kernel, cwd, original, cache;
      this.light, this.total, this.out := light, total, out;
      path, seenLinks, knownHard, id := original, map[], {}, "";
      pos, current, base, previous, status := 0, "", "", "", Ticking;
      cs, k, at, n := Components(original), 0, [], total;
      new;
      assert cs[..0] == [] && cs[0..] == cs;
      Start();
    }

    /** StartInRealpath. */
    method Start()
      requires path == Root(cs) && Walkable(cs)
      modifies this
      ensures Between(cs, 0, path, pos, current) && status == Ticking && k == 0 && at == []
      ensures current == path[..pos] && base == current && previous == ""
      ensures unchanged(`path) && unchanged(`cs) && unchanged(`n)
      ensures unchanged(`cache) && unchanged(`seenLinks) && unchanged(`knownHard) && unchanged(`id)
    {
      StartsOver(cs);
      pos := LeadingSeps(path);
      current := path[..pos];
      base := path[..pos];
      previous := "";
      status := Ticking;
      k, at := 0, [];
    }

    /** The walk has started again, on `r` and the rest of the path. */
    twostate predicate Restarts(r: seq<string>)
      reads this
    {
      status == Ticking && old(k) < |old(cs)| && cs == r + old(cs)[old(k) + 1..] && k == 0 && at == []
    }

    /** The walk stands where it stood. */
    twostate predicate Stays()
      reads this
    {
      cs == old(cs) && k == old(k) && at == old(at) && n == old(n) && path == old(path)
    }

    /** One component is skipped as hard, replaced from the cache, or asked for. */
    twostate predicate Looped()
      reads this
      requires old(k) < |old(cs)|
    {
      var b := Root(old(cs)[..old(k) + 1]);
      var v := Cached(old(cache), b);
      if b in old(knownHard) || v == Some(b) then
        status == Ticking && n == old(n) && cs == old(cs) && k == old(k) + 1
      else if v.Some? then Restarts(Components(v.value)) && (light ==> n < old(n))
      else status == AwaitLstat && Stays() && base == b
    }

    /** The link is replaced by where `target` leads from the directory before it. */
    twostate predicate Follows(target: string, key: string)
      reads this
      requires old(k) < |old(cs)|
    {
      var r := Locate(old(cs)[..old(k)], Some(target));
      Restarts(r) && cache == Put(old(cache), key, Root(r))
    }

    /** What one turn does at a link, or at a component that has not been looked at. */
    twostate predicate Turned()
      reads this
    {
      old(k) < |old(cs)| ==>
        match old(status)
        case Ticking => Looped() && cache == old(cache) && seenLinks == old(seenLinks) && knownHard == old(knownHard)
        case AwaitStat =>
          && Stays() && status == (if kernel.stat(old(base)) then AwaitReadlink else Failed)
          && cache == old(cache) && base == old(base) && knownHard == old(knownHard)
          && seenLinks == old(seenLinks) && id == old(id)
        case AwaitLstat =>
          (match NodeAt(fs, old(at), old(cs)[old(k)])
           case Some(Link(t, i)) =>
             && knownHard == old(knownHard) && seenLinks == old(seenLinks)
             && (if i in seenLinks then Follows(seenLinks[i], old(base))
                 else status == AwaitStat && Stays() && cache == old(cache) && base == old(base) && id == i)
           case Some(Entry) =>
             && status == Ticking && cs == old(cs) && k == old(k) + 1 && seenLinks == old(seenLinks)
             && knownHard == old(knownHard) + {old(base)} && cache == Put(old(cache), old(base), old(base))
           case None => status == Failed)
        case AwaitReadlink =>
          (match NodeAt(fs, old(at), old(cs)[old(k)])
           case Some(Link(t, i)) =>
             Follows(t, NULL_KEY) && knownHard == old(knownHard) && seenLinks == old(seenLinks)[i := t]
           case _ => false)
        case _ => true
    }

    /** GotResolvedLinkInRealpath: the rest of the path goes on from the resolved link. */
    method GotResolvedLink(resolvedLink: string, ghost r: seq<string>, ghost n': nat)
      requires Kept() && LookingAt(cs, k, path, pos, current, previous, base)
      requires resolvedLink == Root(r) && Walkable(r) && cs[k] != ".." && (light ==> n' < n)
      requires Standing(fs, r + cs[k + 1..], 0, [], n', out)
      modifies this
      ensures Valid() && status == Ticking && n == n'
      ensures path == Root(r + old(cs)[old(k) + 1..]) && Restarts(r)
      ensures unchanged(`cache) && unchanged(`seenLinks) && unchanged(`knownHard) && unchanged(`id)
    {
      hide Ends, Hard, Sound, Answers, KnownOk, SeenOk, CacheOk, EntryOk, Origin, Names, Exists;
      hide Root, Resolved, Locate, Components, Reduce, Canonical, Lines, AllProper, Slashed;
      ghost var rest := cs[k + 1..];
      RestIsProper(cs, k);
      NamesAfter(cs, k);
      ResolveRest(cwd, r, rest);
      path := Resolve(cwd, [Some(resolvedLink), Some(path[pos..])]);
      cs, n := r + rest, n';
      MovedOn(fs, original, old(path), path, old(n), n, total, out, light, old(cs), old(k), cs);
      Start();
    }

    /** GotTargetInRealpath. The readlink callback passes no third argument, so `key` is absent then. */
    method GotTarget(target: string, key: Option<string>)
      requires Kept() && LookingAt(cs, k, path, pos, current, previous, base)
      requires NodeAt(fs, at, cs[k]) == Some(Link(target, id))
      requires key.Some? ==> key.value == base
      modifies this
      ensures Valid() && status == Ticking && n < old(n)
      ensures cache == Put(old(cache), if key.Some? then old(base) else NULL_KEY,
                           Resolved(cwd, [Some(old(previous)), Some(target)]))
      ensures Restarts(Locate(old(cs)[..old(k)], Some(target)))
      ensures Resolved(cwd, [Some(old(previous)), Some(target)]) == Root(Locate(old(cs)[..old(k)], Some(target)))
      ensures unchanged(`seenLinks) && unchanged(`knownHard) && unchanged(`id)
    {
      hide Ends, Hard, Sound, Answers, KnownOk, SeenOk, CacheOk, EntryOk, Origin, Names, Exists;
      hide Root, Resolved, Components, Reduce, Canonical, Lines, AllProper, Slashed, Locate;
      ghost var r := Locate(cs[..k], Some(target));
      var resolvedLink := Resolve(cwd, [Some(previous), Some(target)]);
      ResolveTarget(cwd, cs, k, target);
      StepLink(fs, cs, k, at, n, out, target, id);
      if cache.Some? {
        var name := match key case None => NULL_KEY case Some(b) => b;
        if key.Some? { AnyEntry(fs, base, resolvedLink, light); }
        CachePut(fs, cache.value, name, resolvedLink, light);
        cache := Some(cache.value[name := resolvedLink]);
      }
      GotResolvedLink(resolvedLink, r, n - 1);
    }

    /** AfterReadlinkInRealpath: the target is remembered under the link's id. */
    method AfterReadlink(target: string)
      requires Valid() && status == AwaitReadlink && kernel.readlink(base) == Some(target)
      modifies this
      ensures Valid() && status == Ticking && n < old(n)
      ensures seenLinks == old(seenLinks)[old(id) := target] && unchanged(`knownHard)
      ensures old(k) < |old(cs)| && Follows(target, NULL_KEY)
      ensures Resolved(cwd, [Some(old(previous)), Some(target)]) == Root(Locate(old(cs)[..old(k)], Some(target)))
      ensures NodeAt(fs, old(at), old(cs)[old(k)]) == Some(Link(target, old(id)))
    {
      hide Ends, Hard, Sound, Answers, KnownOk, SeenOk, CacheOk, EntryOk, Origin, Names, Exists;
      hide Root, Resolved, Locate, Components, Reduce, Canonical, Lines, AllProper, Slashed;
      TargetRead(fs, kernel, cs, k, at, n, out, id, target, seenLinks);
      seenLinks := seenLinks[id := target];
      GotTarget(target, None);
    }

    /** AfterStatInRealpath: `stat` has followed the link to its end. */
    method AfterStat(ok: bool)
      requires Valid() && status == AwaitStat && ok == kernel.stat(base)
      modifies `status
      ensures Valid() && status == if ok then AwaitReadlink else Failed
    {
      hide Ends, Hard, Sound, Answers, KnownOk, SeenOk, CacheOk, EntryOk, Origin, Names, Exists;
      hide Root, Resolved, Locate, Components, Reduce, Canonical, Lines, AllProper, Slashed;
      if ok {
        status := AwaitReadlink;
      } else {
        StatFailed(fs, kernel, cs, k, at, n, out);
        status := Failed;
      }
    }

    /** GotStatInRealpath for what is no link. */
    method NotALink()
      requires Valid() && status == AwaitLstat && NodeAt(fs, at, cs[k]) == Some(Entry)
      modifies `knownHard, `cache, `status, `k, `at
      ensures Valid() && status == Ticking && k == old(k) + 1
      ensures knownHard == old(knownHard) + {base} && cache == Put(old(cache), base, base)
    {
      hide Ends, Hard, Sound, Answers, KnownOk, SeenOk, CacheOk, EntryOk, Origin, Names, Exists;
      hide Root, Resolved, Locate, Components, Reduce, Canonical, Lines, AllProper, Slashed;
      ghost var next := StepHard(fs, cs, k, at, n, out);
      HardEntry(fs, cs, k, next);
      KnownPut(fs, knownHard, base);
      AnyEntry(fs, base, base, light);
      if cache.Some? { CachePut(fs, cache.value, base, base, light); }
      knownHard := knownHard + {base};
      cache := Put(cache, base, base);
      status := Ticking;
      k, at := k + 1, next;
    }

    /** GotStatInRealpath. */
    method GotStat(answer: Option<Node>)
      requires Valid() && status == AwaitLstat && answer == kernel.lstat(base)
      modifies this
      ensures Valid()
      ensures old(k) < |old(cs)| && answer == NodeAt(fs, old(at), old(cs)[old(k)])
      ensures answer == None ==>
                && status == Failed && cs == old(cs) && k == old(k) && n == old(n)
                && cache == old(cache) && knownHard == old(knownHard)
      ensures answer == Some(Entry) ==>
                && status == Ticking && k == old(k) + 1 && cs == old(cs) && n == old(n) && path == old(path)
                && knownHard == old(knownHard) + {old(base)} && cache == Put(old(cache), old(base), old(base))
      ensures answer.Some? && answer.value.Link? ==> knownHard == old(knownHard) && id == answer.value.id
      ensures answer.Some? && answer.value.Link? && answer.value.id in seenLinks ==>
                n < old(n) && Follows(seenLinks[id], old(base))
      ensures answer.Some? && answer.value.Link? && answer.value.id !in seenLinks ==>
                && status == AwaitStat && Stays() && cache == old(cache) && base == old(base)
      ensures unchanged(`seenLinks)
    {
      hide Ends, Hard, Sound, Answers, KnownOk, SeenOk, CacheOk, EntryOk, Origin, Names, Exists;
      hide Root, Resolved, Locate, Components, Reduce, Canonical, Lines, AllProper, Slashed;
      Lstatted(fs, kernel, cs, k, at, n, out);
      match answer {
        case None =>
          status := Failed;
        case Some(Entry) => NotALink();
        case Some(Link(t, i)) =>
          id := i;
          if id in seenLinks {
            SeenTarget(fs, seenLinks, at, cs[k], id, t);
            GotTarget(seenLinks[id], Some(base));
          } else {
            status := AwaitStat;
          }
      }
    }

    /** `readlink` of what is a link. */
    lemma LinkHasTarget()
      requires Valid() && status == AwaitReadlink
      ensures kernel.readlink(base).Some?
    {
      hide Ends, Hard, EntryOk, Origin, Names, Exists, Sound, KnownOk, SeenOk, CacheOk, Root, Components, NodeAt;
      Lstatted(fs, kernel, cs, k, at, n, out);
      var t :| NodeAt(fs, at, cs[k]) == Some(Link(t, id));
      LinkRead(fs, kernel, base, t, id);
    }

    /** The match of the next component. */
    method CutNext()
      requires Walkable(cs) && Between(cs, k, path, pos, current) && pos < |path|
      modifies `previous, `current, `base, `pos
      ensures LookingAt(cs, k, path, pos, current, previous, base)
    {
      hide *;
      Cut(cs, k, path, pos, current);
      var stop := PartEnd(path, pos);
      var start := PartStart(path, pos, stop);
      var next := SkipSeps(path, stop);
      previous := current;
      current := current + path[start..next];
      base := previous + path[start..stop];
      pos := next;
    }

    /** The end of the path: what it has become is the result. */
    method Arrive()
      requires Valid() && status == Ticking && pos >= |path|
      modifies `cache, `status
      ensures Valid() && status == Done(path) && k == |cs| && cache == Put(old(cache), original, path)
    {
      hide Ends, Hard, Sound, Answers, KnownOk, SeenOk, CacheOk, EntryOk, Origin, Names, Exists;
      hide Root, Resolved, Locate, Components, Reduce, Canonical, Lines, AllProper, Slashed;
      Arrived(fs, cs, k, at, n, out);
      OriginalEntry(fs, original, cs, at, total, light);
      if cache.Some? { CachePut(fs, cache.value, original, path, light); }
      cache := Put(cache, original, path);
      status := Done(path);
    }

    /** A component known to be hard. */
    method PassHard()
      requires Kept() && LookingAt(cs, k, path, pos, current, previous, base)
      requires base in knownHard || Cached(cache, base) == Some(base)
      modifies `status, `k, `at
      ensures Valid() && status == Ticking && k == old(k) + 1
    {
      hide Ends, Hard, Sound, Answers, KnownOk, SeenOk, CacheOk, EntryOk, Origin, Names, Exists, Root, Components;
      ghost var there := SkipHard(fs, cs, k, at, n, out, knownHard, cache, light);
      status := Ticking;
      k, at := k + 1, there;
    }

    /** A component with a cached value. */
    method PassCached(v: string)
      requires Kept() && LookingAt(cs, k, path, pos, current, previous, base)
      requires Cached(cache, base) == Some(v) && v != base
      modifies this
      ensures Valid() && Restarts(Components(v)) && (light ==> n < old(n))
      ensures unchanged(`cache) && unchanged(`seenLinks) && unchanged(`knownHard)
    {
      hide Ends, Hard, Sound, Answers, KnownOk, SeenOk, CacheOk, EntryOk, Origin, Names, Exists, Root, Components;
      ghost var n' := SkipCached(fs, cs, k, at, n, out, cache.value, light);
      GotResolvedLink(v, Components(v), n');
    }

    /** LoopInRealpath: one component of the path. */
    method Loop()
      requires Valid() && status == Ticking
      modifies this
      ensures Valid()
      ensures status.Done? <==> old(k) == |old(cs)|
      ensures status.Done? ==> unchanged(`path) && cache == Put(old(cache), original, path)
      ensures !status.Done? ==> cache == old(cache)
      ensures !status.Done? ==> Looped()
      ensures unchanged(`seenLinks) && unchanged(`knownHard)
    {
      hide Ends, Hard, Sound, Answers, KnownOk, SeenOk, CacheOk, EntryOk, Origin, Names, Exists;
      hide Root, Resolved, Locate, Components, Reduce, Canonical, Lines, AllProper, Slashed;
      if pos >= |path| {
        Arrive();
        return;
      }
      CutNext();
      var cached := if cache.None? || base !in cache.value then None else Some(cache.value[base]);
      if base in knownHard || cached == Some(base) {
        PassHard();
      } else if cached.Some? {
        PassCached(cached.value);
      } else {
        status := AwaitLstat;
      }
    }

    /** One turn of the event loop: the pending callback is called with the file system's answer. The
        links left, then the components left, then the calls left for this component go down. */
    method Turn()
      requires Valid() && !status.Done? && !status.Failed?
      modifies this
      ensures Valid()
      ensures light ==>
              || n < old(n)
              || (n == old(n) && |cs| - k < old(|cs| - k))
              || (n == old(n) && |cs| - k == old(|cs| - k) && Stage(status) < old(Stage(status)))
      ensures cache.Some? <==> old(cache).Some?
      ensures status.Done? && cache.Some? ==> original in cache.value && cache.value[original] == path
      ensures Turned() && (old(status).Ticking? ==> (status.Done? <==> old(k) == |old(cs)|))
    {
      hide Ends, Hard, Sound, Answers, KnownOk, SeenOk, CacheOk, EntryOk, Origin, Names, Exists;
      hide Root, Resolved, Locate, Components, Reduce, Canonical, Lines, AllProper, Slashed;
      hide Standing, Between, LookingAt, IsLinkAt, CachedOk;
      match status {
        case Ticking => Loop();
        case AwaitLstat => GotStat(kernel.lstat(base));
        case AwaitStat => AfterStat(kernel.stat(base));
        case AwaitReadlink =>
          LinkHasTarget();
          AfterReadlink(kernel.readlink(base).value);
      }
    }
  }

  lemma SetsOut(context: RealpathContext, cache: Option<map<string, string>>)
    requires context.Valid() && context.status.Ticking? && context.cache == cache && context.seenLinks == map[]
    requires context.cs == Components(context.original) && context.k == 0 && context.at == []
    requires context.knownHard == {}
    ensures Matches(context, Stock(cache)) && PlaceOf(context) == Outset(context.original)
    ensures Onward(context.fs, Stock(cache), Outset(context.original), PlaceOf(context), 0)
  {
    hide Walks, Components, RealpathContext.Kept, Stocked, RealpathContext.Valid;
    assert context.seenLinks.Keys == {};
    StockedFirst(context.fs, Stock(cache));
    OnwardStill(context.fs, Stock(cache), Outset(context.original));
  }

  /** What stands at the component that is looked at. */
  lemma BaseIs(context: RealpathContext)
    requires context.Valid() && !context.status.Ticking? && !context.status.Done? && !context.status.Failed?
    ensures context.k < |context.cs| && context.base == Root(context.cs[..context.k + 1]) && Absolute(context.base)
    ensures Sound(context.fs) && Walkable(context.cs) && Hard(context.fs, context.cs[..context.k], context.at)
  {
    hide Ends, Answers, KnownOk, SeenOk, CacheOk, EntryOk, Origin, Root, Walkable;
    BaseReadsBack(context.cs, context.k);
  }

  lemma LinkTells(context: RealpathContext)
    requires context.Valid() && !context.status.Ticking? && !context.status.Done? && !context.status.Failed?
    ensures context.k < |context.cs|
    ensures !context.status.AwaitLstat? ==>
              exists t :: NodeAt(context.fs, context.at, context.cs[context.k]) == Some(Link(t, context.id))
    ensures match NodeAt(context.fs, context.at, context.cs[context.k])
            case Some(Link(t, id)) => id in context.seenLinks ==> context.seenLinks[id] == t
            case _ => true
  {
    hide Ends, Hard, Answers, KnownOk, CacheOk, EntryOk, Origin, Root, Walkable;
    match NodeAt(context.fs, context.at, context.cs[context.k]) {
      case Some(Link(t, id)) =>
        if id in context.seenLinks {
          SeenTarget(context.fs, context.seenLinks, context.at, context.cs[context.k], id, t);
        }
      case _ =>
    }
  }

  lemma StatTells(context: RealpathContext)
    requires context.Valid() && context.status.AwaitStat?
    ensures context.k < |context.cs| && context.base == Root(context.cs[..context.k + 1]) && Absolute(context.base)
    ensures context.kernel.stat(context.base) <==> Exists(context.fs, context.cs[..context.k + 1])
    ensures exists t :: NodeAt(context.fs, context.at, context.cs[context.k]) == Some(Link(t, context.id))
  {
    hide Ends, Hard, Names, KnownOk, SeenOk, CacheOk, EntryOk, Origin, Root, Walkable, Exists;
    BaseReadsBack(context.cs, context.k);
  }

  lemma OnwardStill(fs: FS, cache: map<string, string>, p: Place)
    requires p.k <= |p.cs|
    ensures Onward(fs, cache, p, p, 0)
  {
  }

  /** A cached value that is its own key does not stand in the caller's cache. */
  lemma NotStandingHere(fs: FS, cache: map<string, string>, now: map<string, string>, seen: set<string>, key: string)
    requires Stocked(fs, cache, now, seen) && Absolute(key) && (key in now ==> now[key] == key)
    ensures !Stands(cache, key)
  {
  }

  /** The walk has gone on behind a component that is no link. */
  lemma WentBeyond(fs: FS, p: Place, next: Loc)
    requires p.k < |p.cs| && Hard(fs, p.cs[..p.k], p.at) && Hard(fs, p.cs[..p.k + 1], next)
    ensures NodeAt(fs, p.at, p.cs[p.k]) == Some(Entry) && next == Beyond(p.at, p.cs[p.k])
  {
    HardNext(fs, p.cs, p.k, p.at, next);
    HardSnoc(fs, p.cs[..p.k], p.cs[p.k], p.at);
    assert p.cs[..p.k + 1] == p.cs[..p.k] + [p.cs[p.k]];
    EndsOnce(fs, [], p.cs[..p.k + 1], 0, Some(next), 0, Some(Beyond(p.at, p.cs[p.k])));
  }

  // ----- the walk with its own cache is the walk with the caller's -----

  function Stock(cache: Option<map<string, string>>): map<string, string> {
    match cache case None => map[] case Some(m) => m
  }

  ghost function PlaceOf(context: RealpathContext): Place
    reads context
  {
    Place(context.at, context.cs, context.k, context.seenLinks.Keys)
  }

  predicate Over(status: Status) { status.Done? || status.Failed? }

  /** The walk has got where the caller's cache leads it, and has not ended. */
  ghost predicate Matches(context: RealpathContext, cache: map<string, string>)
    reads context
  {
    && context.Valid() && !Over(context.status)
    && Stocked(context.fs, cache, Stock(context.cache), context.seenLinks.Keys)
    && (context.cache.None? ==> cache == map[])
    && (forall p | p in context.knownHard :: !Stands(cache, p))
    && (!context.status.Ticking? ==> context.base !in Stock(context.cache))
    && (context.status.AwaitStat? || context.status.AwaitReadlink? ==> context.id !in context.seenLinks)
    && (context.status.AwaitReadlink? ==>
          context.k < |context.cs| && Exists(context.fs, context.cs[..context.k + 1]))
  }

  method TickOn(context: RealpathContext, ghost cache: map<string, string>) returns (ghost d: nat)
    requires Matches(context, cache) && context.status.Ticking?
    modifies context
    ensures context.Valid() && context.k <= |context.cs| && old(context.k) <= |old(context.cs)|
    ensures if Over(context.status) then d == 0 && Walks(context.fs, cache, old(PlaceOf(context)), 0)
            else
              && Matches(context, cache)
              && Onward(context.fs, cache, old(PlaceOf(context)), PlaceOf(context), d) && d <= 1
              && (d > 0 || |context.cs| - context.k < |old(context.cs)| - old(context.k)
                  || (PlaceOf(context) == old(PlaceOf(context)) && Stage(context.status) < old(Stage(context.status))))
    ensures context.cache.Some? <==> old(context.cache).Some?
    ensures context.status.Done? && context.cache.Some? ==>
              context.original in context.cache.value && context.cache.value[context.original] == context.path
  {
    hide Ends, Hard, Sound, Answers, KnownOk, SeenOk, CacheOk, CachedOk, EntryOk, Origin, Names, Exists, Stocked;
    hide Root, Locate, Components, Walkable, Onward, Walks, NodeAt, Followed;
    ghost var fs, p, now := context.fs, PlaceOf(context), Stock(context.cache);
    context.Turn();
    d := 0;
    if p.k == |p.cs| {
      WalksOver(fs, cache, p);
    } else {
      ghost var base := Root(p.cs[..p.k + 1]);
      BaseReadsBack(p.cs, p.k);
      if base in old(context.knownHard) || Cached(old(context.cache), base) == Some(base) {
        if base !in old(context.knownHard) { NotStandingHere(fs, cache, now, p.seen, base); }
        WentBeyond(fs, p, context.at);
        OnwardHard(fs, cache, p);
      } else if base in now {
        d := 1;
        OnwardStanding(fs, cache, now, p);
      } else {
        OnwardStill(fs, cache, p);
      }
    }
  }

  method LstatOn(context: RealpathContext, ghost cache: map<string, string>) returns (ghost d: nat)
    requires Matches(context, cache) && context.status.AwaitLstat?
    modifies context
    ensures context.Valid() && context.k <= |context.cs| && old(context.k) <= |old(context.cs)|
    ensures if Over(context.status) then d == 0 && Walks(context.fs, cache, old(PlaceOf(context)), 0)
            else
              && Matches(context, cache)
              && Onward(context.fs, cache, old(PlaceOf(context)), PlaceOf(context), d) && d <= 1
              && (d > 0 || |context.cs| - context.k < |old(context.cs)| - old(context.k)
                  || (PlaceOf(context) == old(PlaceOf(context)) && Stage(context.status) < old(Stage(context.status))))
    ensures context.cache.Some? <==> old(context.cache).Some?
    ensures context.status.Done? && context.cache.Some? ==>
              context.original in context.cache.value && context.cache.value[context.original] == context.path
  {
    hide Ends, Hard, Sound, Answers, KnownOk, SeenOk, CacheOk, CachedOk, EntryOk, Origin, Names, Exists, Stocked;
    hide Root, Locate, Components, Walkable, Onward, Walks, NodeAt, Followed;
    ghost var fs, p, base, now := context.fs, PlaceOf(context), context.base, Stock(context.cache);
    BaseIs(context);
    NotStanding(fs, cache, now, p.seen, base);
    ghost var node := NodeAt(fs, p.at, p.cs[p.k]);
    LinkTells(context);
    context.Turn();
    d := 0;
    match node {
      case None => WalksOver(fs, cache, p);
      case Some(Entry) =>
        StockedHard(fs, cache, now, p.seen, base);
        WentBeyond(fs, p, context.at);
        OnwardHard(fs, cache, p);
      case Some(Link(t, id)) =>
        if id in p.seen {
          d := 1;
          FollowedHere(fs, p, t, id, p.seen);
          StockedLink(fs, cache, now, p.seen, base, Root(Locate(p.cs[..p.k], Some(t))));
          OnwardLink(fs, cache, p, t, id);
          assert p.seen + {id} == p.seen;
        } else {
          OnwardStill(fs, cache, p);
        }
    }
  }

  method StatOn(context: RealpathContext, ghost cache: map<string, string>) returns (ghost d: nat)
    requires Matches(context, cache) && context.status.AwaitStat?
    modifies context
    ensures context.Valid() && context.k <= |context.cs| && old(context.k) <= |old(context.cs)|
    ensures if Over(context.status) then d == 0 && Walks(context.fs, cache, old(PlaceOf(context)), 0)
            else
              && Matches(context, cache)
              && Onward(context.fs, cache, old(PlaceOf(context)), PlaceOf(context), d) && d <= 1
              && (d > 0 || |context.cs| - context.k < |old(context.cs)| - old(context.k)
                  || (PlaceOf(context) == old(PlaceOf(context)) && Stage(context.status) < old(Stage(context.status))))
    ensures context.cache.Some? <==> old(context.cache).Some?
    ensures context.status.Done? && context.cache.Some? ==>
              context.original in context.cache.value && context.cache.value[context.original] == context.path
  {
    hide Ends, Hard, Sound, Answers, KnownOk, SeenOk, CacheOk, CachedOk, EntryOk, Origin, Names, Exists, Stocked;
    hide Root, Locate, Components, Walkable, Onward, Walks, NodeAt, Followed;
    hide Cached, Stands, RealpathContext.Kept;
    ghost var fs, p := context.fs, PlaceOf(context);
    StatTells(context);
    NotStanding(fs, cache, Stock(context.cache), p.seen, context.base);
    ghost var t :| NodeAt(fs, p.at, p.cs[p.k]) == Some(Link(t, context.id));
    context.Turn();
    d := 0;
    if context.status.Failed? {
      WalksOver(fs, cache, p);
    } else {
      OnwardStill(fs, cache, p);
    }
  }

  method ReadlinkOn(context: RealpathContext, ghost cache: map<string, string>) returns (ghost d: nat)
    requires Matches(context, cache) && context.status.AwaitReadlink?
    modifies context
    ensures context.Valid() && context.k <= |context.cs| && old(context.k) <= |old(context.cs)|
    ensures if Over(context.status) then d == 0 && Walks(context.fs, cache, old(PlaceOf(context)), 0)
            else
              && Matches(context, cache)
              && Onward(context.fs, cache, old(PlaceOf(context)), PlaceOf(context), d) && d <= 1
              && (d > 0 || |context.cs| - context.k < |old(context.cs)| - old(context.k)
                  || (PlaceOf(context) == old(PlaceOf(context)) && Stage(context.status) < old(Stage(context.status))))
    ensures context.cache.Some? <==> old(context.cache).Some?
    ensures context.status.Done? && context.cache.Some? ==>
              context.original in context.cache.value && context.cache.value[context.original] == context.path
  {
    hide Ends, Hard, Sound, Answers, KnownOk, SeenOk, CacheOk, CachedOk, EntryOk, Origin, Names, Exists, Stocked;
    hide Root, Locate, Components, Walkable, Onward, Walks, NodeAt, Followed;
    ghost var fs, p, now := context.fs, PlaceOf(context), Stock(context.cache);
    BaseIs(context);
    NotStanding(fs, cache, now, p.seen, context.base);
    LinkTells(context);
    ghost var t := NodeAt(fs, p.at, p.cs[p.k]).value.target;
    context.Turn();
    d := 1;
    assert context.seenLinks.Keys == p.seen + {old(context.id)};
    StockedSeen(fs, cache, now, p.seen, old(context.id));
    StockedLink(fs, cache, now, p.seen + {old(context.id)}, NULL_KEY, Root(Locate(p.cs[..p.k], Some(t))));
    OnwardLink(fs, cache, p, t, old(context.id));
  }

  lemma MatchesRuns(context: RealpathContext, cache: map<string, string>)
    requires Matches(context, cache)
    ensures !Over(context.status)
  {
  }

  /** One turn: it goes on by one component, by one replacement, or to the next call, or it ends. */
  method TurnOn(context: RealpathContext, ghost cache: map<string, string>) returns (ghost d: nat)
    requires Matches(context, cache)
    modifies context
    ensures context.Valid() && context.k <= |context.cs| && old(context.k) <= |old(context.cs)|
    ensures if Over(context.status) then d == 0 && Walks(context.fs, cache, old(PlaceOf(context)), 0)
            else
              && Matches(context, cache)
              && Onward(context.fs, cache, old(PlaceOf(context)), PlaceOf(context), d) && d <= 1
              && (d > 0 || |context.cs| - context.k < |old(context.cs)| - old(context.k)
                  || (PlaceOf(context) == old(PlaceOf(context)) && Stage(context.status) < old(Stage(context.status))))
    ensures context.cache.Some? <==> old(context.cache).Some?
    ensures context.status.Done? && context.cache.Some? ==>
              context.original in context.cache.value && context.cache.value[context.original] == context.path
  {
    hide PlaceOf, Matches, Onward, Walks, Stage;
    assert !Over(context.status) by { MatchesRuns(context, cache); }
    match context.status {
      case Ticking => d := TickOn(context, cache);
      case AwaitLstat => d := LstatOn(context, cache);
      case AwaitStat => d := StatOn(context, cache);
      case AwaitReadlink => d := ReadlinkOn(context, cache);
    }
  }

  /** After a link the path is another one, or the same string again. */
  lemma MovedOn(fs: FS, original: string, before: string, path: string, n: nat, n': nat, total: nat,
                out: Option<Loc>, light: bool, was: seq<string>, k: nat, cs: seq<string>)
    requires Origin(fs, original, before, n, total, out, light) && (light ==> n' < n)
    requires before == Root(was) && Walkable(was) && k < |was| && was[k] != ".."
    requires path == Root(cs) && Walkable(cs) && Ends(fs, [], cs, n', out)
    ensures Origin(fs, original, path, n', total, out, light)
  {
    RootReadsBack(was);
    NameNotAbove(was, k);
    RootReadsBack(cs);
    if path == original { EndsOnce(fs, [], cs, n', out, total, out); }
  }

  lemma OriginStarts(fs: FS, cwd: string, path: string, total: nat, out: Option<Loc>)
    requires Absolute(cwd) && OneLine(cwd) && OneLine(path)
    requires Ends(fs, [], Locate(Reduce([], Components(cwd)), Some(path)), total, out)
    ensures var original := Resolved(cwd, [Some(path)]);
            Absolute(original) && forall light :: Origin(fs, original, original, total, total, out, light)
  {
    var here := Reduce([], Components(cwd));
    ReducedCanonical(cwd);
    ComponentLines(cwd);
    ReduceLines([], Components(cwd));
    TargetWalkable(here, path);
    ResolveIsFold(cwd, [Some(path)]);
    assert [Some(path)][1..] == [];
    RootReadsBack(Locate(here, Some(path)));
  }

  /** The path ends where a path with `total` links ends, with a light cache over no more links. */
  ghost predicate SameFile(fs: FS, p: string, total: nat, out: Option<Loc>, light: bool) {
    exists m: nat :: (light ==> m <= total) && Ends(fs, [], Components(p), m, out)
  }

  /** The call fails exactly when the path leads nowhere, and its result leads to the same place with no link
      on the way. Only a result that comes straight out of the caller's cache may have links in it. */
  ghost predicate Right(fs: FS, original: string, cache: Option<map<string, string>>, r: Option<string>,
                        cache': Option<map<string, string>>, total: nat, out: Option<Loc>, light: bool)
  {
    if cache.Some? && original in cache.value then
      && r == Some(cache.value[original]) && cache' == cache
      && SameFile(fs, r.value, total, out, light)
    else
      && (r.Some? <==> out.Some?)
      && (r.Some? ==> Hard(fs, Components(r.value), out.value))
      && (r.Some? && cache.Some? ==> cache'.Some? && original in cache'.value && cache'.value[original] == r.value)
  }

  /** Where the walk sets out. */
  function Outset(original: string): Place { Place([], Components(original), 0, {}) }

  /** The call comes to an end after `n` replacements, or at once with what the caller's cache has. */
  ghost predicate ComesToEnd(fs: FS, original: string, cache: Option<map<string, string>>, n: nat) {
    Cached(cache, original).Some? || Walks(fs, Stock(cache), Outset(original), n)
  }

  /** What holds of the context of a call at any time. */
  ghost predicate InCall(context: RealpathContext, cache: Option<map<string, string>>)
    reads context
  {
    && context.Valid() && context.k <= |context.cs| && (context.cache.Some? <==> cache.Some?)
    && (context.status.Done? && cache.Some? ==>
          context.original in context.cache.value && context.cache.value[context.original] == context.path)
  }

  function ResultOf(status: Status): Option<string> { if status.Done? then Some(status.result) else None }

  /** The result when the call has ended. */
  lemma CallOver(context: RealpathContext, cache: Option<map<string, string>>)
    requires InCall(context, cache)
    ensures CachedOk(context.fs, context.cache, context.light) && (context.cache.Some? <==> cache.Some?)
    ensures Over(context.status) && Cached(cache, context.original).None? ==>
              Right(context.fs, context.original, cache, ResultOf(context.status), context.cache, context.total,
                    context.out, context.light)
  {
    hide Ends, Hard, Sound, Answers, KnownOk, SeenOk, CacheOk, Origin, Components, Root, SameFile;
    if context.status.Done? { HardResult(context.fs, context.cs, context.at, context.status.result); }
  }

  /** One turn, counted from where the walk has set out. */
  method GoOn(context: RealpathContext, ghost cache: Option<map<string, string>>, ghost n: nat)
    returns (ghost n': nat)
    requires InCall(context, cache) && Matches(context, Stock(cache))
    requires Onward(context.fs, Stock(cache), Outset(context.original), PlaceOf(context), n)
    modifies context
    ensures InCall(context, cache)
    ensures if Over(context.status) then Walks(context.fs, Stock(cache), Outset(context.original), n')
            else
              && Matches(context, Stock(cache))
              && Onward(context.fs, Stock(cache), Outset(context.original), PlaceOf(context), n')
  {
    hide Onward, Walks, Matches, PlaceOf, Outset, Stock, RealpathContext.Valid;
    ghost var fs, stock, outset, from := context.fs, Stock(cache), Outset(context.original), PlaceOf(context);
    OnwardLast(fs, stock, outset, from, n);
    ghost var d := TurnOn(context, stock);
    if !Over(context.status) { OnwardTwice(fs, stock, outset, from, PlaceOf(context), n, d); }
    n' := n + d;
  }

  /** One turn, counted to where the walk will end. */
  method Approach(context: RealpathContext, ghost cache: Option<map<string, string>>, ghost left: nat)
    returns (ghost left': nat)
    requires InCall(context, cache) && Matches(context, Stock(cache))
    requires Walks(context.fs, Stock(cache), PlaceOf(context), left)
    modifies context
    ensures InCall(context, cache)
    ensures !Over(context.status) ==>
              && Matches(context, Stock(cache)) && Walks(context.fs, Stock(cache), PlaceOf(context), left')
              && (left' < left
                  || (left' == left && |context.cs| - context.k < |old(context.cs)| - old(context.k))
                  || (left' == left && |context.cs| - context.k == |old(context.cs)| - old(context.k)
                      && Stage(context.status) < old(Stage(context.status))))
  {
    hide Onward, Walks, Matches, Stock, RealpathContext.Valid;
    ghost var fs, stock, from := context.fs, Stock(cache), PlaceOf(context);
    ghost var d := TurnOn(context, stock);
    left' := left;
    if !Over(context.status) {
      LessLeft(fs, stock, from, PlaceOf(context), left, d);
      left' := left - d;
    }
  }

  /** `realpath` for at most so many turns of the event loop, with any cache whose entries lead to the same
      files as their keys: whenever it has finished, its result is right. The path's own chain of links ends,
      at `out`, after `total` links; nothing else is asked of the links. It has finished only if the walk with
      the caller's cache comes to an end. */
  method RealpathFor(turns: nat, ghost fs: FS, kernel: Kernel, cwd: string, path: string,
                     cache: Option<map<string, string>>, ghost light: bool, ghost total: nat, ghost out: Option<Loc>)
    returns (finished: bool, r: Option<string>, cache': Option<map<string, string>>, ghost n: nat)
    requires Sound(fs) && Answers(fs, kernel) && CachedOk(fs, cache, light)
    requires Absolute(cwd) && OneLine(cwd) && OneLine(path)
    requires Ends(fs, [], Locate(Reduce([], Components(cwd)), Some(path)), total, out)
    ensures CachedOk(fs, cache', light) && (cache'.Some? <==> cache.Some?)
    ensures finished ==> Right(fs, Resolved(cwd, [Some(path)]), cache, r, cache', total, out, light)
    ensures finished ==> ComesToEnd(fs, Resolved(cwd, [Some(path)]), cache, n)
    ensures cache.Some? && Resolved(cwd, [Some(path)]) in cache.value ==> finished
  {
    hide Ends, Sound, Answers, CacheOk, Origin, SameFile, Hard, Resolved, Locate, Components, Reduce, OneLine;
    hide Walks, Onward, Matches, PlaceOf, Outset, Stock, Walkable, RealpathContext.Valid;
    var original := Resolve(cwd, [Some(path)]);
    OriginStarts(fs, cwd, path, total, out);
    n := 0;
    if cache.Some? && original in cache.value {
      CachedAnswer(fs, cache.value, original, total, out, light);
      return true, Some(cache.value[original]), cache, n;
    }
    hide Right;
    var context := new RealpathContext(fs, kernel, cwd, original, cache, light, total, out);
    SetsOut(context, cache);
    for turn := 0 to turns
      invariant fresh(context) && InCall(context, cache)
      invariant context.fs == fs && context.light == light && context.original == original
      invariant context.out == out && context.total == total
      invariant if Over(context.status) then Walks(fs, Stock(cache), Outset(original), n)
                else Matches(context, Stock(cache)) && Onward(fs, Stock(cache), Outset(original), PlaceOf(context), n)
    {
      if Over(context.status) { break; }
      n := GoOn(context, cache, n);
    }
    CallOver(context, cache);
    finished, r, cache' := Over(context.status), ResultOf(context.status), context.cache;
  }

  /** `realpath`, with the event loop that calls the pending callbacks back. The call ends if the walk with the
      caller's cache comes to an end, and its result is right. */
  method Realpath(ghost fs: FS, kernel: Kernel, cwd: string, path: string, cache: Option<map<string, string>>,
                  ghost light: bool, ghost total: nat, ghost out: Option<Loc>, ghost n: nat)
    returns (r: Option<string>, cache': Option<map<string, string>>)
    requires Sound(fs) && Answers(fs, kernel) && CachedOk(fs, cache, light)
    requires Absolute(cwd) && OneLine(cwd) && OneLine(path)
    requires Ends(fs, [], Locate(Reduce([], Components(cwd)), Some(path)), total, out)
    requires ComesToEnd(fs, Resolved(cwd, [Some(path)]), cache, n)
    ensures CachedOk(fs, cache', light) && (cache'.Some? <==> cache.Some?)
    ensures Right(fs, Resolved(cwd, [Some(path)]), cache, r, cache', total, out, light)
  {
    hide Ends, Sound, Answers, CacheOk, Origin, SameFile, Hard, Resolved, Locate, Components, Reduce, OneLine;
    hide Walks, Onward, Matches, PlaceOf, Outset, Stock, Walkable, RealpathContext.Valid;
    var original := Resolve(cwd, [Some(path)]);
    OriginStarts(fs, cwd, path, total, out);
    if cache.Some? && original in cache.value {
      CachedAnswer(fs, cache.value, original, total, out, light);
      return Some(cache.value[original]), cache;
    }
    hide Right;
    var context := new RealpathContext(fs, kernel, cwd, original, cache, light, total, out);
    ghost var left := n;
    SetsOut(context, cache);
    while !Over(context.status)
      invariant fresh(context) && InCall(context, cache)
      invariant context.fs == fs && context.light == light && context.original == original
      invariant context.out == out && context.total == total
      invariant !Over(context.status) ==>
                  Matches(context, Stock(cache)) && Walks(fs, Stock(cache), PlaceOf(context), left)
      decreases !Over(context.status), left, |context.cs| - context.k, Stage(context.status)
    {
      left := Approach(context, cache, left);
    }
    CallOver(context, cache);
    r, cache' := ResultOf(context.status), context.cache;
  }

  /** A light cache only makes the walk shorter: there are no more replacements than links. */
  lemma {:induction false} LightWalks(fs: FS, cache: map<string, string>, p: Place, m: nat, out: Option<Loc>)
    returns (n: nat)
    requires Sound(fs) && CacheOk(fs, cache, true) && Standing(fs, p.cs, p.k, p.at, m, out)
    ensures n <= m && Walks(fs, cache, p, n)
    decreases m, |p.cs| - p.k
  {
    hide Sound, Ends, Root, Locate, Components, Exists, EntryOk, Walkable, NodeAt, Walks, Onward, Stands;
    var rest: nat;
    if p.k == |p.cs| {
      WalksOver(fs, cache, p);
      return 0;
    }
    BaseReadsBack(p.cs, p.k);
    if Stands(cache, Root(p.cs[..p.k + 1])) {
      var m', q := LightCached(fs, cache, p, m, out);
      rest := LightWalks(fs, cache, q, m', out);
      WalksBefore(fs, cache, p, q, 1, rest);
      return rest + 1;
    }
    match NodeAt(fs, p.at, p.cs[p.k]) {
      case None =>
        WalksOver(fs, cache, p);
        n := 0;
      case Some(Entry) =>
        var next := StepHard(fs, p.cs, p.k, p.at, m, out);
        WentBeyond(fs, p, next);
        OnwardHard(fs, cache, p);
        n := LightWalks(fs, cache, p.(at := next, k := p.k + 1), m, out);
        WalksBefore(fs, cache, p, p.(at := next, k := p.k + 1), 0, n);
      case Some(Link(t, id)) =>
        if id in p.seen || Exists(fs, p.cs[..p.k + 1]) {
          StepLink(fs, p.cs, p.k, p.at, m, out, t, id);
          OnwardLink(fs, cache, p, t, id);
          var q := Replaced(p, Locate(p.cs[..p.k], Some(t)), p.seen + {id});
          rest := LightWalks(fs, cache, q, m - 1, out);
          WalksBefore(fs, cache, p, q, 1, rest);
          n := rest + 1;
        } else {
          WalksOver(fs, cache, p);
          n := 0;
        }
    }
  }

  lemma LightCached(fs: FS, cache: map<string, string>, p: Place, m: nat, out: Option<Loc>)
    returns (m': nat, q: Place)
    requires CacheOk(fs, cache, true) && Standing(fs, p.cs, p.k, p.at, m, out) && p.k < |p.cs|
    requires Stands(cache, Root(p.cs[..p.k + 1]))
    ensures m' < m && Standing(fs, q.cs, q.k, q.at, m', out) && Onward(fs, cache, p, q, 1)
  {
    hide Ends, Root, Components, EntryOk, Walkable, Walks, Onward;
    var key := Root(p.cs[..p.k + 1]);
    BaseReadsBack(p.cs, p.k);
    m' := StepCached(fs, p.cs, p.k, p.at, m, out, cache[key], true);
    q := Replaced(p, Components(cache[key]), p.seen);
    OnwardCached(fs, cache, p);
  }

  lemma WalksBefore(fs: FS, cache: map<string, string>, p: Place, q: Place, d: nat, n: nat)
    requires Onward(fs, cache, p, q, d) && Walks(fs, cache, q, n)
    ensures Walks(fs, cache, p, n + d)
  {
    hide Walks;
  }

  /** With a light cache the call comes to an end. */
  lemma LightEnds(fs: FS, cwd: string, path: string, cache: Option<map<string, string>>, total: nat, out: Option<Loc>)
    returns (n: nat)
    requires Sound(fs) && CachedOk(fs, cache, true) && Absolute(cwd) && OneLine(cwd) && OneLine(path)
    requires Ends(fs, [], Locate(Reduce([], Components(cwd)), Some(path)), total, out)
    ensures n <= total && ComesToEnd(fs, Resolved(cwd, [Some(path)]), cache, n)
  {
    hide Ends, Sound, EntryOk, Locate, Components, Reduce, Resolved, Walkable, Walks, Root;
    var original := Resolved(cwd, [Some(path)]);
    OriginStarts(fs, cwd, path, total, out);
    assert Origin(fs, original, original, total, total, out, true);
    AtRoot(fs, Components(original), total, out);
    n := LightWalks(fs, Stock(cache), Outset(original), total, out);
  }

  /** The result for an original path that is in the cache. */
  lemma CachedAnswer(fs: FS, cache: map<string, string>, original: string, total: nat, out: Option<Loc>, light: bool)
    requires CacheOk(fs, cache, light) && original in cache && Absolute(original)
    requires Origin(fs, original, original, total, total, out, light)
    ensures SameFile(fs, cache[original], total, out, light)
  {
    hide Ends;
    var v := cache[original];
    assert EntryOk(fs, original, v, light);
    if v != original { assert LeadsTo(fs, Components(v), total, out, light); }
  }

  lemma HardResult(fs: FS, cs: seq<string>, at: Loc, p: string)
    requires Standing(fs, cs, |cs|, at, 0, Some(at)) && p == Root(cs)
    ensures Hard(fs, Components(p), at)
  {
    RootReadsBack(cs);
    assert cs[..|cs|] == cs;
  }

  // ----- a cache that says of a link that it is none -----

  /** /a is a link to /x/y, and /x/y/l one to "../z". */
  const KEY_FS: FS := map[["a"] := Link("/x/y", "1"), ["x"] := Entry, ["x", "y"] := Entry,
                          ["x", "y", "l"] := Link("../z", "2"), ["x", "z"] := Entry, ["z"] := Entry]

  /** /a/l is /x/z. But with "/a" as the entry of "/a" the walk takes "/a" for hard and reads the target of /a/l
      from there: it goes on with /z, which is another file. */
  lemma OwnKeyLink()
    ensures Sound(KEY_FS) && !EntryOk(KEY_FS, "/a", "/a", false)
    ensures Ends(KEY_FS, [], ["a", "l"], 2, Some(["x", "z"]))
    ensures Locate(["a"], Some("../z")) == ["z"] && Ends(KEY_FS, [], ["z"], 0, Some(["z"]))
  {
    KeyPaths();
    KeyTarget();
    KeyEnds();
    hide Components, Ends, Reduce;
    forall at | Hard(KEY_FS, ["a"], at) ensures false {
      EndsOnce(KEY_FS, [], ["a"], 0, Some(at), 1, Some(["x", "y"]));
    }
  }

  lemma KeyPaths()
    ensures Components("/x/y") == ["x", "y"] && Components("../z") == ["..", "z"] && Components("/a") == ["a"]
    ensures Canonical(["x", "y"]) && Canonical(["..", "z"]) && OneLine("/x/y") && OneLine("../z")
  {
    hide Components, Slashed;
    SlashedTwo("x", "y");
    SlashedTwo("..", "z");
    assert "/" + "x" + "/" + "y" == "/x/y" && ".." + "/" + "z" == "../z";
    LoopPaths();
    RootReadsBack(["x", "y"]);
    ComponentsSlashed(["..", "z"]);
  }

  lemma SlashedTwo(a: string, b: string)
    ensures Slashed([a, b]) == a + "/" + b && Root([a, b]) == "/" + a + "/" + b
  {
    assert [a, b] == [a] + [b] && [SEP] == "/";
    JoinSnoc([a], SEP, b);
    JoinSnoc([], SEP, a);
    assert [] + [a] == [a];
    Regrouped("/", a + "/", b);
    Regrouped("/", a, "/");
  }

  lemma KeyTarget()
    ensures Locate(["a"], Some("../z")) == ["z"]
  {
    KeyPaths();
    hide Components;
    assert ["..", "z"][1..] == ["z"] && ["z"][1..] == [] && ["a"][..0] == [] && [] + ["z"] == ["z"];
    ReduceCons(["a"], "..", ["z"]);
    ReduceCons([], "z", []);
  }

  lemma EndsEntry(fs: FS, at: Loc, c: string, rest: seq<string>, n: nat, out: Option<Loc>)
    requires c != ".." && Lookup(fs, at + [c]) == Some(Entry) && Ends(fs, at + [c], rest, n, out)
    ensures Ends(fs, at, [c] + rest, n, out)
  {
    assert ([c] + rest)[1..] == rest;
  }

  lemma EndsLink(fs: FS, at: Loc, c: string, t: string, id: string, rest: seq<string>, n: nat, out: Option<Loc>)
    requires c != ".." && Lookup(fs, at + [c]) == Some(Link(t, id))
    requires Ends(fs, Begin(at, t), Components(t) + rest, n, out)
    ensures Ends(fs, at, [c] + rest, n + 1, out)
  {
    hide Components;
    assert ([c] + rest)[1..] == rest;
  }

  lemma EndsUp(fs: FS, at: Loc, rest: seq<string>, n: nat, out: Option<Loc>)
    requires Ends(fs, Parent(at), rest, n, out)
    ensures Ends(fs, at, [".."] + rest, n, out)
  {
    assert ([".."] + rest)[1..] == rest;
  }

  lemma KeySteps()
    ensures ["x"] + ["z"] == ["x", "z"] && ["z"] + [] == ["z"] && [".."] + ["z"] == ["..", "z"]
    ensures ["..", "z"] + [] == ["..", "z"] && ["l"] + [] == ["l"] && ["x", "y"] + ["l"] == ["x", "y", "l"]
    ensures ["x"] + ["y"] == ["x", "y"] && ["y"] + ["l"] == ["y", "l"] && ["x"] + ["y", "l"] == ["x", "y"] + ["l"]
    ensures [] + ["x"] == ["x"] && [] + ["a"] == ["a"] && [] + ["z"] == ["z"] && ["a"] + ["l"] == ["a", "l"]
    ensures ["y"] + [] == ["y"] && ["x", "y"] + [] == ["x", "y"] && ["a"] + [] == ["a"] && Parent(["x", "y"]) == ["x"]
    ensures Lookup(KEY_FS, ["x", "z"]) == Lookup(KEY_FS, ["x", "y"]) == Lookup(KEY_FS, ["x"]) == Some(Entry)
    ensures Lookup(KEY_FS, ["z"]) == Some(Entry) && Lookup(KEY_FS, ["x", "y", "l"]) == Some(Link("../z", "2"))
    ensures Lookup(KEY_FS, ["a"]) == Some(Link("/x/y", "1"))
    ensures Begin(["x", "y"], "../z") == ["x", "y"] && Begin([], "/x/y") == []
  {
  }

  lemma KeyEnds()
    ensures Ends(KEY_FS, [], ["a"], 1, Some(["x", "y"])) && Ends(KEY_FS, [], ["a", "l"], 2, Some(["x", "z"]))
    ensures Ends(KEY_FS, [], ["z"], 0, Some(["z"]))
  {
    KeyPaths();
    var y, z: Option<Loc> := Some(["x", "y"]), Some(["x", "z"]);
    assert Ends(KEY_FS, ["x", "z"], [], 0, z) && Ends(KEY_FS, ["x", "y"], [], 0, y);
    assert Ends(KEY_FS, ["z"], [], 0, Some(["z"]));
    hide Ends, Components;
    KeySteps();
    EndsEntry(KEY_FS, ["x"], "z", [], 0, z);
    EndsUp(KEY_FS, ["x", "y"], ["z"], 0, z);
    EndsLink(KEY_FS, ["x", "y"], "l", "../z", "2", [], 0, z);
    EndsEntry(KEY_FS, ["x"], "y", ["l"], 1, z);
    EndsEntry(KEY_FS, [], "x", ["y", "l"], 1, z);
    EndsLink(KEY_FS, [], "a", "/x/y", "1", ["l"], 1, z);
    EndsEntry(KEY_FS, ["x"], "y", [], 0, y);
    EndsEntry(KEY_FS, [], "x", ["y"], 0, y);
    EndsLink(KEY_FS, [], "a", "/x/y", "1", [], 0, y);
    EndsEntry(KEY_FS, [], "z", [], 0, Some(["z"]));
  }

  // ----- a cache that is right and not light -----

  /** /l is a link to /a, and the cache knows /a as /l. */
  const LOOP_FS: FS := map[["a"] := Entry, ["l"] := Link("/a", "1")]

  const LOOP_CACHE: map<string, string> := map["/a" := "/l"]

  lemma LoopPaths()
    ensures Root(["a"]) == "/a" && Root(["l"]) == "/l" && Walkable(["a"]) && Walkable(["l"])
    ensures Components("/a") == ["a"] && Components("/l") == ["l"] && Locate([], Some("/a")) == ["a"]
    ensures Canonical(["a"]) && OneLine("/a")
  {
    assert Slashed(["a"]) == "a" && Slashed(["l"]) == "l";
    RootReadsBack(["a"]);
    RootReadsBack(["l"]);
    ReduceCanonical([], ["a"]);
    assert Reduce([], ["a"]) == ["a"];
  }

  lemma LoopEnds()
    ensures Ends(LOOP_FS, [], ["l"], 1, Some(["a"])) && Ends(LOOP_FS, [], ["a"], 0, Some(["a"]))
    ensures NodeAt(LOOP_FS, [], "l") == Some(Link("/a", "1"))
  {
    LoopPaths();
    hide Components;
    var there: Option<Loc> := Some(["a"]);
    assert [] + ["a"] == ["a"] && [] + ["l"] == ["l"] && ["a"] + [] == ["a"];
    assert ["a"][1..] == [] && ["l"][1..] == [];
    assert Ends(LOOP_FS, ["a"], [], 0, there);
    assert Ends(LOOP_FS, [], ["a"], 0, there);
    assert Begin([], "/a") == [];
  }

  /** The cache entry leads to the same file as its key, over one link more. */
  lemma LoopCache()
    ensures Sound(LOOP_FS) && CacheOk(LOOP_FS, LOOP_CACHE, false) && !CacheOk(LOOP_FS, LOOP_CACHE, true)
    ensures Origin(LOOP_FS, "/l", "/l", 1, 1, Some(["a"]), false)
  {
    LoopPaths();
    LoopEnds();
    hide Components, Ends, Root, Walkable, OneLine, Canonical;
    var there: Option<Loc> := Some(["a"]);
    forall n, out | Ends(LOOP_FS, [], ["a"], n, out) ensures LeadsTo(LOOP_FS, ["l"], n, out, false) {
      EndsOnce(LOOP_FS, [], ["a"], 0, there, n, out);
    }
    assert !LeadsTo(LOOP_FS, ["l"], 0, there, true);
    assert !EntryOk(LOOP_FS, "/a", "/l", true);
  }

  /** With that cache the walk replaces for ever... */
  lemma {:induction false} NeverEnds(cs: seq<string>, seen: set<string>, n: nat)
    requires cs == ["a"] || cs == ["l"]
    ensures !Walks(LOOP_FS, LOOP_CACHE, Place([], cs, 0, seen), n)
    decreases n
  {
    LoopPaths();
    LoopEnds();
    hide Ends, Components, Root, Locate, Walkable, Canonical, OneLine, NodeAt;
    var p := Place([], cs, 0, seen);
    assert cs[..1] == cs && cs[..0] == [] && cs[1..] == [] && ["a"] + [] == ["a"] && ["l"] + [] == ["l"];
    if cs == ["l"] {
      assert Ends(LOOP_FS, [], ["l"], 1, Some(["a"])) && Exists(LOOP_FS, ["l"]);
      assert Replaced(p, Locate([], Some("/a")), seen + {"1"}) == Place([], ["a"], 0, seen + {"1"});
      if n > 0 { NeverEnds(["a"], seen + {"1"}, n - 1); }
    } else {
      assert Replaced(p, Components("/l"), seen) == Place([], ["l"], 0, seen);
      if n > 0 { NeverEnds(["l"], seen, n - 1); }
    }
  }

  lemma LoopPath()
    ensures Absolute("/") && OneLine("/") && OneLine("/l")
    ensures Locate(Reduce([], Components("/")), Some("/l")) == ["l"] && Resolved("/", [Some("/l")]) == "/l"
  {
    LoopPaths();
    hide Components, Root, Reduce, Resolved;
    ReduceIdempotent(["l"]);
    ResolveIsFold("/", [Some("/l")]);
    assert [Some("/l")][1..] == [];
  }

  /** ... and realpath("/l") has not come to an end after any number of turns. */
  method LoopsForEver(turns: nat, kernel: Kernel) returns (finished: bool)
    requires Answers(LOOP_FS, kernel)
    ensures !finished
  {
    LoopPaths();
    LoopCache();
    LoopPath();
    LoopEnds();
    hide Ends, Answers, CacheOk, Walks, Origin, Components, Locate, Reduce, Resolved, Root;
    var r, cache';
    ghost var n;
    finished, r, cache', n :=
      RealpathFor(turns, LOOP_FS, kernel, "/", "/l", Some(LOOP_CACHE), false, 1, Some(["a"]));
    NeverEnds(["l"], {}, n);
  }

  /** Without a cache the same call ends, at /a. */
  method LoopsOnce(kernel: Kernel) returns (r: Option<string>)
    requires Answers(LOOP_FS, kernel)
    ensures r.Some? && Hard(LOOP_FS, Components(r.value), ["a"])
  {
    LoopPaths();
    LoopCache();
    LoopPath();
    LoopEnds();
    hide Ends, Answers, CacheOk, Walks, Origin, Components, Locate, Reduce, Resolved, Root;
    ghost var n := LightEnds(LOOP_FS, "/", "/l", None, 1, Some(["a"]));
    var cache';
    r, cache' := Realpath(LOOP_FS, kernel, "/", "/l", None, true, 1, Some(["a"]), n);
  }
}

/** The table of fields that `setHeader` fills and `writeHead` overlays, in
    include/libnode/detail/http/outgoing_message.h. An object is the list of its entries in the order in which
    they were first put; putting a key again replaces its entry in place. */
module HttpFields {
  import opened HttpFraming

  /** `JsObject::put` on a list of fields. */
  function PutField(fs: seq<Field>, f: Field): seq<Field> {
    if fs == [] then [f] else if fs[0].name == f.name then [f] + fs[1..] else [fs[0]] + PutField(fs[1..], f)
  }

  /** `put` of every entry of `over`. */
  function Overlay(fs: seq<Field>, over: seq<Field>): seq<Field>
    decreases |over|
  {
    if over == [] then fs else Overlay(PutField(fs, over[0]), over[1..])
  }

  /** The fields of a head: those set before it, with those given to `writeHead` put over them. */
  function Merged(preset: seq<Field>, extra: seq<Field>): seq<Field> {
    if preset == [] then extra else Overlay(preset, extra)
  }

  /** The table of `setHeader` is keyed by the lower-case name. */
  function PutByKey(fs: seq<Field>, f: Field): seq<Field> {
    if fs == [] then [f] else if Lower(fs[0].name) == Lower(f.name) then [f] + fs[1..]
    else [fs[0]] + PutByKey(fs[1..], f)
  }

  // ----- what putting and overlaying mean -----

  /** No field before the `i`-th has its name. */
  ghost predicate FirstOfName(fs: seq<Field>, i: nat)
    requires i < |fs|
  {
    forall j | 0 <= j < i :: fs[j].name != fs[i].name
  }

  ghost predicate Named(fs: seq<Field>, name: string) { exists i :: 0 <= i < |fs| && fs[i].name == name }

  /** `f` is the field that the list gives last for its name. */
  ghost predicate LastGiven(fs: seq<Field>, f: Field) {
    exists j :: 0 <= j < |fs| && fs[j] == f && forall k | j < k < |fs| :: fs[k].name != f.name
  }

  /** The name `a` comes before the first `b`. */
  ghost predicate ComesBefore(fs: seq<Field>, a: string, b: string) {
    exists j :: 0 <= j < |fs| && fs[j].name == a && forall k | 0 <= k <= j :: fs[k].name != b
  }

  /** `r` is `fs` overlaid with `over`. The names of `fs` keep their places, and a name that `over` has too has
      the value that `over` gives it last; the other names of `over` follow, each once with its last value,
      in the order in which they come up first. */
  ghost predicate Overlaid(fs: seq<Field>, over: seq<Field>, r: seq<Field>) {
    && |fs| <= |r|
    && (forall i | 0 <= i < |r| :: OverlaidAt(fs, over, r, i))
    && (forall j | 0 <= j < |over| :: Named(r, over[j].name))
    && (forall a, b | |fs| <= a < b < |r| :: ComesBefore(over, r[a].name, r[b].name))
  }

  ghost predicate OverlaidAt(fs: seq<Field>, over: seq<Field>, r: seq<Field>, i: nat)
    requires i < |r|
  {
    if i >= |fs| then LastGiven(over, r[i]) && FirstOfName(r, i)
    else if Named(over, fs[i].name) && FirstOfName(fs, i) then LastGiven(over, r[i]) && r[i].name == fs[i].name
    else r[i] == fs[i]
  }

  /** The fields of a head, without a word about how they are found. */
  ghost predicate HeadFields(preset: seq<Field>, extra: seq<Field>, user: seq<Field>) {
    if preset == [] then user == extra else Overlaid(preset, extra, user)
  }

  /** `r` is `fs` with `f` put under its key: a field whose name differs in case only is replaced where it
      stands, and otherwise `f` stands last. */
  ghost predicate PutUnder(fs: seq<Field>, f: Field, r: seq<Field>) {
    && ((forall i | 0 <= i < |fs| :: Lower(fs[i].name) != Lower(f.name)) ==> r == fs + [f])
    && forall i: nat | i < |fs| && Lower(fs[i].name) == Lower(f.name)
                       && forall j | 0 <= j < i :: Lower(fs[j].name) != Lower(f.name) :: r == fs[i := f]
  }

  lemma {:induction false} PutFieldIs(fs: seq<Field>, f: Field, at: nat)
    requires at <= |fs| && forall j | 0 <= j < at :: fs[j].name != f.name
    requires at < |fs| ==> fs[at].name == f.name
    ensures PutField(fs, f) == if at < |fs| then fs[at := f] else fs + [f]
  {
    if at > 0 {
      PutFieldIs(fs[1..], f, at - 1);
      assert fs == [fs[0]] + fs[1..];
    }
  }

  /** The first field of the name, or the end of the list. */
  lemma {:induction false} Place(fs: seq<Field>, name: string) returns (at: nat)
    ensures at <= |fs| && forall j | 0 <= j < at :: fs[j].name != name
    ensures at < |fs| ==> fs[at].name == name
    ensures at < |fs| <==> Named(fs, name)
  {
    at := 0;
    while at < |fs| && fs[at].name != name
      invariant at <= |fs| && forall j | 0 <= j < at :: fs[j].name != name
    {
      at := at + 1;
    }
  }

  lemma {:induction false} PutByKeyIs(fs: seq<Field>, f: Field)
    ensures PutUnder(fs, f, PutByKey(fs, f))
  {
    hide Lower;
    if forall i | 0 <= i < |fs| :: Lower(fs[i].name) != Lower(f.name) {
      PutByKeyAt(fs, f, |fs|);
    }
    forall i: nat | i < |fs| && Lower(fs[i].name) == Lower(f.name)
                    && forall j | 0 <= j < i :: Lower(fs[j].name) != Lower(f.name)
      ensures PutByKey(fs, f) == fs[i := f]
    {
      PutByKeyAt(fs, f, i);
    }
  }

  lemma {:induction false} PutByKeyAt(fs: seq<Field>, f: Field, at: nat)
    requires at <= |fs| && forall j | 0 <= j < at :: Lower(fs[j].name) != Lower(f.name)
    requires at < |fs| ==> Lower(fs[at].name) == Lower(f.name)
    ensures PutByKey(fs, f) == if at < |fs| then fs[at := f] else fs + [f]
  {
    hide Lower;
    if at > 0 {
      PutByKeyAt(fs[1..], f, at - 1);
      assert fs == [fs[0]] + fs[1..];
    }
  }

  lemma {:induction false} OverlaySnoc(fs: seq<Field>, front: seq<Field>, f: Field)
    ensures Overlay(fs, front + [f]) == PutField(Overlay(fs, front), f)
    decreases |front|
  {
    hide PutField;
    if front == [] {
      assert [] + [f] == [f] && [f][1..] == [];
    } else {
      assert (front + [f])[1..] == front[1..] + [f];
      OverlaySnoc(PutField(fs, front[0]), front[1..], f);
    }
  }

  lemma LastGivenSnoc(over: seq<Field>, f: Field, g: Field)
    ensures LastGiven(over, g) && g.name != f.name ==> LastGiven(over + [f], g)
    ensures LastGiven(over + [f], f)
    ensures forall name :: Named(over + [f], name) <==> Named(over, name) || name == f.name
    ensures LastGiven(over, g) ==> Named(over, g.name)
  {
    var more := over + [f];
    assert more[|over|] == f;
    assert forall i | 0 <= i < |over| :: more[i] == over[i];
  }

  lemma ComesBeforeSnoc(over: seq<Field>, f: Field, a: string, b: string)
    ensures ComesBefore(over, a, b) ==> ComesBefore(over + [f], a, b)
    ensures Named(over, a) && !Named(over, f.name) ==> ComesBefore(over + [f], a, f.name)
  {
    assert forall i | 0 <= i < |over| :: (over + [f])[i] == over[i];
  }

  lemma NamedIn(a: seq<Field>, b: seq<Field>, name: string)
    requires |a| <= |b| && forall i | 0 <= i < |a| :: b[i].name == a[i].name
    ensures Named(a, name) ==> Named(b, name)
  {
  }

  lemma OverlaidName(fs: seq<Field>, over: seq<Field>, r: seq<Field>, i: nat)
    requires Overlaid(fs, over, r) && i < |r|
    ensures i < |fs| ==> r[i].name == fs[i].name
    ensures i >= |fs| ==> Named(over, r[i].name)
  {
    assert OverlaidAt(fs, over, r, i);
    LastGivenSnoc(over, r[i], r[i]);
  }

  lemma OverlaidNames(fs: seq<Field>, over: seq<Field>, r: seq<Field>, name: string)
    requires Overlaid(fs, over, r)
    ensures Named(over, name) ==> Named(r, name)
  {
  }

  /** One more field, of a new name... */
  lemma OverlaidNew(fs: seq<Field>, over: seq<Field>, r: seq<Field>, f: Field)
    requires Overlaid(fs, over, r) && !Named(r, f.name)
    ensures Overlaid(fs, over + [f], r + [f])
  {
    var more, r' := over + [f], r + [f];
    hide LastGiven, ComesBefore, OverlaidAt, Named;
    forall i | 0 <= i < |r'| ensures OverlaidAt(fs, more, r', i) {
      NewAt(fs, over, r, f, i);
    }
    LastGivenSnoc(over, f, f);
    OverlaidNames(fs, over, r, f.name);
    forall a, b | |fs| <= a < b < |r'| ensures ComesBefore(more, r'[a].name, r'[b].name) {
      ComesBeforeSnoc(over, f, r[a].name, r'[b].name);
      OverlaidName(fs, over, r, a);
    }
    forall j | 0 <= j < |more| ensures Named(r', more[j].name) {
      NamedIn(r, r', more[j].name);
      LastGivenSnoc(r, f, f);
    }
  }

  lemma NewAt(fs: seq<Field>, over: seq<Field>, r: seq<Field>, f: Field, i: nat)
    requires Overlaid(fs, over, r) && !Named(r, f.name) && i <= |r|
    ensures OverlaidAt(fs, over + [f], r + [f], i)
  {
    hide LastGiven, ComesBefore;
    var r' := r + [f];
    LastGivenSnoc(over, f, f);
    assert forall k | 0 <= k < |r| :: r'[k] == r[k];
    if i < |r| {
      assert OverlaidAt(fs, over, r, i);
      LastGivenSnoc(over, f, r[i]);
      OverlaidName(fs, over, r, i);
    }
  }

  /** ... or of a name that is there. */
  lemma OverlaidAgain(fs: seq<Field>, over: seq<Field>, r: seq<Field>, f: Field, at: nat)
    requires Overlaid(fs, over, r) && at < |r| && r[at].name == f.name && FirstOfName(r, at)
    ensures Overlaid(fs, over + [f], r[at := f])
  {
    var more, r' := over + [f], r[at := f];
    hide LastGiven, ComesBefore, OverlaidAt, Named;
    forall i | 0 <= i < |r'| ensures OverlaidAt(fs, more, r', i) {
      AgainAt(fs, over, r, f, at, i);
    }
    LastGivenSnoc(over, f, f);
    forall a, b | |fs| <= a < b < |r'| ensures ComesBefore(more, r'[a].name, r'[b].name) {
      ComesBeforeSnoc(over, f, r[a].name, r[b].name);
    }
    forall j | 0 <= j < |more| ensures Named(r', more[j].name) {
      NamedIn(r, r', more[j].name);
      NameOf(r, at);
    }
  }

  lemma NameOf(r: seq<Field>, at: nat)
    requires at < |r|
    ensures Named(r, r[at].name)
  {
  }

  lemma AgainAt(fs: seq<Field>, over: seq<Field>, r: seq<Field>, f: Field, at: nat, i: nat)
    requires Overlaid(fs, over, r) && at < |r| && r[at].name == f.name && FirstOfName(r, at) && i < |r|
    ensures OverlaidAt(fs, over + [f], r[at := f], i)
  {
    hide LastGiven, ComesBefore, Overlaid, Named;
    var r' := r[at := f];
    LastGivenSnoc(over, f, f);
    LastGivenSnoc(over, f, r[i]);
    assert OverlaidAt(fs, over, r, i) by { OverlaidEach(fs, over, r); }
    forall k | 0 <= k < |fs| && k < |r| ensures r[k].name == fs[k].name {
      OverlaidName(fs, over, r, k);
    }
    OverlaidEach(fs, over, r);
  }

  lemma OverlaidEach(fs: seq<Field>, over: seq<Field>, r: seq<Field>)
    requires Overlaid(fs, over, r)
    ensures |fs| <= |r| && forall i | 0 <= i < |r| :: OverlaidAt(fs, over, r, i)
  {
    hide OverlaidAt;
  }

  lemma {:induction false} OverlayIs(fs: seq<Field>, over: seq<Field>)
    ensures Overlaid(fs, over, Overlay(fs, over))
    decreases |over|
  {
    if over != [] {
      var front, f := over[..|over| - 1], over[|over| - 1];
      var r := Overlay(fs, front);
      assert over == front + [f];
      OverlayIs(fs, front);
      OverlaySnoc(fs, front, f);
      var at := Place(r, f.name);
      PutFieldIs(r, f, at);
      hide Overlaid, Overlay, PutField;
      if at < |r| { OverlaidAgain(fs, front, r, f, at); } else { OverlaidNew(fs, front, r, f); }
    }
  }

  /** The loop of `writeHead` over the entries of `over`. */
  method PutAll(fs: seq<Field>, over: seq<Field>) returns (hs: seq<Field>)
    ensures hs == Overlay(fs, over) && Overlaid(fs, over, hs)
  {
    hide *;
    OverlayIs(fs, over);
    OverlayNothing(fs);
    hs := fs;
    for i := 0 to |over|
      invariant hs == Overlay(fs, over[..i])
    {
      assert over[..i + 1] == over[..i] + [over[i]];
      OverlaySnoc(fs, over[..i], over[i]);
      hs := PutField(hs, over[i]);
    }
    assert over[..|over|] == over;
  }

  lemma OverlayNothing(fs: seq<Field>)
    ensures Overlay(fs, []) == fs
  {
  }

  lemma MergedIs(preset: seq<Field>, extra: seq<Field>)
    ensures HeadFields(preset, extra, Merged(preset, extra))
    ensures extra == [] ==> Merged(preset, extra) == preset
  {
    hide Overlaid;
    OverlayIs(preset, extra);
  }

  // ----- what holds of the table -----

  /** No two fields have names that differ in case only. */
  predicate OneForEachKey(fs: seq<Field>) {
    forall i, j | 0 <= i < j < |fs| :: Lower(fs[i].name) != Lower(fs[j].name)
  }

  /** Every key has one field in the table, and it is the one that was put last. */
  lemma PutKeepsKeys(fs: seq<Field>, f: Field, r: seq<Field>)
    requires OneForEachKey(fs) && PutUnder(fs, f, r)
    ensures OneForEachKey(r) && f in r
    ensures forall g :: g in r <==> g == f || (g in fs && Lower(g.name) != Lower(f.name))
  {
    hide Lower;
    if i: nat :| i < |fs| && Lower(fs[i].name) == Lower(f.name) {
      assert r == fs[i := f];
      assert r[i] == f;
      forall g | g in fs && Lower(g.name) != Lower(f.name) ensures g in r {
        var k :| 0 <= k < |fs| && fs[k] == g;
        assert r[k] == g;
      }
    } else {
      assert r == fs + [f];
    }
  }

  /** With one field for each name below and above, the overlay has every name of either once, with the
      upper value if there is one. */
  lemma OverlaidOnce(fs: seq<Field>, over: seq<Field>, r: seq<Field>)
    requires Overlaid(fs, over, r)
    requires forall i, j | 0 <= i < j < |fs| :: fs[i].name != fs[j].name
    requires forall i, j | 0 <= i < j < |over| :: over[i].name != over[j].name
    ensures forall i, j | 0 <= i < j < |r| :: r[i].name != r[j].name
    ensures forall g :: g in r <==> g in over || (g in fs && !Named(over, g.name))
  {
    assert forall i | 0 <= i < |fs| :: FirstOfName(fs, i);
    forall i | 0 <= i < |r| ensures OverlaidAt(fs, over, r, i) && (i < |fs| ==> r[i].name == fs[i].name) {
      OverlaidName(fs, over, r, i);
    }
    forall g | g in over ensures g in r {
      var j :| 0 <= j < |over| && over[j] == g;
      assert Named(r, over[j].name);
      var i :| 0 <= i < |r| && r[i].name == g.name;
      assert i < |fs| ==> Named(over, fs[i].name);
      assert LastGiven(over, r[i]);
    }
    forall g | g in fs && !Named(over, g.name) ensures g in r {
      var i :| 0 <= i < |fs| && fs[i] == g;
      assert r[i] == g;
    }
    forall g | g in r ensures g in over || (g in fs && !Named(over, g.name)) {
      var i :| 0 <= i < |r| && r[i] == g;
      if i < |fs| && !Named(over, fs[i].name) { assert r[i] == fs[i]; } else { assert LastGiven(over, r[i]); }
    }
  }
}

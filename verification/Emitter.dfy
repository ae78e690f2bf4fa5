/** EventEmitter of include/libnode/detail/events/event_emitter.h (the shared-pointer build):
    two parallel arrays, listeners that remove themselves, and an `emit` whose callbacks may add
    further listeners. */
module Emitter {

  /** A listener and the function it calls; a `once` listener wraps the function. */
  datatype Listener = Listener(fn: int, once: bool)

  /** The name of an event. */
  datatype Name = Name(text: string)

  /** A call of `addListener` made by a callback. */
  datatype Addition = Addition(event: Name, listener: Listener)

  /** What the callbacks of an emission add: the k-th of them the k-th list. */
  type Reaction = seq<seq<Addition>>

  function AddedBy(react: Reaction, k: nat): seq<Addition> { if k < |react| then react[k] else [] }

  type Table = map<Name, seq<Listener>>

  function ListenersIn(table: Table, event: Name): seq<Listener> {
    if event in table then table[event] else []
  }

  // ----- specification functions -----

  /** `removeListener` drops the first listener whose function is equal. */
  function RemoveFirst(ls: seq<Listener>, fn: int): seq<Listener> {
    if ls == [] then []
    else if ls[0].fn == fn then ls[1..]
    else [ls[0]] + RemoveFirst(ls[1..], fn)
  }

  /** One turn of the search. */
  lemma RemoveFirstAt(ls: seq<Listener>, fn: int, i: nat)
    requires i <= |ls|
    ensures i == 0 ==> RemoveFirst(ls, fn) == ls[..i] + RemoveFirst(ls[i..], fn)
    ensures i == |ls| ==> ls[..i] + RemoveFirst(ls[i..], fn) == ls
    ensures i < |ls| && ls[i].fn == fn ==> RemoveFirst(ls[i..], fn) == ls[i + 1..]
    ensures i < |ls| && ls[i].fn != fn ==>
              ls[..i] + RemoveFirst(ls[i..], fn) == ls[..i + 1] + RemoveFirst(ls[i + 1..], fn)
  {
    assert ls[0..] == ls && ls[|ls|..] == [];
    if i < |ls| {
      assert ls[i..][0] == ls[i] && ls[i..][1..] == ls[i + 1..];
      if ls[i].fn != fn { Grouped(ls[..i], ls[i], RemoveFirst(ls[i + 1..], fn), ls[..i + 1]); }
    }
  }

  lemma Grouped(a: seq<Listener>, x: Listener, b: seq<Listener>, ax: seq<Listener>)
    requires ax == a + [x]
    ensures a + ([x] + b) == ax + b
  {
  }

  function Functions(ls: seq<Listener>): seq<int> {
    seq(|ls|, i requires 0 <= i < |ls| => ls[i].fn)
  }

  function Persistent(ls: seq<Listener>): seq<Listener> {
    if ls == [] then []
    else if ls[0].once then Persistent(ls[1..])
    else [ls[0]] + Persistent(ls[1..])
  }

  /** The additions to one event made by the first `k` callbacks. */
  function Added(event: Name, react: Reaction, k: nat): seq<Listener> {
    if k == 0 then [] else Added(event, react, k - 1) + Selected(event, AddedBy(react, k - 1))
  }

  function Selected(event: Name, adds: seq<Addition>): seq<Listener> {
    if adds == [] then []
    else if adds[0].event == event then [adds[0].listener] + Selected(event, adds[1..])
    else Selected(event, adds[1..])
  }

  /** What is left of `kept + rest` once every listener of `rest` has been called and every
      once-listener has removed the first equal function. */
  function Survivors(kept: seq<Listener>, rest: seq<Listener>): seq<Listener>
    decreases |rest|
  {
    if rest == [] then kept
    else Survivors(Called(kept, rest[0]), rest[1..])
  }

  function Called(kept: seq<Listener>, f: Listener): seq<Listener> {
    if f.once then RemoveFirst(kept + [f], f.fn) else kept + [f]
  }

  /** No once-listener stands behind a persistent listener with an equal function. */
  predicate Unshadowed(ls: seq<Listener>) {
    forall i, j | 0 <= i < j < |ls| && ls[j].once && !ls[i].once :: ls[i].fn != ls[j].fn
  }

  /** The two arrays are parallel, no event stands twice, and they represent `table`. */
  ghost predicate Represents(events: seq<Name>, arrays: seq<seq<Listener>>, table: Table) {
    && |events| == |arrays|
    && (forall i, j | 0 <= i < j < |events| :: events[i] != events[j])
    && (forall i | 0 <= i < |events| :: events[i] in table && table[events[i]] == arrays[i])
    && (forall e | e in table :: e in events)
  }

  lemma RepresentsAt(events: seq<Name>, arrays: seq<seq<Listener>>, table: Table, at: nat)
    requires Represents(events, arrays, table) && at < |events|
    ensures |arrays| == |events| && events[at] in table && table[events[at]] == arrays[at]
    ensures ListenersIn(table, events[at]) == arrays[at]
  {
  }

  lemma RepresentsLess(events: seq<Name>, arrays: seq<seq<Listener>>, table: Table, at: nat)
    requires Represents(events, arrays, table) && at < |events|
    ensures Represents(events[..at] + events[at + 1..], arrays[..at] + arrays[at + 1..], table - {events[at]})
  {
    var es, ls := events[..at] + events[at + 1..], arrays[..at] + arrays[at + 1..];
    LessAt(events, at);
    LessAt(arrays, at);
    forall e | e in table - {events[at]} ensures e in es {
      var i :| 0 <= i < |events| && events[i] == e;
      assert es[if i < at then i else i - 1] == e;
    }
  }

  /** Taking one place out of a list. */
  lemma LessAt<T>(s: seq<T>, at: nat)
    requires at < |s|
    ensures var r := s[..at] + s[at + 1..];
            |r| == |s| - 1 && forall i | 0 <= i < |r| :: r[i] == s[if i < at then i else i + 1]
  {
  }

  // ----- the emitter -----

  class EventEmitter {
    var events: seq<Name>
    var listenerArrays: seq<seq<Listener>>

    /** The map from events to listener lists that the two arrays represent. */
    ghost var table: Table

    ghost predicate Valid()
      reads this
    {
      Represents(events, listenerArrays, table)
    }

    constructor ()
      ensures Valid() && table == map[]
    {
      events, listenerArrays, table := [], [], map[];
    }

    /** Index of the event, or -1 for a null array. */
    method GetListeners(event: Name) returns (at: int)
      requires Valid()
      ensures -1 <= at < |events| == |listenerArrays|
      ensures at == -1 <==> event !in table
      ensures at != -1 ==> events[at] == event && listenerArrays[at] == table[event]
    {
      for i := 0 to |events|
        invariant forall j | 0 <= j < i :: events[j] != event
      {
        if events[i] == event { return i; }
      }
      return -1;
    }

    method NewListeners(event: Name) returns (at: nat)
      requires Valid() && event !in table
      modifies this
      ensures Valid() && table == old(table)[event := []]
      ensures at < |events| && events[at] == event && old(events) <= events
    {
      at := |events|;
      events := events + [event];
      listenerArrays := listenerArrays + [[]];
      table := table[event := []];
      assert events[at] == event;
    }

    method SetListeners(at: nat, ls: seq<Listener>)
      requires Valid() && at < |events|
      modifies this
      ensures Valid() && events == old(events) && table == old(table)[events[at] := ls]
      ensures listenerArrays[at] == ls
    {
      listenerArrays := listenerArrays[at := ls];
      table := table[events[at] := ls];
    }

    method AddListener(event: Name, listener: Listener)
      requires Valid()
      modifies this
      ensures Valid() && old(events) <= events
      ensures table == old(table)[event := ListenersIn(old(table), event) + [listener]]
    {
      var at := GetListeners(event);
      if at == -1 { at := NewListeners(event); }
      SetListeners(at, listenerArrays[at] + [listener]);
    }

    method RemoveListener(event: Name, fn: int)
      requires Valid()
      modifies this
      ensures Valid() && events == old(events)
      ensures table == if event in old(table) then old(table)[event := RemoveFirst(old(table)[event], fn)]
                       else old(table)
    {
      var at := GetListeners(event);
      if at == -1 { return; }
      hide Represents, RemoveFirst;
      var ls := listenerArrays[at];
      RemoveFirstAt(ls, fn, 0);
      for i := 0 to |ls|
        invariant unchanged(this) && RemoveFirst(ls, fn) == ls[..i] + RemoveFirst(ls[i..], fn)
      {
        RemoveFirstAt(ls, fn, i);
        if ls[i].fn == fn {
          SetListeners(at, ls[..i] + ls[i + 1..]);
          return;
        }
      }
      RemoveFirstAt(ls, fn, |ls|);
    }

    method RemoveAllListeners()
      modifies this
      ensures Valid() && table == map[]
    {
      events, listenerArrays, table := [], [], map[];
    }

    method RemoveAllListenersOf(event: Name)
      requires Valid()
      modifies this
      ensures Valid() && table == old(table) - {event}
    {
      hide Represents;
      var at := GetListeners(event);
      if at != -1 {
        RepresentsLess(events, listenerArrays, table, at);
        events := events[..at] + events[at + 1..];
        listenerArrays := listenerArrays[..at] + listenerArrays[at + 1..];
        table := table - {event};
      } else {
        assert table - {event} == table;
      }
    }

    /** The additions of one callback. */
    method React(adds: seq<Addition>)
      requires Valid()
      modifies this
      ensures Valid() && old(events) <= events && old(table).Keys <= table.Keys
      ensures forall e :: ListenersIn(table, e) == ListenersIn(old(table), e) + Selected(e, adds)
    {
      hide Represents, Selected, ListenersIn;
      SelectedNone(old(table), adds);
      for k := 0 to |adds|
        invariant Valid() && old(events) <= events && old(table).Keys <= table.Keys
        invariant forall e :: ListenersIn(table, e) == ListenersIn(old(table), e) + Selected(e, adds[..k])
      {
        GrownNext(old(table), table, adds, k);
        AddListener(adds[k].event, adds[k].listener);
      }
      assert adds[..|adds|] == adds;
    }

    /** `(*f)(args)`: the function runs and adds listeners, and then a once-listener removes itself. */
    method Invoke(event: Name, f: Listener, adds: seq<Addition>)
      requires Valid() && event in table
      modifies this
      ensures Valid() && old(events) <= events && event in table
      ensures forall e :: ListenersIn(table, e)
                          == var ls := ListenersIn(old(table), e) + Selected(e, adds);
                             if e == event && f.once then RemoveFirst(ls, f.fn) else ls
    {
      hide Represents, Selected, RemoveFirst;
      React(adds);
      if f.once { RemoveListener(event, f.fn); }
    }

    /** Calls every listener of `event`; `calls` lists the functions in the order they ran. */
    method Emit(event: Name, react: Reaction) returns (ok: bool, calls: seq<int>)
      requires Valid()
      modifies this
      ensures Valid()
      ensures ok <==> ListenersIn(old(table), event) != []
      ensures calls == Functions(ListenersIn(old(table), event))
      ensures forall e :: ListenersIn(table, e) ==
                (if e == event then Survivors([], ListenersIn(old(table), e)) else ListenersIn(old(table), e))
                + Added(e, react, |calls|)
    {
      calls := [];
      var at := GetListeners(event);
      if at == -1 || listenerArrays[at] == [] {
        assert ListenersIn(table, event) == [];
        forall e ensures ListenersIn(table, e) == ListenersIn(table, e) + Added(e, react, 0) {}
        return false, [];
      }
      calls := EmitLoop(event, at, react);
      ok := true;
    }

    /** The loop of `emit` over the array at `at`. */
    method EmitLoop(event: Name, at: nat, react: Reaction) returns (calls: seq<int>)
      requires Valid() && at < |events| == |listenerArrays| && events[at] == event
      requires event in table && table[event] == listenerArrays[at]
      modifies this
      ensures Valid()
      ensures calls == Functions(old(table)[event])
      ensures forall e :: ListenersIn(table, e) ==
                (if e == event then Survivors([], old(table)[e]) else ListenersIn(old(table), e))
                + Added(e, react, |calls|)
    {
      calls := [];
      ghost var before, all := table, table[event];
      EmitStarts(before, event, react);
      ghost var kept: seq<Listener>, k := [], 0;
      var i, len := 0, |listenerArrays[at]|;
      hide Emitting, Survivors, Functions, RemoveFirst, Selected, Added, Represents, Called, ListenersIn;
      while i < len
        invariant Valid() && at < |events| && events[at] == event && event in table
        invariant k == |calls| <= |all| && i == |kept| && len == |kept| + |all| - k
        invariant calls == Functions(all[..k])
        invariant Emitting(before, table, event, all, kept, k, react)
        decreases |all| - k
      {
        RepresentsAt(events, listenerArrays, table, at);
        EmitStep(kept, all, k);
        EmittingAt(before, table, event, all, kept, k, react);
        var f := listenerArrays[at][i];
        if f.once { len := len - 1; } else { i := i + 1; }
        ghost var now := table;
        Invoke(event, f, AddedBy(react, |calls|));
        EmittingNext(before, now, table, event, all, kept, k, react);
        calls := calls + [f.fn];
        kept, k := Called(kept, f), k + 1;
      }
      EmitEnds(before, table, event, all, kept, react);
    }
  }

  /** The middle of an emission: the list of the event holds what is kept of the listeners called
      so far, the others and the additions; the lists of other events only grew. */
  ghost predicate Emitting(before: Table, now: Table, event: Name, all: seq<Listener>, kept: seq<Listener>,
                           k: nat, react: Reaction)
    requires k <= |all|
  {
    && ListenersIn(now, event) == kept + (all[k..] + Added(event, react, k))
    && (forall e | e != event :: ListenersIn(now, e) == ListenersIn(before, e) + Added(e, react, k))
    && Survivors(kept, all[k..]) == Survivors([], all)
  }

  lemma EmitStarts(before: Table, event: Name, react: Reaction)
    requires event in before
    ensures Emitting(before, before, event, before[event], [], 0, react)
    ensures Functions(before[event][..0]) == []
  {
    var all := before[event];
    assert all[0..] == all && [] + (all + []) == all;
  }

  lemma EmitEnds(before: Table, now: Table, event: Name, all: seq<Listener>, kept: seq<Listener>, react: Reaction)
    requires event in before && before[event] == all
    requires Emitting(before, now, event, all, kept, |all|, react)
    ensures all[..|all|] == all
    ensures forall e :: ListenersIn(now, e) ==
              (if e == event then Survivors([], before[e]) else ListenersIn(before, e)) + Added(e, react, |all|)
  {
    assert all[|all|..] == [] && kept + ([] + Added(event, react, |all|)) == kept + Added(event, react, |all|);
  }

  lemma EmittingAt(before: Table, now: Table, event: Name, all: seq<Listener>, kept: seq<Listener>,
                   k: nat, react: Reaction)
    requires k < |all| && Emitting(before, now, event, all, kept, k, react)
    ensures |kept| < |ListenersIn(now, event)| && ListenersIn(now, event)[|kept|] == all[k]
  {
  }

  /** One turn of the loop keeps the picture. */
  lemma EmittingNext(before: Table, now: Table, next: Table, event: Name, all: seq<Listener>, kept: seq<Listener>,
                     k: nat, react: Reaction)
    requires k < |all| && Emitting(before, now, event, all, kept, k, react)
    requires forall e :: ListenersIn(next, e)
                         == var ls := ListenersIn(now, e) + Selected(e, AddedBy(react, k));
                            if e == event && all[k].once then RemoveFirst(ls, all[k].fn) else ls
    ensures Emitting(before, next, event, all, Called(kept, all[k]), k + 1, react)
  {
    hide Selected, AddedBy, RemoveFirst, ListenersIn, Added, Survivors, Called;
    EmittingHere(ListenersIn(now, event), event, all, kept, k, react);
    forall e | e != event ensures ListenersIn(next, e) == ListenersIn(before, e) + Added(e, react, k + 1) {
      AddedNext(ListenersIn(before, e), e, react, k);
      assert ListenersIn(next, e) == ListenersIn(now, e) + Selected(e, AddedBy(react, k));
    }
  }

  lemma AddedNext(ls: seq<Listener>, e: Name, react: Reaction, k: nat)
    ensures ls + Added(e, react, k) + Selected(e, AddedBy(react, k)) == ls + Added(e, react, k + 1)
  {
  }

  /** ... for the list of the event itself. */
  lemma EmittingHere(now: seq<Listener>, event: Name, all: seq<Listener>, kept: seq<Listener>, k: nat, react: Reaction)
    requires k < |all| && now == kept + (all[k..] + Added(event, react, k))
    ensures var ls := now + Selected(event, AddedBy(react, k));
            (if all[k].once then RemoveFirst(ls, all[k].fn) else ls)
            == Called(kept, all[k]) + (all[k + 1..] + Added(event, react, k + 1))
    ensures Survivors(kept, all[k..]) == Survivors(Called(kept, all[k]), all[k + 1..])
  {
    hide Selected, AddedBy, RemoveFirst;
    var f, extra := all[k], Selected(event, AddedBy(react, k));
    var tail := all[k + 1..] + Added(event, react, k + 1);
    Around(kept, all, k, Added(event, react, k), extra);
    RemoveFirstConcat(kept + [f], tail, f.fn, |kept|);
  }

  lemma Around(kept: seq<Listener>, all: seq<Listener>, k: nat, added: seq<Listener>, extra: seq<Listener>)
    requires k < |all|
    ensures all[k..][0] == all[k] && all[k..][1..] == all[k + 1..]
    ensures kept + (all[k..] + added) + extra == kept + [all[k]] + (all[k + 1..] + (added + extra))
    ensures (kept + [all[k]])[|kept|] == all[k]
  {
  }

  lemma EmitStep(kept: seq<Listener>, all: seq<Listener>, k: nat)
    requires k < |all|
    ensures |Called(kept, all[k])| == if all[k].once then |kept| else |kept| + 1
    ensures Functions(all[..k + 1]) == Functions(all[..k]) + [all[k].fn]
  {
    assert (kept + [all[k]])[|kept|].fn == all[k].fn;
    RemoveFirstConcat(kept + [all[k]], [], all[k].fn, |kept|);
  }

  lemma {:induction false} RemoveFirstConcat(a: seq<Listener>, b: seq<Listener>, fn: int, at: nat)
    requires at < |a| && a[at].fn == fn
    ensures RemoveFirst(a + b, fn) == RemoveFirst(a, fn) + b && |RemoveFirst(a, fn)| == |a| - 1
  {
    if a[0].fn != fn {
      RemoveFirstConcat(a[1..], b, fn, at - 1);
      assert (a + b)[1..] == a[1..] + b;
    } else {
      assert (a + b)[1..] == a[1..] + b;
    }
  }

  // ----- when emit leaves exactly the persistent listeners -----

  function Onces(ls: seq<Listener>): nat {
    if ls == [] then 0 else (if ls[0].once then 1 else 0) + Onces(ls[1..])
  }

  lemma {:induction false} OncesConcat(a: seq<Listener>, b: seq<Listener>)
    ensures Onces(a + b) == Onces(a) + Onces(b)
  {
    if a == [] {
      assert a + b == b;
    } else {
      assert (a + b)[1..] == a[1..] + b;
      OncesConcat(a[1..], b);
    }
  }

  /** Removing the listener's own entry, which nothing before it shadows. */
  lemma {:induction false} RemoveOwn(kept: seq<Listener>, f: Listener)
    requires forall i | 0 <= i < |kept| :: kept[i].fn != f.fn
    ensures RemoveFirst(kept + [f], f.fn) == kept
  {
    if kept != [] {
      RemoveOwn(kept[1..], f);
      assert (kept + [f])[1..] == kept[1..] + [f];
    } else {
      assert kept + [f] == [f];
    }
  }

  /** Removing an earlier persistent listener instead leaves one once-listener too many. */
  lemma {:induction false} RemoveShadow(kept: seq<Listener>, f: Listener, at: nat)
    requires at < |kept| && kept[at].fn == f.fn && Onces(kept) == 0
    ensures Onces(RemoveFirst(kept + [f], f.fn)) == if f.once then 1 else 0
  {
    if kept[0].fn == f.fn {
      assert (kept + [f])[1..] == kept[1..] + [f];
      OncesConcat(kept[1..], [f]);
    } else {
      RemoveShadow(kept[1..], f, at - 1);
      assert (kept + [f])[1..] == kept[1..] + [f];
      assert RemoveFirst(kept + [f], f.fn)[1..] == RemoveFirst(kept[1..] + [f], f.fn);
    }
  }

  lemma {:induction false} OncesRemove(ls: seq<Listener>, fn: int)
    ensures Onces(RemoveFirst(ls, fn)) >= Onces(ls) - 1
  {
    if ls != [] && ls[0].fn != fn {
      OncesRemove(ls[1..], fn);
      assert RemoveFirst(ls, fn)[1..] == RemoveFirst(ls[1..], fn);
    }
  }

  /** A once-listener that is left over stays: later calls remove at most one entry each, and
      they add theirs first. */
  lemma {:induction false} OncesStay(kept: seq<Listener>, rest: seq<Listener>)
    ensures Onces(Survivors(kept, rest)) >= Onces(kept)
    decreases |rest|
  {
    if rest != [] {
      OncesConcat(kept, [rest[0]]);
      assert Onces([rest[0]]) == if rest[0].once then 1 else 0;
      OncesRemove(kept + [rest[0]], rest[0].fn);
      OncesStay(Called(kept, rest[0]), rest[1..]);
    }
  }

  lemma {:induction false} NoOnces(ls: seq<Listener>)
    ensures Onces(ls) == 0 <==> forall i | 0 <= i < |ls| :: !ls[i].once
  {
    if ls != [] {
      NoOnces(ls[1..]);
      assert forall i | 0 < i < |ls| :: ls[i] == ls[1..][i - 1];
    }
  }

  lemma {:induction false} PersistentNoOnces(ls: seq<Listener>)
    ensures Onces(Persistent(ls)) == 0
  {
    if ls != [] {
      PersistentNoOnces(ls[1..]);
      assert !ls[0].once ==> Persistent(ls)[1..] == Persistent(ls[1..]);
    }
  }

  /** No once-listener of `rest` is shadowed, by `kept` or inside `rest`. */
  predicate Clear(kept: seq<Listener>, rest: seq<Listener>) {
    && Unshadowed(rest)
    && forall i, j | 0 <= i < |kept| && 0 <= j < |rest| && rest[j].once :: kept[i].fn != rest[j].fn
  }

  lemma ClearNil(kept: seq<Listener>)
    ensures Clear(kept, [])
  {
  }

  lemma ClearCons(kept: seq<Listener>, rest: seq<Listener>)
    requires rest != []
    ensures !rest[0].once ==> Clear(kept, rest) == Clear(kept + [rest[0]], rest[1..])
    ensures rest[0].once ==>
              Clear(kept, rest) == (Clear(kept, rest[1..]) && forall i | 0 <= i < |kept| :: kept[i].fn != rest[0].fn)
  {
    var f, tail, more := rest[0], rest[1..], kept + [rest[0]];
    assert forall j | 0 < j < |rest| :: rest[j] == tail[j - 1];
    assert more[|kept|] == f && forall i | 0 <= i < |kept| :: more[i] == kept[i];
    if Clear(kept, rest) {
      forall i, j | 0 <= i < j < |tail| && tail[j].once && !tail[i].once ensures tail[i].fn != tail[j].fn {
        assert rest[i + 1] == tail[i] && rest[j + 1] == tail[j];
      }
      forall i, j | 0 <= i < |more| && 0 <= j < |tail| && tail[j].once && !f.once ensures more[i].fn != tail[j].fn {
        assert rest[j + 1] == tail[j];
      }
    }
  }

  lemma {:induction false} SurvivorsExact(kept: seq<Listener>, rest: seq<Listener>)
    requires Onces(kept) == 0
    ensures Survivors(kept, rest) == kept + Persistent(rest) <==> Clear(kept, rest)
    decreases |rest|
  {
    hide Clear, Survivors, Persistent, Onces, RemoveFirst;
    if rest == [] {
      ClearNil(kept);
      SurvivorsNil(kept);
    } else {
      var f, tail := rest[0], rest[1..];
      OncesSnoc(kept, f);
      ClearCons(kept, rest);
      SurvivorsCons(kept, rest);
      PersistentCons(kept, rest);
      if !f.once {
        SurvivorsExact(kept + [f], tail);
      } else if forall i | 0 <= i < |kept| :: kept[i].fn != f.fn {
        RemoveOwn(kept, f);
        SurvivorsExact(kept, tail);
      } else {
        var at :| 0 <= at < |kept| && kept[at].fn == f.fn;
        RemoveShadow(kept, f, at);
        OncesStay(RemoveFirst(kept + [f], f.fn), tail);
        PersistentNoOnces(rest);
        OncesConcat(kept, Persistent(rest));
      }
    }
  }

  lemma SurvivorsNil(kept: seq<Listener>)
    ensures Survivors(kept, []) == kept && kept + Persistent([]) == kept
  {
  }

  lemma SurvivorsCons(kept: seq<Listener>, rest: seq<Listener>)
    requires rest != []
    ensures Survivors(kept, rest) == Survivors(Called(kept, rest[0]), rest[1..])
  {
    hide Called;
  }

  lemma PersistentCons(kept: seq<Listener>, rest: seq<Listener>)
    requires rest != []
    ensures rest[0].once ==> Persistent(rest) == Persistent(rest[1..])
    ensures !rest[0].once ==> kept + Persistent(rest) == kept + [rest[0]] + Persistent(rest[1..])
  {
    if !rest[0].once {
      var more := Persistent(rest[1..]);
      assert Persistent(rest) == [rest[0]] + more;
      hide Persistent;
      assert kept + ([rest[0]] + more) == kept + [rest[0]] + more;
    }
  }

  lemma OncesSnoc(kept: seq<Listener>, f: Listener)
    ensures Onces(kept + [f]) == Onces(kept) + if f.once then 1 else 0
  {
    OncesConcat(kept, [f]);
    assert [f][1..] == [];
  }

  /** After one emission the listeners present at entry are reduced to the persistent ones, in
      order, exactly when no once-listener stands behind a persistent one with an equal function. */
  lemma EmitLeavesPersistent(ls: seq<Listener>)
    ensures Survivors([], ls) == Persistent(ls) <==> Unshadowed(ls)
  {
    SurvivorsExact([], ls);
    assert [] + Persistent(ls) == Persistent(ls);
  }

  /** A persistent listener and then a once-listener of the same function: the emission removes
      the persistent one and keeps the once-listener. */
  lemma ShadowedExample(fn: int)
    ensures Survivors([], [Listener(fn, false), Listener(fn, true)]) == [Listener(fn, true)]
  {
    var p, o := Listener(fn, false), Listener(fn, true);
    assert [p, o][1..] == [o] && [o][1..] == [];
    assert [] + [p] == [p] && [p] + [o] == [p, o];
    assert RemoveFirst([p, o], fn) == [o];
    assert Survivors([p], [o]) == Survivors([o], []);
  }

  lemma SelectedNone(table: Table, adds: seq<Addition>)
    ensures forall e :: ListenersIn(table, e) + Selected(e, adds[..0]) == ListenersIn(table, e)
  {
  }

  /** One more addition. */
  lemma GrownNext(before: Table, now: Table, adds: seq<Addition>, k: nat)
    requires k < |adds|
    requires forall e :: ListenersIn(now, e) == ListenersIn(before, e) + Selected(e, adds[..k])
    ensures var event, listener := adds[k].event, adds[k].listener;
            forall e :: ListenersIn(now[event := ListenersIn(now, event) + [listener]], e)
                        == ListenersIn(before, e) + Selected(e, adds[..k + 1])
  {
    hide Selected;
    var event, listener := adds[k].event, adds[k].listener;
    SelectedNext(adds, k);
    assert ListenersIn(before, event) + (Selected(event, adds[..k]) + [listener])
        == ListenersIn(before, event) + Selected(event, adds[..k]) + [listener];
  }

  lemma SelectedNext(adds: seq<Addition>, k: nat)
    requires k < |adds|
    ensures forall e :: Selected(e, adds[..k + 1])
                        == Selected(e, adds[..k]) + if adds[k].event == e then [adds[k].listener] else []
  {
    forall e ensures Selected(e, adds[..k + 1])
                     == Selected(e, adds[..k]) + if adds[k].event == e then [adds[k].listener] else []
    {
      SelectedSnoc(e, adds, k);
    }
  }

  lemma SelectedSnoc(event: Name, adds: seq<Addition>, k: nat)
    requires k < |adds|
    ensures Selected(event, adds[..k + 1])
            == Selected(event, adds[..k]) + if adds[k].event == event then [adds[k].listener] else []
    decreases k
  {
    var front := adds[..k + 1];
    if k == 0 {
      assert front == [adds[0]] && front[1..] == [] && adds[..0] == [];
    } else {
      SelectedSnoc(event, adds[1..], k - 1);
      assert front[1..] == adds[1..][..k] && adds[..k][1..] == adds[1..][..k - 1];
    }
  }
}

/** Binding of JSON-RPC 2.0 parameters to the arguments of a registered method:
    `toArguments20` of exts/jsonrpc/include/libnode/jsonrpc/detail/service.h. */
module JsonRpc {
  import opened Wrappers

  /** A JSON value, or the hole that a fresh argument array is filled with. */
  datatype Value = Undefined | Json(text: string)

  datatype Member = Member(key: string, val: Value)

  /** The `params` member of a request: absent, an array, or an object whose members come in the
      order its iterator yields them. */
  datatype Params = Absent | Positional(vals: seq<Value>) | Named(members: seq<Member>)

  predicate Distinct(names: seq<string>) {
    forall i, j | 0 <= i < j < |names| :: names[i] != names[j]
  }

  predicate IsObject(members: seq<Member>) {
    forall i, j | 0 <= i < j < |members| :: members[i].key != members[j].key
  }

  function NameSet(names: seq<string>): set<string> { set i | 0 <= i < |names| :: names[i] }

  function KeySet(members: seq<Member>): set<string> { set i | 0 <= i < |members| :: members[i].key }

  function IndexOf(names: seq<string>, key: string): (i: int)
    ensures -1 <= i < |names|
    ensures i == -1 <==> key !in names
    ensures i != -1 ==> names[i] == key && key !in names[..i]
  {
    if names == [] then -1
    else if names[0] == key then 0
    else
      var i := IndexOf(names[1..], key);
      assert names == [names[0]] + names[1..];
      assert i != -1 ==> names[..i + 1] == [names[0]] + names[1..][..i];
      if i == -1 then -1 else i + 1
  }

  /** The arguments for a method with parameter `names`, or None when the call is refused. An
      object binds exactly when the method's names are distinct and are the object's keys, and
      then argument i is the member named `names[i]`. */
  method ToArguments(names: seq<string>, params: Params) returns (r: Option<seq<Value>>)
    requires params.Named? ==> IsObject(params.members)
    ensures params.Absent? ==> r == if names == [] then Some([]) else None
    ensures params.Positional? ==> r == if |params.vals| == |names| then Some(params.vals) else None
    ensures params.Named? ==> (r.Some? <==> Distinct(names) && KeySet(params.members) == NameSet(names))
    ensures params.Named? && r.Some? ==>
              |r.value| == |names| && forall i | 0 <= i < |names| :: Member(names[i], r.value[i]) in params.members
  {
    var arity := |names|;
    match params {
      case Absent =>
        if arity == 0 { r := Some([]); } else { r := None; }
      case Positional(vals) =>
        if |vals| == arity { r := Some(vals); } else { r := None; }
      case Named(members) =>
        if |members| != arity {
          if Distinct(names) && KeySet(members) == NameSet(names) { SameCount(names, members); }
          return None;
        }
        var args := seq(arity, _ => Undefined);
        ghost var hit: seq<int> := [];
        for k := 0 to arity
          invariant |args| == arity && |hit| == k
          invariant forall m | 0 <= m < k :: 0 <= hit[m] < arity && names[hit[m]] == members[m].key
          invariant forall m | 0 <= m < k :: args[hit[m]] == members[m].val
        {
          var index := IndexOf(names, members[k].key);
          if index < 0 {
            assert members[k].key in KeySet(members) && members[k].key !in NameSet(names);
            return None;
          }
          assert forall m | 0 <= m < k :: members[m].key != members[k].key;
          args := args[index := members[k].val];
          hit := hit + [index];
        }
        Pigeonhole(names, members, hit);
        r := Some(args);
        forall i | 0 <= i < arity ensures Member(names[i], args[i]) in members {
          assert names[i] in NameSet(names);
          var m :| 0 <= m < arity && members[m].key == names[i];
          assert hit[m] == i;
          assert members[m] == Member(names[i], args[i]);
        }
    }
  }

  // ----- counting -----

  lemma {:induction false} SetSize(names: seq<string>)
    ensures |NameSet(names)| <= |names|
    ensures |NameSet(names)| == |names| <==> Distinct(names)
  {
    if names != [] {
      SetSize(names[1..]);
      SetCons(names);
    }
  }

  lemma SetCons(names: seq<string>)
    requires names != []
    ensures NameSet(names) == {names[0]} + NameSet(names[1..])
    ensures Distinct(names) <==> Distinct(names[1..]) && names[0] !in NameSet(names[1..])
  {
    var rest := names[1..];
    assert forall i | 0 <= i < |rest| :: rest[i] == names[i + 1];
    if names[0] in NameSet(rest) {
      var i :| 0 <= i < |rest| && rest[i] == names[0];
      assert names[i + 1] == names[0];
    } else {
      assert forall i | 0 <= i < |rest| :: rest[i] in NameSet(rest);
      assert Distinct(rest) ==> Distinct(names);
    }
  }

  function KeysOf(members: seq<Member>): (keys: seq<string>)
    ensures |keys| == |members| && forall i | 0 <= i < |keys| :: keys[i] == members[i].key
  {
    seq(|members|, i requires 0 <= i < |members| => members[i].key)
  }

  lemma SameCount(names: seq<string>, members: seq<Member>)
    requires Distinct(names) && IsObject(members) && KeySet(members) == NameSet(names)
    ensures |members| == |names|
  {
    SetSize(names);
    SetSize(KeysOf(members));
    assert NameSet(KeysOf(members)) == KeySet(members);
  }

  /** As many distinct keys as names, each of them a name: then the names are distinct, and each
      of them is a key. */
  lemma Pigeonhole(names: seq<string>, members: seq<Member>, hit: seq<int>)
    requires IsObject(members) && |members| == |names| == |hit|
    requires forall m | 0 <= m < |hit| :: 0 <= hit[m] < |names| && names[hit[m]] == members[m].key
    ensures Distinct(names) && KeySet(members) == NameSet(names)
  {
    var keys := KeysOf(members);
    SetSize(names);
    SetSize(keys);
    assert NameSet(keys) == KeySet(members);
    assert KeySet(members) <= NameSet(names);
    Subset(KeySet(members), NameSet(names));
  }

  lemma Subset(a: set<string>, b: set<string>)
    requires a <= b && |a| >= |b|
    ensures a == b
  {
    assert b == a + (b - a);
    assert |b| == |a| + |b - a|;
  }

  /** With a repeated parameter name, an object that has exactly the names as its keys has too few members
      for the check of the count: such a method can be called with an array, but never with an object. */
  lemma RepeatedNameTooFew(names: seq<string>, members: seq<Member>)
    requires !Distinct(names) && IsObject(members) && KeySet(members) == NameSet(names)
    ensures |members| < |names|
  {
    SetSize(names);
    SetSize(KeysOf(members));
    assert NameSet(KeysOf(members)) == KeySet(members);
  }
}

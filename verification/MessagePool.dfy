/** The pool of HTTP messages: the bounded list of include/libnode/detail/free_list.h, and the two parties
    that must both let go of a message before it goes there: the connection's finish handler
    (include/libnode/detail/http/server.h) and the destructor of the user's wrapper
    (include/libnode/detail/http/server_request.h, server_response.h). */
module MessagePool {
  import opened Wrappers

  /** A message object. */
  type Id = nat

  class FreeList {
    const max: nat
    var list: seq<Id>

    constructor (max: nat)
      ensures this.max == max && list == []
    {
      this.max, list := max, [];
    }

    method Alloc() returns (t: Option<Id>)
      modifies `list
      ensures if old(list) == [] then t == None && list == [] else t == Some(old(list)[0]) && list == old(list)[1..]
    {
      if list == [] { return None; }
      t := Some(list[0]);
      list := list[1..];
    }

    /** A full list lets the object go. */
    method Free(t: Id)
      modifies `list
      ensures list == if |old(list)| < max then old(list) + [t] else old(list)
    {
      if |list| < max { list := list + [t]; }
    }
  }

  predicate Distinct(list: seq<Id>) { forall i, j | 0 <= i < j < |list| :: list[i] != list[j] }

  function Count(m: map<Id, nat>, id: Id): nat { if id in m then m[id] else 0 }

  /** One use of a message, from its allocation to the moment both parties have let go. */
  datatype Books = Books(queued: set<Id>, wrapped: set<Id>, uses: map<Id, nat>, releases: map<Id, nat>)

  ghost predicate Held(b: Books, id: Id) { id in b.queued || id in b.wrapped }

  /** No listed object is held by a connection's queue or by a wrapper, none is listed twice, and there are
      never more than the bound. */
  ghost predicate Listed(list: seq<Id>, max: nat, created: nat, b: Books) {
    && Distinct(list) && |list| <= max
    && (forall i | 0 <= i < |list| :: list[i] < created && !Held(b, list[i]))
  }

  /** UNUSED marks the held messages that one of the two parties has let go of. */
  ghost predicate Flagged(unused: set<Id>, created: nat, b: Books) {
    && (forall id: Id | Held(b, id) :: id < created && (id in unused <==> !(id in b.queued && id in b.wrapped)))
  }

  /** Every use ends in one release, and no message is released while it is in use. */
  ghost predicate Balanced(b: Books) {
    forall id: Id :: Count(b.uses, id) == Count(b.releases, id) + if Held(b, id) then 1 else 0
  }

  // ----- a run, from the happenings alone -----

  /** What happens to the messages. */
  datatype Happening = Created | FinishedOne(id: Id) | WrapperGoneOf(id: Id)

  datatype Standing = Standing(list: seq<Id>, created: nat, books: Books)

  /** `id` comes into use. */
  function Used(b: Books, id: Id): Books {
    Books(b.queued + {id}, b.wrapped + {id}, b.uses[id := Count(b.uses, id) + 1], b.releases)
  }

  /** One party has let go of `id`: if it was the second, the message is released, and listed if there is
      room. */
  function Settled(s: Standing, id: Id, max: nat): Standing {
    if id in s.books.queued || id in s.books.wrapped then s
    else
      s.(list := if |s.list| < max then s.list + [id] else s.list,
         books := s.books.(releases := s.books.releases[id := Count(s.books.releases, id) + 1]))
  }

  function Step(s: Standing, h: Happening, max: nat): Standing {
    match h
    case Created =>
      if s.list == [] then Standing([], s.created + 1, Used(s.books, s.created))
      else Standing(s.list[1..], s.created, Used(s.books, s.list[0]))
    case FinishedOne(id) =>
      if id in s.books.queued then Settled(s.(books := s.books.(queued := s.books.queued - {id})), id, max) else s
    case WrapperGoneOf(id) =>
      if id in s.books.wrapped then Settled(s.(books := s.books.(wrapped := s.books.wrapped - {id})), id, max) else s
  }

  function Replayed(max: nat, happenings: seq<Happening>): Standing {
    if happenings == [] then Standing([], 0, Books({}, {}, map[], map[]))
    else
      var n := |happenings| - 1;
      Step(Replayed(max, happenings[..n]), happenings[n], max)
  }

  class Pool {
    const free: FreeList
    var unused: set<Id>                 // the messages with the flag UNUSED
    var created: nat                    // objects created so far
    ghost var books: Books

    ghost predicate Valid()
      reads this, free
    {
      Listed(free.list, free.max, created, books) && Flagged(unused, created, books) && Balanced(books)
    }

    constructor (max: nat)
      ensures Valid() && fresh(free) && free.max == max && free.list == [] && Stands() == Replayed(max, [])
    {
      free := new FreeList(max);
      unused, created, books := {}, 0, Books({}, {}, map[], map[]);
    }

    ghost function Stands(): Standing
      reads this, free
    {
      Standing(free.list, created, books)
    }

    /** A message comes in or a response is created: a listed object is taken again with its flags
        cleared, or there is a new one. It goes into the connection's queue and into a wrapper. */
    method Create() returns (id: Id)
      requires Valid()
      modifies this, free`list
      ensures Valid() && !Held(old(books), id) && books == Used(old(books), id)
      ensures Stands() == Step(old(Stands()), Created, free.max)
      ensures if old(free.list) == [] then id == old(created) && created == old(created) + 1 && free.list == []
              else id == old(free.list)[0] && created == old(created) && free.list == old(free.list)[1..]
      ensures books.queued == old(books).queued + {id} && books.wrapped == old(books).wrapped + {id}
      ensures id !in unused && unused == old(unused) - {id}
    {
      var t := free.Alloc();
      match t {
        case Some(listed) =>
          id := listed;
          unused := unused - {id};
        case None =>
          id := created;
          created := created + 1;
          unused := unused - {id};
      }
      books := Used(books, id);
    }

    /** The finish handler takes the message out of the connection's queue. */
    method Finished(id: Id)
      requires Valid() && id in books.queued
      modifies this, free`list
      ensures Valid() && Stands() == Step(old(Stands()), FinishedOne(id), free.max)
      ensures created == old(created) && books.queued == old(books).queued - {id} && books.wrapped == old(books).wrapped
      ensures free.list == if id !in old(books).wrapped && |old(free.list)| < free.max then old(free.list) + [id]
                           else old(free.list)
    {
      books := books.(queued := books.queued - {id});
      LetGo(id);
    }

    /** The destructor of the wrapper. */
    method WrapperGone(id: Id)
      requires Valid() && id in books.wrapped
      modifies this, free`list
      ensures Valid() && Stands() == Step(old(Stands()), WrapperGoneOf(id), free.max)
      ensures created == old(created) && books.wrapped == old(books).wrapped - {id} && books.queued == old(books).queued
      ensures free.list == if id !in old(books).queued && |old(free.list)| < free.max then old(free.list) + [id]
                           else old(free.list)
    {
      books := books.(wrapped := books.wrapped - {id});
      LetGo(id);
    }

    /** The first of the two parties sets UNUSED, the second frees. */
    method LetGo(id: Id)
      requires id < created && Listed(free.list, free.max, created, books) && id !in free.list
      requires id in unused <==> !Held(books, id)
      requires !(id in books.queued && id in books.wrapped)
      requires forall other: Id | other != id && Held(books, other) ::
                 other < created && (other in unused <==> !(other in books.queued && other in books.wrapped))
      requires forall other: Id ::
                 Count(books.uses, other)
                 == Count(books.releases, other) + if other == id || Held(books, other) then 1 else 0
      modifies this, free`list
      ensures Valid() && Stands() == Settled(old(Stands()), id, free.max)
      ensures free.list == if old(id in unused) && |old(free.list)| < free.max then old(free.list) + [id]
                           else old(free.list)
    {
      if id in unused {
        free.Free(id);
        books := books.(releases := books.releases[id := Count(books.releases, id) + 1]);
      } else {
        unused := unused + {id};
      }
    }
  }

  /** The pool under any sequence of happenings; what cannot happen is left out. It comes to what the
      happenings alone say, and by `Valid` no message is listed while it is in use and each has been released
      as often as its uses have ended. */
  method Live(max: nat, happenings: seq<Happening>) returns (p: Pool)
    ensures fresh(p) && p.Valid() && p.free.max == max && p.Stands() == Replayed(max, happenings)
  {
    hide Listed, Flagged, Balanced;
    p := new Pool(max);
    var queued: set<Id>, wrapped: set<Id> := {}, {};
    for i := 0 to |happenings|
      invariant fresh(p) && fresh(p.free) && p.Valid() && p.free.max == max
      invariant p.books.queued == queued && p.books.wrapped == wrapped
      invariant p.Stands() == Replayed(max, happenings[..i])
    {
      assert happenings[..i + 1][..i] == happenings[..i];
      match happenings[i] {
        case Created =>
          var id := p.Create();
          queued, wrapped := queued + {id}, wrapped + {id};
        case FinishedOne(id) =>
          if id in queued {
            p.Finished(id);
            queued := queued - {id};
          }
        case WrapperGoneOf(id) =>
          if id in wrapped {
            p.WrapperGone(id);
            wrapped := wrapped - {id};
          }
      }
    }
    assert happenings[..|happenings|] == happenings;
  }
}

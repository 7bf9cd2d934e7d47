/** The subscriber lists of the event manager and the dispatch of one event
    taken from the bus. */
module EventManager {

  type EvType = string

  /** A registered callback. The id stands for the address under which the
      callback is stored: every Subscribe allocates a new one. */
  datatype Subscriber = Subscriber(id: nat, data: string)

  /** A subscription made, by a callback or by another goroutine, while a
      dispatch is under way. */
  datatype Request = Request(evType: EvType, data: string)

  predicate Distinct(subs: seq<Subscriber>) {
    forall i, j | 0 <= i < j < |subs| :: subs[i].id != subs[j].id
  }

  predicate Below(subs: seq<Subscriber>, bound: nat) {
    forall i | 0 <= i < |subs| :: subs[i].id < bound
  }

  /** The subscribers that asked to be called again. */
  function Renewing(subs: seq<Subscriber>, renew: Subscriber -> bool): seq<Subscriber> {
    if subs == [] then []
    else (if renew(subs[0]) then [subs[0]] else []) + Renewing(subs[1..], renew)
  }

  /** Those that did not, to be deleted after all have been called. */
  function Refusing(subs: seq<Subscriber>, renew: Subscriber -> bool): seq<Subscriber> {
    if subs == [] then []
    else
      var n := |subs| - 1;
      Refusing(subs[..n], renew) + if renew(subs[n]) then [] else [subs[n]]
  }

  /** The subscribers not stored under one of these addresses. */
  function Excluding(subs: seq<Subscriber>, ids: set<nat>): seq<Subscriber> {
    if subs == [] then []
    else (if subs[0].id !in ids then [subs[0]] else []) + Excluding(subs[1..], ids)
  }

  /** The subscribers that a list of requests adds to one event type. */
  function Added(requests: seq<Request>, evType: EvType, firstId: nat): seq<Subscriber> {
    if requests == [] then []
    else
      var n := |requests| - 1;
      Added(requests[..n], evType, firstId)
      + if requests[n].evType == evType then [Subscriber(firstId + n, requests[n].data)] else []
  }

  /** A list after such requests have been appended to it. */
  function Grown(subs: seq<Subscriber>, requests: seq<Request>, evType: EvType, firstId: nat): seq<Subscriber> {
    subs + Added(requests, evType, firstId)
  }

  /** All requests made during the first n callbacks of a dispatch. */
  function Requests(during: nat -> seq<Request>, n: nat): seq<Request> {
    if n == 0 then [] else Requests(during, n - 1) + during(n - 1)
  }

  function ListIn(m: map<EvType, seq<Subscriber>>, evType: EvType): seq<Subscriber> {
    if evType in m then m[evType] else []
  }

  /** Every list has grown by its share of the requests. */
  ghost predicate ListsGrown(start: map<EvType, seq<Subscriber>>, now: map<EvType, seq<Subscriber>>,
                             requests: seq<Request>, firstId: nat) {
    forall t :: ListIn(now, t) == Grown(ListIn(start, t), requests, t, firstId)
  }

  lemma GrownTwice(x: seq<Subscriber>, y: seq<Subscriber>, z: seq<Subscriber>,
                   a: seq<Request>, b: seq<Request>, t: EvType, firstId: nat, nextId: nat)
    requires y == Grown(x, a, t, firstId) && z == Grown(y, b, t, nextId) && nextId == firstId + |a|
    ensures z == Grown(x, a + b, t, firstId)
  {
    AddedAppend(a, b, t, firstId);
  }

  lemma ListsGrownStep(start: map<EvType, seq<Subscriber>>, before: map<EvType, seq<Subscriber>>,
                       now: map<EvType, seq<Subscriber>>, requests: seq<Request>, i: nat, firstId: nat)
    requires i < |requests| && ListsGrown(start, before, requests[..i], firstId)
    requires forall t | t != requests[i].evType :: ListIn(now, t) == ListIn(before, t)
    requires ListIn(now, requests[i].evType)
          == ListIn(before, requests[i].evType) + [Subscriber(firstId + i, requests[i].data)]
    ensures ListsGrown(start, now, requests[..i + 1], firstId)
  {
    forall t ensures ListIn(now, t) == Grown(ListIn(start, t), requests[..i + 1], t, firstId) {
      GrownStep(ListIn(start, t), requests, i, t, firstId);
    }
  }

  lemma GrownStep(x: seq<Subscriber>, requests: seq<Request>, i: nat, t: EvType, firstId: nat)
    requires i < |requests|
    ensures Grown(x, requests[..i + 1], t, firstId)
         == if requests[i].evType != t then Grown(x, requests[..i], t, firstId)
            else Grown(x, requests[..i], t, firstId) + [Subscriber(firstId + i, requests[i].data)]
  {
    assert requests[..i + 1][..i] == requests[..i];
  }

  lemma ListsGrownAppend(start: map<EvType, seq<Subscriber>>, before: map<EvType, seq<Subscriber>>,
                         now: map<EvType, seq<Subscriber>>, a: seq<Request>, b: seq<Request>,
                         firstId: nat, nextId: nat)
    requires ListsGrown(start, before, a, firstId) && ListsGrown(before, now, b, nextId)
    requires nextId == firstId + |a|
    ensures ListsGrown(start, now, a + b, firstId)
  {
    forall t ensures ListIn(now, t) == Grown(ListIn(start, t), a + b, t, firstId) {
      GrownTwice(ListIn(start, t), ListIn(before, t), ListIn(now, t), a, b, t, firstId, nextId);
    }
  }

  method KeepOthers(subs: seq<Subscriber>, id: nat) returns (keepMe: seq<Subscriber>)
    ensures keepMe == Excluding(subs, {id})
  {
    keepMe := [];
    for i := 0 to |subs|
      invariant keepMe + Excluding(subs[i..], {id}) == Excluding(subs, {id})
    {
      assert subs[i..][1..] == subs[i + 1..];
      if subs[i].id != id {
        keepMe := keepMe + [subs[i]];
      }
    }
  }

  class Manager {
    var subscribers: map<EvType, seq<Subscriber>>
    var nextId: nat

    /** Lists are never empty; addresses are distinct and already allocated. */
    ghost predicate Valid()
      reads this
    {
      forall t | t in subscribers ::
        subscribers[t] != [] && Distinct(subscribers[t]) && Below(subscribers[t], nextId)
    }

    /** The list for an event type; a missing entry is the nil slice. */
    function List(evType: EvType): seq<Subscriber>
      reads this`subscribers
    {
      ListIn(subscribers, evType)
    }

    constructor ()
      ensures Valid() && forall t :: List(t) == []
    {
      subscribers, nextId := map[], 0;
    }

    method Subscribe(evType: EvType, data: string)
      requires Valid()
      modifies this
      ensures Valid() && nextId == old(nextId) + 1
      ensures List(evType) == old(List(evType)) + [Subscriber(old(nextId), data)]
      ensures forall t | t != evType :: ListIn(subscribers, t) == ListIn(old(subscribers), t)
    {
      subscribers := subscribers[evType := List(evType) + [Subscriber(nextId, data)]];
      nextId := nextId + 1;
    }

    /** unsubscribe: by address, and forgetting a list that becomes empty. */
    method Unsubscribe(evType: EvType, id: nat)
      requires Valid()
      modifies this`subscribers
      ensures Valid()
      ensures List(evType) == Excluding(old(List(evType)), {id})
      ensures forall t | t != evType :: List(t) == old(List(t))
    {
      var keepMe := KeepOthers(List(evType), id);
      ExcludingGood(List(evType), {id}, nextId);
      if keepMe == [] {
        subscribers := subscribers - {evType};
      } else {
        subscribers := subscribers[evType := keepMe];
      }
    }

    /** Requests arriving while one callback runs. */
    method SubscribeAll(requests: seq<Request>)
      requires Valid()
      modifies this
      ensures Valid() && nextId == old(nextId) + |requests|
      ensures ListsGrown(old(subscribers), subscribers, requests, old(nextId))
    {
      ghost var start := subscribers;
      for i := 0 to |requests|
        invariant Valid() && nextId == old(nextId) + i
        invariant ListsGrown(start, subscribers, requests[..i], old(nextId))
      {
        ghost var before := subscribers;
        Subscribe(requests[i].evType, requests[i].data);
        ListsGrownStep(start, before, subscribers, requests, i, old(nextId));
      }
      assert requests[..|requests|] == requests;
    }

    /** The calls of one dispatch: those present at its start, in order. */
    method CallAll(evType: EvType, renew: Subscriber -> bool, during: nat -> seq<Request>)
      returns (called: seq<Subscriber>, deleteMe: seq<Subscriber>)
      requires Valid()
      modifies this
      ensures Valid()
      ensures called == old(List(evType))
      ensures deleteMe == Refusing(called, renew)
      ensures ListsGrown(old(subscribers), subscribers, Requests(during, |called|), old(nextId))
    {
      ghost var start := subscribers;
      var subs := List(evType);
      called, deleteMe := [], [];
      for i := 0 to |subs|
        invariant Valid() && called == subs[..i]
        invariant nextId == old(nextId) + |Requests(during, i)|
        invariant deleteMe == Refusing(called, renew)
        invariant ListsGrown(start, subscribers, Requests(during, i), old(nextId))
      {
        ghost var before, id := subscribers, nextId;
        var curr := subs[i];
        called := called + [curr];
        assert called[..i] == subs[..i];
        SubscribeAll(during(i));
        if !renew(curr) {
          deleteMe := deleteMe + [curr];
        }
        ListsGrownAppend(start, before, subscribers, Requests(during, i), during(i), old(nextId), id);
      }
    }

    method UnsubscribeAll(evType: EvType, deleteMe: seq<Subscriber>)
      requires Valid()
      modifies this`subscribers
      ensures Valid()
      ensures List(evType) == Excluding(old(List(evType)), Ids(deleteMe))
      ensures forall t | t != evType :: List(t) == old(List(t))
    {
      ExcludingNone(List(evType), {});
      assert Ids(deleteMe[..0]) == {};
      for k := 0 to |deleteMe|
        invariant Valid()
        invariant List(evType) == Excluding(old(List(evType)), Ids(deleteMe[..k]))
        invariant forall t | t != evType :: List(t) == old(List(t))
      {
        Unsubscribe(evType, deleteMe[k].id);
        ExcludingTwice(old(List(evType)), Ids(deleteMe[..k]), {deleteMe[k].id});
        assert deleteMe[..k + 1] == deleteMe[..k] + [deleteMe[k]];
        assert Ids(deleteMe[..k + 1]) == Ids(deleteMe[..k]) + {deleteMe[k].id};
      }
      assert deleteMe[..|deleteMe|] == deleteMe;
    }

    /** One event from the bus: every subscriber present at its start is called
        exactly once, in order; afterwards the list holds those that asked to
        renew, in order, followed by those that subscribed meanwhile. Other
        event types only gain their new subscribers. */
    method Dispatch(evType: EvType, renew: Subscriber -> bool, during: nat -> seq<Request>)
      returns (called: seq<Subscriber>)
      requires Valid()
      modifies this
      ensures Valid()
      ensures called == old(List(evType))
      ensures var news := Requests(during, |called|);
        && List(evType) == Renewing(called, renew) + Added(news, evType, old(nextId))
        && forall t | t != evType :: List(t) == Grown(old(List(t)), news, t, old(nextId))
    {
      var deleteMe;
      called, deleteMe := CallAll(evType, renew, during);
      UnsubscribeAll(evType, deleteMe);
      RefusersLeave(called, deleteMe, Added(Requests(during, |called|), evType, old(nextId)), renew, old(nextId)) by {
        AddedFrom(Requests(during, |called|), evType, old(nextId));
      }
    }
  }

  function Ids(subs: seq<Subscriber>): set<nat> {
    set i | 0 <= i < |subs| :: subs[i].id
  }

  lemma {:induction false} AddedAppend(a: seq<Request>, b: seq<Request>, t: EvType, firstId: nat)
    ensures Added(a + b, t, firstId) == Added(a, t, firstId) + Added(b, t, firstId + |a|)
  {
    if b == [] {
      assert a + b == a;
    } else {
      assert (a + b)[..|a + b| - 1] == a + b[..|b| - 1];
      AddedAppend(a, b[..|b| - 1], t, firstId);
    }
  }

  /** Deleting the refusers by address removes them and nobody else. */
  lemma RefusersLeave(called: seq<Subscriber>, deleteMe: seq<Subscriber>, news: seq<Subscriber>,
                      renew: Subscriber -> bool, firstId: nat)
    requires Distinct(called) && Below(called, firstId)
    requires deleteMe == Refusing(called, renew)
    requires forall i | 0 <= i < |news| :: news[i].id >= firstId
    ensures Excluding(called + news, Ids(deleteMe)) == Renewing(called, renew) + news
  {
    var ids := Ids(deleteMe);
    RefusingMembers(called, renew);
    forall i | 0 <= i < |called| ensures called[i].id in ids <==> !renew(called[i]) {
      if !renew(called[i]) {
        assert called[i] in deleteMe;
      } else if called[i].id in ids {
        var k :| 0 <= k < |deleteMe| && deleteMe[k].id == called[i].id;
        assert deleteMe[k] in deleteMe;
        SameIdSame(called, called[i], deleteMe[k]);
      }
    }
    forall k | 0 <= k < |deleteMe| ensures deleteMe[k].id < firstId {
      assert deleteMe[k] in deleteMe;
    }
    ExcludingAppend(called, news, ids);
    ExcludingRefusers(called, ids, renew);
    ExcludingNone(news, ids);
  }

  lemma {:induction false} RefusingMembers(subs: seq<Subscriber>, renew: Subscriber -> bool)
    ensures forall s :: s in Refusing(subs, renew) <==> s in subs && !renew(s)
  {
    if subs != [] {
      var n := |subs| - 1;
      RefusingMembers(subs[..n], renew);
      assert subs == subs[..n] + [subs[n]];
    }
  }

  lemma SameIdSame(subs: seq<Subscriber>, a: Subscriber, b: Subscriber)
    requires Distinct(subs) && a in subs && b in subs && a.id == b.id
    ensures a == b
  {
  }

  lemma {:induction false} ExcludingGood(subs: seq<Subscriber>, ids: set<nat>, bound: nat)
    requires Distinct(subs) && Below(subs, bound)
    ensures Distinct(Excluding(subs, ids)) && Below(Excluding(subs, ids), bound)
    ensures forall s | s in Excluding(subs, ids) :: s in subs
  {
    if subs != [] {
      ExcludingGood(subs[1..], ids, bound);
      assert forall s | s in subs[1..] :: s in subs && s.id != subs[0].id;
    }
  }

  lemma {:induction false} ExcludingTwice(subs: seq<Subscriber>, a: set<nat>, b: set<nat>)
    ensures Excluding(Excluding(subs, a), b) == Excluding(subs, a + b)
  {
    if subs != [] {
      ExcludingTwice(subs[1..], a, b);
      ExcludingAppend(if subs[0].id !in a then [subs[0]] else [], Excluding(subs[1..], a), b);
    }
  }

  lemma {:induction false} ExcludingAppend(a: seq<Subscriber>, b: seq<Subscriber>, ids: set<nat>)
    ensures Excluding(a + b, ids) == Excluding(a, ids) + Excluding(b, ids)
  {
    if a == [] {
      assert a + b == b;
    } else {
      assert (a + b)[1..] == a[1..] + b;
      ExcludingAppend(a[1..], b, ids);
    }
  }

  lemma {:induction false} ExcludingNone(subs: seq<Subscriber>, ids: set<nat>)
    requires forall i | 0 <= i < |subs| :: subs[i].id !in ids
    ensures Excluding(subs, ids) == subs
  {
    if subs != [] {
      ExcludingNone(subs[1..], ids);
    }
  }

  lemma {:induction false} ExcludingRefusers(subs: seq<Subscriber>, ids: set<nat>, renew: Subscriber -> bool)
    requires forall i | 0 <= i < |subs| :: subs[i].id in ids <==> !renew(subs[i])
    ensures Excluding(subs, ids) == Renewing(subs, renew)
  {
    if subs != [] {
      ExcludingRefusers(subs[1..], ids, renew);
    }
  }

  lemma {:induction false} AddedFrom(requests: seq<Request>, evType: EvType, firstId: nat)
    ensures forall i | 0 <= i < |Added(requests, evType, firstId)| :: Added(requests, evType, firstId)[i].id >= firstId
  {
    if requests != [] {
      AddedFrom(requests[..|requests| - 1], evType, firstId);
    }
  }
}

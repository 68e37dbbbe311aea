/** connection_manager: the set of running clients. Starting a client files it and
    starts it; stopping one removes it and stops it; stopping all stops every client
    filed and empties the set. The calls it makes on the clients are recorded as events. */
module ConnectionManager {

  /** A client, named by the address its shared pointer holds; std::set orders its
      pointers by that address. */
  type ClientId = nat

  /** The calls the manager makes on a client. */
  datatype Event = SetConnectionManager(client: ClientId) | Start(client: ClientId) | Stop(client: ClientId)

  /** Every non-empty set of clients has a least element. */
  lemma {:induction false} LeastOf(s: set<ClientId>) returns (m: ClientId)
    requires s != {}
    ensures m in s && forall x :: x in s ==> m <= x
    decreases |s|
  {
    var e :| e in s;
    var others := s - {e};
    if others == {} {
      m := e;
      forall x | x in s
        ensures m <= x
      {
        assert x !in others;
      }
    } else {
      var l := LeastOf(others);
      m := if l < e then l else e;
      forall x | x in s
        ensures m <= x
      {
        if x != e {
          assert x in others;
        }
      }
    }
  }

  lemma LeastExists(s: set<ClientId>)
    requires s != {}
    ensures exists m :: m in s && forall x :: x in s ==> m <= x
  {
    var m := LeastOf(s);
  }

  /** The least element of a non-empty set. */
  ghost function Least(s: set<ClientId>): (m: ClientId)
    requires s != {}
    ensures m in s && forall x :: x in s ==> m <= x
  {
    LeastExists(s);
    var m :| m in s && forall x :: x in s ==> m <= x; m
  }

  /** The elements of a set in the order a range-for over std::set visits them:
      ascending. */
  ghost function Ascending(s: set<ClientId>): (r: seq<ClientId>)
    decreases |s|
  {
    if s == {} then [] else [Least(s)] + Ascending(s - {Least(s)})
  }

  /** The ascending order lists every element of the set, and nothing else, each once. */
  lemma {:induction false} AscendingLists(s: set<ClientId>)
    ensures var r := Ascending(s);
            |r| == |s| && (forall x :: x in s <==> x in r) &&
            forall i, j :: 0 <= i < j < |r| ==> r[i] < r[j]
    decreases |s|
  {
    if s != {} {
      var m := Least(s);
      AscendingLists(s - {m});
      var r := Ascending(s);
      assert r == [m] + Ascending(s - {m});
      forall i, j | 0 <= i < j < |r|
        ensures r[i] < r[j]
      {
        if i == 0 {
          assert r[j] in s - {m};
        }
      }
    }
  }

  /** One Stop event for each client, in order. */
  function StopEvents(clients: seq<ClientId>): (r: seq<Event>)
    ensures |r| == |clients|
    ensures forall i :: 0 <= i < |r| ==> r[i] == Stop(clients[i])
  {
    if clients == [] then [] else [Stop(clients[0])] + StopEvents(clients[1..])
  }

  class Manager {
    /** http_clients_. */
    var clients: set<ClientId>
    /** The calls made on clients so far, oldest first. */
    var events: seq<Event>

    constructor ()
      ensures clients == {} && events == []
    {
      clients := {};
      events := [];
    }

    /** start: files the client (once, however often it is started), then hands it the
        manager and starts it. */
    method StartClient(p: ClientId)
      modifies this
      ensures clients == old(clients) + {p}
      ensures events == old(events) + [SetConnectionManager(p), Start(p)]
    {
      clients := clients + {p};
      events := events + [SetConnectionManager(p), Start(p)];
    }

    /** stop: removes the client, whether or not it was filed, and stops it; no other
        client is touched. */
    method StopClient(p: ClientId)
      modifies this
      ensures clients == old(clients) - {p}
      ensures forall q :: q != p ==> (q in clients <==> q in old(clients))
      ensures events == old(events) + [Stop(p)]
    {
      clients := clients - {p};
      events := events + [Stop(p)];
    }

    /** stop_all: stops every filed client in ascending order, then empties the set. */
    method StopAll()
      modifies this
      ensures clients == {}
      ensures events == old(events) + StopEvents(Ascending(old(clients)))
    {
      var left := clients;
      ghost var visited: seq<ClientId> := [];
      while left != {}
        invariant visited + Ascending(left) == Ascending(old(clients))
        invariant events == old(events) + StopEvents(visited)
        decreases |left|
      {
        ghost var least := Least(left);
        var p :| p in left && forall x :: x in left ==> p <= x;
        StopNext(old(events), visited, left, p);
        events := events + [Stop(p)];
        visited := visited + [p];
        left := left - {p};
      }
      clients := {};
    }
  }

  /** One turn of stop_all's loop: stopping the least client left keeps the clients
      stopped so far a prefix of the ascending order. */
  lemma StopNext(before: seq<Event>, visited: seq<ClientId>, left: set<ClientId>, p: ClientId)
    requires p in left && forall x :: x in left ==> p <= x
    ensures visited + Ascending(left) == (visited + [p]) + Ascending(left - {p})
    ensures before + StopEvents(visited) + [Stop(p)] == before + StopEvents(visited + [p])
  {
    AscendingFromLeast(left, p);
    StopEventsAppend(visited, p);
    AppendAssoc(visited, [p], Ascending(left - {p}));
    AppendAssoc(before, StopEvents(visited), [Stop(p)]);
  }

  /** The ascending order starts with the least element. */
  lemma AscendingFromLeast(s: set<ClientId>, p: ClientId)
    requires p in s && forall x :: x in s ==> p <= x
    ensures Ascending(s) == [p] + Ascending(s - {p})
  {
    assert Least(s) == p;
  }

  lemma AppendAssoc<T>(a: seq<T>, b: seq<T>, c: seq<T>)
    ensures a + b + c == a + (b + c)
  {
  }

  lemma StopEventsAppend(clients: seq<ClientId>, p: ClientId)
    ensures StopEvents(clients + [p]) == StopEvents(clients) + [Stop(p)]
  {
  }

  /** Stopping every client after starting some: each client started is stopped exactly
      once, and none is left filed. */
  lemma StopAllStopsEachOnce(s: set<ClientId>, p: ClientId)
    ensures var stops := StopEvents(Ascending(s));
            (Stop(p) in stops <==> p in s) &&
            forall i, j :: 0 <= i < j < |stops| ==> stops[i] != stops[j]
  {
    AscendingLists(s);
    var a := Ascending(s);
    var stops := StopEvents(a);
    if p in s {
      var i :| 0 <= i < |a| && a[i] == p;
      assert stops[i] == Stop(p);
    }
  }
}

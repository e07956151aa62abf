/** The WebSocket connection registry (`ConnectionManager`): the list of open
    sockets every broadcast goes to, and the map from a user id to the one
    socket that user-directed messages go to. Sending is modelled by the set
    of sockets a send to would succeed on. */
module Connections {
  import opened SnagTypes

  /** The identity of an accepted WebSocket. */
  type SocketId = nat

  /** `list.remove`: drops the first occurrence of `x`. */
  function RemoveFirst(s: seq<SocketId>, x: SocketId): (r: seq<SocketId>)
    ensures x !in s ==> r == s
    ensures |r| == if x in s then |s| - 1 else |s|
  {
    if s == [] then []
    else
      assert s == [s[0]] + s[1..];
      if s[0] == x then s[1..] else [s[0]] + RemoveFirst(s[1..], x)
  }

  /** `remove` of a listed socket takes away exactly one of its occurrences. */
  lemma {:induction false} RemoveFirstTakesOne(s: seq<SocketId>, x: SocketId)
    requires x in s
    ensures multiset(RemoveFirst(s, x)) == multiset(s) - multiset{x}
  {
    assert s == [s[0]] + s[1..];
    if s[0] != x {
      RemoveFirstTakesOne(s[1..], x);
    }
  }

  /** `disconnect` removes only a listed socket, so for a socket listed once
      a second call leaves the list as the first one left it. */
  lemma SecondRemoveIsNoop(s: seq<SocketId>, x: SocketId)
    requires multiset(s)[x] <= 1
    ensures x !in RemoveFirst(s, x)
    ensures RemoveFirst(RemoveFirst(s, x), x) == RemoveFirst(s, x)
  {
    if x in s {
      RemoveFirstTakesOne(s, x);
      assert multiset(RemoveFirst(s, x))[x] == 0;
    }
  }

  /** Removes the sockets of `d` one at a time, in order. */
  function RemoveEach(s: seq<SocketId>, d: seq<SocketId>): seq<SocketId>
    decreases |d|
  {
    if d == [] then s else RemoveEach(RemoveFirst(s, d[0]), d[1..])
  }

  /** The sockets a send succeeds on, in list order. */
  function Surviving(s: seq<SocketId>, alive: set<SocketId>): seq<SocketId>
  {
    if s == [] then []
    else
      (if s[0] in alive then [s[0]] else []) + Surviving(s[1..], alive)
  }

  /** The `disconnected` list of `broadcast`: the sockets a send fails on, in
      list order. */
  function Dropped(s: seq<SocketId>, alive: set<SocketId>): seq<SocketId>
  {
    if s == [] then []
    else
      (if s[0] !in alive then [s[0]] else []) + Dropped(s[1..], alive)
  }

  /** The surviving sockets are exactly the listed sockets a send succeeds on. */
  lemma {:induction false} SurvivingMembers(s: seq<SocketId>, alive: set<SocketId>)
    ensures forall x :: x in Surviving(s, alive) <==> x in s && x in alive
  {
    if s != [] {
      assert s == [s[0]] + s[1..];
      SurvivingMembers(s[1..], alive);
    }
  }

  /** The collected sockets are exactly the listed sockets whose send fails. */
  lemma {:induction false} DroppedAreDead(s: seq<SocketId>, alive: set<SocketId>)
    ensures forall x :: x in Dropped(s, alive) <==> x in s && x !in alive
  {
    if s != [] {
      assert s == [s[0]] + s[1..];
      DroppedAreDead(s[1..], alive);
    }
  }

  /** Each failed socket is collected once per occurrence in the list. */
  lemma {:induction false} DroppedIsSubMultiset(s: seq<SocketId>, alive: set<SocketId>)
    ensures multiset(Dropped(s, alive)) <= multiset(s)
  {
    if s != [] {
      assert s == [s[0]] + s[1..];
      DroppedIsSubMultiset(s[1..], alive);
    }
  }

  /** Removing sockets other than the head leaves the head in front. */
  lemma {:induction false} RemoveEachSkipsHead(x: SocketId, t: seq<SocketId>, d: seq<SocketId>)
    requires x !in d
    ensures RemoveEach([x] + t, d) == [x] + RemoveEach(t, d)
    decreases |d|
  {
    if d != [] {
      assert RemoveFirst([x] + t, d[0]) == [x] + RemoveFirst(t, d[0]) by {
        assert ([x] + t)[1..] == t;
      }
      RemoveEachSkipsHead(x, RemoveFirst(t, d[0]), d[1..]);
    }
  }

  /** Removing every failed socket, one occurrence per failure, leaves exactly
      the sockets a send succeeded on, in their order. */
  lemma {:induction false} RemovingDroppedLeavesSurviving(s: seq<SocketId>, alive: set<SocketId>)
    ensures RemoveEach(s, Dropped(s, alive)) == Surviving(s, alive)
  {
    if s != [] {
      var x, t := s[0], s[1..];
      assert s == [x] + t;
      RemovingDroppedLeavesSurviving(t, alive);
      if x in alive {
        assert Dropped(s, alive) == Dropped(t, alive);
        assert Surviving(s, alive) == [x] + Surviving(t, alive);
        DroppedAreDead(t, alive);
        RemoveEachSkipsHead(x, t, Dropped(t, alive));
      } else {
        assert Dropped(s, alive) == [x] + Dropped(t, alive);
        assert RemoveFirst(s, x) == t;
      }
    }
  }

  /** A second broadcast to the same live sockets removes nothing more. */
  lemma {:induction false} SurvivingIsIdempotent(s: seq<SocketId>, alive: set<SocketId>)
    ensures Surviving(Surviving(s, alive), alive) == Surviving(s, alive)
  {
    if s != [] {
      var rest := Surviving(s[1..], alive);
      SurvivingIsIdempotent(s[1..], alive);
      if s[0] in alive {
        assert ([s[0]] + rest)[1..] == rest;
      } else {
        assert Surviving(s, alive) == rest;
      }
    }
  }

  /** The send loop of `broadcast`: the sockets a send fails on, in list order. */
  method CollectFailed(start: seq<SocketId>, alive: set<SocketId>) returns (disconnected: seq<SocketId>)
    ensures disconnected == Dropped(start, alive)
  {
    disconnected := [];
    for i := 0 to |start|
      invariant disconnected + Dropped(start[i..], alive) == Dropped(start, alive)
    {
      assert start[i..][0] == start[i] && start[i..][1..] == start[i + 1..];
      if start[i] !in alive {
        disconnected := disconnected + [start[i]];
      }
    }
    assert start[|start|..] == [];
  }

  /** The removal loop of `broadcast`: `remove` of each collected socket in
      turn. Every socket still to be removed is in the list, so no `remove`
      fails. */
  method RemoveAll(start: seq<SocketId>, disconnected: seq<SocketId>) returns (connections: seq<SocketId>)
    requires multiset(disconnected) <= multiset(start)
    ensures connections == RemoveEach(start, disconnected)
  {
    connections := start;
    for j := 0 to |disconnected|
      invariant RemoveEach(connections, disconnected[j..]) == RemoveEach(start, disconnected)
      invariant multiset(disconnected[j..]) <= multiset(connections)
    {
      assert disconnected[j..] == [disconnected[j]] + disconnected[j + 1..];
      assert disconnected[j] in multiset(disconnected[j..]);
      assert disconnected[j] in connections;
      RemoveFirstTakesOne(connections, disconnected[j]);
      connections := RemoveFirst(connections, disconnected[j]);
    }
    assert disconnected[|disconnected|..] == [];
  }

  class ConnectionManager {
    /** `active_connections["all"]`; a missing key behaves as the empty list. */
    var connections: seq<SocketId>
    /** `user_connections` */
    var userConnections: map<UserId, SocketId>

    constructor ()
      ensures connections == [] && userConnections == map[]
    {
      connections := [];
      userConnections := map[];
    }

    /** `connect`: the socket joins the broadcast list; a truthy user id is
        pointed at it, replacing that user's previous socket. */
    method Connect(ws: SocketId, userId: Option<UserId>)
      modifies this
      ensures connections == old(connections) + [ws]
      ensures userConnections == if Given(userId) then old(userConnections)[userId.value := ws] else old(userConnections)
    {
      connections := connections + [ws];
      if Given(userId) {
        userConnections := userConnections[userId.value := ws];
      }
    }

    /** The `auth` message of the WebSocket endpoint: a token whose subject
        is a truthy user id points that user at this socket. */
    method Authenticate(ws: SocketId, userId: Option<UserId>)
      modifies this
      ensures connections == old(connections)
      ensures userConnections == if Given(userId) then old(userConnections)[userId.value := ws] else old(userConnections)
    {
      if Given(userId) {
        userConnections := userConnections[userId.value := ws];
      }
    }

    /** `disconnect`, as written: one occurrence of the socket leaves the
        list, and the user's entry is deleted whichever socket it points at. */
    method Disconnect(ws: SocketId, userId: Option<UserId>)
      modifies this
      ensures connections == RemoveFirst(old(connections), ws)
      ensures Given(userId) ==> userConnections == old(userConnections) - {userId.value}
      ensures !Given(userId) ==> userConnections == old(userConnections)
    {
      if ws in connections {
        connections := RemoveFirst(connections, ws);
      }
      if Given(userId) && userId.value in userConnections {
        userConnections := userConnections - {userId.value};
      }
    }

    /** `disconnect` as intended: the user's entry is deleted only while it
        still points at the closing socket, so a newer socket of the same user
        stays reachable. */
    method Release(ws: SocketId, userId: Option<UserId>)
      modifies this
      ensures connections == RemoveFirst(old(connections), ws)
      ensures forall u :: u in old(userConnections) && old(userConnections)[u] != ws ==>
                u in userConnections && userConnections[u] == old(userConnections)[u]
      ensures Given(userId) && userId.value in old(userConnections) && old(userConnections)[userId.value] == ws ==>
                userConnections == old(userConnections) - {userId.value}
      ensures !(Given(userId) && userId.value in old(userConnections) && old(userConnections)[userId.value] == ws) ==>
                userConnections == old(userConnections)
      ensures userConnections.Keys <= old(userConnections).Keys
    {
      if ws in connections {
        connections := RemoveFirst(connections, ws);
      }
      if Given(userId) && userId.value in userConnections && userConnections[userId.value] == ws {
        userConnections := userConnections - {userId.value};
      }
    }

    /** `broadcast`: the message goes to every socket in the list; those whose
        send fails are collected and then removed one by one. The user map is
        left as it is. */
    method Broadcast(alive: set<SocketId>)
      modifies this
      ensures connections == Surviving(old(connections), alive)
      ensures userConnections == old(userConnections)
    {
      var disconnected := CollectFailed(connections, alive);
      DroppedIsSubMultiset(connections, alive);
      RemovingDroppedLeavesSurviving(connections, alive);
      connections := RemoveAll(connections, disconnected);
    }

    /** `send_to_user`: the message goes to the user's socket; a failed send
        deletes the user's entry. Returns the socket delivered to. */
    method SendToUser(userId: UserId, alive: set<SocketId>) returns (delivered: Option<SocketId>)
      modifies this
      ensures connections == old(connections)
      ensures delivered.Some? <==> userId in old(userConnections) && old(userConnections)[userId] in alive
      ensures delivered.Some? ==> delivered.value == old(userConnections)[userId]
      ensures userConnections == if userId in old(userConnections) && old(userConnections)[userId] !in alive
                                 then old(userConnections) - {userId} else old(userConnections)
    {
      delivered := None;
      if userId in userConnections {
        if userConnections[userId] in alive {
          delivered := Some(userConnections[userId]);
        } else {
          userConnections := userConnections - {userId};
        }
      }
    }
  }

  /** One user with two tabs: each tab connects and authenticates, then the
      first tab closes. As written the user is no longer reachable although
      the second tab is open; with `Release` the second tab stays registered. */
  method TwoTabs() returns (asWritten: map<UserId, SocketId>, corrected: map<UserId, SocketId>, open: seq<SocketId>)
    ensures open == [2]
    ensures "u1" !in asWritten
    ensures corrected == map["u1" := 2]
  {
    var m := new ConnectionManager();
    m.Connect(1, None);
    m.Authenticate(1, Some("u1"));
    m.Connect(2, None);
    m.Authenticate(2, Some("u1"));
    m.Disconnect(1, Some("u1"));
    asWritten := m.userConnections;
    open := m.connections;

    var n := new ConnectionManager();
    n.Connect(1, None);
    n.Authenticate(1, Some("u1"));
    n.Connect(2, None);
    n.Authenticate(2, Some("u1"));
    n.Release(1, Some("u1"));
    corrected := n.userConnections;
  }
}
